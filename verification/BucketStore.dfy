/** A bucket: one value log shared by any number of forks, each with its own index (bucket.go). */
module BucketStore {
  import opened Items
  import opened Vlog
  import opened Heap
  import opened IndexSpec
  import opened Contents
  import opened BatchIndex
  import opened ForkSpec
  import opened PopSpec
  import opened MergeSpec
  import opened RangeSpec
  import opened BucketSpec

  datatype BucketIndex = BucketIndex(Log: Writer, Mem: Index)

  class Bucket {
    const key: Key
    const continueOnErr: bool
    var log: Log
    var indexes: map<ForkName, BucketIndex>
    ghost var Repr: set<object>

    /** The objects of the bucket and how they are shared: each fork owns its index and its file. */
    ghost predicate Shaped()
      reads this, Repr
    {
      && this in Repr && log in Repr && log.mmap in Repr
      && (forall f :: f in indexes ==> indexes[f].Log in Repr && indexes[f].Mem in Repr)
      && (forall f, g :: f in indexes && g in indexes && f != g ==>
            indexes[f].Log != indexes[g].Log && indexes[f].Mem != indexes[g].Mem)
    }

    ghost function Forks(): (forks: map<ForkName, ForkValue>)
      requires Shaped()
      reads this, Repr
      ensures forks.Keys == indexes.Keys
    {
      map f | f in indexes :: ForkValue(indexes[f].Mem.Value(), indexes[f].Log.file)
    }

    ghost function Val(): Value
      requires Shaped()
      reads this, Repr
    {
      Value(log.items, Forks())
    }

    ghost predicate Valid()
      reads this, Repr
      ensures Valid() ==> this in Repr
    {
      Shaped() && log.Valid() && ValueOk(Val(), key)
    }

    lemma ValidParts()
      requires Valid()
      ensures Shaped() && Val() == Value(log.items, Forks()) && Val().forks.Keys == indexes.Keys && ValueOk(Val(), key)
    {
    }

    lemma ValidStorable()
      requires Valid()
      ensures Storable(Val().items)
    {
    }

    constructor (key: Key, log: Log, indexes: map<ForkName, BucketIndex>, continueOnErr: bool)
      ensures this.key == key && this.log == log && this.indexes == indexes && this.continueOnErr == continueOnErr
      ensures Repr == {this, log, log.mmap} + (set f | f in indexes :: indexes[f].Log)
                      + (set f | f in indexes :: indexes[f].Mem)
    {
      this.key, this.log, this.indexes, this.continueOnErr := key, log, indexes, continueOnErr;
      Repr := {this, log, log.mmap} + (set f | f in indexes :: indexes[f].Log)
              + (set f | f in indexes :: indexes[f].Mem);
    }

    static method RecordIn(idx: BucketIndex, op: Location)
      requires NoEmpty(idx.Mem.m) && StepState(idx.Mem.Value(), op).len >= 0
      modifies idx.Mem, idx.Log
      ensures ForkValue(idx.Mem.Value(), idx.Log.file) == Logged(old(ForkValue(idx.Mem.Value(), idx.Log.file)), op)
    {
      idx.Mem.Record(op);
      idx.Log.Push(op, idx.Mem.len);
    }

    /** Applies one operation to the index in memory and appends its record. */
    method Record(f: ForkName, op: Location)
      requires Shaped() && f in indexes && Representable(log.items)
      requires ForkOk(log.items, Forks()[f])
      requires LogOp(log.items, op)
      modifies indexes[f].Mem, indexes[f].Log
      ensures Shaped() && Forks() == old(Forks())[f := Logged(old(Forks()[f]), op)]
      ensures ForkOk(log.items, Forks()[f])
    {
      hide ForkOk, LogOp, Representable, Logged, NoEmpty, StepState;
      var idx := indexes[f];
      ghost var before := Forks();
      LogStep(log.items, before[f], op);
      RecordIn(idx, op);
      assert Shaped();
      hide Shaped;
      assert Forks()[f] == Logged(before[f], op);
      assert forall g :: g in indexes && g != f ==> Forks()[g] == before[g];
    }

    /** Applies one operation to every fork. */
    method RecordAll(op: Location)
      requires Shaped() && Representable(log.items) && LogOp(log.items, op)
      requires forall f :: f in indexes ==> ForkOk(log.items, Forks()[f])
      modifies (set f | f in indexes :: indexes[f].Mem), (set f | f in indexes :: indexes[f].Log)
      ensures Shaped() && Partly(old(Val()), Val(), op, indexes.Keys)
    {
      hide ForkOk, LogOp, Logged, Representable, Forks, Shaped;
      ghost var v := Val();
      var todo := indexes.Keys;
      ghost var taken: set<ForkName> := {};
      while todo != {}
        invariant todo + taken == indexes.Keys && todo !! taken
        invariant Shaped() && Partly(v, Val(), op, taken)
        decreases todo
      {
        var f :| f in todo;
        PartlyStep(v, Val(), Value(log.items, Forks()[f := Logged(Forks()[f], op)]), op, taken, f);
        Record(f, op);
        todo, taken := todo - {f}, taken + {f};
      }
    }

    ghost function Targets(all: bool, name: ForkName): set<ForkName>
      reads this
    {
      if all then indexes.Keys else indexes.Keys * {name}
    }

    /** Makes a new batch visible to all forks, or to one if it exists. */
    method Publish(loc: Location, all: bool, name: ForkName) returns (ok: bool)
      requires Shaped() && log.Valid() && Representable(log.items) && LogOp(log.items, loc)
      requires forall f :: f in indexes ==> ForkOk(log.items, Forks()[f])
      modifies (set f | f in indexes :: indexes[f].Mem), (set f | f in indexes :: indexes[f].Log)
      ensures Shaped() && log.Valid() && Partly(old(Val()), Val(), loc, Targets(all, name))
      ensures ok <==> all || name in indexes
    {
      hide ForkOk, LogOp, Logged, Representable, IsImage;
      if all {
        RecordAll(loc);
      } else {
        if name !in indexes {
          return false;
        }
        Record(name, loc);
      }
      return true;
    }

    /** Appends a batch to the log; no fork sees it yet. */
    method Append(batch: seq<Item>) returns (loc: Location)
      requires Shaped() && log.Valid() && batch != [] && Storable(batch) && Representable(log.items + batch)
      modifies `Repr, log, log.mmap
      ensures Shaped() && log.Valid() && fresh(Repr - old(Repr))
      ensures Val() == Value(old(log.items) + batch, old(Forks()))
      ensures loc == Location(batch[0].key, SizeOfAll(old(log.items)), |batch|)
      ensures Readable(log.items, loc) && Run(log.items, loc) == batch
    {
      hide IsImage, Readable, Run, Storable;
      loc := log.Push(batch);
      Repr := Repr + {log.mmap};
    }

    /** Appends a batch and makes it visible to all forks, or to one. False if that fork does not exist. */
    method Push(batch: seq<Item>, all: bool, name: ForkName) returns (ok: bool, ghost loc: Location)
      requires Valid() && Pushable(log.items, batch, key)
      modifies Repr
      ensures Valid() && fresh(Repr - old(Repr)) && indexes == old(indexes) && log == old(log)
      ensures ok <==> batch == [] || all || name in indexes
      ensures Pushed(old(Val()), Val(), batch, Targets(all, name))
      ensures Grown(old(Val()), Val()) && Upkeep(old(Val()), Val())
      ensures batch == [] ==> Val() == old(Val())
      ensures batch != [] ==>
                && LocOk(log.items, loc) && Run(log.items, loc) == batch
                && Partly(Value(log.items, old(Forks())), Val(), loc, Targets(all, name))
    {
      hide ForkOk, LogOp, Logged, Content, Readable, Run, Sorted, Storable, Representable, IsImage, ForkContent;
      hide Grown, Upkeep, Pushed, LocOk, Partly;
      ghost var v := Val();
      if |batch| == 0 {
        NothingPushed(v, batch, Targets(all, name));
        NothingGrown(v);
        return true, Location(0, 0, 0);
      }
      var at := Append(batch);
      loc := at;
      LogPushed(v, key, batch, loc);
      ok := Publish(at, all, name);
      PushEffect(v, Val(), key, batch, loc, Targets(all, name));
    }
  
    /**
     * Opens the batch the index iterator stands on; true if it was the last one. An empty location opens
     * nothing, and the index iterator stays on it.
     */
    method AddIter(batchIters: Iters, idxIter: IndexIter) returns (indexExhausted: bool)
      requires log.Valid() && idxIter.Valid() && idxIter.curr != [] && IsHeap(batchIters.its)
      requires LocOk(log.items, idxIter.curr[0]) || idxIter.curr[0].len == 0
      modifies batchIters, idxIter
      ensures idxIter.Valid() && IsHeap(batchIters.its)
      ensures old(idxIter.curr[0]).len == 0 ==>
                && !indexExhausted && batchIters.its == old(batchIters.its)
                && idxIter.curr == old(idxIter.curr) && idxIter.Todo() == old(idxIter.Todo())
      ensures old(idxIter.curr[0]).len > 0 ==>
                && multiset(batchIters.its)
                   == old(multiset(batchIters.its)) + multiset{Open(log.items, old(idxIter.curr[0]), continueOnErr)}
                && (indexExhausted <==> old(idxIter.Todo()) == [])
                && (!indexExhausted ==> idxIter.curr != [] && old(idxIter.Todo()) == [idxIter.curr[0]] + idxIter.Todo())
    {
      var loc := idxIter.Value();
      var batchIter := log.At(loc, continueOnErr);
      var nx, ok := log.Next(batchIter);
      if !ok {
        return false;
      }
      batchIters.Push(nx);
      var more := idxIter.Next();
      return !more;
    }

    /** Takes the smallest item of all opened batches and moves its iterator on. */
    method Advance(batchIters: Iters, ghost f: seq<Location>, ghost p: nat, ghost dst: seq<Item>)
      returns (item: Item, nx: Iter)
      requires log.Valid() && IsHeap(batchIters.its) && batchIters.its != [] && !batchIters.its[0].exhausted
      requires Merging(log.items, f, p, batchIters.its, dst) && Lazy(f, p, batchIters.its)
      modifies batchIters
      ensures IsHeap(batchIters.its) && batchIters.its != [] && nx in batchIters.its
      ensures Merging(log.items, f, p, batchIters.its, dst + [item])
      ensures p < |f| ==> Beneath(dst + [item], f[p].key)
    {
      hide IsImage, LocOk, Merging, Readable, Lazy, Above, Beneath;
      var curr := batchIters.its[0];
      item := curr.item;
      Take(log.items, f, p, batchIters.its, dst);
      TakenOk(log.items, curr);
      var ok;
      nx, ok := log.Next(curr);
      assert nx == Taken(log.items, curr);
      ChangedPlace(batchIters.its, 0, nx);
      batchIters.its := batchIters.its[0 := nx];
      ghost var taken := batchIters.its;
      assert taken[0] == nx;
      batchIters.Fix(0);
      MergingPermuted(log.items, f, p, taken, batchIters.its, dst + [item]);
      SameMembers(taken, batchIters.its);
    }

    /** The index iterator stands on location p of the reading order, or p is past the end. */
    ghost predicate StandsAt(idxIter: IndexIter, f: seq<Location>, p: nat)
      reads idxIter
    {
      && idxIter.Valid()
      && p <= |f|
      && (p < |f| ==> idxIter.curr != [] && [idxIter.curr[0]] + idxIter.Todo() == f[p..])
    }

    /** The batches that can be opened one after the other: all, or those before an empty location. */
    ghost predicate Openable(f: seq<Location>, g: seq<Location>)
      reads this, log
    {
      && g <= f && (|g| < |f| ==> f[|g|].len == 0)
      && (forall i :: 0 <= i < |g| ==> LocOk(log.items, g[i]))
      && (forall i :: 0 < i < |g| ==> g[i - 1].key <= g[i].key)
    }

    lemma OpenableReach(m: Locs)
      requires NoEmpty(m) && IndexOk(log.items, Reach(m))
      ensures Openable(Flatten(m), Flatten(Reach(m)))
    {
      hide LocOk;
      ReachFirst(m);
      IndexOkKeyed(log.items, Reach(m));
    }

    /** Opens the next batch if its key may come before what the iterators hold. */
    method CoverNext(batchIters: Iters, idxIter: IndexIter, indexExhausted: bool, nx: Iter,
                     ghost f: seq<Location>, ghost g: seq<Location>, ghost p: nat, ghost dst: seq<Item>)
      returns (nowExhausted: bool, ghost q: nat)
      requires log.Valid() && IsHeap(batchIters.its) && nx in batchIters.its
      requires Openable(f, g) && p <= |g| && StandsAt(idxIter, f, p) && (indexExhausted <==> p == |f|)
      requires Merging(log.items, g, p, batchIters.its, dst) && (p < |g| ==> Beneath(dst, g[p].key))
      modifies batchIters, idxIter
      ensures p <= q <= |g| && q <= p + 1 && StandsAt(idxIter, f, q) && (nowExhausted <==> q == |f|)
      ensures IsHeap(batchIters.its) && batchIters.its != []
      ensures Merging(log.items, g, q, batchIters.its, dst) && Lazy(g, q, batchIters.its)
      ensures q < |g| ==> Beneath(dst, g[q].key)
    {
      hide IsImage, LocOk, Merging, Beneath, Lazy;
      nowExhausted, q := indexExhausted, p;
      if !indexExhausted {
        var nextLoc := idxIter.Value();
        assert f[p..][0] == f[p] && f[p..][1..] == f[p + 1..];
        if nx.exhausted || nextLoc.key <= nx.item.key {
          ghost var before := batchIters.its;
          assert p < |g| ==> f[p] == g[p];
          LocsHave(log.items, f, g, p);
          nowExhausted := AddIter(batchIters, idxIter);
          if p < |g| {
            OpenNext(log.items, g, p, before, batchIters.its, dst, continueOnErr);
            q := p + 1;
          } else {
            StaysLazy(g, p, batchIters.its, nx);
          }
          return;
        }
      }
      StaysLazy(g, p, batchIters.its, nx);
    }

    /** Opens the first batch of an index, if there is one that can be opened. */
    method OpenFirst(batchIters: Iters, idxIter: IndexIter, ghost f: seq<Location>, ghost g: seq<Location>)
      returns (found: bool, indexExhausted: bool)
      requires log.Valid() && Openable(f, g) && batchIters.its == []
      requires idxIter.Valid() && idxIter.Todo() == f && idxIter.curr == []
      modifies batchIters, idxIter
      ensures !found || batchIters.its == [] ==> g == []
      ensures found && batchIters.its != [] ==>
                && IsHeap(batchIters.its) && 1 <= |g|
                && StandsAt(idxIter, f, 1) && (indexExhausted <==> 1 == |f|)
                && Merging(log.items, g, 1, batchIters.its, []) && Lazy(g, 1, batchIters.its)
    {
      hide IsImage, LocOk, Merging, Lazy, Beneath, IsHeap;
      found := idxIter.Next();
      indexExhausted := true;
      if found {
        EmptyHeap();
        assert f[0] == idxIter.curr[0] && f[1..] == idxIter.Todo();
        LocsHave(log.items, f, g, 0);
        indexExhausted := AddIter(batchIters, idxIter);
        if g != [] {
          NothingOpened(log.items, g);
          OpenNext(log.items, g, 0, [], batchIters.its, [], continueOnErr);
        }
      }
    }

    lemma LocsHave(items: seq<Item>, f: seq<Location>, g: seq<Location>, p: nat)
      requires items == log.items && Openable(f, g) && p <= |g| && p < |f|
      ensures if p < |g| then f[p] == g[p] && LocOk(items, f[p]) && f[p].len > 0 else f[p].len == 0
    {
      if p < |g| {
        LocOkRun(items, g[p]);
      }
    }

    /**
     * The n smallest items that a read of an index reaches, without consuming them: all of it, unless an
     * empty location is in the way. Batches are opened only when needed, at most one per item read and one
     * to begin with.
     */
    method Peek(n: nat, idx: Index) returns (batchIters: Iters?, dst: seq<Item>, ghost p: nat)
      requires log.Valid() && NoEmpty(idx.m) && IndexOk(log.items, Reach(idx.m))
      ensures Smallest(Content(log.items, Reach(idx.m)), n, dst)
      ensures batchIters == null ==> Reach(idx.m) == map[] && dst == []
      ensures batchIters != null ==>
                && fresh(batchIters) && ReadState(log.items, Reach(idx.m), p, batchIters.its, dst)
                && p <= |dst| + 1
    {
      hide IsImage, LocOk, IndexOk, Smallest, ReadState, Merging, Beneath, Lazy, Content, IsHeap, Flatten, Reach;
      hide Openable, StandsAt, NoEmpty;
      dst := [];
      ghost var items, f, g := log.items, Flatten(idx.m), Flatten(Reach(idx.m));
      OpenableReach(idx.m);
      NothingOpened(items, g);
      batchIters := new Iters();
      var idxIter := idx.Iter();
      var found, indexExhausted := OpenFirst(batchIters, idxIter, f, g);
      if !found || batchIters.its == [] {
        IndexOkKeyed(items, Reach(idx.m));
        NothingToRead(items, n);
        return null, dst, 0;
      }
      p := 1;
      while |dst| < n && !batchIters.its[0].exhausted
        invariant fresh(batchIters) && fresh(idxIter) && batchIters.its != []
        invariant |dst| <= n && p <= |g| && p <= |dst| + 1 && StandsAt(idxIter, f, p) && (indexExhausted <==> p == |f|)
        invariant IsHeap(batchIters.its)
        invariant Merging(items, g, p, batchIters.its, dst) && Lazy(g, p, batchIters.its)
        invariant p < |g| ==> Beneath(dst, g[p].key)
        decreases n - |dst|
      {
        var item, nx := Advance(batchIters, g, p, dst);
        dst := dst + [item];
        indexExhausted, p := CoverNext(batchIters, idxIter, indexExhausted, nx, f, g, p, dst);
      }
      ReadDone(items, Reach(idx.m), n, p, batchIters.its, dst);
    }

    /** Records that one iterator was consumed: what it still holds, if anything, then the end of its batch. */
    method PopOne(fork: ForkName, it: Iter)
      requires Shaped() && log.Valid() && fork in indexes && Representable(log.items)
      requires ForkOk(log.items, Forks()[fork]) && Opened(log.items, it)
      modifies indexes[fork].Mem, indexes[fork].Log
      ensures Shaped() && log.Valid()
      ensures Forks() == old(Forks())[fork := LoggedAll(old(Forks()[fork]), PopOp(it))]
      ensures ForkOk(log.items, Forks()[fork])
    {
      hide IsImage, ForkOk, Logged, Opened, Representable, Shaped, Forks;
      ghost var f0 := Forks()[fork];
      var dead := Dead(it.FirstKey());
      LoggedAllSnoc(f0, [], dead);
      assert [] + [dead] == [dead];
      if !it.exhausted {
        RestOk(log.items, it);
        Record(fork, it.CurrentLocation());
        LoggedAllSnoc(f0, [], it.CurrentLocation());
        assert [] + [it.CurrentLocation()] == [it.CurrentLocation()];
        LoggedAllSnoc(f0, [it.CurrentLocation()], dead);
      } else {
        assert PopOp(it) == [dead];
      }
      Record(fork, dead);
    }

    /** Records what a read consumed, iterator by iterator. */
    method PopSync(fork: ForkName, its: seq<Iter>)
      requires Shaped() && log.Valid() && fork in indexes && Representable(log.items)
      requires ForkOk(log.items, Forks()[fork]) && AllOpened(log.items, its)
      modifies indexes[fork].Mem, indexes[fork].Log
      ensures Shaped() && log.Valid() && Val() == Consumed(old(Val()), fork, its)
    {
      hide IsImage, ForkOk, Opened, LoggedAll, PopOps, Representable, Shaped, Forks;
      ghost var forks := Forks();
      ghost var f0 := forks[fork];
      NothingPopped(f0);
      assert its[..0] == [];
      for i := 0 to |its|
        invariant Shaped() && log.Valid()
        invariant Forks() == forks[fork := LoggedAll(f0, PopOps(its[..i]))]
        invariant ForkOk(log.items, Forks()[fork])
      {
        var it := its[i];
        assert its[..i + 1] == its[..i] + [it] && it in its;
        PopOpsSnoc(its[..i], it);
        LoggedAllConcat(f0, PopOps(its[..i]), PopOp(it));
        PopOne(fork, it);
      }
      assert its[..|its|] == its;
    }
  
    /**
     * Reads up to n items of a fork. The callback sees the items and may push a batch before it decides;
     * `out` is what it saw. False if the fork does not exist or the callback failed.
     */
    method Read(n: int, fork: ForkName, fn: seq<Item> -> Decision) returns (ok: bool, out: seq<Item>)
      requires Valid()
      requires forall s: seq<Item> {:trigger fn(s)} :: Pushable(log.items, fn(s).push, key)
      modifies Repr
      ensures Valid() && fresh(Repr - old(Repr)) && indexes == old(indexes) && log == old(log)
      ensures Grown(old(Val()), Val()) && Upkeep(old(Val()), Val())
      ensures n <= 0 || fork !in indexes ==> Val() == old(Val()) && out == [] && (ok <==> n <= 0)
      ensures n > 0 && fork in indexes ==>
                ReadEffect(old(Val()), Val(), fork, n, out, fn(out)) && (ok <==> !fn(out).failed)
    {
      hide IsImage, ForkOk, Opened, ReadState, Smallest, Pushable, Content, Readable, AllOpened, LocOk, Partly;
      hide ReadEffect, Pushed, Grown, Upkeep;
      NothingGrown(Val());
      if n <= 0 {
        return true, [];
      }
      if fork !in indexes {
        return false, [];
      }
      ghost var a := Val();
      ContentOfFork(a, key, fork);
      ReachAll(log.items, indexes[fork].Mem.m);
      var iters, items, p := Peek(n, indexes[fork].Mem);
      hide Forks;
      out := items;
      var d := fn(items);
      var pushed, loc := Push(d.push, true, MAIN);
      ghost var v := Val();
      if d.failed {
        PeekEffect(a, v, fork, n, out, d);
        return false, out;
      }
      match d.op {
        case ReadOpPop =>
          if iters != null {
            PopEffect(a, v, key, fork, p, iters.its, n, out, d, loc);
            GrownTwice(a, v, Consumed(v, fork, iters.its));
            PushedShape(a, v, d.push);
            UpkeepTwice(a, v, Consumed(v, fork, iters.its));
            PopSync(fork, iters.its);
          } else {
            PeekEffect(a, v, fork, n, out, d);
          }
        case ReadOpPeek =>
          PeekEffect(a, v, fork, n, out, d);
      }
      return true, out;
    }
  
    /** The parts of a batch before and after a key range. A part of length zero means there is none. */
    method Cut(loc: Location, from: Key, to: Key) returns (left: Location, right: Location)
      requires log.Valid() && LocOk(log.items, loc) && from <= to
      ensures left == Location(loc.key, loc.off, Below(Run(log.items, loc), from))
      ensures right == if UpTo(Run(log.items, loc), to) < loc.len
                       then TailLoc(log.items, loc, UpTo(Run(log.items, loc), to)) else Location(0, 0, 0)
    {
      hide IsImage, LocOk, Sorted;
      ghost var run := Run(log.items, loc);
      LocOkRun(log.items, loc);
      left := loc.(len := 0);
      right := Location(0, 0, 0);
      var it := log.At(loc, continueOnErr);
      assert run[..0] == [];
      ghost var i := 0;
      while true
        invariant 0 <= i <= loc.len && AtStep(log.items, loc, it, i)
        invariant left == Location(loc.key, loc.off, if i < Below(run, from) then i else Below(run, from))
        invariant i <= UpTo(run, to) && right == Location(0, 0, 0)
        decreases loc.len - i
      {
        if i < loc.len {
          StepTo(log.items, loc, it, i);
          BelowPrefix(run, from, i);
          UpToPrefix(run, to, i);
        }
        var ok;
        it, ok := log.Next(it);
        if !ok {
          break;
        }
        var item := it.item;
        if item.key < from {
          left := left.(len := left.len + 1);
        }
        if item.key > to && right.len == 0 {
          right := it.CurrentLocation();
          break;
        }
        i := i + 1;
      }
    }

    /** Appends the record of one part that is kept. */
    method KeepPiece(idx: BucketIndex, piece: Location, total: nat, ghost m: Locs, ghost was: seq<Byte>,
                     ghost kept: seq<Location>)
      requires Representable(log.items) && LogOp(log.items, piece) && Recorded(log.items, m, was, idx.Log.file, kept)
      modifies idx.Log
      ensures Recorded(log.items, m, was, idx.Log.file, kept + [piece])
    {
      hide Representable, LogOp, Recorded;
      RecordedStep(log.items, m, was, idx.Log.file, kept, piece, total);
      idx.Log.Push(piece, total);
    }

    /** Records the non-empty parts of a touched batch. */
    method KeepPieces(idx: BucketIndex, loc: Location, leftLoc: Location, rightLoc: Location, lenBefore: int,
                      ndeleted: int, ghost from: Key, ghost to: Key, ghost m: Locs, ghost was: seq<Byte>,
                      ghost kept: seq<Location>)
      returns (pieces: seq<Location>)
      requires Representable(log.items) && LocOk(log.items, loc) && Recorded(log.items, m, was, idx.Log.file, kept)
      requires leftLoc == Location(loc.key, loc.off, Below(Run(log.items, loc), from))
      requires rightLoc == if UpTo(Run(log.items, loc), to) < loc.len
                           then TailLoc(log.items, loc, UpTo(Run(log.items, loc), to)) else Location(0, 0, 0)
      modifies idx.Log
      ensures pieces == Pieces(log.items, loc, from, to)
      ensures Recorded(log.items, m, was, idx.Log.file, kept + pieces)
    {
      hide Representable, LocOk, Recorded;
      LocOkRun(log.items, loc);
      PiecesOk(log.items, loc, from, to);
      PiecesShape(log.items, loc, from, to, leftLoc, rightLoc);
      hide Pieces, Run, Below, UpTo, TailLoc, Sorted;
      pieces := [];
      assert kept + [] == kept;
      if leftLoc.len > 0 {
        var total := Wrap64(lenBefore - loc.len - leftLoc.len);
        assert leftLoc == Pieces(log.items, loc, from, to)[0];
        KeepPiece(idx, leftLoc, total, m, was, kept);
        pieces := [leftLoc];
      }
      assert Recorded(log.items, m, was, idx.Log.file, kept + pieces);
      if rightLoc.len > 0 {
        var total := Wrap64(lenBefore - ndeleted);
        assert rightLoc == Pieces(log.items, loc, from, to)[|pieces|];
        KeepPiece(idx, rightLoc, total, m, was, kept + pieces);
        assert kept + pieces + [rightLoc] == kept + (pieces + [rightLoc]);
        pieces := pieces + [rightLoc];
      }
    }

    /** Cuts one batch; if the range touches it, its remaining parts are recorded. */
    method ScanBatch(idx: BucketIndex, loc: Location, lenBefore: int, ndeleted: int, from: Key, to: Key,
                     ghost m: Locs, ghost was: seq<Byte>, ghost kept: seq<Location>)
      returns (locShrinked: int, pieces: seq<Location>)
      requires log.Valid() && Representable(log.items) && from <= to
      requires LocOk(log.items, loc) && Recorded(log.items, m, was, idx.Log.file, kept)
      modifies idx.Log
      ensures locShrinked == InCount(log.items, loc, from, to)
      ensures locShrinked != 0 <==> Hit(log.items, loc, from, to)
      ensures pieces == if locShrinked != 0 then Pieces(log.items, loc, from, to) else []
      ensures Recorded(log.items, m, was, idx.Log.file, kept + pieces)
    {
      hide IsImage, Representable, LocOk, Recorded, Pieces, Hit;
      LocOkRun(log.items, loc);
      CutsLength(log.items, loc, from, to);
      var leftLoc, rightLoc := Cut(loc, from, to);
      locShrinked := loc.len - leftLoc.len - rightLoc.len;
      pieces := [];
      assert kept + [] == kept;
      if locShrinked != 0 {
        pieces := KeepPieces(idx, loc, leftLoc, rightLoc, lenBefore, ndeleted + locShrinked, from, to, m, was, kept);
      }
    }

    /** Scans the locations of an index in reading order, up to the first whose key exceeds the range. */
    method ScanUpTo(idx: BucketIndex, iter: IndexIter, from: Key, to: Key,
                    ghost m: Locs, ghost was: seq<Byte>, ghost f: seq<Location>)
      returns (deleteEntries: seq<Key>, partialSetEntries: seq<Location>, ndeleted: int, ghost i: nat)
      requires log.Valid() && Representable(log.items) && from <= to && iter.Valid() && iter.Todo() == f
      requires forall j :: 0 <= j < |f| ==> LocOk(log.items, f[j])
      requires Recorded(log.items, m, was, idx.Log.file, [])
      modifies idx.Log, iter
      ensures i <= |f| && (i < |f| ==> f[i].key > to)
      ensures Scanned(log.items, f[..i], from, to, deleteEntries, partialSetEntries, ndeleted)
      ensures Recorded(log.items, m, was, idx.Log.file, partialSetEntries)
    {
      hide IsImage, Representable, LocOk, Scanned, Recorded, Flatten, Pieces, InCount, Hit;
      var lenBefore := idx.Mem.len;
      deleteEntries, partialSetEntries, ndeleted, i := [], [], 0, 0;
      NothingScanned(log.items, from, to);
      assert f[..0] == [] && f[0..] == f;
      while true
        invariant iter.Valid() && 0 <= i <= |f| && iter.Todo() == f[i..]
        invariant Scanned(log.items, f[..i], from, to, deleteEntries, partialSetEntries, ndeleted)
        invariant Recorded(log.items, m, was, idx.Log.file, partialSetEntries)
        decreases |f| - i
      {
        var more := iter.Next();
        if !more {
          return;
        }
        var loc := iter.Value();
        assert loc == f[i] && f[..i + 1] == f[..i] + [loc];
        if loc.key > to {
          return;
        }
        ScanStep(log.items, f[..i], loc, from, to, deleteEntries, partialSetEntries, ndeleted);
        var locShrinked, pieces := ScanBatch(idx, loc, lenBefore, ndeleted, from, to, m, was, partialSetEntries);
        i := i + 1;
        if locShrinked == 0 {
          assert partialSetEntries + pieces == partialSetEntries;
          continue;
        }
        partialSetEntries := partialSetEntries + pieces;
        deleteEntries := deleteEntries + [loc.key];
        ndeleted := ndeleted + locShrinked;
      }
    }

    /**
     * Finds out what a range deletion touches: the keys of the touched batches, the pieces to keep and
     * the number of items. The pieces are recorded in the index file right away.
     */
    method ScanRange(idx: BucketIndex, from: Key, to: Key)
      returns (deleteEntries: seq<Key>, partialSetEntries: seq<Location>, ndeleted: int)
      requires log.Valid() && Representable(log.items) && from <= to
      requires ForkOk(log.items, ForkValue(idx.Mem.Value(), idx.Log.file))
      modifies idx.Log
      ensures Scanned(log.items, Flatten(idx.Mem.m), from, to, deleteEntries, partialSetEntries, ndeleted)
      ensures Recorded(log.items, idx.Mem.m, old(idx.Log.file), idx.Log.file, partialSetEntries)
    {
      hide IsImage, Representable, LocOk, Scanned, Recorded, Mirrored, Counted, Flatten;
      ghost var m := idx.Mem.m;
      ForkParts(log.items, ForkValue(idx.Mem.Value(), idx.Log.file));
      IndexOkKeyed(log.items, m);
      NothingRecorded(log.items, m, idx.Log.file);
      hide ForkOk, IndexOk;
      var iter := idx.Mem.Iter();
      ghost var i;
      deleteEntries, partialSetEntries, ndeleted, i := ScanUpTo(idx, iter, from, to, m, idx.Log.file, Flatten(m));
      ScanStop(log.items, m, i, from, to, deleteEntries, partialSetEntries, ndeleted);
    }
  
    /** Records the end of every touched batch and forgets it in memory. */
    method DropBatches(idx: BucketIndex, deleteEntries: seq<Key>, total: nat,
                       ghost m: Locs, ghost was: seq<Byte>, ghost pieces: seq<Location>)
      requires Representable(log.items) && Counted(log.items, idx.Mem.Value()) && idx.Mem.m == m
      requires Recorded(log.items, m, was, idx.Log.file, pieces)
      modifies idx.Mem, idx.Log
      ensures Counted(log.items, idx.Mem.Value()) && idx.Mem.m == DeleteAll(m, deleteEntries)
      ensures Recorded(log.items, m, was, idx.Log.file, pieces + Deads(deleteEntries))
      ensures deleteEntries != [] && total < TWO_32 ==> LastTrailer(idx.Log.file) == total
    {
      hide Recorded, Counted, Representable, LocOk, EncodeRecord, LastTrailer;
      assert deleteEntries[..0] == [] && Deads([]) == [] && pieces + [] == pieces;
      for j := 0 to |deleteEntries|
        invariant Counted(log.items, idx.Mem.Value()) && idx.Mem.m == DeleteAll(m, deleteEntries[..j])
        invariant Recorded(log.items, m, was, idx.Log.file, pieces + Deads(deleteEntries[..j]))
        invariant j > 0 && total < TWO_32 ==> LastTrailer(idx.Log.file) == total
      {
        var key := deleteEntries[j];
        var dead := Dead(key);
        assert deleteEntries[..j + 1] == deleteEntries[..j] + [key];
        DeleteAllSnoc(m, deleteEntries[..j], key);
        CountedStep(log.items, idx.Mem.Value(), dead);
        CountedNoEmpty(log.items, idx.Mem.Value());
        RecordedStep(log.items, m, was, idx.Log.file, pieces + Deads(deleteEntries[..j]), dead, total);
        LastTrailerAppend(idx.Log.file, dead, total);
        assert pieces + Deads(deleteEntries[..j]) + [dead] == pieces + Deads(deleteEntries[..j + 1]);
        var loc := idx.Mem.Delete(key);
        idx.Log.Push(dead, total);
      }
      assert deleteEntries[..|deleteEntries|] == deleteEntries;
    }

    method KeepAll(idx: BucketIndex, partialSetEntries: seq<Location>)
      requires Counted(log.items, idx.Mem.Value())
      requires forall i :: 0 <= i < |partialSetEntries| ==> LocOk(log.items, partialSetEntries[i])
      modifies idx.Mem
      ensures Counted(log.items, idx.Mem.Value()) && idx.Mem.m == SetAll(old(idx.Mem.m), partialSetEntries)
    {
      hide Counted, LocOk;
      ghost var m := idx.Mem.m;
      assert partialSetEntries[..0] == [];
      for j := 0 to |partialSetEntries|
        invariant Counted(log.items, idx.Mem.Value()) && idx.Mem.m == SetAll(m, partialSetEntries[..j])
      {
        var loc := partialSetEntries[j];
        assert partialSetEntries[..j + 1] == partialSetEntries[..j] + [loc];
        SetAllSnoc(m, partialSetEntries[..j], loc);
        LocOkLength(log.items, loc);
        CountedStep(log.items, idx.Mem.Value(), loc);
        idx.Mem.Set(loc);
      }
      assert partialSetEntries[..|partialSetEntries|] == partialSetEntries;
    }
  
    /** Replaces the touched batches by their pieces, once the pieces are recorded. */
    method FinishDelete(idx: BucketIndex, from: Key, to: Key, deleteEntries: seq<Key>,
                        partialSetEntries: seq<Location>, total: nat, ghost n: int, ghost was: seq<Byte>)
      requires Representable(log.items) && from <= to && Counted(log.items, idx.Mem.Value())
      requires Scanned(log.items, Flatten(idx.Mem.m), from, to, deleteEntries, partialSetEntries, n)
      requires Recorded(log.items, idx.Mem.m, was, idx.Log.file, partialSetEntries)
      modifies idx.Mem, idx.Log
      ensures ForkOk(log.items, ForkValue(idx.Mem.Value(), idx.Log.file))
      ensures idx.Mem.m == Deleted(log.items, old(idx.Mem.m), from, to)
      ensures Records(idx.Log.file) == Records(was) + (partialSetEntries + Deads(deleteEntries)) && was <= idx.Log.file
      ensures deleteEntries != [] && total < TWO_32 ==> LastTrailer(idx.Log.file) == total
    {
      hide Recorded, Representable, LocOk, LastTrailer, Flatten, Mirrored, Deleted, Content, Scanned, IndexOk;
      ghost var items, m := log.items, idx.Mem.m;
      CountedOk(items, idx.Mem.Value());
      DeleteOrders(items, m, from, to, deleteEntries, partialSetEntries, n);
      hide Counted;
      DropBatches(idx, deleteEntries, total, m, was, partialSetEntries);
      KeepAll(idx, partialSetEntries);
      RecordedMirrors(items, m, was, idx.Log.file, partialSetEntries + Deads(deleteEntries));
    }

    /** Deletes a key range from one fork: first the records, then the index in memory. */
    method DeleteFrom(idx: BucketIndex, from: Key, to: Key) returns (ndeleted: int)
      requires log.Valid() && Representable(log.items) && from <= to
      requires ForkOk(log.items, ForkValue(idx.Mem.Value(), idx.Log.file))
      modifies idx.Mem, idx.Log
      ensures ForkOk(log.items, ForkValue(idx.Mem.Value(), idx.Log.file))
      ensures idx.Mem.m == Deleted(log.items, old(idx.Mem.m), from, to)
      ensures Records(idx.Log.file) == old(Records(idx.Log.file)) + DeleteOps(log.items, old(idx.Mem.m), from, to)
      ensures old(idx.Log.file) <= idx.Log.file
      ensures ndeleted == InCounts(log.items, Hits(log.items, Flatten(old(idx.Mem.m)), from, to), from, to)
      ensures ndeleted != 0 && HitsAreOldest(log.items, old(idx.Mem.m), from, to) ==>
                Stamped(ForkValue(idx.Mem.Value(), idx.Log.file))
    {
      hide Recorded, Representable, LastTrailer, IsImage, Flatten, HitsAreOldest, Deleted, Content, Wrap64, Mirrored;
      hide IndexOk;
      var lenBefore := idx.Mem.len;
      ghost var items, m, was := log.items, idx.Mem.m, idx.Log.file;
      ForkParts(items, ForkValue(idx.Mem.Value(), was));
      var deleteEntries, partialSetEntries, n := ScanRange(idx, from, to);
      ndeleted := n;
      ScannedOps(items, m, from, to, deleteEntries, partialSetEntries, n);
      hide Scanned, DeleteOps, Hits, InCounts, Records, Deads;
      FinishDelete(idx, from, to, deleteEntries, partialSetEntries, Wrap64(lenBefore - n), n, was);
      if HitsAreOldest(items, m, from, to) {
        DeletedTotal(items, m, from, to, deleteEntries, partialSetEntries, n, idx.Mem.Value(), lenBefore);
      }
    }
  
    /** Deletes a key range from a fork that exists; nothing else in the bucket changes. */
    method DeleteFork(fork: ForkName, from: Key, to: Key) returns (ndeleted: int)
      requires Valid() && fork in indexes && from <= to
      modifies indexes[fork].Mem, indexes[fork].Log
      ensures Shaped() && log.Valid() && fork in Forks()
      ensures Forks() == old(Forks())[fork := Forks()[fork]] && ForkOk(log.items, Forks()[fork])
      ensures Forks()[fork].state.m == Deleted(log.items, old(Forks())[fork].state.m, from, to)
      ensures Records(Forks()[fork].file)
              == Records(old(Forks())[fork].file) + DeleteOps(log.items, old(Forks())[fork].state.m, from, to)
      ensures old(Forks())[fork].file <= Forks()[fork].file
      ensures ndeleted == InCounts(log.items, Hits(log.items, Flatten(old(Forks())[fork].state.m), from, to), from, to)
      ensures ndeleted != 0 && HitsAreOldest(log.items, old(Forks())[fork].state.m, from, to) ==> Stamped(Forks()[fork])
    {
      hide ForkOk, IsImage, Representable, HitsAreOldest, Stamped, Flatten, Deleted, DeleteOps, Hits, InCounts, Records;
      ghost var before := Forks();
      ndeleted := DeleteFrom(indexes[fork], from, to);
      assert forall g :: g in indexes && g != fork ==> Forks()[g] == before[g];
    }

    /**
     * Deletes all items of a fork whose key lies in the range, as far as FIFO deletes can tell batches
     * apart. False for an inverted range or an unknown fork.
     */
    method Delete(fork: ForkName, from: Key, to: Key) returns (ok: bool, ndeleted: int)
      requires Valid()
      modifies Repr
      ensures Valid() && Repr == old(Repr) && indexes == old(indexes) && log == old(log)
      ensures ok <==> key > to || (from <= to && fork in indexes)
      ensures !ok ==> Val() == old(Val()) && ndeleted == 0
      ensures ok && fork in indexes && from <= to ==> DeleteEffect(old(Val()), Val(), fork, from, to, ndeleted)
      ensures ok && (fork !in indexes || from > to) ==> Val() == old(Val()) && ndeleted == 0
      ensures fork in indexes && HitsAreOldest(old(Val()).items, old(Val()).forks[fork].state.m, from, to) ==>
                Upkeep(old(Val()), Val())
    {
      hide ForkOk, IsImage, DeleteEffect, Representable, HitsAreOldest, Upkeep, Stamped, Flatten, Deleted;
      hide DeleteOps, Hits, InCounts, Records;
      ghost var a := Val();
      NothingGrown(a);
      if key > to {
        if fork in indexes {
          NothingBelow(a, key, fork, from, to);
        }
        return true, 0;
      }
      if to < from {
        return false, 0;
      }
      if fork !in indexes {
        return false, 0;
      }
      hide Forks;
      ndeleted := DeleteFork(fork, from, to);
      ok := true;
      DeleteEffectOk(a, Val(), key, fork, from, to, ndeleted);
      if HitsAreOldest(log.items, a.forks[fork].state.m, from, to) {
        DeleteUpkeep(a, Val(), key, fork, from, to, ndeleted);
      }
    }

    predicate AllEmpty()
      requires Shaped()
      reads this, Repr
    {
      forall f :: f in indexes ==> indexes[f].Mem.len <= 0
    }

    function Len(fork: ForkName): int
      requires Shaped()
      reads this, Repr
    {
      if fork in indexes then indexes[fork].Mem.len else 0
    }

    /** The stored length of a fork is the number of items it holds. */
    lemma LenIsContent(fork: ForkName)
      requires Valid()
      ensures Len(fork) == |ForkContent(Val(), fork)|
      ensures AllEmpty() <==> forall f :: f in indexes ==> ForkContent(Val(), f) == multiset{}
    {
    }

    method CopyIndex(src: ForkName) returns (idx: BucketIndex)
      requires Shaped() && src in indexes && ForkOk(log.items, Forks()[src])
      ensures fresh(idx.Log) && fresh(idx.Mem)
      ensures idx.Mem.Value() == Forks()[src].state && idx.Log.file == Compact(Flatten(Forks()[src].state.m), 0)
    {
      hide Flatten, Compact, Content;
      var dstIdxLog := new Writer([]);
      WriteIndex(indexes[src].Mem, dstIdxLog);
      assert [] + dstIdxLog.file == dstIdxLog.file;
      var mem := indexes[src].Mem.Copy();
      idx := BucketIndex(dstIdxLog, mem);
    }

    method Register(dst: ForkName, idx: BucketIndex)
      requires Shaped() && dst !in indexes && idx.Log !in Repr && idx.Mem !in Repr
      modifies `indexes, `Repr
      ensures Shaped() && Repr == old(Repr) + {idx.Log, idx.Mem} && indexes == old(indexes)[dst := idx]
    {
      indexes := indexes[dst := idx];
      Repr := Repr + {idx.Log, idx.Mem};
    }

    method AddFork(dst: ForkName, idx: BucketIndex)
      requires Shaped() && dst !in indexes && idx.Log !in Repr && idx.Mem !in Repr
      modifies `indexes, `Repr
      ensures Shaped() && Repr == old(Repr) + {idx.Log, idx.Mem}
      ensures Forks() == old(Forks())[dst := ForkValue(idx.Mem.Value(), idx.Log.file)]
    {
      ghost var forks := Forks();
      Register(dst, idx);
      hide Shaped;
      assert Forks()[dst] == ForkValue(idx.Mem.Value(), idx.Log.file);
      assert forall f :: f in forks ==> Forks()[f] == forks[f];
    }

    /** Starts a new fork with what the source fork holds now; an existing fork is left alone. */
    method Fork(src: ForkName, dst: ForkName) returns (ok: bool)
      requires Valid()
      modifies Repr
      ensures Valid() && fresh(Repr - old(Repr)) && log == old(log)
      ensures ok <==> src in old(indexes)
      ensures !ok || dst in old(indexes) ==> Val() == old(Val())
      ensures ok && dst !in old(indexes) ==> ForkEffect(old(Val()), Val(), src, dst)
    {
      hide ForkOk, Representable, IsImage, Flatten, Compact, Forks;
      if src !in indexes {
        return false;
      }
      if dst in indexes {
        return true;
      }
      ghost var a := Val();
      var idx := CopyIndex(src);
      AddFork(dst, idx);
      ForkEffectOk(a, Val(), key, src, dst);
      return true;
    }

    method Unregister(fork: ForkName)
      requires Shaped()
      modifies `indexes
      ensures Shaped() && indexes == old(indexes) - {fork} && Forks() == old(Forks()) - {fork}
    {
      ghost var forks := Forks();
      indexes := indexes - {fork};
      assert forall f :: f in indexes ==> Forks()[f] == forks[f];
      assert Forks() == forks - {fork};
    }

    /** Drops a fork with its index and its file. */
    method RemoveFork(fork: ForkName) returns (ok: bool)
      requires Valid()
      modifies this
      ensures Valid() && Repr == old(Repr) && log == old(log)
      ensures ok <==> fork in old(indexes)
      ensures Val() == Value(old(log.items), old(Val()).forks - {fork})
    {
      hide ForkOk, Representable, IsImage;
      ghost var a := Val();
      if fork !in indexes {
        assert a.forks - {fork} == a.forks;
        return false;
      }
      Unregister(fork);
      return true;
    }
  }
}
