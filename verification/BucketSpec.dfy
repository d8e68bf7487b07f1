/** What the operations of a bucket do to its value: forks over one log (bucket.go). */
module BucketSpec {
  import opened Items
  import opened Vlog
  import opened Heap
  import opened IndexSpec
  import opened Contents
  import opened BatchIndex
  import opened ForkSpec
  import opened PopSpec
  import opened MergeSpec
  import opened RangeSpec
  import opened Spots

  type ForkName = string

  const MAIN: ForkName := ""

  datatype ReadOp = ReadOpPeek | ReadOpPop

  /** What a read callback does: it may push a batch, then it asks to peek or pop, or it fails. */
  datatype Decision = Decision(push: seq<Item>, op: ReadOp, failed: bool)

  /** A bucket as a value. */
  datatype Value = Value(items: seq<Item>, forks: map<ForkName, ForkValue>)

  ghost function ForkContent(v: Value, f: ForkName): multiset<Item> {
    if f in v.forks then Content(v.items, v.forks[f].state.m) else multiset{}
  }

  ghost predicate ValueOk(v: Value, key: Key) {
    && Representable(v.items)
    && (forall f :: f in v.forks ==> ForkOk(v.items, v.forks[f]))
    && (forall i :: 0 <= i < |v.items| ==> key <= v.items[i].key)
  }

  /** A batch the bucket can take: sorted, of the bucket's key range, and within the format's limits. */
  ghost predicate Pushable(items: seq<Item>, batch: seq<Item>, key: Key) {
    && Sorted(batch)
    && Storable(batch)
    && Representable(items + batch)
    && forall i :: 0 <= i < |batch| ==> key <= batch[i].key
  }

  /** The log gains the batch, and so do the named forks. */
  ghost predicate Pushed(a: Value, b: Value, batch: seq<Item>, targets: set<ForkName>) {
    && b.items == a.items + batch
    && b.forks.Keys == a.forks.Keys
    && forall f :: f in a.forks ==>
         (ForkContent(b, f) == if f in targets then ForkContent(a, f) + multiset(batch) else ForkContent(a, f))
  }

  /** The batch is in the log but not yet in any index. */
  lemma LogPushed(v: Value, key: Key, batch: seq<Item>, loc: Location)
    requires ValueOk(v, key) && Pushable(v.items, batch, key) && batch != []
    requires loc.key == batch[0].key && Readable(v.items + batch, loc) && Run(v.items + batch, loc) == batch
    ensures var v1 := Value(v.items + batch, v.forks);
            && ValueOk(v1, key)
            && LogOp(v1.items, loc) && LocOk(v1.items, loc)
            && loc.len > 0
            && forall f :: f in v.forks ==> ForkContent(v1, f) == ForkContent(v, f)
  {
    BatchOk(v.items, batch, loc);
    forall f | f in v.forks
      ensures ForkOk(v.items + batch, v.forks[f])
      ensures Content(v.items + batch, v.forks[f].state.m) == Content(v.items, v.forks[f].state.m)
    {
      ForkStable(v.items, batch, v.forks[f]);
    }
  }

  /** Some forks have taken the new location, the others are untouched. */
  ghost predicate Partly(v: Value, w: Value, loc: Location, taken: set<ForkName>) {
    && w.items == v.items
    && w.forks.Keys == v.forks.Keys
    && forall f :: f in v.forks ==> w.forks[f] == if f in taken then Logged(v.forks[f], loc) else v.forks[f]
  }

  lemma PartlyStep(v: Value, w: Value, w': Value, op: Location, taken: set<ForkName>, f: ForkName)
    requires Partly(v, w, op, taken) && f in v.forks && f !in taken
    requires w' == Value(w.items, w.forks[f := Logged(w.forks[f], op)])
    ensures Partly(v, w', op, taken + {f})
  {
    hide Logged;
  }

  lemma PartlyOk(v: Value, w: Value, key: Key, loc: Location, taken: set<ForkName>)
    requires ValueOk(v, key) && LogOp(v.items, loc) && loc.len > 0 && Partly(v, w, loc, taken)
    ensures ValueOk(w, key)
    ensures forall f :: f in v.forks ==>
              (ForkContent(w, f)
               == if f in taken then ForkContent(v, f) + multiset(Run(v.items, loc)) else ForkContent(v, f))
  {
    forall f | f in v.forks
      ensures ForkOk(v.items, w.forks[f])
      ensures ForkContent(w, f)
              == if f in taken then ForkContent(v, f) + multiset(Run(v.items, loc)) else ForkContent(v, f)
    {
      LoggedOk(v.items, v.forks[f], loc);
    }
  }

  lemma PushDone(v: Value, w: Value, key: Key, batch: seq<Item>, loc: Location, taken: set<ForkName>)
    requires ValueOk(v, key) && Pushable(v.items, batch, key) && batch != []
    requires loc.key == batch[0].key && Readable(v.items + batch, loc) && Run(v.items + batch, loc) == batch
    requires Partly(Value(v.items + batch, v.forks), w, loc, taken)
    ensures ValueOk(w, key) && Pushed(v, w, batch, taken)
  {
    LogPushed(v, key, batch, loc);
    PartlyOk(Value(v.items + batch, v.forks), w, key, loc, taken);
  }

  /** A read of n items: the n smallest in order, or all if there are fewer. */
  ghost predicate Smallest(content: multiset<Item>, n: nat, out: seq<Item>) {
    && Sorted(out)
    && multiset(out) <= content
    && |out| == (if n <= |content| then n else |content|)
    && Precedes(out, content - multiset(out))
  }

  lemma NothingOpened(items: seq<Item>, f: seq<Location>)
    ensures Merging(items, f, 0, [], []) && forall k :: Beneath([], k)
  {
  }

  lemma NothingToRead(items: seq<Item>, n: nat)
    ensures Smallest(Content(items, map[]), n, [])
  {
  }

  lemma IndexOkKeyed(items: seq<Item>, m: Locs)
    requires IndexOk(items, m)
    ensures Keyed(m) && (Flatten(m) == [] <==> m == map[])
    ensures forall i :: 0 <= i < |Flatten(m)| ==> LocOk(items, Flatten(m)[i])
    ensures forall i :: 0 < i < |Flatten(m)| ==> Flatten(m)[i - 1].key <= Flatten(m)[i].key
  {
    FlattenEmpty(m);
    forall i | 0 <= i < |Flatten(m)|
      ensures LocOk(items, Flatten(m)[i]) && (i > 0 ==> Flatten(m)[i - 1].key <= Flatten(m)[i].key)
    {
      FlattenOk(items, m, i);
      if i > 0 { FlattenSorted(m, i - 1, i); }
    }
  }

  lemma ReadDone(items: seq<Item>, m: Locs, n: nat, p: nat, its: seq<Iter>, out: seq<Item>)
    requires IndexOk(items, m) && Merging(items, Flatten(m), p, its, out)
    requires IsHeap(its) && its != [] && Lazy(Flatten(m), p, its) && |out| <= n
    requires |out| == n || its[0].exhausted
    requires p < |Flatten(m)| ==> Beneath(out, Flatten(m)[p].key)
    ensures ReadState(items, m, p, its, out) && Smallest(Content(items, m), n, out)
  {
    StartsTotal(its);
    ReadSplit(items, m, p, its, out);
    ReadComplete(items, m, n, p, its, out);
    LeftAbove(items, m, p, its, out);
    var left := Total(Flatten(m)[p..], Bag(items)) + Total(its, RestBag(items));
    assert Content(items, m) - multiset(out) == left;
  }

  /**
   * A read of n items by one fork: the callback saw the n smallest items, its push went to all forks,
   * and the items are gone from this fork if and only if it decided to pop.
   */
  ghost predicate ReadEffect(a: Value, b: Value, fork: ForkName, n: nat, out: seq<Item>, d: Decision) {
    && Smallest(ForkContent(a, fork), n, out)
    && b.items == a.items + d.push
    && b.forks.Keys == a.forks.Keys
    && (forall f :: f in a.forks && f != fork ==> ForkContent(b, f) == ForkContent(a, f) + multiset(d.push))
    && ForkContent(b, fork) + (if d.op.ReadOpPop? && !d.failed then multiset(out) else multiset{})
       == ForkContent(a, fork) + multiset(d.push)
  }

  /** The value after consuming the iterators of a read in one fork. */
  ghost function Consumed(v: Value, fork: ForkName, its: seq<Iter>): Value
    requires fork in v.forks
  {
    Value(v.items, v.forks[fork := LoggedAll(v.forks[fork], PopOps(its))])
  }

  lemma NothingPopped(f: ForkValue)
    ensures LoggedAll(f, PopOps([])) == f
  {
  }

  /** The locations a push added to the index of a fork. */
  function AsPushed(batch: seq<Item>, loc: Location): seq<Location> {
    if batch == [] then [] else [loc]
  }

  lemma ConsumedEffect(a: Value, v: Value, key: Key, fork: ForkName, p: nat, its: seq<Iter>, out: seq<Item>,
                       batch: seq<Item>, loc: Location)
    requires ValueOk(a, key) && ValueOk(v, key) && fork in a.forks && fork in v.forks
    requires v.items == a.items + batch
    requires ReadState(a.items, a.forks[fork].state.m, p, its, out)
    requires batch != [] ==> LocOk(v.items, loc) && Run(v.items, loc) == batch
    requires v.forks[fork].state.m == SetAll(a.forks[fork].state.m, AsPushed(batch, loc))
    ensures LogOps(v.items, PopOps(its))
    ensures ValueOk(Consumed(v, fork, its), key)
    ensures ForkContent(Consumed(v, fork, its), fork) + multiset(out) == ForkContent(a, fork) + multiset(batch)
    ensures forall f :: f in v.forks && f != fork ==> ForkContent(Consumed(v, fork, its), f) == ForkContent(v, f)
  {
    hide Opened, LocOk, Content, ForkOk, Logged, ReadState;
    var m, pushed := a.forks[fork].state.m, AsPushed(batch, loc);
    ContentOfFork(a, key, fork);
    ReadStateStable(a.items, batch, m, p, its, out);
    ContentStable(a.items, batch, m);
    PopRemoves(v.items, m, p, its, out, pushed);
    PushedTotal(v.items, batch, loc);
    PopOpsForm(v.items, its);
    LoggedAllOk(v.items, v.forks[fork], PopOps(its));
    ContentOfFork(v, key, fork);
    LoggedAllState(v.forks[fork], PopOps(its));
  }

  lemma ConsumedUpkeep(a: Value, v: Value, key: Key, fork: ForkName, p: nat, its: seq<Iter>, out: seq<Item>,
                       batch: seq<Item>, loc: Location)
    requires ValueOk(a, key) && ValueOk(v, key) && fork in a.forks && fork in v.forks
    requires v.items == a.items + batch && LogOps(v.items, PopOps(its))
    requires ReadState(a.items, a.forks[fork].state.m, p, its, out)
    requires batch != [] ==> LocOk(v.items, loc)
    requires v.forks[fork].state.m == SetAll(a.forks[fork].state.m, AsPushed(batch, loc))
    ensures Upkeep(v, Consumed(v, fork, its))
  {
    hide ReadState, LocOk, ValueOk, LoggedAll, PopOps, Stamped, Once, LogOps, SetAll, IndexOk;
    var m, pushed := a.forks[fork].state.m, AsPushed(batch, loc);
    ContentOfFork(a, key, fork);
    ContentOfFork(v, key, fork);
    ReadStateStable(a.items, batch, m, p, its, out);
    LoggedAllState(v.forks[fork], PopOps(its));
    ConsumedStamped(v, key, fork, its);
    if OnceIn(v, fork) {
      OnceConsume(v.items, m, p, its, out, pushed);
    }
  }

  lemma ContentOfFork(v: Value, key: Key, fork: ForkName)
    requires ValueOk(v, key) && fork in v.forks
    ensures IndexOk(v.items, v.forks[fork].state.m) && NoEmpty(v.forks[fork].state.m)
    ensures v.forks[fork].state.len == |ForkContent(v, fork)|
  {
  }

  lemma PushedTotal(items: seq<Item>, batch: seq<Item>, loc: Location)
    requires batch != [] ==> Run(items, loc) == batch
    ensures Total(AsPushed(batch, loc), Bag(items)) == multiset(batch)
  {
    if batch != [] {
      TotalOne(loc, Bag(items));
    }
  }

  /** A callback's push, seen from one fork: one more location in its index. */
  lemma AfterCallback(a: Value, v: Value, fork: ForkName, batch: seq<Item>, loc: Location)
    requires fork in a.forks && v.forks.Keys == a.forks.Keys
    requires batch == [] ==> v == a
    requires batch != [] ==> loc.len > 0 && Partly(Value(v.items, a.forks), v, loc, a.forks.Keys)
    ensures v.forks[fork].state.m == SetAll(a.forks[fork].state.m, AsPushed(batch, loc))
  {
    var m := a.forks[fork].state.m;
    if batch != [] {
      assert SetAll(m, [loc]) == SetAll(SetLoc(m, loc), []);
    }
  }

  // ---------- Index files only grow ----------

  /** The index file of every fork keeps its records, in place, and may have gained some. */
  ghost predicate Grown(a: Value, b: Value) {
    forall f :: f in a.forks ==> f in b.forks && Records(a.forks[f].file) <= Records(b.forks[f].file)
  }

  lemma NothingGrown(a: Value)
    ensures Grown(a, a) && Upkeep(a, a)
  {
    hide Records, Stamped, OnceIn;
  }

  lemma NothingPushed(a: Value, batch: seq<Item>, targets: set<ForkName>)
    requires batch == []
    ensures Pushed(a, a, batch, targets)
  {
    hide ForkContent;
    assert a.items + batch == a.items;
    assert multiset(batch) == multiset{};
  }

  lemma GrownTwice(a: Value, b: Value, c: Value)
    requires Grown(a, b) && Grown(b, c)
    ensures Grown(a, c)
  {
    hide Records;
  }

  lemma PushGrown(a: Value, v: Value, key: Key, batch: seq<Item>, loc: Location, taken: set<ForkName>)
    requires ValueOk(a, key) && v.items == a.items + batch && Representable(v.items) && LocOk(v.items, loc)
    requires Partly(Value(v.items, a.forks), v, loc, taken)
    ensures Grown(a, v)
    ensures forall f :: f in a.forks && f in taken ==> Records(v.forks[f].file) == Records(a.forks[f].file) + [loc]
  {
    hide ForkOk, Logged, Records, LocOk;
    forall f | f in a.forks && f in taken
      ensures Records(v.forks[f].file) == Records(a.forks[f].file) + [loc]
    {
      ForkStable(a.items, batch, a.forks[f]);
      LoggedOk(v.items, a.forks[f], loc);
    }
  }

  lemma ConsumedGrown(v: Value, key: Key, fork: ForkName, its: seq<Iter>)
    requires ValueOk(v, key) && fork in v.forks && LogOps(v.items, PopOps(its))
    ensures Grown(v, Consumed(v, fork, its))
  {
    hide ForkOk, Records, LoggedAll, PopOps, LogOps;
    LoggedAllOk(v.items, v.forks[fork], PopOps(its));
  }

  lemma PeekEffect(a: Value, v: Value, fork: ForkName, n: nat, out: seq<Item>, d: Decision)
    requires Smallest(ForkContent(a, fork), n, out) && fork in a.forks
    requires Pushed(a, v, d.push, a.forks.Keys)
    requires d.failed || d.op.ReadOpPeek? || out == []
    ensures ReadEffect(a, v, fork, n, out, d)
  {
    hide Smallest, ForkContent;
  }

  lemma PopEffect(a: Value, v: Value, key: Key, fork: ForkName, p: nat, its: seq<Iter>, n: nat, out: seq<Item>,
                  d: Decision, loc: Location)
    requires ValueOk(a, key) && ValueOk(v, key) && fork in a.forks && fork in v.forks
    requires Smallest(ForkContent(a, fork), n, out) && !d.failed && d.op.ReadOpPop?
    requires ReadState(a.items, a.forks[fork].state.m, p, its, out)
    requires Pushed(a, v, d.push, a.forks.Keys)
    requires d.push == [] ==> v == a
    requires d.push != [] ==>
               && LocOk(v.items, loc) && Run(v.items, loc) == d.push
               && Partly(Value(v.items, a.forks), v, loc, a.forks.Keys)
    ensures AllOpened(v.items, its)
    ensures ValueOk(Consumed(v, fork, its), key)
    ensures ReadEffect(a, Consumed(v, fork, its), fork, n, out, d)
    ensures Grown(v, Consumed(v, fork, its)) && Upkeep(v, Consumed(v, fork, its))
  {
    hide Upkeep, ReadState, LocOk, ValueOk, Smallest, Content, AllOpened, Logged, PopOps, LoggedAll;
    hide ForkContent, Pushed;
    hide ReadEffect, Grown, LogOps;
    PushedShape(a, v, d.push);
    if d.push != [] {
      LocOkLength(v.items, loc);
    }
    AfterCallback(a, v, fork, d.push, loc);
    hide Partly;
    OpenedAfterPush(a.items, d.push, a.forks[fork].state.m, p, its, out);
    ConsumedEffect(a, v, key, fork, p, its, out, d.push, loc);
    ConsumedUpkeep(a, v, key, fork, p, its, out, d.push, loc);
    ConsumedGrown(v, key, fork, its);
    PopReadEffect(a, v, Consumed(v, fork, its), fork, n, out, d);
  }

  lemma PushedShape(a: Value, v: Value, batch: seq<Item>)
    requires Pushed(a, v, batch, a.forks.Keys)
    ensures v.items == a.items + batch && v.forks.Keys == a.forks.Keys
  {
  }

  lemma PopReadEffect(a: Value, v: Value, w: Value, fork: ForkName, n: nat, out: seq<Item>, d: Decision)
    requires Smallest(ForkContent(a, fork), n, out) && !d.failed && d.op.ReadOpPop?
    requires Pushed(a, v, d.push, a.forks.Keys)
    requires w.items == v.items && w.forks.Keys == v.forks.Keys
    requires forall f :: f in v.forks && f != fork ==> ForkContent(w, f) == ForkContent(v, f)
    requires ForkContent(w, fork) + multiset(out) == ForkContent(a, fork) + multiset(d.push)
    ensures ReadEffect(a, w, fork, n, out, d)
  {
    hide Smallest, ForkContent;
  }

  lemma LocOkLength(items: seq<Item>, loc: Location)
    requires LocOk(items, loc)
    ensures loc.len > 0
  {
  }

  lemma OpenedAfterPush(items: seq<Item>, more: seq<Item>, m: Locs, p: nat, its: seq<Iter>, out: seq<Item>)
    requires ReadState(items, m, p, its, out)
    ensures AllOpened(items + more, its)
  {
    OpenedAllStable(items, more, its);
  }

  // ---------- What every operation keeps of a fork ----------

  /** The fork refers to no stored item twice. */
  ghost predicate OnceIn(v: Value, f: ForkName)
    requires f in v.forks
  {
    Once(v.items, v.forks[f].state.m)
  }

  /** The last record still tells the length if it did, and no stored item is indexed twice if none was. */
  ghost predicate Upkeep(a: Value, b: Value) {
    forall f :: f in a.forks && f in b.forks ==>
      && (Stamped(a.forks[f]) ==> Stamped(b.forks[f]))
      && (OnceIn(a, f) ==> OnceIn(b, f))
  }

  lemma PushUpkeep(a: Value, v: Value, key: Key, batch: seq<Item>, loc: Location, taken: set<ForkName>)
    requires ValueOk(a, key) && v.items == a.items + batch && Representable(v.items) && LocOk(v.items, loc)
    requires loc.off == SizeOfAll(a.items) && loc.len == |batch|
    requires Partly(Value(v.items, a.forks), v, loc, taken)
    ensures Upkeep(a, v)
  {
    hide ForkOk, Logged, LocOk, Once, Stamped;
    forall f | f in a.forks
      ensures Stamped(a.forks[f]) ==> Stamped(v.forks[f])
      ensures OnceIn(a, f) ==> OnceIn(v, f)
    {
      ContentOfFork(a, key, f);
      SpotsSame(a.items, batch, a.forks[f].state.m);
      if f in taken {
        ForkStable(a.items, batch, a.forks[f]);
        LoggedStamped(v.items, a.forks[f], loc);
        if OnceIn(a, f) {
          OncePush(a.items, batch, a.forks[f].state.m, loc);
        }
      }
    }
  }

  /** All that a push of a batch does to the value of a bucket. */
  lemma PushEffect(a: Value, v: Value, key: Key, batch: seq<Item>, loc: Location, taken: set<ForkName>)
    requires ValueOk(a, key) && Pushable(a.items, batch, key) && batch != []
    requires loc == Location(batch[0].key, SizeOfAll(a.items), |batch|)
    requires Readable(a.items + batch, loc) && Run(a.items + batch, loc) == batch
    requires Partly(Value(a.items + batch, a.forks), v, loc, taken)
    ensures ValueOk(v, key) && Pushed(a, v, batch, taken) && Grown(a, v) && Upkeep(a, v)
    ensures LocOk(v.items, loc) && Partly(Value(v.items, a.forks), v, loc, taken)
  {
    hide ForkOk, ForkContent, Readable, Run, Grown, Upkeep, Pushed, LocOk, Sorted, Storable;
    LogPushed(a, key, batch, loc);
    PushDone(a, v, key, batch, loc, taken);
    PushGrown(a, v, key, batch, loc, taken);
    PushUpkeep(a, v, key, batch, loc, taken);
  }

  lemma LoggedStamped(items: seq<Item>, f: ForkValue, loc: Location)
    requires Representable(items) && ForkOk(items, f) && LocOk(items, loc)
    ensures Stamped(Logged(f, loc)) && Logged(f, loc).state.m == SetLoc(f.state.m, loc)
  {
    LoggedOk(items, f, loc);
  }

  lemma SpotsSame(items: seq<Item>, more: seq<Item>, m: Locs)
    requires IndexOk(items, m)
    ensures Once(items + more, m) <==> Once(items, m)
  {
    SpotsStable(items, more, m);
  }

  lemma ConsumedStamped(v: Value, key: Key, fork: ForkName, its: seq<Iter>)
    requires ValueOk(v, key) && fork in v.forks && LogOps(v.items, PopOps(its))
    ensures Stamped(v.forks[fork]) ==> Stamped(Consumed(v, fork, its).forks[fork])
  {
    hide ForkOk, LogOps, LastTrailer;
    if PopOps(its) != [] && LoggedAll(v.forks[fork], PopOps(its)).state.len < TWO_32 {
      LoggedAllTrailer(v.items, v.forks[fork], PopOps(its));
    }
  }

  lemma UpkeepTwice(a: Value, b: Value, c: Value)
    requires Upkeep(a, b) && Upkeep(b, c) && b.forks.Keys == a.forks.Keys
    ensures Upkeep(a, c)
  {
    hide Stamped, OnceIn;
  }

  lemma {:induction false} HitsCounted(items: seq<Item>, locs: seq<Location>, from: Key, to: Key)
    requires from <= to && forall i :: 0 <= i < |locs| ==> LocOk(items, locs[i])
    ensures InCounts(items, Hits(items, locs, from, to), from, to) >= |Hits(items, locs, from, to)|
  {
    hide LocOk;
    if locs != [] {
      HitsCounted(items, locs[1..], from, to);
      CutsLength(items, locs[0], from, to);
    }
  }

  lemma SameFile(a: seq<Byte>, b: seq<Byte>)
    requires Whole(a) && Whole(b) && a <= b && Records(a) == Records(b)
    ensures a == b
  {
    RecordsLength(a);
    RecordsLength(b);
  }

  /** A deletion that finds nothing records nothing. */
  lemma NothingDeleted(a: Value, b: Value, key: Key, fork: ForkName, from: Key, to: Key)
    requires ValueOk(a, key) && ValueOk(b, key) && from <= to && DeleteEffect(a, b, fork, from, to, 0)
    ensures b.forks[fork].file == a.forks[fork].file && b.forks[fork].state.len == a.forks[fork].state.len
  {
    hide LocOk;
    var m := a.forks[fork].state.m;
    ContentOfFork(a, key, fork);
    ContentOfFork(b, key, fork);
    IndexOkKeyed(a.items, m);
    HitsCounted(a.items, Flatten(m), from, to);
    assert Keys([]) == [] && Deads([]) == [];
    assert Records(a.forks[fork].file) + [] == Records(a.forks[fork].file);
    SameFile(a.forks[fork].file, b.forks[fork].file);
  }

  lemma DeleteUpkeep(a: Value, b: Value, key: Key, fork: ForkName, from: Key, to: Key, n: int)
    requires ValueOk(a, key) && ValueOk(b, key) && from <= to && DeleteEffect(a, b, fork, from, to, n)
    requires n != 0 ==> Stamped(b.forks[fork])
    requires HitsAreOldest(a.items, a.forks[fork].state.m, from, to)
    ensures Upkeep(a, b)
  {
    hide ValueOk, Deleted, DeleteOps, Hits, InCounts, Once, HitsAreOldest, IndexOk;
    ContentOfFork(a, key, fork);
    if OnceIn(a, fork) {
      OnceDelete(a.items, a.forks[fork].state.m, from, to);
    }
    if n == 0 {
      NothingDeleted(a, b, key, fork, from, to);
    }
  }

  /** Phases of a range deletion: the pieces are recorded first, then the deletes. */
  ghost predicate Recorded(items: seq<Item>, m: Locs, was: seq<Byte>, file: seq<Byte>, ops: seq<Location>) {
    && Mirrored(items, ApplyAll(m, ops), file)
    && Records(file) == Records(was) + ops
    && was <= file
  }

  lemma RecordedStep(items: seq<Item>, m: Locs, was: seq<Byte>, file: seq<Byte>, ops: seq<Location>,
                     op: Location, total: nat)
    requires Representable(items) && Recorded(items, m, was, file, ops) && LogOp(items, op)
    ensures Recorded(items, m, was, file + EncodeRecord(op, total), ops + [op])
  {
    ApplyAllConcat(m, ops, [op]);
    assert ApplyAll(ApplyAll(m, ops), [op]) == ApplyAll(Apply(ApplyAll(m, ops), op), []);
    MirroredStep(items, ApplyAll(m, ops), file, op, total);
    assert Records(was) + ops + [op] == Records(was) + (ops + [op]);
  }

  lemma ForkParts(items: seq<Item>, f: ForkValue)
    requires ForkOk(items, f)
    ensures IndexOk(items, f.state.m) && f.state.len == |Content(items, f.state.m)|
    ensures Mirrored(items, f.state.m, f.file)
  {
  }

  lemma CountedOk(items: seq<Item>, s: State)
    requires Counted(items, s)
    ensures IndexOk(items, s.m)
  {
  }

  lemma CountedNoEmpty(items: seq<Item>, s: State)
    requires Counted(items, s)
    ensures NoEmpty(s.m)
  {
  }

  lemma RecordedMirrors(items: seq<Item>, m: Locs, was: seq<Byte>, file: seq<Byte>, ops: seq<Location>)
    requires Recorded(items, m, was, file, ops)
    ensures Mirrored(items, ApplyAll(m, ops), file) && Records(file) == Records(was) + ops && was <= file
  {
  }

  lemma DeletedLength(items: seq<Item>, m: Locs, from: Key, to: Key, keys: seq<Key>, pieces: seq<Location>, n: int)
    requires IndexOk(items, m) && from <= to && HitsAreOldest(items, m, from, to)
    requires Scanned(items, Flatten(m), from, to, keys, pieces, n)
    ensures n != 0 ==> keys != []
    ensures |Content(items, Deleted(items, m, from, to))| == |Content(items, m)| - n
  {
    DeletedSound(items, m, from, to);
  }

  /** The total recorded with the deletes is the new length. */
  lemma DeletedTotal(items: seq<Item>, m: Locs, from: Key, to: Key, keys: seq<Key>, pieces: seq<Location>, n: int,
                     s: State, lenBefore: int)
    requires IndexOk(items, m) && from <= to && HitsAreOldest(items, m, from, to)
    requires Scanned(items, Flatten(m), from, to, keys, pieces, n) && lenBefore == |Content(items, m)|
    requires Counted(items, s) && s.m == Deleted(items, m, from, to)
    ensures n != 0 && s.len < TWO_32 ==> keys != [] && Wrap64(lenBefore - n) == s.len
  {
    hide HitsAreOldest, Scanned, Deleted, Counted, Content, IndexOk, Wrap64;
    DeletedLength(items, m, from, to, keys, pieces, n);
    CountedLen(items, s);
    WrapSmall(s.len);
  }

  lemma CountedLen(items: seq<Item>, s: State)
    requires Counted(items, s)
    ensures s.len == |Content(items, s.m)|
  {
  }

  lemma WrapSmall(x: int)
    ensures 0 <= x < TWO_64 ==> Wrap64(x) == x
  {
  }

  lemma NothingScanned(items: seq<Item>, from: Key, to: Key)
    ensures Scanned(items, [], from, to, [], [], 0)
  {
  }

  lemma NothingRecorded(items: seq<Item>, m: Locs, was: seq<Byte>)
    requires Mirrored(items, m, was)
    ensures Recorded(items, m, was, was, [])
  {
    assert Records(was) + [] == Records(was);
  }

  /** The parts of a cut and what lies between them make up the batch. */
  lemma CutsLength(items: seq<Item>, loc: Location, from: Key, to: Key)
    requires LocOk(items, loc) && from <= to
    ensures Below(Run(items, loc), from) <= UpTo(Run(items, loc), to) <= loc.len
    ensures Hit(items, loc, from, to) <==> InCount(items, loc, from, to) > 0
  {
    CutsSorted(Run(items, loc), from, to);
  }

  function Wrap64(x: int): nat {
    x % TWO_64
  }

  /** A range deletion touches the index of one fork only, and does to it what Deleted says. */
  ghost predicate DeleteEffect(a: Value, b: Value, fork: ForkName, from: Key, to: Key, ndeleted: int) {
    && fork in a.forks && fork in b.forks
    && b == Value(a.items, a.forks[fork := b.forks[fork]])
    && b.forks[fork].state.m == Deleted(a.items, a.forks[fork].state.m, from, to)
    && Records(b.forks[fork].file)
       == Records(a.forks[fork].file) + DeleteOps(a.items, a.forks[fork].state.m, from, to)
    && a.forks[fork].file <= b.forks[fork].file
    && ndeleted == InCounts(a.items, Hits(a.items, Flatten(a.forks[fork].state.m), from, to), from, to)
  }

  /**
   * What a range deletion achieves: the fork loses exactly the items in the range if and only if, under
   * each key, the touched batches are the oldest; the count returned is then the number of items lost.
   */
  lemma DeleteExact(a: Value, b: Value, key: Key, fork: ForkName, from: Key, to: Key, ndeleted: int)
    requires ValueOk(a, key) && from <= to && DeleteEffect(a, b, fork, from, to, ndeleted)
    ensures RangeRemoved(ForkContent(a, fork), ForkContent(b, fork), from, to)
            <==> HitsAreOldest(a.items, a.forks[fork].state.m, from, to)
    ensures HitsAreOldest(a.items, a.forks[fork].state.m, from, to) ==>
              ndeleted == |ForkContent(a, fork)| - |ForkContent(b, fork)|
    ensures forall f :: f in a.forks && f != fork ==> ForkContent(b, f) == ForkContent(a, f)
  {
    var m := a.forks[fork].state.m;
    ContentOfFork(a, key, fork);
    DeletedExact(a.items, m, from, to);
    if HitsAreOldest(a.items, m, from, to) {
      DeletedSound(a.items, m, from, to);
    }
  }

  lemma FirstStored(items: seq<Item>, loc: Location)
    requires LocOk(items, loc)
    ensures Run(items, loc)[0] in items
  {
    hide Sorted;
    DropEncoded(items, loc.off);
    assert Run(items, loc)[0] == Drop(items, loc.off)[0];
  }

  /** A bucket whose keys all exceed the range is not affected. */
  lemma NothingBelow(a: Value, key: Key, fork: ForkName, from: Key, to: Key)
    requires ValueOk(a, key) && fork in a.forks && key > to
    ensures DeleteEffect(a, a, fork, from, to, 0)
  {
    var m := a.forks[fork].state.m;
    var f := Flatten(m);
    ContentOfFork(a, key, fork);
    forall i | 0 <= i < |f|
      ensures !Hit(a.items, f[i], from, to)
    {
      FlattenOk(a.items, m, i);
      FirstStored(a.items, f[i]);
    }
    NoHits(a.items, f, from, to);
    UntouchedEffect(a, fork, from, to);
  }

  lemma UntouchedEffect(a: Value, fork: ForkName, from: Key, to: Key)
    requires fork in a.forks && Hits(a.items, Flatten(a.forks[fork].state.m), from, to) == []
    ensures DeleteEffect(a, a, fork, from, to, 0)
  {
    hide Flatten, Records, Hits;
    assert Keys([]) == [] && Deads([]) == [];
    assert Records(a.forks[fork].file) + [] == Records(a.forks[fork].file);
    assert a.forks == a.forks[fork := a.forks[fork]];
  }

  lemma DeleteEffectOk(a: Value, b: Value, key: Key, fork: ForkName, from: Key, to: Key, n: int)
    requires ValueOk(a, key) && fork in a.forks && fork in b.forks
    requires b == Value(a.items, a.forks[fork := b.forks[fork]])
    requires ForkOk(a.items, b.forks[fork]) && a.forks[fork].file <= b.forks[fork].file
    requires Records(b.forks[fork].file)
             == Records(a.forks[fork].file) + DeleteOps(a.items, a.forks[fork].state.m, from, to)
    requires b.forks[fork].state.m == Deleted(a.items, a.forks[fork].state.m, from, to)
    requires n == InCounts(a.items, Hits(a.items, Flatten(a.forks[fork].state.m), from, to), from, to)
    ensures ValueOk(b, key) && DeleteEffect(a, b, fork, from, to, n)
  {
    hide ForkOk, Deleted, InCounts;
  }

  /** A new fork gets a copy of the index and a compacted index file. */
  ghost predicate ForkEffect(a: Value, b: Value, src: ForkName, dst: ForkName) {
    && src in a.forks
    && b == Value(a.items, a.forks[dst := ForkValue(a.forks[src].state, Compact(Flatten(a.forks[src].state.m), 0))])
  }

  lemma ForkEffectOk(a: Value, b: Value, key: Key, src: ForkName, dst: ForkName)
    requires ValueOk(a, key) && ForkEffect(a, b, src, dst)
    ensures ValueOk(b, key)
  {
    hide LocOk;
    var m := a.forks[src].state.m;
    ContentOfFork(a, key, src);
    CompactMirrors(a.items, m);
  }

  /** The compacted file mirrors the index. */
  lemma CompactMirrors(items: seq<Item>, m: Locs)
    requires IndexOk(items, m) && Representable(items)
    ensures Mirrored(items, m, Compact(Flatten(m), 0))
  {
    var f := Flatten(m);
    forall i | 0 <= i < |f|
      ensures Fits(f[i]) && LocOk(items, f[i])
    {
      FlattenOk(items, m, i);
      LocFits(items, f[i]);
    }
    CompactRecords(f, 0);
    FlattenReplays(m);
  }
}
