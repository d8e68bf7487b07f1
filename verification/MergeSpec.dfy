/** The invariant of the lazy k-way merge that reads a bucket (peek in bucket.go). */
module MergeSpec {
  import opened Items
  import opened Vlog
  import opened Heap
  import opened IndexSpec
  import opened Contents
  import opened PopSpec

  /** No item of `rest` sorts before an item of `out`. */
  ghost predicate Precedes(out: seq<Item>, rest: multiset<Item>) {
    forall i, y :: 0 <= i < |out| && y in rest ==> out[i].key <= y.key
  }

  /** All unfinished iterators stand at or above everything read so far. */
  ghost predicate Above(its: seq<Iter>, out: seq<Item>) {
    forall it, i :: it in its && !it.exhausted && 0 <= i < |out| ==> out[i].key <= it.item.key
  }

  /** Some unfinished iterator stands at or below the next batch of the index. */
  ghost predicate Ahead(its: seq<Iter>, next: Key) {
    exists it :: it in its && !it.exhausted && it.item.key <= next
  }

  /** After p batches were opened: what was read and what the iterators still hold is what these batches held. */
  ghost predicate Merging(items: seq<Item>, f: seq<Location>, p: nat, its: seq<Iter>, out: seq<Item>) {
    && p <= |f|
    && AllOpened(items, its)
    && Total(its, StartBag()) == multiset(f[..p])
    && multiset(out) + Total(its, RestBag(items)) == Total(f[..p], Bag(items))
    && Sorted(out)
    && Above(its, out)
  }

  /** A batch is opened lazily: as long as one is left, the smallest opened item does not exceed its key. */
  ghost predicate Lazy(f: seq<Location>, p: nat, its: seq<Iter>) {
    p < |f| ==> Ahead(its, f[p].key)
  }

  lemma StaysLazy(f: seq<Location>, p: nat, its: seq<Iter>, it: Iter)
    requires p < |f| ==> it in its && !it.exhausted && it.item.key <= f[p].key
    ensures Lazy(f, p, its)
  {
  }

  lemma MergingPermuted(items: seq<Item>, f: seq<Location>, p: nat, its: seq<Iter>, its': seq<Iter>, out: seq<Item>)
    requires Merging(items, f, p, its, out) && multiset(its) == multiset(its')
    ensures Merging(items, f, p, its', out)
    ensures forall k :: Ahead(its, k) ==> Ahead(its', k)
  {
    SameMembers(its, its');
    TotalPermutation(its, its', StartBag());
    TotalPermutation(its, its', RestBag(items));
  }

  lemma SameMembers<T>(a: seq<T>, b: seq<T>)
    requires multiset(a) == multiset(b)
    ensures forall x :: x in a <==> x in b
  {
    forall x
      ensures x in a <==> x in b
    {
      assert x in a <==> x in multiset(a);
      assert x in b <==> x in multiset(b);
    }
  }

  /** The iterator that opening a batch yields. */
  ghost function Open(items: seq<Item>, loc: Location, continueOnErr: bool): Iter
    requires Readable(items, loc)
  {
    Stepped(Iter(loc, loc.off, 0, Item(0, []), false, loc.len, 0, false, continueOnErr), Drop(items, loc.off)[0])
  }

  /** The iterator after its current item was taken. */
  ghost function Taken(items: seq<Item>, it: Iter): Iter
    requires Opened(items, it) && !it.exhausted
  {
    if it.currLen == 0 || Drop(items, it.currOff) == [] then it.(exhausted := true)
    else Stepped(it, Drop(items, it.currOff)[0])
  }

  lemma OpenOk(items: seq<Item>, loc: Location, c: bool)
    requires LocOk(items, loc)
    ensures var it := Open(items, loc, c);
            Opened(items, it) && Rest(items, it) == Run(items, loc) && it.start == loc && !it.exhausted
            && it.item.key == loc.key
  {
  }

  lemma TakenRest(items: seq<Item>, it: Iter)
    requires Opened(items, it) && !it.exhausted
    ensures Rest(items, it) != [] && Rest(items, it)[0] == it.item
    ensures Live(items, Taken(items, it)) && Rest(items, Taken(items, it)) == Rest(items, it)[1..]
    ensures it.currLen > 0 ==> Drop(items, it.currOff) != [] && |Rest(items, it)| > 1
    ensures it.currLen > 0 ==> Rest(items, it)[1] == Taken(items, it).item
  {
    hide LocOk, Sorted, InPlace;
    var rest, run := Drop(items, it.prevOff), Rest(items, it);
    DropStep(items, it.prevOff);
    assert run[0] == it.item;
    if it.currLen > 0 {
      assert Drop(items, it.currOff) == rest[1..];
      assert Run(items, Taken(items, it).CurrentLocation()) == rest[1..][..it.currLen] == run[1..];
    }
  }

  lemma TakenInPlace(items: seq<Item>, it: Iter)
    requires Opened(items, it) && !it.exhausted
    ensures var nx := Taken(items, it); nx.exhausted || InPlace(items, nx)
  {
    hide LocOk, Sorted;
    DropStep(items, it.prevOff);
  }

  lemma TakenOk(items: seq<Item>, it: Iter)
    requires Opened(items, it) && !it.exhausted
    ensures Rest(items, it) != [] && Rest(items, it)[0] == it.item
    ensures var nx := Taken(items, it);
            && Opened(items, nx)
            && Rest(items, nx) == Rest(items, it)[1..]
            && nx.start == it.start
            && (!nx.exhausted ==> it.item.key <= nx.item.key)
    ensures it.currLen > 0 ==> Drop(items, it.currOff) != []
  {
    var run, nx := Rest(items, it), Taken(items, it);
    TakenInPlace(items, it);
    TakenRest(items, it);
    assert |run| <= it.start.len && run == Run(items, it.start)[it.start.len - |run|..];
    assert |Run(items, it.start)| == it.start.len && Sorted(Run(items, it.start));
    assert nx.start == it.start && (it.currLen == 0 ==> nx.exhausted);
    hide InPlace, Readable, Rest, Run, Taken, Drop;
    RunTail(Run(items, it.start), it.start.len - |run|, run);
    if it.currLen > 0 {
      assert run[0].key <= run[1].key;
    }
  }

  lemma RunTail(s: seq<Item>, n: nat, run: seq<Item>)
    requires Sorted(s) && n < |s| && run == s[n..]
    ensures Sorted(run) && run[1..] == s[n + 1..]
  {
  }

  /** Everything read so far sorts at or below the next batch. */
  ghost predicate Beneath(out: seq<Item>, next: Key) {
    forall i :: 0 <= i < |out| ==> out[i].key <= next
  }

  lemma RootAhead(its: seq<Iter>, next: Key)
    requires IsHeap(its) && its != [] && Ahead(its, next)
    ensures !its[0].exhausted && its[0].item.key <= next
  {
    RootDecides(its);
    var it :| it in its && !it.exhausted && it.item.key <= next;
    var j :| 0 <= j < |its| && its[j] == it;
  }

  lemma TakeOpened(items: seq<Item>, its: seq<Iter>)
    requires its != [] && AllOpened(items, its) && !its[0].exhausted
    ensures var its' := its[0 := Taken(items, its[0])];
            AllOpened(items, its') && Total(its', StartBag()) == Total(its, StartBag())
  {
    var nx := Taken(items, its[0]);
    var its' := its[0 := nx];
    assert its[0] in its;
    TakenOk(items, its[0]);
    assert its'[1..] == its[1..];
    forall it | it in its'
      ensures Opened(items, it)
    {
      assert it == nx || it in its;
    }
  }

  lemma TakeRests(items: seq<Item>, its: seq<Iter>, out: seq<Item>)
    requires its != [] && Opened(items, its[0]) && !its[0].exhausted
    ensures multiset(out + [its[0].item]) + Total(its[0 := Taken(items, its[0])], RestBag(items))
            == multiset(out) + Total(its, RestBag(items))
  {
    var x, nx := its[0].item, Taken(items, its[0]);
    TakenOk(items, its[0]);
    HeadCount(Rest(items, its[0]));
    assert its[0 := nx][1..] == its[1..];
    var others := Total(its[1..], RestBag(items));
    assert Total(its, RestBag(items)) == multiset{x} + multiset(Rest(items, nx)) + others;
    assert Total(its[0 := nx], RestBag(items)) == multiset(Rest(items, nx)) + others;
  }

  lemma TakeOrder(its: seq<Iter>, nx: Iter, out: seq<Item>)
    requires IsHeap(its) && its != [] && !its[0].exhausted && Sorted(out) && Above(its, out)
    requires !nx.exhausted ==> its[0].item.key <= nx.item.key
    ensures Sorted(out + [its[0].item]) && Above(its[0 := nx], out + [its[0].item])
  {
    var x := its[0].item;
    assert its[0] in its;
    RootDecides(its);
    forall it | it in its[0 := nx] && !it.exhausted
      ensures x.key <= it.item.key
    {
      if it != nx {
        var j :| 0 <= j < |its| && its[j] == it;
      }
    }
    assert forall i :: 0 <= i < |out| ==> out[i].key <= x.key;
  }

  lemma TakeBeneath(its: seq<Iter>, out: seq<Item>, next: Key)
    requires IsHeap(its) && its != [] && Above(its, out) && Ahead(its, next)
    ensures Beneath(out + [its[0].item], next)
  {
    RootAhead(its, next);
    assert its[0] in its;
  }

  /** Taking the root's item keeps the merge going. */
  lemma Take(items: seq<Item>, f: seq<Location>, p: nat, its: seq<Iter>, out: seq<Item>)
    requires Merging(items, f, p, its, out) && IsHeap(its) && its != [] && !its[0].exhausted && Lazy(f, p, its)
    ensures Opened(items, its[0])
    ensures Merging(items, f, p, its[0 := Taken(items, its[0])], out + [its[0].item])
    ensures p < |f| ==> Beneath(out + [its[0].item], f[p].key)
  {
    assert its[0] in its;
    TakenOk(items, its[0]);
    TakeOpened(items, its);
    TakeRests(items, its, out);
    TakeOrder(its, Taken(items, its[0]), out);
    if p < |f| {
      TakeBeneath(its, out, f[p].key);
    }
  }

  lemma OpenTotals(items: seq<Item>, f: seq<Location>, p: nat, its: seq<Iter>, it: Iter, out: seq<Item>)
    requires p < |f| && it.start == f[p] && Rest(items, it) == Run(items, f[p])
    requires Total(its, StartBag()) == multiset(f[..p])
    requires multiset(out) + Total(its, RestBag(items)) == Total(f[..p], Bag(items))
    ensures Total(its + [it], StartBag()) == multiset(f[..p + 1])
    ensures multiset(out) + Total(its + [it], RestBag(items)) == Total(f[..p + 1], Bag(items))
  {
    hide Total, Rest, Run;
    var run := multiset(Run(items, f[p]));
    assert f[..p + 1] == f[..p] + [f[p]];
    TotalSnoc(its, it, StartBag());
    TotalSnoc(its, it, RestBag(items));
    TotalSnoc(f[..p], f[p], Bag(items));
    assert multiset(out) + (Total(its, RestBag(items)) + run) == (multiset(out) + Total(its, RestBag(items))) + run;
  }

  /** Opening the next batch keeps the merge going, and the opened batch covers the one after it. */
  lemma OpenNext(items: seq<Item>, f: seq<Location>, p: nat, its: seq<Iter>, its': seq<Iter>, out: seq<Item>, c: bool)
    requires Merging(items, f, p, its, out) && p < |f| && LocOk(items, f[p]) && Beneath(out, f[p].key)
    requires multiset(its') == multiset(its) + multiset{Open(items, f[p], c)}
    requires p + 1 < |f| ==> f[p].key <= f[p + 1].key
    ensures Merging(items, f, p + 1, its', out) && Lazy(f, p + 1, its')
    ensures p + 1 < |f| ==> Beneath(out, f[p + 1].key)
  {
    var it := Open(items, f[p], c);
    var all := its + [it];
    OpenOk(items, f[p], c);
    OpenTotals(items, f, p, its, it, out);
    assert it in all;
    assert multiset(its') == multiset(all);
    MergingPermuted(items, f, p + 1, all, its', out);
    if p + 1 < |f| {
      assert Ahead(all, f[p + 1].key);
    }
  }

  lemma {:induction false} AllDone(items: seq<Item>, its: seq<Iter>)
    requires forall it :: it in its ==> it.exhausted
    ensures Total(its, RestBag(items)) == multiset{}
  {
    if its != [] {
      assert its[0] in its;
      AllDone(items, its[1..]);
    }
  }

  lemma RunFrom(run: seq<Item>, y: Item)
    requires Sorted(run) && y in multiset(run)
    ensures run[0].key <= y.key
  {
    assert y in run;
  }

  lemma RestSorted(items: seq<Item>, it: Iter)
    requires Opened(items, it) && !it.exhausted
    ensures Sorted(Rest(items, it)) && Rest(items, it) != [] && Rest(items, it)[0] == it.item
  {
    var s, run := Run(items, it.start), Rest(items, it);
    RunTail(s, |s| - |run|, run);
  }

  lemma RestFrom(items: seq<Item>, it: Iter, y: Item)
    requires Opened(items, it) && y in multiset(Rest(items, it))
    ensures !it.exhausted && it.item.key <= y.key
  {
    RestSorted(items, it);
    RunFrom(Rest(items, it), y);
  }

  lemma OpenedAbove(items: seq<Item>, its: seq<Iter>, out: seq<Item>, y: Item)
    requires AllOpened(items, its) && Above(its, out) && y in Total(its, RestBag(items))
    ensures Beneath(out, y.key)
  {
    TotalMembers(its, RestBag(items), y);
    var it :| it in its && y in multiset(Rest(items, it));
    RestFrom(items, it, y);
  }

  lemma UnopenedAbove(items: seq<Item>, m: Locs, p: nat, out: seq<Item>, y: Item)
    requires IndexOk(items, m) && p < |Flatten(m)| && Beneath(out, Flatten(m)[p].key)
    requires y in Total(Flatten(m)[p..], Bag(items))
    ensures Beneath(out, y.key)
  {
    var f := Flatten(m);
    TotalMembers(f[p..], Bag(items), y);
    var loc :| loc in f[p..] && y in multiset(Run(items, loc));
    var j :| p <= j < |f| && f[j] == loc;
    FlattenOk(items, m, j);
    FlattenSorted(m, p, j);
    RunFrom(Run(items, loc), y);
  }

  /** What a read returned precedes all it left. */
  lemma LeftAbove(items: seq<Item>, m: Locs, p: nat, its: seq<Iter>, out: seq<Item>)
    requires IndexOk(items, m) && Merging(items, Flatten(m), p, its, out)
    requires p < |Flatten(m)| ==> Beneath(out, Flatten(m)[p].key)
    ensures Precedes(out, Total(Flatten(m)[p..], Bag(items)) + Total(its, RestBag(items)))
  {
    var rest := Total(Flatten(m)[p..], Bag(items)) + Total(its, RestBag(items));
    forall y | y in rest
      ensures Beneath(out, y.key)
    {
      if y in Total(its, RestBag(items)) {
        OpenedAbove(items, its, out, y);
      } else {
        assert p < |Flatten(m)|;
        UnopenedAbove(items, m, p, out, y);
      }
    }
  }

  lemma ReadSplit(items: seq<Item>, m: Locs, p: nat, its: seq<Iter>, out: seq<Item>)
    requires Merging(items, Flatten(m), p, its, out)
    ensures Content(items, m) == multiset(out) + (Total(Flatten(m)[p..], Bag(items)) + Total(its, RestBag(items)))
  {
    hide AllOpened, Opened, Total, Flatten, RestBag, Run, Sorted;
    var f := Flatten(m);
    assert f == f[..p] + f[p..];
    TotalConcat(f[..p], f[p..], Bag(items));
  }

  lemma NothingLeft(items: seq<Item>, f: seq<Location>, p: nat, its: seq<Iter>)
    requires IsHeap(its) && its != [] && its[0].exhausted && Lazy(f, p, its) && p <= |f|
    ensures p == |f| && Total(its, RestBag(items)) == multiset{}
  {
    RootDecides(its);
    AllDone(items, its);
    if p < |f| {
      RootAhead(its, f[p].key);
    }
  }

  /** The end of a read: either n items were read or nothing is left. */
  lemma ReadComplete(items: seq<Item>, m: Locs, n: nat, p: nat, its: seq<Iter>, out: seq<Item>)
    requires Merging(items, Flatten(m), p, its, out)
    requires IsHeap(its) && its != [] && Lazy(Flatten(m), p, its) && |out| <= n
    requires |out| == n || its[0].exhausted
    ensures |out| == if n <= |Content(items, m)| then n else |Content(items, m)|
  {
    ReadSplit(items, m, p, its, out);
    if its[0].exhausted {
      NothingLeft(items, Flatten(m), p, its);
      assert Content(items, m) == multiset(out);
    }
    assert |Content(items, m)| >= |multiset(out)| == |out|;
  }
}
