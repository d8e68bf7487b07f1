/**
 * Reading a bucket: what the iterators of a read stand for, and what consuming them does to the index
 * (peek and popSync in bucket.go).
 */
module PopSpec {
  import opened Items
  import opened Vlog
  import opened IndexSpec
  import opened Contents

  ghost function Starts(its: seq<Iter>): (s: seq<Location>)
    ensures |s| == |its|
  {
    seq(|its|, i requires 0 <= i < |its| => its[i].start)
  }

  /** What the unfinished iterators still reach, as index locations. */
  ghost function Suffixes(its: seq<Iter>): seq<Location> {
    if its == [] then []
    else if its[0].exhausted then Suffixes(its[1..])
    else [its[0].CurrentLocation()] + Suffixes(its[1..])
  }

  function Dead(k: Key): Location {
    Location(k, 0, 0)
  }

  /** The records that consuming one iterator appends: its rest, if any, then the end of its batch. */
  function PopOp(it: Iter): seq<Location> {
    (if it.exhausted then [] else [it.CurrentLocation()]) + [Dead(it.FirstKey())]
  }

  ghost function PopOps(its: seq<Iter>): seq<Location> {
    if its == [] then [] else PopOp(its[0]) + PopOps(its[1..])
  }

  /** The current item lies in the batch itself, not in a copy of it. */
  ghost predicate InPlace(items: seq<Item>, it: Iter) {
    |Drop(items, it.start.off)| == |Drop(items, it.prevOff)| + (it.start.len - it.prevLen)
  }

  /** An opened iterator: it stands on its rest, which is a sorted tail of the batch it was opened on. */
  ghost predicate Opened(items: seq<Item>, it: Iter) {
    && Live(items, it)
    && LocOk(items, it.start)
    && |Rest(items, it)| <= it.start.len
    && Rest(items, it) == Run(items, it.start)[it.start.len - |Rest(items, it)|..]
    && (it.exhausted || InPlace(items, it))
  }

  ghost predicate AllOpened(items: seq<Item>, its: seq<Iter>) {
    forall it :: it in its ==> Opened(items, it)
  }

  ghost function RestBag(items: seq<Item>): Iter -> multiset<Item> {
    (it: Iter) => multiset(Rest(items, it))
  }

  ghost function StartBag(): Iter -> multiset<Location> {
    (it: Iter) => multiset{it.start}
  }

  ghost function KeyBag(): Location -> multiset<Key> {
    (loc: Location) => multiset{loc.key}
  }

  lemma {:induction false} StartsTotal(its: seq<Iter>)
    ensures Total(its, StartBag()) == multiset(Starts(its))
  {
    if its != [] {
      StartsTotal(its[1..]);
      HeadCount(Starts(its));
      assert Starts(its)[1..] == Starts(its[1..]);
    }
  }

  lemma {:induction false} KeysTotal(locs: seq<Location>)
    ensures Total(locs, KeyBag()) == multiset(Keys(locs))
  {
    if locs != [] {
      KeysTotal(locs[1..]);
      HeadCount(Keys(locs));
      assert Keys(locs)[1..] == Keys(locs[1..]);
    }
  }

  lemma KeysPermutation(a: seq<Location>, b: seq<Location>)
    requires multiset(a) == multiset(b)
    ensures multiset(Keys(a)) == multiset(Keys(b))
  {
    KeysTotal(a);
    KeysTotal(b);
    TotalPermutation(a, b, KeyBag());
  }

  /** The tail of a readable batch is a valid location of its own. */
  lemma RestOk(items: seq<Item>, it: Iter)
    requires Opened(items, it) && !it.exhausted
    ensures LocOk(items, it.CurrentLocation()) && Run(items, it.CurrentLocation()) == Rest(items, it)
    ensures multiset(Rest(items, it)) <= multiset(Run(items, it.start))
  {
    RestWithin(items, it);
  }

  lemma RestWithin(items: seq<Item>, it: Iter)
    requires Opened(items, it)
    ensures multiset(Rest(items, it)) <= multiset(Run(items, it.start))
  {
    var run, n := Run(items, it.start), it.start.len - |Rest(items, it)|;
    assert run == run[..n] + run[n..];
  }

  lemma PopOpParts(it: Iter)
    requires it.exhausted || it.prevLen > 0
    ensures Sets(PopOp(it)) == if it.exhausted then [] else [it.CurrentLocation()]
    ensures Deletes(PopOp(it)) == [it.start.key]
  {
    var dead := [Dead(it.FirstKey())];
    assert Sets(dead) == [] && Deletes(dead) == [it.start.key] + Deletes([]);
    if it.exhausted {
      assert PopOp(it) == dead;
    } else {
      assert PopOp(it)[1..] == dead;
    }
  }

  lemma {:induction false} PopOpsParts(its: seq<Iter>)
    requires forall it :: it in its ==> it.exhausted || it.prevLen > 0
    ensures Sets(PopOps(its)) == Suffixes(its)
    ensures Deletes(PopOps(its)) == Keys(Starts(its))
  {
    if its != [] {
      var rest := its[1..];
      assert its[0] in its && forall x :: x in rest ==> x in its;
      PopOpsParts(rest);
      PopOpParts(its[0]);
      SetsConcat(PopOp(its[0]), PopOps(rest));
      assert Keys(Starts(its)) == [its[0].start.key] + Keys(Starts(rest));
    }
  }

  lemma {:induction false} SuffixesOk(items: seq<Item>, its: seq<Iter>)
    requires AllOpened(items, its)
    ensures Total(Suffixes(its), Bag(items)) == Total(its, RestBag(items))
    ensures forall i :: 0 <= i < |Suffixes(its)| ==> LocOk(items, Suffixes(its)[i])
  {
    if its != [] {
      var it, rest := its[0], its[1..];
      assert it in its && forall x :: x in rest ==> x in its;
      SuffixesOk(items, rest);
      if !it.exhausted {
        RestOk(items, it);
        assert Suffixes(its)[1..] == Suffixes(rest);
      }
    }
  }

  /** The map that consuming leaves: the first p locations are gone, pushes and rests are in. */
  lemma PopShape(m: Locs, p: nat, pushed: seq<Location>, its: seq<Iter>)
    requires Keyed(m) && p <= |Flatten(m)|
    requires forall it :: it in its ==> it.exhausted || it.prevLen > 0
    requires multiset(Starts(its)) == multiset(Flatten(m)[..p])
    requires forall i :: 0 <= i < |pushed| ==> pushed[i].len > 0
    ensures ApplyAll(SetAll(m, pushed), PopOps(its))
            == SetAll(DeleteAll(m, Keys(Flatten(m)[..p])), pushed + Suffixes(its))
  {
    var front := Flatten(m)[..p];
    var ops := pushed + PopOps(its);
    PopOpsParts(its);
    PlainSets(m, pushed);
    SetsConcat(pushed, PopOps(its));
    ApplyAllConcat(m, pushed, PopOps(its));
    DropFront(m, p);
    FifoCovered(m, front);
    KeysPermutation(Starts(its), front);
    assert Deletes(ops) == Keys(Starts(its));
    CoveredPermutation(m, Keys(front), Deletes(ops));
    NormalForm(m, ops);
    DeleteAllPermutation(m, Keys(front), Deletes(ops));
  }

  lemma OpenedLive(items: seq<Item>, m: Locs, its: seq<Iter>)
    requires IndexOk(items, m) && AllOpened(items, its)
    ensures Keyed(m) && forall it :: it in its ==> it.exhausted || it.prevLen > 0
  {
  }

  /**
   * Consuming the iterators of a read of the first p locations, after any pushes of the read callback:
   * exactly these p locations give way to the rests of the iterators, whatever order the heap left
   * them in and however many of them share a key.
   */
  lemma PopExact(items: seq<Item>, m: Locs, p: nat, pushed: seq<Location>, its: seq<Iter>)
    requires IndexOk(items, m) && p <= |Flatten(m)| && AllOpened(items, its)
    requires multiset(Starts(its)) == multiset(Flatten(m)[..p])
    requires forall i :: 0 <= i < |pushed| ==> LocOk(items, pushed[i])
    ensures var m' := ApplyAll(SetAll(m, pushed), PopOps(its));
            && IndexOk(items, m')
            && Content(items, m') == Total(Flatten(m)[p..], Bag(items)) + Total(pushed, Bag(items))
                                     + Total(its, RestBag(items))
  {
    hide LocOk, Opened, IndexOk, PopOps, Suffixes, Flatten, SetAll, DeleteAll, ApplyAll, Run;
    assert Keyed(m) && forall it :: it in its ==> it.exhausted || it.prevLen > 0 by {
      OpenedLive(items, m, its);
    }
    LocsPositive(items, pushed);
    var sets := pushed + Suffixes(its);
    var base := DeleteAll(m, Keys(Flatten(m)[..p]));
    PopShape(m, p, pushed, its);
    DropFront(m, p);
    SuffixesOk(items, its);
    IndexOkDeleteAll(items, m, Keys(Flatten(m)[..p]));
    IndexOkSetAll(items, base, sets);
    LocsPositive(items, sets);
    SumSetAll(base, sets, Bag(items));
    TotalConcat(pushed, Suffixes(its), Bag(items));
  }

  lemma CoveredPermutation(m: Locs, a: seq<Key>, b: seq<Key>)
    requires multiset(a) == multiset(b) && Covered(m, a)
    ensures Covered(m, b)
  {
    assert forall k: Key :: multiset(b)[k] == multiset(a)[k];
  }

  lemma DeleteAllPermutation(m: Locs, a: seq<Key>, b: seq<Key>)
    requires multiset(a) == multiset(b) && NoEmpty(m)
    ensures DeleteAll(m, a) == DeleteAll(m, b)
  {
    forall k: Key
      ensures Get(DeleteAll(m, a), k) == Get(DeleteAll(m, b), k)
    {
      GetDeleteAll(m, a, k);
      GetDeleteAll(m, b, k);
    }
    GetDeleteAll(m, a, 0);
    GetDeleteAll(m, b, 0);
    SameMap(DeleteAll(m, a), DeleteAll(m, b));
  }

  lemma {:induction false} PopOpsSnoc(its: seq<Iter>, it: Iter)
    ensures PopOps(its + [it]) == PopOps(its) + PopOp(it)
  {
    if its == [] {
      assert [it][1..] == [];
      assert PopOps([it]) == PopOp(it) + PopOps([]);
    } else {
      assert (its + [it])[1..] == its[1..] + [it];
      PopOpsSnoc(its[1..], it);
      assert PopOp(its[0]) + (PopOps(its[1..]) + PopOp(it)) == PopOps(its) + PopOp(it);
    }
  }

  /** Iterators keep their rests when the log grows, also by pushes of the read callback. */
  lemma OpenedStable(items: seq<Item>, more: seq<Item>, it: Iter)
    requires Opened(items, it)
    ensures Opened(items + more, it) && Rest(items + more, it) == Rest(items, it)
  {
    LocStable(items, more, it.start);
    if !it.exhausted {
      RunStable(items, more, it.CurrentLocation());
      DropConcat(items, more, it.prevOff);
      DropConcat(items, more, it.start.off);
    }
  }

  lemma OpenedAllStable(items: seq<Item>, more: seq<Item>, its: seq<Iter>)
    requires AllOpened(items, its)
    ensures AllOpened(items + more, its)
    ensures Total(its, RestBag(items + more)) == Total(its, RestBag(items))
  {
    forall it | it in its
      ensures Opened(items + more, it) && Rest(items + more, it) == Rest(items, it)
    {
      OpenedStable(items, more, it);
    }
    TotalSame(its, RestBag(items + more), RestBag(items));
  }

  /** What the iterators of a read still hold, with the batches it never opened, is all it left. */
  ghost predicate ReadState(items: seq<Item>, m: Locs, p: nat, its: seq<Iter>, out: seq<Item>) {
    && p <= |Flatten(m)|
    && AllOpened(items, its)
    && multiset(Starts(its)) == multiset(Flatten(m)[..p])
    && Content(items, m) == multiset(out) + (Total(Flatten(m)[p..], Bag(items)) + Total(its, RestBag(items)))
  }

  lemma ReadStateStable(items: seq<Item>, more: seq<Item>, m: Locs, p: nat, its: seq<Iter>, out: seq<Item>)
    requires IndexOk(items, m) && ReadState(items, m, p, its, out)
    ensures ReadState(items + more, m, p, its, out) && IndexOk(items + more, m)
  {
    ContentStable(items, more, m);
    OpenedAllStable(items, more, its);
    var rest := Flatten(m)[p..];
    forall i | 0 <= i < |rest|
      ensures Bag(items + more)(rest[i]) == Bag(items)(rest[i])
    {
      FlattenOk(items, m, p + i);
      LocStable(items, more, rest[i]);
    }
    TotalSame(rest, Bag(items + more), Bag(items));
  }

  /** Consuming a read removes exactly what it returned, and keeps what the callback pushed. */
  lemma PopRemoves(items: seq<Item>, m: Locs, p: nat, its: seq<Iter>, out: seq<Item>, pushed: seq<Location>)
    requires IndexOk(items, m) && ReadState(items, m, p, its, out)
    requires forall i :: 0 <= i < |pushed| ==> LocOk(items, pushed[i])
    ensures var m' := ApplyAll(SetAll(m, pushed), PopOps(its));
            && IndexOk(items, m')
            && multiset(out) + Content(items, m') == Content(items, m) + Total(pushed, Bag(items))
  {
    PopExact(items, m, p, pushed, its);
    var rest, open, push := Total(Flatten(m)[p..], Bag(items)), Total(its, RestBag(items)), Total(pushed, Bag(items));
    assert multiset(out) + (rest + push + open) == multiset(out) + (rest + open) + push;
  }

  lemma {:induction false} PopOpsForm(items: seq<Item>, its: seq<Iter>)
    requires AllOpened(items, its)
    ensures forall i :: 0 <= i < |PopOps(its)| ==>
              (PopOps(its)[i] == Location(PopOps(its)[i].key, 0, 0) || LocOk(items, PopOps(its)[i]))
  {
    hide Opened, LocOk;
    if its != [] {
      assert its[0] in its && forall x :: x in its[1..] ==> x in its;
      PopOpsForm(items, its[1..]);
      if !its[0].exhausted {
        RestOk(items, its[0]);
      }
    }
  }
}
