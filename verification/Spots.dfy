/** Which positions of the log an index refers to. Two stored items are never confused, even if they are equal. */
module Spots {
  import opened Items
  import opened Vlog
  import opened IndexSpec
  import opened Contents
  import opened PopSpec
  import opened RangeSpec

  /** How many items of the log lie before an offset. */
  ghost function Place(items: seq<Item>, off: nat): nat {
    |items| - |Drop(items, off)|
  }

  /** n consecutive positions. */
  ghost function Span(a: nat, n: nat): (s: multiset<nat>)
    ensures forall x: nat :: s[x] == if a <= x < a + n then 1 else 0
  {
    if n == 0 then multiset{} else Span(a, n - 1) + multiset{a + n - 1}
  }

  /** The positions a location refers to. */
  ghost function SpotBag(items: seq<Item>): Location -> multiset<nat> {
    (loc: Location) => Span(Place(items, loc.off), loc.len)
  }

  ghost function SpotsOf(items: seq<Item>, m: Locs): multiset<nat> {
    Sum(m, SpotBag(items))
  }

  /** No stored item is indexed twice. */
  ghost predicate Once(items: seq<Item>, m: Locs) {
    forall x :: SpotsOf(items, m)[x] <= 1
  }

  lemma NoSpots(items: seq<Item>)
    ensures SpotsOf(items, map[]) == Span(0, 0) && Once(items, map[])
  {
  }

  lemma {:induction false} DropSuffix(items: seq<Item>, off: nat)
    ensures Drop(items, off) == items[Place(items, off)..]
    decreases items
  {
    if off != 0 && items != [] && off >= StorageSize(items[0]) {
      DropSuffix(items[1..], off - StorageSize(items[0]));
    }
  }

  lemma RunAtPlace(items: seq<Item>, loc: Location)
    requires Readable(items, loc)
    ensures Place(items, loc.off) + loc.len <= |items|
    ensures Run(items, loc) == items[Place(items, loc.off)..Place(items, loc.off) + loc.len]
  {
    DropSuffix(items, loc.off);
  }

  lemma PlaceStable(items: seq<Item>, more: seq<Item>, loc: Location)
    requires Readable(items, loc)
    ensures Place(items + more, loc.off) == Place(items, loc.off)
  {
    DropConcat(items, more, loc.off);
  }

  // ---------- From positions to items ----------

  /** The items at some positions. */
  ghost function Pick(items: seq<Item>, s: multiset<nat>): multiset<Item> {
    if items == [] then multiset{}
    else
      var n := |items| - 1;
      Pick(items[..n], s) + multiset{}[items[n] := s[n]]
  }

  lemma {:induction false} PickSum(items: seq<Item>, a: multiset<nat>, b: multiset<nat>)
    ensures Pick(items, a + b) == Pick(items, a) + Pick(items, b)
  {
    if items != [] {
      PickSum(items[..|items| - 1], a, b);
    }
  }

  lemma {:induction false} PickMonotone(items: seq<Item>, a: multiset<nat>, b: multiset<nat>)
    requires a <= b
    ensures Pick(items, a) <= Pick(items, b)
  {
    if items != [] {
      PickMonotone(items[..|items| - 1], a, b);
    }
  }

  lemma {:induction false} PickNone(items: seq<Item>, s: multiset<nat>)
    requires forall x :: 0 <= x < |items| ==> s[x] == 0
    ensures Pick(items, s) == multiset{}
  {
    if items != [] {
      PickNone(items[..|items| - 1], s);
    }
  }

  lemma PickSnoc(items: seq<Item>, s: multiset<nat>)
    requires items != []
    ensures var k := |items| - 1;
            Pick(items, s) == Pick(items[..k], s) + multiset{}[items[k] := s[k]]
  {
  }

  lemma {:induction false} PickSpan(items: seq<Item>, a: nat, n: nat)
    requires a + n <= |items|
    ensures Pick(items, Span(a, n)) == multiset(items[a..a + n])
    decreases |items|
  {
    hide Pick, Span;
    if n == 0 {
      PickNone(items, Span(a, n));
    } else if a + n < |items| {
      var k := |items| - 1;
      PickSnoc(items, Span(a, n));
      PickSpan(items[..k], a, n);
      assert items[..k][a..a + n] == items[a..a + n];
    } else {
      PickSpan(items[..|items| - 1], a, n - 1);
      PickLast(items, a, n);
    }
  }

  lemma PickLast(items: seq<Item>, a: nat, n: nat)
    requires n > 0 && a + n == |items|
    requires Pick(items[..a + n - 1], Span(a, n - 1)) == multiset(items[..a + n - 1][a..a + n - 1])
    ensures Pick(items, Span(a, n)) == multiset(items[a..a + n])
  {
    hide Pick, Span;
    var k := |items| - 1;
    var front := items[..k];
    PickSnoc(items, Span(a, n));
    SpanSnoc(a, n);
    PickSum(front, Span(a, n - 1), multiset{k});
    PickNone(front, multiset{k});
    assert items[a..a + n] == front[a..a + n - 1] + [items[k]];
    assert Span(a, n)[k] == 1 && multiset{}[items[k] := 1] == multiset{items[k]};
  }

  lemma SpanSnoc(a: nat, n: nat)
    requires n > 0
    ensures Span(a, n) == Span(a, n - 1) + multiset{a + n - 1}
  {
  }

  lemma {:induction false} PickTotal(items: seq<Item>, locs: seq<Location>)
    requires forall i :: 0 <= i < |locs| ==> Readable(items, locs[i])
    ensures Total(locs, Bag(items)) == Pick(items, Total(locs, SpotBag(items)))
  {
    hide Pick, Span, Run, Readable;
    if locs == [] {
      PickNone(items, multiset{});
    } else {
      PickTotal(items, locs[1..]);
      RunAtPlace(items, locs[0]);
      PickSpan(items, Place(items, locs[0].off), locs[0].len);
      PickSum(items, SpotBag(items)(locs[0]), Total(locs[1..], SpotBag(items)));
    }
  }

  /** The positions an index refers to determine what it holds. */
  lemma ContentPicks(items: seq<Item>, m: Locs)
    requires IndexOk(items, m)
    ensures Content(items, m) == Pick(items, SpotsOf(items, m))
  {
    forall i | 0 <= i < |Flatten(m)|
      ensures Readable(items, Flatten(m)[i])
    {
      FlattenOk(items, m, i);
    }
    PickTotal(items, Flatten(m));
  }

  lemma {:induction false} SpotsInLog(items: seq<Item>, locs: seq<Location>, x: nat)
    requires forall i :: 0 <= i < |locs| ==> Readable(items, locs[i])
    ensures x in Total(locs, SpotBag(items)) ==> x < |items|
  {
    if locs != [] {
      SpotsInLog(items, locs[1..], x);
      RunAtPlace(items, locs[0]);
    }
  }

  lemma IndexSpotsInLog(items: seq<Item>, m: Locs, x: nat)
    requires IndexOk(items, m)
    ensures x in SpotsOf(items, m) ==> x < |items|
  {
    forall i | 0 <= i < |Flatten(m)|
      ensures Readable(items, Flatten(m)[i])
    {
      FlattenOk(items, m, i);
    }
    SpotsInLog(items, Flatten(m), x);
  }

  /** An index that refers to no stored item twice holds no more than was ever pushed. */
  lemma OnceBounded(items: seq<Item>, m: Locs)
    requires IndexOk(items, m) && Once(items, m)
    ensures Content(items, m) <= multiset(items)
  {
    hide IndexOk, SpotsOf, Content;
    ContentPicks(items, m);
    forall x: nat
      ensures SpotsOf(items, m)[x] <= Span(0, |items|)[x]
    {
      IndexSpotsInLog(items, m, x);
    }
    PickMonotone(items, SpotsOf(items, m), Span(0, |items|));
    PickSpan(items, 0, |items|);
    assert items[0..0 + |items|] == items;
  }

  // ---------- What keeps positions apart ----------

  /** Later pushes do not move what an index refers to. */
  lemma SpotsStable(items: seq<Item>, more: seq<Item>, m: Locs)
    requires IndexOk(items, m)
    ensures SpotsOf(items + more, m) == SpotsOf(items, m)
  {
    forall i | 0 <= i < |Flatten(m)|
      ensures SpotBag(items + more)(Flatten(m)[i]) == SpotBag(items)(Flatten(m)[i])
    {
      FlattenOk(items, m, i);
      PlaceStable(items, more, Flatten(m)[i]);
    }
    TotalSame(Flatten(m), SpotBag(items + more), SpotBag(items));
  }

  /** A pushed batch lies behind everything an index refers to. */
  lemma OncePush(items: seq<Item>, batch: seq<Item>, m: Locs, loc: Location)
    requires IndexOk(items, m) && Once(items, m) && loc.off == SizeOfAll(items) && loc.len == |batch|
    ensures Once(items + batch, SetLoc(m, loc))
  {
    hide IndexOk;
    DropEnd(items, batch);
    SpotsStable(items, batch, m);
    SumSet(m, loc, SpotBag(items + batch));
    forall x
      ensures SpotsOf(items + batch, SetLoc(m, loc))[x] <= 1
    {
      assert SpotsOf(items, m)[x] <= 1;
      IndexSpotsInLog(items, m, x);
    }
  }

  lemma DropEnd(items: seq<Item>, batch: seq<Item>)
    ensures Place(items + batch, SizeOfAll(items)) == |items|
  {
    DropConcat(items, batch, SizeOfAll(items));
  }

  /** Fewer positions stay apart. */
  lemma OnceFewer(items: seq<Item>, m: Locs, r: Locs)
    requires Once(items, m) && SpotsOf(items, r) <= SpotsOf(items, m)
    ensures Once(items, r)
  {
    forall x
      ensures SpotsOf(items, r)[x] <= 1
    {
      assert SpotsOf(items, m)[x] <= 1;
    }
  }

  // ---------- Range deletion ----------

  lemma TailPlace(items: seq<Item>, loc: Location, i: nat)
    requires LocOk(items, loc) && i < loc.len
    ensures TailLoc(items, loc, i).len == loc.len - i
    ensures Place(items, TailLoc(items, loc, i).off) == Place(items, loc.off) + i
  {
    DropMany(items, loc.off, i);
    assert Run(items, loc)[..i] == Drop(items, loc.off)[..i];
  }

  /** The remaining parts of a batch lie in the batch and do not overlap. */
  lemma PiecesSpots(items: seq<Item>, loc: Location, from: Key, to: Key)
    requires LocOk(items, loc) && from <= to
    ensures Total(Pieces(items, loc, from, to), SpotBag(items)) <= SpotBag(items)(loc)
  {
    hide LocOk, TailLoc, Total, Run, Sorted, Below, UpTo, Span, Place;
    var run := Run(items, loc);
    LocOkRun(items, loc);
    var l, u := Below(run, from), UpTo(run, to);
    CutsSorted(run, from, to);
    var left := if l > 0 then [Location(loc.key, loc.off, l)] else [];
    var right := if u < |run| then [TailLoc(items, loc, u)] else [];
    TotalConcat(left, right, SpotBag(items));
    PartSpots(items, left, Place(items, loc.off), l);
    if u < |run| {
      TailPlace(items, loc, u);
    }
    PartSpots(items, right, Place(items, loc.off) + u, |run| - u);
  }

  lemma PartSpots(items: seq<Item>, part: seq<Location>, a: nat, n: nat)
    requires if n == 0 then part == [] else |part| == 1 && Place(items, part[0].off) == a && part[0].len == n
    ensures Total(part, SpotBag(items)) == Span(a, n)
  {
    if n != 0 {
      assert part == [part[0]];
      TotalOne(part[0], SpotBag(items));
    }
  }

  lemma {:induction false} AllPiecesSpots(items: seq<Item>, hits: seq<Location>, from: Key, to: Key)
    requires from <= to && forall i :: 0 <= i < |hits| ==> LocOk(items, hits[i])
    ensures Total(AllPieces(items, hits, from, to), SpotBag(items)) <= Total(hits, SpotBag(items))
  {
    hide LocOk, Pieces;
    if hits != [] {
      PiecesSpots(items, hits[0], from, to);
      AllPiecesSpots(items, hits[1..], from, to);
      TotalConcat(Pieces(items, hits[0], from, to), AllPieces(items, hits[1..], from, to), SpotBag(items));
    }
  }

  /** An exact range deletion refers to nothing it did not refer to before. */
  lemma OnceDelete(items: seq<Item>, m: Locs, from: Key, to: Key)
    requires IndexOk(items, m) && from <= to && HitsAreOldest(items, m, from, to) && Once(items, m)
    ensures Once(items, Deleted(items, m, from, to))
  {
    hide LocOk, Hits, Flatten, AllPieces, Once, SetAll, DeleteAll;
    var hits := Hits(items, Flatten(m), from, to);
    HitsOk(items, m, from, to, hits);
    HitsFifo(items, m, from, to);
    FifoRemoved(m, hits, SpotBag(items));
    AllPiecesSpots(items, hits, from, to);
    PiecesPositive(items, hits, from, to);
    GetDeleteAll(m, Keys(hits), 0);
    SumSetAll(DeleteAll(m, Keys(hits)), AllPieces(items, hits, from, to), SpotBag(items));
    OnceFewer(items, m, Deleted(items, m, from, to));
  }

  lemma {:induction false} PiecesPositive(items: seq<Item>, hits: seq<Location>, from: Key, to: Key)
    requires from <= to && forall i :: 0 <= i < |hits| ==> LocOk(items, hits[i])
    ensures forall i :: 0 <= i < |AllPieces(items, hits, from, to)| ==> AllPieces(items, hits, from, to)[i].len > 0
  {
    if hits != [] {
      PiecesPositive(items, hits[1..], from, to);
    }
  }

  // ---------- Consuming ----------

  /** The positions an iterator still has to give. */
  ghost function RestSpots(items: seq<Item>): Iter -> multiset<nat> {
    (it: Iter) => if it.exhausted then multiset{} else SpotBag(items)(it.CurrentLocation())
  }

  /** What an iterator still has to give lies in its own batch. */
  lemma RestInBatch(items: seq<Item>, it: Iter)
    requires Opened(items, it)
    ensures RestSpots(items)(it) <= SpotBag(items)(it.start)
  {
    hide LocOk;
    if !it.exhausted {
      LocOkRun(items, it.start);
    }
  }

  lemma {:induction false} SuffixSpots(items: seq<Item>, its: seq<Iter>)
    ensures Total(Suffixes(its), SpotBag(items)) == Total(its, RestSpots(items))
  {
    if its != [] {
      SuffixSpots(items, its[1..]);
      if !its[0].exhausted {
        TotalConcat([its[0].CurrentLocation()], Suffixes(its[1..]), SpotBag(items));
        TotalOne(its[0].CurrentLocation(), SpotBag(items));
      }
    }
  }

  lemma {:induction false} RestsWithin(items: seq<Item>, its: seq<Iter>)
    requires AllOpened(items, its)
    ensures Total(its, RestSpots(items)) <= Total(Starts(its), SpotBag(items))
  {
    hide Opened, Run;
    if its != [] {
      assert its[0] in its && forall x :: x in its[1..] ==> x in its;
      RestInBatch(items, its[0]);
      RestsWithin(items, its[1..]);
      hide AllOpened;
      assert Starts(its)[1..] == Starts(its[1..]);
    }
  }

  lemma StartsSpots(items: seq<Item>, m: Locs, p: nat, its: seq<Iter>)
    requires p <= |Flatten(m)| && AllOpened(items, its) && multiset(Starts(its)) == multiset(Flatten(m)[..p])
    ensures Total(Flatten(m)[p..], SpotBag(items)) + Total(its, RestSpots(items)) <= SpotsOf(items, m)
  {
    hide AllOpened, Flatten, RestSpots, SpotBag, Total;
    RestsWithin(items, its);
    TotalPermutation(Starts(its), Flatten(m)[..p], SpotBag(items));
    TotalConcat(Flatten(m)[..p], Flatten(m)[p..], SpotBag(items));
    assert Flatten(m)[..p] + Flatten(m)[p..] == Flatten(m);
  }

  /** Consuming what a read opened refers to nothing that was not there before or pushed in between. */
  lemma OnceConsume(items: seq<Item>, m: Locs, p: nat, its: seq<Iter>, out: seq<Item>, pushed: seq<Location>)
    requires IndexOk(items, m) && ReadState(items, m, p, its, out) && Once(items, SetAll(m, pushed))
    requires forall i :: 0 <= i < |pushed| ==> LocOk(items, pushed[i])
    ensures Once(items, ApplyAll(SetAll(m, pushed), PopOps(its)))
  {
    hide LocOk, Opened, PopOps, Suffixes, Flatten, SetAll, DeleteAll, ApplyAll, Run, Once, Content;
    assert Keyed(m) && forall it :: it in its ==> it.exhausted || it.prevLen > 0 by {
      OpenedLive(items, m, its);
    }
    hide IndexOk;
    LocsPositive(items, pushed);
    var g, base := SpotBag(items), DeleteAll(m, Keys(Flatten(m)[..p]));
    PopShape(m, p, pushed, its);
    DropFront(m, p);
    SuffixesOk(items, its);
    LocsPositive(items, Suffixes(its));
    SumSetAll(base, pushed + Suffixes(its), g);
    TotalConcat(pushed, Suffixes(its), g);
    SuffixSpots(items, its);
    StartsSpots(items, m, p, its);
    SumSetAll(m, pushed, g);
    OnceFewer(items, SetAll(m, pushed), ApplyAll(SetAll(m, pushed), PopOps(its)));
  }

  // ---------- Equal items ----------

  lemma {:induction false} PickHas(items: seq<Item>, s: multiset<nat>, x: Item) returns (q: nat)
    requires x in Pick(items, s)
    ensures q < |items| && s[q] > 0 && items[q] == x
  {
    var n := |items| - 1;
    if x in Pick(items[..n], s) {
      q := PickHas(items[..n], s, x);
    } else {
      q := n;
    }
  }

  lemma PickOne(items: seq<Item>, p: nat)
    requires p < |items|
    ensures Pick(items, multiset{p}) == multiset{items[p]}
  {
    PickSpan(items, p, 1);
    assert Span(p, 1) == multiset{p};
    assert items[p..p + 1] == [items[p]];
  }

  /** Two positions of equal items count twice. */
  lemma PickTwo(items: seq<Item>, s: multiset<nat>, p: nat, q: nat)
    requires p < |items| && q < |items| && p != q && items[p] == items[q] && s[p] > 0 && s[q] > 0
    ensures Pick(items, s)[items[p]] >= 2
  {
    PickOne(items, p);
    PickOne(items, q);
    PickSum(items, multiset{p}, multiset{q});
    PickMonotone(items, multiset{p} + multiset{q}, s);
    assert (multiset{items[p]} + multiset{items[q]})[items[p]] == 2;
  }
}
