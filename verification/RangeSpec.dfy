/** Deleting a key range from one bucket (Delete in bucket.go). */
module RangeSpec {
  import opened Items
  import opened Vlog
  import opened IndexSpec
  import opened Contents

  predicate InRange(it: Item, from: Key, to: Key) {
    from <= it.key <= to
  }

  /** `after` is `before` without the items in the range, and nothing else changed. */
  ghost predicate RangeRemoved(before: multiset<Item>, after: multiset<Item>, from: Key, to: Key) {
    forall x :: after[x] == if InRange(x, from, to) then 0 else before[x]
  }

  // ---------- Cutting one run ----------

  /** How many leading items lie below the range. */
  ghost function Below(run: seq<Item>, from: Key): (n: nat)
    ensures n <= |run|
    ensures forall i :: 0 <= i < n ==> run[i].key < from
    ensures n < |run| ==> run[n].key >= from
  {
    if run == [] || run[0].key >= from then 0 else 1 + Below(run[1..], from)
  }

  /** How many leading items lie below or in the range. */
  ghost function UpTo(run: seq<Item>, to: Key): (n: nat)
    ensures n <= |run|
    ensures forall i :: 0 <= i < n ==> run[i].key <= to
    ensures n < |run| ==> run[n].key > to
  {
    if run == [] || run[0].key > to then 0 else 1 + UpTo(run[1..], to)
  }

  ghost predicate Hit(items: seq<Item>, loc: Location, from: Key, to: Key) {
    Below(Run(items, loc), from) < UpTo(Run(items, loc), to)
  }

  /** The location of what remains of a run from its i-th item on. */
  ghost function TailLoc(items: seq<Item>, loc: Location, i: nat): Location
    requires i < |Run(items, loc)|
  {
    var run := Run(items, loc);
    Location(run[i].key, loc.off + SizeOfAll(run[..i]), |run| - i)
  }

  /** The parts of a hit run outside the range: its start, then its end. */
  ghost function Pieces(items: seq<Item>, loc: Location, from: Key, to: Key): seq<Location> {
    var run := Run(items, loc);
    var l, u := Below(run, from), UpTo(run, to);
    (if l > 0 then [Location(loc.key, loc.off, l)] else [])
    + (if u < |run| then [TailLoc(items, loc, u)] else [])
  }

  lemma PiecesShape(items: seq<Item>, loc: Location, from: Key, to: Key, left: Location, right: Location)
    requires left == Location(loc.key, loc.off, Below(Run(items, loc), from))
    requires right == if UpTo(Run(items, loc), to) < |Run(items, loc)|
                      then TailLoc(items, loc, UpTo(Run(items, loc), to)) else Location(0, 0, 0)
    ensures Pieces(items, loc, from, to)
            == if left.len > 0 && right.len > 0 then [left, right]
               else if left.len > 0 then [left]
               else if right.len > 0 then [right]
               else []
  {
  }

  lemma {:induction false} DropMany(items: seq<Item>, off: nat, i: nat)
    requires i < |Drop(items, off)|
    ensures Drop(items, off + SizeOfAll(Drop(items, off)[..i])) == Drop(items, off)[i..]
    decreases i
  {
    var rest := Drop(items, off);
    if i > 0 {
      var s := StorageSize(rest[0]);
      DropStep(items, off);
      DropMany(items, off + s, i - 1);
      assert rest[..i][1..] == rest[1..][..i - 1];
      assert rest[1..][i - 1..] == rest[i..];
    }
  }

  lemma TailOk(items: seq<Item>, loc: Location, i: nat)
    requires LocOk(items, loc) && i < loc.len
    ensures LocOk(items, TailLoc(items, loc, i))
    ensures Run(items, TailLoc(items, loc, i)) == Run(items, loc)[i..]
  {
    var rest := Drop(items, loc.off);
    DropMany(items, loc.off, i);
    assert Run(items, loc)[..i] == rest[..i];
    assert rest[i..][..loc.len - i] == rest[..loc.len][i..];
  }

  lemma HeadOk(items: seq<Item>, loc: Location, n: nat)
    requires LocOk(items, loc) && 0 < n <= loc.len
    ensures LocOk(items, Location(loc.key, loc.off, n))
    ensures Run(items, Location(loc.key, loc.off, n)) == Run(items, loc)[..n]
  {
  }

  lemma OutsideBag(s: seq<Item>, from: Key, to: Key)
    requires forall i :: 0 <= i < |s| ==> !InRange(s[i], from, to)
    ensures RangeRemoved(multiset(s), multiset(s), from, to)
  {
    forall x | x in multiset(s)
      ensures !InRange(x, from, to)
    {
      assert x in s;
    }
  }

  lemma InsideBag(s: seq<Item>, from: Key, to: Key)
    requires forall i :: 0 <= i < |s| ==> InRange(s[i], from, to)
    ensures RangeRemoved(multiset(s), multiset{}, from, to)
  {
    forall x | x in multiset(s)
      ensures InRange(x, from, to)
    {
      assert x in s;
    }
  }

  lemma RangeRemovedSum(a: multiset<Item>, a': multiset<Item>, b: multiset<Item>, b': multiset<Item>,
                        from: Key, to: Key)
    requires RangeRemoved(a, a', from, to) && RangeRemoved(b, b', from, to)
    ensures RangeRemoved(a + b, a' + b', from, to)
  {
  }

  lemma CutsSorted(run: seq<Item>, from: Key, to: Key)
    requires Sorted(run) && from <= to
    ensures var l, u := Below(run, from), UpTo(run, to);
            && l <= u
            && (forall i :: 0 <= i < l ==> !InRange(run[i], from, to))
            && (forall i :: l <= i < u ==> InRange(run[i], from, to))
            && (forall i :: u <= i < |run| ==> !InRange(run[i], from, to))
  {
    var l, u := Below(run, from), UpTo(run, to);
    assert forall i :: l <= i < |run| ==> run[l].key <= run[i].key;
    assert forall i :: u <= i < |run| ==> run[u].key <= run[i].key;
  }

  lemma CutsExact(run: seq<Item>, from: Key, to: Key)
    requires Sorted(run) && from <= to
    ensures var l, u := Below(run, from), UpTo(run, to);
            && l <= u
            && RangeRemoved(multiset(run), multiset(run[..l]) + multiset(run[u..]), from, to)
  {
    hide Sorted, RangeRemoved, InRange, Below, UpTo;
    var l, u := Below(run, from), UpTo(run, to);
    CutsSorted(run, from, to);
    var a, b, c := run[..l], run[l..u], run[u..];
    assert run == (a + b) + c;
    OutsideBag(a, from, to);
    InsideBag(b, from, to);
    OutsideBag(c, from, to);
    RangeRemovedSum(multiset(a), multiset(a), multiset(b), multiset{}, from, to);
    RangeRemovedSum(multiset(a + b), multiset(a), multiset(c), multiset(c), from, to);
  }

  lemma LeftPiece(items: seq<Item>, loc: Location, l: nat, left: seq<Location>)
    requires LocOk(items, loc) && l <= |Run(items, loc)|
    requires left == if l > 0 then [Location(loc.key, loc.off, l)] else []
    ensures forall i :: 0 <= i < |left| ==> LocOk(items, left[i])
    ensures Total(left, Bag(items)) == multiset(Run(items, loc)[..l])
  {
    hide LocOk, Run;
    LocOkRun(items, loc);
    if l > 0 {
      HeadOk(items, loc, l);
      TotalOne(left[0], Bag(items));
    }
  }

  lemma RightPiece(items: seq<Item>, loc: Location, u: nat, right: seq<Location>)
    requires LocOk(items, loc) && u <= |Run(items, loc)|
    requires right == if u < |Run(items, loc)| then [TailLoc(items, loc, u)] else []
    ensures forall i :: 0 <= i < |right| ==> LocOk(items, right[i])
    ensures Total(right, Bag(items)) == multiset(Run(items, loc)[u..])
  {
    hide LocOk, Run, TailLoc;
    LocOkRun(items, loc);
    if u < |Run(items, loc)| {
      TailOk(items, loc, u);
      TotalOne(right[0], Bag(items));
    }
  }

  /** The pieces are valid locations and hold exactly the parts of the run before and after the range. */
  lemma PiecesOk(items: seq<Item>, loc: Location, from: Key, to: Key)
    requires LocOk(items, loc)
    ensures forall i :: 0 <= i < |Pieces(items, loc, from, to)| ==> LocOk(items, Pieces(items, loc, from, to)[i])
    ensures var run := Run(items, loc);
            Total(Pieces(items, loc, from, to), Bag(items))
            == multiset(run[..Below(run, from)]) + multiset(run[UpTo(run, to)..])
  {
    LocOkRun(items, loc);
    var run := Run(items, loc);
    var l, u := Below(run, from), UpTo(run, to);
    var left := if l > 0 then [Location(loc.key, loc.off, l)] else [];
    var right := if u < |run| then [TailLoc(items, loc, u)] else [];
    assert Pieces(items, loc, from, to) == left + right;
    hide LocOk, Below, UpTo, Sorted, Total, Run, Bag, Pieces, TailLoc;
    LeftPiece(items, loc, l, left);
    RightPiece(items, loc, u, right);
    TotalConcat(left, right, Bag(items));
  }

  // ---------- Deleting from the whole index ----------

  ghost function Hits(items: seq<Item>, locs: seq<Location>, from: Key, to: Key): seq<Location> {
    if locs == [] then []
    else if Hit(items, locs[0], from, to) then [locs[0]] + Hits(items, locs[1..], from, to)
    else Hits(items, locs[1..], from, to)
  }

  ghost function AllPieces(items: seq<Item>, hits: seq<Location>, from: Key, to: Key): seq<Location> {
    if hits == [] then []
    else Pieces(items, hits[0], from, to) + AllPieces(items, hits[1..], from, to)
  }

  /** The index after the deletion: one delete per hit location, then the pieces. */
  ghost function Deleted(items: seq<Item>, m: Locs, from: Key, to: Key): Locs {
    var hits := Hits(items, Flatten(m), from, to);
    SetAll(DeleteAll(m, Keys(hits)), AllPieces(items, hits, from, to))
  }

  /** Under each key no untouched location is older than a touched one. */
  ghost predicate HitsAreOldest(items: seq<Item>, m: Locs, from: Key, to: Key) {
    forall k, i, j :: k in m && 0 <= i < j < |m[k]| && Hit(items, m[k][j], from, to)
      ==> Hit(items, m[k][i], from, to)
  }

  lemma {:induction false} UnderHits(items: seq<Item>, locs: seq<Location>, from: Key, to: Key, k: Key)
    ensures Under(Hits(items, locs, from, to), k) == Hits(items, Under(locs, k), from, to)
  {
    if locs != [] {
      UnderHits(items, locs[1..], from, to, k);
      assert Hit(items, locs[0], from, to) ==> Hits(items, locs, from, to)[1..] == Hits(items, locs[1..], from, to);
      assert locs[0].key == k ==> Under(locs, k)[1..] == Under(locs[1..], k);
    }
  }

  lemma {:induction false} HitsLength(items: seq<Item>, locs: seq<Location>, from: Key, to: Key)
    ensures |Hits(items, locs, from, to)| <= |locs|
    ensures |Hits(items, locs, from, to)| == |locs| ==> forall i :: 0 <= i < |locs| ==> Hit(items, locs[i], from, to)
  {
    if locs != [] {
      HitsLength(items, locs[1..], from, to);
    }
  }

  lemma {:induction false} HitsConcat(items: seq<Item>, a: seq<Location>, b: seq<Location>, from: Key, to: Key)
    ensures Hits(items, a + b, from, to) == Hits(items, a, from, to) + Hits(items, b, from, to)
  {
    if a == [] {
      assert a + b == b;
    } else {
      assert (a + b)[1..] == a[1..] + b;
      HitsConcat(items, a[1..], b, from, to);
    }
  }

  lemma {:induction false} NoHits(items: seq<Item>, locs: seq<Location>, from: Key, to: Key)
    requires forall i :: 0 <= i < |locs| ==> !Hit(items, locs[i], from, to)
    ensures Hits(items, locs, from, to) == []
  {
    if locs != [] {
      NoHits(items, locs[1..], from, to);
    }
  }

  /** If the touched locations of a list come first, they are a prefix of it. */
  lemma {:induction false} HitsPrefix(items: seq<Item>, locs: seq<Location>, from: Key, to: Key)
    requires forall i, j :: 0 <= i < j < |locs| && Hit(items, locs[j], from, to) ==> Hit(items, locs[i], from, to)
    ensures Hits(items, locs, from, to) <= locs
  {
    if locs != [] {
      if Hit(items, locs[0], from, to) {
        HitsPrefix(items, locs[1..], from, to);
      } else {
        NoHits(items, locs, from, to);
      }
    }
  }

  lemma AllHit(items: seq<Item>, locs: seq<Location>, from: Key, to: Key)
    requires forall x :: |Hits(items, locs, from, to)| <= x < |locs| ==> !Hit(items, locs[x], from, to)
    ensures forall x :: 0 <= x < |locs| && x < |Hits(items, locs, from, to)| ==> Hit(items, locs[x], from, to)
  {
    var n := |Hits(items, locs, from, to)|;
    HitsLength(items, locs, from, to);
    var a, b := locs[..n], locs[n..];
    assert locs == a + b;
    HitsConcat(items, a, b, from, to);
    NoHits(items, b, from, to);
    HitsLength(items, a, from, to);
    assert forall x :: 0 <= x < n ==> a[x] == locs[x];
  }

  /** If an untouched location is older than a touched one, deleting as many fronts leaves a touched one. */
  lemma HitSurvives(items: seq<Item>, locs: seq<Location>, from: Key, to: Key, i: nat, j: nat) returns (h: nat)
    requires i < j < |locs| && Hit(items, locs[j], from, to) && !Hit(items, locs[i], from, to)
    ensures |Hits(items, locs, from, to)| <= h < |locs| && Hit(items, locs[h], from, to)
  {
    var n := |Hits(items, locs, from, to)|;
    if forall x :: n <= x < |locs| ==> !Hit(items, locs[x], from, to) {
      AllHit(items, locs, from, to);
      assert false;
    }
    h :| n <= h < |locs| && Hit(items, locs[h], from, to);
  }

  lemma {:induction false} AfterPrefix(items: seq<Item>, locs: seq<Location>, from: Key, to: Key)
    requires Hits(items, locs, from, to) <= locs
    ensures forall x :: |Hits(items, locs, from, to)| <= x < |locs| ==> !Hit(items, locs[x], from, to)
  {
    if locs != [] {
      if Hit(items, locs[0], from, to) {
        assert Hits(items, locs, from, to)[1..] == Hits(items, locs[1..], from, to);
        AfterPrefix(items, locs[1..], from, to);
      } else if Hits(items, locs, from, to) != [] {
        HitsAreHits(items, locs, from, to);
        assert false;
      } else {
        HitsNone(items, locs, from, to);
      }
    }
  }

  lemma {:induction false} HitsAreHits(items: seq<Item>, locs: seq<Location>, from: Key, to: Key)
    ensures forall i :: 0 <= i < |Hits(items, locs, from, to)| ==>
              Hit(items, Hits(items, locs, from, to)[i], from, to) && Hits(items, locs, from, to)[i] in locs
  {
    if locs != [] {
      HitsAreHits(items, locs[1..], from, to);
    }
  }

  lemma {:induction false} HitsNone(items: seq<Item>, locs: seq<Location>, from: Key, to: Key)
    requires Hits(items, locs, from, to) == []
    ensures forall x :: 0 <= x < |locs| ==> !Hit(items, locs[x], from, to)
  {
    if locs != [] {
      HitsNone(items, locs[1..], from, to);
    }
  }

  lemma KeyHits(items: seq<Item>, m: Locs, from: Key, to: Key, k: Key)
    requires Keyed(m)
    ensures Under(Hits(items, Flatten(m), from, to), k) == Hits(items, Get(m, k), from, to)
    ensures multiset(Keys(Hits(items, Flatten(m), from, to)))[k] == |Hits(items, Get(m, k), from, to)|
  {
    UnderHits(items, Flatten(m), from, to, k);
    UnderFlatten(m, k);
    UnderCount(Hits(items, Flatten(m), from, to), k);
  }

  /** Each delete of a range deletion finds a location that was there before. */
  lemma HitsCovered(items: seq<Item>, m: Locs, from: Key, to: Key)
    requires Keyed(m)
    ensures Covered(m, Keys(Hits(items, Flatten(m), from, to)))
  {
    var keys := Keys(Hits(items, Flatten(m), from, to));
    forall k: Key
      ensures multiset(keys)[k] <= |Get(m, k)|
    {
      KeyHits(items, m, from, to, k);
      HitsLength(items, Get(m, k), from, to);
    }
  }

  lemma HitsFifo(items: seq<Item>, m: Locs, from: Key, to: Key)
    requires Keyed(m) && HitsAreOldest(items, m, from, to)
    ensures Fifo(m, Hits(items, Flatten(m), from, to))
  {
    forall k: Key
      ensures Under(Hits(items, Flatten(m), from, to), k) <= Get(m, k)
    {
      KeyHits(items, m, from, to, k);
      HitsPrefix(items, Get(m, k), from, to);
    }
  }

  /** How many items of the run lie in the range. */
  ghost function InCount(items: seq<Item>, loc: Location, from: Key, to: Key): int {
    UpTo(Run(items, loc), to) - Below(Run(items, loc), from)
  }

  ghost function InCounts(items: seq<Item>, locs: seq<Location>, from: Key, to: Key): int {
    if locs == [] then 0 else InCount(items, locs[0], from, to) + InCounts(items, locs[1..], from, to)
  }

  lemma {:induction false} AllPiecesExact(items: seq<Item>, hits: seq<Location>, from: Key, to: Key)
    requires from <= to && forall i :: 0 <= i < |hits| ==> LocOk(items, hits[i])
    ensures var ps := AllPieces(items, hits, from, to);
            && (forall i :: 0 <= i < |ps| ==> LocOk(items, ps[i]))
            && RangeRemoved(Total(hits, Bag(items)), Total(ps, Bag(items)), from, to)
            && |Total(hits, Bag(items))| == |Total(ps, Bag(items))| + InCounts(items, hits, from, to)
  {
    if hits != [] {
      var loc, rest := hits[0], hits[1..];
      var mine, others := Pieces(items, loc, from, to), AllPieces(items, rest, from, to);
      AllPiecesExact(items, rest, from, to);
      PiecesOk(items, loc, from, to);
      CutsExact(Run(items, loc), from, to);
      TotalConcat(mine, others, Bag(items));
      RangeRemovedSum(Bag(items)(loc), Total(mine, Bag(items)), Total(rest, Bag(items)),
                      Total(others, Bag(items)), from, to);
    }
  }

  lemma UnhitBag(items: seq<Item>, loc: Location, from: Key, to: Key)
    requires LocOk(items, loc) && !Hit(items, loc, from, to) && from <= to
    ensures RangeRemoved(Bag(items)(loc), Bag(items)(loc), from, to)
  {
    var run := Run(items, loc);
    CutsExact(run, from, to);
    assert run == run[..Below(run, from)] + run[UpTo(run, to)..];
  }

  lemma {:induction false} UnhitTotal(items: seq<Item>, locs: seq<Location>, from: Key, to: Key)
    requires from <= to
    requires forall i :: 0 <= i < |locs| ==> LocOk(items, locs[i]) && !Hit(items, locs[i], from, to)
    ensures RangeRemoved(Total(locs, Bag(items)), Total(locs, Bag(items)), from, to)
  {
    if locs != [] {
      UnhitBag(items, locs[0], from, to);
      UnhitTotal(items, locs[1..], from, to);
    }
  }

  lemma UntouchedUnhit(items: seq<Item>, m: Locs, from: Key, to: Key, k: Key, j: nat)
    requires Keyed(m) && HitsAreOldest(items, m, from, to)
    requires j < |Get(DeleteAll(m, Keys(Hits(items, Flatten(m), from, to))), k)|
    ensures !Hit(items, Get(DeleteAll(m, Keys(Hits(items, Flatten(m), from, to))), k)[j], from, to)
  {
    var keys := Keys(Hits(items, Flatten(m), from, to));
    GetDeleteAll(m, keys, k);
    KeyHits(items, m, from, to, k);
    HitsPrefix(items, Get(m, k), from, to);
    AfterPrefix(items, Get(m, k), from, to);
    assert Get(DeleteAll(m, keys), k)[j] == Get(m, k)[multiset(keys)[k] + j];
  }

  lemma UntouchedRemain(items: seq<Item>, m: Locs, from: Key, to: Key)
    requires IndexOk(items, m) && from <= to && HitsAreOldest(items, m, from, to)
    ensures var rest := DeleteAll(m, Keys(Hits(items, Flatten(m), from, to)));
            RangeRemoved(Content(items, rest), Content(items, rest), from, to)
  {
    var rest := DeleteAll(m, Keys(Hits(items, Flatten(m), from, to)));
    IndexOkDeleteAll(items, m, Keys(Hits(items, Flatten(m), from, to)));
    forall i | 0 <= i < |Flatten(rest)|
      ensures LocOk(items, Flatten(rest)[i]) && !Hit(items, Flatten(rest)[i], from, to)
    {
      var loc := Flatten(rest)[i];
      FlattenOk(items, rest, i);
      FlattenMembers(rest, i);
      var j :| 0 <= j < |rest[loc.key]| && rest[loc.key][j] == loc;
      UntouchedUnhit(items, m, from, to, loc.key, j);
    }
    UnhitTotal(items, Flatten(rest), from, to);
  }

  lemma HitsOk(items: seq<Item>, m: Locs, from: Key, to: Key, hits: seq<Location>)
    requires IndexOk(items, m) && hits == Hits(items, Flatten(m), from, to)
    ensures forall i :: 0 <= i < |hits| ==> LocOk(items, hits[i])
  {
    HitsAreHits(items, Flatten(m), from, to);
    forall i | 0 <= i < |hits|
      ensures LocOk(items, hits[i])
    {
      var j :| 0 <= j < |Flatten(m)| && Flatten(m)[j] == hits[i];
      FlattenOk(items, m, j);
    }
  }

  /** A range deletion always leaves a valid index. */
  lemma DeletedOk(items: seq<Item>, m: Locs, from: Key, to: Key)
    requires IndexOk(items, m) && from <= to
    ensures IndexOk(items, Deleted(items, m, from, to))
    ensures var hits := Hits(items, Flatten(m), from, to);
            Content(items, Deleted(items, m, from, to))
            == Content(items, DeleteAll(m, Keys(hits))) + Total(AllPieces(items, hits, from, to), Bag(items))
  {
    var hits := Hits(items, Flatten(m), from, to);
    HitsOk(items, m, from, to, hits);
    AllPiecesExact(items, hits, from, to);
    IndexOkDeleteAll(items, m, Keys(hits));
    IndexOkSetAll(items, DeleteAll(m, Keys(hits)), AllPieces(items, hits, from, to));
    SumSetAll(DeleteAll(m, Keys(hits)), AllPieces(items, hits, from, to), Bag(items));
  }

  lemma DeletedSound(items: seq<Item>, m: Locs, from: Key, to: Key)
    requires IndexOk(items, m) && from <= to && HitsAreOldest(items, m, from, to)
    ensures RangeRemoved(Content(items, m), Content(items, Deleted(items, m, from, to)), from, to)
    ensures |Content(items, m)| == |Content(items, Deleted(items, m, from, to))|
                                   + InCounts(items, Hits(items, Flatten(m), from, to), from, to)
  {
    var hits := Hits(items, Flatten(m), from, to);
    var rest := DeleteAll(m, Keys(hits));
    HitsFifo(items, m, from, to);
    FifoRemoved(m, hits, Bag(items));
    HitsOk(items, m, from, to, hits);
    AllPiecesExact(items, hits, from, to);
    UntouchedRemain(items, m, from, to);
    DeletedOk(items, m, from, to);
    RangeRemovedSum(Total(hits, Bag(items)), Total(AllPieces(items, hits, from, to), Bag(items)),
                    Content(items, rest), Content(items, rest), from, to);
  }

  lemma {:induction false} TotalIncludes<T, U>(s: seq<T>, i: nat, f: T -> multiset<U>)
    requires i < |s|
    ensures f(s[i]) <= Total(s, f)
  {
    TotalRemove(s, i, f);
  }

  /** A location of the index contributes its items to the content. */
  lemma ContentIncludes(items: seq<Item>, m: Locs, k: Key, i: nat)
    requires k in m && i < |m[k]|
    ensures multiset(Run(items, m[k][i])) <= Content(items, m)
  {
    SumSplit(m, k, Bag(items));
    TotalIncludes(m[k], i, Bag(items));
  }

  /** Under each key, as many locations go from the front as were touched; pieces go to the end. */
  lemma DeletedGet(items: seq<Item>, m: Locs, from: Key, to: Key, k: Key, h: nat)
    requires IndexOk(items, m) && |Hits(items, Get(m, k), from, to)| <= h < |Get(m, k)|
    ensures var h' := h - |Hits(items, Get(m, k), from, to)|; var r := Deleted(items, m, from, to);
            k in r && h' < |r[k]| && r[k][h'] == Get(m, k)[h]
  {
    hide Hits, AllPieces, Flatten, LocOk, DeleteAll, SetAll;
    var hits := Hits(items, Flatten(m), from, to);
    KeyHits(items, m, from, to, k);
    GetDeleteAll(m, Keys(hits), k);
    GetSetAll(DeleteAll(m, Keys(hits)), AllPieces(items, hits, from, to), k);
  }

  lemma HitItem(items: seq<Item>, loc: Location, from: Key, to: Key) returns (x: Item)
    requires LocOk(items, loc) && from <= to && Hit(items, loc, from, to)
    ensures x in multiset(Run(items, loc)) && InRange(x, from, to)
  {
    var run := Run(items, loc);
    CutsSorted(run, from, to);
    x := run[Below(run, from)];
  }

  /** An untouched location in front of a touched one: the touched one survives, with its items in the range. */
  lemma DeletedIncomplete(items: seq<Item>, m: Locs, from: Key, to: Key)
    requires IndexOk(items, m) && from <= to && !HitsAreOldest(items, m, from, to)
    ensures !RangeRemoved(Content(items, m), Content(items, Deleted(items, m, from, to)), from, to)
  {
    hide Hits, Deleted, Content, Hit, Run, LocOk;
    var k, i, j :| k in m && 0 <= i < j < |m[k]| && Hit(items, m[k][j], from, to) && !Hit(items, m[k][i], from, to);
    var h := HitSurvives(items, m[k], from, to, i, j);
    DeletedGet(items, m, from, to, k, h);
    ContentIncludes(items, Deleted(items, m, from, to), k, h - |Hits(items, m[k], from, to)|);
    var x := HitItem(items, m[k][h], from, to);
  }

  /**
   * Range deletion is exact if and only if, under every key, the touched locations are the oldest:
   * the delete records name only the key, so they hit the front of the list.
   */
  lemma DeletedExact(items: seq<Item>, m: Locs, from: Key, to: Key)
    requires IndexOk(items, m) && from <= to
    ensures RangeRemoved(Content(items, m), Content(items, Deleted(items, m, from, to)), from, to)
            <==> HitsAreOldest(items, m, from, to)
  {
    if HitsAreOldest(items, m, from, to) {
      DeletedSound(items, m, from, to);
    } else {
      DeletedIncomplete(items, m, from, to);
    }
  }

  // ---------- The deletion as the code performs it, location by location ----------

  /** What scanning a list of locations collects: the keys to delete, the pieces to keep, the number of items. */
  ghost predicate Scanned(items: seq<Item>, locs: seq<Location>, from: Key, to: Key,
                          keys: seq<Key>, pieces: seq<Location>, n: int) {
    var hits := Hits(items, locs, from, to);
    keys == Keys(hits) && pieces == AllPieces(items, hits, from, to) && n == InCounts(items, hits, from, to)
  }

  lemma {:induction false} AllPiecesSnoc(items: seq<Item>, hits: seq<Location>, loc: Location, from: Key, to: Key)
    ensures AllPieces(items, hits + [loc], from, to) == AllPieces(items, hits, from, to) + Pieces(items, loc, from, to)
    ensures InCounts(items, hits + [loc], from, to) == InCounts(items, hits, from, to) + InCount(items, loc, from, to)
  {
    if hits == [] {
      assert [loc][1..] == [];
      assert AllPieces(items, [loc], from, to) == Pieces(items, loc, from, to) + AllPieces(items, [], from, to);
      assert InCounts(items, [loc], from, to) == InCount(items, loc, from, to) + InCounts(items, [], from, to);
    } else {
      assert (hits + [loc])[1..] == hits[1..] + [loc];
      AllPiecesSnoc(items, hits[1..], loc, from, to);
    }
  }

  lemma ScanStep(items: seq<Item>, locs: seq<Location>, loc: Location, from: Key, to: Key,
                 keys: seq<Key>, pieces: seq<Location>, n: int)
    requires Scanned(items, locs, from, to, keys, pieces, n)
    ensures if Hit(items, loc, from, to)
            then Scanned(items, locs + [loc], from, to, keys + [loc.key],
                         pieces + Pieces(items, loc, from, to), n + InCount(items, loc, from, to))
            else Scanned(items, locs + [loc], from, to, keys, pieces, n)
  {
    hide Hit, Pieces, InCount, AllPieces, InCounts;
    var hits := Hits(items, locs, from, to);
    HitsConcat(items, locs, [loc], from, to);
    assert [loc][1..] == [];
    if Hit(items, loc, from, to) {
      assert Hits(items, [loc], from, to) == [loc] + Hits(items, [], from, to);
      assert [loc] + Hits(items, [], from, to) == [loc];
      AllPiecesSnoc(items, hits, loc, from, to);
      assert Keys(hits + [loc]) == Keys(hits) + [loc.key];
    } else {
      assert Hits(items, [loc], from, to) == Hits(items, [], from, to);
      assert hits + [] == hits;
    }
  }

  lemma LateUnhit(items: seq<Item>, m: Locs, i: nat, j: nat, from: Key, to: Key)
    requires IndexOk(items, m) && i <= j < |Flatten(m)| && Flatten(m)[i].key > to
    ensures !Hit(items, Flatten(m)[j], from, to)
  {
    FlattenOk(items, m, j);
    FlattenSorted(m, i, j);
  }

  /** Beyond the first location whose key exceeds the range nothing is touched. */
  lemma ScanStop(items: seq<Item>, m: Locs, i: nat, from: Key, to: Key,
                 keys: seq<Key>, pieces: seq<Location>, n: int)
    requires IndexOk(items, m) && i <= |Flatten(m)| && (i < |Flatten(m)| ==> Flatten(m)[i].key > to)
    requires Scanned(items, Flatten(m)[..i], from, to, keys, pieces, n)
    ensures Scanned(items, Flatten(m), from, to, keys, pieces, n)
  {
    hide Hit, AllPieces, InCounts, Flatten, Keys, LocOk;
    var f := Flatten(m);
    forall j | 0 <= j < |f[i..]|
      ensures !Hit(items, f[i..][j], from, to)
    {
      LateUnhit(items, m, i, i + j, from, to);
    }
    NoHits(items, f[i..], from, to);
    assert f == f[..i] + f[i..];
    HitsConcat(items, f[..i], f[i..], from, to);
    assert Hits(items, f[..i], from, to) + [] == Hits(items, f[..i], from, to);
  }

  ghost function Deads(keys: seq<Key>): (ops: seq<Location>)
    ensures |ops| == |keys|
  {
    seq(|keys|, i requires 0 <= i < |keys| => Location(keys[i], 0, 0))
  }

  /** The records of a range deletion: all pieces, then the end of every touched batch. */
  ghost function DeleteOps(items: seq<Item>, m: Locs, from: Key, to: Key): seq<Location> {
    var hits := Hits(items, Flatten(m), from, to);
    AllPieces(items, hits, from, to) + Deads(Keys(hits))
  }

  lemma ScannedOps(items: seq<Item>, m: Locs, from: Key, to: Key, keys: seq<Key>, pieces: seq<Location>, n: int)
    requires Scanned(items, Flatten(m), from, to, keys, pieces, n)
    ensures pieces + Deads(keys) == DeleteOps(items, m, from, to)
    ensures n == InCounts(items, Hits(items, Flatten(m), from, to), from, to)
  {
  }

  lemma {:induction false} DeadsParts(keys: seq<Key>)
    ensures Sets(Deads(keys)) == [] && Deletes(Deads(keys)) == keys
  {
    if keys != [] {
      assert Deads(keys)[1..] == Deads(keys[1..]);
      DeadsParts(keys[1..]);
    }
  }

  /**
   * The file records all pieces before all deletes, the memory is updated the other way round;
   * both arrive at the same index.
   */
  lemma DeleteOrders(items: seq<Item>, m: Locs, from: Key, to: Key, keys: seq<Key>, pieces: seq<Location>, n: int)
    requires IndexOk(items, m) && from <= to && Scanned(items, Flatten(m), from, to, keys, pieces, n)
    ensures ApplyAll(m, pieces + Deads(keys)) == Deleted(items, m, from, to)
    ensures SetAll(DeleteAll(m, keys), pieces) == Deleted(items, m, from, to)
    ensures forall i :: 0 <= i < |pieces| ==> LocOk(items, pieces[i])
  {
    HitsOk(items, m, from, to, Hits(items, Flatten(m), from, to));
    AllPiecesExact(items, Hits(items, Flatten(m), from, to), from, to);
    PlainSets(m, pieces);
    DeadsParts(keys);
    SetsConcat(pieces, Deads(keys));
    HitsCovered(items, m, from, to);
    assert Sets(pieces + Deads(keys)) == pieces && Deletes(pieces + Deads(keys)) == keys;
    NormalForm(m, pieces + Deads(keys));
  }

  /** Where the iterator over a run stands after i steps. */
  ghost predicate AtStep(items: seq<Item>, loc: Location, it: Iter, i: nat) {
    && i <= loc.len && i <= |Run(items, loc)|
    && it.currOff == loc.off + SizeOfAll(Run(items, loc)[..i])
    && it.currLen == loc.len - i
    && !it.exhausted
  }

  lemma StepTo(items: seq<Item>, loc: Location, it: Iter, i: nat)
    requires LocOk(items, loc) && AtStep(items, loc, it, i) && i < loc.len
    ensures var item := Run(items, loc)[i];
            && Drop(items, it.currOff) != [] && Drop(items, it.currOff)[0] == item
            && AtStep(items, loc, Stepped(it, item), i + 1)
            && Stepped(it, item).CurrentLocation() == TailLoc(items, loc, i)
  {
    var run := Run(items, loc);
    TailOk(items, loc, i);
    assert run[..i] == Drop(items, loc.off)[..i];
    DropMany(items, loc.off, i);
    SizeOfSnoc(run, i);
  }

  lemma BelowPrefix(run: seq<Item>, from: Key, i: nat)
    requires Sorted(run) && i < |run|
    ensures run[i].key < from <==> i < Below(run, from)
  {
    var n := Below(run, from);
    assert n <= i ==> run[n].key <= run[i].key;
  }

  lemma UpToPrefix(run: seq<Item>, to: Key, i: nat)
    requires Sorted(run) && i < |run|
    ensures run[i].key <= to <==> i < UpTo(run, to)
  {
    var n := UpTo(run, to);
    assert n <= i ==> run[n].key <= run[i].key;
  }

  // ---------- Deletions that are always exact ----------

  /** A batch that starts in the range is touched. */
  lemma StartsInRange(items: seq<Item>, loc: Location, from: Key, to: Key)
    requires LocOk(items, loc) && from <= loc.key <= to
    ensures Hit(items, loc, from, to)
  {
    var run := Run(items, loc);
    LocOkRun(items, loc);
    assert Below(run, from) == 0 && UpTo(run, to) > 0;
  }

  lemma HitsStart(items: seq<Item>, loc: Location, from: Key, to: Key)
    requires LocOk(items, loc) && Hit(items, loc, from, to)
    ensures loc.key <= to
  {
    LocOkRun(items, loc);
  }

  /**
   * A deletion is exact if below the range no two batches start with the same key: in particular if the
   * range starts at or below every key of the index, or if there is one batch per first key.
   */
  lemma SingleBatchesExact(items: seq<Item>, m: Locs, from: Key, to: Key)
    requires IndexOk(items, m) && forall k :: k in m ==> from <= k || |m[k]| == 1
    ensures HitsAreOldest(items, m, from, to)
  {
    hide LocOk, Hit;
    forall k, i, j | k in m && 0 <= i < j < |m[k]| && Hit(items, m[k][j], from, to)
      ensures Hit(items, m[k][i], from, to)
    {
      HitsStart(items, m[k][j], from, to);
      StartsInRange(items, m[k][i], from, to);
    }
  }

  /** Below a key, no two of the items have the same key. */
  ghost predicate Separable(bag: multiset<Item>, from: Key) {
    forall x, y :: x in bag && y in bag && x.key == y.key && x.key < from ==> x == y && bag[x] == 1
  }

  lemma SeparableFewer(a: multiset<Item>, b: multiset<Item>, from: Key)
    requires Separable(b, from) && a <= b
    ensures Separable(a, from)
  {
    forall x, y | x in a && y in a && x.key == y.key && x.key < from
      ensures x == y && a[x] == 1
    {
      assert x in b && y in b && a[x] <= b[x];
    }
  }

  /** If no fork holds two items of one key below the range, no two batches start with the same key there. */
  lemma SeparableExact(items: seq<Item>, m: Locs, from: Key, to: Key)
    requires IndexOk(items, m) && NoEmpty(m) && Separable(Content(items, m), from)
    ensures HitsAreOldest(items, m, from, to)
  {
    forall k | k in m
      ensures from <= k || |m[k]| == 1
    {
      if |m[k]| > 1 {
        TwoBatches(items, m, k, from);
      }
    }
    SingleBatchesExact(items, m, from, to);
  }

  lemma TwoBatches(items: seq<Item>, m: Locs, k: Key, from: Key)
    requires IndexOk(items, m) && k in m && |m[k]| > 1 && Separable(Content(items, m), from)
    ensures from <= k
  {
    hide Content, IndexOk;
    var x, y := TwoOfOneKey(items, m, k);
  }

  /** Two batches under one key start with two items of that key. */
  lemma TwoOfOneKey(items: seq<Item>, m: Locs, k: Key) returns (x: Item, y: Item)
    requires IndexOk(items, m) && k in m && |m[k]| > 1
    ensures x in Content(items, m) && y in Content(items, m) && x.key == y.key == k
    ensures x == y ==> Content(items, m)[x] >= 2
  {
    hide LocOk;
    var a, b := m[k][0], m[k][1];
    LocOkRun(items, a);
    LocOkRun(items, b);
    SumSplit(m, k, Bag(items));
    x, y := Run(items, a)[0], Run(items, b)[0];
    assert Total(m[k], Bag(items)) == Bag(items)(a) + (Bag(items)(b) + Total(m[k][1..][1..], Bag(items)));
    assert x in Bag(items)(a) && y in Bag(items)(b);
    assert Content(items, m)[x] >= Bag(items)(a)[x] + Bag(items)(b)[x];
  }

  /** No two of the items have the same key. */
  ghost predicate DistinctKeys(bag: multiset<Item>) {
    forall x, y :: x in bag && y in bag && x.key == y.key ==> x == y && bag[x] == 1
  }

  lemma DistinctFewer(a: multiset<Item>, b: multiset<Item>)
    requires DistinctKeys(b) && a <= b
    ensures DistinctKeys(a)
  {
    forall x, y | x in a && y in a && x.key == y.key
      ensures x == y && a[x] == 1
    {
      assert x in b && y in b && a[x] <= b[x];
    }
  }

  /** A fork that holds no two items of one key has one batch per first key. */
  lemma DistinctSingles(items: seq<Item>, m: Locs)
    requires IndexOk(items, m) && DistinctKeys(Content(items, m))
    ensures forall k :: k in m ==> |m[k]| == 1
  {
    hide Content, LocOk;
    forall k | k in m
      ensures |m[k]| == 1
    {
      if |m[k]| > 1 {
        var x, y := TwoOfOneKey(items, m, k);
      }
    }
  }
}
