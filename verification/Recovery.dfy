/** Rebuilding an index from the value log alone (FromVlog in index/index.go). */
module Recovery {
  import opened Items
  import opened Vlog
  import opened IndexSpec
  import opened Contents
  import opened BatchIndex
  import opened Spots

  const ALL_ITEMS := TWO_64 - 1

  // ---------- The runs of a log ----------

  /** Where the run that an item belongs to starts: a run goes on as long as keys do not fall. */
  ghost function RunStart(items: seq<Item>, i: nat): (j: nat)
    requires i < |items|
    ensures j <= i
  {
    if i == 0 || items[i - 1].key > items[i].key then i else RunStart(items, i - 1)
  }

  /** The location of the items from j on, up to but without i. */
  ghost function RunLoc(items: seq<Item>, j: nat, i: nat): Location
    requires j < i <= |items|
  {
    Location(items[j].key, SizeOfAll(items[..j]), i - j)
  }

  /** The runs that ended among the first i items. */
  ghost function RunsBefore(items: seq<Item>, i: nat): seq<Location>
    requires i <= |items|
  {
    if i <= 1 then []
    else if items[i - 2].key > items[i - 1].key then
      RunsBefore(items, i - 1) + [RunLoc(items, RunStart(items, i - 2), i - 1)]
    else RunsBefore(items, i - 1)
  }

  /** All runs of a log. */
  ghost function LogRuns(items: seq<Item>): seq<Location> {
    if items == [] then []
    else RunsBefore(items, |items|) + [RunLoc(items, RunStart(items, |items| - 1), |items|)]
  }

  /** What the scan sets before the first run: an empty location, if the first key is negative. */
  ghost function Spurious(items: seq<Item>): Locs {
    if items != [] && items[0].key < 0 then map[0 := [Location(0, 0, 0)]] else map[]
  }

  /** The index that recovery makes of a log. */
  ghost function Recovered(items: seq<Item>): Locs {
    SetAll(Spurious(items), LogRuns(items))
  }

  /** What the locations stand for, one after the other. */
  ghost function Joined(items: seq<Item>, locs: seq<Location>): seq<Item> {
    if locs == [] then [] else Joined(items, locs[..|locs| - 1]) + Run(items, locs[|locs| - 1])
  }

  lemma JoinedSnoc(items: seq<Item>, locs: seq<Location>, loc: Location)
    ensures Joined(items, locs + [loc]) == Joined(items, locs) + Run(items, loc)
  {
    assert (locs + [loc])[..|locs|] == locs;
  }

  /** Each location is a sorted run, and each but the first starts below the item before it. */
  ghost predicate Maximal(items: seq<Item>, locs: seq<Location>) {
    && (forall r :: 0 <= r < |locs| ==> LocOk(items, locs[r]))
    && (forall r :: 0 < r < |locs| ==> Run(items, locs[r - 1])[locs[r - 1].len - 1].key > locs[r].key)
  }

  lemma {:induction false} StartSorted(items: seq<Item>, i: nat)
    requires i < |items|
    ensures Sorted(items[RunStart(items, i)..i + 1])
    ensures RunStart(items, i) > 0 ==> items[RunStart(items, i) - 1].key > items[RunStart(items, i)].key
  {
    if i > 0 && items[i - 1].key <= items[i].key {
      hide Sorted;
      StartSorted(items, i - 1);
      SortedSnoc(items, RunStart(items, i), i);
    }
  }

  lemma MaximalSnoc(items: seq<Item>, locs: seq<Location>, j: nat, i: nat)
    requires j < i <= |items| && Maximal(items, locs) && Joined(items, locs) == items[..j]
    requires Sorted(items[j..i]) && (j > 0 ==> items[j - 1].key > items[j].key)
    ensures Maximal(items, locs + [RunLoc(items, j, i)]) && Joined(items, locs + [RunLoc(items, j, i)]) == items[..i]
  {
    hide LocOk, Run;
    var loc := RunLoc(items, j, i);
    LastRunOk(items, j, i);
    RunAt(items, loc.key, j, i);
    JoinedSnoc(items, locs, loc);
    assert items[..j] + items[j..i] == items[..i];
    if locs != [] {
      LastItem(items, locs, j);
    }
  }

  lemma LastItem(items: seq<Item>, locs: seq<Location>, j: nat)
    requires locs != [] && Maximal(items, locs) && j <= |items| && Joined(items, locs) == items[..j]
    ensures var loc := locs[|locs| - 1]; j > 0 && Run(items, loc)[loc.len - 1] == items[j - 1]
  {
    var loc := locs[|locs| - 1];
    LocOkRun(items, loc);
    var front := Joined(items, locs[..|locs| - 1]);
    assert items[..j] == front + Run(items, loc);
    assert items[..j][j - 1] == Run(items, loc)[loc.len - 1];
  }

  lemma MaximalNone(items: seq<Item>)
    ensures Maximal(items, []) && Joined(items, []) == []
  {
  }

  lemma {:induction false} RunsBeforeOk(items: seq<Item>, i: nat)
    requires 0 < i <= |items|
    ensures Maximal(items, RunsBefore(items, i))
    ensures Joined(items, RunsBefore(items, i)) == items[..RunStart(items, i - 1)]
  {
    hide LocOk, Run, Sorted, Maximal, Joined;
    MaximalNone(items);
    if i > 1 {
      RunsBeforeOk(items, i - 1);
      if items[i - 2].key > items[i - 1].key {
        StartSorted(items, i - 2);
        MaximalSnoc(items, RunsBefore(items, i - 1), RunStart(items, i - 2), i - 1);
      }
    }
  }

  /** The runs of a log are sorted, make up the log, and cannot be longer. */
  lemma RunsMaximal(items: seq<Item>)
    ensures Maximal(items, LogRuns(items)) && Joined(items, LogRuns(items)) == items
  {
    hide LocOk, Run, Sorted, Maximal, Joined, RunsBefore, RunStart;
    MaximalNone(items);
    if items != [] {
      var n := |items|;
      RunsBeforeOk(items, n);
      StartSorted(items, n - 1);
      MaximalSnoc(items, RunsBefore(items, n), RunStart(items, n - 1), n);
      assert items[..n] == items;
    }
  }

  // ---------- Logs that start below zero ----------

  /** A location beyond an empty one is not reached. */
  lemma ReachSet(m: Locs, loc: Location)
    requires Blocked(m)
    ensures Blocked(SetLoc(m, loc))
    ensures Reach(SetLoc(m, loc)) == if loc.key < 0 then SetLoc(Reach(m), loc) else Reach(m)
  {
  }

  ghost function BelowZero(locs: seq<Location>): seq<Location> {
    if locs == [] then []
    else (if locs[0].key < 0 then [locs[0]] else []) + BelowZero(locs[1..])
  }

  lemma {:induction false} ReachSetAll(m: Locs, locs: seq<Location>)
    requires Blocked(m)
    ensures Reach(SetAll(m, locs)) == SetAll(Reach(m), BelowZero(locs))
    decreases locs
  {
    hide Reach, Blocked, SetLoc;
    if locs != [] {
      ReachSet(m, locs[0]);
      ReachSetAll(SetLoc(m, locs[0]), locs[1..]);
      if locs[0].key < 0 {
        assert BelowZero(locs)[1..] == BelowZero(locs[1..]);
      } else {
        assert BelowZero(locs) == BelowZero(locs[1..]);
      }
    }
  }

  lemma {:induction false} BelowZeroAll(locs: seq<Location>)
    ensures |BelowZero(locs)| <= |locs| && forall x :: x in BelowZero(locs) ==> x in locs
    ensures |BelowZero(locs)| == |locs| <==> forall r :: 0 <= r < |locs| ==> locs[r].key < 0
    ensures |BelowZero(locs)| == |locs| ==> BelowZero(locs) == locs
  {
    if locs != [] {
      BelowZeroAll(locs[1..]);
      assert forall r :: 0 < r < |locs| ==> locs[r] == locs[1..][r - 1];
      assert locs == [locs[0]] + locs[1..];
    }
  }

  /** Every batch that is not reached is missing at least one item. */
  lemma {:induction false} BelowZeroFewer(items: seq<Item>, locs: seq<Location>)
    requires forall r :: 0 <= r < |locs| ==> LocOk(items, locs[r])
    ensures |Total(BelowZero(locs), Bag(items))| + (|locs| - |BelowZero(locs)|) <= |Total(locs, Bag(items))|
  {
    hide LocOk, Run;
    if locs != [] {
      BelowZeroFewer(items, locs[1..]);
      LocOkRun(items, locs[0]);
      assert |Bag(items)(locs[0])| > 0;
      if locs[0].key < 0 {
        assert BelowZero(locs)[1..] == BelowZero(locs[1..]);
      } else {
        assert BelowZero(locs) == BelowZero(locs[1..]);
      }
    }
  }

  lemma {:induction false} JoinedTotal(items: seq<Item>, locs: seq<Location>)
    ensures multiset(Joined(items, locs)) == Total(locs, Bag(items))
  {
    hide Run;
    if locs != [] {
      var n := |locs| - 1;
      JoinedTotal(items, locs[..n]);
      assert locs == locs[..n] + [locs[n]];
      TotalSnoc(locs[..n], locs[n], Bag(items));
    }
  }

  /**
   * After recovering a log that starts below zero, reads reach the runs that start below zero and no
   * others; so all is readable if and only if every run of the log starts below zero.
   */
  lemma RecoveredReach(items: seq<Item>)
    requires items != [] && items[0].key < 0
    ensures var m := Reach(Recovered(items));
            && IndexOk(items, m)
            && Content(items, m) == Total(BelowZero(LogRuns(items)), Bag(items))
            && (Content(items, m) == multiset(items)
                <==> forall r :: 0 <= r < |LogRuns(items)| ==> LogRuns(items)[r].key < 0)
  {
    hide LocOk, Run, LogRuns, Joined, BelowZero, Content, IndexOk, Maximal, Reach;
    var runs := LogRuns(items);
    RunsMaximal(items);
    JoinedTotal(items, runs);
    BelowZeroAll(runs);
    assert forall r :: 0 <= r < |runs| ==> LocOk(items, runs[r]) by { MaximalOk(items, runs); }
    BelowZeroFewer(items, runs);
    ReachSpurious(items);
    ReachSetAll(Spurious(items), runs);
    BelowZeroIndex(items, runs);
  }

  lemma MaximalOk(items: seq<Item>, locs: seq<Location>)
    requires Maximal(items, locs)
    ensures forall r :: 0 <= r < |locs| ==> LocOk(items, locs[r])
  {
  }

  lemma ReachSpurious(items: seq<Item>)
    requires items != [] && items[0].key < 0
    ensures Blocked(Spurious(items)) && Reach(Spurious(items)) == map[]
  {
  }

  lemma BelowZeroIndex(items: seq<Item>, locs: seq<Location>)
    requires forall r :: 0 <= r < |locs| ==> LocOk(items, locs[r])
    ensures var m := SetAll(map[], BelowZero(locs));
            IndexOk(items, m) && Content(items, m) == Total(BelowZero(locs), Bag(items))
  {
    hide LocOk, BelowZero;
    var below := BelowZero(locs);
    BelowZeroAll(locs);
    forall r | 0 <= r < |below|
      ensures LocOk(items, below[r])
    {
      assert below[r] in locs;
    }
    EmptyCounted(items);
    IndexOkSetAll(items, map[], below);
    LocsPositive(items, below);
    SumSetAll(map[], below, Bag(items));
  }

  // ---------- What a scan finds ----------

  /** The items that stepping through any bytes gives, resuming behind damage; `prev` is the item before. */
  ghost function Found(s: seq<Byte>, size: nat, off: nat, prev: Item): seq<Item>
    requires size <= |s|
    decreases size - off
  {
    var p := FirstSound(s, size, off);
    if off >= size || p == size then []
    else
      var x := ItemThere(s, size, p, prev);
      [x] + Found(s, size, p + StorageSize(x), x)
  }

  ghost function ItemThere(s: seq<Byte>, size: nat, p: nat, prev: Item): Item
    requires size <= |s|
  {
    var r := ParseItem(s, size, p);
    if r.Parsed? then r.item else prev
  }

  /** Where these items lie. */
  ghost function Places(s: seq<Byte>, size: nat, off: nat, prev: Item): seq<nat>
    requires size <= |s|
    decreases size - off
  {
    var p := FirstSound(s, size, off);
    if off >= size || p == size then []
    else
      var x := ItemThere(s, size, p, prev);
      [p] + Places(s, size, p + StorageSize(x), x)
  }

  /** No damage is skipped before an item that is found. */
  ghost predicate Unbroken(s: seq<Byte>, size: nat, off: nat, prev: Item)
    requires size <= |s|
    decreases size - off
  {
    var p := FirstSound(s, size, off);
    if off >= size || p == size then true
    else
      var x := ItemThere(s, size, p, prev);
      p == off && Unbroken(s, size, p + StorageSize(x), x)
  }

  /** The items lie one behind the other, from an offset on. */
  ghost predicate Adjacent(found: seq<Item>, places: seq<nat>, from: nat) {
    |places| == |found| && forall i :: 0 <= i < |found| ==> places[i] == from + SizeOfAll(found[..i])
  }

  /** Every item lies at the sum of the sizes before it, or behind it. */
  ghost predicate NotBefore(found: seq<Item>, places: seq<nat>, from: nat) {
    |places| == |found| && forall i :: 0 <= i < |found| ==> places[i] >= from + SizeOfAll(found[..i])
  }

  lemma AdjacentCons(x: Item, found: seq<Item>, p: nat, places: seq<nat>, from: nat)
    requires |places| == |found|
    ensures Adjacent([x] + found, [p] + places, from) <==> p == from && Adjacent(found, places, from + StorageSize(x))
    ensures from <= p && NotBefore(found, places, from + StorageSize(x)) ==> NotBefore([x] + found, [p] + places, from)
  {
    var f, q := [x] + found, [p] + places;
    assert f[..0] == [];
    forall i | 0 < i < |f|
      ensures SizeOfAll(f[..i]) == StorageSize(x) + SizeOfAll(found[..i - 1]) && q[i] == places[i - 1]
    {
      assert f[..i][1..] == found[..i - 1];
    }
    assert forall i :: 0 <= i < |found| ==> q[i + 1] == places[i]
                                            && SizeOfAll(f[..i + 1]) == StorageSize(x) + SizeOfAll(found[..i]);
  }

  lemma NotBeforeLess(found: seq<Item>, places: seq<nat>, a: nat, b: nat)
    requires NotBefore(found, places, b) && a <= b
    ensures NotBefore(found, places, a) && (found != [] && a < b ==> !Adjacent(found, places, a))
  {
    if found != [] {
      assert found[..0] == [];
      assert places[0] >= b + SizeOfAll(found[..0]);
    }
  }

  /**
   * Recovery adds up the sizes of the items it finds and takes the sum for the offset of the next one. That
   * is where the item lies if and only if no damage was skipped before; otherwise the offset is too small.
   */
  lemma {:induction false} OffsetsExact(s: seq<Byte>, size: nat, off: nat, prev: Item)
    requires size <= |s|
    ensures NotBefore(Found(s, size, off, prev), Places(s, size, off, prev), off)
    ensures Adjacent(Found(s, size, off, prev), Places(s, size, off, prev), off) <==> Unbroken(s, size, off, prev)
    decreases size - off
  {
    hide ParseItem, FirstSound, ItemThere, Adjacent, NotBefore;
    var p := FirstSound(s, size, off);
    if off < size && p != size {
      var x := ItemThere(s, size, p, prev);
      var next := p + StorageSize(x);
      var rest, later := Found(s, size, next, x), Places(s, size, next, x);
      OffsetsExact(s, size, next, x);
      NotBeforeLess(rest, later, off + StorageSize(x), next);
      AdjacentSizes(rest, later, next);
      AdjacentCons(x, rest, p, later, off);
    } else {
      AdjacentNone(off);
    }
  }

  lemma AdjacentSizes(found: seq<Item>, places: seq<nat>, from: nat)
    requires NotBefore(found, places, from)
    ensures |places| == |found|
  {
  }

  lemma AdjacentNone(from: nat)
    ensures Adjacent([], [], from) && NotBefore([], [], from)
  {
  }

  /** On an intact log a scan finds the items stored, each in its place. */
  lemma {:induction false} FoundIntact(log: Log, i: nat, prev: Item)
    requires log.Valid() && i <= |log.items|
    ensures var off := SizeOfAll(log.items[..i]);
            && Found(log.mmap[..], log.size, off, prev) == log.items[i..]
            && Unbroken(log.mmap[..], log.size, off, prev)
    decreases |log.items| - i
  {
    hide ParseItem;
    var items, off := log.items, SizeOfAll(log.items[..i]);
    DropAt(items, i);
    assert items[..|items|] == items;
    if i < |items| {
      log.ReadsBack(off);
      SizeOfSnoc(items, i);
      FoundIntact(log, i + 1, items[i]);
      assert items[i..] == [items[i]] + items[i + 1..];
    } else {
      assert log.size == SizeOfAll(items);
    }
  }

  // ---------- The scan ----------

  /**
   * The state of the scan after i items, with the current run starting at item j: the finished runs are
   * in the index, the current one is `last`.
   */
  ghost predicate Scanning(items: seq<Item>, s: State, prevOff: nat, prevKey: Key, last: Location,
                           i: nat, j: nat) {
    && j <= i <= |items|
    && prevOff == SizeOfAll(items[..i])
    && last.off == SizeOfAll(items[..j]) && last.len == i - j
    && (i == 0 ==> last == Location(0, 0, 0) && prevKey == 0 && s == EMPTY)
    && (i > 0 ==> j < i && prevKey == items[i - 1].key && last.key == items[j].key)
    && Sorted(items[j..i])
    && Content(items, s.m) == multiset(items[..j]) && s.len == s.entries == j
    && SpotsOf(items, s.m) == Span(0, j)
    && Flawed(items, s.m, i)
    && Listed(items, s.m, i, j)
  }

  /** The index lists the runs that ended so far, and the current run starts at item j. */
  ghost predicate Listed(items: seq<Item>, m: Locs, i: nat, j: nat)
    requires i <= |items|
  {
    i > 0 ==> j == RunStart(items, i - 1) && m == SetAll(Spurious(items), RunsBefore(items, i))
  }

  lemma ListedFirst(items: seq<Item>, m: Locs)
    requires items != [] && m == Spurious(items)
    ensures Listed(items, m, 1, 0)
  {
  }

  lemma ListedMore(items: seq<Item>, m: Locs, i: nat, j: nat)
    requires 0 < i < |items| && Listed(items, m, i, j) && items[i - 1].key <= items[i].key
    ensures Listed(items, m, i + 1, j)
  {
  }

  lemma ListedBreak(items: seq<Item>, m: Locs, i: nat, j: nat)
    requires 0 < i < |items| && Listed(items, m, i, j) && items[i - 1].key > items[i].key && j < i
    ensures Listed(items, SetLoc(m, RunLoc(items, j, i)), i + 1, i)
  {
    SetAllSnoc(Spurious(items), RunsBefore(items, i), RunLoc(items, j, i));
  }

  lemma ListedEnd(items: seq<Item>, m: Locs, j: nat)
    requires items != [] && Listed(items, m, |items|, j) && j < |items|
    ensures SetLoc(m, RunLoc(items, j, |items|)) == Recovered(items)
  {
    SetAllSnoc(Spurious(items), RunsBefore(items, |items|), RunLoc(items, j, |items|));
  }

  /** The index is valid, except that a negative first key leaves an empty location under key 0. */
  ghost predicate Flawed(items: seq<Item>, m: Locs, i: nat) {
    if items == [] || items[0].key >= 0 || i == 0 then IndexOk(items, m)
    else 0 in m && m[0] != [] && m[0][0] == Location(0, 0, 0) && IndexOk(items, Reach(m))
  }

  lemma {:induction false} DropAt(items: seq<Item>, i: nat)
    requires i <= |items|
    ensures Drop(items, SizeOfAll(items[..i])) == items[i..]
  {
    assert items == items[..i] + items[i..];
    DropConcat(items[..i], items[i..], SizeOfAll(items[..i]));
  }

  lemma RunAt(items: seq<Item>, k: Key, j: nat, i: nat)
    requires j <= i <= |items|
    ensures Run(items, Location(k, SizeOfAll(items[..j]), i - j)) == items[j..i]
  {
    DropAt(items, j);
    assert items[j..][..i - j] == items[j..i];
  }

  lemma LastRunOk(items: seq<Item>, j: nat, i: nat)
    requires j < i <= |items| && Sorted(items[j..i])
    ensures LocOk(items, Location(items[j].key, SizeOfAll(items[..j]), i - j))
  {
    DropAt(items, j);
    RunAt(items, items[j].key, j, i);
  }

  lemma StartScan(items: seq<Item>, s: State, last: Location)
    requires s == EMPTY && last == Location(0, 0, 0)
    ensures Scanning(items, s, 0, 0, last, 0, 0)
  {
    EmptyCounted(items);
    NoSpots(items);
    assert items[..0] == [];
  }

  /** After the last item the current run is the only one missing. */
  lemma EndScan(items: seq<Item>, s: State, prevOff: nat, prevKey: Key, last: Location, i: nat, j: nat)
    requires Scanning(items, s, prevOff, prevKey, last, i, j) && i == |items|
    ensures var t := if last.len > 0 then SetState(s, last) else s;
            && Content(items, t.m) == multiset(items) && t.len == t.entries == |items|
            && Once(items, t.m) && t.m == Recovered(items)
            && IndexOk(items, Reach(t.m))
            && (IndexOk(items, t.m) <==> items == [] || items[0].key >= 0)
  {
    hide Flawed, IndexOk, Content, SpotsOf, Span, Sorted, Once, Reach, Listed;
    assert items[..|items|] == items;
    var t := if last.len > 0 then SetState(s, last) else s;
    if i > 0 {
      CloseRun(items, s, last, i, j);
      ListedEnd(items, s.m, j);
    }
    FlawedEnd(items, t.m);
    SpanOnce(items, t.m);
  }

  lemma FlawedEnd(items: seq<Item>, m: Locs)
    requires Flawed(items, m, |items|)
    ensures IndexOk(items, m) <==> items == [] || items[0].key >= 0
    ensures IndexOk(items, Reach(m))
  {
    if IndexOk(items, m) {
      ReachAll(items, m);
    }
  }

  lemma SpanOnce(items: seq<Item>, m: Locs)
    requires SpotsOf(items, m) == Span(0, |items|)
    ensures Once(items, m)
  {
  }

  /** Putting the current run into the index. */
  lemma CloseRun(items: seq<Item>, s: State, last: Location, i: nat, j: nat)
    requires j < i <= |items| && last == Location(items[j].key, SizeOfAll(items[..j]), i - j)
    requires Sorted(items[j..i]) && Flawed(items, s.m, i)
    requires Content(items, s.m) == multiset(items[..j]) && s.len == s.entries == j
    requires SpotsOf(items, s.m) == Span(0, j)
    ensures SpotsOf(items, SetState(s, last).m) == Span(0, i)
    ensures var t := SetState(s, last);
            Flawed(items, t.m, i) && Content(items, t.m) == multiset(items[..i]) && t.len == t.entries == i
  {
    hide Flawed, LocOk, Run, SetLoc, Sum, Sorted, IndexOk, SizeOfAll, Readable;
    LastRunOk(items, j, i);
    RunAt(items, last.key, j, i);
    FlawedSet(items, s.m, last, i);
    RunSpots(items, s.m, last, j, i);
    hide Span;
    SumSet(s.m, last, Bag(items));
    assert items[..i] == items[..j] + items[j..i];
    assert multiset(items[..i]) == multiset(items[..j]) + multiset(items[j..i]);
  }

  lemma RunSpots(items: seq<Item>, m: Locs, loc: Location, j: nat, i: nat)
    requires j <= i <= |items| && loc.off == SizeOfAll(items[..j]) && loc.len == i - j
    requires SpotsOf(items, m) == Span(0, j)
    ensures SpotsOf(items, SetLoc(m, loc)) == Span(0, i)
  {
    hide SetLoc, Sum, Span;
    DropAt(items, j);
    SumSet(m, loc, SpotBag(items));
    assert Span(0, j) + Span(j, i - j) == Span(0, i) by { SpanJoin(j, i); }
  }

  lemma SpanJoin(j: nat, i: nat)
    requires j <= i
    ensures Span(0, j) + Span(j, i - j) == Span(0, i)
  {
    forall x: nat
      ensures (Span(0, j) + Span(j, i - j))[x] == Span(0, i)[x]
    {
    }
  }

  lemma FlawedSet(items: seq<Item>, m: Locs, loc: Location, i: nat)
    requires Flawed(items, m, i) && LocOk(items, loc)
    ensures Flawed(items, SetLoc(m, loc), i)
  {
    hide LocOk;
    if items == [] || items[0].key >= 0 || i == 0 {
      IndexOkSet(items, m, loc);
    } else {
      ReachSet(m, loc);
      hide Reach, IndexOk;
      if loc.key < 0 {
        IndexOkSet(items, Reach(m), loc);
      }
    }
  }

  lemma IndexOkSet(items: seq<Item>, m: Locs, loc: Location)
    requires IndexOk(items, m) && LocOk(items, loc)
    ensures IndexOk(items, SetLoc(m, loc))
  {
    LocOkRun(items, loc);
    IndexOkApply(items, m, loc);
  }

  /** With a negative first key the scan starts by setting an empty location. */
  lemma SpuriousRun(items: seq<Item>, s: State, zero: Location)
    requires items != [] && items[0].key < 0 && s == EMPTY && zero == Location(0, 0, 0)
    ensures Flawed(items, SetState(s, zero).m, 1)
    ensures Content(items, SetState(s, zero).m) == multiset{}
    ensures SetState(s, zero).len == SetState(s, zero).entries == 0
    ensures SpotsOf(items, SetState(s, zero).m) == Span(0, 0)
  {
    NoSpots(items);
    SumSet(s.m, zero, SpotBag(items));
    SumSet(s.m, zero, Bag(items));
    EmptyCounted(items);
    assert Run(items, zero) == [];
    assert SetState(s, zero).m[0] == [zero];
  }

  /** The next item extends the current run. */
  lemma ExtendRun(items: seq<Item>, s: State, prevOff: nat, prevKey: Key, last: Location, i: nat, j: nat)
    requires Scanning(items, s, prevOff, prevKey, last, i, j) && i < |items| < ALL_ITEMS
    requires prevKey <= items[i].key
    ensures Scanning(items, s, prevOff + StorageSize(items[i]), items[i].key,
                     Location(if i == 0 then items[0].key else last.key, last.off, last.len + 1), i + 1, j)
  {
    hide IndexOk, Content, SpotsOf, Span, Flawed, SizeOfAll, Listed;
    SizeOfSnoc(items, i);
    FlawedStep(items, s.m, i);
    SortedSnoc(items, j, i);
    if i > 0 {
      ListedMore(items, s.m, i, j);
    } else {
      ListedFirst(items, s.m);
      assert items[0..0] == [] && items[..0] == [];
    }
  }

  lemma FlawedStep(items: seq<Item>, m: Locs, i: nat)
    requires Flawed(items, m, i) && i < |items| && (i == 0 ==> m == map[] && items[0].key >= 0)
    ensures Flawed(items, m, i + 1)
  {
  }

  lemma SortedSnoc(items: seq<Item>, j: nat, i: nat)
    requires j <= i < |items| && Sorted(items[j..i]) && (j < i ==> items[i - 1].key <= items[i].key)
    ensures Sorted(items[j..i + 1])
  {
    var run := items[j..i];
    assert items[j..i + 1] == run + [items[i]];
    if j < i {
      assert run[i - 1 - j] == items[i - 1];
    }
  }

  /** The next item sorts below its predecessor and starts a new run. */
  lemma BreakRun(items: seq<Item>, s: State, prevOff: nat, prevKey: Key, last: Location, i: nat, j: nat)
    requires Scanning(items, s, prevOff, prevKey, last, i, j) && i < |items| < ALL_ITEMS
    requires prevKey > items[i].key
    ensures Scanning(items, SetState(s, last), prevOff + StorageSize(items[i]), items[i].key,
                     Location(items[i].key, prevOff, 1), i + 1, i)
  {
    hide Scanning;
    if i == 0 {
      BreakFirst(items, s, prevOff, prevKey, last, j);
    } else {
      BreakLater(items, s, prevOff, prevKey, last, i, j);
    }
  }

  lemma BreakFirst(items: seq<Item>, s: State, prevOff: nat, prevKey: Key, last: Location, j: nat)
    requires Scanning(items, s, prevOff, prevKey, last, 0, j) && 0 < |items| < ALL_ITEMS
    requires prevKey > items[0].key
    ensures Scanning(items, SetState(s, last), prevOff + StorageSize(items[0]), items[0].key,
                     Location(items[0].key, prevOff, 1), 1, 0)
  {
    hide IndexOk, Content, SpotsOf, Span, Flawed, SizeOfAll, Listed;
    SizeOfSnoc(items, 0);
    SpuriousRun(items, s, last);
    assert Get(EMPTY.m, 0) + [last] == [last];
    ListedFirst(items, SetState(s, last).m);
    assert items[..0] == [] && items[0..1] == [items[0]];
  }

  lemma BreakLater(items: seq<Item>, s: State, prevOff: nat, prevKey: Key, last: Location, i: nat, j: nat)
    requires Scanning(items, s, prevOff, prevKey, last, i, j) && 0 < i < |items| < ALL_ITEMS
    requires prevKey > items[i].key
    ensures Scanning(items, SetState(s, last), prevOff + StorageSize(items[i]), items[i].key,
                     Location(items[i].key, prevOff, 1), i + 1, i)
  {
    hide IndexOk, Content, SpotsOf, Span, Flawed, SizeOfAll, Listed;
    SizeOfSnoc(items, i);
    CloseRun(items, s, last, i, j);
    ListedBreak(items, s.m, i, j);
    FlawedStep(items, SetState(s, last).m, i);
    assert items[i..i + 1] == [items[i]];
  }

  /** The iterator of a scan stands before the i-th item to find. */
  ghost predicate Riding(s: seq<Byte>, size: nat, it: Iter, items: seq<Item>, i: nat)
    requires size <= |s|
  {
    && i <= |items| && Found(s, size, it.currOff, it.item) == items[i..]
    && it.currLen == ALL_ITEMS - i && !it.exhausted && it.continueOnErr
  }

  lemma RideOn(s: seq<Byte>, size: nat, it: Iter, items: seq<Item>, i: nat)
    requires size <= |s| && |items| < ALL_ITEMS && Riding(s, size, it, items, i)
    ensures it.currLen > 0 && (i < |items| <==> it.currOff < size && FirstSound(s, size, it.currOff) < size)
    ensures i < |items| ==>
              var nx := StepOnto(s, size, it, FirstSound(s, size, it.currOff));
              nx.item == items[i] && Riding(s, size, nx, items, i + 1)
  {
    hide ParseItem, FirstSound;
    if i < |items| {
      assert items[i..][0] == items[i] && items[i..][1..] == items[i + 1..];
    }
  }

  /**
   * Scans the whole log, however damaged, and indexes the maximal sorted runs of what it finds. The scan
   * ends on any log. On an intact log it finds every item ever pushed exactly once; the index is valid if and
   * only if the first key found is not negative.
   */
  method FromVlog(log: Log) returns (index: Index)
    requires log.InBounds()
    ensures fresh(index) && NoEmpty(index.m)
    ensures var found := Found(log.mmap[..], log.size, 0, Item(0, []));
            |found| < ALL_ITEMS ==>
              && index.m == Recovered(found) && index.len == index.nentries == |found|
              && Content(found, index.m) == multiset(found) && Once(found, index.m)
              && IndexOk(found, Reach(index.m))
              && (IndexOk(found, index.m) <==> found == [] || found[0].key >= 0)
    ensures log.Valid() ==> Found(log.mmap[..], log.size, 0, Item(0, [])) == log.items
  {
    hide IsImage, Scanning, IndexOk, Content, Sorted, Once, Recovered, Reach, Riding, Found, ParseItem, FirstSound;
    hide Drop, SizeOfAll, Encode, StepOnto, EncodeAll, Storable, Run;
    ghost var bytes, size := log.mmap[..], log.size;
    ghost var items := Found(bytes, size, 0, Item(0, []));
    if log.Valid() {
      FoundIntact(log, 0, Item(0, []));
      assert log.items[..0] == [] && log.items[0..] == log.items;
    }
    ghost var intact := |items| < ALL_ITEMS;
    var iter := log.At(Location(0, 0, ALL_ITEMS), true);
    index := new Index();
    var prevOff: nat := 0;
    var prevKey: Key := 0;
    var lastLoc := Location(0, 0, 0);
    var isInitialItem := true;
    ghost var i: nat, j: nat := 0, 0;
    StartScan(items, index.Value(), lastLoc);
    StartRide(bytes, size, iter, items);
    while true
      invariant fresh(index) && NoEmpty(index.m)
      invariant isInitialItem <==> i == 0
      invariant intact ==> Riding(bytes, size, iter, items, i)
      invariant intact ==> Scanning(items, index.Value(), prevOff, prevKey, lastLoc, i, j)
      decreases log.size - iter.currOff
    {
      ghost var s, prev, was := index.Value(), lastLoc, prevKey;
      if intact {
        RideOn(bytes, size, iter, items, i);
        RidingOn(bytes, size, iter, items, i);
      }
      var nx, ok := log.Next(iter);
      if !ok {
        break;
      }
      iter := nx;
      var it := iter.item;
      if intact {
        if was > it.key {
          BreakRun(items, s, prevOff, was, prev, i, j);
        } else {
          ExtendRun(items, s, prevOff, was, prev, i, j);
        }
      }
      if prevKey > it.key {
        index.Set(lastLoc);
        lastLoc := Location(it.key, prevOff, 0);
      }
      lastLoc := lastLoc.(len := lastLoc.len + 1);
      if isInitialItem {
        lastLoc := lastLoc.(key := it.key);
        isInitialItem := false;
      }
      j := if was > it.key then i else j;
      i := i + 1;
      prevOff := prevOff + StorageSize(it);
      prevKey := it.key;
    }
    if intact {
      EndScan(items, index.Value(), prevOff, prevKey, lastLoc, i, j);
    }
    if lastLoc.len > 0 {
      index.Set(lastLoc);
    }
  }

  lemma StartRide(s: seq<Byte>, size: nat, it: Iter, items: seq<Item>)
    requires size <= |s| && items == Found(s, size, 0, Item(0, []))
    requires it.currOff == 0 && it.item == Item(0, []) && it.currLen == ALL_ITEMS && !it.exhausted && it.continueOnErr
    ensures Riding(s, size, it, items, 0)
  {
    assert items[0..] == items;
  }

  lemma RidingOn(s: seq<Byte>, size: nat, it: Iter, items: seq<Item>, i: nat)
    requires size <= |s| && Riding(s, size, it, items, i)
    ensures i <= |items| && !it.exhausted && it.continueOnErr
  {
  }
}
