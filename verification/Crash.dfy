/** What survives a crash between, or in the middle of, the records of a pop or a range deletion. */
module Crash {
  import opened Items
  import opened Vlog
  import opened IndexSpec
  import opened Contents
  import opened BatchIndex
  import opened ForkSpec
  import opened PopSpec
  import opened RangeSpec
  import opened Recovery
  import opened Reopen
  import opened Spots

  /** Nothing that the finished operation keeps is missing after any prefix of its records. */
  ghost predicate PrefixSafe(items: seq<Item>, m: Locs, ops: seq<Location>) {
    forall j :: 0 <= j <= |ops| ==> Content(items, ApplyAll(m, ops)) <= Content(items, ApplyAll(m, ops[..j]))
  }

  /** The same for stored items, which tells equal items apart: none of them is missing. */
  ghost predicate SpotsSafe(items: seq<Item>, m: Locs, ops: seq<Location>) {
    forall j :: 0 <= j <= |ops| ==> SpotsOf(items, ApplyAll(m, ops)) <= SpotsOf(items, ApplyAll(m, ops[..j]))
  }

  lemma {:induction false} AppliedOk(items: seq<Item>, m: Locs, ops: seq<Location>, j: nat)
    requires IndexOk(items, m) && LogOps(items, ops) && j <= |ops|
    ensures IndexOk(items, ApplyAll(m, ops[..j]))
  {
    hide LocOk, IndexOk;
    forall i | 0 <= i < j
      ensures ops[..j][i].len == 0 || LocOk(items, ops[..j][i])
    {
      assert LogOp(items, ops[i]);
    }
    IndexOkApplyAll(items, m, ops[..j]);
  }

  /** If no stored item is missing, no item is. */
  lemma SpotsSuffice(items: seq<Item>, m: Locs, ops: seq<Location>)
    requires IndexOk(items, m) && LogOps(items, ops) && SpotsSafe(items, m, ops)
    ensures PrefixSafe(items, m, ops)
  {
    hide IndexOk, SpotsOf, Content, Pick;
    assert ops[..|ops|] == ops;
    AppliedOk(items, m, ops, |ops|);
    ContentPicks(items, ApplyAll(m, ops));
    forall j | 0 <= j <= |ops|
      ensures Content(items, ApplyAll(m, ops)) <= Content(items, ApplyAll(m, ops[..j]))
    {
      AppliedOk(items, m, ops, j);
      ContentPicks(items, ApplyAll(m, ops[..j]));
      PickMonotone(items, SpotsOf(items, ApplyAll(m, ops)), SpotsOf(items, ApplyAll(m, ops[..j])));
    }
  }

  lemma SumDeleteKey<T>(m: Locs, k: Key, f: Location -> multiset<T>)
    requires NoEmpty(m)
    ensures Sum(DeleteKey(m, k), f) <= Sum(m, f) && NoEmpty(DeleteKey(m, k))
  {
    if k in m {
      SumDelete(m, k, f);
    }
  }

  lemma {:induction false} SumDeleteAll<T>(m: Locs, keys: seq<Key>, f: Location -> multiset<T>)
    requires NoEmpty(m)
    ensures Sum(DeleteAll(m, keys), f) <= Sum(m, f) && NoEmpty(DeleteAll(m, keys))
    decreases keys
  {
    if keys != [] {
      SumDeleteKey(m, keys[0], f);
      SumDeleteAll(DeleteKey(m, keys[0]), keys[1..], f);
    }
  }

  lemma {:induction false} DeleteAllConcat(m: Locs, a: seq<Key>, b: seq<Key>)
    ensures DeleteAll(m, a + b) == DeleteAll(DeleteAll(m, a), b)
    decreases a
  {
    if a == [] {
      assert a + b == b;
    } else {
      assert (a + b)[1..] == a[1..] + b;
      DeleteAllConcat(DeleteKey(m, a[0]), a[1..], b);
    }
  }

  // ---------- Pop ----------

  /** When the turn of iterator i comes, the batch it was opened on is still in the index. */
  ghost predicate Alive(m: Locs, its: seq<Iter>, i: nat)
    requires i < |its|
  {
    its[i].start in Get(DeleteAll(m, Keys(Starts(its[..i]))), its[i].start.key)
  }

  /** Every iterator with something left finds its own batch alive. */
  ghost predicate InTurn(m: Locs, its: seq<Iter>) {
    forall i :: 0 <= i < |its| && !its[i].exhausted ==> Alive(m, its, i)
  }

  lemma {:induction false} PopOpsConcat(a: seq<Iter>, b: seq<Iter>)
    ensures PopOps(a + b) == PopOps(a) + PopOps(b)
    ensures Suffixes(a + b) == Suffixes(a) + Suffixes(b)
  {
    if a == [] {
      assert a + b == b;
    } else {
      assert (a + b)[1..] == a[1..] + b;
      PopOpsConcat(a[1..], b);
    }
  }

  /** A prefix of the records of a pop ends between two iterators, or after the rest of one was recorded. */
  lemma {:induction false} PrefixForm(its: seq<Iter>, j: nat) returns (i: nat)
    requires j <= |PopOps(its)|
    ensures i <= |its|
    ensures PopOps(its)[..j] == PopOps(its[..i])
            || (i < |its| && !its[i].exhausted && PopOps(its)[..j] == PopOps(its[..i]) + [its[i].CurrentLocation()])
  {
    if its == [] {
      i := 0;
    } else {
      var first, rest := PopOp(its[0]), PopOps(its[1..]);
      assert its[..0] == [] && PopOps([]) == [];
      if j < |first| {
        i := 0;
        assert PopOps(its)[..j] == first[..j];
      } else {
        var i' := PrefixForm(its[1..], j - |first|);
        i := i' + 1;
        assert PopOps(its)[..j] == first + rest[..j - |first|];
        assert its[..i][1..] == its[1..][..i'];
        assert PopOps(its[..i]) == first + PopOps(its[1..][..i']);
      }
    }
  }

  /** The opened batches are, in some order, the oldest under their keys. */
  ghost predicate Oldest(m: Locs, its: seq<Iter>, front: seq<Location>) {
    multiset(Starts(its)) == multiset(front) && Fifo(m, front)
  }

  /** A read of this index was done with these iterators. */
  ghost predicate Consuming(items: seq<Item>, m: Locs, its: seq<Iter>) {
    && IndexOk(items, m)
    && AllOpened(items, its)
    && exists front :: Oldest(m, its, front)
  }

  /** Every read leaves its iterators so, also if its callback pushed. */
  lemma ReadConsumes(items: seq<Item>, m: Locs, p: nat, its: seq<Iter>, out: seq<Item>, pushed: seq<Location>)
    requires IndexOk(items, m) && ReadState(items, m, p, its, out)
    requires forall i :: 0 <= i < |pushed| ==> LocOk(items, pushed[i])
    ensures Consuming(items, SetAll(m, pushed), its)
  {
    hide LocOk, Opened;
    var front := Flatten(m)[..p];
    IndexOkKeyedOnly(items, m);
    DropFront(m, p);
    IndexOkSetAll(items, m, pushed);
    forall k: Key
      ensures Under(front, k) <= Get(SetAll(m, pushed), k)
    {
      GetSetAll(m, pushed, k);
      assert Under(front, k) <= Get(m, k);
    }
    assert Oldest(SetAll(m, pushed), its, front);
  }

  lemma IndexOkKeyedOnly(items: seq<Item>, m: Locs)
    requires IndexOk(items, m)
    ensures Keyed(m)
  {
  }

  /** The index between two iterators of a pop. */
  ghost function Partway(m: Locs, its: seq<Iter>, i: nat): Locs
    requires i <= |its|
  {
    SetAll(DeleteAll(m, Keys(Starts(its[..i]))), Suffixes(its[..i]))
  }

  lemma CoveredPrefix(m: Locs, a: seq<Key>, b: seq<Key>)
    requires Covered(m, a + b)
    ensures Covered(m, a)
  {
    forall k: Key
      ensures multiset(a)[k] <= |Get(m, k)|
    {
      assert multiset(a + b)[k] == multiset(a)[k] + multiset(b)[k];
    }
  }

  lemma StartsSplit(its: seq<Iter>, i: nat)
    requires i <= |its|
    ensures its == its[..i] + its[i..]
    ensures Starts(its) == Starts(its[..i]) + Starts(its[i..])
    ensures Keys(Starts(its)) == Keys(Starts(its[..i])) + Keys(Starts(its[i..]))
  {
  }

  lemma ConsumingCovered(items: seq<Item>, m: Locs, its: seq<Iter>)
    requires Consuming(items, m, its)
    ensures NoEmpty(m) && Keyed(m) && Covered(m, Keys(Starts(its)))
    ensures forall it :: it in its ==> it.exhausted || it.prevLen > 0
  {
    var front :| Oldest(m, its, front);
    FifoCovered(m, front);
    KeysPermutation(Starts(its), front);
    CoveredPermutation(m, Keys(front), Keys(Starts(its)));
  }

  /** The state after the records of the first i iterators. */
  lemma PrefixState(items: seq<Item>, m: Locs, its: seq<Iter>, i: nat)
    requires Consuming(items, m, its) && i <= |its|
    ensures ApplyAll(m, PopOps(its[..i])) == Partway(m, its, i)
    ensures NoEmpty(Partway(m, its, i))
    ensures SpotsOf(items, Partway(m, its, i))
            == Sum(DeleteAll(m, Keys(Starts(its[..i]))), SpotBag(items)) + Total(its[..i], RestSpots(items))
  {
    hide LocOk, Opened;
    ConsumingCovered(items, m, its);
    StartsSplit(its, i);
    CoveredPrefix(m, Keys(Starts(its[..i])), Keys(Starts(its[i..])));
    var done := its[..i];
    assert forall it :: it in done ==> it in its;
    PopOpsParts(done);
    NormalForm(m, PopOps(done));
    SuffixesOk(items, done);
    SuffixSpots(items, done);
    LocsPositive(items, Suffixes(done));
    SumDeleteAll(m, Keys(Starts(done)), SpotBag(items));
    SumSetAll(DeleteAll(m, Keys(Starts(done))), Suffixes(done), SpotBag(items));
  }

  /** A pop loses nothing at any record if it loses nothing between iterators. */
  lemma BoundariesSuffice(items: seq<Item>, m: Locs, its: seq<Iter>)
    requires Consuming(items, m, its)
    requires forall i :: 0 <= i <= |its| ==>
               SpotsOf(items, Partway(m, its, |its|)) <= SpotsOf(items, Partway(m, its, i))
    ensures SpotsSafe(items, m, PopOps(its))
  {
    hide Partway, SpotsOf, Opened, LocOk, Consuming;
    var ops := PopOps(its);
    assert its[..|its|] == its;
    PrefixState(items, m, its, |its|);
    forall j | 0 <= j <= |ops|
      ensures SpotsOf(items, ApplyAll(m, ops)) <= SpotsOf(items, ApplyAll(m, ops[..j]))
    {
      var i := PrefixForm(its, j);
      PrefixState(items, m, its, i);
      if ops[..j] != PopOps(its[..i]) {
        ExtraSet(items, m, its, i);
      }
    }
  }

  lemma ExtraSet(items: seq<Item>, m: Locs, its: seq<Iter>, i: nat)
    requires Consuming(items, m, its) && i < |its| && !its[i].exhausted
    ensures SpotsOf(items, Partway(m, its, i))
            <= SpotsOf(items, ApplyAll(m, PopOps(its[..i]) + [its[i].CurrentLocation()]))
  {
    var cur, b := its[i].CurrentLocation(), Partway(m, its, i);
    assert its[i] in its;
    PrefixState(items, m, its, i);
    ApplyAllConcat(m, PopOps(its[..i]), [cur]);
    assert ApplyAll(b, [cur]) == ApplyAll(Apply(b, cur), []);
    SumSet(b, cur, SpotBag(items));
  }

  lemma FifoPrefix(m: Locs, a: seq<Location>, b: seq<Location>)
    requires Fifo(m, a + b)
    ensures Fifo(m, a)
  {
    forall k: Key
      ensures Under(a, k) <= Get(m, k)
    {
      UnderConcat(a, b, k);
      assert Under(a + b, k) <= Get(m, k);
    }
  }

  /** Consuming in FIFO order removes at each step the batch whose rest was just recorded. */
  lemma FifoBoundary(items: seq<Item>, m: Locs, its: seq<Iter>, i: nat)
    requires Consuming(items, m, its) && Fifo(m, Starts(its)) && i <= |its|
    ensures SpotsOf(items, Partway(m, its, |its|)) <= SpotsOf(items, Partway(m, its, i))
  {
    hide Opened, LocOk, Partway, SpotsOf, DeleteAll, Fifo;
    var a, b := its[..i], its[i..];
    StartsSplit(its, i);
    assert its[..|its|] == its;
    assert NoEmpty(m) && AllOpened(items, b) by {
      ConsumingCovered(items, m, its);
    }
    PrefixState(items, m, its, i);
    PrefixState(items, m, its, |its|);
    FifoPrefix(m, Starts(a), Starts(b));
    FifoRemoved(m, Starts(a), SpotBag(items));
    FifoRemoved(m, Starts(its), SpotBag(items));
    TotalConcat(Starts(a), Starts(b), SpotBag(items));
    TotalConcat(a, b, RestSpots(items));
    RestsWithin(items, b);
    FifoSums(Total(Starts(a), SpotBag(items)), Total(Starts(b), SpotBag(items)), Total(b, RestSpots(items)),
             Total(a, RestSpots(items)), Sum(DeleteAll(m, Keys(Starts(a))), SpotBag(items)),
             Sum(DeleteAll(m, Keys(Starts(its))), SpotBag(items)));
  }

  lemma FifoSums<T>(sa: multiset<T>, sb: multiset<T>, rb: multiset<T>, ra: multiset<T>,
                    da: multiset<T>, d: multiset<T>)
    requires sa + da == sa + sb + d && rb <= sb
    ensures d + (ra + rb) <= da + ra
  {
    forall x
      ensures (d + (ra + rb))[x] <= (da + ra)[x]
    {
      assert (sa + da)[x] == (sa + sb + d)[x];
    }
  }

  /** If the opened batches are consumed oldest first under each key, a crash at any record loses nothing. */
  lemma FifoSafe(items: seq<Item>, m: Locs, its: seq<Iter>)
    requires Consuming(items, m, its) && Fifo(m, Starts(its))
    ensures SpotsSafe(items, m, PopOps(its)) && PrefixSafe(items, m, PopOps(its))
  {
    forall i | 0 <= i <= |its|
      ensures SpotsOf(items, Partway(m, its, |its|)) <= SpotsOf(items, Partway(m, its, i))
    {
      FifoBoundary(items, m, its, i);
    }
    BoundariesSuffice(items, m, its);
    PopOpsForm(items, its);
    SpotsSuffice(items, m, PopOps(its));
  }

  lemma {:induction false} UnderBag(locs: seq<Location>, k: Key, l: Location)
    ensures multiset(Under(locs, k))[l] == if l.key == k then multiset(locs)[l] else 0
  {
    if locs != [] {
      HeadCount(locs);
      UnderBag(locs[1..], k, l);
      if locs[0].key == k {
        HeadCount(Under(locs, k));
        assert Under(locs, k)[1..] == Under(locs[1..], k);
      }
    }
  }

  lemma {:induction false} UnderDistinct(locs: seq<Location>, k: Key)
    requires forall i, j :: 0 <= i < j < |locs| ==> locs[i].key != locs[j].key
    ensures |Under(locs, k)| <= 1
  {
    if locs != [] {
      UnderDistinct(locs[1..], k);
      if locs[0].key == k {
        UnderAll(locs[1..], k);
      }
    }
  }

  lemma SmallSame<T>(a: seq<T>, b: seq<T>)
    requires multiset(a) == multiset(b) && |a| <= 1
    ensures a == b
  {
    assert |b| == |multiset(b)| == |multiset(a)| == |a|;
    if |a| == 1 {
      assert b[0] in multiset(b);
      assert b[0] in multiset(a);
    }
  }

  /** Batches with pairwise distinct first keys are always consumed in order. */
  lemma DistinctIsFifo(items: seq<Item>, m: Locs, its: seq<Iter>)
    requires Consuming(items, m, its)
    requires forall i, j :: 0 <= i < j < |its| ==> its[i].start.key != its[j].start.key
    ensures Fifo(m, Starts(its))
  {
    var front :| Oldest(m, its, front);
    forall k: Key
      ensures Under(Starts(its), k) <= Get(m, k)
    {
      forall l
        ensures multiset(Under(Starts(its), k))[l] == multiset(Under(front, k))[l]
      {
        UnderBag(Starts(its), k, l);
        UnderBag(front, k, l);
      }
      UnderDistinct(Starts(its), k);
      SmallSame(Under(Starts(its), k), Under(front, k));
      assert Under(front, k) <= Get(m, k);
    }
  }

  // ---------- The exact condition ----------

  /** A batch that was deleted takes its items out of what the remaining batches hold. */
  lemma {:induction false} DeletedTakesItems<T>(m: Locs, keys: seq<Key>, loc: Location, f: Location -> multiset<T>)
    requires NoEmpty(m) && loc in Get(m, loc.key) && loc !in Get(DeleteAll(m, keys), loc.key)
    ensures Sum(DeleteAll(m, keys), f) + f(loc) <= Sum(m, f)
    decreases keys
  {
    var k0, next := keys[0], DeleteKey(m, keys[0]);
    SumDeleteKey(m, k0, f);
    SumDeleteAll(next, keys[1..], f);
    if loc in Get(next, loc.key) {
      DeletedTakesItems(next, keys[1..], loc, f);
    } else {
      SumDelete(m, k0, f);
    }
  }

  /** A batch that is there contributes its items. */
  lemma PresentHolds<T>(m: Locs, loc: Location, f: Location -> multiset<T>)
    requires loc in Get(m, loc.key)
    ensures f(loc) <= Sum(m, f)
  {
    SumSplit(m, loc.key, f);
    var i :| 0 <= i < |m[loc.key]| && m[loc.key][i] == loc;
    TotalIncludes(m[loc.key], i, f);
  }

  lemma StillPresent(m: Locs, a: seq<Key>, b: seq<Key>, loc: Location)
    requires NoEmpty(m) && loc in Get(DeleteAll(m, a + b), loc.key)
    ensures loc in Get(DeleteAll(m, a), loc.key)
  {
    DeleteAllConcat(m, a, b);
    GetDeleteAll(m, a, loc.key);
    GetDeleteAll(DeleteAll(m, a), b, loc.key);
  }

  lemma OpenedPresent(items: seq<Item>, m: Locs, its: seq<Iter>, i: nat)
    requires Consuming(items, m, its) && i < |its|
    ensures its[i].start in Get(m, its[i].start.key)
  {
    var front :| Oldest(m, its, front);
    var l := its[i].start;
    assert Starts(its)[i] in multiset(Starts(its));
    UnderBag(front, l.key, l);
    assert l in multiset(Under(front, l.key));
    assert Under(front, l.key) <= Get(m, l.key);
  }

  lemma TwoTotals<T, U>(s: seq<T>, i: nat, j: nat, f: T -> multiset<U>)
    requires i < j < |s|
    ensures f(s[i]) + f(s[j]) <= Total(s, f)
  {
    var a, b := s[..j], s[j..];
    assert s == a + b;
    TotalConcat(a, b, f);
    TotalIncludes(a, i, f);
    TotalIncludes(b, 0, f);
  }

  lemma OpenedPair(items: seq<Item>, m: Locs, its: seq<Iter>, i: nat, j: nat)
    requires Consuming(items, m, its) && i < j < |its|
    ensures SpotBag(items)(its[i].start) + SpotBag(items)(its[j].start) <= SpotsOf(items, m)
  {
    hide Opened, LocOk;
    var front :| Oldest(m, its, front);
    FifoRemoved(m, front, SpotBag(items));
    TotalPermutation(Starts(its), front, SpotBag(items));
    TwoTotals(Starts(its), i, j, SpotBag(items));
  }

  /** With unique items, no two opened batches share an item. */
  lemma OpenedDisjoint(items: seq<Item>, m: Locs, its: seq<Iter>, i: nat, j: nat, x: nat)
    requires Consuming(items, m, its) && Once(items, m) && i < j < |its|
    ensures !(x in SpotBag(items)(its[i].start) && x in SpotBag(items)(its[j].start))
  {
    hide Consuming, SpotsOf;
    OpenedPair(items, m, its, i, j);
    var all := SpotBag(items)(its[i].start) + SpotBag(items)(its[j].start);
    assert all[x] <= SpotsOf(items, m)[x] <= 1;
  }

  lemma SpotOfRest(items: seq<Item>, it: Iter)
    requires Opened(items, it) && !it.exhausted
    ensures Place(items, it.prevOff) in RestSpots(items)(it) && Place(items, it.prevOff) in SpotBag(items)(it.start)
  {
    hide LocOk;
    RestInBatch(items, it);
  }

  lemma NotInBatches(items: seq<Item>, m: Locs, its: seq<Iter>, i: nat)
    requires Consuming(items, m, its) && Once(items, m)
    requires i < |its| && !its[i].exhausted && !Alive(m, its, i)
    ensures Place(items, its[i].prevOff) !in Sum(DeleteAll(m, Keys(Starts(its[..i]))), SpotBag(items))
  {
    hide LocOk, Opened;
    var x, keys := Place(items, its[i].prevOff), Keys(Starts(its[..i]));
    assert its[i] in its;
    SpotOfRest(items, its[i]);
    OpenedPresent(items, m, its, i);
    DeletedTakesItems(m, keys, its[i].start, SpotBag(items));
    assert (Sum(DeleteAll(m, keys), SpotBag(items)) + SpotBag(items)(its[i].start))[x] <= SpotsOf(items, m)[x] <= 1;
  }

  lemma NotInRests(items: seq<Item>, m: Locs, its: seq<Iter>, i: nat)
    requires Consuming(items, m, its) && Once(items, m) && i < |its| && !its[i].exhausted
    ensures Place(items, its[i].prevOff) !in Total(its[..i], RestSpots(items))
  {
    hide LocOk, Opened, Once;
    var x, done := Place(items, its[i].prevOff), its[..i];
    assert its[i] in its;
    SpotOfRest(items, its[i]);
    if x in Total(done, RestSpots(items)) {
      TotalMembers(done, RestSpots(items), x);
      var it :| it in done && x in RestSpots(items)(it);
      var j :| 0 <= j < i && its[j] == it;
      assert its[j] in its;
      RestInBatch(items, it);
      OpenedDisjoint(items, m, its, j, i, x);
      assert false;
    }
  }

  /** An iterator whose batch was deleted before its turn loses its current item if the crash comes then. */
  lemma LostItem(items: seq<Item>, m: Locs, its: seq<Iter>, i: nat)
    requires Consuming(items, m, its) && Once(items, m)
    requires i < |its| && !its[i].exhausted && !Alive(m, its, i)
    ensures Place(items, its[i].prevOff) in SpotsOf(items, Partway(m, its, |its|))
    ensures Place(items, its[i].prevOff) !in SpotsOf(items, Partway(m, its, i))
  {
    hide LocOk, SpotsOf, Opened, Once, Partway, Alive;
    assert its[i] in its;
    SpotOfRest(items, its[i]);
    PrefixState(items, m, its, |its|);
    assert its[..|its|] == its;
    TotalIncludes(its, i, RestSpots(items));
    PrefixState(items, m, its, i);
    NotInBatches(items, m, its, i);
    NotInRests(items, m, its, i);
  }

  /** The rest of an iterator is there at a boundary: recorded if its turn is over, else with its batch. */
  lemma KeptRest(items: seq<Item>, m: Locs, its: seq<Iter>, j: nat, i: nat, x: nat)
    requires Consuming(items, m, its) && InTurn(m, its) && j <= |its| && i < |its|
    requires x in RestSpots(items)(its[i])
    ensures x in Sum(DeleteAll(m, Keys(Starts(its[..j]))), SpotBag(items)) + Total(its[..j], RestSpots(items))
  {
    hide LocOk, Opened;
    var it := its[i];
    assert it in its;
    if i < j {
      assert its[..j][i] == it;
      TotalIncludes(its[..j], i, RestSpots(items));
    } else {
      StartsSplit(its[..i], j);
      assert its[..i][..j] == its[..j];
      assert Alive(m, its, i);
      StillPresent(m, Keys(Starts(its[..j])), Keys(Starts(its[..i][j..])), it.start);
      PresentHolds(DeleteAll(m, Keys(Starts(its[..j]))), it.start, SpotBag(items));
      RestInBatch(items, it);
    }
  }

  lemma FewerBatches(items: seq<Item>, m: Locs, its: seq<Iter>, j: nat)
    requires Consuming(items, m, its) && j <= |its|
    ensures Sum(DeleteAll(m, Keys(Starts(its))), SpotBag(items))
            <= Sum(DeleteAll(m, Keys(Starts(its[..j]))), SpotBag(items))
  {
    var a, b := Keys(Starts(its[..j])), Keys(Starts(its[j..]));
    StartsSplit(its, j);
    DeleteAllConcat(m, a, b);
    SumDeleteAll(m, a, SpotBag(items));
    SumDeleteAll(DeleteAll(m, a), b, SpotBag(items));
  }

  /** If every unfinished iterator finds its batch alive, whatever is kept is there at every boundary. */
  lemma KeptItem(items: seq<Item>, m: Locs, its: seq<Iter>, j: nat, x: nat)
    requires Consuming(items, m, its) && InTurn(m, its) && j <= |its|
    requires x in SpotsOf(items, Partway(m, its, |its|))
    ensures x in SpotsOf(items, Partway(m, its, j))
  {
    hide LocOk, SpotsOf, Opened, Partway, InTurn, Consuming;
    assert its[..|its|] == its;
    PrefixState(items, m, its, |its|);
    PrefixState(items, m, its, j);
    FewerBatches(items, m, its, j);
    if x in Total(its, RestSpots(items)) {
      TotalMembers(its, RestSpots(items), x);
      var it :| it in its && x in RestSpots(items)(it);
      var i :| 0 <= i < |its| && its[i] == it;
      KeptRest(items, m, its, j, i, x);
    }
  }

  lemma UniqueIncluded<T>(a: multiset<T>, b: multiset<T>)
    requires forall x :: a[x] <= 1
    requires forall x :: x in a ==> x in b
    ensures a <= b
  {
  }

  /** What a pop leaves is part of what was there. */
  lemma FinalWithin(items: seq<Item>, m: Locs, its: seq<Iter>)
    requires Consuming(items, m, its)
    ensures SpotsOf(items, Partway(m, its, |its|)) <= SpotsOf(items, m)
  {
    hide LocOk, Opened;
    assert its[..|its|] == its;
    PrefixState(items, m, its, |its|);
    var front :| Oldest(m, its, front);
    KeysPermutation(Starts(its), front);
    DeleteAllPermutation(m, Keys(Starts(its)), Keys(front));
    FifoRemoved(m, front, SpotBag(items));
    TotalPermutation(Starts(its), front, SpotBag(items));
    RestsWithin(items, its);
  }

  /** No stored item is lost if and only if every unfinished iterator finds its batch alive. */
  lemma SpotsCrashExact(items: seq<Item>, m: Locs, its: seq<Iter>)
    requires Consuming(items, m, its) && Once(items, m)
    ensures SpotsSafe(items, m, PopOps(its)) <==> InTurn(m, its)
  {
    hide Partway, Alive, Consuming, SpotsOf, PopOps, Once;
    assert its[..|its|] == its;
    PrefixState(items, m, its, |its|);
    if InTurn(m, its) {
      FinalWithin(items, m, its);
      forall j | 0 <= j <= |its|
        ensures SpotsOf(items, Partway(m, its, |its|)) <= SpotsOf(items, Partway(m, its, j))
      {
        forall x | x in SpotsOf(items, Partway(m, its, |its|))
          ensures x in SpotsOf(items, Partway(m, its, j))
        {
          KeptItem(items, m, its, j, x);
        }
        SmallFinal(items, m, its);
        UniqueIncluded(SpotsOf(items, Partway(m, its, |its|)), SpotsOf(items, Partway(m, its, j)));
      }
      BoundariesSuffice(items, m, its);
    } else {
      var i :| 0 <= i < |its| && !its[i].exhausted && !Alive(m, its, i);
      LostItem(items, m, its, i);
      BoundaryPrefix(items, m, its, i);
    }
  }

  lemma BoundaryPrefix(items: seq<Item>, m: Locs, its: seq<Iter>, i: nat)
    requires Consuming(items, m, its) && i <= |its|
    ensures |PopOps(its[..i])| <= |PopOps(its)|
    ensures ApplyAll(m, PopOps(its)[..|PopOps(its[..i])|]) == Partway(m, its, i)
  {
    hide Partway, Consuming;
    StartsSplit(its, i);
    PopOpsConcat(its[..i], its[i..]);
    assert PopOps(its)[..|PopOps(its[..i])|] == PopOps(its[..i]);
    PrefixState(items, m, its, i);
  }

  lemma SmallFinal(items: seq<Item>, m: Locs, its: seq<Iter>)
    requires Consuming(items, m, its) && Once(items, m)
    ensures forall x :: SpotsOf(items, Partway(m, its, |its|))[x] <= 1
  {
    FinalWithin(items, m, its);
    forall x
      ensures SpotsOf(items, Partway(m, its, |its|))[x] <= 1
    {
      assert SpotsOf(items, m)[x] <= 1;
    }
  }

  /** All items of the index differ. */
  ghost predicate Unique(items: seq<Item>, m: Locs) {
    forall x :: Content(items, m)[x] <= 1
  }

  /** At every boundary the index refers only to what it referred to before the pop. */
  lemma BoundaryWithin(items: seq<Item>, m: Locs, its: seq<Iter>, i: nat, x: nat)
    requires Consuming(items, m, its) && i <= |its| && x in SpotsOf(items, Partway(m, its, i))
    ensures x in SpotsOf(items, m)
  {
    hide LocOk, Opened, Partway;
    PrefixState(items, m, its, i);
    ConsumingCovered(items, m, its);
    SumDeleteAll(m, Keys(Starts(its[..i])), SpotBag(items));
    if x in Total(its[..i], RestSpots(items)) {
      TotalMembers(its[..i], RestSpots(items), x);
      var it :| it in its[..i] && x in RestSpots(items)(it);
      var j :| 0 <= j < i && its[j] == it;
      assert its[j] in its;
      RestInBatch(items, it);
      OpenedPresent(items, m, its, j);
      PresentHolds(m, it.start, SpotBag(items));
    }
  }

  /** If all items differ, a lost stored item is a lost item. */
  lemma LostForGood(items: seq<Item>, m: Locs, its: seq<Iter>, i: nat)
    requires Consuming(items, m, its) && Once(items, m) && Unique(items, m)
    requires i < |its| && !its[i].exhausted && !Alive(m, its, i)
    ensures !(Content(items, Partway(m, its, |its|)) <= Content(items, Partway(m, its, i)))
  {
    hide Consuming, Alive, SpotsOf, Content, Partway, Once, IndexOk;
    var p := Place(items, its[i].prevOff);
    LostItem(items, m, its, i);
    PartwayOk(items, m, its, i);
    PartwayOk(items, m, its, |its|);
    BoundaryWithin(items, m, its, |its|, p);
    ConsumingIndex(items, m, its);
    IndexSpotsInLog(items, m, p);
    ContentPicks(items, m);
    ContentPicks(items, Partway(m, its, i));
    ContentPicks(items, Partway(m, its, |its|));
    PickOne(items, p);
    PickMonotone(items, multiset{p}, SpotsOf(items, Partway(m, its, |its|)));
    assert items[p] in Content(items, Partway(m, its, |its|));
    if items[p] in Content(items, Partway(m, its, i)) {
      var q := PickHas(items, SpotsOf(items, Partway(m, its, i)), items[p]);
      BoundaryWithin(items, m, its, i, q);
      PickTwo(items, SpotsOf(items, m), p, q);
      assert false;
    }
  }

  lemma ConsumingIndex(items: seq<Item>, m: Locs, its: seq<Iter>)
    requires Consuming(items, m, its)
    ensures IndexOk(items, m) && AllOpened(items, its)
  {
  }

  lemma PartwayOk(items: seq<Item>, m: Locs, its: seq<Iter>, i: nat)
    requires Consuming(items, m, its) && i <= |its|
    ensures IndexOk(items, Partway(m, its, i))
  {
    hide Partway, IndexOk;
    ConsumingIndex(items, m, its);
    PopOpsForm(items, its);
    BoundaryPrefix(items, m, its, i);
    AppliedOk(items, m, PopOps(its), |PopOps(its[..i])|);
  }

  /**
   * A crash between the records of a pop loses no stored item if and only if every iterator with something
   * left finds its own batch still indexed when its turn comes. The iterators come in heap order, the
   * deletes hit the oldest batch of a key. So no item is missing then; and if all items differ, one is
   * missing otherwise.
   */
  lemma PopCrashExact(items: seq<Item>, m: Locs, its: seq<Iter>)
    requires Consuming(items, m, its) && Once(items, m)
    ensures SpotsSafe(items, m, PopOps(its)) <==> InTurn(m, its)
    ensures InTurn(m, its) ==> PrefixSafe(items, m, PopOps(its))
    ensures Unique(items, m) ==> (PrefixSafe(items, m, PopOps(its)) <==> InTurn(m, its))
  {
    hide Partway, Alive, Consuming, SpotsOf, PopOps, Once, Unique, Content, SpotsSafe, IndexOk;
    SpotsCrashExact(items, m, its);
    ConsumingIndex(items, m, its);
    if InTurn(m, its) {
      PopOpsForm(items, its);
      SpotsSuffice(items, m, PopOps(its));
    } else if Unique(items, m) {
      var i :| 0 <= i < |its| && !its[i].exhausted && !Alive(m, its, i);
      LostForGood(items, m, its, i);
      BoundaryPrefix(items, m, its, i);
      BoundaryPrefix(items, m, its, |its|);
      assert its[..|its|] == its && PopOps(its)[..|PopOps(its)|] == PopOps(its);
    }
  }

  /** An iterator whose batch is consumed as the oldest of its key finds it alive. */
  lemma OldestAlive(m: Locs, its: seq<Iter>, i: nat)
    requires NoEmpty(m) && i < |its| && Fifo(m, Starts(its))
    ensures Alive(m, its, i)
  {
    hide DeleteAll, Keyed;
    var k, a, b := its[i].start.key, its[..i], its[i..];
    StartsSplit(its, i);
    UnderConcat(Starts(a), Starts(b), k);
    assert Starts(b) == [its[i].start] + Starts(b[1..]);
    UnderCount(Starts(a), k);
    GetDeleteAll(m, Keys(Starts(a)), k);
    assert Under(Starts(its), k) <= Get(m, k);
    assert Get(m, k)[|Under(Starts(a), k)|] == its[i].start;
  }

  /** Consuming the oldest batch of a key first, each iterator finds its batch alive. */
  lemma FifoInTurn(items: seq<Item>, m: Locs, its: seq<Iter>)
    requires Consuming(items, m, its) && Fifo(m, Starts(its))
    ensures InTurn(m, its)
  {
    hide Alive, Fifo;
    forall i | 0 <= i < |its|
      ensures Alive(m, its, i)
    {
      OldestAlive(m, its, i);
    }
  }

  /** With one batch per first key, batches are consumed as the oldest of their keys, in any order. */
  lemma SingleFifo(items: seq<Item>, m: Locs, p: nat, its: seq<Iter>, out: seq<Item>, pushed: seq<Location>)
    requires IndexOk(items, m) && ReadState(items, m, p, its, out) && forall k :: k in m ==> |m[k]| == 1
    ensures Fifo(SetAll(m, pushed), Starts(its))
  {
    hide Flatten, SetAll, Content, AllOpened, Total;
    var front, starts := Flatten(m)[..p], Starts(its);
    IndexOkKeyedOnly(items, m);
    DropFront(m, p);
    forall k: Key
      ensures Under(starts, k) <= Get(SetAll(m, pushed), k)
    {
      forall l
        ensures multiset(Under(starts, k))[l] == multiset(Under(front, k))[l]
      {
        UnderBag(starts, k, l);
        UnderBag(front, k, l);
      }
      assert Under(front, k) <= Get(m, k);
      ShortSame(Under(starts, k), Under(front, k));
      GetSetAll(m, pushed, k);
    }
  }

  lemma ShortSame<T>(a: seq<T>, b: seq<T>)
    requires |b| <= 1 && forall x :: multiset(a)[x] == multiset(b)[x]
    ensures a == b
  {
    assert multiset(a) == multiset(b);
    assert |a| == |multiset(a)| == |multiset(b)| == |b|;
    if b != [] {
      assert b[0] in multiset(a);
    }
  }

  /**
   * What a caller can know: with one batch per first key when the items are read, every unfinished batch is
   * still in the index when its turn comes, also if the callback pushed.
   */
  lemma SingleInTurn(items: seq<Item>, m: Locs, p: nat, its: seq<Iter>, out: seq<Item>, pushed: seq<Location>)
    requires IndexOk(items, m) && ReadState(items, m, p, its, out) && forall k :: k in m ==> |m[k]| == 1
    requires forall i :: 0 <= i < |pushed| ==> LocOk(items, pushed[i])
    ensures Consuming(items, SetAll(m, pushed), its) && InTurn(SetAll(m, pushed), its)
  {
    hide IndexOk, ReadState, LocOk, Consuming, InTurn, Fifo, SetAll;
    ReadConsumes(items, m, p, its, out, pushed);
    SingleFifo(items, m, p, its, out, pushed);
    FifoInTurn(items, SetAll(m, pushed), its);
  }

  // ---------- Range deletion ----------

  /** While the pieces are recorded, the index only grows. */
  lemma GrowingPrefix(items: seq<Item>, m: Locs, from: Key, to: Key, pieces: seq<Location>, j: nat)
    requires IndexOk(items, m) && from <= to && HitsAreOldest(items, m, from, to)
    requires pieces == AllPieces(items, Hits(items, Flatten(m), from, to), from, to) && j <= |pieces|
    ensures Content(items, Deleted(items, m, from, to)) <= Content(items, ApplyAll(m, pieces[..j]))
  {
    hide LocOk, IndexOk, HitsAreOldest;
    var hits := Hits(items, Flatten(m), from, to);
    HitsOk(items, m, from, to, hits);
    AllPiecesExact(items, hits, from, to);
    LocsPositive(items, pieces);
    assert Keyed(m) by { IndexOkKeyedOnly(items, m); }
    PlainSets(m, pieces[..j]);
    SumSetAll(m, pieces[..j], Bag(items));
    DeletedSound(items, m, from, to);
    forall x
      ensures Content(items, Deleted(items, m, from, to))[x] <= Content(items, m)[x]
    {
    }
  }

  lemma ShrinkingState(items: seq<Item>, m: Locs, from: Key, to: Key, pieces: seq<Location>, keys: seq<Key>, i: nat)
    requires Keyed(m) && keys == Keys(Hits(items, Flatten(m), from, to)) && i <= |keys|
    requires forall j :: 0 <= j < |pieces| ==> pieces[j].len > 0
    ensures ApplyAll(m, pieces + Deads(keys[..i])) == SetAll(DeleteAll(m, keys[..i]), pieces)
  {
    hide Hits, Flatten;
    var ops := pieces + Deads(keys[..i]);
    PlainSets(m, pieces);
    DeadsParts(keys[..i]);
    SetsConcat(pieces, Deads(keys[..i]));
    assert Sets(ops) == pieces && Deletes(ops) == keys[..i];
    assert keys == keys[..i] + keys[i..];
    HitsCovered(items, m, from, to);
    CoveredPrefix(m, keys[..i], keys[i..]);
    NormalForm(m, ops);
  }

  /** While the deletes are recorded, the index only shrinks towards the result. */
  lemma ShrinkingPrefix(items: seq<Item>, m: Locs, from: Key, to: Key, pieces: seq<Location>, keys: seq<Key>, i: nat)
    requires IndexOk(items, m) && from <= to
    requires keys == Keys(Hits(items, Flatten(m), from, to)) && i <= |keys|
    requires pieces == AllPieces(items, Hits(items, Flatten(m), from, to), from, to)
    ensures Content(items, Deleted(items, m, from, to)) <= Content(items, ApplyAll(m, pieces + Deads(keys[..i])))
  {
    hide LocOk, IndexOk, Hits, AllPieces, Flatten, Keys, SetAll, DeleteAll, ApplyAll, Sum;
    var hits := Hits(items, Flatten(m), from, to);
    HitsOk(items, m, from, to, hits);
    AllPiecesExact(items, hits, from, to);
    LocsPositive(items, pieces);
    IndexOkKeyedOnly(items, m);
    ShrinkingState(items, m, from, to, pieces, keys, i);
    assert keys == keys[..i] + keys[i..];
    DeleteAllConcat(m, keys[..i], keys[i..]);
    SumDeleteAll(m, keys[..i], Bag(items));
    SumDeleteAll(DeleteAll(m, keys[..i]), keys[i..], Bag(items));
    SumSetAll(DeleteAll(m, keys[..i]), pieces, Bag(items));
    SumSetAll(DeleteAll(m, keys), pieces, Bag(items));
  }

  /** A crash between the records of an exact range deletion loses nothing that the deletion keeps. */
  lemma DeleteSafe(items: seq<Item>, m: Locs, from: Key, to: Key)
    requires IndexOk(items, m) && from <= to && HitsAreOldest(items, m, from, to)
    ensures PrefixSafe(items, m, DeleteOps(items, m, from, to))
    ensures ApplyAll(m, DeleteOps(items, m, from, to)) == Deleted(items, m, from, to)
  {
    hide Content, HitsAreOldest, Deleted, IndexOk, Hits, AllPieces, InCounts, Flatten, ApplyAll;
    var hits := Hits(items, Flatten(m), from, to);
    var pieces, keys := AllPieces(items, hits, from, to), Keys(hits);
    var ops := pieces + Deads(keys);
    DeleteOrders(items, m, from, to, keys, pieces, InCounts(items, hits, from, to));
    forall j | 0 <= j <= |ops|
      ensures Content(items, Deleted(items, m, from, to)) <= Content(items, ApplyAll(m, ops[..j]))
    {
      if j <= |pieces| {
        assert ops[..j] == pieces[..j];
        GrowingPrefix(items, m, from, to, pieces, j);
      } else {
        var i := j - |pieces|;
        assert ops[..j] == pieces + Deads(keys[..i]);
        ShrinkingPrefix(items, m, from, to, pieces, keys, i);
      }
    }
  }

  // ---------- Cutting the file at any byte ----------

  lemma RecordsCut(file: seq<Byte>, n: nat)
    requires n <= |file| && Whole(file[..n])
    ensures n / LOCATION_SIZE <= |Records(file)|
    ensures Records(file[..n]) == Records(file)[..n / LOCATION_SIZE]
  {
    assert file == file[..n] + file[n..];
    RecordsConcat(file[..n], file[n..]);
    RecordsLength(file[..n]);
  }

  lemma CutRecords(was: seq<Byte>, file: seq<Byte>, ops: seq<Location>, n: nat) returns (j: nat)
    requires Whole(was) && was <= file && Records(file) == Records(was) + ops
    requires |was| <= n <= |file| && Whole(file[..n])
    ensures j <= |ops| && Records(file[..n]) == Records(was) + ops[..j]
  {
    hide Records;
    j := n / LOCATION_SIZE - |was| / LOCATION_SIZE;
    RecordsCut(file, n);
    RecordsLength(was);
  }

  /** Every run of the log starts below zero. */
  ghost predicate RunsBelowZero(items: seq<Item>) {
    forall r :: 0 <= r < |LogRuns(items)| ==> LogRuns(items)[r].key < 0
  }

  /** Recovery does not happen, or gives an index without an empty location. */
  ghost predicate Sound(items: seq<Item>, file: seq<Byte>, logIsEmpty: bool) {
    Trusted(file, logIsEmpty) || items == [] || items[0].key >= 0
  }

  /** What a loaded index has of these items, and what of it reads reach. */
  ghost predicate LoadedWell(items: seq<Item>, kept: multiset<Item>, g: ForkValue, sound: bool) {
    && kept <= Content(items, g.state.m)
    && (IndexOk(items, g.state.m) <==> sound)
    && IndexOk(items, Reach(g.state.m))
    && (sound || RunsBelowZero(items) ==> kept <= Content(items, Reach(g.state.m)))
    && (!sound ==> Content(items, Reach(g.state.m)) == Total(BelowZero(LogRuns(items)), Bag(items)))
    && (!sound ==> (Content(items, Reach(g.state.m)) == multiset(items) <==> RunsBelowZero(items)))
  }

  /**
   * Whatever is loaded from the file misses none of these items; reads reach them all, unless recovery meets
   * a log that starts below zero and has a run that does not.
   */
  ghost predicate Loads(items: seq<Item>, kept: multiset<Item>, file: seq<Byte>) {
    forall g, logIsEmpty :: LoadedFrom(items, file, logIsEmpty, g) && (logIsEmpty ==> items == []) ==>
      LoadedWell(items, kept, g, Sound(items, file, logIsEmpty))
  }

  lemma LoadsTrusted(items: seq<Item>, kept: multiset<Item>, g: ForkValue, ops: seq<Location>)
    requires OpsOk(items, ops) && g.state == Replay(EMPTY, ops)
    requires kept <= Content(items, ApplyAll(map[], ops))
    ensures LoadedWell(items, kept, g, true)
  {
    hide LocOk, Content;
    EmptyCounted(items);
    ReplayMap(EMPTY, ops);
    IndexOkApplyAll(items, map[], ops);
    ReachAll(items, g.state.m);
  }

  lemma LoadsRecovered(items: seq<Item>, kept: multiset<Item>, g: ForkValue)
    requires g.state.m == Recovered(items) && Content(items, g.state.m) == multiset(items) && kept <= multiset(items)
    requires IndexOk(items, g.state.m) <==> items == [] || items[0].key >= 0
    ensures LoadedWell(items, kept, g, items == [] || items[0].key >= 0)
  {
    hide IndexOk, Content, Recovered, Reach, LogRuns;
    if IndexOk(items, g.state.m) {
      ReachAll(items, g.state.m);
    } else {
      RecoveredReach(items);
    }
  }

  /**
   * Whatever byte of the records of a prefix-safe operation a crash cuts off, loading the rest gives at
   * least what the finished operation keeps: a clean cut replays a prefix, a torn record falls back to
   * the value log.
   */
  lemma CutAnywhere(items: seq<Item>, m: Locs, was: seq<Byte>, file: seq<Byte>, ops: seq<Location>, n: nat)
    requires Mirrored(items, m, was) && was <= file && Records(file) == Records(was) + ops
    requires PrefixSafe(items, m, ops) && Content(items, ApplyAll(m, ops)) <= multiset(items) && OpsOk(items, ops)
    requires |was| <= n <= |file|
    ensures Content(items, ApplyAll(m, ops)) <= LoadedContent(items, file[..n])
    ensures Loads(items, Content(items, ApplyAll(m, ops)), file[..n])
  {
    hide Content, Records, OpsOk, Whole, ApplyAll, LoadedWell, Recovered, Compact, IndexOk, PrefixSafe;
    var kept, cut := Content(items, ApplyAll(m, ops)), file[..n];
    if Whole(cut) {
      CutWhole(items, m, was, file, ops, n);
    }
    forall g, logIsEmpty | LoadedFrom(items, cut, logIsEmpty, g) && (logIsEmpty ==> items == [])
      ensures LoadedWell(items, kept, g, Sound(items, cut, logIsEmpty))
    {
      if Trusted(cut, logIsEmpty) {
        LoadsTrusted(items, kept, g, Records(cut));
      } else {
        LoadsRecovered(items, kept, g);
      }
    }
  }

  lemma CutWhole(items: seq<Item>, m: Locs, was: seq<Byte>, file: seq<Byte>, ops: seq<Location>, n: nat)
    requires Mirrored(items, m, was) && was <= file && Records(file) == Records(was) + ops
    requires PrefixSafe(items, m, ops) && OpsOk(items, ops)
    requires |was| <= n <= |file| && Whole(file[..n])
    ensures OpsOk(items, Records(file[..n]))
    ensures Content(items, ApplyAll(m, ops)) <= Content(items, ApplyAll(map[], Records(file[..n])))
  {
    hide Content, Records, Whole, ApplyAll, LocOk;
    var j := CutRecords(was, file, ops, n);
    ApplyAllConcat(map[], Records(was), ops[..j]);
  }

  lemma {:induction false} LoggedAllExtends(f: ForkValue, ops: seq<Location>)
    ensures f.file <= LoggedAll(f, ops).file
    decreases ops
  {
    if ops != [] {
      LoggedAllExtends(Logged(f, ops[0]), ops[1..]);
    }
  }

  /**
   * A pop that crashes at any byte of its records loses nothing, if every unfinished batch is still indexed
   * when its turn comes and no stored item is indexed twice.
   */
  lemma PopCrashSafe(items: seq<Item>, f: ForkValue, its: seq<Iter>, n: nat)
    requires Representable(items) && ForkOk(items, f) && Consuming(items, f.state.m, its)
    requires InTurn(f.state.m, its) && Once(items, f.state.m)
    requires |f.file| <= n <= |LoggedAll(f, PopOps(its)).file|
    ensures Content(items, LoggedAll(f, PopOps(its)).state.m)
            <= LoadedContent(items, LoggedAll(f, PopOps(its)).file[..n])
    ensures Loads(items, Content(items, LoggedAll(f, PopOps(its)).state.m), LoggedAll(f, PopOps(its)).file[..n])
  {
    hide Loads, Content, Logged, LoadedContent, Opened, LocOk, Counted, PopOps, Partway, InTurn, Once, Consuming;
    hide SpotsSafe;
    hide IndexOk, PrefixSafe;
    var m := f.state.m;
    PopCrashExact(items, m, its);
    ConsumingIndex(items, m, its);
    PopOpsForm(items, its);
    LoggedAllOk(items, f, PopOps(its));
    ConsumingCovered(items, m, its);
    LoggedAllState(f, PopOps(its));
    LoggedAllExtends(f, PopOps(its));
    FinalBounded(items, m, its);
    PrefixState(items, m, its, |its|);
    assert its[..|its|] == its;
    CutAnywhere(items, m, f.file, LoggedAll(f, PopOps(its)).file, PopOps(its), n);
  }

  lemma FinalBounded(items: seq<Item>, m: Locs, its: seq<Iter>)
    requires Consuming(items, m, its) && Once(items, m)
    ensures Content(items, Partway(m, its, |its|)) <= multiset(items)
  {
    hide Partway, Once, Consuming, SpotsOf, Content;
    FinalWithin(items, m, its);
    OnceFewer(items, m, Partway(m, its, |its|));
    PartwayOk(items, m, its, |its|);
    OnceBounded(items, Partway(m, its, |its|));
  }

  /** The same for a range deletion that is exact. */
  lemma DeleteCrashSafe(items: seq<Item>, m: Locs, was: seq<Byte>, file: seq<Byte>, from: Key, to: Key, n: nat)
    requires IndexOk(items, m) && Mirrored(items, m, was) && Once(items, m)
    requires from <= to && HitsAreOldest(items, m, from, to)
    requires was <= file && Records(file) == Records(was) + DeleteOps(items, m, from, to)
    requires |was| <= n <= |file|
    ensures Content(items, Deleted(items, m, from, to)) <= LoadedContent(items, file[..n])
    ensures Loads(items, Content(items, Deleted(items, m, from, to)), file[..n])
  {
    hide Loads, Content, IndexOk, Mirrored, Records, Deleted, DeleteOps, HitsAreOldest, LoadedContent, Once;
    OnceBounded(items, m);
    DeleteSafe(items, m, from, to);
    DeletedSound(items, m, from, to);
    assert Content(items, Deleted(items, m, from, to)) <= Content(items, m);
    DeleteOpsOk(items, m, from, to);
    CutAnywhere(items, m, was, file, DeleteOps(items, m, from, to), n);
  }

  lemma DeleteOpsOk(items: seq<Item>, m: Locs, from: Key, to: Key)
    requires IndexOk(items, m) && from <= to
    ensures OpsOk(items, DeleteOps(items, m, from, to))
  {
    hide LocOk, RangeRemoved;
    var hits := Hits(items, Flatten(m), from, to);
    HitsOk(items, m, from, to, hits);
    AllPiecesExact(items, hits, from, to);
    DeadsEmpty(Keys(hits));
  }

  lemma {:induction false} DeadsEmpty(keys: seq<Key>)
    ensures forall i :: 0 <= i < |Deads(keys)| ==> Deads(keys)[i].len == 0
  {
    if keys != [] {
      DeadsEmpty(keys[1..]);
    }
  }
}
