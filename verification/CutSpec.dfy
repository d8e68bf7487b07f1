/** Deleting a key range across buckets: Delete in buckets.go. */
module CutSpec {
  import opened Items
  import opened IndexSpec
  import opened Contents
  import opened BatchIndex
  import opened ForkSpec
  import opened RangeSpec
  import opened Spots
  import opened BucketSpec
  import opened Reopen
  import opened Split
  import opened QueueSpec
  import opened TreeSpec
  import opened ReadSpec

  /** In this bucket a range deletion does what it should: under each key, it touches the oldest batches. */
  ghost predicate Exact(s: Store, k: Key, fork: ForkName, from: Key, to: Key)
    requires k in s && fork in s[k].forks
  {
    HitsAreOldest(s[k].items, s[k].forks[fork].state.m, from, to)
  }

  lemma NoHitsInEmpty(items: seq<Item>, m: Locs, from: Key, to: Key)
    requires m == map[]
    ensures HitsAreOldest(items, m, from, to)
  {
  }

  /** Reloading a bucket does not change whether a deletion is exact. */
  lemma ReloadedExact(s: Store, s1: Store, k: Key, forks: set<ForkName>, fork: ForkName, from: Key, to: Key)
    requires k in s && Reloaded(s, s1, k, forks) && fork in s[k].forks
    ensures fork in s1[k].forks && (Exact(s1, k, fork, from, to) <==> Exact(s, k, fork, from, to))
  {
    hide HitsAreOldest;
    assert s1[k].forks[fork].state.m == s[k].forks[fork].state.m;
    if s1[k].items != s[k].items {
      NoHitsInEmpty(s[k].items, s[k].forks[fork].state.m, from, to);
      NoHitsInEmpty(s1[k].items, s1[k].forks[fork].state.m, from, to);
    }
  }

  lemma DeleteGrown(a: Value, b: Value, fork: ForkName, from: Key, to: Key, n: int)
    requires DeleteEffect(a, b, fork, from, to, n)
    ensures Grown(a, b) && b.items == a.items && b.forks.Keys == a.forks.Keys
  {
    hide Records, Deleted, DeleteOps, Hits, InCounts;
  }

  lemma DeleteOk(a: Value, b: Value, fork: ForkName, from: Key, to: Key, n: int, key: Key, split: Key -> Key,
                 names: set<ForkName>)
    requires BucketOk(a, key, split, names) && ValueOk(b, key) && AllPersisted(a)
    requires b == a || DeleteEffect(a, b, fork, from, to, n)
    ensures BucketOk(b, key, split, names) && AllPersisted(b) && b.items == a.items
  {
    hide ValueOk, AllPersisted, Grown, DeleteEffect;
    if b != a {
      DeleteGrown(a, b, fork, from, to, n);
      GrownPersists(a, b);
    }
  }

  /** What deleting in one bucket, loaded first, does to the fork. */
  ghost predicate CutAt(s: Store, t: Store, key: Key, fork: ForkName, from: Key, to: Key, n: int) {
    && key in s && OnlyChanged(s, t, key) && fork in s[key].forks
    && (RangeRemoved(At(s, key, fork), At(t, key, fork), from, to) <==> Exact(s, key, fork, from, to))
    && (Exact(s, key, fork, from, to) ==> n == |At(s, key, fork)| - |At(t, key, fork)|)
    && forall f :: f != fork ==> At(t, key, f) == At(s, key, f)
  }

  lemma DeleteCuts(s: Store, s1: Store, t: Store, key: Key, fork: ForkName, from: Key, to: Key, n: int,
                   forks: set<ForkName>)
    requires key in s && fork in s[key].forks && from <= to && Reloaded(s, s1, key, forks) && OnlyChanged(s1, t, key)
    requires ValueOk(s1[key], key) && DeleteEffect(s1[key], t[key], fork, from, to, n)
    ensures CutAt(s, t, key, fork, from, to, n)
  {
    hide ForkContent, SameContents, EmptyValue, RangeRemoved, ValueOk, DeleteEffect, HitsAreOldest;
    forall f
      ensures ForkContent(s1[key], f) == ForkContent(s[key], f)
    {
      ReloadedBucket(s, s1, key, forks, f);
    }
    ReloadedExact(s, s1, key, forks, fork, from, to);
    DeleteExact(s1[key], t[key], key, fork, from, to, n);
    DeleteElsewhere(s1[key], t[key], fork, from, to, n);
  }

  lemma DeleteElsewhere(a: Value, b: Value, fork: ForkName, from: Key, to: Key, n: int)
    requires DeleteEffect(a, b, fork, from, to, n)
    ensures forall f :: f != fork ==> ForkContent(b, f) == ForkContent(a, f)
  {
    hide Records, Deleted, DeleteOps, Hits, InCounts, Content;
  }

  // ---------- The loop ----------

  ghost predicate CutDone(s0: Store, s: Store, k: Key, fork: ForkName, from: Key, to: Key)
    requires k in s0 && fork in s0[k].forks
  {
    RangeRemoved(At(s0, k, fork), At(s, k, fork), from, to) <==> Exact(s0, k, fork, from, to)
  }

  lemma CutDoneSame(s0: Store, s: Store, t: Store, k: Key, fork: ForkName, from: Key, to: Key)
    requires k in s0 && fork in s0[k].forks && k in s && k in t && s[k] == t[k]
    ensures CutDone(s0, s, k, fork, from, to) <==> CutDone(s0, t, k, fork, from, to)
  {
  }

  lemma CutDoneNow(s0: Store, s: Store, t: Store, k: Key, fork: ForkName, from: Key, to: Key, d: int)
    requires k in s0 && k in s && s[k] == s0[k] && CutAt(s, t, k, fork, from, to, d)
    ensures CutDone(s0, t, k, fork, from, to)
    ensures Exact(s0, k, fork, from, to) ==> d == |At(s, k, fork)| - |At(t, k, fork)|
  {
    hide HitsAreOldest, RangeRemoved, ForkContent;
  }

  /** Buckets first <= j < i were cut, all others are as they were. */
  ghost predicate CutState(s0: Store, s: Store, keys: seq<Key>, first: nat, i: nat, fork: ForkName,
                           from: Key, to: Key, n: int) {
    && first <= i <= |keys| && Ascending(keys) && s.Keys == s0.Keys && (forall k :: k in s0 <==> k in keys)
    && (forall k :: k in s0 ==> fork in s0[k].forks)
    && (forall j :: 0 <= j < |keys| && !(first <= j < i) ==> s[keys[j]] == s0[keys[j]])
    && (forall j :: first <= j < i ==> CutDone(s0, s, keys[j], fork, from, to))
    && (forall f :: f != fork ==> Held(s, f) == Held(s0, f))
    && ((forall j :: first <= j < i ==> Exact(s0, keys[j], fork, from, to)) ==>
          n == |Held(s0, fork)| - |Held(s, fork)|)
  }

  lemma CutStart(s: Store, keys: seq<Key>, first: nat, fork: ForkName, from: Key, to: Key)
    requires first <= |keys| && Ascending(keys) && (forall k :: k in s <==> k in keys)
    requires forall k :: k in s ==> fork in s[k].forks
    ensures CutState(s, s, keys, first, first, fork, from, to, 0)
  {
    hide ForkContent, Held, RangeRemoved;
  }

  lemma OnlyElsewhere(s: Store, t: Store, key: Key)
    requires OnlyChanged(s, t, key)
    ensures SameElsewhere(s, t, key)
  {
  }

  lemma CutHeld(s: Store, t: Store, key: Key, fork: ForkName, from: Key, to: Key, n: int)
    requires CutAt(s, t, key, fork, from, to, n)
    ensures forall f :: f != fork ==> Held(t, f) == Held(s, f)
    ensures |Held(s, fork)| - |Held(t, fork)| == |At(s, key, fork)| - |At(t, key, fork)|
  {
    hide ForkContent, Held, RangeRemoved, At, OnlyChanged, SameElsewhere;
    OnlyElsewhere(s, t, key);
    HeldElsewhere(s, t, key, fork);
    assert |Held(t, fork) + At(s, key, fork)| == |Held(t, fork)| + |At(s, key, fork)|;
    assert |Held(s, fork) + At(t, key, fork)| == |Held(s, fork)| + |At(t, key, fork)|;
    forall f | f != fork
      ensures Held(t, f) == Held(s, f)
    {
      HeldElsewhere(s, t, key, f);
      SameRest(Held(t, f), Held(s, f), At(s, key, f));
    }
  }

  lemma CutStep(s0: Store, s: Store, t: Store, keys: seq<Key>, first: nat, i: nat, fork: ForkName,
                from: Key, to: Key, n: int, d: int)
    requires i < |keys| && CutState(s0, s, keys, first, i, fork, from, to, n)
    requires CutAt(s, t, keys[i], fork, from, to, d)
    ensures CutState(s0, t, keys, first, i + 1, fork, from, to, n + d)
  {
    hide Held, At, CutDone, Exact;
    CutHeld(s, t, keys[i], fork, from, to, d);
    CutDoneNow(s0, s, t, keys[i], fork, from, to, d);
    CutKeys(s, t, keys[i], fork, from, to, d);
    hide CutAt;
    forall j | 0 <= j < |keys| && j != i
      ensures t[keys[j]] == s[keys[j]]
    {
      assert keys[j] != keys[i];
    }
    forall j | first <= j < i
      ensures CutDone(s0, t, keys[j], fork, from, to)
    {
      CutDoneSame(s0, s, t, keys[j], fork, from, to);
    }
  }

  lemma CutKeys(s: Store, t: Store, key: Key, fork: ForkName, from: Key, to: Key, d: int)
    requires CutAt(s, t, key, fork, from, to, d)
    ensures t.Keys == s.Keys && forall k :: k in s && k != key ==> t[k] == s[k]
  {
    hide At, RangeRemoved, HitsAreOldest;
  }

  /** The range was removed from the fork exactly if it was removed from every bucket. */
  lemma RemovedEverywhere(s: Store, t: Store, split: Key -> Key, names: set<ForkName>, fork: ForkName,
                          from: Key, to: Key)
    requires StoreOk(s, split, names) && StoreOk(t, split, names)
    ensures RangeRemoved(Held(s, fork), Held(t, fork), from, to)
            <==> forall k :: RangeRemoved(At(s, k, fork), At(t, k, fork), from, to)
  {
    hide ForkContent, BucketOk, StoreOk, Held, At;
    if RangeRemoved(Held(s, fork), Held(t, fork), from, to) {
      forall k, x
        ensures At(t, k, fork)[x] == if InRange(x, from, to) then 0 else At(s, k, fork)[x]
      {
        AtPlaced(s, split, names, fork, x, k);
        AtPlaced(t, split, names, fork, x, k);
      }
    } else {
      var x :| Held(t, fork)[x] != if InRange(x, from, to) then 0 else Held(s, fork)[x];
      AtPlaced(s, split, names, fork, x, split(x.key));
      AtPlaced(t, split, names, fork, x, split(x.key));
      assert !RangeRemoved(At(s, split(x.key), fork), At(t, split(x.key), fork), from, to);
    }
  }

  lemma AtPlaced(s: Store, split: Key -> Key, names: set<ForkName>, fork: ForkName, x: Item, k: Key)
    requires StoreOk(s, split, names)
    ensures Held(s, fork)[x] == At(s, split(x.key), fork)[x]
    ensures k != split(x.key) ==> At(s, k, fork)[x] == 0
  {
    hide ForkContent, BucketOk, Held;
    HeldAt(s, split, names, fork, x);
    if k in s && x in ForkContent(s[k], fork) {
      PlacedContent(s[k], k, split, names, fork, x);
    }
  }

  /** A bucket outside the range of bucket keys has no item in the range. */
  lemma OutOfReach(s: Store, split: Key -> Key, names: set<ForkName>, fork: ForkName, from: Key, to: Key, k: Key)
    requires StoreOk(s, split, names) && Monotone(split) && !(split(from) <= k <= split(to))
    ensures RangeRemoved(At(s, k, fork), At(s, k, fork), from, to)
  {
    hide ForkContent, BucketOk;
    forall x | x in At(s, k, fork)
      ensures !InRange(x, from, to)
    {
      PlacedContent(s[k], k, split, names, fork, x);
      assert InRange(x, from, to) ==> split(from) <= split(x.key) <= split(to);
    }
  }

  /** The buckets that a range deletion visits. */
  ghost predicate Reaches(keys: seq<Key>, first: nat, last: nat, split: Key -> Key, from: Key, to: Key) {
    && first <= last <= |keys|
    && (forall j :: 0 <= j < |keys| ==> (first <= j < last <==> split(from) <= keys[j] <= split(to)))
  }

  /** Every visited bucket is cut exactly. */
  ghost predicate AllExact(s: Store, split: Key -> Key, fork: ForkName, from: Key, to: Key) {
    forall k :: k in s && fork in s[k].forks && split(from) <= k <= split(to) ==> Exact(s, k, fork, from, to)
  }

  /**
   * A deletion over all buckets visits only those that can hold keys of the range; it removes exactly the
   * range from the fork if and only if in each visited bucket the touched batches are the oldest, and
   * then returns the number of items removed.
   */
  lemma CutEnd(s0: Store, s: Store, keys: seq<Key>, first: nat, last: nat, fork: ForkName, split: Key -> Key,
               names: set<ForkName>, from: Key, to: Key, n: int)
    requires StoreOk(s0, split, names) && StoreOk(s, split, names) && Monotone(split)
    requires CutState(s0, s, keys, first, last, fork, from, to, n) && Reaches(keys, first, last, split, from, to)
    ensures RangeRemoved(Held(s0, fork), Held(s, fork), from, to) <==> AllExact(s0, split, fork, from, to)
    ensures AllExact(s0, split, fork, from, to) ==> n == |Held(s0, fork)| - |Held(s, fork)|
  {
    hide ForkContent, BucketOk, StoreOk, Held, RangeRemoved, HitsAreOldest, Monotone;
    RemovedEverywhere(s0, s, split, names, fork, from, to);
    forall k | !(split(from) <= k <= split(to))
      ensures RangeRemoved(At(s0, k, fork), At(s, k, fork), from, to)
    {
      OutOfReach(s0, split, names, fork, from, to, k);
      OutsideSame(s0, s, keys, first, last, fork, split, from, to, n, k);
    }
    forall k | split(from) <= k <= split(to)
      ensures RangeRemoved(At(s0, k, fork), At(s, k, fork), from, to) <==> (k in s0 ==> Exact(s0, k, fork, from, to))
    {
      if k in s0 {
        var j :| 0 <= j < |keys| && keys[j] == k;
      } else {
        EmptyRemoved(from, to);
      }
    }
    assert AllExact(s0, split, fork, from, to) <==>
           forall k :: split(from) <= k <= split(to) ==> (k in s0 ==> Exact(s0, k, fork, from, to));
  }

  /**
   * What a caller can know: a deletion is exact in every bucket if below the range no two items of the fork
   * have the same key; so it is if the range starts at or below every key of the fork, or if keys are distinct.
   */
  lemma SeparableAllExact(s: Store, split: Key -> Key, names: set<ForkName>, fork: ForkName, from: Key, to: Key)
    requires StoreOk(s, split, names) && Separable(Held(s, fork), from)
    ensures AllExact(s, split, fork, from, to)
  {
    hide Separable, Held, HitsAreOldest, ValueOk, Content;
    forall k | k in s && fork in s[k].forks
      ensures Exact(s, k, fork, from, to)
    {
      assert BucketOk(s[k], k, split, names);
      HeldSplit(s, k, fork);
      SeparableFewer(ForkContent(s[k], fork), Held(s, fork), from);
      ContentOfFork(s[k], k, fork);
      SeparableExact(s[k].items, s[k].forks[fork].state.m, from, to);
    }
  }

  lemma EmptyRemoved(from: Key, to: Key)
    ensures RangeRemoved(multiset{}, multiset{}, from, to)
  {
  }

  lemma OutsideSame(s0: Store, s: Store, keys: seq<Key>, first: nat, last: nat, fork: ForkName, split: Key -> Key,
                    from: Key, to: Key, n: int, k: Key)
    requires CutState(s0, s, keys, first, last, fork, from, to, n) && Reaches(keys, first, last, split, from, to)
    requires !(split(from) <= k <= split(to))
    ensures (k in s <==> k in s0) && (k in s0 ==> s[k] == s0[k]) && At(s, k, fork) == At(s0, k, fork)
  {
    hide ForkContent, Held, RangeRemoved, HitsAreOldest;
    if k in s0 {
      var j :| 0 <= j < |keys| && keys[j] == k;
    }
  }

  /** No fork has items in this bucket. */
  ghost predicate Vacant(s: Store, key: Key) {
    key in s && forall f :: ForkContent(s[key], f) == multiset{}
  }

  lemma VacantHeld(s: Store, key: Key)
    requires Vacant(s, key)
    ensures forall f :: Held(s - {key}, f) == Held(s, f)
  {
    hide ForkContent, Held;
    forall f
      ensures Held(s - {key}, f) == Held(s, f)
    {
      DroppedHeld(s, key, f);
    }
  }

  lemma VacantIs(s: Store, key: Key)
    requires key in s
    ensures Vacant(s, key) <==> forall f :: f in s[key].forks ==> ForkContent(s[key], f) == multiset{}
  {
  }

  lemma VacantNow(s: Store, key: Key)
    requires key in s && forall f :: f in s[key].forks ==> ForkContent(s[key], f) == multiset{}
    ensures Vacant(s, key)
  {
  }

  /** Buckets that became empty stay so while later buckets are cut. */
  lemma VacantStay(s: Store, t: Store, keys: seq<Key>, i: nat, empties: seq<Key>)
    requires i < |keys| && Ascending(keys) && OnlyChanged(s, t, keys[i])
    requires Ascending(empties) && forall d :: d in empties ==> Vacant(s, d) && d < keys[i]
    ensures forall d :: d in empties ==> Vacant(t, d)
    ensures Ascending(empties + [keys[i]])
    ensures forall d, j :: d in empties + [keys[i]] && i < j < |keys| ==> d < keys[j]
  {
    hide ForkContent;
    assert forall j :: 0 <= j < |empties| ==> empties[j] in empties;
  }

  /** A fork that does not exist cannot lose items. */
  lemma UnknownCut(s: Store, s1: Store, key: Key, forks: set<ForkName>)
    requires key in s && Reloaded(s, s1, key, forks)
    ensures s1.Keys == s.Keys && forall f :: Held(s1, f) == Held(s, f)
  {
    hide Held, SameContents, EmptyValue;
    forall f
      ensures Held(s1, f) == Held(s, f)
    {
      ReloadedHeld(s, s1, key, forks, f);
    }
  }

  /** Where the loop over the buckets stands, for a fork that exists and for one that does not. */
  ghost predicate CutLoop(s0: Store, s: Store, keys: seq<Key>, first: nat, i: nat, fork: ForkName, known: bool,
                          from: Key, to: Key, n: int) {
    && first <= i <= |keys| && Ascending(keys) && s.Keys == s0.Keys && (forall k :: k in s0 <==> k in keys)
    && (known ==> CutState(s0, s, keys, first, i, fork, from, to, n))
    && (!known ==> n == 0 && forall f :: Held(s, f) == Held(s0, f))
  }

  /** What a deletion achieved. */
  ghost predicate CutResult(s0: Store, s: Store, fork: ForkName, known: bool, split: Key -> Key,
                            from: Key, to: Key, n: int) {
    && (forall f :: f != fork || !known ==> Held(s, f) == Held(s0, f))
    && (!known ==> n == 0)
    && (known ==> (RangeRemoved(Held(s0, fork), Held(s, fork), from, to) <==> AllExact(s0, split, fork, from, to)))
    && (known && AllExact(s0, split, fork, from, to) ==> n == |Held(s0, fork)| - |Held(s, fork)|)
  }

  lemma LoopResult(s0: Store, s: Store, keys: seq<Key>, first: nat, last: nat, fork: ForkName, known: bool,
                   split: Key -> Key, names: set<ForkName>, from: Key, to: Key, n: int)
    requires StoreOk(s0, split, names) && StoreOk(s, split, names) && Monotone(split)
    requires CutLoop(s0, s, keys, first, last, fork, known, from, to, n)
    requires known ==> Reaches(keys, first, last, split, from, to)
    ensures CutResult(s0, s, fork, known, split, from, to, n)
  {
    hide StoreOk, Monotone, Held, RangeRemoved, Reaches, AllExact;
    if known {
      CutEnd(s0, s, keys, first, last, fork, split, names, from, to, n);
      CutOthers(s0, s, keys, first, last, fork, from, to, n);
    }
  }

  lemma CutOthers(s0: Store, s: Store, keys: seq<Key>, first: nat, last: nat, fork: ForkName,
                  from: Key, to: Key, n: int)
    requires CutState(s0, s, keys, first, last, fork, from, to, n)
    ensures forall f :: f != fork ==> Held(s, f) == Held(s0, f)
  {
    hide Held, CutDone, Exact;
  }

  lemma ResultAfterDrops(s0: Store, s: Store, t: Store, fork: ForkName, known: bool, split: Key -> Key,
                         from: Key, to: Key, n: int)
    requires CutResult(s0, s, fork, known, split, from, to, n) && forall f :: Held(t, f) == Held(s, f)
    ensures CutResult(s0, t, fork, known, split, from, to, n)
  {
    hide Held, RangeRemoved, AllExact;
  }

  lemma LoopStep(s0: Store, s: Store, t: Store, keys: seq<Key>, first: nat, i: nat, fork: ForkName, known: bool,
                 from: Key, to: Key, n: int, d: int)
    requires i < |keys| && CutLoop(s0, s, keys, first, i, fork, known, from, to, n)
    requires known ==> CutAt(s, t, keys[i], fork, from, to, d)
    requires !known ==> d == 0 && t.Keys == s.Keys && forall f :: Held(t, f) == Held(s, f)
    ensures CutLoop(s0, t, keys, first, i + 1, fork, known, from, to, n + d)
  {
    hide Held, CutDone, Exact;
    if known {
      CutStep(s0, s, t, keys, first, i, fork, from, to, n, d);
    }
  }

  lemma LoopBegin(s: Store, keys: seq<Key>, first: nat, fork: ForkName, known: bool, from: Key, to: Key)
    requires first <= |keys| && Ascending(keys) && (forall k :: k in s <==> k in keys)
    requires known ==> forall k :: k in s ==> fork in s[k].forks
    ensures CutLoop(s, s, keys, first, first, fork, known, from, to, 0)
  {
    hide Held, CutDone, Exact;
    if known {
      CutStart(s, keys, first, fork, from, to);
    }
  }

  lemma ReachesNow(keys: seq<Key>, first: nat, last: nat, split: Key -> Key, from: Key, to: Key)
    requires first <= last <= |keys| && Ascending(keys)
    requires forall j :: 0 <= j < |keys| ==> (first <= j <==> split(from) <= keys[j])
    requires forall j :: first <= j < last ==> keys[j] <= split(to)
    requires last < |keys| ==> keys[last] > split(to)
    ensures Reaches(keys, first, last, split, from, to)
  {
  }

  /** A deletion in one bucket succeeds if the fork exists, or if the bucket's key lies above the range. */
  ghost predicate Cuttable(k: Key, known: bool, to: Key) {
    known || k > to
  }

  /** Of the buckets cut without error, those that no fork has items in are on the list. */
  ghost predicate Collected(s: Store, keys: seq<Key>, first: nat, i: nat, known: bool, to: Key, empties: seq<Key>) {
    forall j :: first <= j < i && j < |keys| && Cuttable(keys[j], known, to) && Vacant(s, keys[j]) ==>
      keys[j] in empties
  }

  lemma CollectedStart(s: Store, keys: seq<Key>, first: nat, known: bool, to: Key)
    ensures Collected(s, keys, first, first, known, to, [])
  {
  }

  lemma CollectedStep(s: Store, t: Store, keys: seq<Key>, first: nat, i: nat, known: bool, to: Key,
                      empties: seq<Key>, now: seq<Key>)
    requires i < |keys| && Ascending(keys) && OnlyChanged(s, t, keys[i])
    requires forall j :: 0 <= j < |keys| ==> keys[j] in s
    requires Collected(s, keys, first, i, known, to, empties)
    requires now == if Cuttable(keys[i], known, to) && Vacant(t, keys[i]) then empties + [keys[i]] else empties
    ensures Collected(t, keys, first, i + 1, known, to, now)
  {
    hide ForkContent;
    forall j | first <= j < i && Vacant(t, keys[j])
      ensures Vacant(s, keys[j])
    {
      assert keys[j] != keys[i] && t[keys[j]] == s[keys[j]];
    }
  }

  /** No bucket that the deletion cut without error stays unless some fork has items left in it. */
  ghost predicate CutTidy(s: Store, split: Key -> Key, known: bool, from: Key, to: Key) {
    forall k :: k in s && split(from) <= k <= split(to) && Cuttable(k, known, to) ==> HasItems(s[k])
  }

  lemma CutTidyNow(s: Store, t: Store, keys: seq<Key>, first: nat, last: nat, split: Key -> Key, known: bool,
                   from: Key, to: Key, empties: seq<Key>)
    requires Reaches(keys, first, last, split, from, to) && (forall k :: k in s ==> k in keys)
    requires Collected(s, keys, first, last, known, to, empties)
    requires forall k :: k in t ==> k in s && k !in empties && t[k] == s[k]
    ensures CutTidy(t, split, known, from, to)
  {
    hide ForkContent;
    forall k | k in t && split(from) <= k <= split(to) && Cuttable(k, known, to)
      ensures HasItems(t[k])
    {
      var j :| 0 <= j < |keys| && keys[j] == k;
      assert first <= j < last;
      assert !Vacant(s, k);
    }
  }

  /** A deletion reports an error if errors are not tolerated and some bucket in reach does not know the fork. */
  ghost predicate CutFails(s: Store, split: Key -> Key, known: bool, from: Key, to: Key, continueOnErr: bool) {
    !continueOnErr && !known && exists k :: k in s && split(from) <= k <= split(to) && k <= to
  }

  lemma CutFailsIs(s: Store, keys: seq<Key>, first: nat, last: nat, split: Key -> Key, known: bool, from: Key, to: Key,
                   continueOnErr: bool)
    requires forall k :: k in s <==> k in keys
    requires first <= last <= |keys| && forall j :: 0 <= j < |keys| ==> (first <= j <==> split(from) <= keys[j])
    ensures (Reaches(keys, first, last, split, from, to)
             && (continueOnErr || forall j :: first <= j < last ==> Cuttable(keys[j], known, to))) ==>
              !CutFails(s, split, known, from, to, continueOnErr)
    ensures (!continueOnErr && last > first && keys[last - 1] <= split(to) && !Cuttable(keys[last - 1], known, to)) ==>
              CutFails(s, split, known, from, to, continueOnErr)
  {
    if CutFails(s, split, known, from, to, continueOnErr) && Reaches(keys, first, last, split, from, to) {
      var k :| k in s && split(from) <= k <= split(to) && k <= to;
      var j :| 0 <= j < |keys| && keys[j] == k;
    }
    if last > first {
      assert keys[last - 1] in s;
    }
  }

  /** Buckets found empty so far, all before position i. */
  ghost predicate Empties(s: Store, keys: seq<Key>, i: nat, empties: seq<Key>) {
    && Ascending(empties)
    && (forall d :: d in empties ==> Vacant(s, d))
    && (forall d, j :: d in empties && i <= j < |keys| ==> d < keys[j])
  }

  lemma EmptiesStart(s: Store, keys: seq<Key>, i: nat)
    ensures Empties(s, keys, i, [])
  {
  }

  lemma EmptiesVacant(s: Store, keys: seq<Key>, i: nat, empties: seq<Key>)
    requires Empties(s, keys, i, empties)
    ensures Ascending(empties) && forall d :: d in empties ==> Vacant(s, d)
  {
  }

  lemma EmptiesStep(s: Store, t: Store, keys: seq<Key>, i: nat, empties: seq<Key>)
    requires i < |keys| && Ascending(keys) && OnlyChanged(s, t, keys[i]) && Empties(s, keys, i, empties)
    ensures Empties(t, keys, i + 1, empties)
    ensures Vacant(t, keys[i]) ==> Empties(t, keys, i + 1, empties + [keys[i]])
  {
    hide Vacant, OnlyChanged;
    VacantStay(s, t, keys, i, empties);
  }

  // ---------- Lengths in the index files ----------

  /** The fork whose last record may tell a wrong length after a deletion in one bucket. */
  ghost function SpoiltAt(s: Store, key: Key, fork: ForkName, from: Key, to: Key): set<ForkName> {
    if key in s && fork in s[key].forks && !Exact(s, key, fork, from, to) then {fork} else {}
  }

  ghost function Spoilt(s: Store, split: Key -> Key, fork: ForkName, from: Key, to: Key): set<ForkName> {
    if AllExact(s, split, fork, from, to) then {} else {fork}
  }

  lemma SpoiltReloaded(s: Store, s1: Store, key: Key, forks: set<ForkName>, fork: ForkName, from: Key, to: Key)
    requires key in s && Reloaded(s, s1, key, forks)
    ensures SpoiltAt(s1, key, fork, from, to) == SpoiltAt(s, key, fork, from, to)
  {
    hide Exact;
    if fork in s[key].forks {
      ReloadedExact(s, s1, key, forks, fork, from, to);
    }
  }

  lemma SpoiltStep(s0: Store, s: Store, keys: seq<Key>, first: nat, i: nat, fork: ForkName, known: bool,
                   split: Key -> Key, from: Key, to: Key, n: int)
    requires i < |keys| && CutLoop(s0, s, keys, first, i, fork, known, from, to, n) && keys[i] in s
    requires split(from) <= keys[i] <= split(to) && (!known ==> fork !in s[keys[i]].forks)
    ensures SpoiltAt(s, keys[i], fork, from, to) <= Spoilt(s0, split, fork, from, to)
  {
    hide CutDone, Held, HitsAreOldest;
    if known {
      assert s[keys[i]] == s0[keys[i]];
    }
  }

  lemma DeletedUpkeep(s: Store, t: Store, key: Key, fork: ForkName, from: Key, to: Key, n: int,
                      split: Key -> Key, names: set<ForkName>)
    requires key in s && key in t
    requires BucketOk(s[key], key, split, names) && BucketOk(t[key], key, split, names)
    requires fork in s[key].forks && Exact(s, key, fork, from, to) ==> Upkeep(s[key], t[key])
    requires t[key] == s[key] || DeleteEffect(s[key], t[key], fork, from, to, n)
    ensures UpkeepHolds(s[key], t[key], SpoiltAt(s, key, fork, from, to))
  {
    hide Stamped, Once, ValueOk, HitsAreOldest, Records, Deleted, DeleteOps, Hits, InCounts;
  }
}
