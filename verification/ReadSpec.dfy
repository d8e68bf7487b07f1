/** Reading across buckets: Read in buckets.go. */
module ReadSpec {
  import opened Items
  import opened IndexSpec
  import opened Contents
  import opened MergeSpec
  import opened BucketSpec
  import opened Reopen
  import opened Split
  import opened QueueSpec
  import opened TreeSpec

  /** What a bucket holds for a fork; a missing bucket holds nothing. */
  ghost function At(s: Store, k: Key, f: ForkName): multiset<Item> {
    if k in s then ForkContent(s[k], f) else multiset{}
  }

  /** Whether the callback takes what it saw. */
  predicate Takes(fn: seq<Item> -> Decision, out: seq<Item>) {
    fn(out).op.ReadOpPop? && !fn(out).failed
  }

  function Popped(fn: seq<Item> -> Decision, out: seq<Item>): seq<Item> {
    if Takes(fn, out) then out else []
  }

  /** All other buckets are as before. */
  ghost predicate SameElsewhere(s: Store, t: Store, key: Key) {
    forall j :: j != key ==> (j in t <==> j in s) && (j in s ==> t[j] == s[j])
  }

  /** One bucket lost some items of one fork; it may be gone if no fork has items left in it. */
  ghost predicate TakenFrom(s: Store, t: Store, key: Key, fork: ForkName, popped: seq<Item>) {
    && key in s
    && SameElsewhere(s, t, key)
    && At(t, key, fork) + multiset(popped) == At(s, key, fork)
    && forall f :: f != fork ==> At(t, key, f) == At(s, key, f)
  }

  lemma HeldApart(s: Store, k: Key, f: ForkName)
    ensures Held(s, f) == At(s, k, f) + Held(s - {k}, f)
  {
    hide ForkContent;
    if k in s {
      HeldSplit(s, k, f);
    } else {
      assert s - {k} == s;
    }
  }

  lemma HeldElsewhere(s: Store, t: Store, key: Key, f: ForkName)
    requires SameElsewhere(s, t, key)
    ensures Held(t, f) + At(s, key, f) == Held(s, f) + At(t, key, f)
  {
    hide ForkContent, Held;
    assert s - {key} == t - {key};
    HeldApart(s, key, f);
    HeldApart(t, key, f);
  }

  lemma TakenHeld(s: Store, t: Store, key: Key, fork: ForkName, popped: seq<Item>)
    requires TakenFrom(s, t, key, fork, popped)
    ensures Held(t, fork) + multiset(popped) == Held(s, fork)
    ensures forall f :: f != fork ==> Held(t, f) == Held(s, f)
  {
    hide ForkContent, Held, At, SameElsewhere;
    HeldElsewhere(s, t, key, fork);
    SameRest(Held(t, fork) + multiset(popped), Held(s, fork), At(t, key, fork));
    forall f | f != fork
      ensures Held(t, f) == Held(s, f)
    {
      HeldElsewhere(s, t, key, f);
      SameRest(Held(t, f), Held(s, f), At(s, key, f));
    }
  }

  /** Loading a bucket, reading from it, and dropping it if it is empty. */
  lemma VisitTakes(s: Store, s1: Store, s2: Store, key: Key, fork: ForkName, n: nat, out: seq<Item>,
                   fn: seq<Item> -> Decision, forks: set<ForkName>)
    requires key in s && Reloaded(s, s1, key, forks) && OnlyChanged(s1, s2, key)
    requires fork in s1[key].forks && fn(out).push == []
    requires ReadEffect(s1[key], s2[key], fork, n, out, fn(out))
    ensures TakenFrom(s, s2, key, fork, Popped(fn, out))
    ensures Smallest(At(s, key, fork), n, out)
    ensures |ForkContent(s1[key], fork)| - |ForkContent(s2[key], fork)| == |Popped(fn, out)|
  {
    hide ForkContent, SameContents, EmptyValue, Smallest;
    forall f
      ensures ForkContent(s1[key], f) == ForkContent(s[key], f)
    {
      ReloadedBucket(s, s1, key, forks, f);
    }
    ReadQuiet(s1[key], s2[key], fork, n, out, fn(out));
    assert |ForkContent(s2[key], fork) + multiset(Popped(fn, out))| == |ForkContent(s2[key], fork)| + |Popped(fn, out)|;
  }

  lemma ReadQuiet(a: Value, b: Value, fork: ForkName, n: nat, out: seq<Item>, d: Decision)
    requires ReadEffect(a, b, fork, n, out, d) && d.push == [] && fork in a.forks
    ensures b.items == a.items && b.forks.Keys == a.forks.Keys && Smallest(ForkContent(a, fork), n, out)
    ensures forall f :: f != fork ==> ForkContent(b, f) == ForkContent(a, f)
    ensures ForkContent(b, fork) + (if d.op.ReadOpPop? && !d.failed then multiset(out) else multiset{})
            == ForkContent(a, fork)
  {
    hide Smallest, Content;
    assert a.items + [] == a.items && multiset(d.push) == multiset{};
  }

  lemma ReadOk(a: Value, b: Value, fork: ForkName, n: int, out: seq<Item>, fn: seq<Item> -> Decision,
               key: Key, split: Key -> Key, names: set<ForkName>)
    requires BucketOk(a, key, split, names) && ValueOk(b, key) && Grown(a, b) && AllPersisted(a) && Quiet(fn)
    requires b == a || (fork in a.forks && n > 0 && ReadEffect(a, b, fork, n, out, fn(out)))
    ensures BucketOk(b, key, split, names) && AllPersisted(b) && b.items == a.items
  {
    hide ValueOk, AllPersisted, Grown, ReadEffect;
    if b != a {
      ReadQuiet(a, b, fork, n, out, fn(out));
      GrownPersists(a, b);
    }
  }

  lemma NotVisited(s: Store, s1: Store, key: Key, fork: ForkName, forks: set<ForkName>)
    requires key in s && Reloaded(s, s1, key, forks)
    ensures TakenFrom(s, s1, key, fork, [])
  {
    hide ForkContent, SameContents, EmptyValue;
    forall f
      ensures ForkContent(s1[key], f) == ForkContent(s[key], f)
    {
      ReloadedBucket(s, s1, key, forks, f);
    }
  }

  lemma DroppedTakes(s: Store, s1: Store, key: Key, fork: ForkName, popped: seq<Item>)
    requires TakenFrom(s, s1, key, fork, popped)
    requires key in s1 && forall f :: f in s1[key].forks ==> ForkContent(s1[key], f) == multiset{}
    ensures TakenFrom(s, s1 - {key}, key, fork, popped)
  {
    assert forall f :: ForkContent(s1[key], f) == multiset{};
    hide ForkContent;
  }

  /** All calls of the callback, joined. */
  function Flat<T>(calls: seq<seq<T>>): seq<T> {
    if calls == [] then [] else Flat(calls[..|calls| - 1]) + calls[|calls| - 1]
  }

  lemma FlatSnoc<T>(calls: seq<seq<T>>, out: seq<T>)
    ensures Flat(calls + [out]) == Flat(calls) + out
  {
    assert (calls + [out])[..|calls|] == calls;
  }

  // ---------- Order across buckets ----------

  /** The items of a read belong to the bucket that was read. */
  lemma OutPlaced(s: Store, key: Key, fork: ForkName, split: Key -> Key, names: set<ForkName>, n: nat, out: seq<Item>)
    requires StoreOk(s, split, names) && Smallest(At(s, key, fork), n, out)
    ensures forall a :: 0 <= a < |out| ==> split(out[a].key) == key
  {
    hide ForkContent, BucketOk;
    forall a | 0 <= a < |out|
      ensures split(out[a].key) == key
    {
      assert out[a] in multiset(out);
      PlacedContent(s[key], key, split, names, fork, out[a]);
    }
  }

  /** Items of an earlier bucket come before items of a later one. */
  lemma EarlierBucket(split: Key -> Key, a: Key, b: Key)
    requires Monotone(split) && split(a) < split(b)
    ensures a < b
  {
    assert b <= a ==> split(b) <= split(a);
  }

  lemma JoinSorted(a: seq<Item>, b: seq<Item>)
    requires Sorted(a) && Sorted(b)
    requires forall i, j :: 0 <= i < |a| && 0 <= j < |b| ==> a[i].key <= b[j].key
    ensures Sorted(a + b)
  {
  }

  /** Nothing is left in the first i buckets. */
  ghost predicate Drained(s: Store, keys: seq<Key>, i: nat, fork: ForkName)
    requires i <= |keys|
  {
    forall j :: 0 <= j < i ==> At(s, keys[j], fork) == multiset{}
  }

  /** All of these items belong to buckets before position i. */
  ghost predicate Before(out: seq<Item>, keys: seq<Key>, i: nat, split: Key -> Key) {
    forall a, j :: 0 <= a < |out| && i <= j < |keys| ==> split(out[a].key) < keys[j]
  }

  /** Halfway through a read that pops everything it sees. */
  ghost predicate PopState(h0: multiset<Item>, s: Store, keys: seq<Key>, i: nat, fork: ForkName, split: Key -> Key,
                           n: nat, count: int, out: seq<Item>) {
    && i <= |keys| && Ascending(keys) && (forall k :: k in s ==> k in keys)
    && Held(s, fork) + multiset(out) == h0
    && Sorted(out) && |out| + count == n
    && Drained(s, keys, i, fork) && Before(out, keys, i, split)
  }

  lemma PopStart(s: Store, keys: seq<Key>, fork: ForkName, split: Key -> Key, n: nat)
    requires Ascending(keys) && forall k :: k in s ==> k in keys
    ensures PopState(Held(s, fork), s, keys, 0, fork, split, n, n, [])
  {
  }

  /** What is left of a fork lies in buckets that were not drained. */
  lemma LeftIn(s: Store, keys: seq<Key>, i: nat, fork: ForkName, split: Key -> Key, names: set<ForkName>, y: Item)
    requires StoreOk(s, split, names) && i <= |keys| && Drained(s, keys, i, fork)
    requires (forall k :: k in s ==> k in keys) && y in Held(s, fork)
    ensures y in At(s, split(y.key), fork)
    ensures exists j :: i <= j < |keys| && keys[j] == split(y.key)
  {
    hide ForkContent, BucketOk;
    HeldAt(s, split, names, fork, y);
    var j :| 0 <= j < |keys| && keys[j] == split(y.key);
    assert j >= i;
  }

  /** What a read of one bucket returned, and all before it, comes before all that is left. */
  lemma LeftAfter(s: Store, t: Store, keys: seq<Key>, i: nat, fork: ForkName, split: Key -> Key, names: set<ForkName>,
                  n: nat, out: seq<Item>, o: seq<Item>)
    requires StoreOk(s, split, names) && StoreOk(t, split, names) && Monotone(split)
    requires i < |keys| && Ascending(keys) && (forall k :: k in t ==> k in keys)
    requires Drained(t, keys, i, fork) && Before(out, keys, i, split)
    requires At(t, keys[i], fork) + multiset(o) == At(s, keys[i], fork) && Smallest(At(s, keys[i], fork), n, o)
    ensures Precedes(out + o, Held(t, fork))
    ensures Before(out + o, keys, i + 1, split)
  {
    hide ForkContent, Held, BucketOk, StoreOk, At;
    OutPlaced(s, keys[i], fork, split, names, n, o);
    assert At(s, keys[i], fork) - multiset(o) == At(t, keys[i], fork);
    forall a, y | 0 <= a < |out + o| && y in Held(t, fork)
      ensures (out + o)[a].key <= y.key
    {
      LeftIn(t, keys, i, fork, split, names, y);
      var j :| i <= j < |keys| && keys[j] == split(y.key);
      if a < |out| {
        EarlierBucket(split, out[a].key, y.key);
      } else if j > i {
        EarlierBucket(split, o[a - |out|].key, y.key);
      }
    }
  }

  lemma JoinedSorted(keys: seq<Key>, i: nat, split: Key -> Key, out: seq<Item>, o: seq<Item>)
    requires Monotone(split) && i < |keys| && Before(out, keys, i, split) && Sorted(out) && Sorted(o)
    requires forall a :: 0 <= a < |o| ==> split(o[a].key) == keys[i]
    ensures Sorted(out + o)
  {
    forall a, b | 0 <= a < |out| && 0 <= b < |o|
      ensures out[a].key <= o[b].key
    {
      EarlierBucket(split, out[a].key, o[b].key);
    }
    JoinSorted(out, o);
  }

  lemma DrainedStep(s: Store, t: Store, keys: seq<Key>, i: nat, fork: ForkName, o: seq<Item>)
    requires i < |keys| && Ascending(keys) && Drained(s, keys, i, fork) && TakenFrom(s, t, keys[i], fork, o)
    ensures Drained(t, keys, i, fork)
    ensures At(t, keys[i], fork) == multiset{} ==> Drained(t, keys, i + 1, fork)
  {
    hide ForkContent;
  }

  /** One bucket further: either the read goes on, or it is complete. */
  lemma PopStep(h0: multiset<Item>, s: Store, t: Store, keys: seq<Key>, i: nat, fork: ForkName, split: Key -> Key,
                names: set<ForkName>, n: nat, count: nat, out: seq<Item>, o: seq<Item>)
    requires StoreOk(s, split, names) && StoreOk(t, split, names) && Monotone(split)
    requires i < |keys| && PopState(h0, s, keys, i, fork, split, n, count, out)
    requires TakenFrom(s, t, keys[i], fork, o) && Smallest(At(s, keys[i], fork), count, o)
    ensures |o| <= count
    ensures |o| < count ==> PopState(h0, t, keys, i + 1, fork, split, n, count - |o|, out + o)
    ensures |o| == count ==> Smallest(h0, n, out + o)
  {
    hide ForkContent, Held, BucketOk, StoreOk, At, Before, Drained, Precedes, Sorted, Ascending, Monotone;
    TakenHeld(s, t, keys[i], fork, o);
    OutPlaced(s, keys[i], fork, split, names, count, o);
    JoinedSorted(keys, i, split, out, o);
    DrainedStep(s, t, keys, i, fork, o);
    TakenKeys(s, t, keys, i, fork, o);
    LeftAfter(s, t, keys, i, fork, split, names, count, out, o);
    assert multiset(out + o) == multiset(out) + multiset(o);
    assert Held(t, fork) + multiset(out + o) == h0;
    if |o| < count {
      AllTaken(At(t, keys[i], fork), At(s, keys[i], fork), o);
    } else {
      assert h0 - multiset(out + o) == Held(t, fork);
    }
  }

  lemma AllTaken(left: multiset<Item>, had: multiset<Item>, o: seq<Item>)
    requires left + multiset(o) == had && |o| == |had|
    ensures left == multiset{}
  {
    assert |left| + |multiset(o)| == |had|;
  }

  lemma TakenKeys(s: Store, t: Store, keys: seq<Key>, i: nat, fork: ForkName, o: seq<Item>)
    requires i < |keys| && (forall k :: k in s ==> k in keys) && TakenFrom(s, t, keys[i], fork, o)
    ensures forall k :: k in t ==> k in keys
  {
    hide ForkContent, At;
  }

  /** After the last bucket everything was read. */
  lemma PopEnd(h0: multiset<Item>, s: Store, keys: seq<Key>, fork: ForkName, split: Key -> Key,
               names: set<ForkName>, n: nat, count: nat, out: seq<Item>)
    requires StoreOk(s, split, names) && PopState(h0, s, keys, |keys|, fork, split, n, count, out)
    ensures Smallest(h0, n, out) && Held(s, fork) == multiset{}
  {
    hide ForkContent, BucketOk, StoreOk;
    forall y
      ensures Held(s, fork)[y] == 0
    {
      if y in Held(s, fork) {
        LeftIn(s, keys, |keys|, fork, split, names, y);
      }
    }
    assert Held(s, fork) == multiset{};
    assert multiset(out) == h0 && h0 - multiset(out) == multiset{};
  }

  // ---------- Peeking across buckets ----------

  /** What the first buckets hold for a fork. */
  ghost function Bags(s: Store, keys: seq<Key>, fork: ForkName): multiset<Item> {
    if keys == [] then multiset{} else Bags(s, keys[..|keys| - 1], fork) + At(s, keys[|keys| - 1], fork)
  }

  lemma NoBags(s: Store, keys: seq<Key>, fork: ForkName)
    ensures |Bags(s, keys[..0], fork)| == 0
  {
  }

  lemma AtIs(s: Store, k: Key, fork: ForkName)
    requires k in s
    ensures At(s, k, fork) == ForkContent(s[k], fork)
  {
  }

  lemma BagsNext(s: Store, keys: seq<Key>, i: nat, fork: ForkName)
    requires i < |keys|
    ensures Bags(s, keys[..i + 1], fork) == Bags(s, keys[..i], fork) + At(s, keys[i], fork)
    ensures |Bags(s, keys[..i + 1], fork)| == |Bags(s, keys[..i], fork)| + |At(s, keys[i], fork)|
  {
    hide At;
    assert keys[..i + 1][..i] == keys[..i];
  }

  /** Of these buckets, those that Len knows no length of hold nothing of the fork. */
  ghost predicate SeenIn(tree: Tree, trailers: Trailers, s: Store, keys: seq<Key>, f: ForkName) {
    forall k :: k in keys && k in tree && k in s && tree[k] == null && (k, f) !in trailers ==>
      ForkContent(s[k], f) == multiset{}
  }

  lemma SeenStart(tree: Tree, trailers: Trailers, s: Store, keys: seq<Key>, f: ForkName)
    ensures SeenIn(tree, trailers, s, keys[..0], f)
  {
  }

  lemma SeenStep(tree: Tree, trailers: Trailers, s: Store, keys: seq<Key>, i: nat, f: ForkName)
    requires i < |keys| && keys[i] in tree && keys[i] in s
    ensures SeenIn(tree, trailers, s, keys[..i + 1], f)
            <==> SeenIn(tree, trailers, s, keys[..i], f)
                 && (tree[keys[i]] == null && (keys[i], f) !in trailers ==> |ForkContent(s[keys[i]], f)| == 0)
  {
    hide ForkContent;
    assert keys[..i + 1] == keys[..i] + [keys[i]];
  }

  lemma SeenEnd(tree: Tree, trailers: Trailers, s: Store, keys: seq<Key>, f: ForkName)
    requires forall k :: k in tree ==> k in keys
    ensures SeenIn(tree, trailers, s, keys, f) <==> NothingMissed(tree, trailers, s, f)
  {
    hide ForkContent;
  }

  lemma RememberedIsRight(tree: Tree, trailers: Trailers, s: Store, f: ForkName)
    requires Remembered(tree, trailers, s, f)
    ensures Right(tree, trailers, s, f) && NothingMissed(tree, trailers, s, f)
  {
    hide ForkContent;
  }

  /** How many of these buckets hold items of a fork. */
  ghost function Filled(s: Store, keys: seq<Key>, fork: ForkName): nat {
    if keys == [] then 0
    else Filled(s, keys[..|keys| - 1], fork) + (if At(s, keys[|keys| - 1], fork) == multiset{} then 0 else 1)
  }

  lemma {:induction false} BagsSame(s: Store, t: Store, keys: seq<Key>, f: ForkName, g: ForkName)
    requires forall k :: k in keys ==> At(s, k, f) == At(t, k, g)
    ensures Bags(s, keys, f) == Bags(t, keys, g)
  {
    hide At;
    if keys != [] {
      BagsSame(s, t, keys[..|keys| - 1], f, g);
    }
  }

  /** The buckets together make up the fork. */
  lemma {:induction false} BagsHeld(s: Store, keys: seq<Key>, fork: ForkName)
    requires Ascending(keys) && forall k :: k in s ==> k in keys
    ensures Bags(s, keys, fork) == Held(s, fork)
    decreases keys
  {
    hide ForkContent;
    if keys == [] {
      assert s == map[];
    } else {
      hide Held;
      var k, front := keys[|keys| - 1], keys[..|keys| - 1];
      assert k !in front;
      BagsSame(s, s - {k}, front, fork, fork);
      BagsHeld(s - {k}, front, fork);
      HeldApart(s, k, fork);
    }
  }

  /** What peeking up to n items in each bucket adds up to. */
  ghost predicate PeekSum(bag: multiset<Item>, out: seq<Item>, n: nat, filled: nat) {
    && Sorted(out) && multiset(out) <= bag
    && (filled == 0 <==> bag == multiset{})
    && (|bag| <= n ==> multiset(out) == bag)
    && (filled <= 1 ==> Smallest(bag, n, out))
    && (|bag| > n ==> |out| >= n)
    && (|bag| > n && filled > 1 ==> |out| > n)
  }

  lemma SmallestAll(a: multiset<Item>, n: nat, o: seq<Item>)
    requires Smallest(a, n, o) && |a| <= n
    ensures multiset(o) == a
  {
    assert |a - multiset(o)| == |a| - |o|;
  }

  lemma PeekSumStep(bag: multiset<Item>, out: seq<Item>, n: nat, filled: nat, a: multiset<Item>, o: seq<Item>)
    requires n > 0 && PeekSum(bag, out, n, filled) && Smallest(a, n, o) && Sorted(out + o)
    ensures PeekSum(bag + a, out + o, n, filled + if a == multiset{} then 0 else 1)
  {
    if a == multiset{} {
      assert o == [] && out + o == out && bag + a == bag;
    } else {
      assert |a| > 0;
      if |a| <= n {
        SmallestAll(a, n, o);
      }
      assert multiset(out + o) == multiset(out) + multiset(o);
      assert |bag + a| == |bag| + |a| && |out + o| == |out| + |o|;
      if filled == 0 {
        assert out == [] && out + o == o && bag + a == a;
      } else {
        assert |bag| > 0;
      }
    }
  }

  /**
   * Peeking n items returns the n smallest of the fork if and only if the fork has no more than n items,
   * or all of them lie in one bucket: otherwise it returns more than n.
   */
  lemma PeekSumExact(bag: multiset<Item>, out: seq<Item>, n: nat, filled: nat)
    requires PeekSum(bag, out, n, filled)
    ensures Smallest(bag, n, out) <==> |bag| <= n || filled <= 1
    ensures |bag| > n && filled > 1 ==> |out| > n
  {
    if |bag| <= n {
      assert bag - multiset(out) == multiset{} && |multiset(out)| == |out|;
    }
  }

  /** Halfway through a read that only looks. */
  ghost predicate PeekState(s0: Store, s: Store, keys: seq<Key>, i: nat, fork: ForkName, split: Key -> Key,
                            n: nat, out: seq<Item>) {
    && i <= |keys| && Ascending(keys) && (forall k :: k in s0 ==> k in keys)
    && (forall k :: At(s, k, fork) == At(s0, k, fork))
    && PeekSum(Bags(s0, keys[..i], fork), out, n, Filled(s0, keys[..i], fork))
    && Before(out, keys, i, split)
  }

  lemma PeekStart(s: Store, keys: seq<Key>, fork: ForkName, split: Key -> Key, n: nat)
    requires Ascending(keys) && forall k :: k in s ==> k in keys
    ensures PeekState(s, s, keys, 0, fork, split, n, [])
  {
  }

  lemma PeekStep(s0: Store, s: Store, t: Store, keys: seq<Key>, i: nat, fork: ForkName, split: Key -> Key,
                 names: set<ForkName>, n: nat, out: seq<Item>, o: seq<Item>)
    requires n > 0 && StoreOk(s, split, names) && Monotone(split)
    requires i < |keys| && PeekState(s0, s, keys, i, fork, split, n, out)
    requires TakenFrom(s, t, keys[i], fork, []) && Smallest(At(s, keys[i], fork), n, o)
    ensures PeekState(s0, t, keys, i + 1, fork, split, n, out + o)
  {
    hide ForkContent, StoreOk, At, Smallest, PeekSum;
    OutPlaced(s, keys[i], fork, split, names, n, o);
    SmallestSorted(At(s, keys[i], fork), n, o);
    PeekSumSorted(Bags(s0, keys[..i], fork), out, n, Filled(s0, keys[..i], fork));
    JoinedSorted(keys, i, split, out, o);
    PeekSumStep(Bags(s0, keys[..i], fork), out, n, Filled(s0, keys[..i], fork), At(s, keys[i], fork), o);
    assert keys[..i + 1][..i] == keys[..i];
    SameAt(s, t, keys[i], fork);
    BeforeJoined(keys, i, split, out, o);
  }

  lemma BeforeJoined(keys: seq<Key>, i: nat, split: Key -> Key, out: seq<Item>, o: seq<Item>)
    requires i < |keys| && Ascending(keys) && Before(out, keys, i, split)
    requires forall a :: 0 <= a < |o| ==> split(o[a].key) == keys[i]
    ensures Before(out + o, keys, i + 1, split)
  {
  }

  lemma SmallestSorted(a: multiset<Item>, n: nat, o: seq<Item>)
    requires Smallest(a, n, o)
    ensures Sorted(o)
  {
  }

  lemma PeekSumSorted(bag: multiset<Item>, out: seq<Item>, n: nat, filled: nat)
    requires PeekSum(bag, out, n, filled)
    ensures Sorted(out)
  {
  }

  lemma SameAt(s: Store, t: Store, key: Key, fork: ForkName)
    requires TakenFrom(s, t, key, fork, [])
    ensures forall k :: At(t, k, fork) == At(s, k, fork)
  {
    hide ForkContent;
  }

  /** What a peek over all buckets returned. */
  lemma PeekEnd(s0: Store, s: Store, keys: seq<Key>, fork: ForkName, split: Key -> Key, n: nat, out: seq<Item>)
    requires PeekState(s0, s, keys, |keys|, fork, split, n, out)
    ensures PeekSum(Held(s0, fork), out, n, Filled(s0, keys, fork))
  {
    hide ForkContent, At, PeekSum;
    assert keys[..|keys|] == keys;
    BagsHeld(s0, keys, fork);
  }

  /** The buckets that hold items of a fork. */
  ghost function FilledKeys(s: Store, fork: ForkName): set<Key> {
    set k | k in s && At(s, k, fork) != multiset{}
  }

  ghost function FilledIn(s: Store, keys: seq<Key>, fork: ForkName): set<Key> {
    set k | k in FilledKeys(s, fork) && k in keys
  }

  lemma {:induction false} FilledCount(s: Store, keys: seq<Key>, fork: ForkName)
    requires Ascending(keys)
    ensures |FilledIn(s, keys, fork)| == Filled(s, keys, fork)
    decreases keys
  {
    hide ForkContent;
    if keys != [] {
      var k, front := keys[|keys| - 1], keys[..|keys| - 1];
      assert k !in front;
      FilledCount(s, front, fork);
      assert FilledIn(s, keys, fork) == FilledIn(s, front, fork) + if k in FilledKeys(s, fork) then {k} else {};
    } else {
      assert FilledIn(s, keys, fork) == {};
    }
  }

  lemma FilledAll(s: Store, keys: seq<Key>, fork: ForkName)
    requires Ascending(keys) && forall k :: k in s ==> k in keys
    ensures Filled(s, keys, fork) == |FilledKeys(s, fork)|
  {
    FilledCount(s, keys, fork);
    assert FilledIn(s, keys, fork) == FilledKeys(s, fork);
  }

  // ---------- The callback ----------

  /** What the callback took, over all calls. */
  function AllPopped(fn: seq<Item> -> Decision, calls: seq<seq<Item>>): seq<Item> {
    if calls == [] then []
    else AllPopped(fn, calls[..|calls| - 1]) + Popped(fn, calls[|calls| - 1])
  }

  lemma PoppedSnoc(fn: seq<Item> -> Decision, calls: seq<seq<Item>>, out: seq<Item>)
    ensures AllPopped(fn, calls + [out]) == AllPopped(fn, calls) + Popped(fn, out)
  {
    assert (calls + [out])[..|calls|] == calls;
  }

  /** A callback that always pops, or always peeks. */
  ghost predicate Always(fn: seq<Item> -> Decision, op: ReadOp) {
    forall s: seq<Item> {:trigger fn(s)} :: fn(s) == Decision([], op, false)
  }

  /** What the callback took is gone from the fork, and nothing else changed. */
  ghost predicate Conserved(s0: Store, s: Store, fork: ForkName, fn: seq<Item> -> Decision, calls: seq<seq<Item>>) {
    && Held(s, fork) + multiset(AllPopped(fn, calls)) == Held(s0, fork)
    && (forall f :: f != fork ==> Held(s, f) == Held(s0, f))
    && (Always(fn, ReadOpPop) ==> AllPopped(fn, calls) == Flat(calls))
    && (Always(fn, ReadOpPeek) ==> AllPopped(fn, calls) == [])
  }

  lemma ConservedStep(s0: Store, s: Store, t: Store, key: Key, fork: ForkName, fn: seq<Item> -> Decision,
                      calls: seq<seq<Item>>, out: seq<Item>)
    requires Conserved(s0, s, fork, fn, calls) && TakenFrom(s, t, key, fork, Popped(fn, out))
    ensures Conserved(s0, t, fork, fn, calls + [out])
  {
    hide Held, TakenFrom, Flat, AllPopped;
    TakenHeld(s, t, key, fork, Popped(fn, out));
    PoppedSnoc(fn, calls, out);
    FlatSnoc(calls, out);
    var popped := Popped(fn, out);
    assert multiset(AllPopped(fn, calls) + popped) == multiset(AllPopped(fn, calls)) + multiset(popped);
  }

  lemma ConservedSame(s0: Store, s: Store, t: Store, key: Key, fork: ForkName, fn: seq<Item> -> Decision,
                      calls: seq<seq<Item>>)
    requires Conserved(s0, s, fork, fn, calls) && TakenFrom(s, t, key, fork, [])
    ensures Conserved(s0, t, fork, fn, calls)
  {
    hide Held, TakenFrom;
    TakenHeld(s, t, key, fork, []);
  }

  /** Halfway through a read of a fork that exists. */
  ghost predicate Reading(s0: Store, s: Store, keys: seq<Key>, i: nat, fork: ForkName, split: Key -> Key,
                          fn: seq<Item> -> Decision, n: nat, count: int, calls: seq<seq<Item>>) {
    && count > 0
    && (Always(fn, ReadOpPop) ==> PopState(Held(s0, fork), s, keys, i, fork, split, n, count, Flat(calls)))
    && (Always(fn, ReadOpPeek) ==> PeekState(s0, s, keys, i, fork, split, n, Flat(calls)) && count == n)
  }

  /** What a read of a fork returned, for callbacks that always pop or always peek. */
  ghost predicate Answered(s0: Store, fork: ForkName, fn: seq<Item> -> Decision, n: nat, calls: seq<seq<Item>>) {
    && (Always(fn, ReadOpPop) ==> Smallest(Held(s0, fork), n, Flat(calls)))
    && (Always(fn, ReadOpPeek) && n > 0 ==>
          && PeekSum(Held(s0, fork), Flat(calls), n, |FilledKeys(s0, fork)|)
          && (Smallest(Held(s0, fork), n, Flat(calls)) <==> |Held(s0, fork)| <= n || |FilledKeys(s0, fork)| <= 1))
  }

  lemma ReadStart(s: Store, keys: seq<Key>, fork: ForkName, split: Key -> Key, fn: seq<Item> -> Decision, n: nat)
    requires Ascending(keys) && forall k :: k in s ==> k in keys
    ensures Conserved(s, s, fork, fn, [])
    ensures n > 0 ==> Reading(s, s, keys, 0, fork, split, fn, n, n, [])
    ensures n == 0 ==> Answered(s, fork, fn, n, [])
  {
    hide PopState, PeekState;
    PopStart(s, keys, fork, split, n);
    PeekStart(s, keys, fork, split, n);
  }

  /** One bucket further: the read goes on, is complete, or was stopped by a callback that fails. */
  lemma ReadStep(s0: Store, s: Store, t: Store, keys: seq<Key>, i: nat, fork: ForkName, split: Key -> Key,
                 names: set<ForkName>, fn: seq<Item> -> Decision, n: nat, count: int, calls: seq<seq<Item>>,
                 out: seq<Item>)
    requires StoreOk(s, split, names) && StoreOk(t, split, names) && Monotone(split)
    requires i < |keys| && Reading(s0, s, keys, i, fork, split, fn, n, count, calls)
    requires TakenFrom(s, t, keys[i], fork, Popped(fn, out)) && Smallest(At(s, keys[i], fork), count, out)
    ensures fn(out).failed || |Popped(fn, out)| < count ==>
              Reading(s0, t, keys, i + 1, fork, split, fn, n, count - |Popped(fn, out)|, calls + [out])
    ensures fn(out).failed || |Popped(fn, out)| >= count ==> Answered(s0, fork, fn, n, calls + [out])
  {
    hide StoreOk, Monotone, PopState, PeekState, TakenFrom, Smallest, At, Held, PeekSum;
    FlatSnoc(calls, out);
    if Always(fn, ReadOpPop) {
      PopStep(Held(s0, fork), s, t, keys, i, fork, split, names, n, count, Flat(calls), out);
    }
    if Always(fn, ReadOpPeek) {
      PeekStep(s0, s, t, keys, i, fork, split, names, n, Flat(calls), out);
    }
  }

  lemma ReadEnd(s0: Store, s: Store, keys: seq<Key>, fork: ForkName, split: Key -> Key, names: set<ForkName>,
                fn: seq<Item> -> Decision, n: nat, count: int, calls: seq<seq<Item>>)
    requires StoreOk(s, split, names) && Reading(s0, s, keys, |keys|, fork, split, fn, n, count, calls)
    requires Ascending(keys) && forall k :: k in s0 ==> k in keys
    ensures Answered(s0, fork, fn, n, calls)
  {
    hide StoreOk, PopState, PeekState, Smallest, At, Held, PeekSum, FilledKeys;
    if Always(fn, ReadOpPop) {
      PopEnd(Held(s0, fork), s, keys, fork, split, names, n, count, Flat(calls));
    }
    if Always(fn, ReadOpPeek) {
      PeekEnd(s0, s, keys, fork, split, n, Flat(calls));
      FilledAll(s0, keys, fork);
      if n > 0 {
        PeekSumExact(Held(s0, fork), Flat(calls), n, |FilledKeys(s0, fork)|);
      }
    }
  }

  lemma StillAhead(s: Store, t: Store, keys: seq<Key>, i: nat, fork: ForkName, popped: seq<Item>)
    requires i < |keys| && Ascending(keys) && TakenFrom(s, t, keys[i], fork, popped)
    requires forall j :: i <= j < |keys| ==> keys[j] in s
    ensures forall j :: i + 1 <= j < |keys| ==> keys[j] in t
  {
    hide ForkContent, At;
  }

  /** The loop over the buckets; `known` tells whether the fork exists. */
  ghost predicate LoopState(s0: Store, s: Store, keys: seq<Key>, i: nat, fork: ForkName, known: bool, split: Key -> Key,
                            fn: seq<Item> -> Decision, n: nat, count: int, calls: seq<seq<Item>>) {
    && Conserved(s0, s, fork, fn, calls)
    && Ascending(keys) && (forall j :: i <= j < |keys| ==> keys[j] in s)
    && (forall k :: k in s0 <==> k in keys)
    && (known && n > 0 ==> (calls == [] <==> i == 0))
    && (known && n > 0 ==> Reading(s0, s, keys, i, fork, split, fn, n, count, calls))
    && (known && n == 0 ==> count == 0 && Answered(s0, fork, fn, n, calls))
    && (n == 0 ==> calls == [])
    && (!known ==> calls == [] && count == n)
  }

  /** A read that is over. */
  ghost predicate LoopDone(s0: Store, s: Store, fork: ForkName, known: bool, fn: seq<Item> -> Decision, n: nat,
                           calls: seq<seq<Item>>) {
    && Conserved(s0, s, fork, fn, calls)
    && (known ==> Answered(s0, fork, fn, n, calls))
    && (known && n > 0 ==> (calls == [] <==> s0 == map[]))
    && (!known || n == 0 ==> calls == [])
  }

  lemma LoopStart(s: Store, keys: seq<Key>, fork: ForkName, known: bool, split: Key -> Key,
                  fn: seq<Item> -> Decision, n: nat)
    requires Ascending(keys) && forall k :: k in s <==> k in keys
    ensures LoopState(s, s, keys, 0, fork, known, split, fn, n, n, [])
  {
    hide Conserved, Reading, Answered;
    ReadStart(s, keys, fork, split, fn, n);
  }

  lemma LoopAhead(s0: Store, s: Store, keys: seq<Key>, i: nat, fork: ForkName, known: bool, split: Key -> Key,
                  fn: seq<Item> -> Decision, n: nat, count: int, calls: seq<seq<Item>>)
    requires i < |keys| && LoopState(s0, s, keys, i, fork, known, split, fn, n, count, calls)
    ensures keys[i] in s
  {
  }

  lemma LoopCalled(s0: Store, s: Store, t: Store, keys: seq<Key>, i: nat, fork: ForkName, split: Key -> Key,
                   names: set<ForkName>, fn: seq<Item> -> Decision, n: nat, count: int, calls: seq<seq<Item>>,
                   out: seq<Item>)
    requires StoreOk(s, split, names) && StoreOk(t, split, names) && Monotone(split)
    requires i < |keys| && LoopState(s0, s, keys, i, fork, true, split, fn, n, count, calls) && count > 0
    requires TakenFrom(s, t, keys[i], fork, Popped(fn, out)) && Smallest(At(s, keys[i], fork), count, out)
    ensures fn(out).failed || |Popped(fn, out)| < count ==>
              LoopState(s0, t, keys, i + 1, fork, true, split, fn, n, count - |Popped(fn, out)|, calls + [out])
    ensures fn(out).failed || |Popped(fn, out)| >= count ==> LoopDone(s0, t, fork, true, fn, n, calls + [out])
  {
    hide StoreOk, Monotone, Conserved, Reading, Answered, TakenFrom, Smallest, At;
    ConservedStep(s0, s, t, keys[i], fork, fn, calls, out);
    ReadStep(s0, s, t, keys, i, fork, split, names, fn, n, count, calls, out);
    StillAhead(s, t, keys, i, fork, Popped(fn, out));
    NotEmpty(s0, keys, i);
  }

  lemma NotEmpty(s: Store, keys: seq<Key>, i: nat)
    requires i <= |keys| && forall k :: k in s <==> k in keys
    ensures i < |keys| ==> s != map[]
    ensures keys == [] ==> s == map[]
  {
    if i < |keys| {
      assert keys[i] in s;
    }
    assert keys == [] ==> s.Keys == {};
  }

  lemma LoopSkipped(s0: Store, s: Store, t: Store, keys: seq<Key>, i: nat, fork: ForkName, known: bool,
                    split: Key -> Key, fn: seq<Item> -> Decision, n: nat, count: int, calls: seq<seq<Item>>)
    requires i < |keys| && LoopState(s0, s, keys, i, fork, known, split, fn, n, count, calls)
    requires TakenFrom(s, t, keys[i], fork, []) && (known ==> count <= 0)
    ensures LoopDone(s0, t, fork, known, fn, n, calls)
    ensures !known ==> LoopState(s0, t, keys, i + 1, fork, known, split, fn, n, count, calls)
  {
    hide Conserved, Reading, Answered, TakenFrom;
    ConservedSame(s0, s, t, keys[i], fork, fn, calls);
    StillAhead(s, t, keys, i, fork, []);
    assert known && n > 0 ==> count > 0 by { ReadingCount(s0, s, keys, i, fork, split, fn, n, count, calls); }
  }

  lemma ReadingCount(s0: Store, s: Store, keys: seq<Key>, i: nat, fork: ForkName, split: Key -> Key,
                     fn: seq<Item> -> Decision, n: nat, count: int, calls: seq<seq<Item>>)
    ensures Reading(s0, s, keys, i, fork, split, fn, n, count, calls) ==> count > 0
  {
  }

  lemma LoopEnd(s0: Store, s: Store, keys: seq<Key>, fork: ForkName, known: bool, split: Key -> Key,
                names: set<ForkName>, fn: seq<Item> -> Decision, n: nat, count: int, calls: seq<seq<Item>>)
    requires StoreOk(s, split, names) && LoopState(s0, s, keys, |keys|, fork, known, split, fn, n, count, calls)
    ensures LoopDone(s0, s, fork, known, fn, n, calls)
  {
    hide StoreOk, Conserved, Reading, Answered;
    NotEmpty(s0, keys, 0);
    if known && n > 0 {
      ReadEnd(s0, s, keys, fork, split, names, fn, n, count, calls);
    }
  }

  // ---------- What users are told ----------

  /** What popping n items gives, or all if n is negative: a read asks for the largest integer then. */
  ghost predicate PopAnswer(bag: multiset<Item>, n: int, out: seq<Item>) {
    && (n >= 0 ==> Smallest(bag, n, out))
    && (n < 0 ==> Smallest(bag, 0x7FFF_FFFF_FFFF_FFFF, out))
    && (n < 0 && |bag| <= 0x7FFF_FFFF_FFFF_FFFF ==> multiset(out) == bag)
  }

  /** What peeking gives at least. */
  ghost predicate PeekBounds(bag: multiset<Item>, n: int, out: seq<Item>) {
    && Sorted(out) && multiset(out) <= bag
    && (n >= 0 ==> |out| >= (if |bag| <= n then |bag| else n))
    && (n < 0 ==> |out| >= (if |bag| <= 0x7FFF_FFFF_FFFF_FFFF then |bag| else 0x7FFF_FFFF_FFFF_FFFF))
    && (n < 0 && |bag| <= 0x7FFF_FFFF_FFFF_FFFF ==> multiset(out) == bag)
  }

  /** What peeking gives, for items that lie in this many buckets. */
  ghost predicate PeekAnswer(bag: multiset<Item>, n: int, out: seq<Item>, filled: nat) {
    && PeekBounds(bag, n, out)
    && (n >= 0 ==> (Smallest(bag, n, out) <==> |bag| <= n || filled <= 1))
    && (n >= 0 && |bag| > n && filled > 1 ==> |out| > n)
  }

  /** What a read of n items did, or of all if n is negative. */
  ghost predicate ReadAnswer(s0: Store, s: Store, fork: ForkName, known: bool, fn: seq<Item> -> Decision, n: int,
                             calls: seq<seq<Item>>) {
    && Conserved(s0, s, fork, fn, calls)
    && (known && Always(fn, ReadOpPop) ==> PopAnswer(Held(s0, fork), n, Flat(calls)))
    && (known && Always(fn, ReadOpPop) && n < 0 && |Held(s0, fork)| <= 0x7FFF_FFFF_FFFF_FFFF ==>
          Held(s, fork) == multiset{})
    && (known && Always(fn, ReadOpPeek) && n != 0 ==>
          PeekAnswer(Held(s0, fork), n, Flat(calls), |FilledKeys(s0, fork)|))
    && (known && n != 0 ==> (calls == [] <==> s0 == map[]))
    && (!known || n == 0 ==> calls == [])
  }

  lemma PopAnswered(bag: multiset<Item>, n: int, limit: nat, out: seq<Item>)
    requires Smallest(bag, limit, out) && limit == if n < 0 then MAX_KEY else n
    ensures PopAnswer(bag, n, out)
  {
    if |bag| <= limit {
      SmallestAll(bag, limit, out);
    }
  }

  lemma PeekAnswered(bag: multiset<Item>, n: int, limit: nat, out: seq<Item>, filled: nat)
    requires PeekSum(bag, out, limit, filled) && limit == if n < 0 then MAX_KEY else n
    ensures PeekAnswer(bag, n, out, filled)
  {
    PeekSumExact(bag, out, limit, filled);
    assert |multiset(out)| == |out|;
  }

  lemma ReadAnswered(s0: Store, s: Store, fork: ForkName, known: bool, fn: seq<Item> -> Decision, n: int, limit: nat,
                     calls: seq<seq<Item>>)
    requires LoopDone(s0, s, fork, known, fn, limit, calls) && limit == if n < 0 then MAX_KEY else n
    ensures ReadAnswer(s0, s, fork, known, fn, n, calls)
  {
    hide Held, Smallest, Flat, AllPopped, PeekSum, FilledKeys, PopAnswer, PeekAnswer;
    if known && Always(fn, ReadOpPop) {
      PopAnswered(Held(s0, fork), n, limit, Flat(calls));
      if n < 0 && |Held(s0, fork)| <= MAX_KEY {
        PopAnsweredAll(Held(s0, fork), n, Flat(calls));
        assert Held(s, fork) + Held(s0, fork) == Held(s0, fork);
      }
    }
    if known && Always(fn, ReadOpPeek) && n != 0 {
      PeekAnswered(Held(s0, fork), n, limit, Flat(calls), |FilledKeys(s0, fork)|);
    }
  }

  lemma PopAnsweredAll(bag: multiset<Item>, n: int, out: seq<Item>)
    requires PopAnswer(bag, n, out) && n < 0 && |bag| <= MAX_KEY
    ensures multiset(out) == bag
  {
  }

  // ---------- The course of a read ----------

  ghost predicate HasItems(v: Value) {
    exists f :: ForkContent(v, f) != multiset{}
  }

  /** How many of n items are still asked for after these calls. */
  ghost function Left(fn: seq<Item> -> Decision, n: nat, calls: seq<seq<Item>>): int {
    n - |AllPopped(fn, calls)|
  }

  /**
   * Whatever the callback answers: the buckets are asked in order of their keys, each for the smallest items
   * still wanted, and only an error that is tolerated does not end the read. A bucket that was read without
   * error stays only if some fork has items left in it.
   */
  ghost predicate Course(s0: Store, s: Store, keys: seq<Key>, fork: ForkName, fn: seq<Item> -> Decision, n: nat,
                         continueOnErr: bool, calls: seq<seq<Item>>) {
    && |calls| <= |keys|
    && (forall i :: 0 <= i < |calls| ==>
          Left(fn, n, calls[..i]) > 0 && Smallest(At(s0, keys[i], fork), Left(fn, n, calls[..i]), calls[i]))
    && (forall i :: 0 <= i < |calls| - 1 && fn(calls[i]).failed ==> continueOnErr)
    && (forall i :: 0 <= i < |calls| && !fn(calls[i]).failed && keys[i] in s ==> HasItems(s[keys[i]]))
  }

  /** The read is over: nothing more is wanted, no bucket is left, or the last call was an error that ends it. */
  ghost predicate CourseOver(keys: seq<Key>, fn: seq<Item> -> Decision, n: nat, continueOnErr: bool,
                             calls: seq<seq<Item>>) {
    || |calls| == |keys|
    || Left(fn, n, calls) <= 0
    || (calls != [] && fn(calls[|calls| - 1]).failed && !continueOnErr)
  }

  /** The whole course of a read of a fork that exists. */
  ghost predicate Ran(s0: Store, s: Store, fork: ForkName, fn: seq<Item> -> Decision, n: nat, continueOnErr: bool,
                      calls: seq<seq<Item>>) {
    exists keys :: Ascending(keys) && (forall k :: k in s0 <==> k in keys)
                   && Course(s0, s, keys, fork, fn, n, continueOnErr, calls)
                   && CourseOver(keys, fn, n, continueOnErr, calls)
  }

  /** Before the i-th bucket. */
  ghost predicate CourseState(s0: Store, s: Store, keys: seq<Key>, i: nat, fork: ForkName, fn: seq<Item> -> Decision,
                              n: nat, continueOnErr: bool, count: int, calls: seq<seq<Item>>) {
    && |calls| == i <= |keys| && Ascending(keys) && (forall k :: k in s0 <==> k in keys)
    && count == Left(fn, n, calls)
    && Course(s0, s, keys, fork, fn, n, continueOnErr, calls)
    && (forall c :: c in calls && fn(c).failed ==> continueOnErr)
    && (forall j :: i <= j < |keys| ==> At(s, keys[j], fork) == At(s0, keys[j], fork))
  }

  lemma CourseStart(s: Store, keys: seq<Key>, fork: ForkName, fn: seq<Item> -> Decision, n: nat, continueOnErr: bool)
    requires Ascending(keys) && forall k :: k in s <==> k in keys
    ensures CourseState(s, s, keys, 0, fork, fn, n, continueOnErr, n, [])
  {
  }

  lemma CourseStep(s0: Store, s: Store, t: Store, keys: seq<Key>, i: nat, fork: ForkName, fn: seq<Item> -> Decision,
                   n: nat, continueOnErr: bool, count: int, calls: seq<seq<Item>>, out: seq<Item>)
    requires i < |keys| && CourseState(s0, s, keys, i, fork, fn, n, continueOnErr, count, calls) && count > 0
    requires SameElsewhere(s, t, keys[i]) && Smallest(At(s, keys[i], fork), count, out)
    requires !fn(out).failed && keys[i] in t ==> HasItems(t[keys[i]])
    ensures Course(s0, t, keys, fork, fn, n, continueOnErr, calls + [out])
    ensures Left(fn, n, calls + [out]) == count - |Popped(fn, out)|
    ensures (fn(out).failed ==> continueOnErr) ==>
              CourseState(s0, t, keys, i + 1, fork, fn, n, continueOnErr, count - |Popped(fn, out)|, calls + [out])
  {
    hide ForkContent, HasItems, Popped, AllPopped, Smallest;
    PoppedSnoc(fn, calls, out);
    var now := calls + [out];
    forall j | 0 <= j < |keys| && j != i
      ensures keys[j] != keys[i]
    {
    }
    forall j | 0 <= j < |now|
      ensures now[..j] == calls[..j]
    {
    }
    assert now[..i] == calls;
  }

  ghost predicate AnyFailed(fn: seq<Item> -> Decision, calls: seq<seq<Item>>) {
    exists i :: 0 <= i < |calls| && fn(calls[i]).failed
  }

  /** A read that ends with this call. */
  lemma CourseStop(s0: Store, s: Store, t: Store, keys: seq<Key>, i: nat, fork: ForkName, fn: seq<Item> -> Decision,
                   n: nat, continueOnErr: bool, count: int, calls: seq<seq<Item>>, out: seq<Item>)
    requires i < |keys| && CourseState(s0, s, keys, i, fork, fn, n, continueOnErr, count, calls)
    requires Course(s0, t, keys, fork, fn, n, continueOnErr, calls + [out])
    requires Left(fn, n, calls + [out]) == count - |Popped(fn, out)|
    ensures fn(out).failed && !continueOnErr ==>
              Ran(s0, t, fork, fn, n, continueOnErr, calls + [out]) && AnyFailed(fn, calls + [out])
    ensures !fn(out).failed && |Popped(fn, out)| >= count ==>
              Ran(s0, t, fork, fn, n, continueOnErr, calls + [out]) && (AnyFailed(fn, calls + [out]) ==> continueOnErr)
  {
    hide Course, Left, Popped, Ran;
    var now := calls + [out];
    assert now[|now| - 1] == out;
    if (fn(out).failed && !continueOnErr) || (!fn(out).failed && |Popped(fn, out)| >= count) {
      CourseRan(s0, t, keys, fork, fn, n, continueOnErr, now);
    }
    forall j | 0 <= j < |calls|
      ensures now[j] in calls
    {
    }
  }

  /** A read that asked every bucket. */
  lemma CourseEnd(s0: Store, s: Store, keys: seq<Key>, fork: ForkName, fn: seq<Item> -> Decision, n: nat,
                  continueOnErr: bool, count: int, calls: seq<seq<Item>>)
    requires CourseState(s0, s, keys, |keys|, fork, fn, n, continueOnErr, count, calls)
    ensures Ran(s0, s, fork, fn, n, continueOnErr, calls) && (AnyFailed(fn, calls) ==> continueOnErr)
  {
    hide Course, Left, Ran;
    CourseRan(s0, s, keys, fork, fn, n, continueOnErr, calls);
  }

  lemma CourseRan(s0: Store, s: Store, keys: seq<Key>, fork: ForkName, fn: seq<Item> -> Decision, n: nat,
                  continueOnErr: bool, calls: seq<seq<Item>>)
    requires Ascending(keys) && (forall k :: k in s0 <==> k in keys)
    requires Course(s0, s, keys, fork, fn, n, continueOnErr, calls) && CourseOver(keys, fn, n, continueOnErr, calls)
    ensures Ran(s0, s, fork, fn, n, continueOnErr, calls)
  {
    hide Course, CourseOver;
  }

  lemma AlwaysFine(fn: seq<Item> -> Decision, op: ReadOp, calls: seq<seq<Item>>)
    requires Always(fn, op)
    ensures !AnyFailed(fn, calls)
  {
  }

  lemma HasItemsIs(v: Value)
    ensures HasItems(v) <==> exists f :: f in v.forks && ForkContent(v, f) != multiset{}
  {
  }

  lemma TakenElsewhere(s: Store, t: Store, key: Key, fork: ForkName, popped: seq<Item>)
    requires TakenFrom(s, t, key, fork, popped)
    ensures SameElsewhere(s, t, key)
  {
  }

  // ---------- The loop as a whole ----------

  /** A read of n items, or of all if n is negative, before the i-th bucket. */
  ghost predicate Underway(s0: Store, s: Store, keys: seq<Key>, i: nat, fork: ForkName, known: bool, split: Key -> Key,
                           fn: seq<Item> -> Decision, n: int, limit: nat, continueOnErr: bool, count: int,
                           calls: seq<seq<Item>>) {
    && limit == (if n < 0 then MAX_KEY else n) && (forall k :: k in s0 <==> k in keys)
    && LoopState(s0, s, keys, i, fork, known, split, fn, limit, count, calls)
    && (known && n != 0 ==>
          CourseState(s0, s, keys, i, fork, fn, limit, continueOnErr, count, calls) && count > 0)
    && (!(known && n != 0) ==> calls == [] && count == limit)
    && (n == 0 ==> i == 0) && (!known && i > 0 ==> continueOnErr)
  }

  /** What a read did and whether it reports an error. */
  ghost predicate ReadOver(s0: Store, s: Store, fork: ForkName, known: bool, fn: seq<Item> -> Decision, n: int,
                           continueOnErr: bool, calls: seq<seq<Item>>, ok: bool) {
    && ReadAnswer(s0, s, fork, known, fn, n, calls)
    && (known && n != 0 ==> Ran(s0, s, fork, fn, if n < 0 then MAX_KEY else n, continueOnErr, calls))
    && (!ok <==> !continueOnErr && (AnyFailed(fn, calls) || (!known && n != 0 && s0 != map[])))
  }

  lemma ReadBegins(s: Store, keys: seq<Key>, fork: ForkName, known: bool, split: Key -> Key, fn: seq<Item> -> Decision,
                   n: int, limit: nat, continueOnErr: bool)
    requires limit == (if n < 0 then MAX_KEY else n) && Ascending(keys) && forall k :: k in s <==> k in keys
    ensures Underway(s, s, keys, 0, fork, known, split, fn, n, limit, continueOnErr, limit, [])
  {
    hide LoopState, CourseState;
    LoopStart(s, keys, fork, known, split, fn, limit);
    CourseStart(s, keys, fork, fn, limit, continueOnErr);
  }

  /** The callback was called for the i-th bucket. */
  lemma ReadCalled(s0: Store, s: Store, t: Store, keys: seq<Key>, i: nat, fork: ForkName, split: Key -> Key,
                   names: set<ForkName>, fn: seq<Item> -> Decision, n: int, limit: nat, continueOnErr: bool, count: int,
                   calls: seq<seq<Item>>, out: seq<Item>)
    requires StoreOk(s, split, names) && StoreOk(t, split, names) && Monotone(split) && i < |keys| && count > 0
    requires Underway(s0, s, keys, i, fork, true, split, fn, n, limit, continueOnErr, count, calls)
    requires TakenFrom(s, t, keys[i], fork, Popped(fn, out)) && Smallest(At(s, keys[i], fork), count, out)
    requires !fn(out).failed && keys[i] in t ==> HasItems(t[keys[i]])
    ensures fn(out).failed ==> |Popped(fn, out)| == 0
    ensures (if fn(out).failed then continueOnErr else |Popped(fn, out)| < count) ==>
              Underway(s0, t, keys, i + 1, fork, true, split, fn, n, limit, continueOnErr, count - |Popped(fn, out)|,
                       calls + [out])
    ensures !(if fn(out).failed then continueOnErr else |Popped(fn, out)| < count) ==>
              ReadOver(s0, t, fork, true, fn, n, continueOnErr, calls + [out], !fn(out).failed)
  {
    hide StoreOk, Monotone, LoopState, LoopDone, CourseState, Course, Ran, TakenFrom, Smallest, At, HasItems, Left;
    hide AnyFailed, ReadAnswer, SameElsewhere;
    var popped, now := Popped(fn, out), calls + [out];
    TakenElsewhere(s, t, keys[i], fork, popped);
    LoopCalled(s0, s, t, keys, i, fork, split, names, fn, limit, count, calls, out);
    CourseStep(s0, s, t, keys, i, fork, fn, limit, continueOnErr, count, calls, out);
    CourseStop(s0, s, t, keys, i, fork, fn, limit, continueOnErr, count, calls, out);
    if !(if fn(out).failed then continueOnErr else |popped| < count) {
      ReadAnswered(s0, t, fork, true, fn, n, limit, now);
    }
  }

  /** The callback was not called: nothing is wanted, or the fork does not exist. */
  lemma ReadSkipped(s0: Store, s: Store, t: Store, keys: seq<Key>, i: nat, fork: ForkName, known: bool,
                    split: Key -> Key, fn: seq<Item> -> Decision, n: int, limit: nat, continueOnErr: bool, count: int,
                    calls: seq<seq<Item>>)
    requires i < |keys| && Underway(s0, s, keys, i, fork, known, split, fn, n, limit, continueOnErr, count, calls)
    requires TakenFrom(s, t, keys[i], fork, []) && (count <= 0 || !known)
    ensures count <= 0 || !continueOnErr ==>
              ReadOver(s0, t, fork, known, fn, n, continueOnErr, calls, count <= 0)
    ensures count > 0 && continueOnErr ==>
              Underway(s0, t, keys, i + 1, fork, known, split, fn, n, limit, continueOnErr, count, calls)
  {
    hide LoopState, LoopDone, CourseState, TakenFrom, Ran, ReadAnswer;
    LoopSkipped(s0, s, t, keys, i, fork, known, split, fn, limit, count, calls);
    ReadAnswered(s0, t, fork, known, fn, n, limit, calls);
    NotEmpty(s0, keys, i);
  }

  /** No bucket is left. */
  lemma ReadEnds(s0: Store, s: Store, keys: seq<Key>, fork: ForkName, known: bool, split: Key -> Key,
                 names: set<ForkName>, fn: seq<Item> -> Decision, n: int, limit: nat, continueOnErr: bool, count: int,
                 calls: seq<seq<Item>>)
    requires StoreOk(s, split, names)
    requires Underway(s0, s, keys, |keys|, fork, known, split, fn, n, limit, continueOnErr, count, calls)
    ensures ReadOver(s0, s, fork, known, fn, n, continueOnErr, calls, true)
  {
    hide StoreOk, LoopState, LoopDone, CourseState, Ran, ReadAnswer;
    LoopEnd(s0, s, keys, fork, known, split, names, fn, limit, count, calls);
    ReadAnswered(s0, s, fork, known, fn, n, limit, calls);
    NotEmpty(s0, keys, 0);
    if known && n != 0 {
      CourseEnd(s0, s, keys, fork, fn, limit, continueOnErr, count, calls);
    }
  }

  lemma UnderwayAhead(s0: Store, s: Store, keys: seq<Key>, i: nat, fork: ForkName, known: bool, split: Key -> Key,
                      fn: seq<Item> -> Decision, n: int, limit: nat, continueOnErr: bool, count: int,
                      calls: seq<seq<Item>>)
    requires i < |keys| && Underway(s0, s, keys, i, fork, known, split, fn, n, limit, continueOnErr, count, calls)
    ensures keys[i] in s && (known && n != 0 ==> count > 0)
  {
    hide CourseState;
    LoopAhead(s0, s, keys, i, fork, known, split, fn, limit, count, calls);
  }
}
