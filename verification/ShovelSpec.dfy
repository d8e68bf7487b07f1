/** Moving all items of one queue into another (Shovel in buckets.go), for queues without forks. */
module ShovelSpec {
  import opened Items
  import opened IndexSpec
  import opened BatchIndex
  import opened ForkSpec
  import opened BucketSpec
  import opened Reopen
  import opened QueueSpec
  import opened TreeSpec
  import opened DiskSpec
  import opened PushSpec
  import opened ReadSpec

  /** A bucket that was moved here is not loaded; its lengths come from the last records of its files. */
  lemma ReceiveSettled(tree: Tree, disk: map<Key, Disk>, store: Store, forks: seq<ForkName>, split: Key -> Key,
                       key: Key, files: Disk, v: Value)
    requires Settled(tree, disk, store, forks, split) && FilesOk(files, v, key, forks)
    requires BucketOk(v, key, split, Names(forks))
    ensures Settled(tree[key := null], disk[key := files], store[key := v], forks, split)
  {
    hide FilesOk, BucketOk;
  }

  lemma ReceiveRemembered(tree: Tree, trailers: Trailers, store: Store, key: Key, files: Disk, v: Value,
                          forks: seq<ForkName>, f: ForkName)
    requires FilesOk(files, v, key, forks) && f in Names(forks)
    requires Stamped(v.forks[f]) && v.forks[f].state.len < TWO_32
    requires Remembered(tree, trailers, store, f)
    ensures Remembered(tree[key := null], trailers + FileTrailers(key, files), store[key := v], f)
  {
    hide ForkContent, DiskOk;
    FileTellsLength(v, key, files, forks, f);
  }

  /** A bucket can take whatever the main queue of another bucket holds, in any order. */
  ghost predicate CopyFits(a: Value, b: Value) {
    && |ForkContent(a, MAIN)| <= MAX_KEY
    && forall o: seq<Item> {:trigger multiset(o)} ::
         multiset(o) == ForkContent(a, MAIN) ==> Representable(b.items + o)
  }

  lemma ReadSmallest(a: Value, b: Value, fork: ForkName, n: nat, out: seq<Item>, d: Decision)
    requires ReadEffect(a, b, fork, n, out, d)
    ensures Smallest(ForkContent(a, fork), n, out)
  {
  }

  lemma PushedContent(a: Value, b: Value, batch: seq<Item>)
    requires Pushed(a, b, batch, a.forks.Keys) && MAIN in a.forks
    ensures ForkContent(b, MAIN) == ForkContent(a, MAIN) + multiset(batch)
  {
    hide ForkContent;
  }

  lemma ReloadedItems(s: Store, t: Store, key: Key)
    requires key in s && Reloaded(s, t, key, {})
    ensures t[key].items == s[key].items || t[key].items == []
  {
  }

  lemma AllRead(a: Value, n: nat, out: seq<Item>)
    requires Smallest(ForkContent(a, MAIN), n, out) && |ForkContent(a, MAIN)| <= n
    ensures multiset(out) == ForkContent(a, MAIN) && Sorted(out)
  {
    SmallestAll(ForkContent(a, MAIN), n, out);
  }

  /** What was read from one bucket can be stored in the bucket with the same key. */
  lemma CopyPushable(a: Value, a1: Value, b: Value, b1: Value, key: Key, split: Key -> Key, names: set<ForkName>,
                     n: nat, out: seq<Item>)
    requires BucketOk(a1, key, split, names) && Storable(a1.items) && CopyFits(a, b) && n == MAX_KEY
    requires ForkContent(a1, MAIN) == ForkContent(a, MAIN) && (b1.items == b.items || b1.items == [])
    requires Smallest(ForkContent(a1, MAIN), n, out)
    ensures Pushable(b1.items, out, key) && multiset(out) == ForkContent(a, MAIN)
    ensures forall i :: 0 <= i < |out| ==> split(out[i].key) == key
  {
    hide ForkContent, Smallest, ForkOk, Representable;
    AllRead(a1, n, out);
    forall i | 0 <= i < |out|
      ensures split(out[i].key) == key && key <= out[i].key && |out[i].blob| <= MAX_BLOB
    {
      assert out[i] in multiset(out);
      PlacedContent(a1, key, split, names, MAIN, out[i]);
      FromLog(a1, key, split, names, MAIN, out[i]);
      var j :| 0 <= j < |a1.items| && a1.items[j] == out[i];
    }
    RepresentableParts(b.items, out);
    RepresentableParts(b1.items, out);
  }

  lemma FromLog(v: Value, key: Key, split: Key -> Key, names: set<ForkName>, f: ForkName, x: Item)
    requires BucketOk(v, key, split, names) && x in ForkContent(v, f)
    ensures x in v.items
  {
    ContentOfFork(v, key, f);
    ContentFromLog(v.items, v.forks[f].state.m, x);
  }

  /** The buckets from position i on are as they were, on both sides. */
  ghost predicate Untouched(s0: Store, d0: Store, s: Store, d: Store, keys: seq<Key>, i: nat) {
    && (forall j :: i <= j < |keys| ==> keys[j] in s0 && keys[j] in s && s[keys[j]] == s0[keys[j]])
    && (forall j :: i <= j < |keys| ==> (keys[j] in d <==> keys[j] in d0))
    && (forall j :: i <= j < |keys| && keys[j] in d0 ==> d[keys[j]] == d0[keys[j]])
  }

  /** The first i buckets of the source were moved or copied. */
  ghost predicate Shovelling(s0: Store, d0: Store, s: Store, d: Store, keys: seq<Key>, i: nat, n: int) {
    && i <= |keys| && Ascending(keys) && (forall k :: k in s0 <==> k in keys)
    && Untouched(s0, d0, s, d, keys, i)
    && Held(d, MAIN) == Held(d0, MAIN) + Bags(s0, keys[..i], MAIN)
    && n == |Bags(s0, keys[..i], MAIN)|
  }

  /** A bucket the destination did not have is taken over as it is; buckets that only the destination has stay. */
  ghost predicate TakenOver(s0: Store, d0: Store, d: Store, keys: seq<Key>, i: nat)
    requires i <= |keys|
  {
    && (forall k :: k in d <==> k in d0 || k in keys[..i])
    && (forall k :: k in keys[..i] && k !in d0 ==> k in s0 && d[k] == s0[k])
    && (forall k :: k in d0 && k !in keys[..i] ==> d[k] == d0[k])
  }

  lemma TakeOverStep(s0: Store, d0: Store, d: Store, e: Store, keys: seq<Key>, i: nat)
    requires i < |keys| && Ascending(keys) && TakenOver(s0, d0, d, keys, i) && OnlyChanged(d, e, keys[i])
    requires keys[i] in e && keys[i] in s0 && (keys[i] !in d0 ==> e[keys[i]] == s0[keys[i]])
    ensures TakenOver(s0, d0, e, keys, i + 1)
  {
    assert keys[..i + 1] == keys[..i] + [keys[i]];
    assert keys[i] !in keys[..i];
  }

  lemma TakenOverAll(s0: Store, d0: Store, d: Store, keys: seq<Key>)
    requires (forall k :: k in s0 <==> k in keys) && TakenOver(s0, d0, d, keys, |keys|)
    ensures d.Keys == d0.Keys + s0.Keys
    ensures forall k :: k in d ==> (k !in d0 ==> d[k] == s0[k]) && (k !in s0 ==> d[k] == d0[k])
  {
    assert keys[..|keys|] == keys;
  }

  lemma ShovelStart(s: Store, d: Store, keys: seq<Key>)
    requires Ascending(keys) && forall k :: k in s <==> k in keys
    ensures Shovelling(s, d, s, d, keys, 0, 0) && TakenOver(s, d, d, keys, 0)
  {
    hide Held, At;
  }

  lemma UntouchedStep(s0: Store, d0: Store, s: Store, d: Store, t: Store, e: Store, keys: seq<Key>, i: nat)
    requires i < |keys| && Ascending(keys) && Untouched(s0, d0, s, d, keys, i)
    requires OnlyChanged(s, t, keys[i]) && OnlyChanged(d, e, keys[i])
    ensures Untouched(s0, d0, t, e, keys, i + 1)
  {
    forall j | i < j < |keys|
      ensures keys[j] != keys[i]
    {
    }
  }

  lemma ShovelStep(s0: Store, d0: Store, s: Store, d: Store, t: Store, e: Store, keys: seq<Key>, i: nat, n: int, m: int)
    requires i < |keys| && Shovelling(s0, d0, s, d, keys, i, n)
    requires OnlyChanged(s, t, keys[i]) && OnlyChanged(d, e, keys[i])
    requires At(e, keys[i], MAIN) == At(d, keys[i], MAIN) + At(s, keys[i], MAIN) && m == |At(s, keys[i], MAIN)|
    ensures Shovelling(s0, d0, t, e, keys, i + 1, n + m)
  {
    UntouchedStep(s0, d0, s, d, t, e, keys, i);
    SameBucket(s0, s, keys[i]);
    hide Held, At, Bags, Untouched, OnlyChanged, Ascending;
    BagsNext(s0, keys, i, MAIN);
    GrownHeld(d, e, keys[i], At(s, keys[i], MAIN));
  }

  lemma SameBucket(s: Store, t: Store, k: Key)
    requires k in s && k in t && t[k] == s[k]
    ensures At(t, k, MAIN) == At(s, k, MAIN)
  {
  }

  lemma GrownHeld(d: Store, e: Store, k: Key, more: multiset<Item>)
    requires OnlyChanged(d, e, k) && At(e, k, MAIN) == At(d, k, MAIN) + more
    ensures Held(e, MAIN) == Held(d, MAIN) + more
  {
    hide Held, ForkContent;
    assert SameElsewhere(d, e, k);
    HeldElsewhere(d, e, k, MAIN);
    SameRest(Held(e, MAIN), Held(d, MAIN) + more, At(d, k, MAIN));
  }

  lemma ShovelEnd(s0: Store, d0: Store, s: Store, d: Store, keys: seq<Key>, n: int)
    requires Shovelling(s0, d0, s, d, keys, |keys|, n)
    ensures Held(d, MAIN) == Held(d0, MAIN) + Held(s0, MAIN) && n == |Held(s0, MAIN)|
  {
    hide Held, At;
    assert keys[..|keys|] == keys;
    BagsHeld(s0, keys, MAIN);
  }

  /** What the bucket at position i looks like, on both sides. */
  lemma ShovelAt(s0: Store, d0: Store, s: Store, d: Store, keys: seq<Key>, i: nat, n: int)
    requires i < |keys| && Shovelling(s0, d0, s, d, keys, i, n)
    ensures Ascending(keys) && keys[i] in s0 && keys[i] in s && s[keys[i]] == s0[keys[i]]
    ensures keys[i] in d <==> keys[i] in d0
    ensures keys[i] in d ==> d[keys[i]] == d0[keys[i]]
  {
    hide Held, At;
  }

  lemma Moved(d: Store, e: Store, s: Store, k: Key)
    requires k !in d && k in s && e == d[k := s[k]]
    ensures OnlyChanged(s, s, k) && OnlyChanged(d, e, k)
    ensures At(e, k, MAIN) == At(d, k, MAIN) + At(s, k, MAIN)
  {
    hide ForkContent;
  }
}
