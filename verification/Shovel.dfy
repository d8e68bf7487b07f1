/** Moving all items of one queue into another (Shovel in buckets.go), for queues without forks. */
module Shovel {
  import opened Items
  import opened ForkSpec
  import opened BucketSpec
  import opened Reopen
  import opened QueueSpec
  import opened TreeSpec
  import opened ReadSpec
  import opened DiskSpec
  import opened ShovelSpec
  import opened BucketSet

  /** Two queues that can be shovelled into each other. */
  ghost predicate Pair(src: Buckets, dst: Buckets)
    reads src, src.Repr, dst, dst.Repr
  {
    && src.Valid() && dst.Valid() && src.Repr !! dst.Repr
    && Persistent(src.store) && Persistent(dst.store)
    && src.split == dst.split && src.forks == [] && dst.forks == []
  }

  /** The fast path: the destination takes over the files of a bucket it does not have. */
  method MoveBucket(src: Buckets, dst: Buckets, key: Key) returns (moved: int)
    requires Pair(src, dst) && key in src.store && key !in dst.store
    requires MAIN in src.store[key].forks && Stamped(src.store[key].forks[MAIN])
    requires src.store[key].forks[MAIN].state.len < TWO_32
    modifies dst.Repr
    ensures Pair(src, dst) && src.store == old(src.store) && dst.store == old(dst.store)[key := src.store[key]]
    ensures src.Repr == old(src.Repr) && dst.Repr == old(dst.Repr)
    ensures moved == |ForkContent(src.store[key], MAIN)|
    ensures Remembered(old(dst.tree), old(dst.trailers), old(dst.store), MAIN) ==>
              Remembered(dst.tree, dst.trailers, dst.store, MAIN)
  {
    hide FilesOk, ForkContent, AllPersisted, BucketOk, Remembered, FileTrailers, Stamped;
    hide Buckets.Valid;
    src.SettledKeys();
    dst.SettledKeys();
    src.SettledForks(key);
    src.ValidRepr();
    dst.ValidRepr();
    src.ValidStore();
    var files := src.FilesNow(key);
    ghost var v := src.store[key];
    FileTellsLength(v, key, files, src.forks, MAIN);
    var lens := FileTrailers(key, files);
    moved := lens[(key, MAIN)];
    dst.Receive(key, files, v);
  }

  /** Loads the buckets with this key in both queues. */
  method LoadBoth(src: Buckets, dst: Buckets, key: Key)
    requires Pair(src, dst) && key in src.store && key in dst.store
    modifies src.Repr, dst.Repr
    ensures Pair(src, dst) && fresh(src.Repr - old(src.Repr)) && fresh(dst.Repr - old(dst.Repr))
    ensures key in src.tree && src.tree[key] != null && key in dst.tree && dst.tree[key] != null
    ensures Reloaded(old(src.store), src.store, key, {}) && Reloaded(old(dst.store), dst.store, key, {})
    ensures Remembered(old(dst.tree), old(dst.trailers), old(dst.store), MAIN) ==>
              Remembered(dst.tree, dst.trailers, dst.store, MAIN)
  {
    hide Buckets.Valid, Remembered, Persistent, Reloaded, Kept;
    ghost var t, r, d := dst.tree, dst.trailers, dst.store;
    src.ValidRepr();
    dst.ValidRepr();
    NoForks();
    src.ForKey(key);
    dst.ForKey(key);
    KeptRemembers(t, r, d, dst.tree, dst.trailers, dst.store, dst.forks, dst.maxOpen, {}, multiset{}, MAIN);
  }

  lemma NoForks()
    ensures ForkSet([]) == {} && Names([]) == {MAIN}
  {
  }

  /** Pops all items of a loaded bucket and pushes them to the bucket with the same key. */
  method Transfer(src: Buckets, dst: Buckets, key: Key, ghost a: Value, ghost b: Value) returns (copied: int)
    requires Pair(src, dst) && key in src.store && key in dst.store && CopyFits(a, b)
    requires key in src.tree && src.tree[key] != null && key in dst.tree && dst.tree[key] != null
    requires ForkContent(src.store[key], MAIN) == ForkContent(a, MAIN)
    requires dst.store[key].items == b.items || dst.store[key].items == []
    modifies src.Repr, dst.Repr
    ensures Pair(src, dst) && fresh(src.Repr - old(src.Repr)) && fresh(dst.Repr - old(dst.Repr))
    ensures OnlyChanged(old(src.store), src.store, key) && OnlyChanged(old(dst.store), dst.store, key)
    ensures ForkContent(dst.store[key], MAIN) == ForkContent(old(dst.store)[key], MAIN) + ForkContent(a, MAIN)
    ensures copied == |ForkContent(a, MAIN)|
    ensures Remembered(old(dst.tree), old(dst.trailers), old(dst.store), MAIN) ==>
              Remembered(dst.tree, dst.trailers, dst.store, MAIN)
  {
    hide Buckets.Valid, ForkContent, BucketOk, Remembered, Smallest, Pushable, CopyFits, Persistent, ReadEffect, Kept;
    ghost var t, r, d := dst.tree, dst.trailers, dst.store;
    src.ValidRepr();
    dst.ValidRepr();
    NoForks();
    ghost var a1, b1 := src.store, dst.store;
    src.StorableAt(key);
    src.SettledForks(key);
    dst.SettledForks(key);
    var fn := (s: seq<Item>) => Decision([], ReadOpPop, false);
    var ok, out := src.ReadLoaded(key, MAX_KEY, MAIN, fn);
    src.SettledKeys();
    ReadSmallest(a1[key], src.store[key], MAIN, MAX_KEY, out, fn(out));
    CopyPushable(a, a1[key], b, b1[key], key, src.split, Names([]), MAX_KEY, out);
    dst.PushRun(key, out);
    dst.SettledKeys();
    PushedContent(b1[key], dst.store[key], out);
    KeptRemembers(t, r, d, dst.tree, dst.trailers, dst.store, dst.forks, dst.maxOpen, {}, multiset(out), MAIN);
    copied := |out|;
  }

  /** The slow path: copies the items of a bucket one by one. */
  method CopyBucket(src: Buckets, dst: Buckets, key: Key) returns (copied: int)
    requires Pair(src, dst) && key in src.store && key in dst.store && CopyFits(src.store[key], dst.store[key])
    modifies src.Repr, dst.Repr
    ensures Pair(src, dst) && fresh(src.Repr - old(src.Repr)) && fresh(dst.Repr - old(dst.Repr))
    ensures OnlyChanged(old(src.store), src.store, key) && OnlyChanged(old(dst.store), dst.store, key)
    ensures At(dst.store, key, MAIN) == At(old(dst.store), key, MAIN) + At(old(src.store), key, MAIN)
    ensures copied == |At(old(src.store), key, MAIN)| && key in dst.store
    ensures Remembered(old(dst.tree), old(dst.trailers), old(dst.store), MAIN) ==>
              Remembered(dst.tree, dst.trailers, dst.store, MAIN)
  {
    hide Pair, ForkContent, Remembered, CopyFits, SameContents;
    ghost var a, b := src.store, dst.store;
    LoadBoth(src, dst, key);
    ReloadedBucket(a, src.store, key, {}, MAIN);
    ReloadedBucket(b, dst.store, key, {}, MAIN);
    ReloadedItems(b, dst.store, key);
    copied := Transfer(src, dst, key, a[key], b[key]);
  }

  /** Moves or copies one bucket. */
  method ShovelBucket(src: Buckets, dst: Buckets, key: Key) returns (n: int)
    requires Pair(src, dst) && key in src.store
    requires key in dst.store ==> CopyFits(src.store[key], dst.store[key])
    requires MAIN in src.store[key].forks && Stamped(src.store[key].forks[MAIN])
    requires src.store[key].forks[MAIN].state.len < TWO_32
    modifies src.Repr, dst.Repr
    ensures Pair(src, dst) && fresh(src.Repr - old(src.Repr)) && fresh(dst.Repr - old(dst.Repr))
    ensures OnlyChanged(old(src.store), src.store, key) && OnlyChanged(old(dst.store), dst.store, key)
    ensures At(dst.store, key, MAIN) == At(old(dst.store), key, MAIN) + At(old(src.store), key, MAIN)
    ensures n == |At(old(src.store), key, MAIN)|
    ensures key in dst.store && (key !in old(dst.store) ==> dst.store[key] == old(src.store)[key])
    ensures Remembered(old(dst.tree), old(dst.trailers), old(dst.store), MAIN) ==>
              Remembered(dst.tree, dst.trailers, dst.store, MAIN)
  {
    hide *;
    ghost var s, d := src.store, dst.store;
    PairParts(src, dst);
    if key !in dst.tree {
      n := MoveBucket(src, dst, key);
      Moved(d, dst.store, s, key);
      AtOf(s, key);
    } else {
      n := CopyBucket(src, dst, key);
    }
  }

  /** The hypotheses on sizes, and the lengths in the files of the source. */
  ghost predicate Shovelable(s: Store, d: Store) {
    && AllStamped(s, MAIN) && Countable(s, MAIN)
    && forall k :: k in s && k in d ==> CopyFits(s[k], d[k])
  }

  /**
   * Moves all items of the source to the destination and returns their number. Both queues have no forks
   * and the same split function.
   */
  method Shovel(src: Buckets, dst: Buckets) returns (ntotalcopied: int)
    requires Pair(src, dst) && Shovelable(src.store, dst.store)
    modifies src.Repr, dst.Repr
    ensures src.Valid() && dst.Valid() && Persistent(dst.store)
    ensures src.store == map[]
    ensures Held(dst.store, MAIN) == Held(old(dst.store), MAIN) + Held(old(src.store), MAIN)
    ensures ntotalcopied == |Held(old(src.store), MAIN)|
    ensures dst.store.Keys == old(dst.store).Keys + old(src.store).Keys
    ensures forall k :: k in dst.store ==>
                          && (k !in old(dst.store) ==> dst.store[k] == old(src.store)[k])
                          && (k !in old(src.store) ==> dst.store[k] == old(dst.store)[k])
    ensures Remembered(old(dst.tree), old(dst.trailers), old(dst.store), MAIN) ==>
              Remembered(dst.tree, dst.trailers, dst.store, MAIN)
  {
    hide *;
    ghost var t, r, s0, d0 := dst.tree, dst.trailers, src.store, dst.store;
    PairParts(src, dst);
    var keys := src.Keys();
    ShovelStart(s0, d0, keys);
    ntotalcopied := 0;
    for i := 0 to |keys|
      invariant Pair(src, dst) && fresh(src.Repr - old(src.Repr)) && fresh(dst.Repr - old(dst.Repr))
      invariant Shovelling(s0, d0, src.store, dst.store, keys, i, ntotalcopied)
      invariant TakenOver(s0, d0, dst.store, keys, i)
      invariant Remembered(t, r, d0, MAIN) ==> Remembered(dst.tree, dst.trailers, dst.store, MAIN)
    {
      ghost var s, d := src.store, dst.store;
      ShovelAt(s0, d0, s, d, keys, i, ntotalcopied);
      PairParts(src, dst);
      ShovelableAt(s0, d0, keys[i]);
      var n := ShovelBucket(src, dst, keys[i]);
      TakeOverStep(s0, d0, d, dst.store, keys, i);
      ShovelStep(s0, d0, s, d, src.store, dst.store, keys, i, ntotalcopied, n);
      ntotalcopied := ntotalcopied + n;
    }
    TakenOverAll(s0, d0, dst.store, keys);
    ShovelEnd(s0, d0, src.store, dst.store, keys, ntotalcopied);
    PairParts(src, dst);
    ClearOne(src, dst);
  }

  lemma ShovelableAt(s: Store, d: Store, k: Key)
    requires Shovelable(s, d) && k in s && MAIN in s[k].forks
    ensures Stamped(s[k].forks[MAIN]) && s[k].forks[MAIN].state.len < TWO_32
    ensures k in d ==> CopyFits(s[k], d[k])
  {
    hide CopyFits;
  }

  method ClearOne(src: Buckets, dst: Buckets)
    requires Pair(src, dst)
    modifies src
    ensures src.Valid() && dst.Valid() && src.store == map[]
    ensures dst.store == old(dst.store) && dst.tree == old(dst.tree) && dst.trailers == old(dst.trailers)
  {
    hide Buckets.Valid, Persistent;
    src.ValidRepr();
    dst.ValidRepr();
    src.Clear();
  }

  lemma AtOf(s: Store, k: Key)
    requires k in s
    ensures At(s, k, MAIN) == ForkContent(s[k], MAIN)
  {
  }

  lemma PairParts(src: Buckets, dst: Buckets)
    requires Pair(src, dst)
    ensures src.Valid() && dst.Valid() && src in src.Repr && dst in dst.Repr && Persistent(dst.store)
    ensures src.tree.Keys == src.store.Keys && dst.tree.Keys == dst.store.Keys
    ensures forall k :: k in src.store ==> MAIN in src.store[k].forks
  {
    hide FilesOk, ValueOk, AllPersisted;
  }
}
