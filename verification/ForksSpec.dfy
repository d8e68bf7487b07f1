/** Starting and removing forks over all buckets: Fork and RemoveFork in buckets.go. */
module ForksSpec {
  import opened Items
  import opened Vlog
  import opened IndexSpec
  import opened Contents
  import opened BatchIndex
  import opened ForkSpec
  import opened BucketSpec
  import opened BucketStore
  import opened Spots
  import opened Reopen
  import opened QueueSpec
  import opened TreeSpec
  import opened ReadSpec

  // ---------- While the list of forks changes ----------

  ghost predicate SettledAt(tree: Tree, disk: map<Key, Disk>, store: Store, forks: seq<ForkName>, split: Key -> Key,
                            k: Key)
    requires k in tree && k in store
  {
    && BucketOk(store[k], k, split, Names(forks))
    && (tree[k] == null ==> k in disk && FilesOk(disk[k], store[k], k, forks))
  }

  /** The first i buckets know the new list of forks, the others still have the old one. */
  ghost predicate Between(tree: Tree, disk: map<Key, Disk>, store: Store, keys: seq<Key>, i: nat,
                          was: seq<ForkName>, now: seq<ForkName>, split: Key -> Key) {
    && tree.Keys == store.Keys && disk.Keys <= tree.Keys && MAIN !in was && MAIN !in now
    && Ascending(keys) && (forall k :: k in tree ==> k in keys)
    && forall j :: 0 <= j < |keys| && keys[j] in tree && keys[j] in store ==>
         SettledAt(tree, disk, store, if j < i then now else was, split, keys[j])
  }

  lemma BetweenStart(tree: Tree, disk: map<Key, Disk>, store: Store, keys: seq<Key>, was: seq<ForkName>,
                     now: seq<ForkName>, split: Key -> Key)
    requires Settled(tree, disk, store, was, split) && MAIN !in now
    requires Ascending(keys) && forall k :: k in tree ==> k in keys
    ensures Between(tree, disk, store, keys, 0, was, now, split)
  {
    hide BucketOk, FilesOk;
  }

  lemma BetweenEnd(tree: Tree, disk: map<Key, Disk>, store: Store, keys: seq<Key>, was: seq<ForkName>,
                   now: seq<ForkName>, split: Key -> Key)
    requires Between(tree, disk, store, keys, |keys|, was, now, split)
    ensures Settled(tree, disk, store, now, split)
  {
    hide BucketOk, FilesOk;
    forall k | k in tree
      ensures SettledAt(tree, disk, store, now, split, k)
    {
      var j :| 0 <= j < |keys| && keys[j] == k;
    }
  }

  ghost predicate SameBut<T>(a: map<Key, T>, b: map<Key, T>, k: Key) {
    forall j :: j != k ==> (j in b <==> j in a) && (j in a ==> b[j] == a[j])
  }

  lemma BetweenStep(t: Tree, d: map<Key, Disk>, s: Store, tree: Tree, disk: map<Key, Disk>, store: Store,
                    keys: seq<Key>, i: nat, was: seq<ForkName>, now: seq<ForkName>, split: Key -> Key)
    requires i < |keys| && Between(t, d, s, keys, i, was, now, split)
    requires SameBut(t, tree, keys[i]) && SameBut(d, disk, keys[i]) && SameBut(s, store, keys[i])
    requires keys[i] in tree <==> keys[i] in store
    requires keys[i] in disk ==> keys[i] in tree
    requires keys[i] in tree && keys[i] in store ==> SettledAt(tree, disk, store, now, split, keys[i])
    ensures Between(tree, disk, store, keys, i + 1, was, now, split)
  {
    hide BucketOk, FilesOk;
    forall k | k in disk
      ensures k in tree
    {
      assert k != keys[i] ==> k in d;
    }
    forall j | 0 <= j < |keys| && keys[j] in tree && keys[j] in store
      ensures SettledAt(tree, disk, store, if j < i + 1 then now else was, split, keys[j])
    {
      if j != i {
        assert keys[j] != keys[i];
        assert SettledAt(t, d, s, if j < i then now else was, split, keys[j]);
      }
    }
    forall k
      ensures k in tree <==> k in store
      ensures k in tree ==> k in keys
    {
      assert k != keys[i] ==> (k in tree <==> k in t) && (k in store <==> k in s);
    }
  }

  lemma BetweenAt(tree: Tree, disk: map<Key, Disk>, store: Store, keys: seq<Key>, i: nat, was: seq<ForkName>,
                  now: seq<ForkName>, split: Key -> Key)
    requires i < |keys| && Between(tree, disk, store, keys, i, was, now, split) && keys[i] in store
    ensures keys[i] in tree && SettledAt(tree, disk, store, was, split, keys[i])
  {
    hide BucketOk, FilesOk;
  }

  lemma BetweenParts(tree: Tree, disk: map<Key, Disk>, store: Store, keys: seq<Key>, i: nat, was: seq<ForkName>,
                     now: seq<ForkName>, split: Key -> Key)
    requires Between(tree, disk, store, keys, i, was, now, split)
    ensures tree.Keys == store.Keys && disk.Keys <= tree.Keys
  {
  }

  lemma OnlyChangedBut(a: Store, b: Store, k: Key)
    requires OnlyChanged(a, b, k)
    ensures SameBut(a, b, k)
  {
  }

  lemma MainKnown(forks: seq<ForkName>, dst: ForkName)
    requires dst !in Names(forks)
    ensures dst != MAIN && MAIN in Names(forks) && (MAIN !in forks ==> MAIN !in forks + [dst])
  {
  }

  // ---------- Starting a fork ----------

  /** In one bucket, the new fork holds what its source holds. */
  ghost predicate ForkedTo(a: Value, b: Value, src: ForkName, dst: ForkName) {
    && src in a.forks && dst in b.forks
    && b == Value(a.items, a.forks[dst := b.forks[dst]])
    && b.forks[dst].state == a.forks[src].state
  }

  lemma ForkedContent(a: Value, b: Value, src: ForkName, dst: ForkName)
    requires ForkedTo(a, b, src, dst)
    ensures ForkContent(b, dst) == ForkContent(a, src)
    ensures forall f :: f != dst ==> ForkContent(b, f) == ForkContent(a, f)
  {
    hide Content;
  }

  /** A fork made in a loaded bucket gets a compacted file. */
  lemma ForkedLoaded(a: Value, b: Value, key: Key, src: ForkName, dst: ForkName)
    requires ValueOk(a, key) && ForkEffect(a, b, src, dst) && AllPersisted(a)
    ensures ForkedTo(a, b, src, dst)
    ensures AllPersisted(b) <==> a.forks[src].state.m != map[] || a.items == []
  {
    hide ValueOk, Persisted, Compact, Flatten;
    ForkPersists(a, b, key, src, dst);
    assert AllPersisted(b) <==> Persisted(b.items, b.forks[dst]);
  }

  lemma MadeInMemory(a: Value, b: Value, key: Key, src: ForkName, dst: ForkName)
    requires ValueOk(a, key) && ForkEffect(a, b, src, dst)
    ensures ForkedTo(a, b, src, dst)
    ensures AllPersisted(a) ==> (AllPersisted(b) <==> a.forks[src].state.m != map[] || a.items == [])
  {
    hide ValueOk, AllPersisted, Compact, Flatten;
    if AllPersisted(a) {
      ForkedLoaded(a, b, key, src, dst);
    }
  }

  /** A fork made in a bucket that is not loaded gets a copy of the file. */
  lemma ForkedOffline(a: Value, b: Value, key: Key, files: Disk, forks: seq<ForkName>, src: ForkName, dst: ForkName)
    requires FilesOk(files, a, key, forks) && src in Names(forks) && dst !in Names(forks)
    requires b == Value(a.items, a.forks[dst := a.forks[src]])
    ensures ForkedTo(a, b, src, dst) && ValueOk(b, key) && (AllPersisted(a) ==> AllPersisted(b))
    ensures FilesOk(Disk(files.log, files.files[dst := files.files[src]]), b, key, forks + [dst])
  {
    hide Persisted, ForkOk, Representable, IsImage;
    assert Names(forks + [dst]) == Names(forks) + {dst};
    assert ForkSet(forks + [dst]) == ForkSet(forks) + {dst};
    var now := Disk(files.log, files.files[dst := files.files[src]]);
    forall f | f in b.forks
      ensures b.forks[f].file == FileOf(now, f)
    {
      assert f != dst ==> a.forks[f].file == FileOf(files, f);
      assert a.forks[src].file == FileOf(files, src);
    }
  }

  lemma ForkedOk(a: Value, b: Value, key: Key, split: Key -> Key, forks: seq<ForkName>, src: ForkName, dst: ForkName)
    requires BucketOk(a, key, split, Names(forks)) && ValueOk(b, key) && ForkedTo(a, b, src, dst)
    ensures BucketOk(b, key, split, Names(forks + [dst]))
  {
    hide ValueOk;
    assert Names(forks + [dst]) == Names(forks) + {dst};
  }

  /** Whether a reload of the bucket keeps the new fork: its source was not drained, or the files were copied. */
  ghost predicate ForkLasts(tree: Tree, a: Value, k: Key, src: ForkName)
    requires k in tree && src in a.forks
  {
    tree[k] == null || a.forks[src].state.m != map[] || a.items == []
  }

  /** The first i buckets have the new fork, the others are untouched. */
  ghost predicate Forking(tree: Tree, s0: Store, s: Store, keys: seq<Key>, i: nat, src: ForkName, dst: ForkName) {
    && s.Keys == s0.Keys && Ascending(keys) && (forall k :: k in s0 <==> k in keys) && tree.Keys == s0.Keys
    && i <= |keys| && (forall k :: k in s0 ==> src in s0[k].forks)
    && (forall j :: i <= j < |keys| ==> s[keys[j]] == s0[keys[j]])
    && (forall j :: 0 <= j < i ==> ForkedTo(s0[keys[j]], s[keys[j]], src, dst))
    && (Persistent(s0) ==>
          forall j :: 0 <= j < i ==> (AllPersisted(s[keys[j]]) <==> ForkLasts(tree, s0[keys[j]], keys[j], src)))
  }

  lemma ForkingStart(tree: Tree, s: Store, keys: seq<Key>, src: ForkName, dst: ForkName)
    requires Ascending(keys) && (forall k :: k in s <==> k in keys) && tree.Keys == s.Keys
    requires forall k :: k in s ==> src in s[k].forks
    ensures Forking(tree, s, s, keys, 0, src, dst)
  {
    hide AllPersisted, ForkLasts;
  }

  lemma ForkingStep(tree: Tree, s0: Store, s: Store, t: Store, keys: seq<Key>, i: nat, src: ForkName, dst: ForkName)
    requires i < |keys| && Forking(tree, s0, s, keys, i, src, dst) && keys[i] in s && OnlyChanged(s, t, keys[i])
    requires ForkedTo(s[keys[i]], t[keys[i]], src, dst)
    requires AllPersisted(s[keys[i]]) ==> (AllPersisted(t[keys[i]]) <==> ForkLasts(tree, s[keys[i]], keys[i], src))
    ensures Forking(tree, s0, t, keys, i + 1, src, dst)
  {
    hide AllPersisted, ForkLasts, ForkedTo;
    assert s[keys[i]] == s0[keys[i]];
    forall j | 0 <= j < |keys| && j != i
      ensures keys[j] in s0 && keys[j] in s && t[keys[j]] == s[keys[j]]
    {
      assert keys[j] != keys[i];
    }
    forall j | 0 <= j < i + 1
      ensures ForkedTo(s0[keys[j]], t[keys[j]], src, dst)
      ensures Persistent(s0) ==> (AllPersisted(t[keys[j]]) <==> ForkLasts(tree, s0[keys[j]], keys[j], src))
    {
      if j < i {
        assert ForkedTo(s0[keys[j]], s[keys[j]], src, dst);
      }
    }
  }

  /** What became of the buckets, once all have the new fork. */
  lemma ForkingAll(tree: Tree, s0: Store, s: Store, keys: seq<Key>, src: ForkName, dst: ForkName)
    requires Forking(tree, s0, s, keys, |keys|, src, dst)
    ensures forall k :: k in s0 ==> ForkedTo(s0[k], s[k], src, dst)
    ensures Persistent(s0) ==>
              (Persistent(s) <==> forall k :: k in s0 ==> ForkLasts(tree, s0[k], k, src))
  {
    hide AllPersisted, ForkLasts, ForkedTo;
    forall k | k in s0
      ensures ForkedTo(s0[k], s[k], src, dst)
      ensures Persistent(s0) ==> (AllPersisted(s[k]) <==> ForkLasts(tree, s0[k], k, src))
    {
      var j :| 0 <= j < |keys| && keys[j] == k;
    }
  }

  lemma ForkedStore(s0: Store, s: Store, src: ForkName, dst: ForkName)
    requires s.Keys == s0.Keys && forall k :: k in s0 ==> ForkedTo(s0[k], s[k], src, dst)
    ensures forall k :: k in s0 ==> s[k].items == s0[k].items
    ensures forall k, f :: k in s0 && f in s[k].forks && f != dst ==>
              f in s0[k].forks && s[k].forks[f] == s0[k].forks[f]
    ensures AllOnce(s0, src) ==> AllOnce(s, dst)
  {
    hide Once;
    forall k | k in s0
      ensures AllOnce(s0, src) ==> OnceIn(s[k], dst)
    {
      assert ForkedTo(s0[k], s[k], src, dst);
    }
  }

  /** The new fork holds what its source held, and nothing else changes. */
  lemma ForkedHeld(s0: Store, s: Store, keys: seq<Key>, src: ForkName, dst: ForkName)
    requires s.Keys == s0.Keys && Ascending(keys) && (forall k :: k in s0 <==> k in keys)
    requires forall k :: k in s0 ==> ForkedTo(s0[k], s[k], src, dst)
    ensures Held(s, dst) == Held(s0, src)
    ensures forall f :: f != dst ==> Held(s, f) == Held(s0, f)
    ensures forall k, f :: k in s0 && f != dst ==> ForkContent(s[k], f) == ForkContent(s0[k], f)
    ensures forall k :: k in s0 ==> ForkContent(s[k], dst) == ForkContent(s0[k], src)
  {
    hide ForkContent, Held, ForkedTo;
    forall k | k in s0
      ensures ForkContent(s[k], dst) == ForkContent(s0[k], src)
      ensures forall f :: f != dst ==> ForkContent(s[k], f) == ForkContent(s0[k], f)
    {
      ForkedContent(s0[k], s[k], src, dst);
    }
    BagsHeld(s, keys, dst);
    BagsHeld(s0, keys, src);
    BagsSame(s, s0, keys, dst, src);
    forall f | f != dst
      ensures Held(s, f) == Held(s0, f)
    {
      BagsHeld(s, keys, f);
      BagsHeld(s0, keys, f);
      BagsSame(s, s0, keys, f, f);
    }
  }

  lemma ForkKept(tree: Tree, trailers: Trailers, s0: Store, s: Store, forks: seq<ForkName>, dst: ForkName, maxOpen: int)
    requires s.Keys == s0.Keys && dst !in Names(forks) && forall k :: k in s0 ==> s[k].items == s0[k].items
    requires forall k, f :: k in s0 && f != dst ==> ForkContent(s[k], f) == ForkContent(s0[k], f)
    requires forall k, f :: k in s0 && f in s[k].forks && f != dst ==>
               f in s0[k].forks && s[k].forks[f] == s0[k].forks[f]
    ensures Kept(tree, trailers, s0, tree, trailers, s, forks, maxOpen, {}, multiset{})
  {
    hide ForkContent, Stamped, Once;
  }

  /** What starting a fork achieves. */
  ghost predicate ForkResult(tree: Tree, s0: Store, s: Store, src: ForkName, dst: ForkName) {
    && s.Keys == s0.Keys && s0.Keys <= tree.Keys && (forall k :: k in s0 ==> src in s0[k].forks)
    && Held(s, dst) == Held(s0, src)
    && (forall f :: f != dst ==> Held(s, f) == Held(s0, f))
    && (forall k :: k in s0 ==> ForkContent(s[k], dst) == ForkContent(s0[k], src))
    && (AllOnce(s0, src) ==> AllOnce(s, dst))
    && (Persistent(s0) ==> (Persistent(s) <==> forall k :: k in s0 ==> ForkLasts(tree, s0[k], k, src)))
  }

  lemma NoForksToStart(tree: Tree, s: Store, src: ForkName, dst: ForkName)
    requires s == map[]
    ensures ForkResult(tree, s, s, src, dst)
  {
  }

  lemma ForkFinished(tree: Tree, trailers: Trailers, s0: Store, s: Store, keys: seq<Key>, src: ForkName, dst: ForkName,
                     forks: seq<ForkName>, maxOpen: int)
    requires Forking(tree, s0, s, keys, |keys|, src, dst) && dst !in Names(forks)
    ensures ForkResult(tree, s0, s, src, dst)
    ensures Kept(tree, trailers, s0, tree, trailers, s, forks, maxOpen, {}, multiset{})
  {
    hide AllPersisted, ForkLasts, ForkContent, Held, ForkedTo, AllOnce;
    ForkingAll(tree, s0, s, keys, src, dst);
    ForkedStore(s0, s, src, dst);
    ForkedHeld(s0, s, keys, src, dst);
    ForkKept(tree, trailers, s0, s, forks, dst, maxOpen);
  }

  lemma AllLoadedRemembered(tree: Tree, trailers: Trailers, s: Store, f: ForkName)
    requires forall k :: k in tree ==> tree[k] != null
    ensures Remembered(tree, trailers, s, f)
  {
  }

  /**
   * The length of a new fork. What is remembered of it can only be left over from an earlier fork of that
   * name, and has to be right by chance; buckets that were not loaded are missed if their source holds items.
   */
  lemma NewForkLengths(tree: Tree, trailers: Trailers, s0: Store, s: Store, src: ForkName, dst: ForkName)
    requires ForkResult(tree, s0, s, src, dst)
    ensures Right(tree, trailers, s, dst)
            <==> forall k :: k in s0 && tree[k] == null && (k, dst) in trailers ==>
                   trailers[(k, dst)] == |ForkContent(s0[k], src)|
    ensures NothingMissed(tree, trailers, s, dst)
            <==> forall k :: k in s0 && tree[k] == null && (k, dst) !in trailers ==>
                   ForkContent(s0[k], src) == multiset{}
  {
    hide ForkContent, Held, AllOnce, Persistent, ForkLasts;
  }

  // ---------- Removing a fork ----------

  function Without(forks: seq<ForkName>, fork: ForkName): seq<ForkName> {
    if forks == [] then []
    else (if forks[0] == fork then [] else [forks[0]]) + Without(forks[1..], fork)
  }

  lemma {:induction false} WithoutSet(forks: seq<ForkName>, fork: ForkName)
    ensures forall f :: f in Without(forks, fork) <==> f in forks && f != fork
    ensures fork !in forks ==> Without(forks, fork) == forks
  {
    if forks != [] {
      WithoutSet(forks[1..], fork);
      assert forks == [forks[0]] + forks[1..];
    }
  }

  lemma WithoutNames(forks: seq<ForkName>, fork: ForkName)
    requires fork != MAIN
    ensures Names(Without(forks, fork)) == Names(forks) - {fork}
    ensures ForkSet(Without(forks, fork)) == ForkSet(forks) - {fork}
    ensures MAIN !in forks ==> MAIN !in Without(forks, fork)
    ensures fork !in forks ==> Without(forks, fork) == forks
  {
    WithoutSet(forks, fork);
  }

  ghost function Unforked(v: Value, fork: ForkName): Value {
    Value(v.items, v.forks - {fork})
  }

  lemma UnforkedContent(v: Value, fork: ForkName)
    ensures ForkContent(Unforked(v, fork), fork) == multiset{}
    ensures forall f :: f != fork ==> ForkContent(Unforked(v, fork), f) == ForkContent(v, f)
    ensures AllPersisted(v) ==> AllPersisted(Unforked(v, fork))
  {
    hide Content, Persisted;
  }

  lemma UnforkedOk(v: Value, key: Key, split: Key -> Key, was: seq<ForkName>, fork: ForkName)
    requires BucketOk(v, key, split, Names(was)) && fork != MAIN
    ensures BucketOk(Unforked(v, fork), key, split, Names(Without(was, fork)))
  {
    hide ForkOk, Representable;
    WithoutNames(was, fork);
  }

  lemma UnforkedOffline(v: Value, key: Key, files: Disk, was: seq<ForkName>, fork: ForkName)
    requires FilesOk(files, v, key, was) && fork != MAIN
    ensures FilesOk(Disk(files.log, files.files - {fork}), Unforked(v, fork), key, Without(was, fork))
  {
    hide ForkOk, Representable, IsImage;
    WithoutNames(was, fork);
    var now := Disk(files.log, files.files - {fork});
    forall f | f in Unforked(v, fork).forks
      ensures v.forks[f].file == FileOf(now, f)
    {
      assert v.forks[f].file == FileOf(files, f);
    }
  }

  /** The first i buckets have forgotten the fork, and may be gone if no other fork has items in them. */
  ghost predicate Unforking(s0: Store, s: Store, keys: seq<Key>, i: nat, fork: ForkName) {
    && s.Keys <= s0.Keys && Ascending(keys) && (forall k :: k in s0 <==> k in keys) && i <= |keys|
    && (forall j :: i <= j < |keys| ==> keys[j] in s && s[keys[j]] == s0[keys[j]])
    && (forall j :: 0 <= j < i ==>
          if keys[j] in s then s[keys[j]] == Unforked(s0[keys[j]], fork)
          else forall f :: f != fork ==> ForkContent(s0[keys[j]], f) == multiset{})
  }

  lemma UnforkingStart(s: Store, keys: seq<Key>, fork: ForkName)
    requires Ascending(keys) && (forall k :: k in s <==> k in keys)
    ensures Unforking(s, s, keys, 0, fork)
  {
  }

  lemma UnforkStart(tree: Tree, disk: map<Key, Disk>, store: Store, keys: seq<Key>, was: seq<ForkName>,
                    fork: ForkName, split: Key -> Key)
    requires Settled(tree, disk, store, was, split) && fork != MAIN
    requires Ascending(keys) && forall k :: k in store <==> k in keys
    ensures Between(tree, disk, store, keys, 0, was, Without(was, fork), split)
  {
    hide BucketOk, FilesOk, Between;
    WithoutNames(was, fork);
    BetweenStart(tree, disk, store, keys, was, Without(was, fork), split);
  }

  lemma UnforkingAt(s0: Store, s: Store, keys: seq<Key>, i: nat, fork: ForkName)
    requires i < |keys| && Unforking(s0, s, keys, i, fork)
    ensures keys[i] in s
  {
  }

  lemma UnforkingStep(s0: Store, s: Store, t: Store, keys: seq<Key>, i: nat, fork: ForkName)
    requires i < |keys| && Unforking(s0, s, keys, i, fork) && SameBut(s, t, keys[i])
    requires if keys[i] in t then t[keys[i]] == Unforked(s[keys[i]], fork)
             else forall f :: f != fork ==> ForkContent(s[keys[i]], f) == multiset{}
    ensures Unforking(s0, t, keys, i + 1, fork)
  {
    hide ForkContent;
    assert keys[i] in s && s[keys[i]] == s0[keys[i]];
    forall j | 0 <= j < |keys| && j != i
      ensures keys[j] in t <==> keys[j] in s
      ensures keys[j] in s ==> t[keys[j]] == s[keys[j]]
    {
      assert keys[j] != keys[i];
    }
    forall k | k in t
      ensures k in s0
    {
      assert k != keys[i] ==> k in s;
    }
  }

  /** Some other fork has items in the bucket. */
  ghost predicate HasOthers(v: Value, fork: ForkName) {
    exists f :: f != fork && ForkContent(v, f) != multiset{}
  }

  lemma UnforkedOthers(v: Value, fork: ForkName)
    ensures HasOthers(v, fork)
            <==> exists f :: f in Unforked(v, fork).forks && ForkContent(Unforked(v, fork), f) != multiset{}
  {
    hide Content;
    UnforkedContent(v, fork);
  }

  /** Of the first i buckets, those that were loaded stay only if another fork has items in them. */
  ghost predicate Swept(t0: Tree, s0: Store, t: Tree, s: Store, keys: seq<Key>, i: nat, fork: ForkName) {
    && (forall j :: 0 <= j < |keys| ==> keys[j] in s0)
    && (forall j :: 0 <= j < i && j < |keys| && keys[j] in t0 && t0[keys[j]] != null && keys[j] in s ==>
          HasOthers(s0[keys[j]], fork))
    && (forall j :: i <= j < |keys| ==>
          (keys[j] in t <==> keys[j] in t0) && (keys[j] in t ==> t[keys[j]] == t0[keys[j]]))
  }

  lemma SweptStart(t: Tree, s: Store, keys: seq<Key>, fork: ForkName)
    requires forall k :: k in s <==> k in keys
    ensures Swept(t, s, t, s, keys, 0, fork)
  {
  }

  lemma SweptStep(t0: Tree, s0: Store, t: Tree, s: Store, t': Tree, s': Store, keys: seq<Key>, i: nat, fork: ForkName)
    requires i < |keys| && Ascending(keys) && Swept(t0, s0, t, s, keys, i, fork) && Unforking(s0, s, keys, i, fork)
    requires SameBut(t, t', keys[i]) && SameBut(s, s', keys[i]) && keys[i] in s && keys[i] in t
    requires t[keys[i]] != null && keys[i] in s' ==> HasOthers(s[keys[i]], fork)
    ensures Swept(t0, s0, t', s', keys, i + 1, fork)
  {
    hide HasOthers, ForkContent, Unforked;
    forall j | 0 <= j < |keys| && j != i
      ensures keys[j] != keys[i]
    {
    }
  }

  /** A bucket that was loaded is gone if and only if no other fork has items in it. */
  lemma SweptEnd(t0: Tree, s0: Store, t: Tree, s: Store, keys: seq<Key>, fork: ForkName)
    requires Swept(t0, s0, t, s, keys, |keys|, fork) && Unforking(s0, s, keys, |keys|, fork)
    ensures forall k :: k in s0 && k in t0 && t0[k] != null ==> (k in s <==> HasOthers(s0[k], fork))
  {
    hide ForkContent, Unforked;
    forall k | k in s0 && k in t0 && t0[k] != null
      ensures k in s <==> HasOthers(s0[k], fork)
    {
      var j :| 0 <= j < |keys| && keys[j] == k;
    }
  }

  lemma EmptyBags(s: Store, keys: seq<Key>, fork: ForkName)
    requires forall k :: k in keys ==> At(s, k, fork) == multiset{}
    ensures Bags(s, keys, fork) == multiset{}
  {
  }

  /** Removing a fork empties it and leaves all others as they are. */
  lemma UnforkingEnd(s0: Store, s: Store, keys: seq<Key>, fork: ForkName)
    requires Unforking(s0, s, keys, |keys|, fork)
    ensures Held(s, fork) == multiset{}
    ensures forall f :: f != fork ==> Held(s, f) == Held(s0, f)
    ensures Persistent(s0) ==> Persistent(s)
  {
    hide AllPersisted, ForkContent, Held, Unforked;
    forall k | k in keys
      ensures At(s, k, fork) == multiset{} && forall f :: f != fork ==> At(s, k, f) == At(s0, k, f)
      ensures k in s && AllPersisted(s0[k]) ==> AllPersisted(s[k])
    {
      var j :| 0 <= j < |keys| && keys[j] == k;
      UnforkedContent(s0[k], fork);
    }
    BagsHeld(s, keys, fork);
    EmptyBags(s, keys, fork);
    forall f | f != fork
      ensures Held(s, f) == Held(s0, f)
    {
      BagsHeld(s, keys, f);
      BagsHeld(s0, keys, f);
      BagsSame(s, s0, keys, f, f);
    }
  }

  ghost predicate SameLengths(a: Trailers, b: Trailers, k: Key) {
    forall f :: ((k, f) in a <==> (k, f) in b) && ((k, f) in a ==> a[(k, f)] == b[(k, f)])
  }

  /** Buckets that are not loaded stay so, with all that is remembered of them, also of a fork that is removed. */
  ghost predicate ClosedStay(t0: Tree, r0: Trailers, t: Tree, r: Trailers) {
    forall k :: k in t0 && t0[k] == null ==> k in t && t[k] == null && SameLengths(r0, r, k)
  }

  lemma ClosedSame(t: Tree, r: Trailers)
    ensures ClosedStay(t, r, t, r)
  {
  }

  lemma ClosedTwice(t0: Tree, r0: Trailers, t1: Tree, r1: Trailers, t2: Tree, r2: Trailers)
    requires ClosedStay(t0, r0, t1, r1) && ClosedStay(t1, r1, t2, r2)
    ensures ClosedStay(t0, r0, t2, r2)
  {
    forall k | k in t0 && t0[k] == null
      ensures k in t2 && t2[k] == null && SameLengths(r0, r2, k)
    {
      assert SameLengths(r0, r1, k) && SameLengths(r1, r2, k);
    }
  }

  lemma ClosedForget(t: Tree, r: Trailers, key: Key)
    requires key in t && t[key] != null
    ensures ClosedStay(t, r, t - {key}, Forget(r, key))
  {
  }

  lemma UnforkRemembers(tree: Tree, trailers: Trailers, s: Store, t: Store, key: Key, fork: ForkName, f: ForkName)
    requires key in s && OnlyChanged(s, t, key) && t[key] == Unforked(s[key], fork) && f != fork
    ensures Remembered(tree, trailers, s, f) ==> Remembered(tree, trailers, t, f)
    ensures Right(tree, trailers, s, f) ==> Right(tree, trailers, t, f)
  {
    hide ForkContent, Unforked;
    UnforkedContent(s[key], fork);
    assert forall k :: k in t ==> k in s && ForkContent(t[k], f) == ForkContent(s[k], f);
  }

  lemma UnforkUpkeep(s: Store, t: Store, key: Key, fork: ForkName)
    requires key in s && OnlyChanged(s, t, key) && t[key] == Unforked(s[key], fork)
    ensures forall f :: AllStamped(s, f) ==> AllStamped(t, f)
    ensures forall f :: AllOnce(s, f) ==> AllOnce(t, f)
    ensures LogsGrow(s, t, multiset{})
  {
    hide Stamped, Once;
  }

  lemma UnforkKept(tree: Tree, trailers: Trailers, s: Store, t: Store, key: Key, fork: ForkName, now: seq<ForkName>,
                   maxOpen: int)
    requires key in s && OnlyChanged(s, t, key) && t[key] == Unforked(s[key], fork) && fork !in Names(now)
    ensures Kept(tree, trailers, s, tree, trailers, t, now, maxOpen, {}, multiset{})
  {
    hide Remembered, Right, AllStamped, AllOnce, Unforked, LogsGrow, LoadedKeys;
    UnforkUpkeep(s, t, key, fork);
    forall f | f in Names(now)
      ensures Remembered(tree, trailers, s, f) ==> Remembered(tree, trailers, t, f)
      ensures Right(tree, trailers, s, f) ==> Right(tree, trailers, t, f)
    {
      UnforkRemembers(tree, trailers, s, t, key, fork, f);
    }
  }
}
