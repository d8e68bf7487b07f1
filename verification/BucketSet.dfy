/** The queue itself: a tree of buckets, of which only some are loaded (buckets.go). */
module BucketSet {
  import opened Items
  import opened Vlog
  import opened IndexSpec
  import opened Contents
  import opened BatchIndex
  import opened ForkSpec
  import opened RangeSpec
  import opened BucketSpec
  import opened BucketStore
  import opened Reopen
  import opened Split
  import opened QueueSpec
  import opened TreeSpec
  import opened PushSpec
  import opened ReadSpec
  import opened CutSpec
  import opened ForksSpec
  import opened DiskSpec
  import opened ShovelSpec

  class Buckets {
    const split: Key -> Key
    const page: nat
    const maxOpen: int
    const continueOnErr: bool
    var tree: Tree
    /** The files of the buckets that are not loaded. */
    var disk: map<Key, Disk>
    var trailers: Trailers
    var forks: seq<ForkName>
    ghost var store: Store
    ghost var Repr: set<object>

    ghost predicate Owns(k: Key, b: Bucket)
      requires k in store
      reads `store, `Repr, Repr - {this}
    {
      && b in Repr - {this} && b.Repr <= Repr && this !in b.Repr
      && b.key == k && b.continueOnErr == continueOnErr && b.Valid() && b.Val() == store[k]
    }

    /** The loaded buckets are intact and share nothing. */
    ghost predicate Shaped()
      reads `tree, `store, `Repr, Repr - {this}
    {
      && this in Repr
      && tree.Keys == store.Keys
      && (forall k {:trigger tree[k]} :: k in tree && tree[k] != null ==> Owns(k, tree[k]))
      && (forall j, k {:trigger tree[j], tree[k]} ::
            j in tree && k in tree && j != k && tree[j] != null && tree[k] != null ==> tree[j].Repr !! tree[k].Repr)
    }

    ghost predicate Valid()
      reads this, Repr
    {
      Shaped() && Settled(tree, disk, store, forks, split) && page > 0
    }

    method Detach(key: Key)
      requires Shaped() && key in tree
      modifies `tree
      ensures Shaped() && tree == old(tree)[key := null]
    {
      hide Bucket.Valid, Bucket.Val;
      tree := tree[key := null];
    }

    method Attach(key: Key, buck: Bucket)
      requires Shaped() && (key in tree ==> tree[key] == null)
      requires buck.Valid() && buck.key == key && buck.continueOnErr == continueOnErr && buck.Repr !! Repr
      modifies `tree, `store, `Repr
      ensures Shaped() && tree == old(tree)[key := buck] && Repr == old(Repr) + buck.Repr
      ensures store == old(store)[key := buck.Val()]
    {
      hide Bucket.Valid, Bucket.Val;
      buck.ValidParts();
      Repr := Repr + buck.Repr;
      store := store[key := buck.Val()];
      tree := tree[key := buck];
      assert Owns(key, buck);
    }

    /** All loaded buckets but one are as they should be. */
    ghost predicate OthersShaped(key: Key)
      reads this, Repr, set k | k in tree && tree[k] != null :: tree[k]
    {
      && this in Repr
      && tree.Keys == store.Keys
      && (forall k {:trigger tree[k]} :: k in tree && tree[k] != null && k != key ==> Owns(k, tree[k]))
      && (forall j, k {:trigger tree[j], tree[k]} ::
            j in tree && k in tree && j != k && tree[j] != null && tree[k] != null ==> tree[j].Repr !! tree[k].Repr)
    }

    method Adopt(key: Key, buck: Bucket)
      requires OthersShaped(key) && key in tree && tree[key] == buck
      requires buck.Valid() && buck.key == key && buck.continueOnErr == continueOnErr && this !in buck.Repr
      modifies `store, `Repr
      ensures Shaped() && store == old(store)[key := buck.Val()] && Repr == old(Repr) + buck.Repr
    {
      hide Bucket.Valid, Bucket.Val;
      buck.ValidParts();
      store := store[key := buck.Val()];
      Repr := Repr + buck.Repr;
    }

    method PushTo(key: Key, batch: seq<Item>)
      requires Shaped() && key in tree && tree[key] != null && Pushable(store[key].items, batch, key)
      modifies `store, `Repr, tree[key].Repr
      ensures tree == old(tree) && disk == old(disk) && trailers == old(trailers) && forks == old(forks)
      ensures Shaped() && fresh(Repr - old(Repr)) && store == old(store)[key := store[key]]
      ensures Pushed(old(store)[key], store[key], batch, old(store)[key].forks.Keys)
      ensures ValueOk(store[key], key) && (AllPersisted(old(store)[key]) ==> AllPersisted(store[key]))
      ensures Upkeep(old(store)[key], store[key])
    {
      hide Upkeep, Pushable, Pushed, Grown, Partly, ValueOk, LocOk, AllPersisted, Bucket.Valid, Bucket.Val;
      var buck := tree[key];
      assert Owns(key, buck);
      buck.ValidParts();
      ghost var a := buck.Val();
      var ok, loc := buck.Push(batch, true, MAIN);
      buck.ValidParts();
      PushedFits(a, buck.Val(), key, batch);
      if AllPersisted(a) {
        PushedShape(a, buck.Val(), batch);
        PushPersists(a, buck.Val(), key, batch, loc);
      }
      Adopt(key, buck);
    }

    /** Removes a bucket from the tree. */
    method Remove(key: Key)
      requires Shaped() && key in tree
      modifies `tree, `store
      ensures Shaped() && tree == old(tree) - {key} && store == old(store) - {key}
    {
      hide Bucket.Valid, Bucket.Val;
      tree := tree - {key};
      store := store - {key};
    }

    method ReadFrom(key: Key, n: int, fork: ForkName, fn: seq<Item> -> Decision) returns (ok: bool, out: seq<Item>)
      requires Shaped() && key in tree && tree[key] != null && Quiet(fn)
      modifies `store, `Repr, tree[key].Repr
      ensures tree == old(tree) && disk == old(disk) && trailers == old(trailers) && forks == old(forks)
      ensures Shaped() && fresh(Repr - old(Repr)) && store == old(store)[key := store[key]]
      ensures ValueOk(store[key], key)
      ensures Grown(old(store)[key], store[key]) && Upkeep(old(store)[key], store[key])
      ensures n <= 0 || fork !in old(store)[key].forks ==> store == old(store) && out == [] && (ok <==> n <= 0)
      ensures n > 0 && fork in old(store)[key].forks ==>
                ReadEffect(old(store)[key], store[key], fork, n, out, fn(out)) && (ok <==> !fn(out).failed)
    {
      hide Pushable, Grown, Upkeep, ReadEffect, ValueOk, Bucket.Valid, Bucket.Val, Bucket.Forks, Bucket.Shaped;
      var buck := tree[key];
      assert Owns(key, buck);
      buck.ValidParts();
      QuietPushable(buck.log.items, key, fn);
      ok, out := buck.Read(n, fork, fn);
      Adopt(key, buck);
      buck.ValidParts();
    }

    method DeleteIn(key: Key, fork: ForkName, from: Key, to: Key) returns (ok: bool, ndeleted: int)
      requires Shaped() && key in tree && tree[key] != null
      modifies `store, `Repr, tree[key].Repr
      ensures tree == old(tree) && disk == old(disk) && trailers == old(trailers) && forks == old(forks)
      ensures Shaped() && fresh(Repr - old(Repr)) && store == old(store)[key := store[key]]
      ensures ValueOk(store[key], key)
      ensures ok <==> key > to || (from <= to && fork in old(store)[key].forks)
      ensures !ok || fork !in old(store)[key].forks || from > to ==> store == old(store) && ndeleted == 0
      ensures ok && fork in old(store)[key].forks && from <= to ==>
                DeleteEffect(old(store)[key], store[key], fork, from, to, ndeleted)
      ensures fork in old(store)[key].forks && Exact(old(store), key, fork, from, to) ==>
                Upkeep(old(store)[key], store[key])
    {
      hide HitsAreOldest, Upkeep, DeleteEffect, ValueOk, Bucket.Valid, Bucket.Val, Bucket.Forks, Bucket.Shaped;
      var buck := tree[key];
      assert Owns(key, buck);
      buck.ValidParts();
      ok, ndeleted := buck.Delete(fork, from, to);
      Adopt(key, buck);
      buck.ValidParts();
    }

    method ForkIn(key: Key, src: ForkName, dst: ForkName) returns (ok: bool)
      requires Shaped() && key in tree && tree[key] != null
      modifies `store, `Repr, tree[key].Repr
      ensures tree == old(tree) && disk == old(disk) && trailers == old(trailers) && forks == old(forks)
      ensures Shaped() && fresh(Repr - old(Repr)) && store == old(store)[key := store[key]]
      ensures ValueOk(store[key], key)
      ensures ok <==> src in old(store)[key].forks
      ensures !ok || dst in old(store)[key].forks ==> store == old(store)
      ensures ok && dst !in old(store)[key].forks ==> ForkEffect(old(store)[key], store[key], src, dst)
    {
      hide ForkEffect, ValueOk, Bucket.Valid, Bucket.Val, Bucket.Forks, Bucket.Shaped;
      var buck := tree[key];
      assert Owns(key, buck);
      buck.ValidParts();
      ok := buck.Fork(src, dst);
      Adopt(key, buck);
      buck.ValidParts();
    }

    method UnforkIn(key: Key, fork: ForkName) returns (ok: bool)
      requires Shaped() && key in tree && tree[key] != null
      modifies `store, `Repr, tree[key].Repr
      ensures tree == old(tree) && disk == old(disk) && trailers == old(trailers) && forks == old(forks)
      ensures Shaped() && fresh(Repr - old(Repr))
      ensures store == old(store)[key := Value(old(store)[key].items, old(store)[key].forks - {fork})]
      ensures ValueOk(store[key], key)
      ensures ok <==> fork in old(store)[key].forks
    {
      hide ValueOk, Bucket.Valid, Bucket.Val, Bucket.Forks, Bucket.Shaped;
      var buck := tree[key];
      assert Owns(key, buck);
      buck.ValidParts();
      ok := buck.RemoveFork(fork);
      Adopt(key, buck);
      buck.ValidParts();
    }

    method LenAt(key: Key, fork: ForkName) returns (n: int)
      requires Shaped() && key in tree && tree[key] != null
      ensures n == |ForkContent(store[key], fork)|
    {
      hide ForkContent, ValueOk;
      assert Owns(key, tree[key]);
      tree[key].LenIsContent(fork);
      n := tree[key].Len(fork);
    }

    method EmptyAt(key: Key) returns (e: bool)
      requires Shaped() && key in tree && tree[key] != null
      ensures e <==> forall f :: f in store[key].forks ==> ForkContent(store[key], f) == multiset{}
    {
      hide ForkContent, ValueOk;
      assert Owns(key, tree[key]);
      tree[key].LenIsContent(MAIN);
      e := tree[key].AllEmpty();
    }

    method NothingStoredAt(key: Key) returns (e: bool)
      requires Shaped() && key in tree && tree[key] != null
      ensures e <==> store[key].items == []
    {
      hide ForkOk, Representable, IsImage;
      assert Owns(key, tree[key]);
      e := tree[key].log.size == 0;
    }

    method FilesOf(key: Key) returns (files: Disk, lens: map<ForkName, int>)
      requires Valid() && key in store && key in tree && tree[key] != null
      ensures FilesOk(files, store[key], key, forks) && lens.Keys == Names(forks)
      ensures forall f :: f in lens ==> lens[f] == |ForkContent(store[key], f)|
    {
      hide ForkContent, ValueOk, IsImage, Bucket.Val, DiskOk;
      var buck := tree[key];
      files, lens := CloseFiles(buck);
    }

    /** Unloads a bucket; the lengths of its forks are remembered. */
    method CloseBucket(key: Key)
      requires Valid() && key in tree && tree[key] != null
      modifies `tree, `disk, `trailers
      ensures Valid() && tree == old(tree)[key := null] && |LoadedKeys(tree)| == |LoadedKeys(old(tree))| - 1
      ensures Kept(old(tree), old(trailers), store, tree, trailers, store, forks, maxOpen, {}, multiset{})
    {
      hide ForkContent, TrailersOf, FilesOk, Shaped, Settled, Kept, LoadedKeys;
      ghost var t, r, d := tree, trailers, disk;
      SettledKeys();
      var files, lens := FilesOf(key);
      UnloadSettled(t, d, store, forks, split, key, files);
      UnloadKept(t, r, store, key, lens, forks, maxOpen);
      trailers := trailers + TrailersOf(key, lens);
      disk := disk[key := files];
      Detach(key);
    }

    lemma SettledKeys()
      requires Valid()
      ensures tree.Keys == store.Keys
    {
    }

    /** The keys of all buckets, in ascending order. */
    method Keys() returns (keys: seq<Key>)
      ensures Ascending(keys) && |keys| == |tree|
      ensures forall k :: k in tree <==> k in keys
    {
      keys := [];
      var todo := tree.Keys;
      while todo != {}
        invariant todo <= tree.Keys && |keys| + |todo| == |tree.Keys|
        invariant Ascending(keys) && forall i, k :: 0 <= i < |keys| && k in todo ==> keys[i] < k
        invariant forall k :: k in tree <==> k in keys || k in todo
        decreases |todo|
      {
        assert MinKey(todo) in todo;
        var k: Key :| k in todo && forall j :: j in todo ==> k <= j;
        keys := keys + [k];
        todo := todo - {k};
      }
    }

    method NLoaded() returns (nloaded: nat)
      ensures nloaded == |LoadedKeys(tree)|
    {
      hide LoadedIn, LoadedKeys;
      var keys := Keys();
      nloaded := 0;
      assert LoadedIn(tree, keys[..0]) == {} by { NothingLoaded(tree, keys[..0]); }
      for i := 0 to |keys|
        invariant nloaded == |LoadedIn(tree, keys[..i])|
      {
        LoadedStep(tree, keys, i);
        if tree[keys[i]] != null {
          nloaded := nloaded + 1;
        }
      }
      assert keys[..|keys|] == keys;
      LoadedAll(tree, keys);
    }

    /** One round of CloseUnused: closes the bucket at one position, if it is loaded. */
    method CloseRound(keys: seq<Key>, idx: nat, ghost t: Tree, ghost r: Trailers) returns (closed: bool)
      requires Valid() && idx < |keys| == |tree| && Ascending(keys) && forall k :: k in tree <==> k in keys
      requires Visited(t, tree, keys, idx)
      requires Kept(t, r, store, tree, trailers, store, forks, maxOpen, {}, multiset{})
      modifies `tree, `disk, `trailers
      ensures Valid() && tree.Keys == old(tree).Keys && Visited(t, tree, keys, idx + 1)
      ensures |LoadedKeys(tree)| == |LoadedKeys(old(tree))| - (if closed then 1 else 0)
      ensures Kept(t, r, store, tree, trailers, store, forks, maxOpen, {}, multiset{})
    {
      hide *;
      var pivotIdx := |tree| / 2;
      var realIdx := pivotIdx - idx / 2 - 1;
      if idx % 2 == 0 {
        realIdx := pivotIdx + idx / 2;
      }
      PivotIs(|keys|, idx, realIdx);
      ghost var t1, r1 := tree, trailers;
      var key := keys[realIdx];
      closed := tree[key] != null;
      if closed {
        CloseBucket(key);
        KeptTwice(t, r, store, t1, r1, store, tree, trailers, store, forks, maxOpen, {}, multiset{}, multiset{});
      }
      VisitStep(t, t1, tree, keys, idx);
    }

    /** Closes loaded buckets, from the middle of the key range outwards, until maxBucks are left. */
    method CloseUnused(maxBucks: int)
      requires Valid()
      modifies `tree, `disk, `trailers
      ensures Valid() && tree.Keys == old(tree).Keys
      ensures |LoadedKeys(tree)|
              == if 0 <= maxBucks < |LoadedKeys(old(tree))| then maxBucks else |LoadedKeys(old(tree))|
      ensures if 0 <= maxBucks < |LoadedKeys(old(tree))| then ClosedFromMiddle(old(tree), tree) else tree == old(tree)
      ensures forall k :: k in tree && tree[k] != null ==> tree[k] == old(tree)[k]
      ensures Kept(old(tree), old(trailers), store, tree, trailers, store, forks, maxOpen, {}, multiset{})
    {
      hide *;
      KeptSame(tree, trailers, store, forks, maxOpen, {});
      if maxBucks < 0 {
        return;
      }
      var nloaded := NLoaded();
      if nloaded <= maxBucks {
        return;
      }
      var keys := Keys();
      var nClosed, nClosable := 0, nloaded - maxBucks;
      var idx := 0;
      NothingVisited(tree, keys);
      ghost var t, r := tree, trailers;
      while idx < |keys| && nClosed < nClosable
        invariant Valid() && tree.Keys == t.Keys && 0 <= idx <= |keys|
        invariant 0 <= nClosed <= nClosable && |LoadedKeys(tree)| == nloaded - nClosed
        invariant Visited(t, tree, keys, idx)
        invariant Kept(t, r, store, tree, trailers, store, forks, maxOpen, {}, multiset{})
      {
        var closed := CloseRound(keys, idx, t, r);
        if closed {
          nClosed := nClosed + 1;
        }
        idx := idx + 1;
      }
      if nClosed < nClosable {
        AllVisited(t, tree, keys);
      }
      ClosedSoFar(t, tree, keys, idx);
      StillLoaded(t, tree, keys, idx);
    }

    /** Opens a bucket from its files, or creates it. */
    method Load(key: Key)
      requires Valid() && Persistent(store) && (key in tree ==> tree[key] == null)
      requires maxOpen > 0 ==> |LoadedKeys(tree)| < maxOpen
      modifies `tree, `store, `Repr, `disk
      ensures Valid() && Persistent(store) && fresh(Repr - old(Repr))
      ensures key in tree && tree[key] != null && tree == old(tree)[key := tree[key]]
      ensures Reloaded(old(store), store, key, ForkSet(forks))
      ensures Kept(old(tree), trailers, old(store), tree, trailers, store, forks, maxOpen, {}, multiset{})
    {
      hide Shaped, Settled, Kept, LoadedKeys, DiskOk, AllPersisted, SameContents, Persistent, BucketOk, Reloaded;
      hide Bucket.Valid, Bucket.Val, ValueOk, Upkeep, UpkeepHolds;
      ghost var t, d, s := tree, disk, store;
      StoredFiles(t, d, s, forks, split, key);
      ghost var v := Stored(s, key, forks);
      var buck, left := OpenBucket(key, FilesAt(disk, key), ForkSet(forks), page, continueOnErr, v);
      buck.ValidParts();
      ghost var w := buck.Val();
      LoadedOk(v, w, key, split, Names(forks));
      ChangedUpkeep(v, w, key, split, Names(forks));
      AttachSettled(t, d, s, forks, split, key, buck, w);
      AttachKept(t, trailers, s, key, buck, w, forks, maxOpen);
      LoadReloaded(s, key, forks, w);
      LoadPersistent(s, key, w);
      disk := disk - {key};
      Attach(key, buck);
    }

    /** The bucket of a key, loaded; it is created if there is none, and others may be closed for it. */
    method ForKey(key: Key)
      requires Valid() && Persistent(store)
      modifies Repr
      ensures Valid() && Persistent(store) && fresh(Repr - old(Repr)) && forks == old(forks)
      ensures key in tree && tree[key] != null
      ensures MadeRoom(old(tree), tree, key, maxOpen)
      ensures Reloaded(old(store), store, key, ForkSet(forks))
      ensures Kept(old(tree), old(trailers), old(store), tree, trailers, store, forks, maxOpen, {}, multiset{})
    {
      hide Valid, Kept, LoadedKeys, Persistent, Reloaded, MadeRoom, ClosedFromMiddle;
      KeptSame(tree, trailers, store, forks, maxOpen, {});
      if key in tree && tree[key] != null {
        SettledKeys();
        NotReloaded(store, key, forks);
        AlreadyOpen(tree, key, maxOpen);
        return;
      }
      ValidRepr();
      ghost var t, r, s := tree, trailers, store;
      CloseUnused(maxOpen - 1);
      ghost var t1, r1 := tree, trailers;
      Load(key);
      NowOpen(t, t1, tree, key, maxOpen);
      KeptTwice(t, r, s, t1, r1, s, tree, trailers, store, forks, maxOpen, {}, multiset{}, multiset{});
    }

    lemma OwnedRepr(key: Key)
      requires Shaped() && key in tree && tree[key] != null
      ensures this in Repr && tree[key].Repr <= Repr
    {
      assert Owns(key, tree[key]);
    }

    lemma ValidRepr()
      requires Valid()
      ensures this in Repr && page > 0
    {
    }

    /** Stores a sorted run in its bucket. */
    method PushRun(key: Key, run: seq<Item>)
      requires Valid() && Persistent(store) && key in store && key in tree && tree[key] != null
      requires Pushable(store[key].items, run, key) && forall i :: 0 <= i < |run| ==> split(run[i].key) == key
      modifies Repr
      ensures Valid() && Persistent(store) && fresh(Repr - old(Repr)) && forks == old(forks)
      ensures OnlyChanged(old(store), store, key)
      ensures Pushed(old(store)[key], store[key], run, old(store)[key].forks.Keys)
      ensures Kept(old(tree), old(trailers), old(store), tree, trailers, store, forks, maxOpen, {}, multiset(run))
    {
      hide Shaped, Kept, LoadedKeys, AllPersisted, BucketOk, Pushable, Pushed, ValueOk, FilesOk, Upkeep, UpkeepHolds;
      ghost var s := store;
      OwnedRepr(key);
      PushTo(key, run);
      PushedOk(s[key], store[key], run, split, key, Names(forks));
      PushedShape(s[key], store[key], run);
      ChangedUpkeep(s[key], store[key], key, split, Names(forks));
      ChangeSettled(tree, disk, s, forks, split, key, store[key]);
      ChangeKept(tree, trailers, s, key, store[key], forks, maxOpen, {}, multiset(run));
      LoadPersistent(s, key, store[key]);
    }

    /** Stores the run of a sorted batch that belongs to the bucket of its first item. */
    method PushFirst(items: seq<Item>, ghost lowest: Key) returns (nextIdx: nat)
      requires Valid() && Persistent(store) && SplitLaw(split, lowest)
      requires items != [] && Sorted(items) && Acceptable(store, items, split, lowest)
      modifies Repr
      ensures Valid() && Persistent(store) && fresh(Repr - old(Repr)) && forks == old(forks)
      ensures 0 < nextIdx <= |items| && Acceptable(store, items[nextIdx..], split, lowest)
      ensures forall f :: f in Names(forks) ==> Held(store, f) == Held(old(store), f) + multiset(items[..nextIdx])
      ensures Kept(old(tree), old(trailers), old(store), tree, trailers, store, forks, maxOpen, {},
                   multiset(items[..nextIdx]))
    {
      hide Valid, Kept, Persistent, SplitLaw, Acceptable, Binsplit, Pushable, Pushed, Reloaded, OnlyChanged, Names;
      hide ForkSet, Held;
      ghost var t0, r0, s0 := tree, trailers, store;
      var keyMod := split(items[0].key);
      nextIdx := Binsplit(items, keyMod, split);
      ForKey(keyMod);
      ghost var t1, r1, s1 := tree, trailers, store;
      SettledKeys();
      SettledForks(keyMod);
      Round(s0, s1, items, split, lowest, keyMod, nextIdx, ForkSet(forks));
      PushRun(keyMod, items[..nextIdx]);
      RoundDone(s0, s1, store, items, split, lowest, keyMod, nextIdx, ForkSet(forks));
      KeptTwice(t0, r0, s0, t1, r1, s1, tree, trailers, store, forks, maxOpen, {}, multiset{},
                multiset(items[..nextIdx]));
    }

    lemma SettledForks(key: Key)
      requires Valid() && key in store
      ensures store[key].forks.Keys == Names(forks)
    {
    }

    /** Stores a sorted batch, one bucket at a time. */
    method PushSorted(batch: seq<Item>, ghost lowest: Key)
      requires Valid() && Persistent(store) && SplitLaw(split, lowest)
      requires Sorted(batch) && Acceptable(store, batch, split, lowest)
      modifies Repr
      ensures Valid() && Persistent(store) && fresh(Repr - old(Repr)) && forks == old(forks)
      ensures forall f :: f in Names(forks) ==> Held(store, f) == Held(old(store), f) + multiset(batch)
      ensures Kept(old(tree), old(trailers), old(store), tree, trailers, store, forks, maxOpen, {}, multiset(batch))
    {
      hide Valid, Kept, Persistent, SplitLaw, Acceptable, Held, Names, Sorted;
      ghost var t, r, s := tree, trailers, store;
      var items := batch;
      ghost var stored: multiset<Item> := multiset{};
      KeptSame(t, r, s, forks, maxOpen, {});
      while |items| > 0
        invariant Valid() && Persistent(store) && fresh(Repr - old(Repr)) && forks == old(forks)
        invariant Sorted(items) && Acceptable(store, items, split, lowest)
        invariant forall f :: f in Names(forks) ==> Held(store, f) + multiset(items) == Held(s, f) + multiset(batch)
        invariant Kept(t, r, s, tree, trailers, store, forks, maxOpen, {}, stored)
        invariant stored + multiset(items) == multiset(batch)
        decreases |items|
      {
        ghost var t0, r0, s0 := tree, trailers, store;
        var nextIdx := PushFirst(items, lowest);
        KeptTwice(t, r, s, t0, r0, s0, tree, trailers, store, forks, maxOpen, {}, stored, multiset(items[..nextIdx]));
        SortedRest(items, nextIdx);
        stored := stored + multiset(items[..nextIdx]);
        items := items[nextIdx..];
      }
      assert multiset(items) == multiset{};
      assert stored == multiset(batch);
    }

    /** Every fork gains exactly the batch. */
    method Push(items: seq<Item>, ghost lowest: Key)
      requires Valid() && Persistent(store) && SplitLaw(split, lowest)
      requires Acceptable(store, items, split, lowest) && Comparable(items)
      modifies Repr
      ensures Valid() && Persistent(store) && fresh(Repr - old(Repr)) && forks == old(forks)
      ensures forall f :: f in Names(forks) ==> Held(store, f) == Held(old(store), f) + multiset(items)
      ensures Kept(old(tree), old(trailers), old(store), tree, trailers, store, forks, maxOpen, {}, multiset(items))
    {
      hide Valid, Kept, Persistent, SplitLaw, Acceptable;
      KeptSame(tree, trailers, store, forks, maxOpen, {});
      if |items| == 0 {
        assert multiset(items) == multiset{};
        return;
      }
      var sorted := SortFunc(items);
      SortedAcceptable(store, items, sorted, split, lowest);
      PushSorted(sorted, lowest);
    }

    /** Drops a bucket with its files and the lengths that were remembered for it. */
    method Drop(key: Key) returns (ok: bool)
      requires Valid() && Persistent(store)
      modifies `tree, `store, `disk, `trailers
      ensures ok <==> key in old(tree)
      ensures Valid() && Persistent(store) && store == old(store) - {key} && tree == old(tree) - {key}
      ensures Kept(old(tree), old(trailers), old(store), tree, trailers, store, forks, maxOpen, {}, multiset{})
    {
      hide Shaped, Settled, Kept, Forget, LoadedKeys, AllPersisted;
      SettledKeys();
      KeptSame(tree, trailers, store, forks, maxOpen, {});
      if key !in tree {
        assert store - {key} == store && tree - {key} == tree;
        return false;
      }
      RemoveSettled(tree, disk, store, forks, split, key);
      RemoveKept(tree, trailers, store, key, forks, maxOpen);
      trailers := Forget(trailers, key);
      disk := disk - {key};
      Remove(key);
      return true;
    }

    /** Reads from one loaded bucket. */
    method ReadLoaded(key: Key, n: int, fork: ForkName, fn: seq<Item> -> Decision) returns (ok: bool, out: seq<Item>)
      requires Valid() && Persistent(store) && key in store && key in tree && tree[key] != null && Quiet(fn)
      modifies Repr
      ensures Valid() && Persistent(store) && fresh(Repr - old(Repr)) && forks == old(forks) && tree == old(tree)
      ensures OnlyChanged(old(store), store, key)
      ensures n <= 0 || fork !in Names(forks) ==> store == old(store) && out == [] && (ok <==> n <= 0)
      ensures n > 0 && fork in Names(forks) ==>
                ReadEffect(old(store)[key], store[key], fork, n, out, fn(out)) && (ok <==> !fn(out).failed)
      ensures Kept(old(tree), old(trailers), old(store), tree, trailers, store, forks, maxOpen, {}, multiset{})
    {
      hide Shaped, Kept, LoadedKeys, AllPersisted, BucketOk, ReadEffect, ValueOk, FilesOk, Grown, Names;
      hide Upkeep, UpkeepHolds;
      ghost var s := store;
      OwnedRepr(key);
      SettledForks(key);
      ok, out := ReadFrom(key, n, fork, fn);
      ReadOk(s[key], store[key], fork, n, out, fn, key, split, Names(forks));
      ChangedUpkeep(s[key], store[key], key, split, Names(forks));
      ChangeSettled(tree, disk, s, forks, split, key, store[key]);
      ChangeKept(tree, trailers, s, key, store[key], forks, maxOpen, {}, multiset{});
      LoadPersistent(s, key, store[key]);
    }

    predicate Knows(fork: ForkName)
      reads `forks
      ensures Knows(fork) <==> fork in Names(forks)
    {
      fork == MAIN || fork in forks
    }

    /** What Read does for one bucket: load it, read from it, and drop it if no fork has items left in it. */
    method Visit(key: Key, count: int, fork: ForkName, fn: seq<Item> -> Decision)
      returns (ok: bool, called: bool, out: seq<Item>, taken: int)
      requires Valid() && Persistent(store) && key in store && Quiet(fn)
      modifies Repr
      ensures Valid() && Persistent(store) && fresh(Repr - old(Repr)) && forks == old(forks)
      ensures called <==> count > 0 && fork in Names(forks)
      ensures called ==> Smallest(At(old(store), key, fork), count, out) && (ok <==> !fn(out).failed)
      ensures !called ==> out == [] && (ok <==> count <= 0)
      ensures TakenFrom(old(store), store, key, fork, if called then Popped(fn, out) else [])
      ensures taken == if called then |Popped(fn, out)| else 0
      ensures ok && key in store ==> HasItems(store[key])
      ensures !ok ==> key in store
      ensures Kept(old(tree), old(trailers), old(store), tree, trailers, store, forks, maxOpen, {}, multiset{})
    {
      hide Valid, Kept, Persistent, Reloaded, OnlyChanged, Names, ForkSet, ReadEffect, TakenFrom, Smallest, ForkContent;
      hide At, Popped, Knows, HasItems;
      ghost var t0, r0, s0 := tree, trailers, store;
      ForKey(key);
      ghost var t1, r1, s1 := tree, trailers, store;
      SettledKeys();
      SettledForks(key);
      called := count > 0 && Knows(fork);
      var lenBefore := LenOf(key, fork);
      ok, out := ReadLoaded(key, count, fork, fn);
      ghost var s2 := store;
      SettledKeys();
      KeptTwice(t0, r0, s0, t1, r1, s1, tree, trailers, store, forks, maxOpen, {}, multiset{}, multiset{});
      ghost var popped := if called then Popped(fn, out) else [];
      if called {
        VisitTakes(s0, s1, s2, key, fork, count, out, fn, ForkSet(forks));
      } else {
        NotVisited(s0, s1, key, fork, ForkSet(forks));
      }
      var lenAfter := LenOf(key, fork);
      taken := lenBefore - lenAfter;
      if ok {
        var empty := EmptyOf(key);
        HasItemsIs(store[key]);
        if empty {
          ghost var t2, r2 := tree, trailers;
          ValidRepr();
          DroppedTakes(s0, s2, key, fork, popped);
          var dropped := Drop(key);
          KeptTwice(t0, r0, s0, t2, r2, s2, tree, trailers, store, forks, maxOpen, {}, multiset{}, multiset{});
        }
      }
    }

    method LenOf(key: Key, fork: ForkName) returns (n: int)
      requires Valid() && key in store && key in tree && tree[key] != null
      ensures n == |ForkContent(store[key], fork)|
    {
      n := LenAt(key, fork);
    }

    method EmptyOf(key: Key) returns (e: bool)
      requires Valid() && key in store && key in tree && tree[key] != null
      ensures e <==> forall f :: f in store[key].forks ==> ForkContent(store[key], f) == multiset{}
    {
      e := EmptyAt(key);
    }

    method NothingStored(key: Key) returns (e: bool)
      requires Valid() && key in store && key in tree && tree[key] != null
      ensures e <==> store[key].items == []
    {
      e := NothingStoredAt(key);
    }

    lemma ValidStore()
      requires Valid()
      ensures StoreOk(store, split, Names(forks))
    {
    }

    /**
     * Reads up to n items of a fork, or all if n is negative, bucket by bucket; `calls` lists what the
     * callback saw. False if the read was aborted by an error.
     */
    method Read(n: int, fork: ForkName, fn: seq<Item> -> Decision) returns (ok: bool, calls: seq<seq<Item>>)
      requires Valid() && Persistent(store) && Monotone(split) && Quiet(fn)
      modifies Repr
      ensures Valid() && Persistent(store) && fresh(Repr - old(Repr)) && forks == old(forks)
      ensures ReadOver(old(store), store, fork, fork in Names(forks), fn, n, continueOnErr, calls, ok)
      ensures Kept(old(tree), old(trailers), old(store), tree, trailers, store, forks, maxOpen, {}, multiset{})
    {
      hide Valid, Kept, Persistent, Names, TakenFrom, Smallest, At, StoreOk, Underway, ReadOver, Monotone, HasItems;
      hide Popped;
      ghost var t0, r0, s0, known := tree, trailers, store, fork in Names(forks);
      KeptSame(t0, r0, s0, forks, maxOpen, {});
      var count := n;
      if n < 0 {
        count := MAX_KEY;
      }
      ghost var limit: nat := count;
      var keys := Keys();
      SettledKeys();
      calls, ok := [], true;
      ReadBegins(s0, keys, fork, known, split, fn, n, limit, continueOnErr);
      for i := 0 to |keys|
        invariant Valid() && Persistent(store) && fresh(Repr - old(Repr)) && forks == old(forks)
        invariant Underway(s0, store, keys, i, fork, known, split, fn, n, limit, continueOnErr, count, calls)
        invariant Kept(t0, r0, s0, tree, trailers, store, forks, maxOpen, {}, multiset{})
      {
        // Nothing removes a bucket that is still ahead, so the snapshot of the keys stays accurate.
        var key := keys[i];
        ghost var t1, r1, s1 := tree, trailers, store;
        ValidStore();
        UnderwayAhead(s0, s1, keys, i, fork, known, split, fn, n, limit, continueOnErr, count, calls);
        var done, called, out, taken := Visit(key, count, fork, fn);
        ValidStore();
        KeptTwice(t0, r0, s0, t1, r1, s1, tree, trailers, store, forks, maxOpen, {}, multiset{}, multiset{});
        if called {
          ReadCalled(s0, s1, store, keys, i, fork, split, Names(forks), fn, n, limit, continueOnErr, count, calls, out);
          calls := calls + [out];
        } else {
          ReadSkipped(s0, s1, store, keys, i, fork, known, split, fn, n, limit, continueOnErr, count, calls);
        }
        if !done {
          if !continueOnErr {
            return false, calls;
          }
        } else {
          count := count - taken;
          if count <= 0 {
            return true, calls;
          }
        }
      }
      ValidStore();
      ReadEnds(s0, store, keys, fork, known, split, Names(forks), fn, n, limit, continueOnErr, count, calls);
    }

    method DeleteLoaded(key: Key, fork: ForkName, from: Key, to: Key) returns (ok: bool, ndeleted: int)
      requires Valid() && Persistent(store) && key in store && key in tree && tree[key] != null
      modifies Repr
      ensures Valid() && Persistent(store) && fresh(Repr - old(Repr)) && forks == old(forks) && tree == old(tree)
      ensures ValueOk(old(store)[key], key) && OnlyChanged(old(store), store, key)
      ensures ok <==> key > to || (from <= to && fork in Names(forks))
      ensures !ok || fork !in Names(forks) || from > to ==> store == old(store) && ndeleted == 0
      ensures ok && fork in Names(forks) && from <= to ==>
                DeleteEffect(old(store)[key], store[key], fork, from, to, ndeleted)
      ensures Kept(old(tree), old(trailers), old(store), tree, trailers, store, forks, maxOpen,
                   SpoiltAt(old(store), key, fork, from, to), multiset{})
    {
      hide Shaped, Kept, LoadedKeys, AllPersisted, DeleteEffect, ValueOk, FilesOk, Names, Upkeep, UpkeepHolds, Exact;
      ghost var s := store;
      OwnedRepr(key);
      SettledForks(key);
      ok, ndeleted := DeleteIn(key, fork, from, to);
      DeleteOk(s[key], store[key], fork, from, to, ndeleted, key, split, Names(forks));
      ChangeSettled(tree, disk, s, forks, split, key, store[key]);
      DeletedUpkeep(s, store, key, fork, from, to, ndeleted, split, Names(forks));
      ChangeKept(tree, trailers, s, key, store[key], forks, maxOpen, SpoiltAt(s, key, fork, from, to), multiset{});
      LoadPersistent(s, key, store[key]);
    }

    /** What Delete does for one bucket. */
    method CutBucket(key: Key, fork: ForkName, from: Key, to: Key) returns (ok: bool, ndeleted: int, empty: bool)
      requires Valid() && Persistent(store) && key in store && from <= to
      modifies Repr
      ensures Valid() && Persistent(store) && fresh(Repr - old(Repr)) && forks == old(forks)
      ensures OnlyChanged(old(store), store, key) && store.Keys == old(store).Keys
      ensures ok <==> Cuttable(key, fork in Names(forks), to)
      ensures fork in Names(forks) ==> CutAt(old(store), store, key, fork, from, to, ndeleted)
      ensures fork !in Names(forks) ==> ndeleted == 0 && forall f :: Held(store, f) == Held(old(store), f)
      ensures empty <==> Vacant(store, key)
      ensures Kept(old(tree), old(trailers), old(store), tree, trailers, store, forks, maxOpen,
                   SpoiltAt(old(store), key, fork, from, to), multiset{})
    {
      hide Valid, Kept, Persistent, Names, ForkSet, DeleteEffect, CutAt, Vacant, Held, ValueOk, ForkContent;
      hide SameContents, SpoiltAt;
      ghost var t0, r0, s0 := tree, trailers, store;
      SettledKeys();
      SettledForks(key);
      ForKey(key);
      ghost var t1, r1, s1 := tree, trailers, store;
      SettledKeys();
      ok, ndeleted := DeleteLoaded(key, fork, from, to);
      SettledKeys();
      ghost var spoilt := SpoiltAt(s0, key, fork, from, to);
      SpoiltReloaded(s0, s1, key, ForkSet(forks), fork, from, to);
      KeptLess(t0, r0, s0, t1, r1, s1, forks, maxOpen, {}, spoilt, multiset{});
      KeptTwice(t0, r0, s0, t1, r1, s1, tree, trailers, store, forks, maxOpen, spoilt, multiset{}, multiset{});
      if fork in Names(forks) {
        DeleteCuts(s0, s1, store, key, fork, from, to, ndeleted, ForkSet(forks));
      } else {
        UnknownCut(s0, s1, key, ForkSet(forks));
      }
      empty := EmptyOf(key);
      VacantIs(store, key);
    }

    /** Drops buckets that no fork has items in. */
    method DropAll(empties: seq<Key>)
      requires Valid() && Persistent(store) && Ascending(empties)
      requires forall d :: d in empties ==> Vacant(store, d)
      modifies `tree, `store, `disk, `trailers
      ensures Valid() && Persistent(store) && forall f :: Held(store, f) == Held(old(store), f)
      ensures store.Keys == old(store).Keys - (set d | d in empties)
      ensures forall k :: k in store ==> store[k] == old(store)[k]
      ensures Kept(old(tree), old(trailers), old(store), tree, trailers, store, forks, maxOpen, {}, multiset{})
    {
      hide Valid, Kept, Persistent, Held, ForkContent;
      ghost var t0, r0, s0 := tree, trailers, store;
      KeptSame(t0, r0, s0, forks, maxOpen, {});
      for j := 0 to |empties|
        invariant Valid() && Persistent(store) && forall f :: Held(store, f) == Held(s0, f)
        invariant forall i :: j <= i < |empties| ==> Vacant(store, empties[i])
        invariant store.Keys == s0.Keys - (set d | d in empties[..j])
        invariant forall k :: k in store ==> store[k] == s0[k]
        invariant Kept(t0, r0, s0, tree, trailers, store, forks, maxOpen, {}, multiset{})
      {
        ghost var t1, r1, s1 := tree, trailers, store;
        assert empties[..j + 1] == empties[..j] + [empties[j]];
        VacantHeld(store, empties[j]);
        SettledKeys();
        var dropped := Drop(empties[j]);
        KeptTwice(t0, r0, s0, t1, r1, s1, tree, trailers, store, forks, maxOpen, {}, multiset{}, multiset{});
      }
      assert empties[..|empties|] == empties;
    }

    /** The position of the first bucket whose key is at least as large. */
    method Seek(keys: seq<Key>, key: Key) returns (first: nat)
      requires Ascending(keys)
      ensures first <= |keys|
      ensures forall j :: 0 <= j < |keys| ==> (first <= j <==> key <= keys[j])
    {
      first := 0;
      while first < |keys| && keys[first] < key
        invariant 0 <= first <= |keys|
        invariant forall j :: 0 <= j < first ==> keys[j] < key
      {
        first := first + 1;
      }
    }

    /** The loop of Delete: cuts one bucket after the other and collects those that became empty. */
    method CutBuckets(keys: seq<Key>, first: nat, fork: ForkName, from: Key, to: Key)
      returns (ok: bool, last: nat, numDeleted: int, deletable: seq<Key>)
      requires Valid() && Persistent(store) && from <= to
      requires Ascending(keys) && (forall k :: k in store <==> k in keys) && first <= |keys|
      requires forall j :: first <= j < |keys| ==> split(from) <= keys[j]
      modifies Repr
      ensures Valid() && Persistent(store) && fresh(Repr - old(Repr)) && forks == old(forks)
      ensures CutLoop(old(store), store, keys, first, last, fork, fork in Names(forks), from, to, numDeleted)
      ensures Empties(store, keys, last, deletable) && store.Keys == old(store).Keys
      ensures Collected(store, keys, first, last, fork in Names(forks), to, deletable)
      ensures ok ==> continueOnErr || forall j :: first <= j < last ==> Cuttable(keys[j], fork in Names(forks), to)
      ensures !ok ==> !continueOnErr && last > first && !Cuttable(keys[last - 1], fork in Names(forks), to)
      ensures first <= last <= |keys| && (forall j :: first <= j < last ==> keys[j] <= split(to))
      ensures ok && last < |keys| ==> keys[last] > split(to)
      ensures Kept(old(tree), old(trailers), old(store), tree, trailers, store, forks, maxOpen,
                   Spoilt(old(store), split, fork, from, to), multiset{})
    {
      hide Valid, Kept, Persistent, Names, CutLoop, CutAt, Vacant, Held, Empties, OnlyChanged, Ascending;
      hide Spoilt, SpoiltAt, Collected, Cuttable;
      ghost var t0, r0, s0, known := tree, trailers, store, fork in Names(forks);
      ghost var spoilt := Spoilt(s0, split, fork, from, to);
      KeptSame(t0, r0, s0, forks, maxOpen, spoilt);
      CollectedStart(s0, keys, first, known, to);
      KnownEverywhere(fork);
      LoopBegin(s0, keys, first, fork, known, from, to);
      EmptiesStart(s0, keys, first);
      last, numDeleted, deletable := first, 0, [];
      while last < |keys| && keys[last] <= split(to)
        invariant Valid() && Persistent(store) && fresh(Repr - old(Repr)) && forks == old(forks)
        invariant first <= last <= |keys| && store.Keys == s0.Keys
        invariant forall j :: first <= j < last ==> keys[j] <= split(to)
        invariant CutLoop(s0, store, keys, first, last, fork, known, from, to, numDeleted)
        invariant Empties(store, keys, last, deletable)
        invariant Collected(store, keys, first, last, known, to, deletable)
        invariant continueOnErr || forall j :: first <= j < last ==> Cuttable(keys[j], known, to)
        invariant Kept(t0, r0, s0, tree, trailers, store, forks, maxOpen, spoilt, multiset{})
        decreases |keys| - last
      {
        ghost var t1, r1, s1 := tree, trailers, store;
        assert keys[last] in store;
        SettledForks(keys[last]);
        var done, n, empty := CutBucket(keys[last], fork, from, to);
        SpoiltStep(s0, s1, keys, first, last, fork, known, split, from, to, numDeleted);
        KeptLess(t1, r1, s1, tree, trailers, store, forks, maxOpen, SpoiltAt(s1, keys[last], fork, from, to), spoilt,
                 multiset{});
        KeptTwice(t0, r0, s0, t1, r1, s1, tree, trailers, store, forks, maxOpen, spoilt, multiset{}, multiset{});
        LoopStep(s0, s1, store, keys, first, last, fork, known, from, to, numDeleted, n);
        EmptiesStep(s1, store, keys, last, deletable);
        CollectedStep(s1, store, keys, first, last, known, to, deletable,
                      if done && empty then deletable + [keys[last]] else deletable);
        last, numDeleted := last + 1, numDeleted + n;
        if done {
          if empty {
            deletable := deletable + [keys[last - 1]];
          }
        } else if !continueOnErr {
          return false, last, numDeleted, deletable;
        }
      }
      return true, last, numDeleted, deletable;
    }

    /**
     * Deletes all items of a fork whose key lies in the range. False if the range is inverted, or if the
     * deletion was aborted because there is no such fork.
     */
    method Delete(fork: ForkName, from: Key, to: Key) returns (ok: bool, numDeleted: int)
      requires Valid() && Persistent(store) && Monotone(split)
      modifies Repr
      ensures Valid() && Persistent(store) && fresh(Repr - old(Repr)) && forks == old(forks)
      ensures to < from ==> !ok && numDeleted == 0 && store == old(store)
      ensures from <= to ==> CutResult(old(store), store, fork, fork in Names(forks), split, from, to, numDeleted)
      ensures !ok <==> to < from || CutFails(old(store), split, fork in Names(forks), from, to, continueOnErr)
      ensures ok ==> CutTidy(store, split, fork in Names(forks), from, to)
      ensures Kept(old(tree), old(trailers), old(store), tree, trailers, store, forks, maxOpen,
                   Spoilt(old(store), split, fork, from, to), multiset{})
    {
      hide *;
      ghost var t0, r0, s0, known := tree, trailers, store, fork in Names(forks);
      ghost var spoilt := Spoilt(s0, split, fork, from, to);
      KeptSame(t0, r0, s0, forks, maxOpen, spoilt);
      if to < from {
        return false, 0;
      }
      var keys := Keys();
      SettledKeys();
      ValidStore();
      var first := Seek(keys, split(from));
      ghost var last;
      var deletable;
      ok, last, numDeleted, deletable := CutBuckets(keys, first, fork, from, to);
      if ok {
        ReachesNow(keys, first, last, split, from, to);
      }
      CutFailsIs(s0, keys, first, last, split, known, from, to, continueOnErr);
      ValidStore();
      LoopResult(s0, store, keys, first, last, fork, known, split, Names(forks), from, to, numDeleted);
      if !ok {
        return;
      }
      ghost var t1, r1, s1 := tree, trailers, store;
      ValidRepr();
      EmptiesVacant(store, keys, last, deletable);
      DropAll(deletable);
      KeptLess(t1, r1, s1, tree, trailers, store, forks, maxOpen, {}, spoilt, multiset{});
      KeptTwice(t0, r0, s0, t1, r1, s1, tree, trailers, store, forks, maxOpen, spoilt, multiset{}, multiset{});
      CutTidyNow(s1, store, keys, first, last, split, known, from, to, deletable);
      ResultAfterDrops(s0, s1, store, fork, known, split, from, to, numDeleted);
    }

    lemma KnownEverywhere(fork: ForkName)
      requires Valid()
      ensures fork in Names(forks) ==> forall k :: k in store ==> fork in store[k].forks
    {
      hide FilesOk, ValueOk;
    }

    /** Replaces the files of a bucket that is not loaded. */
    method SetFiles(key: Key, files: Disk, ghost v: Value)
      requires Shaped() && key in tree && tree[key] == null
      modifies `disk, `store
      ensures Shaped() && disk == old(disk)[key := files] && store == old(store)[key := v]
    {
      hide Bucket.Valid, Bucket.Val;
      disk := disk[key := files];
      store := store[key := v];
    }

    /** Starts a fork in one bucket: by its index if it is loaded, by copying a file otherwise. */
    method ForkBucket(key: Key, src: ForkName, dst: ForkName) returns (ok: bool)
      requires Shaped() && key in tree && key in store && SettledAt(tree, disk, store, forks, split, key)
      requires dst !in Names(forks)
      modifies Repr
      ensures Shaped() && fresh(Repr - old(Repr)) && tree == old(tree) && trailers == old(trailers)
      ensures forks == old(forks) && OnlyChanged(old(store), store, key) && store.Keys == old(store).Keys
      ensures SameBut(old(disk), disk, key) && disk.Keys == old(disk).Keys
      ensures ok <==> src in Names(forks)
      ensures !ok ==> store == old(store) && disk == old(disk)
      ensures ok ==> ForkedTo(old(store)[key], store[key], src, dst)
      ensures ok ==> SettledAt(tree, disk, store, forks + [dst], split, key)
      ensures ok && AllPersisted(old(store)[key]) ==>
                (AllPersisted(store[key]) <==> ForkLasts(tree, old(store)[key], key, src))
    {
      hide Shaped, AllPersisted, ValueOk, DiskOk, ForkEffect, ForkedTo;
      ghost var a := store[key];
      ShapedRepr();
      if tree[key] != null {
        OwnedRepr(key);
        ok := ForkIn(key, src, dst);
        if ok {
          MadeInMemory(a, store[key], key, src, dst);
          ForkedOk(a, store[key], key, split, forks, src, dst);
        }
      } else {
        var files := disk[key];
        if src !in files.files {
          return false;
        }
        ghost var b := Value(a.items, a.forks[dst := a.forks[src]]);
        SetFiles(key, Disk(files.log, files.files[dst := files.files[src]]), b);
        ForkedOffline(a, b, key, files, forks, src, dst);
        ForkedOk(a, b, key, split, forks, src, dst);
        ok := true;
      }
    }

    lemma ShapedRepr()
      requires Shaped()
      ensures this in Repr
    {
    }

    /** The loop of Fork. It stops at the first bucket that does not know the source: at once, or never. */
    method ForkBuckets(keys: seq<Key>, src: ForkName, dst: ForkName) returns (ok: bool)
      requires Valid() && dst !in Names(forks) && Ascending(keys) && forall k :: k in store <==> k in keys
      modifies Repr
      ensures Shaped() && fresh(Repr - old(Repr)) && tree == old(tree) && trailers == old(trailers)
      ensures forks == old(forks)
      ensures ok <==> keys == [] || src in Names(forks)
      ensures !ok ==> store == old(store) && disk == old(disk)
      ensures ok ==> Between(tree, disk, store, keys, |keys|, forks, forks + [dst], split)
      ensures ok && src in Names(forks) ==> Forking(tree, old(store), store, keys, |keys|, src, dst)
      ensures ok && src !in Names(forks) ==> store == old(store) == map[]
    {
      hide Shaped, Settled, Persistent, Between, Forking, ForkLasts, SettledAt, AllPersisted, ForkedTo, OnlyChanged;
      hide BucketOk, Names, Ascending;
      ShapedRepr();
      ghost var t, d, r, s, was := tree, disk, trailers, store, forks;
      SettledKeys();
      KnownEverywhere(src);
      MainFork();
      MainKnown(forks, dst);
      BetweenStart(t, d, s, keys, was, was + [dst], split);
      if src in Names(was) {
        ForkingStart(t, s, keys, src, dst);
      }
      for i := 0 to |keys|
        invariant Shaped() && fresh(Repr - old(Repr)) && tree == t && trailers == r && forks == was
        invariant store.Keys == s.Keys
        invariant Between(tree, disk, store, keys, i, was, was + [dst], split)
        invariant src in Names(was) ==> Forking(tree, s, store, keys, i, src, dst)
        invariant src !in Names(was) ==> i == 0 && store == s && disk == d
      {
        ghost var d1, s1 := disk, store;
        assert keys[i] in store;
        BetweenAt(t, d1, s1, keys, i, was, was + [dst], split);
        BetweenParts(t, d1, s1, keys, i, was, was + [dst], split);
        ok := ForkBucket(keys[i], src, dst);
        if !ok {
          return false;
        }
        OnlyChangedBut(s1, store, keys[i]);
        BetweenStep(t, d1, s1, tree, disk, store, keys, i, was, was + [dst], split);
        ForkingStep(t, s, s1, store, keys, i, src, dst);
      }
      ok := true;
      if src !in Names(was) {
        assert s.Keys == {};
      }
    }

    /**
     * Starts a new fork with what the source holds now. It survives reloads exactly if, in every loaded
     * bucket that stores anything, the source still has items. An existing fork is left alone.
     */
    method Fork(src: ForkName, dst: ForkName) returns (ok: bool)
      requires Valid()
      modifies Repr
      ensures Valid() && fresh(Repr - old(Repr)) && tree == old(tree)
      ensures ok <==> dst != MAIN && (dst in old(forks) || src in Names(old(forks)) || old(store) == map[])
      ensures !ok || dst in old(forks) ==> store == old(store) && forks == old(forks)
      ensures ok && dst !in old(forks) ==> forks == old(forks) + [dst] && ForkResult(tree, old(store), store, src, dst)
      ensures ok && dst !in old(forks) && (forall k :: k in tree ==> tree[k] != null) ==>
                Remembered(tree, trailers, store, dst)
      ensures trailers == old(trailers)
      ensures Kept(old(tree), old(trailers), old(store), tree, trailers, store, old(forks), maxOpen, {}, multiset{})
    {
      hide Shaped, Settled, Kept, Between, Forking, ForkResult, Remembered, Right, Ascending;
      KeptSame(tree, trailers, store, forks, maxOpen, {});
      ShapedRepr();
      if dst == MAIN {
        return false;
      }
      if dst in forks {
        return true;
      }
      ghost var s, was := store, forks;
      var keys := Keys();
      SettledKeys();
      ok := ForkBuckets(keys, src, dst);
      if !ok {
        return;
      }
      forks := forks + [dst];
      BetweenEnd(tree, disk, store, keys, was, forks, split);
      if src in Names(was) {
        ForkFinished(tree, trailers, s, store, keys, src, dst, was, maxOpen);
      } else {
        NoForksToStart(tree, s, src, dst);
      }
      if forall k :: k in tree ==> tree[k] != null {
        AllLoadedRemembered(tree, trailers, store, dst);
      }
    }

    lemma MainFork()
      requires Valid()
      ensures MAIN !in forks
    {
    }

    /** Removes a fork from one bucket: its index if it is loaded, its file otherwise. */
    method UnforkBucket(key: Key, fork: ForkName, ghost was: seq<ForkName>) returns (ok: bool)
      requires Shaped() && key in tree && key in store && SettledAt(tree, disk, store, was, split, key)
      requires fork != MAIN && forks == Without(was, fork)
      modifies Repr
      ensures Shaped() && fresh(Repr - old(Repr)) && tree == old(tree) && trailers == old(trailers)
      ensures forks == old(forks) && OnlyChanged(old(store), store, key) && store.Keys == old(store).Keys
      ensures SameBut(old(disk), disk, key) && disk.Keys == old(disk).Keys
      ensures ok <==> fork in Names(was)
      ensures !ok ==> store == old(store) && disk == old(disk)
      ensures ok ==> store[key] == Unforked(old(store)[key], fork)
      ensures ok ==> SettledAt(tree, disk, store, forks, split, key)
    {
      hide Shaped, ValueOk, DiskOk, Without;
      ghost var a := store[key];
      ShapedRepr();
      UnforkedOk(a, key, split, was, fork);
      if tree[key] != null {
        OwnedRepr(key);
        ok := UnforkIn(key, fork);
        if !ok {
          assert a.forks - {fork} == a.forks;
          assert store == old(store)[key := a];
        }
      } else {
        var files := disk[key];
        if fork !in files.files {
          return false;
        }
        UnforkedOffline(a, key, files, was, fork);
        SetFiles(key, Disk(files.log, files.files - {fork}), Unforked(a, fork));
        ok := true;
      }
    }

    /** What RemoveFork does for one bucket. A loaded bucket that no other fork has items in is dropped. */
    method UnforkVisit(key: Key, fork: ForkName, ghost was: seq<ForkName>) returns (ok: bool)
      requires Shaped() && key in tree && key in store && SettledAt(tree, disk, store, was, split, key)
      requires fork != MAIN && forks == Without(was, fork)
      modifies Repr
      ensures Shaped() && fresh(Repr - old(Repr)) && forks == old(forks)
      ensures SameBut(old(tree), tree, key) && SameBut(old(disk), disk, key) && SameBut(old(store), store, key)
      ensures key in tree <==> key in store
      ensures key in disk ==> key in tree
      ensures ok <==> fork in Names(was)
      ensures !ok ==> tree == old(tree) && store == old(store) && disk == old(disk) && trailers == old(trailers)
      ensures ok && key in tree && key in store ==>
                store[key] == Unforked(old(store)[key], fork) && SettledAt(tree, disk, store, forks, split, key)
      ensures ok && key !in store ==> forall f :: f != fork ==> ForkContent(old(store)[key], f) == multiset{}
      ensures ok && old(tree)[key] != null && key in store ==> HasOthers(old(store)[key], fork)
      ensures ClosedStay(old(tree), old(trailers), tree, trailers)
      ensures Kept(old(tree), old(trailers), old(store), tree, trailers, store, forks, maxOpen, {}, multiset{})
    {
      hide Shaped, SettledAt, Kept, ForkContent, Unforked, Forget, Without, Names, ClosedStay, HasOthers;
      ClosedSame(tree, trailers);
      ghost var t0, r0, s0 := tree, trailers, store;
      KeptSame(t0, r0, s0, forks, maxOpen, {});
      ok := UnforkBucket(key, fork, was);
      OnlyChangedBut(s0, store, key);
      if !ok {
        return;
      }
      WithoutNames(was, fork);
      UnforkKept(t0, r0, s0, store, key, fork, forks, maxOpen);
      if tree[key] != null {
        ShapedRepr();
        var empty := EmptyAt(key);
        UnforkedOthers(s0[key], fork);
        if empty {
          ghost var s1 := store;
          UnforkedContent(s0[key], fork);
          VacantNow(s1, key);
          RemoveKept(t0, r0, s1, key, forks, maxOpen);
          ClosedForget(tree, trailers, key);
          trailers := Forget(trailers, key);
          disk := disk - {key};
          Remove(key);
          KeptTwice(t0, r0, s0, t0, r0, s1, tree, trailers, store, forks, maxOpen, {}, multiset{}, multiset{});
        }
      }
    }

    /** The loop of RemoveFork, after the list of forks was changed. */
    method UnforkBuckets(keys: seq<Key>, fork: ForkName, ghost was: seq<ForkName>) returns (ok: bool)
      requires Shaped() && Settled(tree, disk, store, was, split)
      requires fork != MAIN && forks == Without(was, fork)
      requires Ascending(keys) && forall k :: k in store <==> k in keys
      modifies Repr
      ensures Shaped() && fresh(Repr - old(Repr)) && forks == old(forks)
      ensures ok <==> keys == [] || fork in Names(was)
      ensures !ok ==> store == old(store) && disk == old(disk) && tree == old(tree)
      ensures ok ==> Between(tree, disk, store, keys, |keys|, was, forks, split)
      ensures ok ==> Unforking(old(store), store, keys, |keys|, fork)
      ensures ok ==> Swept(old(tree), old(store), tree, store, keys, |keys|, fork)
      ensures ClosedStay(old(tree), old(trailers), tree, trailers)
      ensures Kept(old(tree), old(trailers), old(store), tree, trailers, store, forks, maxOpen, {}, multiset{})
    {
      hide *;
      ClosedSame(tree, trailers);
      ShapedRepr();
      ghost var t0, d0, r0, s0, now := tree, disk, trailers, store, forks;
      KeptSame(t0, r0, s0, forks, maxOpen, {});
      WithoutNames(was, fork);
      UnforkStart(t0, d0, s0, keys, was, fork, split);
      UnforkingStart(s0, keys, fork);
      SweptStart(t0, s0, keys, fork);
      for i := 0 to |keys|
        invariant Shaped() && fresh(Repr - old(Repr)) && forks == now
        invariant Between(tree, disk, store, keys, i, was, now, split)
        invariant Unforking(s0, store, keys, i, fork)
        invariant fork !in Names(was) ==> i == 0 && store == s0 && disk == d0 && tree == t0
        invariant Swept(t0, s0, tree, store, keys, i, fork)
        invariant ClosedStay(t0, r0, tree, trailers)
        invariant Kept(t0, r0, s0, tree, trailers, store, now, maxOpen, {}, multiset{})
      {
        ghost var t1, d1, r1, s1 := tree, disk, trailers, store;
        UnforkingAt(s0, s1, keys, i, fork);
        BetweenAt(t1, d1, s1, keys, i, was, now, split);
        BetweenParts(t1, d1, s1, keys, i, was, now, split);
        ok := UnforkVisit(keys[i], fork, was);
        ClosedTwice(t0, r0, t1, r1, tree, trailers);
        KeptTwice(t0, r0, s0, t1, r1, s1, tree, trailers, store, now, maxOpen, {}, multiset{}, multiset{});
        if !ok {
          return false;
        }
        SweptStep(t0, s0, t1, s1, tree, store, keys, i, fork);
        BetweenStep(t1, d1, s1, tree, disk, store, keys, i, was, now, split);
        UnforkingStep(s0, s1, store, keys, i, fork);
      }
      ok := true;
    }

    /** Removes a fork from all buckets; buckets that no other fork has items in are dropped if loaded. */
    method RemoveFork(fork: ForkName) returns (ok: bool)
      requires Valid()
      modifies Repr
      ensures Valid() && fresh(Repr - old(Repr))
      ensures ok <==> fork != MAIN && (fork in old(forks) || old(store) == map[])
      ensures !ok ==> store == old(store) && forks == old(forks)
      ensures ok ==>
                && forks == Without(old(forks), fork)
                && Held(store, fork) == multiset{}
                && (forall f :: f != fork ==> Held(store, f) == Held(old(store), f))
      ensures Persistent(old(store)) ==> Persistent(store)
      ensures ok ==> forall k :: k in old(store) && k in old(tree) && old(tree)[k] != null ==>
                       (k in store <==> HasOthers(old(store)[k], fork))
      ensures ClosedStay(old(tree), old(trailers), tree, trailers)
      ensures Kept(old(tree), old(trailers), old(store), tree, trailers, store, forks, maxOpen, {}, multiset{})
    {
      hide Shaped, Settled, Kept, Between, Unforking, Ascending, Held, Without, Persistent, ClosedStay, Swept;
      hide HasOthers;
      ClosedSame(tree, trailers);
      KeptSame(tree, trailers, store, forks, maxOpen, {});
      ShapedRepr();
      if fork == MAIN {
        return false;
      }
      ghost var t, s, was := tree, store, forks;
      WithoutNames(was, fork);
      var keys := Keys();
      SettledKeys();
      forks := Without(forks, fork);
      ok := UnforkBuckets(keys, fork, was);
      if !ok {
        return;
      }
      BetweenEnd(tree, disk, store, keys, was, forks, split);
      UnforkingEnd(s, store, keys, fork);
      SweptEnd(t, s, tree, store, keys, fork);
      if keys == [] {
        assert s.Keys == {};
      }
    }

    /**
     * The length of a fork: of loaded buckets as it is, of all others as it was when they were closed. If
     * what is remembered is right, it is right exactly if no unloaded bucket without a remembered length
     * holds items of the fork; otherwise it is too small.
     */
    method Len(fork: ForkName) returns (len: int)
      requires Valid()
      ensures Right(tree, trailers, store, fork) ==>
                && len <= |Held(store, fork)|
                && (len == |Held(store, fork)| <==> NothingMissed(tree, trailers, store, fork))
      ensures Remembered(tree, trailers, store, fork) ==> len == |Held(store, fork)|
    {
      hide *;
      var keys := Keys();
      SettledKeys();
      NoBags(store, keys, fork);
      SeenStart(tree, trailers, store, keys, fork);
      len := 0;
      for i := 0 to |keys|
        invariant Right(tree, trailers, store, fork) ==>
                    && len <= |Bags(store, keys[..i], fork)|
                    && (len == |Bags(store, keys[..i], fork)| <==> SeenIn(tree, trailers, store, keys[..i], fork))
      {
        var key := keys[i];
        BagsNext(store, keys, i, fork);
        AtIs(store, key, fork);
        SeenStep(tree, trailers, store, keys, i, fork);
        if tree[key] == null {
          if (key, fork) in trailers {
            if Right(tree, trailers, store, fork) {
              RightAt(tree, trailers, store, fork, key);
            }
            len := len + trailers[(key, fork)];
          }
        } else {
          var n := LenOf(key, fork);
          len := len + n;
        }
      }
      assert keys[..|keys|] == keys;
      BagsHeld(store, keys, fork);
      SeenEnd(tree, trailers, store, keys, fork);
      if Remembered(tree, trailers, store, fork) {
        RememberedIsRight(tree, trailers, store, fork);
      }
    }

    method AttachClosed(key: Key, ghost v: Value)
      requires Shaped() && key !in tree
      modifies `tree, `store
      ensures Shaped() && tree == old(tree)[key := null] && store == old(store)[key := v]
    {
      hide Bucket.Valid, Bucket.Val;
      tree := tree[key := null];
      store := store[key := v];
    }

    /** The files of a bucket, as they are on disk now. */
    method FilesNow(key: Key) returns (files: Disk)
      requires Valid() && key in store && key in tree
      ensures FilesOk(files, store[key], key, forks)
    {
      hide Shaped, FilesOk, StoreOk;
      if tree[key] != null {
        var lens;
        files, lens := FilesOf(key);
      } else {
        files := disk[key];
      }
    }

    /** Takes over the files of a bucket. Its lengths are read from the last records. */
    method Receive(key: Key, files: Disk, ghost v: Value)
      requires Valid() && Persistent(store) && key !in tree && AllPersisted(v)
      requires FilesOk(files, v, key, forks) && BucketOk(v, key, split, Names(forks))
      modifies `tree, `disk, `trailers, `store
      ensures Valid() && Persistent(store) && tree == old(tree)[key := null] && store == old(store)[key := v]
      ensures forall f :: f in Names(forks) && f in v.forks && Stamped(v.forks[f]) && v.forks[f].state.len < TWO_32 ==>
                (Remembered(old(tree), old(trailers), old(store), f) ==> Remembered(tree, trailers, store, f))
    {
      hide Shaped, Settled, FilesOk, BucketOk, AllPersisted, Remembered, FileTrailers, Stamped;
      ghost var t, d, r, s := tree, disk, trailers, store;
      ReceiveSettled(t, d, s, forks, split, key, files, v);
      forall f | f in Names(forks) && f in v.forks && Stamped(v.forks[f]) && v.forks[f].state.len < TWO_32
                 && Remembered(t, r, s, f)
        ensures Remembered(t[key := null], r + FileTrailers(key, files), s[key := v], f)
      {
        ReceiveRemembered(t, r, s, key, files, v, forks, f);
      }
      trailers := trailers + FileTrailers(key, files);
      disk := disk[key := files];
      AttachClosed(key, v);
    }

    /** Drops all buckets. */
    method Clear()
      requires Valid() && Persistent(store)
      modifies `tree, `store, `disk, `trailers
      ensures Valid() && store == map[]
    {
      hide *;
      var keys := Keys();
      SettledKeys();
      ghost var s := store;
      for i := 0 to |keys|
        invariant Valid() && Persistent(store)
        invariant store.Keys <= s.Keys && forall j :: 0 <= j < i ==> keys[j] !in store
      {
        var dropped := Drop(keys[i]);
      }
      assert store.Keys == {};
    }

    lemma StorableAt(key: Key)
      requires Valid() && key in store && key in tree && tree[key] != null
      ensures Storable(store[key].items) && BucketOk(store[key], key, split, Names(forks))
    {
      hide FilesOk, ValueOk;
      assert Owns(key, tree[key]);
      tree[key].ValidStorable();
    }

    /** Opens a queue from its files; no bucket is loaded yet. The lengths are those in the last records. */
    constructor Open(split: Key -> Key, page: nat, maxOpen: int, continueOnErr: bool, files: map<Key, Disk>,
                     forks: seq<ForkName>, ghost values: Store)
      requires page > 0
      ensures this.split == split && this.page == page && this.maxOpen == maxOpen
      ensures this.continueOnErr == continueOnErr && this.forks == forks && disk == files && store == values
      ensures fresh(Repr) && LoadedKeys(tree) == {}
      ensures OnDisk(files, values, forks, split) ==> Valid()
      ensures OnDisk(files, values, forks, split) ==>
                forall f :: f in Names(forks) && AllStamped(values, f) && Countable(values, f) ==>
                  Remembered(tree, trailers, values, f)
    {
      this.split, this.page, this.maxOpen, this.continueOnErr := split, page, maxOpen, continueOnErr;
      this.forks, disk, store := forks, files, values;
      tree, trailers := NotLoaded(files), AllTrailers(files);
      Repr := {this};
      new;
      hide Bucket.Valid, Bucket.Val, Settled, Remembered, AllTrailers, AllStamped, Countable, OnDisk;
      NothingLoadedYet(files);
      if OnDisk(files, values, forks, split) {
        OpenSettled(files, values, forks, split);
      }
    }

    lemma IndexesAt(key: Key)
      requires Valid() && key in store && key in tree && tree[key] != null
      ensures tree[key].indexes.Keys - {MAIN} == ForkSet(forks)
    {
      hide FilesOk, ValueOk, Bucket.Valid, Bucket.Val;
      assert Owns(key, tree[key]);
      tree[key].ValidParts();
      SettledForks(key);
    }

    /** The forks of a loaded bucket, in some order. */
    method ForksAt(key: Key) returns (found: seq<ForkName>)
      requires Valid() && key in store && key in tree && tree[key] != null
      ensures ForkSet(found) == ForkSet(forks)
    {
      hide Valid;
      IndexesAt(key);
      found := [];
      var todo := tree[key].indexes.Keys - {MAIN};
      while todo != {}
        invariant ForkSet(found) + todo == ForkSet(forks)
        decreases todo
      {
        var f :| f in todo;
        found, todo := found + [f], todo - {f};
      }
    }

    /**
     * Looks for the forks on disk: in the last bucket if it is loaded, otherwise in the first one, which is
     * loaded with the forks known so far. So it finds none but those.
     */
    method FetchForks() returns (found: seq<ForkName>)
      requires Valid() && Persistent(store)
      modifies Repr
      ensures Valid() && Persistent(store) && fresh(Repr - old(Repr)) && forks == old(forks)
      ensures ForkSet(found) == if old(store) == map[] then {} else ForkSet(forks)
      ensures forall f :: Held(store, f) == Held(old(store), f)
      ensures old(store) != map[] && LoadedKeys(old(tree)) == {} ==>
                MadeRoom(old(tree), tree, MinKey(old(store).Keys), maxOpen)
      ensures Kept(old(tree), old(trailers), old(store), tree, trailers, store, forks, maxOpen, {}, multiset{})
    {
      hide Valid, Kept, Persistent, Reloaded, Held, ForkSet, MadeRoom;
      KeptSame(tree, trailers, store, forks, maxOpen, {});
      var keys := Keys();
      SettledKeys();
      NoForksIn([]);
      if keys == [] {
        assert store.Keys == {};
        return [];
      }
      var last := keys[|keys| - 1];
      assert last in store && keys[0] in store;
      FirstKey(keys, store.Keys);
      assert LoadedKeys(tree) == {} ==> last !in LoadedKeys(tree);
      if tree[last] != null {
        found := ForksAt(last);
      } else {
        ghost var s := store;
        ForKey(keys[0]);
        ReloadedAll(s, store, keys[0], ForkSet(forks));
        SettledKeys();
        found := ForksAt(keys[0]);
      }
    }

    /** Closes all loaded buckets; the files then hold the whole queue. */
    method Close()
      requires Valid()
      modifies `tree, `disk, `trailers
      ensures Valid() && LoadedKeys(tree) == {} && OnDisk(disk, store, forks, split)
      ensures Kept(old(tree), old(trailers), store, tree, trailers, store, forks, maxOpen, {}, multiset{})
    {
      hide Valid, Kept, OnDisk, Settled;
      ghost var t, r := tree, trailers;
      KeptSame(t, r, store, forks, maxOpen, {});
      var keys := Keys();
      for i := 0 to |keys|
        invariant Valid() && tree.Keys == t.Keys
        invariant forall j :: 0 <= j < i ==> tree[keys[j]] == null
        invariant Kept(t, r, store, tree, trailers, store, forks, maxOpen, {}, multiset{})
      {
        ghost var t1, r1 := tree, trailers;
        if tree[keys[i]] != null {
          CloseBucket(keys[i]);
          KeptTwice(t, r, store, t1, r1, store, tree, trailers, store, forks, maxOpen, {}, multiset{}, multiset{});
        }
      }
      assert forall k :: k in tree ==> k in keys;
      ValidSettled();
      SettledFiles(tree, disk, store, forks, split);
    }

    lemma ValidSettled()
      requires Valid()
      ensures Settled(tree, disk, store, forks, split)
    {
    }
  }
}
