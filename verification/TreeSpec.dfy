/** The tree of buckets as a value: what is loaded, what is on disk, which lengths are remembered (buckets.go). */
module TreeSpec {
  import opened Items
  import opened Contents
  import opened ForkSpec
  import opened BucketSpec
  import opened BucketStore
  import opened Spots
  import opened Reopen
  import opened QueueSpec
  import opened Eviction

  /** Buckets by key; null if a bucket is not loaded. */
  type Tree = map<Key, Bucket?>

  /** What is known of the buckets that are not loaded, and of the values of all. */
  ghost predicate Settled(tree: Tree, disk: map<Key, Disk>, store: Store, forks: seq<ForkName>, split: Key -> Key) {
    && tree.Keys == store.Keys
    && (forall k {:trigger tree[k]} :: k in tree && tree[k] == null ==>
          k in disk && FilesOk(disk[k], store[k], k, forks))
    && disk.Keys <= tree.Keys
    && StoreOk(store, split, Names(forks))
    && MAIN !in forks
  }

  /** The remembered lengths of a fork cover all buckets that are not loaded. */
  ghost predicate Remembered(tree: Tree, trailers: Trailers, store: Store, f: ForkName) {
    forall k :: k in tree && k in store && tree[k] == null ==>
      (k, f) in trailers && trailers[(k, f)] == |ForkContent(store[k], f)|
  }

  /** What is remembered of a fork is right. */
  ghost predicate Right(tree: Tree, trailers: Trailers, store: Store, f: ForkName) {
    forall k :: k in tree && k in store && tree[k] == null && (k, f) in trailers ==>
      trailers[(k, f)] == |ForkContent(store[k], f)|
  }

  lemma RightAt(tree: Tree, trailers: Trailers, store: Store, f: ForkName, k: Key)
    requires Right(tree, trailers, store, f) && k in tree && k in store && tree[k] == null && (k, f) in trailers
    ensures trailers[(k, f)] == |ForkContent(store[k], f)|
  {
  }

  /** The buckets that Len knows no length of hold nothing of the fork. */
  ghost predicate NothingMissed(tree: Tree, trailers: Trailers, store: Store, f: ForkName) {
    forall k :: k in tree && k in store && tree[k] == null && (k, f) !in trailers ==>
      ForkContent(store[k], f) == multiset{}
  }

  lemma UnloadSettled(tree: Tree, disk: map<Key, Disk>, store: Store, forks: seq<ForkName>, split: Key -> Key,
                      key: Key, files: Disk)
    requires Settled(tree, disk, store, forks, split) && key in store && FilesOk(files, store[key], key, forks)
    ensures Settled(tree[key := null], disk[key := files], store, forks, split)
  {
    hide FilesOk, StoreOk;
  }

  ghost predicate Persistent(store: Store) {
    forall k :: k in store ==> AllPersisted(store[k])
  }

  ghost function LoadedKeys(tree: Tree): set<Key> {
    set k | k in tree && tree[k] != null
  }

  type Trailers = map<(Key, ForkName), int>

  /** Every index file of a fork ends with the length of its index. */
  ghost predicate AllStamped(store: Store, f: ForkName) {
    forall k :: k in store && f in store[k].forks ==> Stamped(store[k].forks[f])
  }

  /** No index of a fork refers to a stored item twice. */
  ghost predicate AllOnce(store: Store, f: ForkName) {
    forall k :: k in store && f in store[k].forks ==> OnceIn(store[k], f)
  }

  /** All that was ever stored in a bucket that still exists. */
  ghost function LogAt(s: Store, k: Key): seq<Item> {
    if k in s then s[k].items else []
  }

  /** The logs gained no more than these items. */
  ghost predicate LogsGrow(s: Store, t: Store, added: multiset<Item>) {
    forall k :: k in t ==> multiset(LogAt(t, k)) <= multiset(LogAt(s, k)) + added
  }

  lemma LogsGrowTwice(s: Store, t: Store, u: Store, a: multiset<Item>, b: multiset<Item>)
    requires LogsGrow(s, t, a) && LogsGrow(t, u, b)
    ensures LogsGrow(s, u, a + b)
  {
    forall k | k in u
      ensures multiset(LogAt(u, k)) <= multiset(LogAt(s, k)) + (a + b)
    {
      assert multiset(LogAt(t, k)) <= multiset(LogAt(s, k)) + a;
    }
  }

  /**
   * Lengths stay remembered, what is remembered stays right, and the limit of loaded buckets stays
   * respected. But for the forks named, the files still tell the lengths, and no stored item is indexed
   * twice. The logs gained no more than the items named.
   */
  ghost predicate Kept(t0: Tree, r0: Trailers, s0: Store, t: Tree, r: Trailers, s: Store,
                       forks: seq<ForkName>, maxOpen: int, spoilt: set<ForkName>, added: multiset<Item>) {
    && (forall f :: f in Names(forks) && Remembered(t0, r0, s0, f) ==> Remembered(t, r, s, f))
    && (forall f :: f in Names(forks) && Right(t0, r0, s0, f) ==> Right(t, r, s, f))
    && (maxOpen > 0 && |LoadedKeys(t0)| <= maxOpen ==> |LoadedKeys(t)| <= maxOpen)
    && (forall f :: f in Names(forks) - spoilt && AllStamped(s0, f) ==> AllStamped(s, f))
    && (forall f :: f in Names(forks) - spoilt && AllOnce(s0, f) ==> AllOnce(s, f))
    && LogsGrow(s0, s, added)
  }

  lemma KeptSame(t: Tree, r: Trailers, s: Store, forks: seq<ForkName>, maxOpen: int, spoilt: set<ForkName>)
    ensures Kept(t, r, s, t, r, s, forks, maxOpen, spoilt, multiset{})
  {
  }

  lemma KeptTwice(t0: Tree, r0: Trailers, s0: Store, t1: Tree, r1: Trailers, s1: Store,
                  t2: Tree, r2: Trailers, s2: Store, forks: seq<ForkName>, maxOpen: int, spoilt: set<ForkName>,
                  a: multiset<Item>, b: multiset<Item>)
    requires Kept(t0, r0, s0, t1, r1, s1, forks, maxOpen, spoilt, a)
    requires Kept(t1, r1, s1, t2, r2, s2, forks, maxOpen, spoilt, b)
    ensures Kept(t0, r0, s0, t2, r2, s2, forks, maxOpen, spoilt, a + b)
    ensures a == multiset{} ==> Kept(t0, r0, s0, t2, r2, s2, forks, maxOpen, spoilt, b)
    ensures b == multiset{} ==> Kept(t0, r0, s0, t2, r2, s2, forks, maxOpen, spoilt, a)
  {
    hide Remembered, Right, LoadedKeys, AllStamped, AllOnce, Names, LogsGrow;
    LogsGrowTwice(s0, s1, s2, a, b);
    assert a == multiset{} ==> a + b == b;
    assert b == multiset{} ==> a + b == a;
  }

  lemma KeptRemembers(t0: Tree, r0: Trailers, s0: Store, t: Tree, r: Trailers, s: Store, forks: seq<ForkName>,
                      maxOpen: int, spoilt: set<ForkName>, added: multiset<Item>, f: ForkName)
    requires Kept(t0, r0, s0, t, r, s, forks, maxOpen, spoilt, added) && f in Names(forks)
    ensures Remembered(t0, r0, s0, f) ==> Remembered(t, r, s, f)
  {
    hide Remembered, Right, LoadedKeys, AllStamped, AllOnce, Names, LogsGrow;
  }

  lemma KeptLess(t0: Tree, r0: Trailers, s0: Store, t: Tree, r: Trailers, s: Store, forks: seq<ForkName>,
                 maxOpen: int, spoilt: set<ForkName>, more: set<ForkName>, added: multiset<Item>)
    requires Kept(t0, r0, s0, t, r, s, forks, maxOpen, spoilt, added) && spoilt <= more
    ensures Kept(t0, r0, s0, t, r, s, forks, maxOpen, more, added)
  {
    hide Remembered, Right, LoadedKeys, AllStamped, AllOnce, Names, LogsGrow;
  }

  /** A loaded bucket changed. */
  lemma ChangeSettled(tree: Tree, disk: map<Key, Disk>, store: Store, forks: seq<ForkName>, split: Key -> Key,
                      key: Key, v: Value)
    requires Settled(tree, disk, store, forks, split) && key in tree && tree[key] != null
    requires BucketOk(v, key, split, Names(forks))
    ensures Settled(tree, disk, store[key := v], forks, split)
  {
    hide FilesOk, BucketOk;
  }

  /** The changed bucket has no new forks, and (but for the forks named last) Upkeep holds for all. */
  ghost predicate UpkeepHolds(a: Value, b: Value, spoilt: set<ForkName>) {
    forall f :: f in b.forks && f !in spoilt ==>
      && f in a.forks
      && (Stamped(a.forks[f]) ==> Stamped(b.forks[f]))
      && (OnceIn(a, f) ==> OnceIn(b, f))
  }

  lemma ChangeKept(tree: Tree, trailers: Trailers, store: Store, key: Key, v: Value, forks: seq<ForkName>,
                   maxOpen: int, spoilt: set<ForkName>, added: multiset<Item>)
    requires key in store && key in tree && tree[key] != null && UpkeepHolds(store[key], v, spoilt)
    requires multiset(v.items) <= multiset(store[key].items) + added
    ensures Kept(tree, trailers, store, tree, trailers, store[key := v], forks, maxOpen, spoilt, added)
  {
    hide ForkContent, Stamped, OnceIn;
  }

  /** A bucket was loaded. */
  lemma AttachSettled(tree: Tree, disk: map<Key, Disk>, store: Store, forks: seq<ForkName>, split: Key -> Key,
                      key: Key, buck: Bucket, v: Value)
    requires Settled(tree, disk, store, forks, split) && BucketOk(v, key, split, Names(forks))
    ensures Settled(tree[key := buck], disk - {key}, store[key := v], forks, split)
  {
    hide FilesOk, BucketOk;
  }

  lemma AttachUpkeep(store: Store, key: Key, v: Value, forks: seq<ForkName>, f: ForkName)
    requires UpkeepHolds(Stored(store, key, forks), v, {})
    ensures AllStamped(store, f) ==> AllStamped(store[key := v], f)
    ensures AllOnce(store, f) ==> AllOnce(store[key := v], f)
  {
    hide Stamped, Once;
    EmptyStamps(ForkSet(forks));
    NoSpots([]);
  }

  lemma AttachRemembered(tree: Tree, trailers: Trailers, store: Store, key: Key, buck: Bucket, v: Value, f: ForkName)
    requires Remembered(tree, trailers, store, f)
    ensures Remembered(tree[key := buck], trailers, store[key := v], f)
  {
    hide ForkContent;
  }

  lemma AttachRight(tree: Tree, trailers: Trailers, store: Store, key: Key, buck: Bucket, v: Value, f: ForkName)
    requires Right(tree, trailers, store, f)
    ensures Right(tree[key := buck], trailers, store[key := v], f)
  {
    hide ForkContent;
  }

  lemma AttachKept(tree: Tree, trailers: Trailers, store: Store, key: Key, buck: Bucket, v: Value,
                   forks: seq<ForkName>, maxOpen: int)
    requires key in tree ==> tree[key] == null
    requires maxOpen > 0 ==> |LoadedKeys(tree)| < maxOpen
    requires UpkeepHolds(Stored(store, key, forks), v, {}) && SameContents(Stored(store, key, forks), v)
    ensures Kept(tree, trailers, store, tree[key := buck], trailers, store[key := v], forks, maxOpen, {}, multiset{})
  {
    hide ForkContent, AllStamped, AllOnce, Remembered, Right, UpkeepHolds, Names, Stored;
    forall f | f in Names(forks)
      ensures AllStamped(store, f) ==> AllStamped(store[key := v], f)
      ensures AllOnce(store, f) ==> AllOnce(store[key := v], f)
      ensures Remembered(tree, trailers, store, f) ==> Remembered(tree[key := buck], trailers, store[key := v], f)
      ensures Right(tree, trailers, store, f) ==> Right(tree[key := buck], trailers, store[key := v], f)
    {
      AttachUpkeep(store, key, v, forks, f);
      if Remembered(tree, trailers, store, f) {
        AttachRemembered(tree, trailers, store, key, buck, v, f);
      }
      if Right(tree, trailers, store, f) {
        AttachRight(tree, trailers, store, key, buck, v, f);
      }
    }
    AttachLogs(store, key, v, forks);
    assert LoadedKeys(tree[key := buck]) == LoadedKeys(tree) + {key};
  }

  lemma AttachLogs(store: Store, key: Key, v: Value, forks: seq<ForkName>)
    requires SameContents(Stored(store, key, forks), v)
    ensures LogsGrow(store, store[key := v], multiset{})
  {
  }

  /** A bucket was removed, together with its files and its remembered lengths. */
  lemma RemoveSettled(tree: Tree, disk: map<Key, Disk>, store: Store, forks: seq<ForkName>, split: Key -> Key, key: Key)
    requires Settled(tree, disk, store, forks, split)
    ensures Settled(tree - {key}, disk - {key}, store - {key}, forks, split)
  {
    hide FilesOk, BucketOk;
  }

  function Forget(trailers: Trailers, key: Key): Trailers {
    map t | t in trailers && t.0 != key :: trailers[t]
  }

  lemma RemoveKept(tree: Tree, trailers: Trailers, store: Store, key: Key, forks: seq<ForkName>, maxOpen: int)
    ensures Kept(tree, trailers, store, tree - {key}, Forget(trailers, key), store - {key}, forks, maxOpen, {},
                 multiset{})
  {
    hide ForkContent, Stamped, OnceIn;
    SmallerSet(LoadedKeys(tree - {key}), LoadedKeys(tree));
  }

  lemma {:induction false} SmallerSet<T>(a: set<T>, b: set<T>)
    requires a <= b
    ensures |a| <= |b|
  {
    assert b == a + (b - a);
  }

  function TrailersOf(key: Key, lens: map<ForkName, int>): Trailers {
    map f | f in lens :: (key, f) := lens[f]
  }

  lemma UnloadRemembers(tree: Tree, trailers: Trailers, store: Store, key: Key, lens: map<ForkName, int>, f: ForkName)
    requires key in store && f in lens && lens[f] == |ForkContent(store[key], f)|
    ensures var r := trailers + TrailersOf(key, lens);
            && (Remembered(tree, trailers, store, f) ==> Remembered(tree[key := null], r, store, f))
            && (Right(tree, trailers, store, f) ==> Right(tree[key := null], r, store, f))
  {
    hide ForkContent;
  }

  lemma UnloadKept(tree: Tree, trailers: Trailers, store: Store, key: Key, lens: map<ForkName, int>,
                   forks: seq<ForkName>, maxOpen: int)
    requires key in store && key in tree && tree[key] != null && lens.Keys == Names(forks)
    requires forall f :: f in lens ==> lens[f] == |ForkContent(store[key], f)|
    ensures Kept(tree, trailers, store, tree[key := null], trailers + TrailersOf(key, lens), store, forks, maxOpen, {},
                 multiset{})
    ensures LoadedKeys(tree[key := null]) == LoadedKeys(tree) - {key}
    ensures |LoadedKeys(tree[key := null])| == |LoadedKeys(tree)| - 1
  {
    hide ForkContent, Remembered, Right, TrailersOf, AllStamped, AllOnce;
    forall f | f in Names(forks)
      ensures var r := trailers + TrailersOf(key, lens);
              && (Remembered(tree, trailers, store, f) ==> Remembered(tree[key := null], r, store, f))
              && (Right(tree, trailers, store, f) ==> Right(tree[key := null], r, store, f))
    {
      UnloadRemembers(tree, trailers, store, key, lens, f);
    }
    assert LoadedKeys(tree[key := null]) == LoadedKeys(tree) - {key};
  }

  /** A callback that does not push. */
  ghost predicate Quiet(fn: seq<Item> -> Decision) {
    forall s: seq<Item> {:trigger fn(s)} :: fn(s).push == []
  }

  lemma QuietPushable(items: seq<Item>, key: Key, fn: seq<Item> -> Decision)
    requires Quiet(fn) && Representable(items)
    ensures forall s: seq<Item> {:trigger fn(s)} :: Pushable(items, fn(s).push, key)
  {
    assert items + [] == items;
  }

  /** The loaded buckets among these. */
  ghost function LoadedIn(tree: Tree, keys: seq<Key>): set<Key> {
    set k | k in LoadedKeys(tree) && k in keys
  }

  ghost predicate Ascending(keys: seq<Key>) {
    forall i, j :: 0 <= i < j < |keys| ==> keys[i] < keys[j]
  }

  lemma FirstKey(keys: seq<Key>, all: set<Key>)
    requires keys != [] && Ascending(keys) && forall k :: k in all <==> k in keys
    ensures all != {} && MinKey(all) == keys[0]
  {
    assert keys[0] in all;
    MinKeyIs(all, keys[0]);
  }

  lemma LoadedStep(tree: Tree, keys: seq<Key>, i: nat)
    requires Ascending(keys) && i < |keys| && keys[i] in tree
    ensures |LoadedIn(tree, keys[..i + 1])| == |LoadedIn(tree, keys[..i])| + (if tree[keys[i]] != null then 1 else 0)
  {
    assert keys[..i + 1] == keys[..i] + [keys[i]];
    assert keys[i] !in keys[..i];
    if tree[keys[i]] != null {
      assert LoadedIn(tree, keys[..i + 1]) == LoadedIn(tree, keys[..i]) + {keys[i]};
    } else {
      assert LoadedIn(tree, keys[..i + 1]) == LoadedIn(tree, keys[..i]);
    }
  }

  lemma NothingLoaded(tree: Tree, keys: seq<Key>)
    requires keys == []
    ensures LoadedIn(tree, keys) == {}
  {
  }

  lemma LoadedAll(tree: Tree, keys: seq<Key>)
    requires forall k :: k in tree ==> k in keys
    ensures LoadedIn(tree, keys) == LoadedKeys(tree)
  {
  }

  // ---------- Eviction ----------

  /** The buckets visited in the first rounds are closed, all others are as they were. */
  ghost predicate Visited(t: Tree, tree: Tree, keys: seq<Key>, rounds: int) {
    && tree.Keys == t.Keys
    && forall j :: 0 <= j < |keys| ==>
         keys[j] in t && tree[keys[j]] == if Turn(|keys|, j) < rounds then null else t[keys[j]]
  }

  /** Some buckets were closed, and those around the middle of the key range first. */
  ghost predicate ClosedFromMiddle(t: Tree, tree: Tree) {
    && tree.Keys == t.Keys
    && exists keys :: Ascending(keys) && |keys| == |t| && FromMiddle(t, tree, keys)
  }

  ghost predicate FromMiddle(t: Tree, tree: Tree, keys: seq<Key>) {
    && (forall i :: 0 <= i < |keys| ==>
          keys[i] in t && keys[i] in tree && (tree[keys[i]] == null || tree[keys[i]] == t[keys[i]]))
    && (forall i, j :: 0 <= i < |keys| && 0 <= j < |keys| ==>
          (t[keys[i]] != null && tree[keys[i]] == null && tree[keys[j]] != null ==> Nearer(|keys|, i, j)))
  }

  lemma ClosedSoFar(t: Tree, tree: Tree, keys: seq<Key>, rounds: int)
    requires Ascending(keys) && |keys| == |t| && Visited(t, tree, keys, rounds)
    ensures ClosedFromMiddle(t, tree)
  {
    hide Turn, Nearer;
    forall i, j | 0 <= i < |keys| && 0 <= j < |keys| && t[keys[i]] != null && tree[keys[i]] == null
                  && tree[keys[j]] != null
      ensures Nearer(|keys|, i, j)
    {
      MiddleFirst(|keys|, i, j);
    }
    assert FromMiddle(t, tree, keys);
  }

  lemma NothingVisited(tree: Tree, keys: seq<Key>)
    requires forall k :: k in tree <==> k in keys
    ensures Visited(tree, tree, keys, 0)
  {
    PivotVisitsAll(|keys|);
  }

  lemma PivotIs(n: nat, idx: nat, realIdx: int)
    requires realIdx == if idx % 2 == 0 then n / 2 + idx / 2 else n / 2 - idx / 2 - 1
    ensures realIdx == Pivot(n, idx)
    ensures idx < n ==> 0 <= realIdx < n
  {
    PivotVisitsAll(n);
  }

  lemma VisitStep(t: Tree, tree: Tree, tree': Tree, keys: seq<Key>, idx: nat)
    requires idx < |keys| && Ascending(keys) && Visited(t, tree, keys, idx)
    requires 0 <= Pivot(|keys|, idx) < |keys| && tree'.Keys == tree.Keys
    requires forall k :: k in tree ==> tree'[k] == if k == keys[Pivot(|keys|, idx)] then null else tree[k]
    ensures Visited(t, tree', keys, idx + 1)
  {
    PivotVisitsAll(|keys|);
  }

  lemma StillLoaded(t: Tree, tree: Tree, keys: seq<Key>, rounds: int)
    requires Visited(t, tree, keys, rounds) && forall k :: k in tree ==> k in keys
    ensures forall k :: k in tree && tree[k] != null ==> tree[k] == t[k]
  {
  }

  lemma AllVisited(t: Tree, tree: Tree, keys: seq<Key>)
    requires Visited(t, tree, keys, |keys|) && forall k :: k in tree ==> k in keys
    ensures LoadedKeys(tree) == {}
  {
    PivotVisitsAll(|keys|);
  }

  // ---------- Loading ----------

  /**
   * A bucket was opened, unless it was open. Before, as many others were closed, from the middle, as the
   * limit asks for, and none if it is not reached or off; all others stay as they were.
   */
  ghost predicate MadeRoom(t: Tree, tree: Tree, key: Key, maxOpen: int) {
    if key in t && t[key] != null then tree == t
    else
      var nloaded := |LoadedKeys(t)|;
      && key in tree && tree[key] != null
      && |LoadedKeys(tree)| == (if 0 < maxOpen <= nloaded then maxOpen - 1 else nloaded) + 1
      && (!(0 < maxOpen <= nloaded) ==> tree == t[key := tree[key]])
      && (0 < maxOpen <= nloaded ==> ClosedFromMiddle(t, if key in t then tree[key := null] else tree - {key}))
  }

  lemma AlreadyOpen(t: Tree, key: Key, maxOpen: int)
    requires key in t && t[key] != null
    ensures MadeRoom(t, t, key, maxOpen)
  {
  }

  lemma NowOpen(t: Tree, t1: Tree, tree: Tree, key: Key, maxOpen: int)
    requires !(key in t && t[key] != null) && (key in t1 ==> t1[key] == null)
    requires key in tree && tree[key] != null && tree == t1[key := tree[key]]
    requires |LoadedKeys(t1)| == if 0 < maxOpen <= |LoadedKeys(t)| then maxOpen - 1 else |LoadedKeys(t)|
    requires t1.Keys == t.Keys && if 0 < maxOpen <= |LoadedKeys(t)| then ClosedFromMiddle(t, t1) else t1 == t
    ensures MadeRoom(t, tree, key, maxOpen)
  {
    hide ClosedFromMiddle;
    assert t1 == if key in t then tree[key := null] else tree - {key};
    assert LoadedKeys(tree) == LoadedKeys(t1) + {key};
  }


  /** What the files of a bucket stand for. A bucket without files is empty. */
  ghost function Stored(store: Store, key: Key, forks: seq<ForkName>): Value {
    if key in store then store[key] else EmptyValue(ForkSet(forks))
  }

  function FilesAt(disk: map<Key, Disk>, key: Key): Disk {
    if key in disk then disk[key] else EMPTY_DISK
  }

  lemma StoredFiles(tree: Tree, disk: map<Key, Disk>, store: Store, forks: seq<ForkName>, split: Key -> Key, key: Key)
    requires Settled(tree, disk, store, forks, split) && Persistent(store) && (key in tree ==> tree[key] == null)
    ensures DiskOk(FilesAt(disk, key), Stored(store, key, forks), key, ForkSet(forks))
    ensures AllPersisted(Stored(store, key, forks)) && Removable(FilesAt(disk, key), ForkSet(forks))
    ensures BucketOk(Stored(store, key, forks), key, split, Names(forks))
  {
    hide DiskOk, AllPersisted, ValueOk, Removable;
    RemovableIs(FilesAt(disk, key), ForkSet(forks));
    if key !in store {
      EmptyDiskOk(key, ForkSet(forks));
      EmptyBucketOk(key, split, forks);
    }
  }

  lemma EmptyBucketOk(key: Key, split: Key -> Key, forks: seq<ForkName>)
    ensures BucketOk(EmptyValue(ForkSet(forks)), key, split, Names(forks))
  {
    EmptyDiskOk(key, ForkSet(forks));
  }

  lemma LoadedOk(v: Value, w: Value, key: Key, split: Key -> Key, names: set<ForkName>)
    requires BucketOk(v, key, split, names) && SameContents(v, w) && ValueOk(w, key)
    ensures BucketOk(w, key, split, names)
  {
    hide ValueOk;
  }

  lemma ChangedUpkeep(v: Value, w: Value, key: Key, split: Key -> Key, names: set<ForkName>)
    requires Upkeep(v, w) && BucketOk(v, key, split, names) && BucketOk(w, key, split, names)
    ensures UpkeepHolds(v, w, {})
  {
    hide Stamped, ValueOk, OnceIn;
  }

  lemma LoadReloaded(store: Store, key: Key, forks: seq<ForkName>, w: Value)
    requires SameContents(Stored(store, key, forks), w)
    ensures Reloaded(store, store[key := w], key, ForkSet(forks))
  {
    hide SameContents, EmptyValue;
  }

  lemma LoadPersistent(store: Store, key: Key, w: Value)
    requires Persistent(store) && AllPersisted(w)
    ensures Persistent(store[key := w])
  {
    hide AllPersisted;
  }

  lemma NotReloaded(store: Store, key: Key, forks: seq<ForkName>)
    requires key in store
    ensures Reloaded(store, store, key, ForkSet(forks))
  {
  }
}
