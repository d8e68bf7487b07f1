/** A queue in its files: what they say about its lengths, and what loading them all gives. */
module DiskSpec {
  import opened Items
  import opened Vlog
  import opened IndexSpec
  import opened Contents
  import opened BatchIndex
  import opened ForkSpec
  import opened BucketSpec
  import opened BucketStore
  import opened Reopen
  import opened QueueSpec
  import opened TreeSpec

  /** The lengths in the files of a bucket. */
  function FileTrailers(key: Key, files: Disk): Trailers {
    map f | f in files.files :: (key, f) := LastTrailer(files.files[f])
  }

  /** All lengths of a fork fit the 32-bit field of a record. */
  ghost predicate Countable(s: Store, f: ForkName) {
    forall k :: k in s && f in s[k].forks ==> s[k].forks[f].state.len < TWO_32
  }

  lemma FileTellsLength(v: Value, key: Key, files: Disk, forks: seq<ForkName>, f: ForkName)
    requires FilesOk(files, v, key, forks) && f in Names(forks)
    requires Stamped(v.forks[f]) && v.forks[f].state.len < TWO_32
    ensures (key, f) in FileTrailers(key, files)
    ensures FileTrailers(key, files)[(key, f)] == |ForkContent(v, f)|
  {
    hide Content;
    ContentOfFork(v, key, f);
    assert v.forks[f].file == FileOf(files, f);
  }

  /** The files of a whole queue. */
  ghost predicate OnDisk(files: map<Key, Disk>, values: Store, forks: seq<ForkName>, split: Key -> Key) {
    && files.Keys == values.Keys && MAIN !in forks && StoreOk(values, split, Names(forks))
    && forall k :: k in files ==> FilesOk(files[k], values[k], k, forks)
  }

  /** The files of a queue determine what every fork holds. */
  lemma OnDiskUnique(files: map<Key, Disk>, a: Store, b: Store, forks: seq<ForkName>, split: Key -> Key)
    requires OnDisk(files, a, forks, split) && OnDisk(files, b, forks, split)
    ensures a.Keys == b.Keys && forall k :: k in a ==> a[k].items == b[k].items
    ensures forall f :: Held(a, f) == Held(b, f)
  {
    hide DiskOk, ForkContent, StoreOk, Held;
    forall k | k in a
      ensures a[k].items == b[k].items && forall f :: ForkContent(a[k], f) == ForkContent(b[k], f)
    {
      FilesDetermine(files[k], a[k], b[k], k, ForkSet(forks));
    }
    forall f
      ensures Held(a, f) == Held(b, f)
    {
      SameHeld(a, b, f);
    }
  }

  lemma {:induction false} SameHeld(a: Store, b: Store, f: ForkName)
    requires a.Keys == b.Keys && forall k :: k in a ==> ForkContent(a[k], f) == ForkContent(b[k], f)
    ensures Held(a, f) == Held(b, f)
    decreases |a|
  {
    hide ForkContent;
    if a != map[] {
      var k := MinKey(a.Keys);
      SameHeld(a - {k}, b - {k}, f);
    } else {
      assert b.Keys == {};
    }
  }

  function NotLoaded(files: map<Key, Disk>): (tree: Tree)
    ensures tree.Keys == files.Keys
  {
    map k | k in files :: null
  }

  function AllTrailers(files: map<Key, Disk>): Trailers {
    map k, f | k in files && f in files[k].files :: (k, f) := LastTrailer(files[k].files[f])
  }

  lemma NothingLoadedYet(files: map<Key, Disk>)
    ensures LoadedKeys(NotLoaded(files)) == {}
    ensures forall k :: k in files ==> NotLoaded(files)[k] == null
  {
  }

  /** An unloaded queue is intact, and the last records tell its lengths if they did before. */
  lemma OpenSettled(files: map<Key, Disk>, values: Store, forks: seq<ForkName>, split: Key -> Key)
    requires OnDisk(files, values, forks, split)
    ensures NotLoaded(files).Keys == values.Keys && Settled(NotLoaded(files), files, values, forks, split)
    ensures forall f :: f in Names(forks) && AllStamped(values, f) && Countable(values, f) ==>
              Remembered(NotLoaded(files), AllTrailers(files), values, f)
  {
    hide *;
    FilesSettled(files, values, forks, split);
    forall f | f in Names(forks) && AllStamped(values, f) && Countable(values, f)
      ensures Remembered(NotLoaded(files), AllTrailers(files), values, f)
    {
      OpenRemembered(files, values, forks, split, f);
    }
  }

  lemma FilesSettled(files: map<Key, Disk>, values: Store, forks: seq<ForkName>, split: Key -> Key)
    requires OnDisk(files, values, forks, split)
    ensures NotLoaded(files).Keys == values.Keys && Settled(NotLoaded(files), files, values, forks, split)
  {
    hide FilesOk, StoreOk;
  }

  lemma SettledFiles(tree: Tree, disk: map<Key, Disk>, store: Store, forks: seq<ForkName>, split: Key -> Key)
    requires Settled(tree, disk, store, forks, split) && LoadedKeys(tree) == {}
    ensures OnDisk(disk, store, forks, split)
  {
    hide FilesOk, StoreOk;
    forall k | k in tree
      ensures tree[k] == null
    {
      assert k !in LoadedKeys(tree);
    }
  }

  lemma OpenRemembered(files: map<Key, Disk>, values: Store, forks: seq<ForkName>, split: Key -> Key, f: ForkName)
    requires OnDisk(files, values, forks, split)
    requires f in Names(forks) && AllStamped(values, f) && Countable(values, f)
    ensures Remembered(NotLoaded(files), AllTrailers(files), values, f)
  {
    hide ForkContent, LastTrailer, DiskOk, BucketOk, Stamped;
    forall k | k in files
      ensures (k, f) in AllTrailers(files) && AllTrailers(files)[(k, f)] == |ForkContent(values[k], f)|
    {
      NamesAt(values, split, forks, k);
      FileTellsLength(values[k], k, files[k], forks, f);
    }
  }

  lemma NamesAt(values: Store, split: Key -> Key, forks: seq<ForkName>, k: Key)
    requires StoreOk(values, split, Names(forks)) && k in values
    ensures values[k].forks.Keys == Names(forks)
  {
    hide ValueOk;
  }

  // ---------- Looking for forks ----------

  /** A bucket as it looks if only the main queue is known. */
  ghost function MainValue(v: Value): Value
    requires MAIN in v.forks
  {
    Value(v.items, map[MAIN := v.forks[MAIN]])
  }

  lemma MainDisk(files: Disk, v: Value, key: Key, forks: seq<ForkName>)
    requires FilesOk(files, v, key, forks) && AllPersisted(v) && MAIN !in forks
    ensures MAIN in v.forks && DiskOk(files, MainValue(v), key, {}) && AllPersisted(MainValue(v))
    ensures UsedUp(MainValue(v)) <==> v.items != [] && ForkContent(v, MAIN) == multiset{}
    ensures Removable(files, {}) <==> forks == []
  {
    hide ForkOk, Representable, IsImage, Persisted, Content;
    assert v.forks[MAIN].file == FileOf(files, MAIN);
    RemovableIs(files, {});
    NoForksIn(forks);
    assert ForkContent(MainValue(v), MAIN) == ForkContent(v, MAIN);
  }

  /** The first bucket has stored something, but the main queue has nothing left in it. */
  ghost predicate MainDrained(s: Store) {
    s != map[] && var v := s[MinKey(s.Keys)]; v.items != [] && ForkContent(v, MAIN) == multiset{}
  }

  /**
   * Looks for the forks of a queue that is being opened: in the first bucket, which is opened knowing none.
   * So it finds none. With forks it fails if and only if the main queue is drained there: the bucket looks
   * empty, its log is removed, and the index files of the forks are in the way of the rest.
   */
  method FindForks(files: map<Key, Disk>, page: nat, continueOnErr: bool, ghost values: Store,
                   ghost forks: seq<ForkName>, ghost split: Key -> Key)
    returns (ok: bool, found: seq<ForkName>, left: map<Key, Disk>)
    requires page > 0
    ensures OnDisk(files, values, forks, split) && Persistent(values) ==>
              && (ok <==> forks == [] || !MainDrained(values))
              && (ok ==> found == [] && left == files)
              && (!ok ==> left == files[MinKey(values.Keys) := LeftBehind(files[MinKey(values.Keys)], {})])
  {
    hide FilesOk, DiskOk, AllPersisted, UsedUp, LeftBehind, StoreOk, Bucket.Valid, Bucket.Val, Bucket.Shaped;
    ok, found, left := true, [], files;
    if files == map[] {
      assert OnDisk(files, values, forks, split) ==> values.Keys == {};
      return;
    }
    assert MinKey(files.Keys) in files;
    var key :| key in files && forall k :: k in files ==> key <= k;
    MinKeyIs(files.Keys, key);
    ghost var intact := OnDisk(files, values, forks, split) && Persistent(values);
    if intact {
      MainDisk(files[key], values[key], key, forks);
    }
    var b, remains := OpenBucket(key, files[key], {}, page, continueOnErr,
                                 if intact then MainValue(values[key]) else EmptyValue({}));
    if b == null {
      return false, [], files[key := remains];
    }
    var todo := b.indexes.Keys - {MAIN};
    if intact {
      OnlyMain(b, values[key]);
    }
    while todo != {}
      invariant intact ==> todo == {} && found == []
      decreases todo
    {
      var f :| f in todo;
      found, todo := found + [f], todo - {f};
    }
  }

  lemma OnlyMain(b: Bucket, v: Value)
    requires MAIN in v.forks && b.Valid() && SameContents(MainValue(v), b.Val())
    ensures b.indexes.Keys == {MAIN}
  {
    hide ValueOk;
    b.ValidParts();
  }

  /**
   * As long as the forks are not known, no bucket can be removed when the main queue has drained it: the log
   * goes, with all that the forks have not read, and the directory stays.
   */
  lemma ForgottenForksStay(files: map<Key, Disk>, values: Store, forks: seq<ForkName>, split: Key -> Key, k: Key)
    requires OnDisk(files, values, forks, split) && k in files
    ensures Removable(files[k], {}) <==> forks == []
    ensures LeftBehind(files[k], {}).log == [] && LeftBehind(files[k], {}).files.Keys == ForkSet(forks)
  {
    hide DiskOk, StoreOk;
    RemovableIs(files[k], {});
    NoForksIn(forks);
    assert FilesOk(files[k], values[k], k, forks);
  }

  // ---------- What loading every bucket gives ----------

  /** What a fork of a bucket holds after its files were loaded. */
  ghost function LoadedAt(v: Value, files: Disk, f: ForkName): multiset<Item> {
    if f in v.forks then LoadedContent(v.items, FileOf(files, f)) else multiset{}
  }

  /** What a fork holds after every bucket was loaded from its files. */
  ghost function LoadedHeld(s: Store, files: map<Key, Disk>, f: ForkName): multiset<Item>
    requires s.Keys <= files.Keys
    decreases |s|
  {
    if s == map[] then multiset{}
    else
      var k := MinKey(s.Keys);
      LoadedAt(s[k], files[k], f) + LoadedHeld(s - {k}, files, f)
  }

  /** Loading never loses an item; it adds some to a fork exactly if the fork is not persisted. */
  lemma LoadedMore(v: Value, key: Key, files: Disk, forks: seq<ForkName>, f: ForkName)
    requires FilesOk(files, v, key, forks)
    ensures ForkContent(v, f) <= LoadedAt(v, files, f)
    ensures ForkContent(v, f) == LoadedAt(v, files, f) <==> (f in v.forks ==> Persisted(v.items, v.forks[f]))
  {
    hide Persisted, ForkOk, Representable;
    if f in v.forks {
      assert v.forks[f].file == FileOf(files, f);
      ReloadTransparent(v.items, v.forks[f]);
      LoadedKeeps(v.items, v.forks[f]);
    }
  }

  /** All buckets of a fork are persisted. */
  ghost predicate ForkPersisted(s: Store, f: ForkName) {
    forall k :: k in s && f in s[k].forks ==> Persisted(s[k].items, s[k].forks[f])
  }

  lemma {:induction false} LoadedHeldMore(s: Store, files: map<Key, Disk>, forks: seq<ForkName>, f: ForkName)
    requires s.Keys <= files.Keys && forall k :: k in s ==> FilesOk(files[k], s[k], k, forks)
    ensures Held(s, f) <= LoadedHeld(s, files, f)
    ensures Held(s, f) == LoadedHeld(s, files, f) <==> ForkPersisted(s, f)
    decreases |s|
  {
    hide FilesOk, ForkContent, LoadedAt, Persisted;
    if s != map[] {
      var k := MinKey(s.Keys);
      LoadedMore(s[k], k, files[k], forks, f);
      LoadedHeldMore(s - {k}, files, forks, f);
      SumsEqual(ForkContent(s[k], f), LoadedAt(s[k], files[k], f), Held(s - {k}, f), LoadedHeld(s - {k}, files, f));
      PersistedSplit(s, k, f);
    }
  }

  lemma PersistedSplit(s: Store, k: Key, f: ForkName)
    requires k in s
    ensures ForkPersisted(s, f)
            <==> ForkPersisted(s - {k}, f) && (f in s[k].forks ==> Persisted(s[k].items, s[k].forks[f]))
  {
    hide Persisted;
    if ForkPersisted(s - {k}, f) {
      forall j | j in s && j != k && f in s[j].forks
        ensures Persisted(s[j].items, s[j].forks[f])
      {
        assert (s - {k})[j] == s[j];
      }
    }
  }

  lemma SumsEqual<T>(a: multiset<T>, b: multiset<T>, c: multiset<T>, d: multiset<T>)
    requires a <= b && c <= d
    ensures a + c <= b + d && (a + c == b + d <==> a == b && c == d)
  {
    if a + c == b + d {
      forall x
        ensures a[x] == b[x] && c[x] == d[x]
      {
        assert (a + c)[x] == (b + d)[x];
      }
      assert a == b && c == d;
    }
  }

  /**
   * Closing a queue and loading it all again is invisible to every fork if and only if every fork of every
   * bucket is persisted.
   */
  lemma LoadedExactly(files: map<Key, Disk>, s: Store, forks: seq<ForkName>, split: Key -> Key)
    requires OnDisk(files, s, forks, split)
    ensures (forall f :: f in Names(forks) ==> LoadedHeld(s, files, f) == Held(s, f)) <==> Persistent(s)
  {
    hide Held, LoadedHeld, FilesOk, Persisted;
    forall f
      ensures LoadedHeld(s, files, f) == Held(s, f) <==> ForkPersisted(s, f)
    {
      LoadedHeldMore(s, files, forks, f);
    }
    PersistentForks(s, split, forks);
  }

  lemma PersistentForks(s: Store, split: Key -> Key, forks: seq<ForkName>)
    requires StoreOk(s, split, Names(forks))
    ensures Persistent(s) <==> forall f :: f in Names(forks) ==> ForkPersisted(s, f)
  {
    hide Persisted, ValueOk;
    if forall f :: f in Names(forks) ==> ForkPersisted(s, f) {
      forall k, f | k in s && f in s[k].forks
        ensures Persisted(s[k].items, s[k].forks[f])
      {
        NamesAt(s, split, forks, k);
        assert ForkPersisted(s, f);
      }
    }
  }
}
