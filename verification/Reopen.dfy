/** Opening a bucket from its files (loadIndex, recoverIndexFromLog and openBucket in bucket.go). */
module Reopen {
  import opened Items
  import opened Vlog
  import opened IndexSpec
  import opened Contents
  import opened BatchIndex
  import opened ForkSpec
  import opened RangeSpec
  import opened Recovery
  import opened BucketSpec
  import opened BucketStore
  import opened Spots

  /** A bucket on disk: the log file and one index file per fork. */
  datatype Disk = Disk(log: seq<Byte>, files: map<ForkName, seq<Byte>>)

  /** Loading trusts an index file if it is whole and not suspiciously empty. */
  ghost predicate Trusted(file: seq<Byte>, logIsEmpty: bool) {
    Whole(file) && (Sets(Records(file)) != [] || logIsEmpty)
  }

  /** What a fork holds after its index file was loaded over a non-empty log file. */
  ghost function LoadedContent(items: seq<Item>, file: seq<Byte>): multiset<Item> {
    if Trusted(file, false) then Content(items, ApplyAll(map[], Records(file))) else multiset(items)
  }

  /** Loading a trusted file gives back the index; anything else is rebuilt from the log. */
  method LoadIndex(file: seq<Byte>, log: Log) returns (idx: BucketIndex)
    requires log.InBounds()
    ensures fresh(idx.Mem) && fresh(idx.Log)
    ensures Trusted(file, log.isEmpty) ==> idx.Mem.Value() == Replay(EMPTY, Records(file)) && idx.Log.file == file
    ensures var found := Found(log.mmap[..], log.size, 0, Item(0, []));
            !Trusted(file, log.isEmpty) && |found| < ALL_ITEMS ==>
              idx.Mem.m == Recovered(found) && idx.Log.file == Compact(Flatten(idx.Mem.m), 0)
    ensures log.Valid() && Representable(log.items) && !Trusted(file, log.isEmpty) ==>
              && Content(log.items, idx.Mem.m) == multiset(log.items) && idx.Mem.len == idx.Mem.nentries == |log.items|
              && idx.Log.file == Compact(Flatten(idx.Mem.m), 0) && idx.Mem.m == Recovered(log.items)
              && (IndexOk(log.items, idx.Mem.m) <==> log.items == [] || log.items[0].key >= 0)
  {
    hide IsImage, IndexOk, Content, Compact, Flatten, Records, Found, Recovered, Reach;
    ReplayEntries(EMPTY, Records(file));
    var mem, failed := Load(file);
    var idxFile := file;
    if failed || (mem.nentries == 0 && !log.isEmpty) {
      mem := FromVlog(log);
      var repaired := new Writer([]);
      WriteIndex(mem, repaired);
      idxFile := repaired.file;
      assert [] + Compact(Flatten(mem.m), 0) == Compact(Flatten(mem.m), 0);
    }
    var idxLog := new Writer(idxFile);
    return BucketIndex(idxLog, mem);
  }

  /** A fork that a reload does not lose track of. */
  ghost predicate Persisted(items: seq<Item>, f: ForkValue) {
    Sets(Records(f.file)) != [] || items == []
  }

  lemma NoSetsEmpty(ops: seq<Location>)
    requires Sets(ops) == []
    ensures Replay(EMPTY, ops) == EMPTY
  {
    ReplayEntries(EMPTY, ops);
  }

  /**
   * Closing and reopening is invisible to a fork if and only if its index file has recorded at least one
   * batch, or nothing was ever pushed: otherwise all items ever pushed come back.
   */
  lemma ReloadTransparent(items: seq<Item>, f: ForkValue)
    requires ForkOk(items, f)
    ensures LoadedContent(items, f.file) == Content(items, f.state.m) <==> Persisted(items, f)
  {
    EmptyCounted(items);
    if Sets(Records(f.file)) == [] {
      NoSetsEmpty(Records(f.file));
      ReplayMap(EMPTY, Records(f.file));
      if items != [] {
        assert items[0] in multiset(items);
      }
    }
  }

  /** Loading never loses an item of a fork. */
  lemma LoadedKeeps(items: seq<Item>, f: ForkValue)
    requires ForkOk(items, f)
    ensures Content(items, f.state.m) <= LoadedContent(items, f.file)
  {
    MirrorReloads(items, f);
    ReplayMap(EMPTY, Records(f.file));
    if !Trusted(f.file, false) {
      NoSetsEmpty(Records(f.file));
      EmptyCounted(items);
    }
  }

  /** A new fork survives a reload if and only if its source was not empty, or nothing was ever pushed. */
  lemma ForkPersists(a: Value, b: Value, key: Key, src: ForkName, dst: ForkName)
    requires ValueOk(a, key) && ForkEffect(a, b, src, dst)
    ensures Persisted(b.items, b.forks[dst]) <==> a.forks[src].state.m != map[] || a.items == []
  {
    var m := a.forks[src].state.m;
    ContentOfFork(a, key, src);
    forall i | 0 <= i < |Flatten(m)|
      ensures Fits(Flatten(m)[i]) && Flatten(m)[i].len > 0
    {
      FlattenOk(a.items, m, i);
      LocFits(a.items, Flatten(m)[i]);
    }
    CompactRecords(Flatten(m), 0);
    PlainSets(map[], Flatten(m));
    FlattenEmpty(m);
  }

  /** The two outcomes of loading an index file, as values. */
  ghost predicate LoadedFrom(items: seq<Item>, file: seq<Byte>, logIsEmpty: bool, g: ForkValue) {
    if Trusted(file, logIsEmpty) then g == ForkValue(Replay(EMPTY, Records(file)), file)
    else
      && Content(items, g.state.m) == multiset(items) && g.state.len == g.state.entries == |items|
      && g.file == Compact(Flatten(g.state.m), 0) && g.state.m == Recovered(items)
      && (IndexOk(items, g.state.m) <==> items == [] || items[0].key >= 0)
  }

  lemma EmptyStamped(g: ForkValue)
    requires g.file == Compact(Flatten(map[]), 0) && g.state.len == 0
    ensures Stamped(g)
  {
  }

  /** A persisted fork comes back as it was. */
  lemma LoadOk(items: seq<Item>, f: ForkValue, logIsEmpty: bool, g: ForkValue)
    requires Representable(items) && ForkOk(items, f) && Persisted(items, f) && (logIsEmpty ==> items == [])
    requires LoadedFrom(items, f.file, logIsEmpty, g)
    ensures ForkOk(items, g) && Persisted(items, g) && g.state.m == f.state.m && (Stamped(f) ==> Stamped(g))
  {
    hide Content, Flatten, Compact, Records, LastTrailer;
    if Trusted(f.file, logIsEmpty) {
      MirrorReloads(items, f);
    } else {
      assert items == [] && Sets(Records(f.file)) == [];
      NoSetsEmpty(Records(f.file));
      MirrorReloads(items, f);
      EmptyCounted(items);
      CompactMirrors(items, g.state.m);
      NoItemsNoIndex(items, g.state.m);
      EmptyStamped(g);
    }
  }

  lemma EmptyFile()
    ensures forall f :: FileOf(EMPTY_DISK, f) == []
  {
  }

  function FileOf(disk: Disk, f: ForkName): seq<Byte> {
    if f in disk.files then disk.files[f] else []
  }

  ghost predicate AllPersisted(v: Value) {
    forall f :: f in v.forks ==> Persisted(v.items, v.forks[f])
  }

  lemma SetsPrefix(a: seq<Location>, b: seq<Location>)
    requires a <= b && Sets(a) != []
    ensures Sets(b) != []
  {
    assert b == a + b[|a|..];
    SetsConcat(a, b[|a|..]);
  }

  /** Growing index files over the same log stay persisted. */
  lemma GrownPersists(a: Value, b: Value)
    requires AllPersisted(a) && Grown(a, b) && b.items == a.items && b.forks.Keys == a.forks.Keys
    ensures AllPersisted(b)
  {
    hide Records;
    forall f | f in b.forks
      ensures Persisted(b.items, b.forks[f])
    {
      assert Persisted(a.items, a.forks[f]);
      if Sets(Records(a.forks[f].file)) != [] {
        SetsPrefix(Records(a.forks[f].file), Records(b.forks[f].file));
      }
    }
  }

  /** After a push to all forks, all are persisted. */
  lemma PushPersists(a: Value, v: Value, key: Key, batch: seq<Item>, loc: Location)
    requires ValueOk(a, key) && AllPersisted(a) && Representable(v.items)
    requires batch == [] ==> v == a
    requires batch != [] ==>
               && v.items == a.items + batch && LocOk(v.items, loc)
               && Partly(Value(v.items, a.forks), v, loc, a.forks.Keys)
    ensures AllPersisted(v)
  {
    hide Records, ForkOk, Logged, LocOk, Representable;
    if batch != [] {
      PushGrown(a, v, key, batch, loc, a.forks.Keys);
      LocOkLength(v.items, loc);
      forall f | f in v.forks
        ensures Persisted(v.items, v.forks[f])
      {
        SetsConcat(Records(a.forks[f].file), [loc]);
        assert Sets([loc]) == [loc] + Sets([loc][1..]);
      }
    }
  }

  /** The files of an undamaged bucket with these forks. */
  ghost predicate DiskOk(disk: Disk, v: Value, key: Key, forks: set<ForkName>) {
    && IsImage(disk.log, v.items)
    && ValueOk(v, key)
    && v.forks.Keys == forks + {MAIN}
    && forall f :: f in v.forks ==> v.forks[f].file == FileOf(disk, f)
  }

  /** The files of a bucket determine what it holds: log, indexes and lengths. */
  lemma FilesDetermine(disk: Disk, a: Value, b: Value, key: Key, forks: set<ForkName>)
    requires DiskOk(disk, a, key, forks) && DiskOk(disk, b, key, forks)
    ensures a.items == b.items && a.forks.Keys == b.forks.Keys
    ensures forall f :: f in a.forks ==>
              && a.forks[f].state.m == b.forks[f].state.m && a.forks[f].state.len == b.forks[f].state.len
              && a.forks[f].file == b.forks[f].file
    ensures forall f :: ForkContent(a, f) == ForkContent(b, f)
  {
    hide ForkOk, Representable, IsImage;
    ImageUnique(disk.log, a.items, b.items);
    forall f | f in a.forks
      ensures a.forks[f].state.m == b.forks[f].state.m && a.forks[f].state.len == b.forks[f].state.len
    {
      MirrorReloads(a.items, a.forks[f]);
      MirrorReloads(b.items, b.forks[f]);
    }
  }

  /** What opening may do to a bucket: nothing a fork can see; the log of an empty bucket may be dropped. */
  ghost predicate SameContents(a: Value, b: Value) {
    && b.forks.Keys == a.forks.Keys
    && (forall f :: f in a.forks ==> b.forks[f].state.m == a.forks[f].state.m)
    && (b.items == a.items || (b.items == [] && forall f :: f in a.forks ==> a.forks[f].state.m == map[]))
  }

  lemma SameForkContent(a: Value, b: Value, f: ForkName)
    requires SameContents(a, b)
    ensures ForkContent(b, f) == ForkContent(a, f)
  {
    EmptyCounted(a.items);
    EmptyCounted(b.items);
  }

  lemma SameForkContents(a: Value, b: Value)
    requires SameContents(a, b)
    ensures forall f :: ForkContent(b, f) == ForkContent(a, f)
  {
    hide ForkContent, SameContents;
    forall f
      ensures ForkContent(b, f) == ForkContent(a, f)
    {
      SameForkContent(a, b, f);
    }
  }

  lemma IndexHoldsItem(items: seq<Item>, m: Locs, k: Key)
    requires IndexOk(items, m) && k in m
    ensures Content(items, m) != multiset{}
  {
    ContentIncludes(items, m, k, 0);
    assert LocOk(items, m[k][0]);
    assert Run(items, m[k][0])[0] in multiset(Run(items, m[k][0]));
  }

  /** An index without items is empty. */
  lemma NoItemsNoIndex(items: seq<Item>, m: Locs)
    requires IndexOk(items, m) && Content(items, m) == multiset{}
    ensures m == map[]
  {
    if m != map[] {
      var k :| k in m;
      IndexHoldsItem(items, m, k);
    }
  }

  const EMPTY_DISK := Disk([], map[])

  ghost function EmptyValue(forks: set<ForkName>): Value {
    Value([], map f | f in forks + {MAIN} :: ForkValue(EMPTY, []))
  }

  lemma EmptyDiskOk(key: Key, forks: set<ForkName>)
    ensures DiskOk(EMPTY_DISK, EmptyValue(forks), key, forks) && AllPersisted(EmptyValue(forks))
    ensures forall f :: ForkContent(EmptyValue(forks), f) == multiset{}
  {
    NoRecords();
    EmptyCounted([]);
  }

  /** Each fork was loaded from its own file. */
  ghost predicate LoadedForks(indexes: map<ForkName, BucketIndex>, items: seq<Item>, disk: Disk, logIsEmpty: bool)
    reads set f | f in indexes :: indexes[f].Mem
    reads set f | f in indexes :: indexes[f].Log
  {
    forall f :: f in indexes ==>
      LoadedFrom(items, FileOf(disk, f), logIsEmpty, ForkValue(indexes[f].Mem.Value(), indexes[f].Log.file))
  }

  ghost predicate Separate(indexes: map<ForkName, BucketIndex>) {
    forall f, g :: f in indexes && g in indexes && f != g ==>
      indexes[f].Log != indexes[g].Log && indexes[f].Mem != indexes[g].Mem
  }

  method LoadForks(disk: Disk, names: set<ForkName>, log: Log)
    returns (indexes: map<ForkName, BucketIndex>, entries: nat)
    requires log.InBounds()
    ensures indexes.Keys == names && Separate(indexes)
    ensures forall f :: f in indexes ==> fresh(indexes[f].Mem) && fresh(indexes[f].Log)
    ensures log.Valid() && Representable(log.items) ==> LoadedForks(indexes, log.items, disk, log.isEmpty)
    ensures disk == EMPTY_DISK && log.isEmpty ==> entries == 0
    ensures entries == 0 <==> forall f :: f in indexes ==> indexes[f].Mem.nentries == 0
  {
    hide IsImage, LoadedFrom, Representable, Trusted, Records, FileOf;
    EmptyFile();
    indexes, entries := map[], 0;
    var todo := names;
    while todo != {}
      invariant todo <= names && indexes.Keys == names - todo && Separate(indexes)
      invariant forall f :: f in indexes ==> fresh(indexes[f].Mem) && fresh(indexes[f].Log)
      invariant log.Valid() && Representable(log.items) ==> LoadedForks(indexes, log.items, disk, log.isEmpty)
      invariant disk == EMPTY_DISK && log.isEmpty ==> entries == 0
      invariant entries == 0 <==> forall f :: f in indexes ==> indexes[f].Mem.nentries == 0
      decreases todo
    {
      var f :| f in todo;
      var idx := LoadOne(FileOf(disk, f), log);
      ghost var before := indexes;
      indexes := indexes[f := idx];
      assert f in indexes && indexes[f] == idx && forall g :: g in before ==> g in indexes && indexes[g] == before[g];
      entries := entries + idx.Mem.nentries;
      todo := todo - {f};
    }
  }

  method LoadOne(file: seq<Byte>, log: Log) returns (idx: BucketIndex)
    requires log.InBounds()
    ensures fresh(idx.Mem) && fresh(idx.Log)
    ensures log.Valid() && Representable(log.items) ==>
              LoadedFrom(log.items, file, log.isEmpty, ForkValue(idx.Mem.Value(), idx.Log.file))
    ensures file == [] && log.isEmpty ==> idx.Mem.nentries == 0
  {
    hide IsImage, IndexOk, Content, Compact, Flatten;
    NoRecords();
    idx := LoadIndex(file, log);
  }

  /** All loaded forks together make up the value of the bucket. */
  lemma LoadedValue(v: Value, w: Value, disk: Disk, key: Key, forks: set<ForkName>, logIsEmpty: bool)
    requires DiskOk(disk, v, key, forks) && AllPersisted(v) && (logIsEmpty ==> v.items == [])
    requires w.items == v.items && w.forks.Keys == v.forks.Keys
    requires forall f :: f in w.forks ==> LoadedFrom(w.items, FileOf(disk, f), logIsEmpty, w.forks[f])
    ensures ValueOk(w, key) && AllPersisted(w) && SameContents(v, w) && Upkeep(v, w)
    ensures (forall f :: f in w.forks ==> w.forks[f].state.entries == 0) <==> v.items == []
  {
    EntriesTell(v, w, disk, key, forks, logIsEmpty);
    hide ForkOk, LoadedFrom, Persisted, Content, Stamped, Once, Records, LastTrailer, IndexOk;
    forall f | f in v.forks
      ensures Stamped(v.forks[f]) ==> Stamped(w.forks[f])
      ensures ForkOk(w.items, w.forks[f]) && Persisted(w.items, w.forks[f])
      ensures w.forks[f].state.m == v.forks[f].state.m
    {
      LoadOk(v.items, v.forks[f], logIsEmpty, w.forks[f]);
    }
  }

  /** An index without entries was loaded over an empty log: otherwise the log would have been read. */
  lemma NoEntries(items: seq<Item>, file: seq<Byte>, logIsEmpty: bool, g: ForkValue)
    requires LoadedFrom(items, file, logIsEmpty, g) && g.state.entries == 0 && (logIsEmpty ==> items == [])
    ensures items == []
  {
    hide Content, IndexOk, Compact, Records;
    ReplayEntries(EMPTY, Records(file));
  }

  /** Over an empty log nothing was ever set. */
  lemma NoItemsNoEntries(items: seq<Item>, f: ForkValue, logIsEmpty: bool, g: ForkValue)
    requires ForkOk(items, f) && items == [] && LoadedFrom(items, f.file, logIsEmpty, g)
    ensures g.state.entries == 0
  {
    hide Content, Compact, Records;
    if Trusted(f.file, logIsEmpty) {
      NothingSet(items, Records(f.file));
      NoSetsEmpty(Records(f.file));
    }
  }

  lemma {:induction false} NothingSet(items: seq<Item>, ops: seq<Location>)
    requires items == [] && OpsOk(items, ops)
    ensures Sets(ops) == []
  {
    hide LocOk;
    if ops != [] {
      NothingSet(items, ops[1..]);
      NoBatches(ops[0]);
    }
  }

  lemma NoBatches(loc: Location)
    ensures !LocOk([], loc)
  {
  }

  lemma EntriesTell(v: Value, w: Value, disk: Disk, key: Key, forks: set<ForkName>, logIsEmpty: bool)
    requires DiskOk(disk, v, key, forks) && (logIsEmpty ==> v.items == [])
    requires w.items == v.items && w.forks.Keys == v.forks.Keys
    requires forall f :: f in w.forks ==> LoadedFrom(w.items, FileOf(disk, f), logIsEmpty, w.forks[f])
    ensures (forall f :: f in w.forks ==> w.forks[f].state.entries == 0) <==> v.items == []
  {
    hide LoadedFrom, ForkOk, IsImage, Representable;
    if v.items == [] {
      forall f | f in w.forks
        ensures w.forks[f].state.entries == 0
      {
        NoItemsNoEntries(v.items, v.forks[f], logIsEmpty, w.forks[f]);
      }
    } else if w.forks[MAIN].state.entries == 0 {
      NoEntries(v.items, FileOf(disk, MAIN), logIsEmpty, w.forks[MAIN]);
    }
  }

  method Assemble(key: Key, log: Log, indexes: map<ForkName, BucketIndex>, continueOnErr: bool) returns (b: Bucket)
    requires Separate(indexes)
    ensures fresh(b) && b.key == key && b.continueOnErr == continueOnErr && b.log == log
    ensures b.indexes == indexes && b.Shaped()
    ensures b.Repr == {b, log, log.mmap} + (set f | f in indexes :: indexes[f].Log)
                      + (set f | f in indexes :: indexes[f].Mem)
  {
    b := new Bucket(key, log, indexes, continueOnErr);
  }

  /** Loads all files of a bucket as they are. */
  method OpenFiles(key: Key, disk: Disk, forks: set<ForkName>, page: nat, continueOnErr: bool, ghost v: Value)
    returns (b: Bucket, entries: nat)
    requires page > 0
    ensures fresh(b.Repr) && b.key == key && b.continueOnErr == continueOnErr && b.Shaped()
    ensures DiskOk(disk, v, key, forks) && AllPersisted(v) ==>
              b.Valid() && SameContents(v, b.Val()) && AllPersisted(b.Val()) && Upkeep(v, b.Val())
    ensures DiskOk(disk, v, key, forks) && AllPersisted(v) ==>
              b.Val().items == v.items && (entries == 0 <==> v.items == [])
    ensures disk == EMPTY_DISK ==> entries == 0
  {
    hide Upkeep, IsImage, ValueOk, AllPersisted, Representable, SameContents, DiskOk, LoadedForks, Bucket.Val;
    hide Log.Valid, Bucket.Valid;
    var log := new Log.Open(disk.log, page, v.items);
    var indexes;
    indexes, entries := LoadForks(disk, forks + {MAIN}, log);
    b := Assemble(key, log, indexes, continueOnErr);
    if DiskOk(disk, v, key, forks) && AllPersisted(v) {
      OpenedLog(disk, v, key, forks);
      BucketOpened(b, v, disk, key, forks);
    }
  }

  lemma BucketOpened(b: Bucket, v: Value, disk: Disk, key: Key, forks: set<ForkName>)
    requires DiskOk(disk, v, key, forks) && AllPersisted(v)
    requires b.Shaped() && b.log.Valid() && b.key == key && b.log.items == v.items && (b.log.isEmpty ==> v.items == [])
    requires b.indexes.Keys == forks + {MAIN} && LoadedForks(b.indexes, b.log.items, disk, b.log.isEmpty)
    ensures b.Valid() && SameContents(v, b.Val()) && AllPersisted(b.Val()) && Upkeep(v, b.Val())
    ensures b.Val().items == v.items
    ensures (forall f :: f in b.indexes ==> b.indexes[f].Mem.nentries == 0) <==> v.items == []
  {
    hide Upkeep, IsImage, ValueOk, AllPersisted, LoadedFrom, Representable, SameContents;
    LoadedValue(v, b.Val(), disk, key, forks, b.log.isEmpty);
    assert forall f :: f in b.indexes ==> b.Val().forks[f].state.entries == b.indexes[f].Mem.nentries;
  }

  /** Removing the directory of a bucket removes its log and the index files of the forks named, and no others. */
  function LeftBehind(disk: Disk, forks: set<ForkName>): Disk {
    Disk([], map f | f in disk.files && f !in forks && f != MAIN :: disk.files[f])
  }

  /** The directory itself can be removed only if nothing is left in it. */
  predicate Removable(disk: Disk, forks: set<ForkName>) {
    LeftBehind(disk, forks).files == map[]
  }

  lemma RemovableIs(disk: Disk, forks: set<ForkName>)
    ensures Removable(disk, forks) <==> disk.files.Keys <= forks + {MAIN}
  {
    forall f | f in disk.files && f !in forks && f != MAIN
      ensures !Removable(disk, forks)
    {
      assert f in LeftBehind(disk, forks).files;
    }
  }

  /** All forks of the bucket are empty, though something was stored in it. */
  ghost predicate UsedUp(v: Value) {
    v.items != [] && forall f :: ForkContent(v, f) == multiset{}
  }

  /**
   * Opens a bucket with the forks named. An intact bucket with these forks, all persisted, comes back with
   * the same contents. If they are all empty, its old data is removed first; opening fails if and only if
   * that is so and the index file of another fork is in the way. The data is gone then.
   */
  method OpenBucket(key: Key, disk: Disk, forks: set<ForkName>, page: nat, continueOnErr: bool, ghost v: Value)
    returns (b: Bucket?, left: Disk)
    requires page > 0
    ensures b != null ==> fresh(b.Repr) && b.key == key && b.continueOnErr == continueOnErr && left == disk
    ensures b == null ==> left == LeftBehind(disk, forks)
    ensures Removable(disk, forks) ==> b != null
    ensures DiskOk(disk, v, key, forks) && AllPersisted(v) ==> (b == null <==> UsedUp(v) && !Removable(disk, forks))
    ensures DiskOk(disk, v, key, forks) && AllPersisted(v) && b != null ==>
              b.Valid() && SameContents(v, b.Val()) && AllPersisted(b.Val()) && Upkeep(v, b.Val())
    ensures DiskOk(disk, v, key, forks) && AllPersisted(v) && b != null && UsedUp(v) ==> b.Val().items == []
    decreases disk != EMPTY_DISK
  {
    hide Upkeep, IsImage, ValueOk, AllPersisted, ForkContent, SameContents, LeftBehind;
    left := disk;
    var entries;
    b, entries := OpenFiles(key, disk, forks, page, continueOnErr, v);
    if DiskOk(disk, v, key, forks) && AllPersisted(v) {
      b.LenIsContent(MAIN);
      SameForkContents(v, b.Val());
      NoForkContent(b.Val());
    }
    if b.AllEmpty() && entries > 0 {
      if !Removable(disk, forks) {
        return null, LeftBehind(disk, forks);
      }
      EmptyDiskOk(key, forks);
      ghost var w := b.Val();
      var left';
      b, left' := OpenBucket(key, EMPTY_DISK, forks, page, continueOnErr, EmptyValue(forks));
      if DiskOk(disk, v, key, forks) && AllPersisted(v) {
        EmptyAgain(v, w, b.Val(), key, forks);
      }
    }
  }

  lemma NoForkContent(v: Value)
    ensures forall f :: f !in v.forks ==> ForkContent(v, f) == multiset{}
  {
  }

  /** Closes a bucket: its files hold its value, and its forks tell their lengths. */
  method CloseFiles(b: Bucket) returns (disk: Disk, lens: map<ForkName, int>)
    requires b.Valid()
    ensures disk.files.Keys == lens.Keys == b.Val().forks.Keys
    ensures forall forks :: b.Val().forks.Keys == forks + {MAIN} ==> DiskOk(disk, b.Val(), b.key, forks)
    ensures forall f :: f in lens ==> lens[f] == |ForkContent(b.Val(), f)|
  {
    hide ForkContent, ForkOk, Representable, IsImage;
    lens := map f | f in b.indexes :: b.indexes[f].Mem.len;
    disk := Disk(b.log.mmap[..], map f | f in b.indexes :: b.indexes[f].Log.file);
    LogImage(b.log);
    forall f | f in b.indexes
      ensures b.indexes[f].Mem.len == |ForkContent(b.Val(), f)|
    {
      ContentOfFork(b.Val(), b.key, f);
    }
  }

  lemma LogImage(log: Log)
    requires log.Valid()
    ensures IsImage(log.mmap[..], log.items)
  {
  }

  lemma EmptyStamps(forks: set<ForkName>)
    ensures forall f :: f in EmptyValue(forks).forks ==> Stamped(EmptyValue(forks).forks[f])
  {
  }

  /** An empty bucket looks the same after its files were removed. */
  lemma EmptyAgain(v: Value, w: Value, x: Value, key: Key, forks: set<ForkName>)
    requires v.forks.Keys == forks + {MAIN} && SameContents(v, w) && ValueOk(w, key)
    requires forall f :: f in w.forks ==> ForkContent(w, f) == multiset{}
    requires SameContents(EmptyValue(forks), x)
    requires Upkeep(EmptyValue(forks), x)
    ensures SameContents(v, x) && Upkeep(v, x) && x.items == []
  {
    hide ForkContent, Once, Stamped;
    EmptyStamps(forks);
    NoSpots(x.items);
    forall f | f in v.forks
      ensures v.forks[f].state.m == map[] && x.forks[f].state.m == map[]
    {
      ContentOfFork(w, key, f);
      NoItemsNoIndex(w.items, w.forks[f].state.m);
    }
  }

  lemma OpenedLog(disk: Disk, v: Value, key: Key, forks: set<ForkName>)
    requires DiskOk(disk, v, key, forks)
    ensures IsImage(disk.log, v.items) && Representable(v.items)
    ensures (disk.log == [] ==> v.items == []) && v.forks.Keys == forks + {MAIN} && ValueOk(v, key)
  {
  }
}
