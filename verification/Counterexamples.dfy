/** Concrete inputs on which the queue does not do what its documentation promises. */
module Counterexamples {
  import opened Items
  import opened Vlog
  import opened Heap
  import opened IndexSpec
  import opened Contents
  import opened BatchIndex
  import opened ForkSpec
  import opened PopSpec
  import opened MergeSpec
  import opened RangeSpec
  import opened BucketSpec
  import opened BucketStore
  import opened Recovery
  import opened Reopen
  import opened Crash
  import opened Split
  import opened QueueSpec
  import opened TreeSpec
  import opened ReadSpec
  import opened ForksSpec
  import opened DiskSpec
  import opened Slices
  import opened BucketSet

  lemma ContentOne(items: seq<Item>, k: Key, locs: seq<Location>)
    ensures Content(items, map[k := locs]) == Total(locs, Bag(items))
  {
    var m := map[k := locs];
    SumSplit(m, k, Bag(items));
    assert m - {k} == map[];
  }

  // ---------- A range deletion that deletes the wrong batch ----------

  const SHARED := [Item(1, []), Item(1, []), Item(5, [])]
  const SHARED_INDEX: Locs := map[1 := [Location(1, 0, 1), Location(1, 14, 2)]]

  lemma SharedRuns()
    ensures Drop(SHARED, 0) == SHARED && Drop(SHARED, 14) == SHARED[1..]
    ensures Run(SHARED, Location(1, 0, 1)) == [SHARED[0]] && Run(SHARED, Location(1, 14, 2)) == SHARED[1..]
    ensures IndexOk(SHARED, SHARED_INDEX)
  {
    assert StorageSize(SHARED[0]) == 14;
    assert SHARED[..1] == [SHARED[0]] && SHARED[1..][..2] == SHARED[1..];
  }

  /** Batches [1] and [1, 5] were pushed; deleting 5..5 drops the first one and keeps item 5. */
  lemma RangeDeleteKeepsItem()
    ensures IndexOk(SHARED, SHARED_INDEX)
    ensures !RangeRemoved(Content(SHARED, SHARED_INDEX), Content(SHARED, Deleted(SHARED, SHARED_INDEX, 5, 5)), 5, 5)
  {
    SharedRuns();
    var a, b := [SHARED[0]], SHARED[1..];
    assert Below(a, 5) == 1 + Below(a[1..], 5) && UpTo(a, 5) == 1 + UpTo(a[1..], 5);
    assert Below(b, 5) == 1 + Below(b[1..], 5) && b[1..][0].key == 5;
    assert UpTo(b, 5) == 1 + UpTo(b[1..], 5) && UpTo(b[1..], 5) == 1 + UpTo(b[1..][1..], 5);
    assert Hit(SHARED, SHARED_INDEX[1][1], 5, 5) && !Hit(SHARED, SHARED_INDEX[1][0], 5, 5);
    DeletedIncomplete(SHARED, SHARED_INDEX, 5, 5);
  }

  // ---------- A pop that loses an item when it is interrupted ----------

  const OVERLAP := [Item(1, [1]), Item(3, [1]), Item(1, [2]), Item(2, [2])]
  const OLDER := Location(1, 0, 2)
  const NEWER := Location(1, 30, 2)
  /** The heap after one item was read: the newer batch first, then the older one without its first item. */
  const OPENED := [Iter(NEWER, 45, 30, Item(1, [2]), false, 1, 2, false, false),
                   Iter(OLDER, 30, 15, Item(3, [1]), false, 0, 1, false, false)]

  lemma OverlapRuns()
    ensures Drop(OVERLAP, 0) == OVERLAP && Drop(OVERLAP, 15) == OVERLAP[1..] && Drop(OVERLAP, 30) == OVERLAP[2..]
    ensures Run(OVERLAP, OLDER) == OVERLAP[..2] && Run(OVERLAP, NEWER) == OVERLAP[2..]
    ensures Run(OVERLAP, Location(3, 15, 1)) == [OVERLAP[1]]
    ensures IndexOk(OVERLAP, map[1 := [OLDER, NEWER]])
  {
    assert forall i :: 0 <= i < 4 ==> StorageSize(OVERLAP[i]) == 15;
    assert Drop(OVERLAP, 15) == Drop(OVERLAP[1..], 0);
    assert Drop(OVERLAP, 30) == Drop(OVERLAP[1..], 15) == Drop(OVERLAP[1..][1..], 0);
    assert OVERLAP[1..][1..] == OVERLAP[2..] && OVERLAP[2..][..2] == OVERLAP[2..];
    assert OVERLAP[1..][..1] == [OVERLAP[1]];
  }

  lemma OverlapOpened()
    ensures AllOpened(OVERLAP, OPENED)
  {
    OverlapRuns();
  }

  const POP := [NEWER, Dead(1), Location(3, 15, 1), Dead(1)]

  lemma OverlapOps()
    ensures PopOps(OPENED) == POP
  {
    assert PopOps(OPENED) == PopOp(OPENED[0]) + PopOps([OPENED[1]]);
    assert PopOps([OPENED[1]]) == PopOp(OPENED[1]) + PopOps([]);
  }

  const TWO_BATCHES: Locs := map[1 := [OLDER, NEWER]]
  const INTERRUPTED: Locs := map[1 := [NEWER, NEWER]]
  const FINISHED: Locs := map[1 := [NEWER], 3 := [Location(3, 15, 1)]]

  lemma OverlapStates()
    ensures ApplyAll(TWO_BATCHES, POP[..2]) == INTERRUPTED && ApplyAll(TWO_BATCHES, POP) == FINISHED
  {
    var m1: Locs := map[1 := [OLDER, NEWER, NEWER]];
    var m3 := INTERRUPTED[3 := [Location(3, 15, 1)]];
    assert [OLDER, NEWER] + [NEWER] == [OLDER, NEWER, NEWER] && [OLDER, NEWER, NEWER][1..] == [NEWER, NEWER];
    assert [NEWER, NEWER][1..] == [NEWER] && [] + [Location(3, 15, 1)] == [Location(3, 15, 1)];
    assert SetLoc(TWO_BATCHES, NEWER) == m1 && DeleteKey(m1, 1) == INTERRUPTED;
    assert SetLoc(INTERRUPTED, Location(3, 15, 1)) == m3 && DeleteKey(m3, 1) == FINISHED;
    assert Apply(TWO_BATCHES, POP[0]) == m1 && Apply(m1, POP[1]) == INTERRUPTED;
    assert Apply(INTERRUPTED, POP[2]) == m3 && Apply(m3, POP[3]) == FINISHED;
    ApplyTwo(TWO_BATCHES, POP[..2]);
    ApplyTwo(INTERRUPTED, POP[2..]);
    ApplyAllConcat(TWO_BATCHES, POP[..2], POP[2..]);
    assert POP == POP[..2] + POP[2..];
  }

  lemma OverlapContents()
    ensures Content(OVERLAP, FINISHED)[OVERLAP[1]] > 0 && Content(OVERLAP, INTERRUPTED)[OVERLAP[1]] == 0
  {
    OverlapRuns();
    ContentIncludes(OVERLAP, FINISHED, 3, 0);
    assert OVERLAP[1] in multiset([OVERLAP[1]]);
    ContentOne(OVERLAP, 1, [NEWER, NEWER]);
    TotalConcat([NEWER], [NEWER], Bag(OVERLAP));
    TotalOne(NEWER, Bag(OVERLAP));
    assert [NEWER] + [NEWER] == [NEWER, NEWER];
    assert OVERLAP[1] !in OVERLAP[2..];
  }

  /** Reading one item opens both batches and leaves these iterators. */
  lemma OverlapRead()
    ensures ReadState(OVERLAP, TWO_BATCHES, 2, OPENED, [OVERLAP[0]]) && IsHeap(OPENED)
  {
    hide Opened, LocOk;
    OverlapRuns();
    OverlapOpened();
    ContentOne(OVERLAP, 1, [OLDER, NEWER]);
    SumOrder();
    BothTotals(OLDER, NEWER, Bag(OVERLAP));
    BothTotals(OPENED[0], OPENED[1], RestBag(OVERLAP));
    assert Rest(OVERLAP, OPENED[0]) == OVERLAP[2..] && Rest(OVERLAP, OPENED[1]) == [OVERLAP[1]];
    assert OVERLAP[..2] == [OVERLAP[0]] + [OVERLAP[1]];
    assert Starts(OPENED) == [NEWER, OLDER];
    assert multiset([NEWER, OLDER]) == multiset([OLDER, NEWER]);
  }

  lemma SumOrder()
    ensures Flatten(TWO_BATCHES) == [OLDER, NEWER]
  {
    MinKeyIs(TWO_BATCHES.Keys, 1);
    assert TWO_BATCHES - {1} == map[];
    assert Flatten(TWO_BATCHES) == TWO_BATCHES[1] + Flatten(map[]);
  }

  lemma BothTotals<T, U>(x: T, y: T, f: T -> multiset<U>)
    ensures Total([x, y], f) == f(x) + f(y)
  {
    TotalConcat([x], [y], f);
    TotalOne(x, f);
    TotalOne(y, f);
    assert [x] + [y] == [x, y];
  }

  /**
   * Two batches start with key 1, and one item was read. A crash after the second record of the pop leaves
   * item 3 in no batch.
   */
  lemma PopCrashLosesItem()
    ensures IndexOk(OVERLAP, TWO_BATCHES) && ReadState(OVERLAP, TWO_BATCHES, 2, OPENED, [OVERLAP[0]])
    ensures IsHeap(OPENED) && PopOps(OPENED) == POP
    ensures !PrefixSafe(OVERLAP, TWO_BATCHES, PopOps(OPENED))
  {
    hide Content, ApplyAll, PopOps, AllOpened, ReadState, IsHeap, IndexOk;
    OverlapRuns();
    OverlapRead();
    OverlapOps();
    OverlapStates();
    OverlapContents();
    assert !(Content(OVERLAP, FINISHED) <= Content(OVERLAP, INTERRUPTED));
  }

  lemma ApplyTwo(m: Locs, ops: seq<Location>)
    requires |ops| == 2
    ensures ApplyAll(m, ops) == Apply(Apply(m, ops[0]), ops[1])
  {
    assert ops == [ops[0]] + ops[1..] && ops[1..] == [ops[1]];
    assert ApplyAll(Apply(m, ops[0]), [ops[1]]) == ApplyAll(Apply(Apply(m, ops[0]), ops[1]), []);
  }

  // ---------- Forks, recovery, splitting, sorting ----------

  /** A fork of a drained queue has an empty index file; after a reload it holds all items ever pushed. */
  lemma DrainedForkComesBack()
    ensures Content([Item(7, [])], EMPTY.m) == multiset{} && Compact(Flatten(EMPTY.m), 0) == []
    ensures LoadedContent([Item(7, [])], []) == multiset{Item(7, [])}
  {
    EmptyCounted([Item(7, [])]);
    NoRecords();
  }

  const BELOW_ZERO := [Item(-1, []), Item(5, []), Item(3, [])]

  lemma BelowZeroRuns()
    ensures LogRuns(BELOW_ZERO) == [Location(-1, 0, 2), Location(3, 28, 1)]
  {
    var items := BELOW_ZERO;
    assert RunStart(items, 1) == RunStart(items, 0) == 0 && RunStart(items, 2) == 2;
    assert RunsBefore(items, 2) == RunsBefore(items, 1) == [];
    BelowZeroSizes();
    hide RunStart, SizeOfAll;
    assert RunsBefore(items, 3) == [] + [RunLoc(items, 0, 2)];
    hide RunsBefore;
    assert LogRuns(items) == [Location(-1, 0, 2)] + [Location(3, 28, 1)];
  }

  lemma BelowZeroSizes()
    ensures SizeOfAll(BELOW_ZERO[..0]) == 0 && SizeOfAll(BELOW_ZERO[..2]) == 28
  {
    SizeOfSnoc(BELOW_ZERO, 0);
    SizeOfSnoc(BELOW_ZERO, 1);
    assert BELOW_ZERO[..0] == [];
  }

  lemma FirstBelow(runs: seq<Location>)
    requires |runs| == 2 && runs[0].key < 0 && runs[1].key >= 0
    ensures BelowZero(runs) == [runs[0]]
  {
    assert BelowZero(runs) == [runs[0]] + BelowZero(runs[1..]);
    assert BelowZero(runs[1..]) == [] + BelowZero(runs[1..][1..]);
  }

  /** Reads reach the run -1, 5 but not the run 3. */
  lemma BelowZeroReach()
    ensures Content(BELOW_ZERO, Reach(Recovered(BELOW_ZERO))) == multiset{Item(-1, []), Item(5, [])}
  {
    hide LogRuns, Reach, Recovered, Content, IndexOk, Run;
    var items, runs := BELOW_ZERO, LogRuns(BELOW_ZERO);
    BelowZeroRuns();
    RecoveredReach(items);
    FirstBelow(runs);
    hide BelowZero;
    TotalOne(runs[0], Bag(items));
    BelowZeroSizes();
    RunAt(items, -1, 0, 2);
    assert items[0..2] == [Item(-1, []), Item(5, [])];
  }

  /**
   * Recovering a log of the keys -1, 5 and 3 gives an index that counts three items; but a read of all of
   * them ends at the empty location under key 0, and the item 3 behind it cannot be read.
   */
  method RecoverBelowZero() returns (index: Index, out: seq<Item>)
    ensures !IndexOk(BELOW_ZERO, index.m) && index.len == 3 && Content(BELOW_ZERO, index.m) == multiset(BELOW_ZERO)
    ensures out == [Item(-1, []), Item(5, [])]
  {
    hide *;
    BelowZeroImage();
    var log := new Log.Open(EncodeAll(BELOW_ZERO), 4096, BELOW_ZERO);
    index := RecoverIntact(log);
    var b := new Bucket(-1, log, map[], false);
    BelowZeroReach();
    RecoveredReach(BELOW_ZERO);
    var iters;
    ghost var p;
    iters, out, p := b.Peek(3, index);
    SortedPair(Item(-1, []), Item(5, []), out);
  }

  lemma BelowZeroImage()
    ensures IsImage(EncodeAll(BELOW_ZERO), BELOW_ZERO) && 4096 > 0 && MIN_KEY <= -1 && 5 <= MAX_KEY
    ensures |BELOW_ZERO| == 3 < ALL_ITEMS && BELOW_ZERO != [] && BELOW_ZERO[0].key < 0
  {
  }

  method RecoverIntact(log: Log) returns (index: Index)
    requires log.Valid() && |log.items| < ALL_ITEMS
    ensures fresh(index) && NoEmpty(index.m) && index.m == Recovered(log.items) && index.len == |log.items|
    ensures Content(log.items, index.m) == multiset(log.items) && IndexOk(log.items, Reach(index.m))
    ensures IndexOk(log.items, index.m) <==> log.items == [] || log.items[0].key >= 0
  {
    hide IsImage, IndexOk, Content, Recovered, Reach, Found;
    index := FromVlog(log);
  }

  lemma SortedPair(x: Item, y: Item, out: seq<Item>)
    requires x.key < y.key && Smallest(multiset{x, y}, 3, out)
    ensures out == [x, y]
  {
    assert |multiset{x, y}| == 2;
    assert |multiset{x, y} - multiset(out)| == 0;
    assert multiset(out) == multiset{x, y};
    assert out[0] in multiset(out) && out[1] in multiset(out);
  }

  const FIRST := Item(23, [])
  const SECOND := Item(42, [])

  /** Two items, of which the first has a damaged length. */
  function DamagedFile(): seq<Byte> {
    Encode(FIRST)[0 := 0xFF] + Encode(SECOND)
  }

  lemma DamagedBytes()
    ensures |DamagedFile()| == 28 && DamagedFile()[14..28] == Encode(SECOND) && DamagedFile()[27] == 0xFF
    ensures DamagedFile()[..14] == [0xFF, 0, 0, 0, 0, 0, 0, 0, 0, 0, 0, 23, 0xFF, 0xFF]
  {
    hide Encode;
    EncodedSmall(23);
    EncodedSmall(42);
    assert DamagedFile()[14..28] == Encode(SECOND);
    assert DamagedFile()[27] == DamagedFile()[14..28][13];
    assert DamagedFile()[..14] == Encode(FIRST)[0 := 0xFF];
  }

  lemma EncodedSmall(k: Key)
    requires 0 <= k < 256
    ensures Encode(Item(k, [])) == [0, 0, 0, 0, 0, 0, 0, 0, 0, 0, 0, k as int, 0xFF, 0xFF]
  {
    SmallNumber(0, 4);
    SmallNumber(k as int, 8);
    hide BigEndian;
    assert BigEndian(0, 4) == [0, 0, 0, 0] && BigEndian(k as int, 8) == [0, 0, 0, 0, 0, 0, 0, k as int];
  }

  lemma {:induction false} SmallNumber(v: nat, n: nat)
    requires v < 256 && n > 0
    ensures BigEndian(v, n) == seq(n - 1, _ => 0) + [v]
  {
    BigEndianZero(n - 1);
  }

  lemma DamagedFinds()
    ensures Found(DamagedFile(), 28, 0, Item(0, [])) == [SECOND]
    ensures Places(DamagedFile(), 28, 0, Item(0, [])) == [14]
  {
    var s := DamagedFile();
    DamagedBytes();
    hide DamagedFile;
    assert forall i :: 0 <= i < 14 ==> s[i] == s[..14][i];
    assert s[0..4][0] == 0xFF;
    FirstByte(s[0..4]);
    assert ParseItem(s, 28, 0) == Damaged;
    ResumesOnce(s, 28, 0, 14, ResumeAt(s, 28, 0, 1));
    ParseEncoded(s, 28, 14, SECOND);
    hide ParseItem;
    assert FirstSound(s, 28, 14) == 14 && FirstSound(s, 28, 0) == 14;
    assert Found(s, 28, 28, SECOND) == [] && Places(s, 28, 28, SECOND) == [];
  }

  lemma FirstByte(field: seq<Byte>)
    requires |field| == 4 && field[0] == 0xFF
    ensures FromBigEndian(field) > MAX_BLOB
  {
    FromBigEndianPlaces(field);
    assert PlaceValues(field, 4) >= PlaceValues(field, 3) >= PlaceValues(field, 2) >= PlaceValues(field, 1);
    assert PlaceValues(field, 1) == 0xFF * Pow256(3);
    assert Pow256(3) == 256 * Pow256(2) && Pow256(2) == 256 * Pow256(1) && Pow256(1) == 256;
  }

  /**
   * Recovery skips the damaged first item and finds the second one, which lies at offset 14. It records it
   * at offset 0.
   */
  method RecoverBehindDamage() returns (index: Index)
    ensures Places(DamagedFile(), 28, 0, Item(0, [])) == [14]
    ensures index.m == map[42 := [Location(42, 0, 1)]]
  {
    hide IndexOk, Content, Recovered, Reach, LogRuns, Found, FirstSound, ParseItem, Places;
    DamagedBytes();
    DamagedFinds();
    hide DamagedFile;
    var file := DamagedFile();
    var log := new Log.Open(file, 4096, []);
    assert log.mmap[..] == file && log.size == 28;
    index := FromVlog(log);
    OneRun(SECOND);
  }

  lemma OneRun(x: Item)
    requires x.key >= 0
    ensures Recovered([x]) == map[x.key := [Location(x.key, 0, 1)]]
  {
    assert [x][..0] == [] && RunStart([x], 0) == 0;
    assert LogRuns([x]) == [] + [RunLoc([x], 0, 1)] == [Location(x.key, 0, 1)];
    assert Get(map[], x.key) + [Location(x.key, 0, 1)] == [Location(x.key, 0, 1)];
    assert SetAll(map[], [Location(x.key, 0, 1)]) == SetAll(SetLoc(map[], Location(x.key, 0, 1)), []);
  }

  /**
   * Fixed-size buckets of 10: key -5 falls into bucket 0, and a deletion of -9..-1 visits only this bucket. It
   * stops there at once, because the bucket's key lies above the range, and leaves the item in it.
   */
  lemma NegativeKeyAboveBucket()
    ensures FixedSplit(10)(-5) == FixedSplit(10)(-9) == FixedSplit(10)(-1) == 0
    ensures FixedSplit(10)(-5) > -1
    ensures !RangeRemoved(multiset{Item(-5, [])}, multiset{Item(-5, [])}, -9, -1)
  {
    assert Item(-5, []) in multiset{Item(-5, [])} && InRange(Item(-5, []), -9, -1);
  }

  // ---------- Location lists that two forks share ----------

  /**
   * Three batches under one key leave room for a fourth; two forks that share the list and put back what is
   * left of different batches both end up with the second location.
   */
  method SharedListOverwritten() returns (a: Slice, b: Slice)
    ensures a.len == b.len == 4 && a.len <= a.buf.Length && b.len <= b.buf.Length
    ensures a.buf[3] == b.buf[3] == Location(1, 80, 2)
  {
    var buf := new Location[0];
    var list := Slice(buf, 0);
    list := Append(list, Location(1, 0, 1), 1);
    list := Append(list, Location(1, 14, 1), 2);
    list := Append(list, Location(1, 28, 1), 4);
    a, b := AppendToCopies(list, Location(1, 60, 1), Location(1, 80, 2), 8);
  }

  /** The comparator takes the smallest key to be larger than the largest one. */
  lemma ComparatorOverflows()
    ensures Compare(MIN_KEY as Key, MAX_KEY as Key) > 0
  {
  }

  // ---------- Whole queues ----------

  const LOW := Item(0, [])
  const HIGH := Item(100, [])
  const OTHER: ForkName := "other"

  /** A fork of a bucket that stores one item: its one batch was recorded. */
  function OneBatch(x: Item): ForkValue {
    Logged(ForkValue(EMPTY, []), Location(x.key, 0, 1))
  }

  /** The same after the item was popped. */
  function OneDrained(x: Item): ForkValue {
    Logged(OneBatch(x), Dead(x.key))
  }

  lemma OneItem(x: Item)
    requires x.blob == []
    ensures Representable([x]) && ForkOk([x], OneBatch(x)) && ForkOk([x], OneDrained(x))
    ensures Content([x], OneBatch(x).state.m) == multiset{x} && Content([x], OneDrained(x).state.m) == multiset{}
    ensures Persisted([x], OneBatch(x)) && Persisted([x], OneDrained(x))
    ensures Stamped(OneBatch(x)) && OneBatch(x).state.len == 1
  {
    hide ForkOk, Records;
    var empty, loc := ForkValue(EMPTY, []), Location(x.key, 0, 1);
    assert Drop([x], 0) == [x] && Run([x], loc) == [x] && LocOk([x], loc);
    EmptyForkOk([x]);
    EmptyCounted([x]);
    LoggedOk([x], empty, loc);
    LoggedOk([x], OneBatch(x), Dead(x.key));
    assert Get(EMPTY.m, x.key) + [loc] == [loc];
    assert OneBatch(x).state.m == map[x.key := [loc]];
    assert OneDrained(x).state.m == map[];
    NoRecords();
    assert Records(OneBatch(x).file) == [] + [loc];
    SetsConcat([loc], [Dead(x.key)]);
    assert Sets([loc]) == [loc] + Sets([loc][1..]);
    assert multiset(Run([x], loc)) == multiset{x};
  }

  lemma EmptyForkOk(items: seq<Item>)
    ensures ForkOk(items, ForkValue(EMPTY, []))
  {
    NoRecords();
    EmptyCounted(items);
  }

  lemma HeldInOne(k: Key, v: Value, f: ForkName)
    ensures Held(map[k := v], f) == ForkContent(v, f)
  {
    hide ForkContent;
    var s: Store := map[k := v];
    HeldSplit(s, k, f);
    assert s - {k} == map[];
  }

  ghost const TWO_BUCKETS: Store := map[
    0 := Value([LOW], map[MAIN := OneBatch(LOW)]),
    100 := Value([HIGH], map[MAIN := OneBatch(HIGH)])
  ]

  lemma TwoBuckets()
    ensures StoreOk(TWO_BUCKETS, FixedSplit(100), {MAIN}) && Persistent(TWO_BUCKETS)
    ensures Held(TWO_BUCKETS, MAIN) == multiset{LOW, HIGH} && FilledKeys(TWO_BUCKETS, MAIN) == {0, 100}
  {
    hide ForkOk, Representable, Content, Persisted, Held;
    OneItem(LOW);
    OneItem(HIGH);
    HeldSplit(TWO_BUCKETS, 0, MAIN);
    assert TWO_BUCKETS - {0} == map[100 := Value([HIGH], map[MAIN := OneBatch(HIGH)])];
    HeldInOne(100, TWO_BUCKETS[100], MAIN);
    assert LOW in multiset{LOW} && HIGH in multiset{HIGH};
    assert FilledKeys(TWO_BUCKETS, MAIN) == {0, 100};
  }

  /** Peeking one item of a fork that is spread over two buckets returns two. */
  lemma PeekReturnsTooMany(t: Store, fn: seq<Item> -> Decision, calls: seq<seq<Item>>)
    requires ReadAnswer(TWO_BUCKETS, t, MAIN, true, fn, 1, calls) && Always(fn, ReadOpPeek)
    ensures Flat(calls) == [LOW, HIGH] && !Smallest(Held(TWO_BUCKETS, MAIN), 1, Flat(calls))
  {
    hide Held, FilledKeys, StoreOk, Persistent, Flat, Conserved, Smallest, PopAnswer;
    TwoBuckets();
    var out := Flat(calls);
    assert |{0 as Key, 100}| == 2;
    assert |multiset(out)| == |out| >= 2;
    assert |multiset{LOW, HIGH} - multiset(out)| == 2 - |out|;
    assert multiset(out) == multiset{LOW, HIGH};
  }

  /** One bucket with one item in the main queue, and a fork whose copy of it was popped. */
  ghost const ONE_DRAINED: Store := map[0 := Value([LOW], map[MAIN := OneBatch(LOW), OTHER := OneDrained(LOW)])]

  /** The callback of a read is called with nothing on an empty fork, because another fork holds an item. */
  lemma EmptyForkIsAsked(t: Store, fn: seq<Item> -> Decision, n: nat, calls: seq<seq<Item>>)
    requires n > 0 && ReadAnswer(ONE_DRAINED, t, OTHER, true, fn, n, calls) && Always(fn, ReadOpPop)
    ensures StoreOk(ONE_DRAINED, FixedSplit(100), {MAIN, OTHER}) && Persistent(ONE_DRAINED)
    ensures Held(ONE_DRAINED, OTHER) == multiset{} && calls != [] && Flat(calls) == []
  {
    hide ForkOk, Representable, Content, Persisted, Flat, Conserved;
    OneItem(LOW);
    HeldInOne(0, ONE_DRAINED[0], OTHER);
    assert 0 in ONE_DRAINED;
  }

  const CLOSED: Tree := map[0 := null]
  ghost const ONE_BUCKET: Store := map[0 := Value([LOW], map[MAIN := OneBatch(LOW)])]
  ghost const ONE_FORKED: Store := map[0 := Value([LOW], map[MAIN := OneBatch(LOW), OTHER := OneBatch(LOW)])]

  /**
   * A fork started while the only bucket is not loaded holds the item of its source, but no length is
   * remembered for it, so the queue takes it to be empty.
   */
  lemma OfflineForkNotCounted()
    ensures Remembered(CLOSED, map[(0, MAIN) := 1], ONE_BUCKET, MAIN)
    ensures ForkedTo(ONE_BUCKET[0], ONE_FORKED[0], MAIN, OTHER) && |Held(ONE_FORKED, OTHER)| == 1
    ensures Right(CLOSED, map[(0, MAIN) := 1], ONE_FORKED, OTHER)
    ensures !NothingMissed(CLOSED, map[(0, MAIN) := 1], ONE_FORKED, OTHER)
  {
    hide ForkOk, Representable, Content, Persisted;
    OneItem(LOW);
    HeldInOne(0, ONE_FORKED[0], OTHER);
    assert LOW in multiset{LOW};
    assert ONE_FORKED[0].forks == ONE_BUCKET[0].forks[OTHER := OneBatch(LOW)];
  }

  /** The compacted file of an index with one batch of one item tells the length 0. */
  lemma CompactedTooShort()
    ensures Counted([LOW], OneBatch(LOW).state) && OneBatch(LOW).state.len == 1
    ensures LastTrailer(Compact(Flatten(OneBatch(LOW).state.m), 0)) == 0
  {
    OneBatchIs(LOW);
    hide Counted, LastTrailer, Compact, Flatten, OneBatch;
    FlattenOne(0, [Location(0, 0, 1)]);
    CompactTrailer([LOW], OneBatch(LOW).state);
  }

  lemma OneBatchIs(x: Item)
    requires x.blob == []
    ensures Counted([x], OneBatch(x).state) && OneBatch(x).state.len == 1
    ensures OneBatch(x).state.m == map[x.key := [Location(x.key, 0, 1)]]
  {
    hide Records, Content;
    OneItem(x);
    assert Get(EMPTY.m, x.key) + [Location(x.key, 0, 1)] == [Location(x.key, 0, 1)];
  }

  lemma FlattenOne(k: Key, locs: seq<Location>)
    ensures Flatten(map[k := locs]) == locs
  {
    var m: Locs := map[k := locs];
    MinKeyIs(m.Keys, k);
    assert m - {k} == map[];
    assert Flatten(m) == m[k] + Flatten(map[]);
  }

  /** The main queue has drained the only bucket; a fork has not read its item. */
  ghost const MAIN_DRAINED: Store := map[0 := Value([LOW], map[MAIN := OneDrained(LOW), OTHER := OneBatch(LOW)])]

  function Files(x: Item, main: ForkValue, other: ForkValue): map<Key, Disk> {
    map[0 := Disk(EncodeAll([x]), map[MAIN := main.file, OTHER := other.file])]
  }

  lemma FilesOnDisk(main: ForkValue, other: ForkValue)
    requires ForkOk([LOW], main) && ForkOk([LOW], other) && Representable([LOW])
    ensures OnDisk(Files(LOW, main, other), map[0 := Value([LOW], map[MAIN := main, OTHER := other])], [OTHER],
                   FixedSplit(100))
    ensures Files(LOW, main, other).Keys == {0}
  {
    hide ForkOk, Representable, Encode;
    assert Names([OTHER]) == {MAIN, OTHER} && ForkSet([OTHER]) == {OTHER};
  }

  lemma MainDrainedHeld()
    ensures Held(MAIN_DRAINED, OTHER) == multiset{LOW} && Held(MAIN_DRAINED, MAIN) == multiset{}
    ensures Persistent(MAIN_DRAINED) && MainDrained(MAIN_DRAINED)
  {
    hide ForkOk, Representable, Content, Persisted, Held;
    OneItem(LOW);
    HeldInOne(0, MAIN_DRAINED[0], MAIN);
    HeldInOne(0, MAIN_DRAINED[0], OTHER);
    MinKeyIs(MAIN_DRAINED.Keys, 0);
  }

  /**
   * Push an item, start a fork, pop the item from the main queue, close, open: opening fails, and the log with
   * the item that the fork has not read is gone.
   */
  method OpeningFails() returns (ok: bool, left: map<Key, Disk>)
    ensures Held(MAIN_DRAINED, OTHER) == multiset{LOW}
    ensures !ok && 0 in left && left[0].log == []
  {
    hide Held, OnDisk, Persistent, OneBatch, OneDrained, MAIN_DRAINED, Files, LeftBehind, MainDrained;
    OneItem(LOW);
    FilesOnDisk(OneDrained(LOW), OneBatch(LOW));
    MainDrainedHeld();
    DrainedFiles();
    var files := Files(LOW, OneDrained(LOW), OneBatch(LOW));
    NoLogLeft(files[0]);
    var found;
    ok, found, left := FindForks(files, 4096, false, MAIN_DRAINED, [OTHER], FixedSplit(100));
  }

  lemma NoLogLeft(disk: Disk)
    ensures LeftBehind(disk, {}).log == []
  {
  }

  lemma DrainedFiles()
    ensures MAIN_DRAINED == map[0 := Value([LOW], map[MAIN := OneDrained(LOW), OTHER := OneBatch(LOW)])]
    ensures MAIN_DRAINED.Keys == {0} && MinKey({0}) == 0
  {
    MinKeyIs({0}, 0);
  }

  lemma OneForked()
    ensures Held(ONE_FORKED, MAIN) == Held(ONE_FORKED, OTHER) == multiset{LOW}
    ensures Persistent(ONE_FORKED) && !MainDrained(ONE_FORKED)
  {
    hide ForkOk, Representable, Content, Persisted, Held;
    OneItem(LOW);
    HeldInOne(0, ONE_FORKED[0], MAIN);
    HeldInOne(0, ONE_FORKED[0], OTHER);
    MinKeyIs(ONE_FORKED.Keys, 0);
    assert LOW in multiset{LOW};
  }

  /**
   * Push an item, start a fork, close, open: the fork is not found, and the bucket cannot be removed any more
   * without losing what the fork has not read.
   */
  method ForkNotFound() returns (ok: bool, found: seq<ForkName>)
    ensures Held(ONE_FORKED, OTHER) == multiset{LOW}
    ensures ok && found == []
    ensures !Removable(Files(LOW, OneBatch(LOW), OneBatch(LOW))[0], {})
  {
    hide Held, OnDisk, Persistent, OneBatch, LeftBehind, MainDrained, ForkOk, Representable;
    OneItem(LOW);
    FilesOnDisk(OneBatch(LOW), OneBatch(LOW));
    OneForked();
    ForgottenForksStay(Files(LOW, OneBatch(LOW), OneBatch(LOW)), ONE_FORKED, [OTHER], FixedSplit(100), 0);
    var left;
    ok, found, left := FindForks(Files(LOW, OneBatch(LOW), OneBatch(LOW)), 4096, false, ONE_FORKED, [OTHER],
                                 FixedSplit(100));
  }

  /**
   * A fork with one item is removed while its bucket is not loaded, and started again from the drained main
   * queue: it is empty, but the length of the removed fork is taken for its own.
   */
  method LeftoverLength() returns (q: Buckets)
    ensures q.Valid() && OTHER in Names(q.forks) && Held(q.store, OTHER) == multiset{}
    ensures 0 in q.tree && q.tree[0] == null && (0, OTHER) in q.trailers && q.trailers[(0, OTHER)] == 1
    ensures !Right(q.tree, q.trailers, q.store, OTHER)
  {
    hide *;
    q := OpenDrained();
    ghost var t, r := q.tree, q.trailers;
    OtherNamed();
    var ok := q.RemoveFork(OTHER);
    RemovedName(q.forks);
    StillClosed(t, r, q.tree, q.trailers);
    q.SettledKeys();
    ghost var s := q.store;
    ok := q.Fork(MAIN, OTHER);
    Refounded(q.tree, q.trailers, s, q.store);
  }

  lemma RemovedName(forks: seq<ForkName>)
    requires forks == Without([OTHER], OTHER)
    ensures OTHER !in forks && MAIN in Names(forks) && OTHER in Names(forks + [OTHER])
  {
    WithoutNames([OTHER], OTHER);
  }

  lemma StillClosed(t0: Tree, r0: Trailers, t: Tree, r: Trailers)
    requires ClosedStay(t0, r0, t, r) && 0 in t0 && t0[0] == null && (0, OTHER) in r0
    ensures 0 in t && t[0] == null && (0, OTHER) in r && r[(0, OTHER)] == r0[(0, OTHER)]
  {
    assert SameLengths(r0, r, 0);
  }

  lemma Refounded(tree: Tree, trailers: Trailers, s: Store, t: Store)
    requires ForkResult(tree, s, t, MAIN, OTHER) && Held(s, MAIN) == multiset{} && 0 in s
    requires 0 in tree && tree[0] == null && (0, OTHER) in trailers && trailers[(0, OTHER)] == 1
    ensures Held(t, OTHER) == multiset{} && !Right(tree, trailers, t, OTHER)
  {
    hide Held, ForkContent, Right, AllOnce, Persistent, ForkLasts;
    HeldSplit(s, 0, MAIN);
    NewForkLengths(tree, trailers, s, t, MAIN, OTHER);
  }

  lemma OtherLength(tree: Tree, trailers: Trailers)
    requires tree.Keys == {0} && LoadedKeys(tree) == {}
    requires AllStamped(MAIN_DRAINED, OTHER) && Countable(MAIN_DRAINED, OTHER) ==>
               Remembered(tree, trailers, MAIN_DRAINED, OTHER)
    ensures 0 in tree && tree[0] == null && (0, OTHER) in trailers && trailers[(0, OTHER)] == 1
  {
    hide ForkOk, Representable, Content, Persisted;
    OneItem(LOW);
    assert 0 !in LoadedKeys(tree);
    assert |multiset{LOW}| == 1;
  }

  lemma OtherNamed()
    ensures OTHER in Names([OTHER]) && OTHER != MAIN && OTHER in [OTHER]
  {
  }

  method OpenDrained() returns (q: Buckets)
    ensures q.Valid() && fresh(q.Repr) && q.forks == [OTHER] && q.store == MAIN_DRAINED
    ensures 0 in q.tree && q.tree[0] == null && (0, OTHER) in q.trailers && q.trailers[(0, OTHER)] == 1
    ensures Held(q.store, MAIN) == multiset{}
  {
    hide Held, OnDisk, Persistent, OneBatch, OneDrained, MAIN_DRAINED, Files, LeftBehind, Remembered, Countable;
    hide AllStamped;
    OneItem(LOW);
    FilesOnDisk(OneDrained(LOW), OneBatch(LOW));
    MainDrainedHeld();
    DrainedFiles();
    q := new Buckets.Open(FixedSplit(100), 4096, 0, false, Files(LOW, OneDrained(LOW), OneBatch(LOW)), [OTHER],
                          MAIN_DRAINED);
    q.SettledKeys();
    OtherNamed();
    OtherLength(q.tree, q.trailers);
  }
}
