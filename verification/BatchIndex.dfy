/** The batch index of one fork, in memory and as a log of fixed-size records (index/). */
module BatchIndex {
  import opened Items
  import opened Vlog
  import opened IndexSpec
  import opened Contents

  const TRAILER_LEN := 4
  const LOCATION_SIZE := 8 + 8 + 4 + TRAILER_LEN

  // ---------- The index as a value ----------

  /** `len` counts the items of all locations; `entries` only grows and also counts deleted items. */
  datatype State = State(m: Locs, len: int, entries: nat)

  const EMPTY := State(map[], 0, 0)

  function SetState(s: State, loc: Location): State {
    State(SetLoc(s.m, loc), s.len + loc.len, s.entries + loc.len)
  }

  function DeleteState(s: State, k: Key): State {
    if k !in s.m || s.m[k] == [] then s
    else State(DeleteKey(s.m, k), s.len - s.m[k][0].len, s.entries + s.m[k][0].len)
  }

  function StepState(s: State, op: Location): State {
    if op.len == 0 then DeleteState(s, op.key) else SetState(s, op)
  }

  ghost function Replay(s: State, ops: seq<Location>): State
    decreases ops
  {
    if ops == [] then s else Replay(StepState(s, ops[0]), ops[1..])
  }

  lemma {:induction false} ReplayMap(s: State, ops: seq<Location>)
    requires NoEmpty(s.m)
    ensures NoEmpty(Replay(s, ops).m) && Replay(s, ops).m == ApplyAll(s.m, ops)
    decreases ops
  {
    if ops != [] {
      ReplayMap(StepState(s, ops[0]), ops[1..]);
    }
  }

  /** The stored length is the number of items the index holds. */
  ghost predicate Counted(items: seq<Item>, s: State) {
    IndexOk(items, s.m) && s.len == |Content(items, s.m)|
  }

  lemma CountedStep(items: seq<Item>, s: State, op: Location)
    requires Counted(items, s) && (op.len == 0 || LocOk(items, op))
    ensures Counted(items, StepState(s, op))
    ensures op.len > 0 ==> Content(items, StepState(s, op).m) == Content(items, s.m) + multiset(Run(items, op))
  {
    IndexOkApply(items, s.m, op);
    if op.len > 0 {
      SumSet(s.m, op, Bag(items));
    } else if op.key in s.m {
      SumDelete(s.m, op.key, Bag(items));
    }
  }

  lemma {:induction false} CountedReplay(items: seq<Item>, s: State, ops: seq<Location>)
    requires Counted(items, s)
    requires forall i :: 0 <= i < |ops| ==> ops[i].len == 0 || LocOk(items, ops[i])
    ensures Counted(items, Replay(s, ops))
    decreases ops
  {
    if ops != [] {
      CountedStep(items, s, ops[0]);
      CountedReplay(items, StepState(s, ops[0]), ops[1..]);
    }
  }

  lemma EmptyCounted(items: seq<Item>)
    ensures Counted(items, EMPTY) && Content(items, map[]) == multiset{}
  {
  }

  /** Replaying counts no entries exactly when nothing was ever set. */
  lemma {:induction false} ReplayEntries(s: State, ops: seq<Location>)
    ensures Replay(s, ops).entries >= s.entries
    ensures Sets(ops) != [] ==> Replay(s, ops).entries > 0
    ensures s.m == map[] && Sets(ops) == [] ==> Replay(s, ops) == s
    decreases ops
  {
    if ops != [] {
      ReplayEntries(StepState(s, ops[0]), ops[1..]);
    }
  }

  // ---------- The index as an object ----------

  class Index {
    var m: Locs
    var len: int
    var nentries: nat

    ghost function Value(): State
      reads this
    {
      State(m, len, nentries)
    }

    constructor ()
      ensures Value() == EMPTY
    {
      m, len, nentries := map[], 0, 0;
    }

    method Set(loc: Location)
      modifies this
      ensures Value() == SetState(old(Value()), loc)
    {
      var oldLocs := if loc.key in m then m[loc.key] else [];
      m := m[loc.key := oldLocs + [loc]];
      len := len + loc.len;
      nentries := nentries + loc.len;
    }

    /** Forgets the oldest location under the key, if there is one. */
    method Delete(key: Key) returns (loc: Location)
      requires NoEmpty(m)
      modifies this
      ensures Value() == DeleteState(old(Value()), key) && NoEmpty(m)
      ensures key in old(m) ==> loc == old(m[key][0])
    {
      loc := Location(0, 0, 0);
      if key !in m {
        return;
      }
      var oldLocs := m[key];
      loc := oldLocs[0];
      len := len - loc.len;
      nentries := nentries + loc.len;
      if |oldLocs| > 1 {
        m := m[key := oldLocs[1..]];
        return;
      }
      m := m - {key};
    }

    /** Takes over one record of the index file; a length of zero marks a consumed batch. */
    method Record(loc: Location)
      requires NoEmpty(m)
      modifies this
      ensures Value() == StepState(old(Value()), loc) && NoEmpty(m)
    {
      if loc.len == 0 {
        var dead := Delete(loc.key);
      } else {
        Set(loc);
      }
    }

    method Copy() returns (copy: Index)
      ensures fresh(copy) && copy.Value() == Value()
    {
      copy := new Index();
      copy.m, copy.len, copy.nentries := m, len, nentries;
    }

    method Iter() returns (iter: IndexIter)
      requires NoEmpty(m)
      ensures fresh(iter) && iter.Valid() && iter.Todo() == Flatten(m) && iter.curr == []
    {
      iter := new IndexIter(m);
    }
  }

  /** Visits a snapshot of the index by ascending key, and oldest first under one key. */
  class IndexIter {
    var rest: Locs
    var curr: seq<Location>

    ghost predicate Valid()
      reads this
    {
      NoEmpty(rest)
    }

    ghost function Todo(): seq<Location>
      reads this
    {
      (if curr == [] then [] else curr[1..]) + Flatten(rest)
    }

    constructor (m: Locs)
      ensures rest == m && curr == []
    {
      rest, curr := m, [];
    }

    method Next() returns (ok: bool)
      requires Valid()
      modifies this
      ensures Valid() && ok == (old(Todo()) != [])
      ensures ok ==> curr != [] && old(Todo()) == [curr[0]] + Todo()
      ensures !ok ==> Todo() == []
    {
      if |curr| > 1 {
        curr := curr[1..];
        return true;
      }
      if rest != map[] {
        ghost var k0 := MinKey(rest.Keys);
        var k :| k in rest && forall x :: x in rest ==> k <= x;
        assert k == k0;
        curr := rest[k];
        rest := rest - {k};
        return true;
      }
      return false;
    }

    function Value(): Location
      reads this
    {
      if |curr| == 0 then Location(0, 0, 0) else curr[0]
    }
  }

  // ---------- Records ----------

  function EncodeRecord(loc: Location, total: nat): (s: seq<Byte>)
    ensures |s| == LOCATION_SIZE
  {
    BigEndian(Unsigned64(loc.key), 8) + BigEndian(loc.off, 8) + BigEndian(loc.len, 4) + BigEndian(total, 4)
  }

  /** A record as bytes: key, offset, length and total, the most significant byte of each first. */
  ghost predicate RecordBytes(s: seq<Byte>, loc: Location, total: nat) {
    && |s| == 24
    && HoldsKey(s[..8], loc.key)
    && HoldsNumber(s[8..16], loc.off)
    && HoldsNumber(s[16..20], loc.len)
    && HoldsNumber(s[20..], total)
  }

  lemma RecordEncoded(loc: Location, total: nat)
    ensures RecordBytes(EncodeRecord(loc, total), loc, total)
  {
    hide HoldsNumber, EncodeRecord, BigEndian;
    RecordFields(loc, total);
    NumberWritten(Unsigned64(loc.key), 8);
    NumberWritten(loc.off, 8);
    NumberWritten(loc.len, 4);
    NumberWritten(total, 4);
  }

  function DecodeRecord(s: seq<Byte>): Location
    requires |s| == LOCATION_SIZE
  {
    Pow256Values();
    Location(Signed64(FromBigEndian(s[..8])), FromBigEndian(s[8..16]), FromBigEndian(s[16..20]))
  }

  /** The field widths of a record. */
  ghost predicate Fits(loc: Location) {
    loc.off < TWO_64 && loc.len < TWO_32
  }

  lemma RecordFields(loc: Location, total: nat)
    ensures var s := EncodeRecord(loc, total);
            && s[..8] == BigEndian(Unsigned64(loc.key), 8)
            && s[8..16] == BigEndian(loc.off, 8)
            && s[16..20] == BigEndian(loc.len, 4)
            && s[20..] == BigEndian(total, 4)
  {
  }

  /** A record reads back as written exactly when its fields fit. */
  lemma RecordRoundTrip(loc: Location, total: nat)
    ensures DecodeRecord(EncodeRecord(loc, total)) == loc <==> Fits(loc)
  {
    RecordFields(loc, total);
    KeyField(loc.key);
    Field64(loc.off);
    Field32(loc.len);
  }

  /** The whole records of an index file; trailing bytes of a torn record are not part of it. */
  ghost function Records(file: seq<Byte>): seq<Location> {
    if |file| < LOCATION_SIZE then []
    else [DecodeRecord(file[..LOCATION_SIZE])] + Records(file[LOCATION_SIZE..])
  }

  ghost predicate Whole(file: seq<Byte>) {
    |file| % LOCATION_SIZE == 0
  }

  lemma {:induction false} RecordsConcat(a: seq<Byte>, b: seq<Byte>)
    requires Whole(a)
    ensures Records(a + b) == Records(a) + Records(b)
  {
    if a == [] {
      assert a + b == b;
    } else {
      assert (a + b)[..LOCATION_SIZE] == a[..LOCATION_SIZE];
      assert (a + b)[LOCATION_SIZE..] == a[LOCATION_SIZE..] + b;
      RecordsConcat(a[LOCATION_SIZE..], b);
    }
  }

  lemma WholeConcat(a: seq<Byte>, b: seq<Byte>)
    requires Whole(a) && |b| == LOCATION_SIZE
    ensures Whole(a + b)
  {
  }

  lemma OneRecord(s: seq<Byte>)
    requires |s| == LOCATION_SIZE
    ensures Records(s) == [DecodeRecord(s)]
  {
    assert s[..LOCATION_SIZE] == s;
    assert Records(s[LOCATION_SIZE..]) == [];
  }

  lemma RecordsAppend(file: seq<Byte>, loc: Location, total: nat)
    requires Whole(file) && Fits(loc)
    ensures Whole(file + EncodeRecord(loc, total))
    ensures Records(file + EncodeRecord(loc, total)) == Records(file) + [loc]
  {
    var r := EncodeRecord(loc, total);
    WholeConcat(file, r);
    RecordsConcat(file, r);
    OneRecord(r);
    RecordRoundTrip(loc, total);
  }

  lemma {:induction false} RecordsLength(file: seq<Byte>)
    ensures |Records(file)| == |file| / LOCATION_SIZE
  {
    if |file| >= LOCATION_SIZE {
      RecordsLength(file[LOCATION_SIZE..]);
    }
  }

  /** The last total written, as ReadTrailer finds it at the end of the file. */
  function LastTrailer(file: seq<Byte>): nat {
    if |file| < LOCATION_SIZE then 0 else FromBigEndian(file[|file| - TRAILER_LEN..])
  }

  lemma LastTrailerAppend(file: seq<Byte>, loc: Location, total: nat)
    ensures LastTrailer(file + EncodeRecord(loc, total)) == total <==> total < TWO_32
  {
    var f := file + EncodeRecord(loc, total);
    RecordFields(loc, total);
    assert f[|f| - TRAILER_LEN..] == EncodeRecord(loc, total)[20..];
    Field32(total);
  }

  class Writer {
    var file: seq<Byte>

    constructor (existing: seq<Byte>)
      ensures file == existing
    {
      file := existing;
    }

    method Push(loc: Location, total: nat)
      modifies this
      ensures file == old(file) + EncodeRecord(loc, total)
      ensures RecordBytes(file[|old(file)|..], loc, total)
    {
      var locBuf := new Byte[LOCATION_SIZE];
      PutInto(locBuf, 0, BigEndian(Unsigned64(loc.key), 8));
      PutInto(locBuf, 8, BigEndian(loc.off, 8));
      PutInto(locBuf, 16, BigEndian(loc.len, 4));
      PutInto(locBuf, 20, BigEndian(total, 4));
      assert locBuf[..] == locBuf[..8] + locBuf[8..16] + locBuf[16..20] + locBuf[20..24];
      file := file + locBuf[..];
      assert file[|old(file)|..] == EncodeRecord(loc, total);
      RecordEncoded(loc, total);
    }
  }

  method PutInto(buf: array<Byte>, off: nat, s: seq<Byte>)
    requires off + |s| <= buf.Length
    modifies buf
    ensures buf[off..off + |s|] == s
    ensures forall i :: 0 <= i < buf.Length && !(off <= i < off + |s|) ==> buf[i] == old(buf[i])
  {
    forall i | 0 <= i < |s| {
      buf[off + i] := s[i];
    }
  }

  class Reader {
    const data: seq<Byte>
    var pos: nat
    var failed: bool

    ghost predicate Valid()
      reads this
    {
      pos <= |data|
    }

    constructor (data: seq<Byte>)
      ensures this.data == data && pos == 0 && !failed
    {
      this.data, pos, failed := data, 0, false;
    }

    /** The next whole record. A clean end of file is no error, a torn record is. */
    method Next() returns (loc: Location, ok: bool)
      requires Valid()
      modifies this
      ensures Valid()
      ensures ok == (old(pos) + LOCATION_SIZE <= |data|)
      ensures ok ==> pos == old(pos) + LOCATION_SIZE && failed == old(failed)
      ensures ok ==> loc == DecodeRecord(data[old(pos)..pos])
      ensures !ok ==> failed == (old(failed) || old(pos) < |data|)
    {
      if pos + LOCATION_SIZE > |data| {
        if pos < |data| {
          failed := true;
        }
        pos := |data|;
        return Location(0, 0, 0), false;
      }
      var locBuf := data[pos..pos + LOCATION_SIZE];
      pos := pos + LOCATION_SIZE;
      return DecodeRecord(locBuf), true;
    }
  }

  /** The next record of a file is the first that remains to be replayed. */
  lemma NextRecord(s: State, file: seq<Byte>, at: nat)
    requires at + LOCATION_SIZE <= |file|
    ensures Replay(s, Records(file[at..]))
            == Replay(StepState(s, DecodeRecord(file[at..at + LOCATION_SIZE])), Records(file[at + LOCATION_SIZE..]))
  {
    var f := file[at..];
    var op, rest := DecodeRecord(f[..LOCATION_SIZE]), Records(f[LOCATION_SIZE..]);
    assert f[..LOCATION_SIZE] == file[at..at + LOCATION_SIZE];
    assert f[LOCATION_SIZE..] == file[at + LOCATION_SIZE..];
    assert Records(f) == [op] + rest;
    assert ([op] + rest)[1..] == rest;
  }

  lemma NoRecord(s: State, file: seq<Byte>, at: nat, n: nat)
    requires at <= |file| < at + LOCATION_SIZE && at == LOCATION_SIZE * n
    ensures Replay(s, Records(file[at..])) == s
    ensures at < |file| <==> !Whole(file)
  {
    assert Records(file[at..]) == [];
  }

  /** `goal` is what replaying the file from `at` on makes of s. */
  ghost predicate Leads(s: State, file: seq<Byte>, at: nat, goal: State) {
    at <= |file| && Replay(s, Records(file[at..])) == goal
  }

  /** Rebuilds an index from its file: a replay of all whole records; a torn one is reported. */
  method Load(file: seq<Byte>) returns (index: Index, failed: bool)
    ensures fresh(index) && index.Value() == Replay(EMPTY, Records(file)) && NoEmpty(index.m)
    ensures failed <==> !Whole(file)
  {
    hide StepState;
    var rdr := new Reader(file);
    index := new Index();
    ghost var n, goal := 0, Replay(EMPTY, Records(file));
    assert file[0..] == file;
    while true
      invariant fresh(rdr) && fresh(index) && rdr.data == file
      invariant NoEmpty(index.m)
      invariant !rdr.failed && rdr.pos == LOCATION_SIZE * n
      invariant Leads(index.Value(), file, rdr.pos, goal)
      decreases |file| - rdr.pos
    {
      ghost var at, before := rdr.pos, index.Value();
      var loc, ok := rdr.Next();
      if !ok {
        NoRecord(before, file, at, n);
        failed := rdr.failed;
        return;
      }
      assert Leads(StepState(before, loc), file, at + LOCATION_SIZE, goal) by {
        NextRecord(before, file, at);
      }
      index.Record(loc);
      n := n + 1;
    }
  }

  // ---------- Compaction ----------

  /** The file WriteIndex produces: all locations in reading order; the trailers count locations. */
  ghost function Compact(locs: seq<Location>, n: nat): seq<Byte> {
    if locs == [] then [] else EncodeRecord(locs[0], n) + Compact(locs[1..], n + 1)
  }

  lemma NoRecords()
    ensures Whole([]) && Records([]) == []
  {
  }

  lemma WholePair(a: seq<Byte>, b: seq<Byte>)
    requires Whole(a) && Whole(b)
    ensures Whole(a + b)
  {
  }

  lemma {:induction false} CompactRecords(locs: seq<Location>, n: nat)
    requires forall i :: 0 <= i < |locs| ==> Fits(locs[i])
    ensures Whole(Compact(locs, n)) && Records(Compact(locs, n)) == locs
  {
    hide EncodeRecord, DecodeRecord, Records;
    if locs == [] {
      NoRecords();
    } else {
      var r, rest := EncodeRecord(locs[0], n), Compact(locs[1..], n + 1);
      CompactRecords(locs[1..], n + 1);
      RecordRoundTrip(locs[0], n);
      OneRecord(r);
      WholeConcat([], r);
      assert [] + r == r;
      RecordsConcat(r, rest);
      WholePair(r, rest);
      assert locs == [locs[0]] + locs[1..];
    }
  }

  lemma {:induction false} CompactSnoc(locs: seq<Location>, n: nat, loc: Location)
    ensures Compact(locs + [loc], n) == Compact(locs, n) + EncodeRecord(loc, n + |locs|)
  {
    if locs == [] {
      assert [loc][1..] == [];
      assert Compact([loc], n) == EncodeRecord(loc, n) + Compact([], n + 1);
    } else {
      assert (locs + [loc])[1..] == locs[1..] + [loc];
      CompactSnoc(locs[1..], n + 1, loc);
    }
  }

  /** Replaying the locations of an index in reading order rebuilds it: compaction loses nothing. */
  lemma FlattenReplays(m: Locs)
    requires Keyed(m) && forall i :: 0 <= i < |Flatten(m)| ==> Flatten(m)[i].len > 0
    ensures ApplyAll(map[], Flatten(m)) == m
  {
    var r := ApplyAll(map[], Flatten(m));
    PlainSets(map[], Flatten(m));
    forall k: Key
      ensures Get(r, k) == Get(m, k)
    {
      GetSetAll(map[], Flatten(m), k);
      UnderFlatten(m, k);
    }
    GetSetAll(map[], Flatten(m), 0);
    SameMap(r, m);
  }

  /** A compacted file tells the length of its index if and only if the index is empty. */
  lemma CompactTells(items: seq<Item>, s: State)
    requires Counted(items, s) && |Flatten(s.m)| < TWO_32
    ensures LastTrailer(Compact(Flatten(s.m), 0)) == s.len <==> s.m == map[]
  {
    EmptyCounted(items);
    if s.m != map[] {
      CompactTrailer(items, s);
    }
  }

  /**
   * The trailer of a compacted file is one less than the number of locations, so it understates the
   * length of every non-empty index until the next record is written.
   */
  lemma CompactTrailer(items: seq<Item>, s: State)
    requires Counted(items, s) && s.m != map[] && |Flatten(s.m)| < TWO_32
    ensures LastTrailer(Compact(Flatten(s.m), 0)) == |Flatten(s.m)| - 1 < s.len
  {
    hide EncodeRecord, LastTrailer, Compact, Flatten, LocOk;
    var f := Flatten(s.m);
    FlattenEmpty(s.m);
    var n := |f| - 1;
    assert f == f[..n] + [f[n]];
    CompactSnoc(f[..n], 0, f[n]);
    LastTrailerAppend(Compact(f[..n], 0), f[n], n);
    forall i | 0 <= i < |f|
      ensures |Bag(items)(f[i])| >= 1
    {
      FlattenOk(items, s.m, i);
      LocOkRun(items, f[i]);
    }
    TotalAtLeast(f, Bag(items));
  }

  lemma {:induction false} TotalAtLeast<T, U>(s: seq<T>, f: T -> multiset<U>)
    requires forall i :: 0 <= i < |s| ==> |f(s[i])| >= 1
    ensures |Total(s, f)| >= |s|
  {
    if s != [] {
      TotalAtLeast(s[1..], f);
    }
  }

  lemma CompactNothing(locs: seq<Location>)
    requires locs == []
    ensures Compact(locs, 0) == []
  {
  }

  method WriteIndex(idx: Index, writer: Writer)
    requires NoEmpty(idx.m)
    modifies writer
    ensures writer.file == old(writer.file) + Compact(Flatten(idx.m), 0)
  {
    hide Flatten, EncodeRecord, Compact;
    var iter := idx.Iter();
    var total := 0;
    ghost var f, was := Flatten(idx.m), writer.file;
    assert f[..0] == [] && f[0..] == f;
    CompactNothing(f[..0]);
    while true
      invariant fresh(iter) && iter.Valid()
      invariant 0 <= total <= |f| && iter.Todo() == f[total..]
      invariant writer.file == was + Compact(f[..total], 0)
      decreases |f| - total
    {
      var ok := iter.Next();
      if !ok {
        assert f[..total] == f;
        return;
      }
      var loc := iter.Value();
      assert f[..total + 1] == f[..total] + [loc];
      CompactSnoc(f[..total], 0, loc);
      writer.Push(loc, total);
      assert writer.file == was + (Compact(f[..total], 0) + EncodeRecord(loc, total));
      total := total + 1;
    }
  }
}
