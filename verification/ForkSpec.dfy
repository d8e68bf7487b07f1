/** One fork of a bucket as a value: its index in memory together with the index file that mirrors it. */
module ForkSpec {
  import opened Items
  import opened Vlog
  import opened IndexSpec
  import opened Contents
  import opened BatchIndex

  datatype ForkValue = ForkValue(state: State, file: seq<Byte>)

  /** Sizes that the 32- and 64-bit fields of the file formats can express. */
  ghost predicate Representable(items: seq<Item>) {
    |items| < TWO_32 && SizeOfAll(items) < TWO_63
  }

  ghost predicate OpsOk(items: seq<Item>, ops: seq<Location>) {
    forall i :: 0 <= i < |ops| ==> ops[i].len == 0 || LocOk(items, ops[i])
  }

  /** The file is whole, and replaying it yields the index in memory. */
  ghost predicate Mirrored(items: seq<Item>, m: Locs, file: seq<Byte>) {
    && Whole(file)
    && OpsOk(items, Records(file))
    && ApplyAll(map[], Records(file)) == m
  }

  /** The last record of the file tells the length of the index, if its 32-bit field can express it. */
  ghost predicate Stamped(f: ForkValue) {
    f.state.len < TWO_32 ==> LastTrailer(f.file) == f.state.len
  }

  ghost predicate ForkOk(items: seq<Item>, f: ForkValue) {
    Counted(items, f.state) && Mirrored(items, f.state.m, f.file)
  }

  lemma LocFits(items: seq<Item>, loc: Location)
    requires Readable(items, loc) && Representable(items)
    ensures Fits(loc)
  {
    DropEncoded(items, loc.off);
  }

  lemma MirroredStep(items: seq<Item>, m: Locs, file: seq<Byte>, op: Location, total: nat)
    requires Representable(items) && Mirrored(items, m, file) && LogOp(items, op)
    ensures Mirrored(items, Apply(m, op), file + EncodeRecord(op, total))
    ensures Records(file + EncodeRecord(op, total)) == Records(file) + [op]
  {
    if op.len > 0 {
      LocFits(items, op);
    }
    RecordsAppend(file, op, total);
    ApplyAllConcat(map[], Records(file), [op]);
    assert ApplyAll(m, [op]) == ApplyAll(Apply(m, op), []);
  }

  /** The fork after one operation that is applied in memory and recorded with the resulting length. */
  function Logged(f: ForkValue, op: Location): ForkValue {
    var s := StepState(f.state, op);
    ForkValue(s, f.file + EncodeRecord(op, if s.len < 0 then 0 else s.len))
  }

  lemma LoggedOk(items: seq<Item>, f: ForkValue, op: Location)
    requires Representable(items) && ForkOk(items, f) && LogOp(items, op)
    ensures NoEmpty(f.state.m) && NoEmpty(Logged(f, op).state.m)
    ensures ForkOk(items, Logged(f, op)) && Logged(f, op).state.len >= 0 && StepState(f.state, op).len >= 0
    ensures Records(Logged(f, op).file) == Records(f.file) + [op]
    ensures op.len > 0 ==>
              Content(items, Logged(f, op).state.m) == Content(items, f.state.m) + multiset(Run(items, op))
    ensures Logged(f, op).state.len < TWO_32 ==> LastTrailer(Logged(f, op).file) == Logged(f, op).state.len
  {
    CountedStep(items, f.state, op);
    var s := StepState(f.state, op);
    MirroredStep(items, f.state.m, f.file, op, s.len);
    LastTrailerAppend(f.file, op, s.len);
  }

  lemma LogStep(items: seq<Item>, f: ForkValue, op: Location)
    requires Representable(items) && ForkOk(items, f) && LogOp(items, op)
    ensures NoEmpty(f.state.m) && StepState(f.state, op).len >= 0 && ForkOk(items, Logged(f, op))
  {
    hide ForkOk, Representable, LogOp;
    LoggedOk(items, f, op);
  }

  ghost function LoggedAll(f: ForkValue, ops: seq<Location>): ForkValue
    decreases ops
  {
    if ops == [] then f else LoggedAll(Logged(f, ops[0]), ops[1..])
  }

  lemma {:induction false} LoggedAllSnoc(f: ForkValue, ops: seq<Location>, op: Location)
    ensures LoggedAll(f, ops + [op]) == Logged(LoggedAll(f, ops), op)
    decreases ops
  {
    if ops == [] {
      assert [op][1..] == [];
      assert LoggedAll(f, [op]) == LoggedAll(Logged(f, op), []);
    } else {
      assert (ops + [op])[1..] == ops[1..] + [op];
      LoggedAllSnoc(Logged(f, ops[0]), ops[1..], op);
    }
  }

  lemma {:induction false} LoggedAllConcat(f: ForkValue, a: seq<Location>, b: seq<Location>)
    ensures LoggedAll(f, a + b) == LoggedAll(LoggedAll(f, a), b)
    decreases a
  {
    if a == [] {
      assert a + b == b;
    } else {
      assert (a + b)[1..] == a[1..] + b;
      LoggedAllConcat(Logged(f, a[0]), a[1..], b);
    }
  }

  /** An operation as the queue logs it: the end of a batch, or a valid location. */
  ghost predicate LogOp(items: seq<Item>, op: Location) {
    op == Location(op.key, 0, 0) || LocOk(items, op)
  }

  ghost predicate LogOps(items: seq<Item>, ops: seq<Location>) {
    forall i :: 0 <= i < |ops| ==> LogOp(items, ops[i])
  }

  /** A run of logged operations keeps file and memory in step. */
  lemma {:induction false} LoggedAllOk(items: seq<Item>, f: ForkValue, ops: seq<Location>)
    requires Representable(items) && ForkOk(items, f) && LogOps(items, ops)
    ensures ForkOk(items, LoggedAll(f, ops))
    ensures Records(LoggedAll(f, ops).file) == Records(f.file) + ops
    decreases ops
  {
    hide ForkOk, Logged, LogOp, Records;
    if ops == [] {
      assert Records(f.file) + ops == Records(f.file);
    } else {
      assert LogOp(items, ops[0]);
      LoggedOk(items, f, ops[0]);
      LoggedAllOk(items, Logged(f, ops[0]), ops[1..]);
      assert Records(f.file) + ops == (Records(f.file) + [ops[0]]) + ops[1..];
    }
  }

  lemma {:induction false} LoggedAllState(f: ForkValue, ops: seq<Location>)
    requires NoEmpty(f.state.m)
    ensures LoggedAll(f, ops).state.m == ApplyAll(f.state.m, ops)
    decreases ops
  {
    if ops != [] {
      LoggedAllState(Logged(f, ops[0]), ops[1..]);
    }
  }

  /** The last record of a file tells the length of the index. */
  lemma LoggedAllTrailer(items: seq<Item>, f: ForkValue, ops: seq<Location>)
    requires Representable(items) && ForkOk(items, f) && LogOps(items, ops) && ops != []
    requires LoggedAll(f, ops).state.len < TWO_32
    ensures LastTrailer(LoggedAll(f, ops).file) == LoggedAll(f, ops).state.len
  {
    hide ForkOk, Logged, Records;
    var n := |ops| - 1;
    assert ops == ops[..n] + [ops[n]];
    LoggedAllSnoc(f, ops[..n], ops[n]);
    LoggedAllOk(items, f, ops[..n]);
    assert LogOp(items, ops[n]);
    LoggedOk(items, LoggedAll(f, ops[..n]), ops[n]);
  }

  /** Loading the file of a fork rebuilds its index and its length. */
  lemma MirrorReloads(items: seq<Item>, f: ForkValue)
    requires ForkOk(items, f)
    ensures var s := Replay(EMPTY, Records(f.file));
            s.m == f.state.m && s.len == f.state.len && Counted(items, s)
  {
    EmptyCounted(items);
    ReplayMap(EMPTY, Records(f.file));
    CountedReplay(items, EMPTY, Records(f.file));
  }

  /** Later pushes to the log do not disturb a fork. */
  lemma ForkStable(items: seq<Item>, more: seq<Item>, f: ForkValue)
    requires ForkOk(items, f)
    ensures ForkOk(items + more, f)
    ensures Content(items + more, f.state.m) == Content(items, f.state.m)
  {
    ContentStable(items, more, f.state.m);
    forall i | 0 <= i < |Records(f.file)| && Records(f.file)[i].len > 0
      ensures LocOk(items + more, Records(f.file)[i])
    {
      LocStable(items, more, Records(f.file)[i]);
    }
  }

  /** What a location of a pushed batch adds to every fork. */
  lemma BatchOk(items: seq<Item>, batch: seq<Item>, loc: Location)
    requires batch != [] && Sorted(batch)
    requires loc.key == batch[0].key && Readable(items + batch, loc) && Run(items + batch, loc) == batch
    ensures LocOk(items + batch, loc)
  {
  }
}
