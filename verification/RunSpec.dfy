/** What users see of the queue, every fork with the bag of items it holds, and what operations do to it. */
module RunSpec {
  import opened Items
  import opened IndexSpec
  import opened ForkSpec
  import opened RangeSpec
  import opened BucketSpec
  import opened QueueSpec
  import opened TreeSpec
  import opened PushSpec
  import opened ReadSpec
  import opened CutSpec
  import opened ForksSpec

  datatype Op =
    | OpPush(items: seq<Item>)
    | OpPop(n: int, fork: ForkName)
    | OpPeek(n: int, fork: ForkName)
    | OpDelete(fork: ForkName, from: Key, to: Key)
    | OpFork(src: ForkName, dst: ForkName)
    | OpRemoveFork(fork: ForkName)
    | OpRestart

  /** What an operation pushes. */
  function BatchOf(op: Op): seq<Item> {
    if op.OpPush? then op.items else []
  }

  function AllPushed(ops: seq<Op>): seq<Item> {
    if ops == [] then [] else BatchOf(ops[0]) + AllPushed(ops[1..])
  }

  datatype Outcome = Outcome(ok: bool, items: seq<Item>, count: int)

  /** What users see: every fork and the items it holds. */
  type Abstract = map<ForkName, multiset<Item>>

  ghost function Abs(s: Store, forks: seq<ForkName>): Abstract {
    map f | f in Names(forks) :: Held(s, f)
  }

  lemma AbsAt(s: Store, forks: seq<ForkName>)
    ensures Abs(s, forks).Keys == Names(forks)
    ensures forall f :: f in Names(forks) ==> Abs(s, forks)[f] == Held(s, f)
  {
    hide Held, Names;
  }

  lemma AbsIs(s: Store, forks: seq<ForkName>, a: Abstract)
    requires a.Keys == Names(forks) && forall f :: f in Names(forks) ==> a[f] == Held(s, f)
    ensures Abs(s, forks) == a
  {
    hide Held, Names;
  }

  lemma AbsChanged(s: Store, t: Store, forks: seq<ForkName>, fork: ForkName)
    requires forall f :: f != fork ==> Held(t, f) == Held(s, f)
    requires fork in Names(forks)
    ensures Abs(t, forks) == Abs(s, forks)[fork := Held(t, fork)]
  {
    hide Held, Names;
  }

  lemma AbsSame(s: Store, t: Store, forks: seq<ForkName>)
    requires forall f :: f in Names(forks) ==> Held(t, f) == Held(s, f)
    ensures Abs(t, forks) == Abs(s, forks)
  {
    hide Held, Names;
  }

  /** The items of a bag that lie outside a key range. */
  ghost function Outside(b: multiset<Item>, from: Key, to: Key): (r: multiset<Item>)
    ensures RangeRemoved(b, r, from, to)
    decreases |b|
  {
    if b == multiset{} then multiset{}
    else
      var x :| x in b;
      var rest := Outside(b[x := 0], from, to);
      if InRange(x, from, to) then rest else rest[x := b[x]]
  }

  lemma OutsideIs(b: multiset<Item>, r: multiset<Item>, from: Key, to: Key)
    requires RangeRemoved(b, r, from, to)
    ensures r == Outside(b, from, to)
  {
    assert forall x :: r[x] == Outside(b, from, to)[x];
  }

  /** What an operation does to the forks. */
  ghost function AbsNext(a: Abstract, op: Op, out: Outcome): Abstract {
    match op
    case OpPush(items) => map f | f in a :: a[f] + multiset(items)
    case OpPop(n, fork) => if fork in a then a[fork := a[fork] - multiset(out.items)] else a
    case OpPeek(n, fork) => a
    case OpDelete(fork, from, to) => if fork in a && from <= to then a[fork := Outside(a[fork], from, to)] else a
    case OpFork(src, dst) =>
      if dst == MAIN || dst in a || !out.ok then a
      else a[dst := if src in a then a[src] else multiset{}]
    case OpRemoveFork(fork) => if fork == MAIN then a else a - {fork}
    case OpRestart => a
  }

  /** What an operation may return. */
  ghost predicate Allowed(a: Abstract, op: Op, out: Outcome) {
    match op
    case OpPush(items) => out.ok
    case OpPop(n, fork) => if fork in a then out.ok && PopAnswer(a[fork], n, out.items) else out.items == []
    case OpPeek(n, fork) =>
      if fork in a && n != 0 then out.ok && PeekBounds(a[fork], n, out.items) else out.items == []
    case OpDelete(fork, from, to) =>
      && (to < from ==> !out.ok)
      && (fork in a && from <= to ==> out.ok && out.count == |a[fork]| - |Outside(a[fork], from, to)|)
      && (fork !in a || to < from ==> out.count == 0)
    case OpFork(src, dst) => (dst == MAIN ==> !out.ok) && (dst != MAIN && (dst in a || src in a) ==> out.ok)
    case OpRemoveFork(fork) => (fork == MAIN ==> !out.ok) && (fork != MAIN && fork in a ==> out.ok)
    case OpRestart => out.ok
  }

  /** The hypotheses of a call that its caller has to meet. */
  ghost predicate Callable(s: Store, split: Key -> Key, lowest: Key, op: Op) {
    op.OpPush? ==> Acceptable(s, op.items, split, lowest) && Comparable(op.items)
  }

  /** A range deletion can tell the touched batches apart. */
  ghost predicate Faithful(s: Store, forks: seq<ForkName>, split: Key -> Key, op: Op) {
    op.OpDelete? && op.fork in Names(forks) && op.from <= op.to ==> AllExact(s, split, op.fork, op.from, op.to)
  }

  ghost predicate StepDone(s: Store, forks: seq<ForkName>, op: Op, out: Outcome, s': Store, forks': seq<ForkName>) {
    Allowed(Abs(s, forks), op, out) && Abs(s', forks') == AbsNext(Abs(s, forks), op, out)
  }

  lemma PushedAll(s: Store, t: Store, forks: seq<ForkName>, items: seq<Item>)
    requires forall f :: f in Names(forks) ==> Held(t, f) == Held(s, f) + multiset(items)
    ensures StepDone(s, forks, OpPush(items), Outcome(true, [], 0), t, forks)
  {
    hide Held, Names;
  }

  lemma PopTakes(s: Store, t: Store, n: int, fork: ForkName, known: bool, fn: seq<Item> -> Decision,
                 calls: seq<seq<Item>>)
    requires ReadAnswer(s, t, fork, known, fn, n, calls) && Always(fn, ReadOpPop)
    ensures Held(t, fork) + multiset(Flat(calls)) == Held(s, fork)
    ensures forall f :: f != fork ==> Held(t, f) == Held(s, f)
    ensures known ==> PopAnswer(Held(s, fork), n, Flat(calls)) && multiset(Flat(calls)) <= Held(s, fork)
    ensures !known ==> Flat(calls) == []
  {
    hide Held, PopAnswer, PeekAnswer, AllPopped, FilledKeys;
  }

  lemma PopDone(s: Store, t: Store, forks: seq<ForkName>, n: int, fork: ForkName, fn: seq<Item> -> Decision,
                ok: bool, calls: seq<seq<Item>>)
    requires ReadAnswer(s, t, fork, fork in Names(forks), fn, n, calls) && Always(fn, ReadOpPop)
    requires fork in Names(forks) ==> ok
    ensures StepDone(s, forks, OpPop(n, fork), Outcome(ok, Flat(calls), 0), t, forks)
  {
    hide Held, Names, PopAnswer, Flat, ReadAnswer, Abs;
    AbsAt(s, forks);
    PopTakes(s, t, n, fork, fork in Names(forks), fn, calls);
    if fork in Names(forks) {
      assert Held(t, fork) == Held(s, fork) - multiset(Flat(calls));
      AbsChanged(s, t, forks, fork);
    } else {
      AbsSame(s, t, forks);
    }
  }

  lemma PeekDone(s: Store, t: Store, forks: seq<ForkName>, n: int, fork: ForkName, fn: seq<Item> -> Decision,
                 ok: bool, calls: seq<seq<Item>>)
    requires ReadAnswer(s, t, fork, fork in Names(forks), fn, n, calls) && Always(fn, ReadOpPeek)
    requires fork in Names(forks) ==> ok
    ensures StepDone(s, forks, OpPeek(n, fork), Outcome(ok, Flat(calls), 0), t, forks)
  {
    hide Held, Names, Smallest, AllPopped, Abs, Conserved, PeekBounds;
    AbsAt(s, forks);
    PeekKeeps(s, t, fork, fn, calls);
    AbsSame(s, t, forks);
  }

  lemma PeekKeeps(s: Store, t: Store, fork: ForkName, fn: seq<Item> -> Decision, calls: seq<seq<Item>>)
    requires Conserved(s, t, fork, fn, calls) && Always(fn, ReadOpPeek)
    ensures forall f :: Held(t, f) == Held(s, f)
  {
    hide Held, Flat, AllPopped;
    assert Held(t, fork) == Held(s, fork);
  }

  lemma DeleteDone(s: Store, t: Store, forks: seq<ForkName>, fork: ForkName, split: Key -> Key, from: Key, to: Key,
                   ok: bool, n: int)
    requires to < from ==> !ok && n == 0 && t == s
    requires from <= to ==> CutResult(s, t, fork, fork in Names(forks), split, from, to, n)
    requires from <= to && fork in Names(forks) ==> ok && AllExact(s, split, fork, from, to)
    ensures StepDone(s, forks, OpDelete(fork, from, to), Outcome(ok, [], n), t, forks)
  {
    hide Held, Names, RangeRemoved, AllExact, Abs, Outside;
    AbsAt(s, forks);
    if fork in Names(forks) && from <= to {
      OutsideIs(Held(s, fork), Held(t, fork), from, to);
      AbsChanged(s, t, forks, fork);
    } else {
      AbsSame(s, t, forks);
    }
  }

  lemma ForkDone(tree: Tree, s: Store, t: Store, forks: seq<ForkName>, now: seq<ForkName>, src: ForkName, dst: ForkName,
                 ok: bool)
    requires ok <==> dst != MAIN && (dst in forks || src in Names(forks) || s == map[])
    requires !ok || dst in forks ==> t == s && now == forks
    requires ok && dst !in forks ==> now == forks + [dst] && ForkResult(tree, s, t, src, dst)
    ensures StepDone(s, forks, OpFork(src, dst), Outcome(ok, [], 0), t, now)
  {
    hide Held, ForkResult, Abs;
    AbsAt(s, forks);
    if ok && dst !in forks {
      var bag := if src in Names(forks) then Held(s, src) else multiset{};
      assert Names(now) == Names(forks) + {dst};
      if src !in Names(forks) {
        EmptyHeld(src);
      }
      ForkHeld(tree, s, t, src, dst);
      AbsIs(t, now, Abs(s, forks)[dst := bag]);
    }
  }

  lemma ForkHeld(tree: Tree, s: Store, t: Store, src: ForkName, dst: ForkName)
    requires ForkResult(tree, s, t, src, dst)
    ensures Held(t, dst) == Held(s, src) && forall f :: f != dst ==> Held(t, f) == Held(s, f)
  {
    hide Held, AllOnce, Persistent, ForkLasts;
  }

  lemma EmptyHeld(f: ForkName)
    ensures Held(map[], f) == multiset{}
  {
  }

  lemma RemoveForkDone(s: Store, t: Store, forks: seq<ForkName>, now: seq<ForkName>, fork: ForkName, ok: bool)
    requires ok <==> fork != MAIN && (fork in forks || s == map[])
    requires !ok ==> t == s && now == forks
    requires ok ==> now == Without(forks, fork) && forall f :: f != fork ==> Held(t, f) == Held(s, f)
    ensures StepDone(s, forks, OpRemoveFork(fork), Outcome(ok, [], 0), t, now)
  {
    hide Held, Without, Abs;
    AbsAt(s, forks);
    if ok {
      WithoutNames(forks, fork);
      AbsIs(t, now, Abs(s, forks) - {fork});
    } else if fork != MAIN {
      assert Abs(s, forks) - {fork} == Abs(s, forks);
    }
  }

  // ---------- Runs ----------

  datatype Event = Event(op: Op, out: Outcome)

  /** The forks after a run. */
  ghost function AbsRun(a: Abstract, run: seq<Event>): Abstract
    decreases run
  {
    if run == [] then a else AbsRun(AbsNext(a, run[0].op, run[0].out), run[1..])
  }

  /** All outcomes of a run are allowed. */
  ghost predicate AllowedRun(a: Abstract, run: seq<Event>)
    decreases run
  {
    run == [] || (Allowed(a, run[0].op, run[0].out) && AllowedRun(AbsNext(a, run[0].op, run[0].out), run[1..]))
  }

  lemma {:induction false} RunSnoc(a: Abstract, run: seq<Event>, e: Event)
    requires AllowedRun(a, run) && Allowed(AbsRun(a, run), e.op, e.out)
    ensures AllowedRun(a, run + [e]) && AbsRun(a, run + [e]) == AbsNext(AbsRun(a, run), e.op, e.out)
    decreases run
  {
    hide Allowed, AbsNext;
    if run == [] {
      assert [e][1..] == [];
      assert AbsRun(AbsNext(a, e.op, e.out), []) == AbsNext(a, e.op, e.out);
      assert AllowedRun(AbsNext(a, e.op, e.out), []);
      assert run + [e] == [e];
    } else {
      assert (run + [e])[1..] == run[1..] + [e];
      RunSnoc(AbsNext(a, run[0].op, run[0].out), run[1..], e);
    }
  }

  /** What a run pushed, to every fork. */
  ghost function PushedBy(run: seq<Event>): multiset<Item> {
    if run == [] then multiset{}
    else multiset(BatchOf(run[0].op)) + PushedBy(run[1..])
  }

  /** What one operation takes from a fork. */
  ghost function TakenBy(a: Abstract, e: Event, f: ForkName): multiset<Item>
    requires f in a
  {
    match e.op
    case OpPop(n, fork) => if fork == f then multiset(e.out.items) else multiset{}
    case OpDelete(fork, from, to) => if fork == f && from <= to then a[f] - Outside(a[f], from, to) else multiset{}
    case _ => multiset{}
  }

  /** The operation does not remove the fork. */
  ghost predicate Spares(op: Op, f: ForkName) {
    op != OpRemoveFork(f) || f == MAIN
  }

  ghost predicate Keeps(run: seq<Event>, f: ForkName) {
    forall i :: 0 <= i < |run| ==> Spares(run[i].op, f)
  }

  /** What a run takes from a fork, by pops and range deletions. */
  ghost function RemovedBy(a: Abstract, run: seq<Event>, f: ForkName): multiset<Item>
    requires f in a && Keeps(run, f)
    decreases run
  {
    if run == [] then multiset{}
    else
      assert Spares(run[0].op, f) && Keeps(run[1..], f);
      TakenBy(a, run[0], f) + RemovedBy(AbsNext(a, run[0].op, run[0].out), run[1..], f)
  }

  lemma StepConserves(a: Abstract, e: Event, f: ForkName)
    requires f in a && Allowed(a, e.op, e.out) && Spares(e.op, f)
    ensures f in AbsNext(a, e.op, e.out)
    ensures AbsNext(a, e.op, e.out)[f] + TakenBy(a, e, f)
            == a[f] + multiset(BatchOf(e.op))
  {
    if e.op.OpDelete? && e.op.fork == f && e.op.from <= e.op.to {
      assert Outside(a[f], e.op.from, e.op.to) <= a[f];
    }
  }

  /**
   * Nothing is lost and nothing appears twice over any run: what a fork holds at the end, together with
   * all that was popped or deleted from it, is what it held at the start and all that was pushed.
   */
  lemma {:induction false} RunConserves(a: Abstract, run: seq<Event>, f: ForkName)
    requires f in a && Keeps(run, f) && AllowedRun(a, run)
    ensures f in AbsRun(a, run)
    ensures AbsRun(a, run)[f] + RemovedBy(a, run, f) == a[f] + PushedBy(run)
    decreases run
  {
    hide AbsNext, Allowed, TakenBy;
    if run != [] {
      var b := AbsNext(a, run[0].op, run[0].out);
      assert Spares(run[0].op, f) && Keeps(run[1..], f);
      StepConserves(a, run[0], f);
      RunConserves(b, run[1..], f);
      var pushed := multiset(BatchOf(run[0].op));
      var taken, rest := TakenBy(a, run[0], f), RemovedBy(b, run[1..], f);
      assert RemovedBy(a, run, f) == taken + rest;
      SumChain(AbsRun(b, run[1..])[f], rest, b[f], PushedBy(run[1..]), taken, a[f], pushed);
    }
  }

  lemma SumChain<T>(end: multiset<T>, rest: multiset<T>, mid: multiset<T>, later: multiset<T>,
                    taken: multiset<T>, start: multiset<T>, pushed: multiset<T>)
    requires end + rest == mid + later && mid + taken == start + pushed
    ensures end + (taken + rest) == start + (pushed + later)
  {
    assert end + (taken + rest) == (end + rest) + taken;
    assert start + (pushed + later) == (mid + taken) + later;
  }

  // ---------- What makes a run possible ----------

  /** Where the items of a fork come from: a fork had them before, or they were pushed. */
  lemma NextFrom(a: Abstract, op: Op, out: Outcome, f: ForkName) returns (g: ForkName)
    requires MAIN in a && f in AbsNext(a, op, out)
    ensures g in a && AbsNext(a, op, out)[f] <= a[g] + multiset(BatchOf(op))
  {
    hide Outside;
    g := if f in a then f else if op.OpFork? && op.src in a then op.src else MAIN;
  }

  /** Every range deletion of the run is exact, because below its range no two items have the same key. */
  ghost predicate Tellable(a: Abstract, ops: seq<Op>) {
    forall i, f :: 0 <= i < |ops| && f in a && ops[i].OpDelete? && ops[i].from <= ops[i].to ==>
      Separable(a[f] + multiset(AllPushed(ops[..i])), ops[i].from)
  }

  lemma TellableNext(a: Abstract, ops: seq<Op>, out: Outcome)
    requires MAIN in a && ops != [] && Tellable(a, ops)
    ensures Tellable(AbsNext(a, ops[0], out), ops[1..])
  {
    hide AbsNext, Separable;
    var b, rest := AbsNext(a, ops[0], out), ops[1..];
    forall i, f | 0 <= i < |rest| && f in b && rest[i].OpDelete? && rest[i].from <= rest[i].to
      ensures Separable(b[f] + multiset(AllPushed(rest[..i])), rest[i].from)
    {
      var g := NextFrom(a, ops[0], out, f);
      assert ops[i + 1] == rest[i] && ops[..i + 1][1..] == rest[..i];
      assert AllPushed(ops[..i + 1]) == BatchOf(ops[0]) + AllPushed(rest[..i]);
      SeparableFewer(b[f] + multiset(AllPushed(rest[..i])), a[g] + multiset(AllPushed(ops[..i + 1])), rest[i].from);
    }
  }

  /**
   * The hypotheses of a run on its operations and on the queue at its start: all batches can be stored and
   * sorted, every bucket has room for its part of them, and range deletions can tell batches apart.
   */
  ghost predicate Runnable(s: Store, forks: seq<ForkName>, split: Key -> Key, lowest: Key, ops: seq<Op>) {
    && Acceptable(s, AllPushed(ops), split, lowest)
    && (forall i :: 0 <= i < |ops| && ops[i].OpPush? ==> Comparable(ops[i].items))
    && Tellable(Abs(s, forks), ops)
  }

  lemma RunnableNow(s: Store, forks: seq<ForkName>, split: Key -> Key, lowest: Key, ops: seq<Op>)
    requires StoreOk(s, split, Names(forks)) && ops != [] && Runnable(s, forks, split, lowest, ops)
    ensures Callable(s, split, lowest, ops[0]) && Faithful(s, forks, split, ops[0])
  {
    hide Separable, Held, AllExact, Abs, Names, Comparable, StoreOk, Acceptable;
    var op := ops[0];
    AbsAt(s, forks);
    if op.OpPush? {
      AcceptableFirst(s, op.items, AllPushed(ops[1..]), split, lowest);
    }
    if op.OpDelete? && op.fork in Names(forks) && op.from <= op.to {
      assert AllPushed(ops[..0]) == [];
      assert Held(s, op.fork) + multiset(AllPushed(ops[..0])) == Held(s, op.fork);
      SeparableAllExact(s, split, Names(forks), op.fork, op.from, op.to);
    }
  }

  lemma AcceptableFirst(s: Store, a: seq<Item>, b: seq<Item>, split: Key -> Key, lowest: Key)
    requires Acceptable(s, a + b, split, lowest)
    ensures Acceptable(s, a, split, lowest)
  {
    hide RoomFor;
    assert forall i :: 0 <= i < |a| ==> (a + b)[i] == a[i];
    RoomForFirst(s, a, b, split);
  }

  lemma RunnableNext(s: Store, forks: seq<ForkName>, t: Store, now: seq<ForkName>, split: Key -> Key, lowest: Key,
                     ops: seq<Op>, out: Outcome)
    requires ops != [] && Runnable(s, forks, split, lowest, ops) && StoreOk(t, split, Names(now))
    requires StepDone(s, forks, ops[0], out, t, now) && LogsGrow(s, t, multiset(BatchOf(ops[0])))
    ensures Runnable(t, now, split, lowest, ops[1..])
  {
    hide Tellable, Abs, AbsNext, Allowed, Comparable, StoreOk, RoomFor, LogsGrow, Names;
    AbsAt(s, forks);
    MainNamed(forks);
    TellableNext(Abs(s, forks), ops, out);
    RoomForGrown(s, t, BatchOf(ops[0]), AllPushed(ops[1..]), split, Names(now));
    forall i | 0 <= i < |AllPushed(ops[1..])|
      ensures AllPushed(ops)[|BatchOf(ops[0])| + i] == AllPushed(ops[1..])[i]
    {
    }
    assert forall i :: 0 <= i < |ops[1..]| ==> ops[1..][i] == ops[i + 1];
  }

  lemma MainNamed(forks: seq<ForkName>)
    ensures MAIN in Names(forks)
  {
  }

  // ---------- Room ----------

  lemma {:induction false} SizeOfFewer(a: seq<Item>, b: seq<Item>)
    requires multiset(a) <= multiset(b)
    ensures |a| <= |b| && SizeOfAll(a) <= SizeOfAll(b)
  {
    if a != [] {
      assert a[0] in multiset(a);
      var i :| 0 <= i < |b| && b[i] == a[0];
      MultisetRemove(a, 0);
      MultisetRemove(b, i);
      assert a[..0] + a[1..] == a[1..];
      SizeOfFewer(a[1..], b[..i] + b[i + 1..]);
      SizeOfParts(b, i);
    }
  }

  lemma RepresentableFewer(a: seq<Item>, b: seq<Item>)
    requires multiset(a) <= multiset(b) && Representable(b)
    ensures Representable(a)
  {
    SizeOfFewer(a, b);
  }

  lemma RoomForFirst(s: Store, a: seq<Item>, b: seq<Item>, split: Key -> Key)
    requires RoomFor(s, a + b, split)
    ensures RoomFor(s, a, split)
  {
    hide Representable;
    forall k: Key
      ensures Representable((if k in s then s[k].items else []) + Part(a, split, k))
    {
      var had := if k in s then s[k].items else [];
      assert Representable(had + Part(a + b, split, k));
      PartConcat(a, b, split, k);
      RepresentableFewer(had + Part(a, split, k), had + Part(a + b, split, k));
    }
  }

  /** Logs that gained no more than a batch have room for what is pushed after it. */
  lemma RoomForGrown(s: Store, t: Store, a: seq<Item>, b: seq<Item>, split: Key -> Key, names: set<ForkName>)
    requires RoomFor(s, a + b, split) && LogsGrow(s, t, multiset(a)) && StoreOk(t, split, names)
    ensures RoomFor(t, b, split)
  {
    hide Representable, LogsGrow, StoreOk, Part;
    forall k: Key
      ensures Representable((if k in t then t[k].items else []) + Part(b, split, k))
    {
      var had, has := LogAt(s, k), LogAt(t, k);
      assert Representable(had + Part(a + b, split, k));
      PartConcat(a, b, split, k);
      forall x
        ensures multiset(has)[x] <= multiset(had + Part(a, split, k))[x]
      {
        LogOf(s, t, multiset(a), split, names, k, x);
        PartAt(a, split, k, x);
      }
      assert multiset(has) <= multiset(had + Part(a, split, k));
      assert had + Part(a + b, split, k) == (had + Part(a, split, k)) + Part(b, split, k);
      RepresentableFewer(has + Part(b, split, k), had + Part(a + b, split, k));
    }
  }

  lemma LogOf(s: Store, t: Store, added: multiset<Item>, split: Key -> Key, names: set<ForkName>, k: Key, x: Item)
    requires LogsGrow(s, t, added) && StoreOk(t, split, names)
    ensures multiset(LogAt(t, k))[x] <= multiset(LogAt(s, k))[x] + (if split(x.key) == k then added[x] else 0)
  {
    hide ValueOk;
    if k in t {
      assert multiset(LogAt(t, k)) <= multiset(LogAt(s, k)) + added;
      assert BucketOk(t[k], k, split, names);
    }
  }
}
