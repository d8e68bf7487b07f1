/** Whole runs of operations on the queue. */
module Runs {
  import opened Items
  import opened Vlog
  import opened IndexSpec
  import opened Contents
  import opened BatchIndex
  import opened ForkSpec
  import opened Spots
  import opened BucketSpec
  import opened BucketStore
  import opened Reopen
  import opened Split
  import opened QueueSpec
  import opened TreeSpec
  import opened PushSpec
  import opened ReadSpec
  import opened CutSpec
  import opened ForksSpec
  import opened DiskSpec
  import opened RunSpec
  import opened BucketSet

  // ---------- What a step keeps besides what users see ----------

  /** No fork of the queue refers to a stored item twice. */
  ghost predicate OnceEverywhere(s: Store, forks: seq<ForkName>) {
    forall f :: f in Names(forks) ==> AllOnce(s, f)
  }

  /** The logs gain what is pushed and nothing else, stored items stay indexed once, and files tell lengths. */
  ghost predicate Steady(s0: Store, was: seq<ForkName>, s: Store, now: seq<ForkName>, op: Op) {
    && LogsGrow(s0, s, multiset(BatchOf(op)))
    && (OnceEverywhere(s0, was) ==> OnceEverywhere(s, now))
    && (forall f :: f in Names(was) && f in Names(now) && AllStamped(s0, f) ==> AllStamped(s, f))
  }

  /** Lengths stay remembered, and stay right. */
  ghost predicate LengthsKept(t0: Tree, r0: Trailers, s0: Store, was: seq<ForkName>,
                              t: Tree, r: Trailers, s: Store, now: seq<ForkName>) {
    forall f :: f in Names(was) && f in Names(now) ==>
      && (Remembered(t0, r0, s0, f) ==> Remembered(t, r, s, f))
      && (Right(t0, r0, s0, f) ==> Right(t, r, s, f))
  }

  ghost predicate LimitKept(t0: Tree, t: Tree, maxOpen: int) {
    maxOpen > 0 && |LoadedKeys(t0)| <= maxOpen ==> |LoadedKeys(t)| <= maxOpen
  }

  /** A fork started by this operation survives a reload; other operations start none. */
  ghost predicate Lasting(tree: Tree, s: Store, forks: seq<ForkName>, op: Op) {
    op.OpFork? && op.dst != MAIN && op.dst !in forks && op.src in Names(forks) ==>
      forall k :: k in s && k in tree && op.src in s[k].forks ==> ForkLasts(tree, s[k], k, op.src)
  }

  /** Two queues with the same options. */
  ghost predicate SameOptions(q: Buckets, r: Buckets) {
    r.split == q.split && r.page == q.page && r.maxOpen == q.maxOpen && r.continueOnErr == q.continueOnErr
  }

  lemma KeptRest(t0: Tree, r0: Trailers, s0: Store, t: Tree, r: Trailers, s: Store, forks: seq<ForkName>,
                 maxOpen: int, spoilt: set<ForkName>, op: Op)
    requires Kept(t0, r0, s0, t, r, s, forks, maxOpen, spoilt, multiset(BatchOf(op)))
    ensures LengthsKept(t0, r0, s0, forks, t, r, s, forks) && LimitKept(t0, t, maxOpen)
    ensures spoilt !! Names(forks) || s == s0 ==> Steady(s0, forks, s, forks, op)
  {
    hide Remembered, Right, LoadedKeys, AllStamped, AllOnce, Names, LogsGrow;
  }

  lemma ForkOnce(tree: Tree, s0: Store, s: Store, was: seq<ForkName>, src: ForkName, dst: ForkName)
    requires src in Names(was) || s0 == map[]
    requires ForkResult(tree, s0, s, src, dst)
    requires forall f :: f in Names(was) && AllOnce(s0, f) ==> AllOnce(s, f)
    ensures OnceEverywhere(s0, was) ==> OnceEverywhere(s, was + [dst])
  {
    hide Held, ForkContent, OnceIn, Persistent, ForkLasts;
    NamesMore(was, dst);
    assert s0 == map[] ==> AllOnce(s0, src);
    hide AllOnce;
  }

  lemma NamesMore(was: seq<ForkName>, dst: ForkName)
    ensures Names(was + [dst]) == Names(was) + {dst}
  {
  }

  lemma ForkRest(t0: Tree, r0: Trailers, s0: Store, t: Tree, r: Trailers, s: Store, was: seq<ForkName>,
                 maxOpen: int, src: ForkName, dst: ForkName)
    requires Kept(t0, r0, s0, t, r, s, was, maxOpen, {}, multiset{}) && dst !in was && dst != MAIN
    requires src in Names(was) || s0 == map[]
    requires ForkResult(t, s0, s, src, dst)
    ensures LengthsKept(t0, r0, s0, was, t, r, s, was + [dst]) && LimitKept(t0, t, maxOpen)
    ensures Steady(s0, was, s, was + [dst], OpFork(src, dst))
  {
    hide Remembered, Right, LoadedKeys, AllStamped, LogsGrow, ForkResult, AllOnce, OnceEverywhere, Names;
    NamesMore(was, dst);
    ForkOnce(t, s0, s, was, src, dst);
  }

  lemma UnforkRest(t0: Tree, r0: Trailers, s0: Store, t: Tree, r: Trailers, s: Store, was: seq<ForkName>,
                   fork: ForkName, maxOpen: int)
    requires fork != MAIN && Kept(t0, r0, s0, t, r, s, Without(was, fork), maxOpen, {}, multiset{})
    ensures LengthsKept(t0, r0, s0, was, t, r, s, Without(was, fork)) && LimitKept(t0, t, maxOpen)
    ensures Steady(s0, was, s, Without(was, fork), OpRemoveFork(fork))
  {
    hide Remembered, Right, LoadedKeys, AllStamped, AllOnce, LogsGrow, Without;
    WithoutNames(was, fork);
    hide Names;
  }

  lemma SpoiltNone(s: Store, forks: seq<ForkName>, split: Key -> Key, fork: ForkName, from: Key, to: Key)
    requires Faithful(s, forks, split, OpDelete(fork, from, to)) && from <= to
    ensures Spoilt(s, split, fork, from, to) !! Names(forks)
  {
    hide AllExact;
  }

  lemma ForkPersistence(tree: Tree, s: Store, t: Store, forks: seq<ForkName>, src: ForkName, dst: ForkName, ok: bool)
    requires Persistent(s)
    requires ok <==> dst != MAIN && (dst in forks || src in Names(forks) || s == map[])
    requires !ok || dst in forks ==> t == s
    requires ok && dst !in forks ==> ForkResult(tree, s, t, src, dst)
    ensures Persistent(t) <==> Lasting(tree, s, forks, OpFork(src, dst))
  {
    hide AllPersisted, ForkLasts, Held, AllOnce;
  }

  // ---------- Restarting ----------

  /**
   * Closing a queue without forks and opening it again is invisible. (Opening a queue with forks finds none
   * of them, and may fail: see FindForks.)
   */
  method Restart(q: Buckets) returns (r: Buckets)
    requires q.Valid() && Persistent(q.store) && q.forks == []
    modifies q
    ensures r.Valid() && Persistent(r.store) && fresh(r.Repr) && SameOptions(q, r) && r.forks == []
    ensures forall f :: Held(r.store, f) == Held(old(q.store), f)
    ensures q.maxOpen > 0 ==> |LoadedKeys(r.tree)| <= q.maxOpen
    ensures LogsGrow(old(q.store), r.store, multiset{})
    ensures AllOnce(old(q.store), MAIN) ==> AllOnce(r.store, MAIN)
    ensures AllStamped(old(q.store), MAIN) ==> AllStamped(r.store, MAIN)
    ensures AllStamped(old(q.store), MAIN) && Countable(old(q.store), MAIN) ==>
              Remembered(r.tree, r.trailers, r.store, MAIN)
  {
    hide *;
    q.ValidRepr();
    ghost var s := q.store;
    q.Close();
    r := new Buckets.Open(q.split, q.page, q.maxOpen, q.continueOnErr, q.disk, [], s);
    ghost var t, tr := r.tree, r.trailers;
    r.ValidRepr();
    MainNamed([]);
    var found := r.FetchForks();
    NoForksIn([]);
    NoForksIn(found);
    r.forks := found;
    SameFields(q, r);
    RestartKept(t, tr, s, r.tree, r.trailers, r.store, r.maxOpen);
  }

  lemma SameFields(q: Buckets, r: Buckets)
    requires r.split == q.split && r.page == q.page && r.maxOpen == q.maxOpen && r.continueOnErr == q.continueOnErr
    ensures SameOptions(q, r)
  {
  }

  lemma RestartKept(t0: Tree, r0: Trailers, s: Store, t: Tree, r: Trailers, u: Store, maxOpen: int)
    requires Kept(t0, r0, s, t, r, u, [], maxOpen, {}, multiset{}) && LoadedKeys(t0) == {}
    ensures LogsGrow(s, u, multiset{}) && (AllOnce(s, MAIN) ==> AllOnce(u, MAIN))
    ensures AllStamped(s, MAIN) ==> AllStamped(u, MAIN)
    ensures Remembered(t0, r0, s, MAIN) ==> Remembered(t, r, u, MAIN)
    ensures maxOpen > 0 ==> |LoadedKeys(t)| <= maxOpen
  {
    hide Remembered, Right, LoadedKeys, AllStamped, AllOnce, LogsGrow;
  }

  lemma Restarted(t0: Tree, s: Store, u: Store, t: Tree, maxOpen: int, out: Outcome)
    requires (forall f :: Held(u, f) == Held(s, f)) && out.ok
    requires LogsGrow(s, u, multiset{}) && (AllOnce(s, MAIN) ==> AllOnce(u, MAIN))
    requires AllStamped(s, MAIN) ==> AllStamped(u, MAIN)
    requires maxOpen > 0 ==> |LoadedKeys(t)| <= maxOpen
    ensures StepDone(s, [], OpRestart, out, u, []) && Steady(s, [], u, [], OpRestart)
    ensures Lasting(t0, s, [], OpRestart) && LimitKept(t0, t, maxOpen)
  {
    hide Abs, Held, LogsGrow, AllOnce, AllStamped;
    AbsSame(s, u, []);
    assert Names([]) == {MAIN};
  }

  // ---------- One operation ----------

  /** Performs one operation other than a restart. */
  method DoHere(q: Buckets, op: Op, ghost lowest: Key) returns (out: Outcome)
    requires q.Valid() && Persistent(q.store) && SplitLaw(q.split, lowest) && !op.OpRestart?
    requires Callable(q.store, q.split, lowest, op)
    modifies q.Repr
    ensures q.Valid() && fresh(q.Repr - old(q.Repr))
    ensures Faithful(old(q.store), old(q.forks), q.split, op) ==>
              && StepDone(old(q.store), old(q.forks), op, out, q.store, q.forks)
              && Steady(old(q.store), old(q.forks), q.store, q.forks, op)
    ensures Persistent(q.store) <==> Lasting(old(q.tree), old(q.store), old(q.forks), op)
    ensures LengthsKept(old(q.tree), old(q.trailers), old(q.store), old(q.forks), q.tree, q.trailers, q.store, q.forks)
    ensures LimitKept(old(q.tree), q.tree, q.maxOpen)
    ensures !op.OpFork? && old(q.forks) == [] ==> q.forks == []
  {
    hide Held, Names, Flat, ReadAnswer, Ran, AnyFailed, CutResult, ForkResult, Without, AllExact, Acceptable, StepDone;
    hide Persistent, Steady, LengthsKept, LimitKept, Kept, Buckets.Valid, Monotone, Comparable, Spoilt;
    ghost var t, r, s, forks := q.tree, q.trailers, q.store, q.forks;
    ghost var spoilt: set<ForkName> := {};
    match op
    case OpPush(items) =>
      q.Push(items, lowest);
      out := Outcome(true, [], 0);
      PushedAll(s, q.store, forks, items);
      KeptRest(t, r, s, q.tree, q.trailers, q.store, forks, q.maxOpen, spoilt, op);
    case OpPop(n, fork) =>
      var fn := (s: seq<Item>) => Decision([], ReadOpPop, false);
      var ok, calls := q.Read(n, fork, fn);
      out := Outcome(ok, Flat(calls), 0);
      AlwaysFine(fn, ReadOpPop, calls);
      PopDone(s, q.store, forks, n, fork, fn, ok, calls);
      KeptRest(t, r, s, q.tree, q.trailers, q.store, forks, q.maxOpen, spoilt, op);
    case OpPeek(n, fork) =>
      var fn := (s: seq<Item>) => Decision([], ReadOpPeek, false);
      var ok, calls := q.Read(n, fork, fn);
      out := Outcome(ok, Flat(calls), 0);
      AlwaysFine(fn, ReadOpPeek, calls);
      PeekDone(s, q.store, forks, n, fork, fn, ok, calls);
      KeptRest(t, r, s, q.tree, q.trailers, q.store, forks, q.maxOpen, spoilt, op);
    case OpDelete(fork, from, to) =>
      var ok, n := q.Delete(fork, from, to);
      out := Outcome(ok, [], n);
      spoilt := Spoilt(s, q.split, fork, from, to);
      if Faithful(s, forks, q.split, op) {
        DeleteDone(s, q.store, forks, fork, q.split, from, to, ok, n);
        if from <= to {
          SpoiltNone(s, forks, q.split, fork, from, to);
        }
      }
      KeptRest(t, r, s, q.tree, q.trailers, q.store, forks, q.maxOpen, spoilt, op);
    case OpFork(src, dst) =>
      var ok := q.Fork(src, dst);
      out := Outcome(ok, [], 0);
      ForkDone(q.tree, s, q.store, forks, q.forks, src, dst, ok);
      ForkPersistence(t, s, q.store, forks, src, dst, ok);
      if ok && dst !in forks {
        ForkRest(t, r, s, q.tree, q.trailers, q.store, forks, q.maxOpen, src, dst);
      } else {
        KeptRest(t, r, s, q.tree, q.trailers, q.store, forks, q.maxOpen, spoilt, op);
      }
    case OpRemoveFork(fork) =>
      var ok := q.RemoveFork(fork);
      out := Outcome(ok, [], 0);
      RemoveForkDone(s, q.store, forks, q.forks, fork, ok);
      if ok {
        WithoutNames(forks, fork);
        UnforkRest(t, r, s, q.tree, q.trailers, q.store, forks, fork, q.maxOpen);
      } else {
        KeptRest(t, r, s, q.tree, q.trailers, q.store, forks, q.maxOpen, spoilt, op);
      }
  }

  /** Performs one operation; a restart gives a new queue over the same files. */
  method Do(q: Buckets, op: Op, ghost lowest: Key) returns (r: Buckets, out: Outcome)
    requires q.Valid() && Persistent(q.store) && SplitLaw(q.split, lowest)
    requires Callable(q.store, q.split, lowest, op) && (op.OpRestart? ==> q.forks == [])
    modifies q.Repr
    ensures r.Valid() && fresh(r.Repr - old(q.Repr)) && SameOptions(q, r)
    ensures Faithful(old(q.store), old(q.forks), q.split, op) ==>
              && StepDone(old(q.store), old(q.forks), op, out, r.store, r.forks)
              && Steady(old(q.store), old(q.forks), r.store, r.forks, op)
    ensures Persistent(r.store) <==> Lasting(old(q.tree), old(q.store), old(q.forks), op)
    ensures LimitKept(old(q.tree), r.tree, q.maxOpen)
    ensures !op.OpRestart? ==>
              && r == q
              && LengthsKept(old(q.tree), old(q.trailers), old(q.store), old(q.forks),
                             r.tree, r.trailers, r.store, r.forks)
    ensures op.OpRestart? ==>
              && r.forks == []
              && (AllStamped(old(q.store), MAIN) && Countable(old(q.store), MAIN) ==>
                    Remembered(r.tree, r.trailers, r.store, MAIN))
    ensures !op.OpFork? && old(q.forks) == [] ==> r.forks == []
  {
    hide *;
    q.ValidRepr();
    if op == OpRestart {
      ghost var t, s := q.tree, q.store;
      r := Restart(q);
      out := Outcome(true, [], 0);
      Restarted(t, s, r.store, r.tree, q.maxOpen, out);
    } else {
      r := q;
      out := DoHere(q, op, lowest);
      SameFields(q, q);
    }
  }

  // ---------- Runs ----------

  /** Whether a fork started by this operation would survive a reload. */
  method WillLast(q: Buckets, op: Op) returns (lasts: bool)
    requires q.Valid()
    ensures lasts <==> Lasting(q.tree, q.store, q.forks, op)
  {
    hide Buckets.Valid, ForkLasts, Names;
    if !op.OpFork? || op.dst == MAIN || op.dst in q.forks || !q.Knows(op.src) {
      return true;
    }
    var keys := q.Keys();
    q.SettledKeys();
    q.KnownEverywhere(op.src);
    for i := 0 to |keys|
      invariant forall j :: 0 <= j < i ==> ForkLasts(q.tree, q.store[keys[j]], keys[j], op.src)
    {
      lasts := LastsAt(q, keys[i], op.src);
      if !lasts {
        return;
      }
    }
    return true;
  }

  method LastsAt(q: Buckets, key: Key, src: ForkName) returns (lasts: bool)
    requires q.Valid() && key in q.tree && key in q.store && src in q.store[key].forks
    ensures lasts <==> ForkLasts(q.tree, q.store[key], key, src)
  {
    hide Buckets.Valid, ForkContent, BucketOk, ValueOk;
    if q.tree[key] == null {
      return true;
    }
    var n := q.LenOf(key, src);
    var nothing := q.NothingStored(key);
    lasts := n != 0 || nothing;
    q.StorableAt(key);
    DrainedFork(q.store[key], key, q.split, Names(q.forks), src);
  }

  lemma DrainedFork(v: Value, key: Key, split: Key -> Key, names: set<ForkName>, f: ForkName)
    requires BucketOk(v, key, split, names) && f in v.forks
    ensures |ForkContent(v, f)| == 0 <==> v.forks[f].state.m == map[]
  {
    hide Content, IndexOk;
    ContentOfFork(v, key, f);
    EmptyCounted(v.items);
    if |ForkContent(v, f)| == 0 {
      NoItemsNoIndex(v.items, v.forks[f].state.m);
    }
  }

  /** Len knows the main queue exactly, and will after a restart: its files tell its lengths. */
  ghost predicate Measured(t: Tree, r: Trailers, s: Store, forks: seq<ForkName>) {
    OnceEverywhere(s, forks) && AllStamped(s, MAIN) && Remembered(t, r, s, MAIN)
  }

  /** A fork that indexes no stored item twice holds fewer items than a 32-bit field can count. */
  lemma OnceCountable(s: Store, split: Key -> Key, names: set<ForkName>, f: ForkName)
    requires StoreOk(s, split, names) && AllOnce(s, f)
    ensures Countable(s, f)
  {
    hide Content, Once, ForkOk, IndexOk;
    forall k | k in s && f in s[k].forks
      ensures s[k].forks[f].state.len < TWO_32
    {
      assert BucketOk(s[k], k, split, names);
      ContentOfFork(s[k], k, f);
      OnceBounded(s[k].items, s[k].forks[f].state.m);
      FewerItems(Content(s[k].items, s[k].forks[f].state.m), s[k].items);
    }
  }

  lemma FewerItems<T>(a: multiset<T>, s: seq<T>)
    requires a <= multiset(s)
    ensures |a| <= |s|
  {
    assert |multiset(s) - a| == |s| - |a|;
  }

  lemma StepMeasured(t0: Tree, r0: Trailers, s0: Store, was: seq<ForkName>, t: Tree, r: Trailers, s: Store,
                     now: seq<ForkName>, op: Op, split: Key -> Key)
    requires StoreOk(s0, split, Names(was)) && Measured(t0, r0, s0, was) && Steady(s0, was, s, now, op)
    requires !op.OpRestart? ==> LengthsKept(t0, r0, s0, was, t, r, s, now)
    requires op.OpRestart? && AllStamped(s0, MAIN) && Countable(s0, MAIN) ==> Remembered(t, r, s, MAIN)
    ensures Measured(t, r, s, now)
  {
    hide StoreOk, AllStamped, Remembered, Right, Countable, AllOnce, LogsGrow;
    MainNamed(was);
    MainNamed(now);
    OnceCountable(s0, split, Names(was), MAIN);
  }

  /** The operation loses track of no fork: a fork it starts lasts, and it restarts only queues without forks. */
  ghost predicate Tracked(tree: Tree, s: Store, forks: seq<ForkName>, op: Op) {
    Lasting(tree, s, forks, op) && (op.OpRestart? ==> forks == [])
  }

  /** The first operation of a run; the hypotheses hold for the rest of it. */
  method Step(q: Buckets, ops: seq<Op>, ghost lowest: Key) returns (r: Buckets, out: Outcome)
    requires q.Valid() && Persistent(q.store) && SplitLaw(q.split, lowest)
    requires ops != [] && Runnable(q.store, q.forks, q.split, lowest, ops) && Tracked(q.tree, q.store, q.forks, ops[0])
    modifies q.Repr
    ensures r.Valid() && Persistent(r.store) && fresh(r.Repr - old(q.Repr)) && SameOptions(q, r)
    ensures Runnable(r.store, r.forks, r.split, lowest, ops[1..])
    ensures StepDone(old(q.store), old(q.forks), ops[0], out, r.store, r.forks)
    ensures LimitKept(old(q.tree), r.tree, q.maxOpen)
    ensures OnceEverywhere(old(q.store), old(q.forks)) ==> OnceEverywhere(r.store, r.forks)
    ensures Measured(old(q.tree), old(q.trailers), old(q.store), old(q.forks)) ==>
              Measured(r.tree, r.trailers, r.store, r.forks)
    ensures !ops[0].OpFork? && old(q.forks) == [] ==> r.forks == []
  {
    hide Runnable, Callable, Faithful, Lasting, Names, Buckets.Valid, Persistent, SplitLaw, StoreOk, LogsGrow, StepDone;
    hide Measured, Remembered, LengthsKept, OnceEverywhere, AllStamped, LimitKept;
    ghost var t, tr, s, forks := q.tree, q.trailers, q.store, q.forks;
    q.ValidStore();
    RunnableNow(s, forks, q.split, lowest, ops);
    r, out := Do(q, ops[0], lowest);
    r.ValidStore();
    RunnableNext(s, forks, r.store, r.forks, r.split, lowest, ops, out);
    if Measured(t, tr, s, forks) {
      StepMeasured(t, tr, s, forks, r.tree, r.trailers, r.store, r.forks, ops[0], r.split);
    }
  }

  /**
   * Performs a run of operations. It stops early only before a fork that would not survive a reload, and
   * before a restart that would forget forks; so never if there are no forks and none is started.
   * Whatever was performed, the queue did what the map from forks to bags does, holds what it holds, and
   * lost nothing that was not popped or deleted.
   */
  method Perform(q: Buckets, ops: seq<Op>, ghost lowest: Key) returns (r: Buckets, run: seq<Event>)
    requires q.Valid() && Persistent(q.store) && SplitLaw(q.split, lowest)
    requires Runnable(q.store, q.forks, q.split, lowest, ops)
    modifies q.Repr
    ensures r.Valid() && Persistent(r.store) && fresh(r.Repr - old(q.Repr)) && SameOptions(q, r)
    ensures |run| <= |ops| && forall i :: 0 <= i < |run| ==> run[i].op == ops[i]
    ensures |run| < |ops| ==> !Tracked(r.tree, r.store, r.forks, ops[|run|])
    ensures old(q.forks) == [] && (forall i :: 0 <= i < |ops| ==> !ops[i].OpFork?) ==> |run| == |ops|
    ensures AllowedRun(Abs(old(q.store), old(q.forks)), run)
    ensures Abs(r.store, r.forks) == AbsRun(Abs(old(q.store), old(q.forks)), run)
    ensures Balanced(old(q.store), old(q.forks), r.store, r.forks, run)
    ensures LimitKept(old(q.tree), r.tree, q.maxOpen)
    ensures OnceEverywhere(old(q.store), old(q.forks)) ==> OnceEverywhere(r.store, r.forks)
    ensures Measured(old(q.tree), old(q.trailers), old(q.store), old(q.forks)) ==>
              Measured(r.tree, r.trailers, r.store, r.forks)
  {
    hide Abs, AllowedRun, AbsRun, Allowed, AbsNext, Runnable, Callable, Faithful, Lasting, Tracked, LoadedKeys, Names;
    hide Buckets.Valid, Persistent, SplitLaw, OnceEverywhere, StoreOk, LogsGrow, Balanced, Measured, Remembered;
    ghost var s0, was, a0 := q.store, q.forks, Abs(q.store, q.forks);
    r, run := q, [];
    assert ops[0..] == ops;
    RunStart(a0);
    while |run| < |ops|
      invariant r.Valid() && Persistent(r.store) && fresh(r.Repr - old(q.Repr)) && SameOptions(q, r)
      invariant |run| <= |ops| && forall i :: 0 <= i < |run| ==> run[i].op == ops[i]
      invariant Runnable(r.store, r.forks, r.split, lowest, ops[|run|..])
      invariant AllowedRun(a0, run) && Abs(r.store, r.forks) == AbsRun(a0, run)
      invariant LimitKept(old(q.tree), r.tree, q.maxOpen)
      invariant OnceEverywhere(old(q.store), old(q.forks)) ==> OnceEverywhere(r.store, r.forks)
      invariant Measured(old(q.tree), old(q.trailers), old(q.store), old(q.forks)) ==>
                  Measured(r.tree, r.trailers, r.store, r.forks)
      invariant was == [] && (forall i :: 0 <= i < |ops| ==> !ops[i].OpFork?) ==> r.forks == []
      decreases |ops| - |run|
    {
      var op := ops[|run|];
      var lasts := WillLast(r, op);
      if !lasts || (op.OpRestart? && r.forks != []) {
        OthersLast(r.tree, r.store, r.forks, op);
        RunBalanced(s0, was, r.store, r.forks, run);
        return;
      }
      var rest := ops[|run|..];
      assert rest[0] == op && rest[1..] == ops[|run| + 1..];
      OthersLast(r.tree, r.store, r.forks, op);
      var out;
      r, out := Step(r, rest, lowest);
      RunSnoc(a0, run, Event(op, out));
      run := run + [Event(op, out)];
    }
    RunBalanced(s0, was, r.store, r.forks, run);
  }

  lemma OthersLast(t: Tree, s: Store, forks: seq<ForkName>, op: Op)
    ensures Tracked(t, s, forks, op) <==> Lasting(t, s, forks, op) && (op.OpRestart? ==> forks == [])
    ensures !op.OpFork? ==> Lasting(t, s, forks, op)
  {
  }

  lemma RunStart(a: Abstract)
    ensures AllowedRun(a, []) && AbsRun(a, []) == a
  {
  }

  /**
   * What the forks hold after a run, together with all that was popped or deleted from them, is what they
   * held before it and all that was pushed.
   */
  ghost predicate Balanced(s0: Store, was: seq<ForkName>, s: Store, now: seq<ForkName>, run: seq<Event>) {
    forall f :: f in Abs(s0, was) && Keeps(run, f) ==>
      f in Names(now) && Held(s, f) + RemovedBy(Abs(s0, was), run, f) == Held(s0, f) + PushedBy(run)
  }

  lemma RunBalanced(s0: Store, was: seq<ForkName>, s: Store, now: seq<ForkName>, run: seq<Event>)
    requires AllowedRun(Abs(s0, was), run) && Abs(s, now) == AbsRun(Abs(s0, was), run)
    ensures Balanced(s0, was, s, now, run)
  {
    hide Abs, Held, Names, AllowedRun, AbsRun, RemovedBy, PushedBy, Keeps;
    AbsAt(s0, was);
    AbsAt(s, now);
    forall f | f in Abs(s0, was) && Keeps(run, f)
      ensures f in Names(now)
      ensures Held(s, f) + RemovedBy(Abs(s0, was), run, f) == Held(s0, f) + PushedBy(run)
    {
      RunConserves(Abs(s0, was), run, f);
    }
  }
}
