/** Interrupted pops of a queue: what its user has to know for nothing to be lost. */
module Interrupted {
  import opened Items
  import opened IndexSpec
  import opened Contents
  import opened Vlog
  import opened ForkSpec
  import opened PopSpec
  import opened RangeSpec
  import opened Spots
  import opened BucketSpec
  import opened Reopen
  import opened Crash
  import opened QueueSpec
  import opened TreeSpec

  /**
   * A pop of a fork that holds no two items of one key loses nothing when it is cut off at any byte of its
   * records, whatever its callback pushed.
   */
  lemma DistinctPopSafe(items: seq<Item>, m: Locs, p: nat, its: seq<Iter>, out: seq<Item>, pushed: seq<Location>,
                        f: ForkValue, n: nat)
    requires Representable(items) && IndexOk(items, m) && ReadState(items, m, p, its, out)
    requires forall i :: 0 <= i < |pushed| ==> LocOk(items, pushed[i])
    requires ForkOk(items, f) && f.state.m == SetAll(m, pushed) && Once(items, f.state.m)
    requires DistinctKeys(Content(items, m))
    requires |f.file| <= n <= |LoggedAll(f, PopOps(its)).file|
    ensures Content(items, LoggedAll(f, PopOps(its)).state.m)
            <= LoadedContent(items, LoggedAll(f, PopOps(its)).file[..n])
    ensures Loads(items, Content(items, LoggedAll(f, PopOps(its)).state.m), LoggedAll(f, PopOps(its)).file[..n])
  {
    hide *;
    DistinctSingles(items, m);
    SingleInTurn(items, m, p, its, out, pushed);
    PopCrashSafe(items, f, its, n);
  }

  /** The same, seen from the queue: the fork holds no two items of one key in any of its buckets. */
  lemma QueuePopSafe(s: Store, split: Key -> Key, names: set<ForkName>, k: Key, fork: ForkName,
                     p: nat, its: seq<Iter>, out: seq<Item>, n: nat)
    requires StoreOk(s, split, names) && k in s && fork in s[k].forks
    requires DistinctKeys(Held(s, fork)) && AllOnce(s, fork)
    requires ReadState(s[k].items, s[k].forks[fork].state.m, p, its, out)
    requires |s[k].forks[fork].file| <= n <= |LoggedAll(s[k].forks[fork], PopOps(its)).file|
    ensures var after := LoggedAll(s[k].forks[fork], PopOps(its));
            Loads(s[k].items, Content(s[k].items, after.state.m), after.file[..n])
  {
    hide Held, Loads, ReadState, Content, DistinctKeys, IndexOk, LoggedAll, PopOps, Once, ForkOk, Representable;
    var v, f := s[k], s[k].forks[fork];
    assert BucketOk(v, k, split, names);
    ContentOfFork(v, k, fork);
    HeldSplit(s, k, fork);
    DistinctFewer(Content(v.items, f.state.m), Held(s, fork));
    assert OnceIn(v, fork);
    DistinctPopSafe(v.items, f.state.m, p, its, out, [], f, n);
  }
}
