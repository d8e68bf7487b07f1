/** What an index holds: its locations in reading order, and the items they stand for. */
module Contents {
  import opened Items
  import opened Vlog
  import opened IndexSpec

  ghost function MinKey(ks: set<Key>): (k: Key)
    requires ks != {}
    ensures k in ks && forall x :: x in ks ==> k <= x
  {
    var x :| x in ks;
    if ks == {x} then x
    else
      var y := MinKey(ks - {x});
      assert forall z :: z in ks ==> z == x || z in ks - {x};
      if x <= y then x else y
  }

  lemma MinKeyIs(ks: set<Key>, k: Key)
    requires k in ks && forall x :: x in ks ==> k <= x
    ensures MinKey(ks) == k
  {
  }

  /** All locations in reading order: by key, and oldest first under one key. */
  ghost function Flatten(m: Locs): seq<Location>
    decreases |m|
  {
    if m == map[] then []
    else
      var k := MinKey(m.Keys);
      m[k] + Flatten(m - {k})
  }

  ghost function Sum<T>(m: Locs, f: Location -> multiset<T>): multiset<T> {
    Total(Flatten(m), f)
  }

  /** Every location lies under its own key. */
  ghost predicate Keyed(m: Locs) {
    NoEmpty(m) && forall k, i :: k in m && 0 <= i < |m[k]| ==> m[k][i].key == k
  }

  lemma SumFirst<T>(m: Locs, k: Key, f: Location -> multiset<T>)
    requires k in m && forall x :: x in m ==> k <= x
    ensures Sum(m, f) == Total(m[k], f) + Sum(m - {k}, f)
  {
    MinKeyIs(m.Keys, k);
    TotalConcat(m[k], Flatten(m - {k}), f);
  }

  lemma {:induction false} SumSplit<T>(m: Locs, k: Key, f: Location -> multiset<T>)
    ensures Sum(m, f) == Total(Get(m, k), f) + Sum(m - {k}, f)
    decreases |m|
  {
    if k !in m {
      assert m - {k} == m;
    } else {
      var k0 := MinKey(m.Keys);
      SumFirst(m, k0, f);
      if k != k0 {
        SumSplit(m - {k0}, k, f);
        SumFirst(m - {k}, k0, f);
        assert m - {k0} - {k} == m - {k} - {k0};
      }
    }
  }

  lemma SumSet<T>(m: Locs, loc: Location, f: Location -> multiset<T>)
    ensures Sum(SetLoc(m, loc), f) == Sum(m, f) + f(loc)
  {
    var k, r := loc.key, SetLoc(m, loc);
    SumSplit(m, k, f);
    SumSplit(r, k, f);
    assert r - {k} == m - {k};
    TotalConcat(Get(m, k), [loc], f);
    TotalOne(loc, f);
  }

  lemma SumDelete<T>(m: Locs, k: Key, f: Location -> multiset<T>)
    requires k in m && m[k] != []
    ensures Sum(m, f) == f(m[k][0]) + Sum(DeleteKey(m, k), f)
  {
    var r := DeleteKey(m, k);
    SumSplit(m, k, f);
    SumSplit(r, k, f);
    assert r - {k} == m - {k};
    assert Get(r, k) == m[k][1..];
  }

  lemma {:induction false} SumSetAll<T>(m: Locs, locs: seq<Location>, f: Location -> multiset<T>)
    requires NoEmpty(m) && forall i :: 0 <= i < |locs| ==> locs[i].len > 0
    ensures Sum(SetAll(m, locs), f) == Sum(m, f) + Total(locs, f)
    decreases locs
  {
    if locs != [] {
      SumSet(m, locs[0], f);
      SumSetAll(SetLoc(m, locs[0]), locs[1..], f);
    }
  }

  // ---------- FIFO deletion ----------

  /** Under each key, `locs` lists the oldest locations of m, in order. */
  ghost predicate Fifo(m: Locs, locs: seq<Location>) {
    forall k: Key :: Under(locs, k) <= Get(m, k)
  }

  lemma {:induction false} UnderCount(locs: seq<Location>, k: Key)
    ensures |Under(locs, k)| == multiset(Keys(locs))[k]
  {
    if locs != [] {
      var ks := Keys(locs);
      HeadCount(ks);
      assert ks[1..] == Keys(locs[1..]);
      UnderCount(locs[1..], k);
    }
  }

  lemma FifoCovered(m: Locs, locs: seq<Location>)
    requires Fifo(m, locs)
    ensures Covered(m, Keys(locs))
  {
    forall k: Key
      ensures multiset(Keys(locs))[k] <= |Get(m, k)|
    {
      UnderCount(locs, k);
      assert Under(locs, k) <= Get(m, k);
    }
  }

  lemma FifoStep(m: Locs, locs: seq<Location>)
    requires NoEmpty(m) && locs != [] && Fifo(m, locs)
    ensures var k := locs[0].key; k in m && m[k][0] == locs[0]
    ensures NoEmpty(DeleteKey(m, locs[0].key)) && Fifo(DeleteKey(m, locs[0].key), locs[1..])
  {
    var k0 := locs[0].key;
    var r := DeleteKey(m, k0);
    assert Under(locs, k0) <= Get(m, k0);
    forall k: Key
      ensures Under(locs[1..], k) <= Get(r, k)
    {
      assert Under(locs, k) <= Get(m, k);
      if k == k0 {
        assert Under(locs, k)[1..] == Under(locs[1..], k);
        assert Get(r, k) == Get(m, k)[1..];
      }
    }
  }

  /** Deleting once per key of a FIFO selection removes exactly the selected locations. */
  lemma {:induction false} FifoRemoved<T>(m: Locs, locs: seq<Location>, f: Location -> multiset<T>)
    requires NoEmpty(m) && Fifo(m, locs)
    ensures Sum(m, f) == Total(locs, f) + Sum(DeleteAll(m, Keys(locs)), f)
    decreases locs
  {
    if locs == [] {
      assert Keys(locs) == [];
    } else {
      FifoStep(m, locs);
      SumDelete(m, locs[0].key, f);
      assert Keys(locs)[1..] == Keys(locs[1..]);
      FifoRemoved(DeleteKey(m, locs[0].key), locs[1..], f);
    }
  }

  // ---------- Reading order ----------

  lemma KeyedDelete(m: Locs, k: Key)
    requires Keyed(m)
    ensures Keyed(DeleteKey(m, k))
  {
  }

  lemma KeyedRemove(m: Locs, k: Key)
    requires Keyed(m)
    ensures Keyed(m - {k})
  {
  }

  lemma {:induction false} FlattenMembers(m: Locs, i: nat)
    requires Keyed(m) && i < |Flatten(m)|
    ensures Flatten(m)[i].key in m && Flatten(m)[i] in m[Flatten(m)[i].key]
    decreases |m|
  {
    var k := MinKey(m.Keys);
    KeyedRemove(m, k);
    if i >= |m[k]| {
      FlattenMembers(m - {k}, i - |m[k]|);
    }
  }

  lemma {:induction false} FlattenSorted(m: Locs, i: nat, j: nat)
    requires Keyed(m) && i <= j < |Flatten(m)|
    ensures Flatten(m)[i].key <= Flatten(m)[j].key
    decreases |m|
  {
    var k := MinKey(m.Keys);
    KeyedRemove(m, k);
    FlattenMembers(m, j);
    if i >= |m[k]| {
      FlattenSorted(m - {k}, i - |m[k]|, j - |m[k]|);
    }
  }

  lemma FlattenFirst(m: Locs)
    requires Keyed(m) && m != map[]
    ensures Flatten(m) != [] && Flatten(m)[0].key == MinKey(m.Keys)
  {
    var k := MinKey(m.Keys);
    assert m[k] != [] && m[k][0].key == k;
    assert Flatten(m)[0] == m[k][0];
  }

  lemma FlattenDelete(m: Locs)
    requires NoEmpty(m) && m != map[]
    ensures Flatten(DeleteKey(m, MinKey(m.Keys))) == Flatten(m)[1..]
  {
    var k := MinKey(m.Keys);
    var r := DeleteKey(m, k);
    assert r - {k} == m - {k};
    ConcatTail(m[k], Flatten(m - {k}));
    if |m[k]| > 1 {
      MinKeyIs(r.Keys, k);
    } else {
      assert m[k][1..] == [];
    }
  }

  lemma FlattenEmpty(m: Locs)
    requires NoEmpty(m)
    ensures Flatten(m) == [] <==> m == map[]
  {
  }

  /** Deleting once per key of the first n locations in reading order drops exactly these n. */
  lemma {:induction false} DropFront(m: Locs, n: nat)
    requires Keyed(m) && n <= |Flatten(m)|
    ensures Flatten(DeleteAll(m, Keys(Flatten(m)[..n]))) == Flatten(m)[n..]
    ensures Fifo(m, Flatten(m)[..n])
    ensures Keyed(DeleteAll(m, Keys(Flatten(m)[..n])))
    decreases n
  {
    var front := Flatten(m)[..n];
    if n == 0 {
      assert Keys(front) == [];
    } else {
      FlattenFirst(m);
      FlattenDelete(m);
      var k0 := front[0].key;
      var r := DeleteKey(m, k0);
      KeyedDelete(m, k0);
      assert Flatten(r)[..n - 1] == front[1..];
      assert Keys(front)[1..] == Keys(front[1..]);
      DropFront(r, n - 1);
      assert Flatten(m)[1..][n - 1..] == Flatten(m)[n..];
      FifoFront(m, front);
    }
  }

  lemma FifoFront(m: Locs, front: seq<Location>)
    requires front != [] && front[0].key in m && m[front[0].key] != [] && m[front[0].key][0] == front[0]
    requires Fifo(DeleteKey(m, front[0].key), front[1..])
    ensures Fifo(m, front)
  {
    forall k: Key
      ensures Under(front, k) <= Get(m, k)
    {
      assert Under(front[1..], k) <= Get(DeleteKey(m, front[0].key), k);
      if k == front[0].key {
        assert m[k] == [m[k][0]] + Get(DeleteKey(m, k), k);
      }
    }
  }

  lemma {:induction false} UnderConcat(a: seq<Location>, b: seq<Location>, k: Key)
    ensures Under(a + b, k) == Under(a, k) + Under(b, k)
  {
    if a == [] {
      assert a + b == b;
    } else {
      assert (a + b)[1..] == a[1..] + b;
      UnderConcat(a[1..], b, k);
    }
  }

  lemma {:induction false} UnderAll(locs: seq<Location>, k: Key)
    ensures (forall i :: 0 <= i < |locs| ==> locs[i].key == k) ==> Under(locs, k) == locs
    ensures (forall i :: 0 <= i < |locs| ==> locs[i].key != k) ==> Under(locs, k) == []
  {
    if locs != [] {
      UnderAll(locs[1..], k);
    }
  }

  /** Reading order lists each key's locations as the map does. */
  lemma {:induction false} UnderFlatten(m: Locs, k: Key)
    requires Keyed(m)
    ensures Under(Flatten(m), k) == Get(m, k)
    decreases |m|
  {
    if m != map[] {
      var k0 := MinKey(m.Keys);
      var rest := m - {k0};
      KeyedRemove(m, k0);
      UnderConcat(m[k0], Flatten(rest), k);
      UnderAll(m[k0], k);
      UnderFlatten(rest, k);
    }
  }

  // ---------- Items ----------

  /** A location as the rest of the queue relies on it: a sorted run that starts with the location's key. */
  ghost predicate LocOk(items: seq<Item>, loc: Location) {
    && Readable(items, loc)
    && Sorted(Run(items, loc))
    && Run(items, loc)[0].key == loc.key
  }

  lemma LocOkRun(items: seq<Item>, loc: Location)
    requires LocOk(items, loc)
    ensures Sorted(Run(items, loc)) && |Run(items, loc)| == loc.len > 0 && Run(items, loc)[0].key == loc.key
  {
  }

  lemma LocsPositive(items: seq<Item>, locs: seq<Location>)
    requires forall i :: 0 <= i < |locs| ==> LocOk(items, locs[i])
    ensures forall i :: 0 <= i < |locs| ==> locs[i].len > 0
  {
  }

  ghost predicate IndexOk(items: seq<Item>, m: Locs) {
    && Keyed(m)
    && forall k, i :: k in m && 0 <= i < |m[k]| ==> LocOk(items, m[k][i])
  }

  ghost function Bag(items: seq<Item>): Location -> multiset<Item> {
    (loc: Location) => multiset(Run(items, loc))
  }

  ghost function Content(items: seq<Item>, m: Locs): multiset<Item> {
    Sum(m, Bag(items))
  }

  lemma IndexOkApply(items: seq<Item>, m: Locs, op: Location)
    requires IndexOk(items, m) && (op.len == 0 || LocOk(items, op))
    ensures IndexOk(items, Apply(m, op))
  {
  }

  lemma {:induction false} IndexOkApplyAll(items: seq<Item>, m: Locs, ops: seq<Location>)
    requires IndexOk(items, m) && forall i :: 0 <= i < |ops| ==> ops[i].len == 0 || LocOk(items, ops[i])
    ensures IndexOk(items, ApplyAll(m, ops))
    decreases ops
  {
    if ops != [] {
      IndexOkApply(items, m, ops[0]);
      IndexOkApplyAll(items, Apply(m, ops[0]), ops[1..]);
    }
  }

  lemma {:induction false} IndexOkDeleteAll(items: seq<Item>, m: Locs, keys: seq<Key>)
    requires IndexOk(items, m)
    ensures IndexOk(items, DeleteAll(m, keys))
    decreases keys
  {
    if keys != [] {
      IndexOkDeleteAll(items, DeleteKey(m, keys[0]), keys[1..]);
    }
  }

  lemma {:induction false} IndexOkSetAll(items: seq<Item>, m: Locs, locs: seq<Location>)
    requires IndexOk(items, m) && forall i :: 0 <= i < |locs| ==> LocOk(items, locs[i])
    ensures IndexOk(items, SetAll(m, locs))
    decreases locs
  {
    if locs != [] {
      IndexOkSetAll(items, SetLoc(m, locs[0]), locs[1..]);
    }
  }

  lemma FlattenOk(items: seq<Item>, m: Locs, i: nat)
    requires IndexOk(items, m) && i < |Flatten(m)|
    ensures LocOk(items, Flatten(m)[i])
  {
    FlattenMembers(m, i);
  }

  lemma {:induction false} TotalSame<T, U>(s: seq<T>, f: T -> multiset<U>, g: T -> multiset<U>)
    requires forall i :: 0 <= i < |s| ==> f(s[i]) == g(s[i])
    ensures Total(s, f) == Total(s, g)
  {
    if s != [] {
      TotalSame(s[1..], f, g);
    }
  }

  lemma LocStable(items: seq<Item>, more: seq<Item>, loc: Location)
    requires LocOk(items, loc)
    ensures LocOk(items + more, loc) && Run(items + more, loc) == Run(items, loc)
  {
    RunStable(items, more, loc);
  }

  /** An index means the same after any number of later pushes to its log. */
  lemma ContentStable(items: seq<Item>, more: seq<Item>, m: Locs)
    requires IndexOk(items, m)
    ensures IndexOk(items + more, m) && Content(items + more, m) == Content(items, m)
  {
    forall k, i | k in m && 0 <= i < |m[k]|
      ensures LocOk(items + more, m[k][i])
    {
      LocStable(items, more, m[k][i]);
    }
    forall i | 0 <= i < |Flatten(m)|
      ensures Bag(items + more)(Flatten(m)[i]) == Bag(items)(Flatten(m)[i])
    {
      FlattenOk(items, m, i);
      LocStable(items, more, Flatten(m)[i]);
    }
    TotalSame(Flatten(m), Bag(items + more), Bag(items));
  }

  // ---------- Where a read stops ----------

  /** The oldest location under key 0 is empty. Only recovery makes such a location. */
  ghost predicate Blocked(m: Locs) {
    0 in m && m[0] != [] && m[0][0].len == 0
  }

  /** What a read reaches: it cannot open an empty location, and does not get past it. */
  ghost function Reach(m: Locs): Locs {
    if Blocked(m) then map k | k in m && k < 0 :: m[k] else m
  }

  lemma ReachAll(items: seq<Item>, m: Locs)
    requires IndexOk(items, m)
    ensures NoEmpty(m) && Reach(m) == m
  {
    if Blocked(m) {
      LocOkRun(items, m[0][0]);
    }
  }

  /** In reading order, what a read reaches comes first, and then the empty location if there is one. */
  lemma {:induction false} ReachFirst(m: Locs)
    requires NoEmpty(m)
    ensures Flatten(Reach(m)) <= Flatten(m)
    ensures var n := |Flatten(Reach(m))|; n < |Flatten(m)| ==> Flatten(m)[n].len == 0
    decreases |m|
  {
    if Blocked(m) {
      var k := MinKey(m.Keys);
      if k < 0 {
        ReachFirst(m - {k});
        MinKeyIs(Reach(m).Keys, k);
        assert Reach(m) - {k} == Reach(m - {k});
      } else {
        assert k == 0 && Reach(m) == map[];
        assert Flatten(m)[0] == m[0][0];
      }
    }
  }
}
