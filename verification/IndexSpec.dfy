/**
 * The batch index as a value: a map from first key to the list of locations under that key, oldest first.
 * Locations are appended under their key and always deleted from the front (index/index.go).
 */
module IndexSpec {
  import opened Items

  type Locs = map<Key, seq<Location>>

  // ---------- Totals over sequences ----------

  /** The sum of the bags of all elements. */
  ghost function Total<T, U>(s: seq<T>, f: T -> multiset<U>): multiset<U> {
    if s == [] then multiset{} else f(s[0]) + Total(s[1..], f)
  }

  lemma {:induction false} TotalConcat<T, U>(a: seq<T>, b: seq<T>, f: T -> multiset<U>)
    ensures Total(a + b, f) == Total(a, f) + Total(b, f)
  {
    if a == [] {
      assert a + b == b;
    } else {
      assert (a + b)[1..] == a[1..] + b;
      TotalConcat(a[1..], b, f);
    }
  }

  lemma TotalOne<T, U>(x: T, f: T -> multiset<U>)
    ensures Total([x], f) == f(x)
  {
    assert Total([x], f) == f(x) + Total([], f);
  }

  lemma TotalSnoc<T, U>(s: seq<T>, x: T, f: T -> multiset<U>)
    ensures Total(s + [x], f) == Total(s, f) + f(x)
  {
    TotalConcat(s, [x], f);
    TotalOne(x, f);
  }

  lemma ConcatTail<T>(a: seq<T>, b: seq<T>)
    requires a != []
    ensures (a + b)[1..] == a[1..] + b
  {
  }

  lemma SplitAt<T>(s: seq<T>, i: nat)
    requires i < |s|
    ensures s == s[..i] + ([s[i]] + s[i + 1..])
  {
  }

  lemma TotalRemove<T, U>(s: seq<T>, i: nat, f: T -> multiset<U>)
    requires i < |s|
    ensures Total(s, f) == f(s[i]) + Total(s[..i] + s[i + 1..], f)
  {
    var a, x, b := s[..i], s[i], s[i + 1..];
    SplitAt(s, i);
    ConcatTail([x], b);
    assert Total([x] + b, f) == f(x) + Total(b, f);
    TotalConcat(a, [x] + b, f);
    TotalConcat(a, b, f);
  }

  lemma {:induction false} TotalMembers<T, U>(s: seq<T>, f: T -> multiset<U>, y: U)
    requires y in Total(s, f)
    ensures exists x :: x in s && y in f(x)
  {
    if y in f(s[0]) {
      assert s[0] in s;
    } else {
      TotalMembers(s[1..], f, y);
      var x :| x in s[1..] && y in f(x);
      assert x in s;
    }
  }

  lemma MultisetRemove<T>(s: seq<T>, i: nat)
    requires i < |s|
    ensures multiset(s[..i] + s[i + 1..]) == multiset(s) - multiset{s[i]}
  {
    SplitAt(s, i);
    assert multiset(s) == multiset(s[..i]) + (multiset{s[i]} + multiset(s[i + 1..]));
  }

  lemma {:induction false} TotalPermutation<T, U>(a: seq<T>, b: seq<T>, f: T -> multiset<U>)
    requires multiset(a) == multiset(b)
    ensures Total(a, f) == Total(b, f)
  {
    if a == [] {
      assert |b| == |multiset(b)| == |multiset(a)| == 0;
    } else {
      assert a[0] in multiset(b);
      var i :| 0 <= i < |b| && b[i] == a[0];
      TotalRemove(b, i, f);
      MultisetRemove(b, i);
      HeadCount(a);
      TotalPermutation(a[1..], b[..i] + b[i + 1..], f);
    }
  }

  // ---------- The map and its two mutations ----------

  function Get(m: Locs, k: Key): seq<Location> {
    if k in m then m[k] else []
  }

  function SetLoc(m: Locs, loc: Location): Locs {
    m[loc.key := Get(m, loc.key) + [loc]]
  }

  function DeleteKey(m: Locs, k: Key): Locs {
    if k !in m then m
    else if |m[k]| > 1 then m[k := m[k][1..]]
    else m - {k}
  }

  ghost predicate NoEmpty(m: Locs) {
    forall k :: k in m ==> m[k] != []
  }

  ghost function SetAll(m: Locs, locs: seq<Location>): Locs
    decreases locs
  {
    if locs == [] then m else SetAll(SetLoc(m, locs[0]), locs[1..])
  }

  ghost function DeleteAll(m: Locs, keys: seq<Key>): Locs {
    if keys == [] then m else DeleteAll(DeleteKey(m, keys[0]), keys[1..])
  }

  /** The locations of a list that lie under one key, in order. */
  ghost function Under(locs: seq<Location>, k: Key): seq<Location> {
    if locs == [] then []
    else if locs[0].key == k then [locs[0]] + Under(locs[1..], k)
    else Under(locs[1..], k)
  }

  ghost function Keys(locs: seq<Location>): (keys: seq<Key>)
    ensures |keys| == |locs|
  {
    seq(|locs|, i requires 0 <= i < |locs| => locs[i].key)
  }

  lemma SameMap(a: Locs, b: Locs)
    requires NoEmpty(a) && NoEmpty(b)
    requires forall k: Key :: Get(a, k) == Get(b, k)
    ensures a == b
  {
    assert forall k :: k in a ==> Get(a, k) != [] && Get(b, k) != [];
    assert forall k :: k in b ==> Get(a, k) != [] && Get(b, k) != [];
    assert forall k :: k in a ==> k in b && a[k] == Get(a, k) == Get(b, k) == b[k];
  }

  lemma {:induction false} GetSetAll(m: Locs, locs: seq<Location>, k: Key)
    ensures Get(SetAll(m, locs), k) == Get(m, k) + Under(locs, k)
    ensures NoEmpty(m) ==> NoEmpty(SetAll(m, locs))
    decreases locs
  {
    if locs != [] {
      GetSetAll(SetLoc(m, locs[0]), locs[1..], k);
    }
  }

  lemma DropDrop<T>(s: seq<T>, n: nat)
    requires n < |s|
    ensures s[1..][n..] == s[n + 1..]
  {
  }

  lemma HeadCount<T>(s: seq<T>)
    requires s != []
    ensures multiset(s) == multiset{s[0]} + multiset(s[1..])
    ensures multiset(s[1..]) == multiset(s) - multiset{s[0]}
  {
    assert s == [s[0]] + s[1..];
  }

  lemma {:induction false} GetDeleteAll(m: Locs, keys: seq<Key>, k: Key)
    requires NoEmpty(m)
    ensures NoEmpty(DeleteAll(m, keys))
    ensures var n := multiset(keys)[k]; var l := Get(m, k);
            Get(DeleteAll(m, keys), k) == if n <= |l| then l[n..] else []
    decreases keys
  {
    hide Get, DeleteKey, NoEmpty;
    if keys != [] {
      var n, r := multiset(keys[1..])[k], DeleteKey(m, keys[0]);
      assert multiset(keys)[k] == if keys[0] == k then n + 1 else n by { HeadCount(keys); }
      GetDelete(m, keys[0], k);
      GetDeleteAll(r, keys[1..], k);
      assert DeleteAll(m, keys) == DeleteAll(r, keys[1..]);
      hide DeleteAll;
      DropOnce(Get(m, k), Get(r, k), n, keys[0] == k);
    }
  }

  lemma DropOnce<T>(l: seq<T>, r: seq<T>, n: nat, hit: bool)
    requires r == if hit && l != [] then l[1..] else l
    ensures (if n <= |r| then r[n..] else [])
            == var d := if hit then n + 1 else n; if d <= |l| then l[d..] else []
  {
    if hit && n < |l| {
      DropDrop(l, n);
    }
  }

  lemma GetDelete(m: Locs, key: Key, k: Key)
    requires NoEmpty(m)
    ensures NoEmpty(DeleteKey(m, key))
    ensures Get(DeleteKey(m, key), k) == if k == key && Get(m, k) != [] then Get(m, k)[1..] else Get(m, k)
  {
  }

  // ---------- Operation sequences, as the write-ahead log records them ----------

  /** One log record: length zero deletes the oldest location under the key, any other length adds. */
  function Apply(m: Locs, op: Location): Locs {
    if op.len == 0 then DeleteKey(m, op.key) else SetLoc(m, op)
  }

  ghost function ApplyAll(m: Locs, ops: seq<Location>): Locs
    decreases ops
  {
    if ops == [] then m else ApplyAll(Apply(m, ops[0]), ops[1..])
  }

  ghost function Sets(ops: seq<Location>): seq<Location> {
    if ops == [] then []
    else if ops[0].len > 0 then [ops[0]] + Sets(ops[1..])
    else Sets(ops[1..])
  }

  ghost function Deletes(ops: seq<Location>): seq<Key> {
    if ops == [] then []
    else if ops[0].len == 0 then [ops[0].key] + Deletes(ops[1..])
    else Deletes(ops[1..])
  }

  /** Every delete has a location of its own that was there before the first operation. */
  ghost predicate Covered(m: Locs, keys: seq<Key>) {
    forall k: Key :: multiset(keys)[k] <= |Get(m, k)|
  }

  lemma {:induction false} ApplyAllConcat(m: Locs, a: seq<Location>, b: seq<Location>)
    ensures ApplyAll(m, a + b) == ApplyAll(ApplyAll(m, a), b)
    decreases a
  {
    if a == [] {
      assert a + b == b;
    } else {
      assert (a + b)[1..] == a[1..] + b;
      ApplyAllConcat(Apply(m, a[0]), a[1..], b);
    }
  }

  lemma {:induction false} SetsConcat(a: seq<Location>, b: seq<Location>)
    ensures Sets(a + b) == Sets(a) + Sets(b) && Deletes(a + b) == Deletes(a) + Deletes(b)
  {
    if a == [] {
      assert a + b == b;
    } else {
      assert (a + b)[1..] == a[1..] + b;
      SetsConcat(a[1..], b);
    }
  }

  lemma GetApply(m: Locs, op: Location, k: Key)
    requires NoEmpty(m)
    ensures NoEmpty(Apply(m, op))
    ensures Get(Apply(m, op), k) ==
            if op.key != k then Get(m, k)
            else if op.len > 0 then Get(m, k) + [op]
            else if Get(m, k) == [] then [] else Get(m, k)[1..]
  {
  }

  lemma CoveredStep(m: Locs, ops: seq<Location>)
    requires NoEmpty(m) && ops != [] && Covered(m, Deletes(ops))
    ensures Covered(Apply(m, ops[0]), Deletes(ops[1..]))
    ensures ops[0].len == 0 ==> multiset(Deletes(ops)) == multiset{ops[0].key} + multiset(Deletes(ops[1..]))
    ensures ops[0].len > 0 ==> Deletes(ops) == Deletes(ops[1..])
  {
    var d, rest := Deletes(ops), Deletes(ops[1..]);
    if ops[0].len == 0 {
      HeadCount(d);
      assert d[1..] == rest;
    } else {
      assert d == rest;
    }
    forall j: Key
      ensures multiset(rest)[j] <= |Get(Apply(m, ops[0]), j)|
    {
      assert multiset(d)[j] <= |Get(m, j)|;
      GetApply(m, ops[0], j);
    }
  }

  lemma UnderSetsStep(ops: seq<Location>, k: Key)
    requires ops != []
    ensures Under(Sets(ops), k) ==
            if ops[0].len > 0 && ops[0].key == k then [ops[0]] + Under(Sets(ops[1..]), k)
            else Under(Sets(ops[1..]), k)
  {
    if ops[0].len > 0 {
      assert Sets(ops)[1..] == Sets(ops[1..]);
    } else {
      assert Sets(ops) == Sets(ops[1..]);
    }
  }

  lemma SkipThenAppend(l: seq<Location>, op: Location, n: nat, tail: seq<Location>)
    requires n <= |l|
    ensures (l + [op])[n..] + tail == l[n..] + ([op] + tail)
  {
    assert (l + [op])[n..] == l[n..] + [op];
  }

  lemma {:induction false} GetApplyAll(m: Locs, ops: seq<Location>, k: Key)
    requires NoEmpty(m) && Covered(m, Deletes(ops))
    ensures NoEmpty(ApplyAll(m, ops))
    ensures multiset(Deletes(ops))[k] <= |Get(m, k)|
    ensures Get(ApplyAll(m, ops), k) == Get(m, k)[multiset(Deletes(ops))[k]..] + Under(Sets(ops), k)
    decreases ops
  {
    if ops != [] {
      var op, l := ops[0], Get(m, k);
      var n := multiset(Deletes(ops[1..]))[k];
      var tail := Under(Sets(ops[1..]), k);
      CoveredStep(m, ops);
      UnderSetsStep(ops, k);
      GetApply(m, op, k);
      GetApplyAll(Apply(m, op), ops[1..], k);
      var r := Get(ApplyAll(m, ops), k);
      if op.key != k {
        assert r == l[n..] + tail;
      } else if op.len == 0 {
        DropDrop(l, n);
        assert r == l[n + 1..] + tail;
      } else {
        SkipThenAppend(l, op, n, tail);
        assert r == l[n..] + ([op] + tail);
      }
    }
  }

  /**
   * Covered deletes and sets may be interleaved at will: the outcome is that of deleting first and
   * setting afterwards. A FIFO delete never names its victim, and yet never hits a newly set location.
   */
  lemma NormalForm(m: Locs, ops: seq<Location>)
    requires NoEmpty(m) && Covered(m, Deletes(ops))
    ensures ApplyAll(m, ops) == SetAll(DeleteAll(m, Deletes(ops)), Sets(ops))
    ensures NoEmpty(ApplyAll(m, ops))
  {
    var r := SetAll(DeleteAll(m, Deletes(ops)), Sets(ops));
    forall k: Key
      ensures Get(ApplyAll(m, ops), k) == Get(r, k)
    {
      GetApplyAll(m, ops, k);
      GetDeleteAll(m, Deletes(ops), k);
      GetSetAll(DeleteAll(m, Deletes(ops)), Sets(ops), k);
    }
    GetApplyAll(m, ops, 0);
    GetDeleteAll(m, Deletes(ops), 0);
    GetSetAll(DeleteAll(m, Deletes(ops)), Sets(ops), 0);
    SameMap(ApplyAll(m, ops), r);
  }

  lemma {:induction false} PlainSets(m: Locs, locs: seq<Location>)
    requires forall i :: 0 <= i < |locs| ==> locs[i].len > 0
    ensures Sets(locs) == locs && Deletes(locs) == [] && ApplyAll(m, locs) == SetAll(m, locs)
    decreases locs
  {
    if locs != [] {
      PlainSets(SetLoc(m, locs[0]), locs[1..]);
    }
  }

  lemma {:induction false} DeleteAllSnoc(m: Locs, keys: seq<Key>, k: Key)
    ensures DeleteAll(m, keys + [k]) == DeleteKey(DeleteAll(m, keys), k)
    decreases keys
  {
    if keys == [] {
      assert DeleteAll(m, [k]) == DeleteAll(DeleteKey(m, k), []);
    } else {
      assert (keys + [k])[1..] == keys[1..] + [k];
      DeleteAllSnoc(DeleteKey(m, keys[0]), keys[1..], k);
    }
  }

  lemma {:induction false} SetAllSnoc(m: Locs, locs: seq<Location>, loc: Location)
    ensures SetAll(m, locs + [loc]) == SetLoc(SetAll(m, locs), loc)
    decreases locs
  {
    if locs == [] {
      assert SetAll(m, [loc]) == SetAll(SetLoc(m, loc), []);
    } else {
      assert (locs + [loc])[1..] == locs[1..] + [loc];
      SetAllSnoc(SetLoc(m, locs[0]), locs[1..], loc);
    }
  }
}
