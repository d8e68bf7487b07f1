/** How a batch is spread over the buckets (Push, pushSorted in buckets.go). */
module PushSpec {
  import opened Items
  import opened IndexSpec
  import opened ForkSpec
  import opened BucketSpec
  import opened Reopen
  import opened Split
  import opened QueueSpec

  /** The items of a batch that belong to a bucket. */
  ghost function Part(items: seq<Item>, split: Key -> Key, key: Key): seq<Item> {
    if items == [] then []
    else (if split(items[0].key) == key then [items[0]] else []) + Part(items[1..], split, key)
  }

  lemma {:induction false} PartConcat(a: seq<Item>, b: seq<Item>, split: Key -> Key, key: Key)
    ensures Part(a + b, split, key) == Part(a, split, key) + Part(b, split, key)
  {
    if a == [] {
      assert a + b == b;
    } else {
      ConcatTail(a, b);
      PartConcat(a[1..], b, split, key);
      var h := if split(a[0].key) == key then [a[0]] else [];
      assert h + Part(a[1..] + b, split, key) == h + Part(a[1..], split, key) + Part(b, split, key);
    }
  }

  lemma {:induction false} PartAll(items: seq<Item>, split: Key -> Key, key: Key)
    ensures (forall i :: 0 <= i < |items| ==> split(items[i].key) == key) ==> Part(items, split, key) == items
    ensures (forall i :: 0 <= i < |items| ==> split(items[i].key) != key) ==> Part(items, split, key) == []
  {
    if items != [] {
      PartAll(items[1..], split, key);
    }
  }

  lemma {:induction false} PartAt(items: seq<Item>, split: Key -> Key, key: Key, x: Item)
    ensures multiset(Part(items, split, key))[x] == if split(x.key) == key then multiset(items)[x] else 0
  {
    if items != [] {
      PartAt(items[1..], split, key, x);
      assert items == [items[0]] + items[1..];
    }
  }

  lemma {:induction false} SizeOfPermutation(a: seq<Item>, b: seq<Item>)
    requires multiset(a) == multiset(b)
    ensures SizeOfAll(a) == SizeOfAll(b)
  {
    if a != [] {
      assert a[0] in multiset(b);
      var i :| 0 <= i < |b| && b[i] == a[0];
      MultisetRemove(a, 0);
      MultisetRemove(b, i);
      assert a[..0] + a[1..] == a[1..];
      SizeOfPermutation(a[1..], b[..i] + b[i + 1..]);
      SizeOfParts(b, i);
    } else {
      assert |multiset(b)| == 0;
    }
  }

  lemma SizeOfParts(b: seq<Item>, i: nat)
    requires i < |b|
    ensures SizeOfAll(b) == StorageSize(b[i]) + SizeOfAll(b[..i] + b[i + 1..])
  {
    SplitAt(b, i);
    ConcatTail([b[i]], b[i + 1..]);
    SizeOfConcat(b[..i], [b[i]] + b[i + 1..]);
    SizeOfConcat(b[..i], b[i + 1..]);
    assert [b[i]][1..] + b[i + 1..] == b[i + 1..];
  }

  /** Every bucket has room for its part of the batch. */
  ghost predicate RoomFor(s: Store, items: seq<Item>, split: Key -> Key) {
    forall k: Key {:trigger Part(items, split, k)} ::
      Representable((if k in s then s[k].items else []) + Part(items, split, k))
  }

  lemma RepresentableParts(a: seq<Item>, b: seq<Item>)
    ensures Representable(a + b) <==> |a| + |b| < TWO_32 && SizeOfAll(a) + SizeOfAll(b) < TWO_63
  {
    SizeOfConcat(a, b);
  }

  lemma RoomForSorted(s: Store, items: seq<Item>, sorted: seq<Item>, split: Key -> Key)
    requires RoomFor(s, items, split) && multiset(sorted) == multiset(items)
    ensures RoomFor(s, sorted, split)
  {
    hide Representable;
    forall k: Key
      ensures Representable((if k in s then s[k].items else []) + Part(sorted, split, k))
    {
      var had := if k in s then s[k].items else [];
      var p, q := Part(items, split, k), Part(sorted, split, k);
      assert Representable(had + p);
      forall x
        ensures multiset(p)[x] == multiset(q)[x]
      {
        PartAt(items, split, k, x);
        PartAt(sorted, split, k, x);
      }
      SizeOfPermutation(p, q);
      assert |multiset(p)| == |multiset(q)|;
      RepresentableParts(had, p);
      RepresentableParts(had, q);
    }
  }

  /** What one round of the loop stores: the run that belongs to the first item's bucket. */
  lemma RunIsPart(items: seq<Item>, split: Key -> Key, key: Key, r: nat)
    requires RunEnd(items, key, split, r)
    ensures Part(items, split, key) == items[..r] && Part(items[r..], split, key) == []
    ensures forall k :: k != key ==> Part(items, split, k) == Part(items[r..], split, k)
  {
    assert items == items[..r] + items[r..];
    PartAll(items[..r], split, key);
    PartAll(items[r..], split, key);
    forall k
      ensures Part(items, split, k) == Part(items[..r], split, k) + Part(items[r..], split, k)
      ensures k != key ==> Part(items[..r], split, k) == []
    {
      PartConcat(items[..r], items[r..], split, k);
      PartAll(items[..r], split, k);
    }
  }

  /** Loading the bucket leaves room for the run; storing the run leaves room for the rest. */
  lemma RoomForRun(s: Store, s1: Store, items: seq<Item>, split: Key -> Key, key: Key, r: nat, forks: set<ForkName>)
    requires RoomFor(s, items, split) && RunEnd(items, key, split, r) && Reloaded(s, s1, key, forks)
    ensures Representable(s1[key].items + items[..r])
  {
    hide Representable;
    RunIsPart(items, split, key, r);
    var had := if key in s then s[key].items else [];
    assert Representable(had + Part(items, split, key));
    RepresentableParts(had, items[..r]);
    RepresentableParts(s1[key].items, items[..r]);
  }

  lemma RoomForRest(s: Store, s1: Store, s2: Store, items: seq<Item>, split: Key -> Key, key: Key, r: nat,
                    forks: set<ForkName>)
    requires RoomFor(s, items, split) && RunEnd(items, key, split, r) && Reloaded(s, s1, key, forks)
    requires OnlyChanged(s1, s2, key) && s2[key].items == s1[key].items + items[..r]
    ensures RoomFor(s2, items[r..], split)
  {
    hide Representable;
    RunIsPart(items, split, key, r);
    RoomForRun(s, s1, items, split, key, r, forks);
    forall k: Key
      ensures Representable((if k in s2 then s2[k].items else []) + Part(items[r..], split, k))
    {
      if k == key {
        assert s2[k].items + [] == s2[k].items;
      } else {
        assert Representable((if k in s then s[k].items else []) + Part(items, split, k));
      }
    }
  }

  /** Every fork gains the run, none loses anything. */
  lemma RunHeld(s: Store, s1: Store, s2: Store, key: Key, run: seq<Item>, forks: set<ForkName>, f: ForkName)
    requires Reloaded(s, s1, key, forks) && OnlyChanged(s1, s2, key)
    requires f in s1[key].forks && Pushed(s1[key], s2[key], run, s1[key].forks.Keys)
    ensures Held(s2, f) == Held(s, f) + multiset(run)
  {
    hide ForkContent, Held, SameContents, EmptyValue;
    ReloadedHeld(s, s1, key, forks, f);
    OnlyChangedHeld(s1, s2, key, f);
    SameRest(Held(s2, f), Held(s, f) + multiset(run), ForkContent(s1[key], f));
  }

  /** A run of a sorted batch can be stored in its bucket. */
  lemma RunPushable(v: Value, items: seq<Item>, split: Key -> Key, lowest: Key, key: Key, r: nat)
    requires Sorted(items) && Storable(items) && SplitLaw(split, lowest)
    requires forall i :: 0 <= i < |items| ==> items[i].key >= lowest
    requires RunEnd(items, key, split, r) && Representable(v.items + items[..r])
    ensures Pushable(v.items, items[..r], key)
  {
    hide Representable;
    forall i | 0 <= i < r
      ensures key <= items[i].key
    {
      assert split(items[i].key) <= items[i].key;
    }
  }

  lemma PushedFits(v: Value, w: Value, key: Key, batch: seq<Item>)
    requires ValueOk(w, key) && Pushed(v, w, batch, v.forks.Keys)
    ensures Representable(w.items) && w.items == v.items + batch
  {
  }

  lemma PushedOk(v: Value, w: Value, batch: seq<Item>, split: Key -> Key, key: Key, names: set<ForkName>)
    requires BucketOk(v, key, split, names) && ValueOk(w, key) && Pushed(v, w, batch, v.forks.Keys)
    requires forall i :: 0 <= i < |batch| ==> split(batch[i].key) == key
    ensures BucketOk(w, key, split, names)
  {
    hide ValueOk;
  }

  /** A batch the queue accepts. */
  ghost predicate Acceptable(s: Store, items: seq<Item>, split: Key -> Key, lowest: Key) {
    && Storable(items)
    && RoomFor(s, items, split)
    && forall i :: 0 <= i < |items| ==> items[i].key >= lowest
  }

  lemma SortedAcceptable(s: Store, items: seq<Item>, sorted: seq<Item>, split: Key -> Key, lowest: Key)
    requires Acceptable(s, items, split, lowest) && multiset(sorted) == multiset(items)
    ensures Acceptable(s, sorted, split, lowest)
  {
    hide RoomFor;
    RoomForSorted(s, items, sorted, split);
    forall i | 0 <= i < |sorted|
      ensures |sorted[i].blob| <= MAX_BLOB && sorted[i].key >= lowest
    {
      assert sorted[i] in multiset(items);
    }
  }

  lemma SortedRest(items: seq<Item>, r: nat)
    requires Sorted(items) && r <= |items|
    ensures Sorted(items[r..]) && multiset(items[..r]) + multiset(items[r..]) == multiset(items)
  {
    assert items == items[..r] + items[r..];
  }

  /** One round of the loop of pushSorted. */
  lemma Round(s: Store, s1: Store, items: seq<Item>, split: Key -> Key, lowest: Key, key: Key, r: nat,
              forks: set<ForkName>)
    requires Sorted(items) && items != [] && key == split(items[0].key) && r == Binsplit(items, key, split)
    requires SplitLaw(split, lowest) && Acceptable(s, items, split, lowest)
    requires Reloaded(s, s1, key, forks)
    ensures RunEnd(items, key, split, r) && Pushable(s1[key].items, items[..r], key)
  {
    hide RoomFor, Representable, Binsplit, Pushable, Reloaded;
    BinsplitExact(items, key, split);
    assert key in s1 by { ReloadedHas(s, s1, key, forks); }
    RoomForRun(s, s1, items, split, key, r, forks);
    RunPushable(s1[key], items, split, lowest, key, r);
  }

  lemma ReloadedHas(s: Store, s1: Store, key: Key, forks: set<ForkName>)
    requires Reloaded(s, s1, key, forks)
    ensures key in s1
  {
  }

  lemma RoundDone(s: Store, s1: Store, s2: Store, items: seq<Item>, split: Key -> Key, lowest: Key, key: Key, r: nat,
                  forks: set<ForkName>)
    requires Acceptable(s, items, split, lowest) && RunEnd(items, key, split, r)
    requires Reloaded(s, s1, key, forks) && OnlyChanged(s1, s2, key) && key in s1
    requires Pushed(s1[key], s2[key], items[..r], s1[key].forks.Keys)
    ensures Acceptable(s2, items[r..], split, lowest)
    ensures forall f :: f in s1[key].forks ==> Held(s2, f) == Held(s, f) + multiset(items[..r])
  {
    hide RoomFor, Reloaded, Held, ForkContent;
    RoomForRest(s, s1, s2, items, split, key, r, forks);
    forall f | f in s1[key].forks
      ensures Held(s2, f) == Held(s, f) + multiset(items[..r])
    {
      RunHeld(s, s1, s2, key, items[..r], forks, f);
    }
  }

  // ---------- Sorting ----------

  /** No two keys of the batch are so far apart that their difference overflows. */
  ghost predicate Comparable(items: seq<Item>) {
    forall i, j :: 0 <= i < |items| && 0 <= j < |items| ==> items[i].key as int - items[j].key as int < TWO_63
  }

  lemma CompareKeys(items: seq<Item>, x: Item, y: Item)
    requires Comparable(items) && x in items && y in items
    ensures Compare(x.key, y.key) > 0 <==> x.key > y.key
  {
    var i :| 0 <= i < |items| && items[i] == x;
    var j :| 0 <= j < |items| && items[j] == y;
    assert items[j].key as int - items[i].key as int < TWO_63;
    CompareExact(x.key, y.key);
  }

  /** Sorts by the comparator; the order of items with equal keys is not specified. */
  method SortFunc(items: seq<Item>) returns (sorted: seq<Item>)
    requires Comparable(items)
    ensures Sorted(sorted) && multiset(sorted) == multiset(items)
  {
    hide Compare, Comparable;
    sorted := [];
    for i := 0 to |items|
      invariant Sorted(sorted) && multiset(sorted) == multiset(items[..i])
    {
      assert items[..i + 1] == items[..i] + [items[i]];
      forall x | x in sorted
        ensures x in items
      {
        assert x in multiset(items[..i]);
      }
      sorted := Insert(sorted, items[i], items);
    }
    assert items[..|items|] == items;
  }

  method Insert(sorted: seq<Item>, x: Item, ghost items: seq<Item>) returns (r: seq<Item>)
    requires Comparable(items) && x in items && (forall y :: y in sorted ==> y in items) && Sorted(sorted)
    ensures Sorted(r) && multiset(r) == multiset(sorted) + multiset{x}
  {
    hide Compare, Comparable, Sorted;
    var j := |sorted|;
    while j > 0 && Compare(sorted[j - 1].key, x.key) > 0
      invariant 0 <= j <= |sorted|
      invariant forall i :: j <= i < |sorted| ==> sorted[i].key > x.key
    {
      CompareKeys(items, sorted[j - 1], x);
      j := j - 1;
    }
    if j > 0 {
      CompareKeys(items, sorted[j - 1], x);
    }
    r := sorted[..j] + ([x] + sorted[j..]);
    InsertedSorted(sorted, x, j);
  }

  lemma InsertedAt(sorted: seq<Item>, x: Item, j: nat, i: nat)
    requires j <= |sorted| && i <= |sorted|
    ensures (sorted[..j] + ([x] + sorted[j..]))[i] == if i < j then sorted[i] else if i == j then x else sorted[i - 1]
  {
  }

  lemma InsertedSorted(sorted: seq<Item>, x: Item, j: nat)
    requires Sorted(sorted) && j <= |sorted|
    requires j > 0 ==> sorted[j - 1].key <= x.key
    requires forall i :: j <= i < |sorted| ==> sorted[i].key > x.key
    ensures Sorted(sorted[..j] + ([x] + sorted[j..]))
    ensures multiset(sorted[..j] + ([x] + sorted[j..])) == multiset(sorted) + multiset{x}
  {
    var r := sorted[..j] + ([x] + sorted[j..]);
    forall a, b | 0 <= a < b < |r|
      ensures r[a].key <= r[b].key
    {
      InsertedAt(sorted, x, j, a);
      InsertedAt(sorted, x, j, b);
    }
    InsertedBag(sorted, x, j);
  }

  lemma InsertedBag(sorted: seq<Item>, x: Item, j: nat)
    requires j <= |sorted|
    ensures multiset(sorted[..j] + ([x] + sorted[j..])) == multiset(sorted) + multiset{x}
  {
    assert sorted == sorted[..j] + sorted[j..];
  }
}
