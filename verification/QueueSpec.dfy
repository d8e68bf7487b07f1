/** The bucket set as a value: what every fork holds, spread over the buckets (buckets.go). */
module QueueSpec {
  import opened Items
  import opened Vlog
  import opened IndexSpec
  import opened Contents
  import opened BucketSpec
  import opened Reopen

  /** Buckets by their key. */
  type Store = map<Key, Value>

  function ForkSet(forks: seq<ForkName>): set<ForkName> {
    set f | f in forks
  }

  /** The forks and the main queue. */
  function Names(forks: seq<ForkName>): set<ForkName> {
    ForkSet(forks) + {MAIN}
  }

  /** The files of a bucket that is not loaded. */
  ghost predicate FilesOk(files: Disk, v: Value, key: Key, forks: seq<ForkName>) {
    DiskOk(files, v, key, ForkSet(forks)) && files.files.Keys == Names(forks)
  }

  /** All items of a fork, over all buckets. */
  ghost function Held(s: Store, f: ForkName): multiset<Item>
    decreases |s|
  {
    if s == map[] then multiset{}
    else
      var k := MinKey(s.Keys);
      ForkContent(s[k], f) + Held(s - {k}, f)
  }

  /** A bucket knows all forks, and all it ever stored belongs to it. */
  ghost predicate BucketOk(v: Value, key: Key, split: Key -> Key, names: set<ForkName>) {
    && ValueOk(v, key)
    && v.forks.Keys == names
    && forall i :: 0 <= i < |v.items| ==> split(v.items[i].key) == key
  }

  ghost predicate StoreOk(s: Store, split: Key -> Key, names: set<ForkName>) {
    forall k :: k in s ==> BucketOk(s[k], k, split, names)
  }

  /** An index holds only items of its log. */
  lemma ContentFromLog(items: seq<Item>, m: Locs, x: Item)
    requires IndexOk(items, m) && x in Content(items, m)
    ensures x in items
  {
    TotalMembers(Flatten(m), Bag(items), x);
    var loc :| loc in Flatten(m) && x in Bag(items)(loc);
    var i :| 0 <= i < |Flatten(m)| && Flatten(m)[i] == loc;
    var run := Run(items, Flatten(m)[i]);
    DropEncoded(items, Flatten(m)[i].off);
    assert x in run;
  }

  lemma PlacedContent(v: Value, key: Key, split: Key -> Key, names: set<ForkName>, f: ForkName, x: Item)
    requires BucketOk(v, key, split, names) && x in ForkContent(v, f)
    ensures split(x.key) == key
  {
    ContentOfFork(v, key, f);
    ContentFromLog(v.items, v.forks[f].state.m, x);
  }

  lemma {:induction false} HeldSplit(s: Store, k: Key, f: ForkName)
    requires k in s
    ensures Held(s, f) == ForkContent(s[k], f) + Held(s - {k}, f)
    decreases |s|
  {
    hide ForkContent;
    var k0 := MinKey(s.Keys);
    if k != k0 {
      HeldSplit(s - {k0}, k, f);
      MinKeyIs((s - {k}).Keys, k0);
      assert s - {k0} - {k} == s - {k} - {k0};
    }
  }

  /** An item of a fork lies in exactly the bucket its key maps to. */
  lemma {:induction false} HeldAt(s: Store, split: Key -> Key, names: set<ForkName>, f: ForkName, x: Item)
    requires StoreOk(s, split, names)
    ensures Held(s, f)[x] == if split(x.key) in s then ForkContent(s[split(x.key)], f)[x] else 0
    decreases |s|
  {
    hide ForkContent, BucketOk;
    if s != map[] {
      var k := MinKey(s.Keys);
      HeldAt(s - {k}, split, names, f, x);
      if x in ForkContent(s[k], f) {
        PlacedContent(s[k], k, split, names, f, x);
      }
    }
  }

  // ---------- Loading and evicting ----------

  /** One bucket was created or changed, all others are as before. */
  ghost predicate OnlyChanged(a: Store, b: Store, k: Key) {
    b.Keys == a.Keys + {k} && forall j :: j in a && j != k ==> b[j] == a[j]
  }

  /** Loading a bucket changes nothing a fork can see; a bucket that did not exist is created empty. */
  ghost predicate Reloaded(a: Store, b: Store, k: Key, forks: set<ForkName>) {
    && OnlyChanged(a, b, k)
    && SameContents(if k in a then a[k] else EmptyValue(forks), b[k])
  }

  lemma ReloadedBucket(a: Store, b: Store, k: Key, forks: set<ForkName>, f: ForkName)
    requires Reloaded(a, b, k, forks)
    ensures ForkContent(b[k], f) == if k in a then ForkContent(a[k], f) else multiset{}
  {
    hide SameContents, ForkContent, EmptyValue, DiskOk, AllPersisted;
    if k in a {
      SameForkContent(a[k], b[k], f);
    } else {
      EmptyDiskOk(k, forks);
      SameForkContent(EmptyValue(forks), b[k], f);
    }
  }

  lemma OnlyChangedHeld(a: Store, b: Store, k: Key, f: ForkName)
    requires OnlyChanged(a, b, k)
    ensures Held(b, f) + (if k in a then ForkContent(a[k], f) else multiset{}) == Held(a, f) + ForkContent(b[k], f)
  {
    hide ForkContent;
    HeldSplit(b, k, f);
    assert b - {k} == a - {k};
    if k in a {
      HeldSplit(a, k, f);
    } else {
      assert a - {k} == a;
    }
  }

  lemma SameRest<T>(x: multiset<T>, y: multiset<T>, a: multiset<T>)
    requires x + a == y + a
    ensures x == y
  {
    assert (x + a) - a == x && (y + a) - a == y;
  }

  lemma ReloadedHeld(a: Store, b: Store, k: Key, forks: set<ForkName>, f: ForkName)
    requires Reloaded(a, b, k, forks)
    ensures Held(b, f) == Held(a, f)
  {
    hide SameContents, ForkContent, EmptyValue, Held;
    ReloadedBucket(a, b, k, forks, f);
    OnlyChangedHeld(a, b, k, f);
    SameRest(Held(b, f), Held(a, f), ForkContent(b[k], f));
  }

  lemma ReloadedAll(a: Store, b: Store, k: Key, forks: set<ForkName>)
    requires Reloaded(a, b, k, forks)
    ensures forall f :: Held(b, f) == Held(a, f)
  {
    hide Reloaded, Held;
    forall f
      ensures Held(b, f) == Held(a, f)
    {
      ReloadedHeld(a, b, k, forks, f);
    }
  }

  lemma NoForksIn(forks: seq<ForkName>)
    ensures ForkSet(forks) == {} <==> forks == []
  {
    if forks != [] {
      assert forks[0] in ForkSet(forks);
    }
  }

  /** Dropping a bucket that no fork has items in. */
  lemma DroppedHeld(s: Store, k: Key, f: ForkName)
    requires k in s && ForkContent(s[k], f) == multiset{}
    ensures Held(s - {k}, f) == Held(s, f)
  {
    HeldSplit(s, k, f);
  }
}
