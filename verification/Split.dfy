/** Which bucket a key belongs to, and how a sorted batch is cut along buckets (options.go, buckets.go). */
module Split {
  import opened Items
  import opened Growth

  /** What the queue needs of a split function; keys below `lowest` are not used. */
  ghost predicate SplitLaw(f: Key -> Key, lowest: Key) {
    && Monotone(f)
    && (forall k: Key {:trigger f(k)} :: k >= lowest ==> lowest <= f(k) <= k && f(f(k)) == f(k))
  }

  // ---------- Masking low bits ----------

  function Pow2(n: nat): (p: int)
    ensures p > 0
  {
    if n == 0 then 1 else 2 * Pow2(n - 1)
  }

  /** Bitwise and of two integers in two's complement with `width` bits and a sign bit. */
  function And(a: int, b: int, width: nat): int
    decreases width
  {
    if width == 0 then (if a == -1 && b == -1 then -1 else 0)
    else 2 * And(a / 2, b / 2, width - 1) + (a % 2) * (b % 2)
  }

  /** All ones, shifted left: zero once all 64 bits are shifted out. */
  function TimeMask(shift: nat): int {
    if shift >= 64 then 0 else -Pow2(shift)
  }

  lemma {:induction false} AndOnes(k: int, width: nat)
    requires -Pow2(width) <= k < Pow2(width)
    ensures And(k, -1, width) == k
    decreases width
  {
    if width > 0 {
      AndOnes(k / 2, width - 1);
    }
  }

  lemma {:induction false} AndZero(k: int, width: nat)
    ensures And(k, 0, width) == 0
    decreases width
  {
    if width > 0 {
      AndZero(k / 2, width - 1);
    }
  }

  lemma HalvedRemainder(k: int, p: nat)
    requires p > 0
    ensures k % (2 * p) == 2 * (k / 2 % p) + k % 2
  {
    var q, r := k / 2 / p, k / 2 % p;
    assert k == q * (2 * p) + (2 * r + k % 2);
    assert 0 <= 2 * r + k % 2 < 2 * p;
    RemainderUnique(k, 2 * p, q, 2 * r + k % 2);
  }

  /** Masking the low bits of a key rounds it down to a multiple of 2^shift, also below zero. */
  lemma {:induction false} AndMask(k: int, shift: nat, width: nat)
    requires shift <= width && -Pow2(width) <= k < Pow2(width)
    ensures And(k, -Pow2(shift), width) == k - k % Pow2(shift)
    decreases shift
  {
    if shift == 0 {
      AndOnes(k, width);
    } else {
      var p := Pow2(shift - 1);
      assert (-Pow2(shift)) / 2 == -p && (-Pow2(shift)) % 2 == 0;
      AndMask(k / 2, shift - 1, width - 1);
      HalvedRemainder(k, p);
    }
  }

  lemma Pow2Values()
    ensures Pow2(63) == TWO_63
  {
    assert Pow2(8) == 256;
    assert Pow2(16) == 256 * Pow2(8);
    assert Pow2(24) == 256 * Pow2(16);
    assert Pow2(32) == 256 * Pow2(24);
    assert Pow2(40) == 256 * Pow2(32);
    assert Pow2(48) == 256 * Pow2(40);
    assert Pow2(56) == 256 * Pow2(48);
    assert Pow2(63) == 128 * Pow2(56);
  }

  /** A key rounded down to a multiple of d. */
  lemma RoundDown(k: int, d: nat)
    requires d > 0
    ensures var r := k - k % d; r <= k && (r - r % d == r)
  {
    RemainderUnique(k - k % d, d, k / d, 0);
  }

  lemma FloorParts(a: int, d: nat)
    requires d > 0
    ensures a - a % d == a / d * d && a / d * d <= a < a / d * d + d
  {
  }

  lemma RoundDownMonotone(a: int, b: int, d: nat)
    requires d > 0 && a <= b
    ensures a - a % d <= b - b % d
  {
    var p, q := a / d, b / d;
    FloorParts(a, d);
    FloorParts(b, d);
    if p > q {
      MulMonotone(q + 1, p, d);
    } else {
      MulMonotone(p, q, d);
    }
  }

  /** ShiftBucketSplitConf: key & (all ones << shift). */
  function ShiftSplit(shift: nat): Key -> Key {
    (key: Key) => ShiftKey(key, shift)
  }

  function ShiftKey(key: Key, shift: nat): Key {
    ShiftInRange(key as int, shift);
    And(key as int, TimeMask(shift), 63) as Key
  }

  lemma {:induction false} ShiftInRange(k: int, shift: nat)
    requires MIN_KEY <= k <= MAX_KEY
    ensures MIN_KEY <= And(k, TimeMask(shift), 63) <= MAX_KEY
    ensures shift <= 63 ==> And(k, TimeMask(shift), 63) == k - k % Pow2(shift)
    ensures shift >= 64 ==> And(k, TimeMask(shift), 63) == 0
  {
    Pow2Values();
    if shift <= 63 {
      AndMask(k, shift, 63);
      var d := Pow2(shift);
      RoundDown(k, d);
      Pow2Divides(shift);
      RoundDownMonotone(MIN_KEY, k, d);
    } else {
      AndZero(k, 63);
    }
  }

  lemma {:induction false} Pow2Divides(shift: nat)
    requires shift <= 63
    ensures MIN_KEY % Pow2(shift) == 0
  {
    Pow2Values();
    var e := Pow2Factor(shift, 63);
    RemainderUnique(MIN_KEY, Pow2(shift), -e, 0);
  }

  lemma {:induction false} Pow2Factor(a: nat, b: nat) returns (e: int)
    requires a <= b
    ensures Pow2(b) == e * Pow2(a)
    decreases b - a
  {
    if a == b {
      e := 1;
    } else {
      var e' := Pow2Factor(a + 1, b);
      e := 2 * e';
    }
  }

  /** On every key the mask rounds down, unless all bits are shifted out. */
  lemma ShiftKeyIs(k: Key, shift: nat)
    ensures ShiftKey(k, shift) as int == if shift <= 63 then k as int - k as int % Pow2(shift) else 0
  {
    ShiftInRange(k as int, shift);
  }

  /** Shift splitting obeys the law on all keys, exactly when some bit of the key is left. */
  lemma ShiftLaw(shift: nat)
    ensures SplitLaw(ShiftSplit(shift), MIN_KEY as Key) <==> shift <= 63
  {
    hide ShiftKey;
    var f := ShiftSplit(shift);
    if shift <= 63 {
      var d := Pow2(shift);
      forall a: Key, b: Key | a <= b
        ensures f(a) <= f(b)
      {
        ShiftKeyIs(a, shift);
        ShiftKeyIs(b, shift);
        RoundDownMonotone(a as int, b as int, d);
      }
      forall k: Key
        ensures MIN_KEY as Key <= f(k) <= k && f(f(k)) == f(k)
      {
        ShiftKeyIs(k, shift);
        ShiftKeyIs(f(k), shift);
        RoundDown(k as int, d);
      }
    } else {
      ShiftKeyIs(-1, shift);
      assert f(-1) == 0;
    }
  }

  // ---------- Fixed-size buckets ----------

  /** Integer division as Go does it: truncated towards zero. */
  function TruncDiv(a: int, b: int): int
    requires b != 0
  {
    if a >= 0 then a / b else -((-a) / b)
  }

  /** The size of a bucket as a signed 64-bit integer; a size of zero counts as one. */
  function BucketSize(n: nat): int
    requires n < TWO_64
  {
    Signed64(if n == 0 then 1 else n) as int
  }

  function Magnitude(x: int): nat {
    if x < 0 then -x else x
  }

  lemma TruncMultiple(a: nat, d: int)
    requires d != 0
    ensures a / d * d == a - a % Magnitude(d)
  {
    if d < 0 {
      FloorParts(a, -d);
      assert a / d == -(a / -d);
    } else {
      FloorParts(a, d);
    }
  }

  lemma RemainderSmall(a: nat, d: nat)
    requires d > 0
    ensures 0 <= a - a % d <= a
  {
    FloorParts(a, d);
    assert a / d * d >= 0;
  }

  /** FixedSizeBucketSplitConf: (key / n) * n, which rounds towards zero. */
  function FixedKey(key: Key, n: nat): (k: Key)
    requires n < TWO_64
    ensures var d := Magnitude(BucketSize(n));
            d > 0 && k as int == if key >= 0 then key as int - key as int % d else key as int + (-(key as int)) % d
  {
    var d := BucketSize(n);
    assert d != 0;
    TruncMultiple(Magnitude(key as int), d);
    RemainderSmall(Magnitude(key as int), Magnitude(d));
    assert TruncDiv(key as int, d) * d == if key >= 0 then key as int / d * d else -((-(key as int)) / d * d);
    (TruncDiv(key as int, d) * d) as Key
  }

  /** Non-negative keys are rounded down to a multiple of the size, negative ones up; size zero counts as one. */
  lemma FixedKeyIs(k: Key, n: nat)
    requires n < 0x8000_0000_0000_0000
    ensures var d := if n == 0 then 1 else n;
            FixedKey(k, n) as int == if k >= 0 then k as int - k as int % d else k as int + (-(k as int)) % d
  {
  }

  function FixedSplit(n: nat): Key -> Key
    requires n < TWO_64
  {
    (key: Key) => FixedKey(key, n)
  }

  /** Fixed-size splitting gives a bucket key at or below the key exactly for non-negative keys and multiples. */
  lemma FixedKeyBelow(k: Key, n: nat)
    requires n < TWO_64
    ensures FixedKey(k, n) <= k <==> k >= 0 || (-(k as int)) % Magnitude(BucketSize(n)) == 0
  {
    hide FixedKey;
    RemainderSmall(Magnitude(k as int), Magnitude(BucketSize(n)));
  }

  lemma FixedMonotone(a: Key, b: Key, n: nat)
    requires n < TWO_64 && a <= b
    ensures FixedKey(a, n) <= FixedKey(b, n)
  {
    hide FixedKey;
    var d := Magnitude(BucketSize(n));
    RemainderSmall(Magnitude(a as int), d);
    RemainderSmall(Magnitude(b as int), d);
    if a >= 0 {
      RoundDownMonotone(a as int, b as int, d);
    } else if b < 0 {
      RoundDownMonotone(-(b as int), -(a as int), d);
    }
  }

  /** The law holds for non-negative keys, whatever the size; it extends to negative keys only for size one. */
  lemma FixedLaw(n: nat)
    requires n < TWO_64
    ensures SplitLaw(FixedSplit(n), 0)
    ensures SplitLaw(FixedSplit(n), MIN_KEY as Key) <==> Magnitude(BucketSize(n)) == 1
  {
    hide FixedKey, BucketSize;
    var f, d := FixedSplit(n), Magnitude(BucketSize(n));
    forall a: Key, b: Key | a <= b
      ensures f(a) <= f(b)
    {
      FixedMonotone(a, b, n);
    }
    forall k: Key
      ensures k >= 0 ==> 0 <= f(k) <= k && f(f(k)) == f(k)
    {
      if k >= 0 {
        RemainderSmall(k as int, d);
        RoundDown(k as int, d);
      }
    }
    if d != 1 {
      FixedKeyBelow(-1, n);
      assert f(-1) > -1;
    }
  }

  // ---------- The sort order of a batch ----------

  /** The comparator of Push: the difference of two keys in 64-bit arithmetic. */
  function Compare(a: Key, b: Key): Key {
    var diff := (a as int - b as int) % TWO_64;
    Signed64(diff)
  }

  /** The comparator tells the order of two keys exactly when their difference does not overflow. */
  lemma CompareExact(a: Key, b: Key)
    ensures ((Compare(a, b) < 0 <==> a < b) && (Compare(a, b) == 0 <==> a == b))
            <==> -TWO_63 <= a as int - b as int < TWO_63
  {
    var diff := a as int - b as int;
    if diff < 0 {
      assert diff % TWO_64 == diff + TWO_64;
    } else {
      assert diff % TWO_64 == diff;
    }
  }

  // ---------- Cutting a batch along buckets ----------

  /** Binary search for the end of the first bucket's run. */
  function Binsplit(items: seq<Item>, comp: Key, fn: Key -> Key): nat
    decreases items
  {
    var l := |items|;
    if l == 0 then 0
    else if l == 1 then 1
    else
      var pivotIdx := l / 2;
      var pivotKey := fn(items[pivotIdx].key);
      if pivotKey != comp then Binsplit(items[..pivotIdx], comp, fn)
      else pivotIdx + Binsplit(items[pivotIdx..], comp, fn)
  }

  ghost predicate Monotone(fn: Key -> Key) {
    forall a: Key, b: Key {:trigger fn(a), fn(b)} :: a <= b ==> fn(a) <= fn(b)
  }

  /** The first r items, at least one, are the bucket's; all later ones belong to later buckets. */
  ghost predicate RunEnd(items: seq<Item>, comp: Key, fn: Key -> Key, r: nat) {
    && 0 < r <= |items|
    && (forall i :: 0 <= i < r ==> fn(items[i].key) == comp)
    && (forall i :: r <= i < |items| ==> fn(items[i].key) > comp)
  }

  lemma RunEndLeft(items: seq<Item>, p: nat, comp: Key, fn: Key -> Key, r: nat)
    requires Sorted(items) && p < |items| && Monotone(fn)
    requires RunEnd(items[..p], comp, fn, r) && fn(items[p].key) != comp
    ensures RunEnd(items, comp, fn, r)
  {
    assert items[..p][0] == items[0] && fn(items[0].key) <= fn(items[p].key);
    forall i | r <= i < |items|
      ensures fn(items[i].key) > comp
    {
      if i < p {
        assert items[..p][i] == items[i];
      } else {
        assert fn(items[p].key) <= fn(items[i].key);
      }
    }
  }

  lemma RunEndRight(items: seq<Item>, p: nat, comp: Key, fn: Key -> Key, r: nat)
    requires Sorted(items) && p < |items| && Monotone(fn)
    requires RunEnd(items[p..], comp, fn, r) && fn(items[0].key) == comp && fn(items[p].key) == comp
    ensures RunEnd(items, comp, fn, p + r)
  {
    forall i | 0 <= i < |items|
      ensures if i < p + r then fn(items[i].key) == comp else fn(items[i].key) > comp
    {
      if i < p {
        assert fn(items[0].key) <= fn(items[i].key) <= fn(items[p].key);
      } else {
        assert items[p..][i - p] == items[i];
      }
    }
  }

  /**
   * On a sorted batch whose first item belongs to the bucket, the search finds exactly where the bucket's
   * run ends; so every round takes at least one item and the next bucket is a later one.
   */
  lemma {:induction false} BinsplitExact(items: seq<Item>, comp: Key, fn: Key -> Key)
    requires Sorted(items) && items != [] && fn(items[0].key) == comp && Monotone(fn)
    ensures RunEnd(items, comp, fn, Binsplit(items, comp, fn))
    decreases items
  {
    if |items| > 1 {
      var p := |items| / 2;
      if fn(items[p].key) != comp {
        BinsplitExact(items[..p], comp, fn);
        RunEndLeft(items, p, comp, fn, Binsplit(items[..p], comp, fn));
      } else {
        BinsplitExact(items[p..], comp, fn);
        RunEndRight(items, p, comp, fn, Binsplit(items[p..], comp, fn));
      }
    }
  }
}
