/** Items, keys, locations and their byte encoding (item/item.go). */
module Items {

  const MIN_KEY := -0x8000_0000_0000_0000
  const MAX_KEY := 0x7FFF_FFFF_FFFF_FFFF
  const TWO_32 := 0x1_0000_0000
  const TWO_63 := 0x8000_0000_0000_0000
  const TWO_64 := 0x1_0000_0000_0000_0000

  const HEADER_SIZE := 12
  const TRAILER_SIZE := 2
  const MAX_BLOB := 64 * 1024 * 1024

  /** An int64 priority key. */
  newtype Key = k: int | MIN_KEY <= k <= MAX_KEY
  type Byte = b: int | 0 <= b < 256 witness 0

  datatype Item = Item(key: Key, blob: seq<Byte>)

  /** Where a batch lives in the value log; `off` counts bytes, `len` counts items. */
  datatype Location = Location(key: Key, off: nat, len: nat)

  // ---------- Big-endian integers ----------

  function Pow256(n: nat): (p: nat)
    ensures p > 0
  {
    if n == 0 then 1 else 256 * Pow256(n - 1)
  }

  /** The n low-order bytes of v, most significant first (encoding/binary.BigEndian.PutUint). */
  function BigEndian(v: nat, n: nat): (s: seq<Byte>)
    ensures |s| == n
  {
    if n == 0 then [] else BigEndian(v / 256, n - 1) + [v % 256]
  }

  function FromBigEndian(s: seq<Byte>): (v: nat)
    ensures v < Pow256(|s|)
  {
    if s == [] then 0 else FromBigEndian(s[..|s| - 1]) * 256 + s[|s| - 1]
  }

  lemma Pow256Values()
    ensures Pow256(4) == TWO_32 && Pow256(8) == TWO_64
  {
    assert Pow256(2) == 0x1_0000;
    assert Pow256(4) == 0x1_0000_0000;
    assert Pow256(6) == 0x1_0000_0000_0000;
  }

  lemma RemainderUnique(v: int, d: nat, q: int, r: nat)
    requires d > 0 && v == q * d + r && r < d
    ensures v % d == r
  {
    var e := v / d - q;
    assert e * d == r - v % d;
    assert e > 0 ==> e * d >= d;
    assert e < 0 ==> e * d + d <= 0;
  }

  lemma ModOfSplit(v: nat, p: nat)
    requires p > 0
    ensures (v / 256) % p * 256 + v % 256 == v % (256 * p)
  {
    var a, b := (v / 256) / p, (v / 256) % p;
    assert v == a * (256 * p) + (b * 256 + v % 256);
    RemainderUnique(v, 256 * p, a, b * 256 + v % 256);
  }

  /** Writing an integer into n bytes keeps exactly its value modulo 256^n. */
  lemma {:induction false} BigEndianRoundTrip(v: nat, n: nat)
    ensures FromBigEndian(BigEndian(v, n)) == v % Pow256(n)
  {
    if n > 0 {
      var s := BigEndian(v, n);
      assert s[..n - 1] == BigEndian(v / 256, n - 1);
      BigEndianRoundTrip(v / 256, n - 1);
      ModOfSplit(v, Pow256(n - 1));
    }
  }

  lemma DivDiv(v: nat, p: nat)
    requires p > 0
    ensures v / 256 / p == v / (256 * p)
  {
    var q, r := v / 256 / p, v / 256 % p;
    var low := v % 256 + 256 * r;
    assert v == q * (256 * p) + low && low < 256 * p;
    RemainderUnique(v, 256 * p, q, low);
    QuotientUnique(v, 256 * p, q, low);
  }

  lemma QuotientUnique(v: nat, d: nat, q: nat, r: nat)
    requires d > 0 && v == q * d + r && r < d
    ensures v / d == q
  {
    var e := v / d - q;
    assert e * d == r - v % d;
    assert e > 0 ==> e * d >= d;
    assert e < 0 ==> e * d + d <= 0;
  }

  /** The byte at place i of an integer of n bytes: the first one is the most significant. */
  lemma {:induction false} BigEndianByte(v: nat, n: nat, i: nat)
    requires i < n
    ensures BigEndian(v, n)[i] == v / Pow256(n - 1 - i) % 256
  {
    if i < n - 1 {
      BigEndianByte(v / 256, n - 1, i);
      DivDiv(v, Pow256(n - 2 - i));
    }
  }

  /** The first k bytes, each at its place value. */
  ghost function PlaceValues(s: seq<Byte>, k: nat): nat
    requires k <= |s|
  {
    if k == 0 then 0 else PlaceValues(s, k - 1) + s[k - 1] * Pow256(|s| - k)
  }

  lemma {:induction false} PlaceValuesShift(s: seq<Byte>, k: nat)
    requires k < |s|
    ensures PlaceValues(s, k) == PlaceValues(s[..|s| - 1], k) * 256
  {
    if k > 0 {
      PlaceValuesShift(s, k - 1);
      var b, p := s[k - 1], Pow256(|s| - 1 - k);
      assert Pow256(|s| - k) == 256 * p;
      assert b * (256 * p) == b * p * 256;
    }
  }

  /** Reading an integer adds up its bytes at their place values. */
  lemma {:induction false} FromBigEndianPlaces(s: seq<Byte>)
    ensures FromBigEndian(s) == PlaceValues(s, |s|)
  {
    if s != [] {
      var n := |s|;
      FromBigEndianPlaces(s[..n - 1]);
      PlaceValuesShift(s, n - 1);
    }
  }

  /** Every sequence of bytes is what writing the integer it stands for gives. */
  lemma {:induction false} FromBigEndianRoundTrip(s: seq<Byte>)
    ensures BigEndian(FromBigEndian(s), |s|) == s
  {
    if s != [] {
      FromBigEndianRoundTrip(s[..|s| - 1]);
    }
  }

  /** Conversion of an int64 to uint64 and back. */
  function Unsigned64(k: Key): nat {
    if k < 0 then k as int + TWO_64 else k as int
  }

  function Signed64(v: nat): Key
    requires v < TWO_64
  {
    if v < TWO_63 then v as Key else (v - TWO_64) as Key
  }

  /** A 32-bit field reads back exactly the values that fit. */
  lemma Field32(v: nat)
    ensures FromBigEndian(BigEndian(v, 4)) == v <==> v < TWO_32
  {
    hide BigEndian, FromBigEndian, Pow256;
    BigEndianRoundTrip(v, 4);
    Pow256Values();
  }

  lemma Field64(v: nat)
    ensures FromBigEndian(BigEndian(v, 8)) == v <==> v < TWO_64
  {
    hide BigEndian, FromBigEndian, Pow256;
    BigEndianRoundTrip(v, 8);
    Pow256Values();
  }

  /** Every key survives its 64-bit field, negative ones included. */
  lemma KeyField(k: Key)
    ensures FromBigEndian(BigEndian(Unsigned64(k), 8)) < TWO_64
    ensures Signed64(FromBigEndian(BigEndian(Unsigned64(k), 8))) == k
  {
    Field64(Unsigned64(k));
  }

  // ---------- Batches ----------

  function StorageSize(it: Item): nat {
    HEADER_SIZE + |it.blob| + TRAILER_SIZE
  }

  function SizeOfAll(items: seq<Item>): (n: nat)
    ensures items != [] ==> n > 0
  {
    if items == [] then 0 else StorageSize(items[0]) + SizeOfAll(items[1..])
  }

  ghost predicate Sorted(items: seq<Item>) {
    forall i, j :: 0 <= i < j < |items| ==> items[i].key <= items[j].key
  }

  /** Items the log can read back: the payload limit of the format. */
  ghost predicate Storable(items: seq<Item>) {
    forall i :: 0 <= i < |items| ==> |items[i].blob| <= MAX_BLOB
  }

  function Encode(it: Item): (s: seq<Byte>)
    ensures |s| == StorageSize(it)
  {
    BigEndian(|it.blob|, 4) + BigEndian(Unsigned64(it.key), 8) + it.blob + [0xFF, 0xFF]
  }

  /** The field holds the integer v, the most significant byte first. */
  ghost predicate HoldsNumber(field: seq<Byte>, v: nat) {
    forall i :: 0 <= i < |field| ==> field[i] == v / Pow256(|field| - 1 - i) % 256
  }

  lemma NumberWritten(v: nat, n: nat)
    ensures HoldsNumber(BigEndian(v, n), v)
  {
    forall i | 0 <= i < |BigEndian(v, n)|
      ensures BigEndian(v, n)[i] == v / Pow256(n - 1 - i) % 256
    {
      BigEndianByte(v, n, i);
    }
  }

  lemma SameNumber(a: seq<Byte>, b: seq<Byte>, v: nat)
    requires |a| == |b| && HoldsNumber(a, v) && HoldsNumber(b, v)
    ensures a == b
  {
    hide Pow256;
  }

  lemma SmallRemainder(v: nat, d: nat)
    requires v < d
    ensures v % d == v
  {
  }

  /** A field holds exactly one number that fits it. */
  lemma NumberRead(field: seq<Byte>, v: nat)
    requires v < Pow256(|field|)
    ensures HoldsNumber(field, v) <==> FromBigEndian(field) == v
  {
    hide Pow256, BigEndian, FromBigEndian, HoldsNumber;
    BigEndianRoundTrip(v, |field|);
    SmallRemainder(v, Pow256(|field|));
    FromBigEndianRoundTrip(field);
    NumberWritten(v, |field|);
    if HoldsNumber(field, v) {
      SameNumber(field, BigEndian(v, |field|), v);
    }
  }

  /** A key in two's complement. */
  ghost predicate HoldsKey(field: seq<Byte>, k: Key) {
    HoldsNumber(field, if k < 0 then k as int + 0x1_0000_0000_0000_0000 else k as int)
  }

  /** An item as bytes: the length of the blob in four bytes, the key in eight, the blob, and the end marker. */
  ghost predicate ItemAt(s: seq<Byte>, off: nat, it: Item) {
    var end := off + 12 + |it.blob|;
    && end + 2 <= |s|
    && HoldsNumber(s[off..off + 4], |it.blob|)
    && HoldsKey(s[off + 4..off + 12], it.key)
    && s[off + 12..end] == it.blob
    && s[end..end + 2] == [0xFF, 0xFF]
  }

  lemma EncodedFields(it: Item)
    ensures var e, n := Encode(it), |it.blob|;
            && e[..4] == BigEndian(n, 4) && e[4..12] == BigEndian(Unsigned64(it.key), 8)
            && e[12..12 + n] == it.blob && e[12 + n..14 + n] == [0xFF, 0xFF] && e[12 + n] == e[13 + n] == 0xFF
  {
    var e := Encode(it);
    assert e[12..] == it.blob + [0xFF, 0xFF];
    SliceSlice(e, 12, |e|, 0, |it.blob|);
  }

  lemma SliceSlice(s: seq<Byte>, a: nat, b: nat, c: nat, d: nat)
    requires a <= b <= |s| && c <= d <= b - a
    ensures s[a..b][c..d] == s[a + c..a + d]
  {
    assert forall i :: 0 <= i < d - c ==> s[a..b][c..d][i] == s[a + c..a + d][i];
  }

  /** Encoded items have these bytes. */
  lemma EncodedBytes(s: seq<Byte>, off: nat, it: Item)
    requires off + StorageSize(it) <= |s| && s[off..off + StorageSize(it)] == Encode(it)
    ensures ItemAt(s, off, it)
  {
    hide Encode, HoldsNumber, BigEndian;
    var n := |it.blob|;
    EncodedFields(it);
    SliceSlice(s, off, off + StorageSize(it), 0, 4);
    SliceSlice(s, off, off + StorageSize(it), 4, 12);
    SliceSlice(s, off, off + StorageSize(it), 12, 12 + n);
    SliceSlice(s, off, off + StorageSize(it), 12 + n, 14 + n);
    NumberWritten(n, 4);
    NumberWritten(Unsigned64(it.key), 8);
  }

  /** Key 1 and blob "x". */
  lemma EncodedExample()
    ensures Encode(Item(1, [0x78])) == [0, 0, 0, 1, 0, 0, 0, 0, 0, 0, 0, 1, 0x78, 0xFF, 0xFF]
  {
    hide BigEndian;
    BigEndianOne(4);
    BigEndianOne(8);
    assert BigEndian(1, 4) == [0, 0, 0, 1] && BigEndian(1, 8) == [0, 0, 0, 0, 0, 0, 0, 1];
  }

  lemma {:induction false} BigEndianOne(n: nat)
    requires n > 0
    ensures BigEndian(1, n) == seq(n - 1, _ => 0) + [1]
  {
    BigEndianZero(n - 1);
  }

  lemma {:induction false} BigEndianZero(n: nat)
    ensures BigEndian(0, n) == seq(n, _ => 0)
  {
    if n > 0 {
      BigEndianZero(n - 1);
    }
  }

  function EncodeAll(items: seq<Item>): (s: seq<Byte>)
    ensures |s| == SizeOfAll(items)
  {
    if items == [] then [] else Encode(items[0]) + EncodeAll(items[1..])
  }

  /** The items stored from byte offset `off` on; empty when `off` is not an item boundary. */
  function Drop(items: seq<Item>, off: nat): (rest: seq<Item>)
    ensures |rest| <= |items|
  {
    if off == 0 then items
    else if items == [] || off < StorageSize(items[0]) then []
    else Drop(items[1..], off - StorageSize(items[0]))
  }

  lemma {:induction false} SizeOfConcat(a: seq<Item>, b: seq<Item>)
    ensures SizeOfAll(a + b) == SizeOfAll(a) + SizeOfAll(b)
    ensures EncodeAll(a + b) == EncodeAll(a) + EncodeAll(b)
  {
    if a == [] {
      assert a + b == b;
    } else {
      assert (a + b)[1..] == a[1..] + b;
      SizeOfConcat(a[1..], b);
    }
  }

  lemma SizeOfSnoc(items: seq<Item>, i: nat)
    requires i < |items|
    ensures SizeOfAll(items[..i + 1]) == SizeOfAll(items[..i]) + StorageSize(items[i])
  {
    assert items[..i + 1] == items[..i] + [items[i]];
    SizeOfConcat(items[..i], [items[i]]);
    assert SizeOfAll([items[i]]) == StorageSize(items[i]) + SizeOfAll([]);
  }

  /** Appending to the log leaves what an offset reads untouched, and extends it. */
  lemma {:induction false} DropConcat(a: seq<Item>, b: seq<Item>, off: nat)
    ensures Drop(a, off) != [] ==> Drop(a + b, off) == Drop(a, off) + b
    ensures off == SizeOfAll(a) ==> Drop(a + b, off) == b
  {
    if off == 0 {
      if a == [] { assert a + b == b; }
    } else if a == [] {
    } else if off >= StorageSize(a[0]) {
      assert (a + b)[1..] == a[1..] + b;
      DropConcat(a[1..], b, off - StorageSize(a[0]));
    }
  }

  /** Stepping over n items moves the offset by their encoded size. */
  lemma {:induction false} DropStep(items: seq<Item>, off: nat)
    requires Drop(items, off) != []
    ensures Drop(items, off + StorageSize(Drop(items, off)[0])) == Drop(items, off)[1..]
  {
    if off > 0 {
      DropStep(items[1..], off - StorageSize(items[0]));
    }
  }

  /** What an offset reads is what the bytes at that offset encode. */
  lemma {:induction false} DropEncoded(items: seq<Item>, off: nat)
    requires Drop(items, off) != []
    ensures off + SizeOfAll(Drop(items, off)) == SizeOfAll(items)
    ensures EncodeAll(items)[off..] == EncodeAll(Drop(items, off))
    ensures forall i :: 0 <= i < |Drop(items, off)| ==> Drop(items, off)[i] in items
  {
    if off > 0 {
      var s := StorageSize(items[0]);
      DropEncoded(items[1..], off - s);
      assert EncodeAll(items)[off..] == EncodeAll(items[1..])[off - s..];
    }
  }

  /** A non-empty log ends with the end marker. */
  lemma {:induction false} EncodedEnd(items: seq<Item>)
    requires items != []
    ensures EncodeAll(items)[SizeOfAll(items) - 1] == 0xFF
  {
    if |items| > 1 {
      EncodedEnd(items[1..]);
    } else {
      assert EncodeAll(items[1..]) == [];
    }
  }
}
