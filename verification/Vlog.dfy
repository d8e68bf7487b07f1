/** The append-only value log and its iterator (vlog/vlog.go, vlog/iter.go). */
module Vlog {
  import opened Items
  import opened Growth

  // ---------- What locations and iterators denote ----------

  ghost predicate Readable(items: seq<Item>, loc: Location) {
    0 < loc.len <= |Drop(items, loc.off)|
  }

  /** The run of items a location stands for. */
  ghost function Run(items: seq<Item>, loc: Location): (run: seq<Item>)
    ensures Readable(items, loc) ==> |run| == loc.len > 0
  {
    var rest := Drop(items, loc.off);
    if loc.len <= |rest| then rest[..loc.len] else rest
  }

  /** Later pushes do not change what a location stands for. */
  lemma RunStable(items: seq<Item>, more: seq<Item>, loc: Location)
    requires Readable(items, loc)
    ensures Readable(items + more, loc) && Run(items + more, loc) == Run(items, loc)
  {
    DropConcat(items, more, loc.off);
  }

  /**
   * An iterator over a batch. It is copied by value into the heap of iterators, so it is a value here too.
   * `start` is the location it was created from; its key is the program's firstKey.
   */
  datatype Iter = Iter(
    start: Location,
    currOff: nat, prevOff: nat,
    item: Item,
    failed: bool,
    currLen: nat, prevLen: nat,
    exhausted: bool,
    continueOnErr: bool)
  {
    function FirstKey(): Key {
      start.key
    }

    function CurrentLocation(): Location {
      Location(item.key, prevOff, prevLen)
    }
  }

  /** An iterator that stands on an item of the log, or is used up. */
  ghost predicate Live(items: seq<Item>, it: Iter) {
    && !it.failed
    && (it.exhausted
        || (&& Readable(items, it.CurrentLocation())
            && it.item == Drop(items, it.prevOff)[0]
            && it.currLen == it.prevLen - 1
            && it.currOff == it.prevOff + StorageSize(it.item)))
  }

  /** The items an iterator still has to give, the current one included. */
  ghost function Rest(items: seq<Item>, it: Iter): seq<Item> {
    if it.exhausted then [] else Run(items, it.CurrentLocation())
  }

  /** The iterator after a successful step onto `item`. */
  function Stepped(it: Iter, item: Item): Iter
    requires it.currLen > 0
  {
    it.(item := item, prevOff := it.currOff, prevLen := it.currLen,
        currOff := it.currOff + StorageSize(item), currLen := it.currLen - 1)
  }

  datatype ReadResult = Unchanged | Damaged | Parsed(item: Item)

  /** The file image of a log: the encoded items, then zeros up to the allocated size. */
  ghost predicate IsImage(file: seq<Byte>, items: seq<Item>) {
    && Storable(items)
    && EncodeAll(items) <= file
    && forall i :: SizeOfAll(items) <= i < |file| ==> file[i] == 0
  }

  function Put(s: seq<Byte>, off: nat, t: seq<Byte>): (r: seq<Byte>)
    requires off + |t| <= |s|
    ensures |r| == |s|
  {
    s[..off] + t + s[off + |t|..]
  }

  lemma PutSlice(s: seq<Byte>, off: nat, t: seq<Byte>)
    requires off + |t| <= |s|
    ensures Put(s, off, t)[off..off + |t|] == t
  {
  }

  /** Adjacent writes are one write. */
  lemma PutPut(s: seq<Byte>, off: nat, a: seq<Byte>, b: seq<Byte>)
    requires off + |a| + |b| <= |s|
    ensures Put(Put(s, off, a), off + |a|, b) == Put(s, off, a + b)
  {
    var p := Put(s, off, a);
    assert p[..off + |a|] == s[..off] + a;
    assert p[off + |a| + |b|..] == s[off + |a| + |b|..];
  }

  lemma PutTwo(s: seq<Byte>, off: nat, x: Byte, y: Byte)
    requires off + 2 <= |s|
    ensures s[off := x][off + 1 := y] == Put(s, off, [x, y])
  {
  }

  /** The item at `off`, checked the way readItemAt checks it; `size` is the end of the data. */
  function ParseItem(s: seq<Byte>, size: nat, off: nat): ReadResult
    requires size <= |s|
  {
    if off + HEADER_SIZE >= size then Unchanged
    else
      Pow256Values();
      var siz := FromBigEndian(s[off..off + 4]);
      var key := Signed64(FromBigEndian(s[off + 4..off + 12]));
      var blobOff := off + HEADER_SIZE;
      var trailerOff := blobOff + siz;
      if siz > MAX_BLOB then Damaged
      else if trailerOff + TRAILER_SIZE > size then Damaged
      else if s[trailerOff] != 0xFF && s[trailerOff + 1] != 0xFF then Damaged
      else Parsed(Item(key, s[blobOff..trailerOff]))
  }

  /** Parsing inverts encoding, wherever in the log the item lies. */
  lemma ParseEncoded(s: seq<Byte>, size: nat, off: nat, it: Item)
    requires off + StorageSize(it) <= size <= |s| && |it.blob| <= MAX_BLOB
    requires s[off..off + StorageSize(it)] == Encode(it)
    ensures ParseItem(s, size, off) == Parsed(it)
  {
    var n, e := StorageSize(it), Encode(it);
    EncodedFields(it);
    SliceSlice(s, off, off + n, 0, 4);
    SliceSlice(s, off, off + n, 4, 12);
    SliceSlice(s, off, off + n, 12, 12 + |it.blob|);
    assert s[off..off + 4] == BigEndian(|it.blob|, 4);
    assert s[off + 4..off + 12] == BigEndian(Unsigned64(it.key), 8);
    assert s[off + 12..off + 12 + |it.blob|] == it.blob;
    assert s[off + 12 + |it.blob|] == e[12 + |it.blob|];
    Field32(|it.blob|);
    KeyField(it.key);
  }

  /**
   * What lies at a position, whatever the bytes are. An item is there if its header fits and tells an
   * allowed length, and if the blob and its end marker fit, of which one byte is enough. Behind the last
   * header nothing is read; everything else is damage.
   */
  lemma ParseExact(s: seq<Byte>, size: nat, off: nat, it: Item)
    requires size <= |s|
    ensures ParseItem(s, size, off) == Unchanged <==> off + 12 >= size
    ensures var end := off + 12 + |it.blob|;
            ParseItem(s, size, off) == Parsed(it)
            <==> && |it.blob| <= 64 * 1024 * 1024 && end + 2 <= size
                 && HoldsNumber(s[off..off + 4], |it.blob|) && HoldsKey(s[off + 4..off + 12], it.key)
                 && s[off + 12..end] == it.blob
                 && (s[end] == 0xFF || s[end + 1] == 0xFF)
  {
    hide FromBigEndian, HoldsNumber, Pow256;
    Pow256Values();
    if off + 12 < size && |it.blob| <= MAX_BLOB {
      var siz, key := FromBigEndian(s[off..off + 4]), FromBigEndian(s[off + 4..off + 12]);
      NumberRead(s[off..off + 4], |it.blob|);
      NumberRead(s[off + 4..off + 12], Unsigned64(it.key));
      KeyOfNumber(key, it.key);
    }
  }

  lemma KeyOfNumber(v: nat, k: Key)
    requires v < TWO_64
    ensures Signed64(v) == k <==> v == Unsigned64(k)
  {
  }

  // ---------- Finding the way back after damage ----------

  /** The first position behind an end marker that starts after `off`, or the end of the data. */
  ghost predicate Resumes(s: seq<Byte>, size: nat, off: nat, next: nat)
    requires size <= |s|
  {
    && off < next <= size
    && (next < size ==> off + 3 <= next && s[next - 2] == s[next - 1] == 0xFF)
    && forall i :: off < i && i + 2 < next ==> !(s[i] == s[i + 1] == 0xFF)
  }

  lemma ResumesOnce(s: seq<Byte>, size: nat, off: nat, a: nat, b: nat)
    requires size <= |s| && Resumes(s, size, off, a) && Resumes(s, size, off, b)
    ensures a == b
  {
  }

  ghost function ResumeAt(s: seq<Byte>, size: nat, off: nat, idx: nat): (next: nat)
    requires off < idx <= size <= |s|
    requires forall i :: off < i < idx && i + 1 < size ==> !(s[i] == s[i + 1] == 0xFF)
    ensures Resumes(s, size, off, next)
    decreases size - idx
  {
    if idx + 1 >= size then size
    else if s[idx] == s[idx + 1] == 0xFF then (if idx + 2 >= size then size else idx + 2)
    else ResumeAt(s, size, off, idx + 1)
  }

  /** The first position from `off` on, resuming behind markers, that is not damaged; or the end of the data. */
  ghost function FirstSound(s: seq<Byte>, size: nat, off: nat): (p: nat)
    requires size <= |s|
    ensures p <= size && (off < size ==> off <= p)
    ensures p < size ==> ParseItem(s, size, p) != Damaged
    decreases size - off
  {
    if off >= size then size
    else if ParseItem(s, size, off) != Damaged then off
    else FirstSound(s, size, ResumeAt(s, size, off, off + 1))
  }

  /** Positions tried one after the other: each but the last is damaged, and the next one is where it resumes. */
  ghost predicate Tried(s: seq<Byte>, size: nat, chain: seq<nat>)
    requires size <= |s|
  {
    && chain != []
    && (forall i :: 0 <= i < |chain| ==> chain[i] < size)
    && (forall i :: 0 <= i < |chain| - 1 ==>
          ParseItem(s, size, chain[i]) == Damaged && Resumes(s, size, chain[i], chain[i + 1]))
  }

  /**
   * Where a step gets to: it tries positions until one is not damaged, or until the last one resumes at the
   * end of the data.
   */
  lemma {:induction false} FirstSoundExact(s: seq<Byte>, size: nat, chain: seq<nat>)
    requires size <= |s| && Tried(s, size, chain)
    ensures var last := chain[|chain| - 1];
            && (ParseItem(s, size, last) != Damaged ==> FirstSound(s, size, chain[0]) == last)
            && (ParseItem(s, size, last) == Damaged && Resumes(s, size, last, size) ==>
                  FirstSound(s, size, chain[0]) == size)
  {
    hide ParseItem;
    if ParseItem(s, size, chain[0]) == Damaged {
      var next := ResumeAt(s, size, chain[0], chain[0] + 1);
      if |chain| > 1 {
        ResumesOnce(s, size, chain[0], next, chain[1]);
        FirstSoundExact(s, size, chain[1..]);
      } else if Resumes(s, size, chain[0], size) {
        ResumesOnce(s, size, chain[0], next, size);
      }
    }
  }

  lemma {:induction false} FirstSoundTried(s: seq<Byte>, size: nat, off: nat) returns (chain: seq<nat>)
    requires off < size <= |s|
    ensures Tried(s, size, chain) && chain[0] == off
    ensures var p, last := FirstSound(s, size, off), chain[|chain| - 1];
            if p < size then last == p else ParseItem(s, size, last) == Damaged && Resumes(s, size, last, size)
    decreases size - off
  {
    hide ParseItem;
    chain := [off];
    if ParseItem(s, size, off) == Damaged {
      var next := ResumeAt(s, size, off, off + 1);
      if next < size {
        var rest := FirstSoundTried(s, size, next);
        chain := [off] + rest;
        assert forall i :: 0 < i < |chain| ==> chain[i] == rest[i - 1];
      }
    }
  }

  /** The step of an iterator onto what lies at position p; behind the last header its item stays. */
  ghost function StepOnto(s: seq<Byte>, size: nat, it: Iter, p: nat): Iter
    requires size <= |s| && it.currLen > 0
  {
    var r := ParseItem(s, size, p);
    Stepped(it.(currOff := p), if r.Parsed? then r.item else it.item)
  }

  /** Different batches have different encodings. */
  lemma {:induction false} EncodingUnique(a: seq<Item>, b: seq<Item>)
    requires Storable(a) && Storable(b) && EncodeAll(a) == EncodeAll(b)
    ensures a == b
  {
    if a == [] || b == [] {
      assert |EncodeAll(a)| == SizeOfAll(a) && |EncodeAll(b)| == SizeOfAll(b);
    } else {
      var e := EncodeAll(a);
      assert e == Encode(a[0]) + EncodeAll(a[1..]) == Encode(b[0]) + EncodeAll(b[1..]);
      ParseEncoded(e, |e|, 0, a[0]);
      ParseEncoded(e, |e|, 0, b[0]);
      assert EncodeAll(a[1..]) == e[StorageSize(a[0])..] == EncodeAll(b[1..]);
      EncodingUnique(a[1..], b[1..]);
      assert a == [a[0]] + a[1..] && b == [b[0]] + b[1..];
    }
  }

  /** The bytes of an intact log file determine its items. */
  lemma ImageUnique(file: seq<Byte>, a: seq<Item>, b: seq<Item>)
    requires IsImage(file, a) && IsImage(file, b)
    ensures a == b
  {
    if SizeOfAll(a) < SizeOfAll(b) {
      EncodedEnd(b);
    } else if SizeOfAll(b) < SizeOfAll(a) {
      EncodedEnd(a);
    }
    assert EncodeAll(a) == file[..SizeOfAll(a)] && EncodeAll(b) == file[..SizeOfAll(b)];
    EncodingUnique(a, b);
  }

  /** Writing an encoded item at the end of the data extends the image by that item. */
  lemma ImageStep(file: seq<Byte>, items: seq<Item>, it: Item)
    requires IsImage(file, items) && |it.blob| <= MAX_BLOB
    requires SizeOfAll(items) + StorageSize(it) <= |file|
    ensures SizeOfAll(items + [it]) == SizeOfAll(items) + StorageSize(it)
    ensures IsImage(Put(file, SizeOfAll(items), Encode(it)), items + [it])
  {
    SizeOfConcat(items, [it]);
    assert EncodeAll([it]) == Encode(it) + EncodeAll([]) == Encode(it);
    assert SizeOfAll([it]) == |EncodeAll([it])|;
    assert file[..SizeOfAll(items)] == EncodeAll(items);
  }

  class Log {
    var mmap: array<Byte>
    var size: nat
    var isEmpty: bool
    const page: nat
    ghost var items: seq<Item>

    /** All that a damaged log still guarantees. */
    ghost predicate InBounds()
      reads this
    {
      page > 0 && size <= mmap.Length
    }

    ghost predicate Valid()
      reads this, mmap
    {
      && Holds(items)
      && (isEmpty ==> items == [])
    }

    /**
     * Maps the log file. Damaged files are accepted; on an intact image the scan for the last
     * non-zero byte recovers the exact end of the data.
     */
    constructor Open(file: seq<Byte>, page: nat, ghost content: seq<Item>)
      requires page > 0
      ensures fresh(mmap) && this.page == page && items == content
      ensures InBounds()
      ensures isEmpty <==> file == []
      ensures mmap[..] == if file == [] then seq(NextSize(0, page), _ => 0) else file
      ensures size <= |file| && (size > 0 ==> file[size - 1] != 0) && forall i :: size <= i < |file| ==> file[i] == 0
      ensures IsImage(file, content) ==> Valid()
    {
      this.page := page;
      items := content;
      isEmpty := file == [];
      var n := if |file| == 0 then NextSize(0, page) else |file|;
      mmap := new Byte[n](i => if 0 <= i < |file| then file[i] else 0);
      size := |file|;
      new;
      assert mmap[..] == if file == [] then seq(NextSize(0, page), _ => 0) else file;
      var end := Shrink();
      size := end;
      if IsImage(file, content) && content != [] {
        EncodedEnd(content);
      }
    }

    /** The index just past the last non-zero byte. */
    method Shrink() returns (end: nat)
      requires InBounds()
      ensures end <= size
      ensures end > 0 ==> mmap[end - 1] != 0
      ensures forall i :: end <= i < size ==> mmap[i] == 0
    {
      end := size;
      while end > 0 && mmap[end - 1] == 0
        invariant end <= size
        invariant forall i :: end <= i < size ==> mmap[i] == 0
      {
        end := end - 1;
      }
    }

    method PutBytes(off: nat, s: seq<Byte>)
      requires off + |s| <= mmap.Length
      modifies mmap
      ensures mmap[..] == Put(old(mmap[..]), off, s)
    {
      forall i | 0 <= i < |s| {
        mmap[off + i] := s[i];
      }
    }

    method WriteItem(it: Item)
      requires size + StorageSize(it) <= mmap.Length && |it.blob| < TWO_32
      modifies mmap, `size
      ensures size == old(size) + StorageSize(it)
      ensures mmap[..] == Put(old(mmap[..]), old(size), Encode(it))
      ensures ItemAt(mmap[..], old(size), it)
    {
      hide ItemAt, BigEndian;
      var off := size;
      ghost var was := mmap[..];
      var length, key := BigEndian(|it.blob|, 4), BigEndian(Unsigned64(it.key), 8);
      PutBytes(off, length);
      off := off + 4;
      PutBytes(off, key);
      off := off + 8;
      PutPut(was, size, length, key);
      PutBytes(off, it.blob);
      off := off + |it.blob|;
      PutPut(was, size, length + key, it.blob);
      ghost var body := mmap[..];
      mmap[off] := 0xFF;
      mmap[off + 1] := 0xFF;
      assert mmap[..] == body[off := 0xFF][off + 1 := 0xFF];
      PutTwo(body, off, 0xFF, 0xFF);
      PutPut(was, size, length + key + it.blob, [0xFF, 0xFF]);
      size := off + TRAILER_SIZE;
      PutSlice(was, old(size), Encode(it));
      EncodedBytes(mmap[..], old(size), it);
    }

    /** Enlarges the mapping; the file system fills the new part with zeros. */
    method Remap(n: nat)
      requires InBounds() && n >= mmap.Length
      modifies `mmap
      ensures fresh(mmap) && mmap[..] == old(mmap[..]) + seq(n - old(mmap.Length), _ => 0)
    {
      var grown := new Byte[n](i requires 0 <= i < n reads this, mmap => if i < mmap.Length then mmap[i] else 0);
      mmap := grown;
    }

    ghost predicate Holds(content: seq<Item>)
      reads this, mmap
    {
      && InBounds()
      && IsImage(mmap[..], content)
      && size == SizeOfAll(content)
    }

    method WriteItems(batch: seq<Item>, ghost content: seq<Item>)
      requires Holds(content) && Storable(batch)
      requires size + SizeOfAll(batch) <= mmap.Length
      modifies mmap, `size
      ensures Holds(content + batch)
    {
      hide ItemAt, Encode, EncodeAll, IsImage;
      var i := 0;
      assert content + batch[..0] == content;
      while i < |batch|
        invariant 0 <= i <= |batch|
        invariant Holds(content + batch[..i])
        invariant size + SizeOfAll(batch[i..]) <= mmap.Length
      {
        ImageStep(mmap[..], content + batch[..i], batch[i]);
        assert content + batch[..i] + [batch[i]] == content + batch[..i + 1];
        assert batch[i..][1..] == batch[i + 1..];
        WriteItem(batch[i]);
        i := i + 1;
      }
      assert batch[..|batch|] == batch;
    }

    /** Appends a batch; the location returned stands for exactly these items. */
    method Push(batch: seq<Item>) returns (loc: Location)
      requires Valid() && batch != [] && Storable(batch)
      modifies this, mmap
      ensures Valid() && items == old(items) + batch && !isEmpty
      ensures mmap == old(mmap) || fresh(mmap)
      ensures loc == Location(batch[0].key, old(size), |batch|)
      ensures var n := NextSize(old(size) + SizeOfAll(batch), page);
              mmap.Length == if n > old(mmap.Length) then n else old(mmap.Length)
      ensures Readable(items, loc) && Run(items, loc) == batch
    {
      loc := Location(batch[0].key, size, |batch|);
      var need := size + SizeOfAll(batch);
      var next := NextSize(need, page);
      NextSizeBounds(need, page);
      if next > mmap.Length {
        Remap(next);
      }
      WriteItems(batch, items);
      DropConcat(items, batch, old(size));
      items := items + batch;
      isEmpty := false;
    }

    function At(loc: Location, continueOnErr: bool): Iter {
      Iter(loc, loc.off, 0, Item(0, []), false, loc.len, 0, false, continueOnErr)
    }

    /** The start of the next item after damage: just past the next end marker. */
    method FindNextItem(off: nat) returns (next: nat)
      requires InBounds() && off < size
      ensures Resumes(mmap[..], size, off, next)
    {
      var idx := off + 1;
      while idx < size - 1
        invariant off < idx <= size
        invariant forall i :: off < i < idx && i + 1 < size ==> !(mmap[i] == mmap[i + 1] == 0xFF)
      {
        if mmap[idx] == 0xFF && mmap[idx + 1] == 0xFF {
          if idx + 2 >= size {
            return size;
          }
          return idx + 2;
        }
        idx := idx + 1;
      }
      return size;
    }

    function ReadItemAt(off: nat): ReadResult
      requires InBounds()
      reads this, mmap
    {
      ParseItem(mmap[..], size, off)
    }

    /** On an intact log every stored item is read back byte for byte. */
    lemma ReadsBack(off: nat)
      requires Valid() && Drop(items, off) != []
      ensures off < size && ReadItemAt(off) == Parsed(Drop(items, off)[0])
    {
      var it := Drop(items, off)[0];
      DropEncoded(items, off);
      assert it in items;
      var bytes := EncodeAll(items);
      assert bytes[off..][..StorageSize(it)] == Encode(it);
      SliceSlice(bytes, off, |bytes|, 0, StorageSize(it));
      assert mmap[..][..size] == bytes;
      SliceSlice(mmap[..], 0, size, off, off + StorageSize(it));
      ParseEncoded(mmap[..], size, off, it);
    }

    /**
     * One step of an iterator. Whatever the bytes are, it steps onto the first position that is not damaged,
     * or fails at the first one that is, as the error mode says. It moves forward and stays inside the log,
     * so every scan ends. On an intact log the step is exact.
     */
    method Next(it: Iter) returns (nx: Iter, ok: bool)
      requires InBounds()
      ensures ok ==> it.currOff < nx.currOff && it.currOff < size && nx.currLen == it.currLen - 1
      ensures nx.exhausted == !ok && nx.start == it.start && nx.continueOnErr == it.continueOnErr
      ensures nx.failed ==> it.failed || !it.continueOnErr
      ensures it.exhausted || it.currLen == 0 || it.currOff >= size ==> nx == it.(exhausted := true)
      ensures !it.exhausted && it.currLen > 0 && it.currOff < size && !it.continueOnErr ==>
                && (ok <==> ReadItemAt(it.currOff) != Damaged)
                && nx == if ok then StepOnto(mmap[..], size, it, it.currOff) else it.(failed := true, exhausted := true)
      ensures !it.exhausted && it.currLen > 0 && it.currOff < size && it.continueOnErr ==>
                && (ok <==> FirstSound(mmap[..], size, it.currOff) < size)
                && nx == if ok then StepOnto(mmap[..], size, it, FirstSound(mmap[..], size, it.currOff))
                         else it.(currOff := size, exhausted := true)
      ensures Valid() && !it.exhausted && it.currLen > 0 && Drop(items, it.currOff) != [] ==>
                ok && nx == Stepped(it, Drop(items, it.currOff)[0])
    {
      nx := it;
      if Valid() && Drop(items, it.currOff) != [] {
        ReadsBack(it.currOff);
      }
      if it.currLen == 0 || it.exhausted || it.currOff >= size {
        nx := nx.(exhausted := true);
        return nx, false;
      }
      while true
        invariant it.currOff <= nx.currOff < size
        invariant nx == it.(currOff := nx.currOff)
        invariant Valid() && Drop(items, it.currOff) != [] ==> nx == it
        invariant nx != it ==> it.continueOnErr
        invariant FirstSound(mmap[..], size, nx.currOff) == FirstSound(mmap[..], size, it.currOff)
        decreases size - nx.currOff
      {
        match ReadItemAt(nx.currOff) {
          case Parsed(item) =>
            return Stepped(nx, item), true;
          case Unchanged =>
            return Stepped(nx, nx.item), true;
          case Damaged =>
            if !nx.continueOnErr {
              return nx.(failed := true, exhausted := true), false;
            }
            var next := FindNextItem(nx.currOff);
            ResumesOnce(mmap[..], size, nx.currOff, next, ResumeAt(mmap[..], size, nx.currOff, nx.currOff + 1));
            nx := nx.(currOff := next);
            if next >= size {
              return nx.(exhausted := true), false;
            }
        }
      }
    }
  }
}
