/** What two copies of an index share: the memory behind its location lists (Copy and Set in index/index.go). */
module Slices {
  import opened Items

  /** The first len elements of a buffer; what lies behind them is spare capacity. */
  datatype Slice = Slice(buf: array<Location>, len: nat)

  /** Appends in the spare capacity if there is any, and in a larger buffer otherwise. */
  method Append(s: Slice, loc: Location, grown: nat) returns (r: Slice)
    requires s.len <= s.buf.Length && s.len < grown
    modifies s.buf
    ensures r.len == s.len + 1 <= r.buf.Length
    ensures r.buf[..r.len] == old(s.buf[..s.len]) + [loc]
    ensures s.len < s.buf.Length ==> r.buf == s.buf
    ensures s.len == s.buf.Length ==> fresh(r.buf) && r.buf.Length == grown && s.buf[..] == old(s.buf[..])
  {
    var buf := s.buf;
    if s.len == s.buf.Length {
      buf := new Location[grown](i => loc);
      forall i | 0 <= i < s.len {
        buf[i] := s.buf[i];
      }
    }
    buf[s.len] := loc;
    r := Slice(buf, s.len + 1);
  }

  /**
   * Two forks take over the same list and each appends a location to it. The first one keeps its own if and
   * only if there was no spare capacity, or both append the same; otherwise it gets that of the other.
   */
  method AppendToCopies(s: Slice, x: Location, y: Location, grown: nat) returns (a: Slice, b: Slice)
    requires s.len <= s.buf.Length && s.len < grown
    modifies s.buf
    ensures a.len == b.len == s.len + 1 && a.len <= a.buf.Length && b.len <= b.buf.Length
    ensures b.buf[..b.len] == old(s.buf[..s.len]) + [y]
    ensures a.buf[..a.len] == old(s.buf[..s.len]) + [if s.len < s.buf.Length then y else x]
    ensures a.buf[..a.len] == old(s.buf[..s.len]) + [x] <==> s.len == s.buf.Length || x == y
  {
    ghost var was := s.buf[..s.len];
    a := Append(s, x, grown);
    assert s.buf[..s.len] == was by { assert a.buf[..a.len][..s.len] == was; }
    b := Append(s, y, grown);
    assert a.buf[..a.len] == was + [a.buf[s.len]];
    assert (was + [x])[s.len] == x && (was + [y])[s.len] == y;
  }
}
