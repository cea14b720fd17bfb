/** Machine integers, little-endian accessors and page rounding shared by every component. */
module Bytes {
  type u8 = x: int | 0 <= x < 0x100
  type u16 = x: int | 0 <= x < 0x1_0000
  type u32 = x: int | 0 <= x < 0x1_0000_0000
  type u64 = x: int | 0 <= x < 0x1_0000_0000_0000_0000

  datatype Option<+T> = None | Some(value: T)

  const PAGE: nat := 0x1000

  /** Reduction modulo 2^32: what a C expression of type u32 holds. */
  function W32(x: nat): (r: u32)
    ensures x < 0x1_0000_0000 ==> r == x
  {
    x % 0x1_0000_0000
  }

  function Read16(s: seq<u8>, o: nat): u16
    requires o + 2 <= |s|
  {
    s[o] as int + 0x100 * (s[o + 1] as int)
  }

  function Read32(s: seq<u8>, o: nat): u32
    requires o + 4 <= |s|
  {
    Read16(s, o) as int + 0x1_0000 * (Read16(s, o + 2) as int)
  }

  function Read64(s: seq<u8>, o: nat): u64
    requires o + 8 <= |s|
  {
    Read32(s, o) as int + 0x1_0000_0000 * (Read32(s, o + 4) as int)
  }

  function Le16(v: u16): (r: seq<u8>)
    ensures |r| == 2 && Read16(r, 0) == v
  {
    [v % 0x100, v / 0x100]
  }

  function Le32(v: u32): (r: seq<u8>)
    ensures |r| == 4 && Read32(r, 0) == v
  {
    var lo, hi := Le16(v % 0x1_0000), Le16(v / 0x1_0000);
    assert [lo[0], lo[1], hi[0], hi[1]][0..2] == lo;
    [lo[0], lo[1], hi[0], hi[1]]
  }

  function Le64(v: u64): (r: seq<u8>)
    ensures |r| == 8 && Read64(r, 0) == v
  {
    var lo, hi := Le32(v % 0x1_0000_0000), Le32(v / 0x1_0000_0000);
    [lo[0], lo[1], lo[2], lo[3], hi[0], hi[1], hi[2], hi[3]]
  }

  /** The first multiple of the page size not below x, in 64-bit arithmetic. */
  function PageUp(x: u32): (r: nat)
    ensures x <= r < x + PAGE && r % PAGE == 0
  {
    (x + 0xfff) / 0x1000 * 0x1000
  }

  /** The same rounding as the loader computes it, where the addition wraps at 2^32. */
  function PageUp32(x: u32): (r: u32)
    ensures x <= 0xffff_f000 ==> r == PageUp(x)
    ensures x > 0xffff_f000 ==> r == 0
  {
    W32(x + 0xfff) / 0x1000 * 0x1000
  }

  /** s with the bytes at o replaced by d. */
  function Put(s: seq<u8>, o: nat, d: seq<u8>): (r: seq<u8>)
    requires o + |d| <= |s|
    ensures |r| == |s|
    ensures forall k :: 0 <= k < |s| ==> r[k] == if o <= k < o + |d| then d[k - o] else s[k]
  {
    s[..o] + d + s[o + |d|..]
  }

  lemma SameBytes32(s: seq<u8>, t: seq<u8>, o: nat, p: nat)
    requires o + 4 <= |s| && p + 4 <= |t| && s[o..o + 4] == t[p..p + 4]
    ensures Read32(s, o) == Read32(t, p)
  {
    var a, b := s[o..o + 4], t[p..p + 4];
    assert a[0] == s[o] && a[1] == s[o + 1] && a[2] == s[o + 2] && a[3] == s[o + 3];
    assert b[0] == t[p] && b[1] == t[p + 1] && b[2] == t[p + 2] && b[3] == t[p + 3];
  }

  lemma SameBytes64(s: seq<u8>, t: seq<u8>, o: nat, p: nat)
    requires o + 8 <= |s| && p + 8 <= |t| && s[o..o + 8] == t[p..p + 8]
    ensures Read64(s, o) == Read64(t, p)
  {
    assert s[o..o + 4] == s[o..o + 8][..4] && s[o + 4..o + 8] == s[o..o + 8][4..];
    assert t[p..p + 4] == t[p..p + 8][..4] && t[p + 4..p + 8] == t[p..p + 8][4..];
    SameBytes32(s, t, o, p);
    SameBytes32(s, t, o + 4, p + 4);
  }

  lemma MulMono(a: int, b: int, m: nat)
    requires a <= b
    ensures a * m <= b * m
  {
  }

  lemma Distribute(a: nat, b: nat, m: nat)
    ensures (a + b) * m == a * m + b * m
  {
  }

  /** memcpy to the start of a buffer. */
  method CopyInto(a: array<u8>, d: seq<u8>)
    requires |d| <= a.Length
    modifies a
    ensures a[..] == d + old(a[|d|..])
  {
    for i := 0 to |d|
      invariant forall k :: 0 <= k < i ==> a[k] == d[k]
      invariant forall k :: i <= k < a.Length ==> a[k] == old(a[k])
    {
      a[i] := d[i];
    }
  }

  // ---- hexadecimal digits ----

  function HexDigit(v: nat): char
    requires v < 16
  {
    if v < 10 then '0' + v as char else 'a' + (v - 10) as char
  }

  function HexValue(c: char): Option<nat> {
    if '0' <= c <= '9' then Some(c as nat - '0' as nat)
    else if 'a' <= c <= 'f' then Some(c as nat - 'a' as nat + 10)
    else if 'A' <= c <= 'F' then Some(c as nat - 'A' as nat + 10)
    else None
  }

  lemma HexDigitBack(v: nat)
    requires v < 16
    ensures HexValue(HexDigit(v)) == Some(v) && HexDigit(v) != '\n'
  {
  }
}
