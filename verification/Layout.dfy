/** Bytes as they stand in a file or in memory: records written one field after the other, and their fields again. */
module Layout {
  import opened Bytes

  /** The bytes d stand in s at o. */
  predicate At(s: seq<u8>, o: nat, d: seq<u8>) {
    o + |d| <= |s| && s[o..o + |d|] == d
  }

  lemma AtParts(s: seq<u8>, o: nat, a: seq<u8>, b: seq<u8>)
    ensures At(s, o, a + b) <==> At(s, o, a) && At(s, o + |a|, b)
  {
    if o + |a + b| <= |s| {
      var d := s[o..o + |a + b|];
      assert s[o..o + |a|] == d[..|a|] && s[o + |a|..o + |a| + |b|] == d[|a|..];
      assert d == d[..|a|] + d[|a|..] && (a + b)[..|a|] == a && (a + b)[|a|..] == b;
    }
  }

  lemma AtSlice(s: seq<u8>, o: nat, d: seq<u8>, i: nat, part: seq<u8>)
    requires At(s, o, d) && i + |part| <= |d| && d[i..i + |part|] == part
    ensures At(s, o + i, part)
  {
    assert d == d[..i] + (part + d[i + |part|..]);
    AtParts(s, o, d[..i], part + d[i + |part|..]);
    AtParts(s, o + i, part, d[i + |part|..]);
  }

  lemma AtByte(s: seq<u8>, o: nat, d: seq<u8>, i: nat)
    requires At(s, o, d) && i < |d|
    ensures s[o + i] == d[i]
  {
    assert s[o..o + |d|][i] == s[o + i];
  }

  // ---- words ----

  lemma Bytes16(a: u8, b: u8)
    ensures Le16(a as int + 0x100 * (b as int)) == [a, b]
  {
  }

  lemma Halves(lo: u16, hi: u16)
    ensures var v := lo as int + 0x1_0000 * (hi as int); v % 0x1_0000 == lo && v / 0x1_0000 == hi
  {
  }

  lemma LongHalves(lo: u32, hi: u32)
    ensures var v := lo as int + 0x1_0000_0000 * (hi as int); v % 0x1_0000_0000 == lo && v / 0x1_0000_0000 == hi
  {
  }

  /** Words stand least significant byte first. */
  lemma Bytes32(a: u8, b: u8, c: u8, d: u8)
    ensures Le32(a as int + 0x100 * (b as int) + 0x1_0000 * (c as int) + 0x100_0000 * (d as int)) == [a, b, c, d]
  {
    hide Le16;
    var lo: u16, hi: u16 := a as int + 0x100 * (b as int), c as int + 0x100 * (d as int);
    Bytes16(a, b);
    Bytes16(c, d);
    Halves(lo, hi);
  }

  lemma Bytes64(lo: u32, hi: u32)
    ensures Le64(lo as int + 0x1_0000_0000 * (hi as int)) == Le32(lo) + Le32(hi)
  {
    hide Le32;
    LongHalves(lo, hi);
  }

  lemma Word16(s: seq<u8>, o: nat, v: u16)
    ensures At(s, o, Le16(v)) <==> o + 2 <= |s| && Read16(s, o) == v
  {
    if o + 2 <= |s| { assert s[o..o + 2] == [s[o], s[o + 1]]; }
  }

  lemma Word32(s: seq<u8>, o: nat, v: u32)
    ensures At(s, o, Le32(v)) <==> o + 4 <= |s| && Read32(s, o) == v
  {
    if o + 4 <= |s| {
      Bytes32(s[o], s[o + 1], s[o + 2], s[o + 3]);
      assert s[o..o + 4] == [s[o], s[o + 1], s[o + 2], s[o + 3]];
      hide Le32;
      if At(s, o, Le32(v)) { SameBytes32(s, Le32(v), o, 0); }
    }
  }

  lemma Word64(s: seq<u8>, o: nat, v: u64)
    ensures At(s, o, Le64(v)) <==> o + 8 <= |s| && Read64(s, o) == v
  {
    hide Le32, Read32, Le64;
    if o + 8 <= |s| {
      var lo, hi := Read32(s, o), Read32(s, o + 4);
      Bytes64(lo, hi);
      Word32(s, o, lo);
      Word32(s, o + 4, hi);
      AtParts(s, o, Le32(lo), Le32(hi));
      if At(s, o, Le64(v)) { SameBytes64(s, Le64(v), o, 0); }
    }
  }

  // ---- words inside a record ----

  lemma Part16(s: seq<u8>, o: nat, d: seq<u8>, i: nat, v: u16)
    requires At(s, o, d) && i + 2 <= |d| && d[i..i + 2] == Le16(v)
    ensures o + i + 2 <= |s| && Read16(s, o + i) == v
  {
    hide Le16, Read16;
    AtSlice(s, o, d, i, Le16(v));
    Word16(s, o + i, v);
  }

  lemma Part32(s: seq<u8>, o: nat, d: seq<u8>, i: nat, v: u32)
    requires At(s, o, d) && i + 4 <= |d| && d[i..i + 4] == Le32(v)
    ensures o + i + 4 <= |s| && Read32(s, o + i) == v
  {
    hide Le32, Read32;
    AtSlice(s, o, d, i, Le32(v));
    Word32(s, o + i, v);
  }

  lemma Part64(s: seq<u8>, o: nat, d: seq<u8>, i: nat, v: u64)
    requires At(s, o, d) && i + 8 <= |d| && d[i..i + 8] == Le64(v)
    ensures o + i + 8 <= |s| && Read64(s, o + i) == v
  {
    hide Le64, Read64;
    AtSlice(s, o, d, i, Le64(v));
    Word64(s, o + i, v);
  }

  // ---- tables of rows of the same length ----

  function Concat(rows: seq<seq<u8>>): seq<u8> {
    if rows == [] then [] else rows[0] + Concat(rows[1..])
  }

  predicate Even(rows: seq<seq<u8>>, n: nat) { forall i :: 0 <= i < |rows| ==> |rows[i]| == n }

  lemma {:induction false} ConcatLength(rows: seq<seq<u8>>, n: nat)
    requires Even(rows, n)
    ensures |Concat(rows)| == |rows| * n
  {
    if rows != [] {
      ConcatLength(rows[1..], n);
      Distribute(1, |rows| - 1, n);
    }
  }

  /** Row i of a table. */
  lemma {:induction false} RowAt(s: seq<u8>, o: nat, rows: seq<seq<u8>>, n: nat, i: nat)
    requires Even(rows, n) && At(s, o, Concat(rows)) && i < |rows|
    ensures 0 <= i * n && At(s, o + i * n, rows[i])
    decreases i
  {
    hide At;
    AtParts(s, o, rows[0], Concat(rows[1..]));
    if i > 0 {
      RowAt(s, o + n, rows[1..], n, i - 1);
      Distribute(1, i - 1, n);
    }
  }
}
