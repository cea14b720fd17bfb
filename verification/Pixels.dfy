/** Image processing of the legacy scan path: fixed-pattern-noise correction and histogram stretch, both in place
    on the frame buffer (src/ft9201.c, state SCAN_SUBMIT). */
module Pixels {
  import opened Bytes

  function Clamp(v: int): u8 { if v < 0 then 0 else if v > 255 then 255 else v }

  function Corrected(p: u8, b: u8): u8 { Clamp(p as int - b as int + 128) }

  function Fpn(img: seq<u8>, bg: seq<u8>): (r: seq<u8>)
    requires |img| == |bg|
    ensures |r| == |img|
  {
    seq(|img|, i requires 0 <= i < |img| => Corrected(img[i], bg[i]))
  }

  /** Smallest grey level, 255 for an empty image. */
  function Lo(img: seq<u8>): u8 {
    if img == [] then 255
    else
      var l, p := Lo(img[..|img| - 1]), img[|img| - 1];
      if p < l then p else l
  }

  /** Largest grey level, 0 for an empty image. */
  function Hi(img: seq<u8>): u8 {
    if img == [] then 0
    else
      var h, p := Hi(img[..|img| - 1]), img[|img| - 1];
      if p > h then p else h
  }

  lemma {:induction false} Extremes(img: seq<u8>)
    ensures forall p :: p in img ==> Lo(img) <= p <= Hi(img)
    ensures img != [] ==> Lo(img) in img && Hi(img) in img
  {
    if img != [] {
      var rest, last := img[..|img| - 1], img[|img| - 1];
      Extremes(rest);
      assert forall p :: p in img <==> p in rest || p == last;
    }
  }

  /** Lower and upper bounds that are attained are the extremes. */
  lemma ExtremesUnique(img: seq<u8>, lo: u8, hi: u8)
    requires lo in img && hi in img && forall p :: p in img ==> lo <= p <= hi
    ensures Lo(img) == lo && Hi(img) == hi
  {
    Extremes(img);
  }

  /** One pixel of the stretch: the grey levels lo..hi are spread over 0..255. */
  function Spread(p: u8, lo: u8, hi: u8): (r: u8)
    requires lo <= p <= hi && lo < hi
  {
    SpreadFits(p as int - lo as int, hi as int - lo as int);
    (p as int - lo as int) * 255 / (hi as int - lo as int)
  }

  lemma SpreadFits(x: int, d: int)
    requires 0 <= x <= d && 0 < d
    ensures 0 <= x * 255 / d <= 255
    ensures d * 255 / d == 255
  {
    assert x * 255 <= d * 255;
    DivBounds(x * 255, d);
    DivBounds(d * 255, d);
    if x * 255 / d > 255 { MulMono(256, x * 255 / d, d); }
    if d * 255 / d > 255 { MulMono(256, d * 255 / d, d); }
    if d * 255 / d < 255 { MulMono(d * 255 / d, 254, d); }
    if x * 255 / d < 0 { MulMono(x * 255 / d, -1, d); }
  }

  lemma DivBounds(n: int, d: int)
    requires d > 0
    ensures n / d * d <= n < n / d * d + d
  {
  }

  function Stretch(img: seq<u8>): (r: seq<u8>)
    ensures |r| == |img|
  {
    var lo, hi := Lo(img), Hi(img);
    if hi <= lo then img
    else
      Extremes(img);
      seq(|img|, i requires 0 <= i < |img| => assert img[i] in img; Spread(img[i], lo, hi))
  }

  /** The stretch takes each level to its whole part of 255 times its share of the way from the smallest to the largest,
      and leaves an image of one level alone. */
  lemma StretchIs(img: seq<u8>, i: nat, lo: u8, hi: u8)
    requires i < |img| && lo in img && hi in img && forall p :: p in img ==> lo <= p <= hi
    ensures var v, x, d := Stretch(img)[i] as int, img[i] as int - lo as int, hi as int - lo as int;
            if d == 0 then v == img[i] as int else v * d <= x * 255 < v * d + d
  {
    assert img[i] in img;
    ExtremesUnique(img, lo, hi);
    if lo < hi { DivBounds((img[i] as int - lo as int) * 255, hi as int - lo as int); }
  }

  /** Correction takes the background off and adds 128, and stops at 0 and 255. */
  lemma FpnIs(img: seq<u8>, bg: seq<u8>, i: nat)
    requires |img| == |bg| && i < |img|
    ensures var r, level := Fpn(img, bg)[i] as int, img[i] as int + 128 - bg[i] as int;
            if level < 0 then r == 0 else if level > 255 then r == 255 else r == level
  {
  }

  /** The stretch never merges or reorders grey levels. */
  lemma SpreadStrict(p: u8, q: u8, lo: u8, hi: u8)
    requires lo <= p < q <= hi
    ensures Spread(p, lo, hi) < Spread(q, lo, hi)
  {
    var d, x, y := hi as int - lo as int, p as int - lo as int, q as int - lo as int;
    DivBounds(x * 255, d);
    DivBounds(y * 255, d);
    assert y * 255 >= x * 255 + 255;
    if y * 255 / d <= x * 255 / d { MulMono(y * 255 / d, x * 255 / d, d); }
  }

  lemma StretchOrder(img: seq<u8>, i: nat, j: nat)
    requires i < |img| && j < |img|
    ensures img[i] < img[j] <==> Stretch(img)[i] < Stretch(img)[j]
  {
    Extremes(img);
    assert img[i] in img && img[j] in img;
    if Hi(img) > Lo(img) {
      if img[i] < img[j] { SpreadStrict(img[i], img[j], Lo(img), Hi(img)); }
      if img[j] < img[i] { SpreadStrict(img[j], img[i], Lo(img), Hi(img)); }
    }
  }

  /** An image with two grey levels is stretched to the full range. */
  lemma StretchFull(img: seq<u8>)
    requires Hi(img) > Lo(img)
    ensures Lo(Stretch(img)) == 0 && Hi(Stretch(img)) == 255
  {
    Extremes(img);
    var i, j :| 0 <= i < |img| && img[i] == Lo(img) && 0 <= j < |img| && img[j] == Hi(img);
    var s := Stretch(img);
    SpreadFits(Hi(img) as int - Lo(img) as int, Hi(img) as int - Lo(img) as int);
    assert s[i] == 0 && s[j] == 255;
    assert s[i] in s && s[j] in s;
    ExtremesUnique(s, 0, 255);
  }

  lemma StretchIdempotent(img: seq<u8>)
    ensures Stretch(Stretch(img)) == Stretch(img)
  {
    if Hi(img) > Lo(img) {
      StretchFull(img);
      var s := Stretch(img);
      forall i | 0 <= i < |s| ensures Stretch(s)[i] == s[i] {
        assert Spread(s[i], 0, 255) == s[i];
      }
    }
  }

  function Uniform(n: nat, c: u8): seq<u8> { seq(n, _ => c) }

  predicate NoClamp(img: seq<u8>, c: u8) {
    forall p :: p in img ==> 0 <= p as int - c as int + 128 <= 255
  }

  lemma UniformShift(img: seq<u8>, c: u8)
    requires NoClamp(img, c)
    ensures forall i :: 0 <= i < |img| ==> Fpn(img, Uniform(|img|, c))[i] as int == img[i] as int - c as int + 128
  {
    forall i | 0 <= i < |img| ensures Fpn(img, Uniform(|img|, c))[i] as int == img[i] as int - c as int + 128 {
      assert img[i] in img;
    }
  }

  /** A uniform background that clamps no pixel moves both extremes by the same amount. */
  lemma UniformExtremes(img: seq<u8>, c: u8)
    requires NoClamp(img, c) && img != []
    ensures var f := Fpn(img, Uniform(|img|, c));
            Lo(f) as int == Lo(img) as int - c as int + 128 && Hi(f) as int == Hi(img) as int - c as int + 128
  {
    var f := Fpn(img, Uniform(|img|, c));
    UniformShift(img, c);
    Extremes(img);
    var i, j :| 0 <= i < |img| && img[i] == Lo(img) && 0 <= j < |img| && img[j] == Hi(img);
    forall p | p in f ensures f[i] <= p <= f[j] {
      var k :| 0 <= k < |f| && f[k] == p;
      assert img[k] in img;
    }
    ExtremesUnique(f, f[i], f[j]);
  }

  lemma UniformStretched(img: seq<u8>, c: u8)
    requires NoClamp(img, c) && Hi(img) > Lo(img)
    ensures Stretch(Fpn(img, Uniform(|img|, c))) == Stretch(img)
  {
    var f := Fpn(img, Uniform(|img|, c));
    assert img != [];
    UniformShift(img, c);
    UniformExtremes(img, c);
    hide Lo, Hi, Fpn, Uniform, Stretch, Spread, NoClamp;
    forall k | 0 <= k < |img| ensures Stretch(f)[k] == Stretch(img)[k] {
      StretchAt(f, k);
      StretchAt(img, k);
      SpreadShift(f[k], Lo(f), Hi(f), img[k], Lo(img), Hi(img));
    }
  }

  lemma StretchAt(img: seq<u8>, k: nat)
    requires k < |img| && Hi(img) > Lo(img)
    ensures Lo(img) <= img[k] <= Hi(img) && Stretch(img)[k] == Spread(img[k], Lo(img), Hi(img))
  {
    Extremes(img);
    assert img[k] in img;
  }

  lemma SpreadShift(p: u8, lo: u8, hi: u8, q: u8, lo': u8, hi': u8)
    requires lo <= p <= hi && lo < hi && lo' <= q <= hi' && lo' < hi'
    requires p as int - lo as int == q as int - lo' as int && hi as int - lo as int == hi' as int - lo' as int
    ensures Spread(p, lo, hi) == Spread(q, lo', hi')
  {
  }

  /** Correcting by a uniform background that clamps no pixel leaves the stretched image alone, except that a
      one-level image, which is not stretched, is shifted. */
  lemma UniformBackground(img: seq<u8>, c: u8)
    requires NoClamp(img, c)
    ensures Stretch(Fpn(img, Uniform(|img|, c))) == Stretch(img) <==> Hi(img) > Lo(img) || c == 128 || img == []
  {
    if Hi(img) > Lo(img) {
      UniformStretched(img, c);
    } else if img != [] {
      var f := Fpn(img, Uniform(|img|, c));
      UniformShift(img, c);
      UniformExtremes(img, c);
      assert Stretch(f) == f && Stretch(img) == img;
      assert f[0] as int == img[0] as int - c as int + 128;
    }
  }

  // ---- in place ----

  method CorrectInPlace(buf: array<u8>, bg: seq<u8>)
    requires |bg| <= buf.Length
    modifies buf
    ensures buf[..] == Fpn(old(buf[..|bg|]), bg) + old(buf[|bg|..])
  {
    for i := 0 to |bg|
      invariant forall k :: 0 <= k < i ==> buf[k] == Corrected(old(buf[k]), bg[k])
      invariant forall k :: i <= k < buf.Length ==> buf[k] == old(buf[k])
    {
      buf[i] := Clamp(buf[i] as int - bg[i] as int + 128);
    }
  }

  method StretchInPlace(buf: array<u8>, n: nat)
    requires n <= buf.Length
    modifies buf
    ensures buf[..] == Stretch(old(buf[..n])) + old(buf[n..])
  {
    ghost var img := buf[..n];
    var lo: u8, hi: u8 := 255, 0;
    for i := 0 to n
      invariant lo == Lo(img[..i]) && hi == Hi(img[..i])
    {
      assert img[..i + 1][..i] == img[..i] && buf[i] == img[i];
      if buf[i] < lo { lo := buf[i]; }
      if buf[i] > hi { hi := buf[i]; }
    }
    assert img[..n] == img;
    Extremes(img);
    if hi > lo {
      for i := 0 to n
        invariant forall k :: 0 <= k < i ==> lo <= img[k] <= hi && buf[k] == Spread(img[k], lo, hi)
        invariant forall k :: i <= k < buf.Length ==> buf[k] == old(buf[k])
      {
        assert buf[i] == img[i] && img[i] in img;
        buf[i] := Spread(buf[i], lo, hi);
      }
    }
  }
}
