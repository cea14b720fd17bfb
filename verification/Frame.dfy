/** The way of a captured frame into the engine (src/ft_engine.c): centre crop or nearest-neighbour scaling to 64x80,
    then the biometric information record that wraps it. */
module Frame {
  import opened Bytes
  import opened Layout

  const FRAME_W: nat := 64
  const FRAME_H: nat := 80

  predicate IsFrame(src: seq<u8>, sw: nat, sh: nat) { sw > 0 && sh > 0 && |src| == sw * sh }

  /** Large enough frames are cropped, unless scaling is forced. */
  predicate Crops(sw: nat, sh: nat, force: bool) { sw >= FRAME_W && sh >= FRAME_H && !force }

  /** Nearest-neighbour source position of output position x when s positions are scaled to n. */
  function Scaled(x: nat, s: nat, n: nat): (u: nat)
    requires x < n && 0 < s
    ensures u < s
  {
    Quotient(x * s, n);
    BelowProduct(x * s / n, x, s, n);
    x * s / n
  }

  lemma Quotient(p: nat, n: nat)
    requires n > 0
    ensures 0 <= p / n && p / n * n <= p < (p / n + 1) * n
  {
  }

  lemma BelowProduct(u: nat, x: nat, s: nat, n: nat)
    requires u * n <= x * s && x < n && 0 < s
    ensures u < s
  {
    if u >= s {
      MulMono(s, u, n);
      MulMono(x + 1, n, s);
    }
  }

  lemma ScaledBounds(x: nat, s: nat, n: nat)
    requires x < n && 0 < s
    ensures Scaled(x, s, n) * n <= x * s < (Scaled(x, s, n) + 1) * n
  {
    Quotient(x * s, n);
  }

  /** Only one position has x * s between its multiple of n and the next. */
  lemma ScaledIs(x: nat, s: nat, n: nat, u: nat)
    requires x < n && 0 < s && u * n <= x * s < (u + 1) * n
    ensures Scaled(x, s, n) == u
  {
    var r := Scaled(x, s, n);
    ScaledBounds(x, s, n);
    hide Scaled;
    if r < u { MulMono(r + 1, u, n); }
    if u < r { MulMono(u + 1, r, n); }
  }

  /** Source column of output column x, and source row of output row y. */
  function Column(x: nat, sw: nat, crop: bool): (c: nat)
    requires x < FRAME_W && 0 < sw && (crop ==> sw >= FRAME_W)
    ensures c < sw
  {
    if crop then (sw - FRAME_W) / 2 + x else Scaled(x, sw, FRAME_W)
  }

  function Row(y: nat, sh: nat, crop: bool): (r: nat)
    requires y < FRAME_H && 0 < sh && (crop ==> sh >= FRAME_H)
    ensures r < sh
  {
    if crop then (sh - FRAME_H) / 2 + y else Scaled(y, sh, FRAME_H)
  }

  lemma Inside(r: nat, c: nat, sw: nat, sh: nat)
    requires r < sh && c < sw
    ensures r * sw + c < sw * sh
  {
    assert (r + 1) * sw <= sh * sw;
  }

  /** Pixel (x, y) of the frame the engine gets, cropped or scaled. */
  function Pixel(src: seq<u8>, sw: nat, sh: nat, crop: bool, x: nat, y: nat): u8
    requires IsFrame(src, sw, sh) && x < FRAME_W && y < FRAME_H
    requires crop ==> Crops(sw, sh, false)
  {
    Inside(Row(y, sh, crop), Column(x, sw, crop), sw, sh);
    src[Row(y, sh, crop) * sw + Column(x, sw, crop)]
  }

  function Prepared(src: seq<u8>, sw: nat, sh: nat, force: bool): (f: seq<u8>)
    requires IsFrame(src, sw, sh)
    ensures |f| == FRAME_W * FRAME_H
  {
    seq(FRAME_W * FRAME_H, k requires 0 <= k < FRAME_W * FRAME_H =>
      Pixel(src, sw, sh, Crops(sw, sh, force), k % FRAME_W, k / FRAME_W))
  }

  // ---- what the two ways mean ----

  /** A frame of the engine's own size goes through unchanged, scaled or not. */
  lemma NativeFrame(src: seq<u8>, force: bool)
    requires IsFrame(src, FRAME_W, FRAME_H)
    ensures Prepared(src, FRAME_W, FRAME_H, force) == src
  {
    forall k | 0 <= k < |src| ensures Prepared(src, FRAME_W, FRAME_H, force)[k] == src[k] {
      var crop := Crops(FRAME_W, FRAME_H, force);
      NativeIndex(k / FRAME_W, k % FRAME_W, crop);
    }
  }

  lemma NativeIndex(y: nat, x: nat, crop: bool)
    requires x < FRAME_W && y < FRAME_H
    ensures Row(y, FRAME_H, crop) == y && Column(x, FRAME_W, crop) == x
  {
  }

  /** The cropped window is centred, to within one pixel, and keeps neighbours neighbours. */
  lemma CropIsCentred(sw: nat, sh: nat, x: nat, y: nat)
    requires Crops(sw, sh, false) && x < FRAME_W && y < FRAME_H
    ensures var left, top := Column(0, sw, true), Row(0, sh, true);
            var right, bottom := sw - 1 - Column(FRAME_W - 1, sw, true), sh - 1 - Row(FRAME_H - 1, sh, true);
            && 0 <= right - left <= 1 && 0 <= bottom - top <= 1
            && Row(y, sh, true) == top + y && Column(x, sw, true) == left + x
  {
  }

  /** Position u of s is sampled when s positions are scaled to n. */
  ghost predicate Reached(u: nat, s: nat, n: nat)
    requires s > 0
  {
    exists x: nat :: x < n && Scaled(x, s, n) == u
  }

  /** Scaling reaches every source position exactly when it does not shrink. */
  lemma ScaleReachesAll(s: nat, n: nat)
    requires s > 0 && n > 0
    ensures (forall u: nat :: u < s ==> Reached(u, s, n)) <==> s <= n
  {
    hide Scaled;
    if s <= n {
      forall u: nat | u < s ensures Reached(u, s, n) { var x := FirstHit(u, s, n); }
    } else {
      LastMissed(s, n);
    }
  }

  /** The first output position that samples source position u. */
  lemma FirstHit(u: nat, s: nat, n: nat) returns (x: nat)
    requires u < s <= n
    ensures x < n && Scaled(x, s, n) == u
  {
    hide Scaled;
    x := (u * n + s - 1) / s;
    Quotient(u * n + s - 1, s);
    assert u * n <= x * s < u * n + s by { Distribute(x, 1, s); }
    Distribute(u, 1, n);
    MulMono(u + 1, s, n);
    if x >= n { MulMono(n, x, s); }
    ScaledIs(x, s, n, u);
  }

  lemma LastMissed(s: nat, n: nat)
    requires n < s
    ensures !Reached(s - 1, s, n)
  {
    hide Scaled;
    if x: nat :| x < n && Scaled(x, s, n) == s - 1 {
      ScaledBounds(x, s, n);
      MulMono(x + 1, n, s);
      Distribute(x, 1, s);
      Distribute(s - 1, 1, n);
    }
  }

  /** Scaling loses no source pixel exactly when the frame is not larger than 64x80 in either direction. */
  lemma ScalingIsLossless(sw: nat, sh: nat)
    requires sw > 0 && sh > 0
    ensures (forall u, v :: 0 <= u < sw && 0 <= v < sh ==> Sampled(u, v, sw, sh)) <==> sw <= FRAME_W && sh <= FRAME_H
  {
    hide Scaled;
    ScaleReachesAll(sw, FRAME_W);
    ScaleReachesAll(sh, FRAME_H);
    if sw <= FRAME_W && sh <= FRAME_H {
      forall u, v | 0 <= u < sw && 0 <= v < sh ensures Sampled(u, v, sw, sh) {
        assert Reached(u, sw, FRAME_W) && Reached(v, sh, FRAME_H);
        var x: nat :| x < FRAME_W && Scaled(x, sw, FRAME_W) == u;
        var y: nat :| y < FRAME_H && Scaled(y, sh, FRAME_H) == v;
        assert Column(x, sw, false) == u && Row(y, sh, false) == v;
      }
    } else if sw > FRAME_W {
      LastMissed(sw, FRAME_W);
      assert !Sampled(sw - 1, 0, sw, sh);
    } else {
      LastMissed(sh, FRAME_H);
      assert !Sampled(0, sh - 1, sw, sh);
    }
  }

  /** Some output pixel is taken from source pixel (u, v) when scaling. */
  ghost predicate Sampled(u: nat, v: nat, sw: nat, sh: nat)
    requires sw > 0 && sh > 0
  {
    exists x: nat, y: nat :: x < FRAME_W && y < FRAME_H && Column(x, sw, false) == u && Row(y, sh, false) == v
  }

  /** The frame row by row: output row y and column x show the picture's row r and column c, the centre window's when
      cropping, and when scaling those whose shares of the picture hold the output position. */
  lemma PreparedShows(rows: seq<seq<u8>>, sw: nat, sh: nat, force: bool, x: nat, y: nat, r: nat, c: nat)
    requires sw > 0 && sh > 0 && |rows| == sh && Even(rows, sw) && x < 64 && y < 80 && r < sh && c < sw
    requires if sw >= 64 && sh >= 80 && !force then r == (sh - 80) / 2 + y && c == (sw - 64) / 2 + x
             else r * 80 <= y * sh < (r + 1) * 80 && c * 64 <= x * sw < (c + 1) * 64
    ensures IsFrame(Concat(rows), sw, sh) && Prepared(Concat(rows), sw, sh, force)[64 * y + x] == rows[r][c]
  {
    hide Scaled, Concat;
    ConcatLength(rows, sw);
    MulComm(sw, sh);
    var src := Concat(rows);
    if !Crops(sw, sh, force) {
      ScaledIs(y, sh, 80, r);
      ScaledIs(x, sw, 64, c);
    }
    assert (64 * y + x) % 64 == x && (64 * y + x) / 64 == y;
    assert At(src, 0, src) by { assert src[0..|src|] == src; }
    RowAt(src, 0, rows, sw, r);
    AtByte(src, r * sw, rows[r], c);
  }

  lemma MulComm(a: nat, b: nat)
    ensures a * b == b * a
  {
  }

  // ---- the record around the frame ----

  const HDR: nat := 0x18
  const STD: nat := 0x48
  const PAYLOAD: nat := 0x80

  /** The four words at the start: the sizes and places of the two parts. */
  function Places(b: seq<u8>, n: nat): (r: seq<u8>)
    requires 0x10 <= |b| && 0x38 + n < 0x1_0000_0000
    ensures |r| == |b|
  {
    Put(Put(Put(Put(b, 0, Le32(0x30)), 4, Le32(HDR)), 8, Le32(0x38 + n)), 0xc, Le32(STD))
  }

  /** Format owner and type in the header; resolution, depth and size before the pixels. */
  function Format(b: seq<u8>, w: nat, h: nat): (r: seq<u8>)
    requires PAYLOAD <= |b|
    ensures |r| == |b|
  {
    var b1 := Put(Put(b, HDR + 0x28, Le16(0x1b)), HDR + 0x2a, Le16(0x401));
    var b2 := Put(Put(b1, STD + 0x1c, Le16(500)), STD + 0x1e, Le16(500));
    var b3 := Put(Put(b2, STD + 0x22, [8]), STD + 0x23, [0]);
    Put(Put(b3, STD + 0x2c, Le16(w % 0x1_0000)), STD + 0x2e, Le16(h % 0x1_0000))
  }

  /** The record, written into a buffer. */
  function Envelope(b: seq<u8>, pix: seq<u8>, w: nat, h: nat): (r: seq<u8>)
    requires PAYLOAD + |pix| <= |b| < 0x1_0000_0000
    ensures |r| == |b|
  {
    hide Places, Format;
    Put(Format(Places(b, |pix|), w, h), PAYLOAD, pix)
  }

  /** What a reader of the record finds by following its offsets. */
  datatype Image = Image(xres: u16, yres: u16, depth: u8, width: u16, height: u16, pixels: seq<u8>)

  function ReadRecord(b: seq<u8>): Option<Image> {
    if |b| < 0x10 then None
    else
      var size, std := Read32(b, 8), Read32(b, 0xc);
      if size < 0x38 || std + size > |b| || Read32(b, 0) != 0x30 then None
      else
        Some(Image(Read16(b, std + 0x1c), Read16(b, std + 0x1e), b[std + 0x22],
                   Read16(b, std + 0x2c), Read16(b, std + 0x2e), b[std + 0x38..std + size]))
  }

  // ---- reading back ----

  lemma PlacesRead(b: seq<u8>, n: nat)
    requires 0x10 <= |b| && 0x38 + n < 0x1_0000_0000
    ensures var e := Places(b, n);
            && Read32(e, 0) == 0x30 && Read32(e, 4) == HDR && Read32(e, 8) == 0x38 + n && Read32(e, 0xc) == STD
            && e[0x10..] == b[0x10..]
  {
    hide Le32;
  }

  /** Bytes of a header that no field occupies. */
  predicate Padding(k: int) {
    0x10 <= k < PAYLOAD && !(0x40 <= k < 0x44) && !(0x64 <= k < 0x68) && k != 0x6a && k != 0x6b && !(0x74 <= k < 0x78)
  }

  lemma FormatRead(b: seq<u8>, w: nat, h: nat)
    requires PAYLOAD <= |b|
    ensures var e := Format(b, w, h);
            && Read16(e, HDR + 0x28) == 0x1b && Read16(e, HDR + 0x2a) == 0x401
            && Read16(e, STD + 0x1c) == 500 && Read16(e, STD + 0x1e) == 500 && e[STD + 0x22] == 8 && e[STD + 0x23] == 0
            && Read16(e, STD + 0x2c) == w % 0x1_0000 && Read16(e, STD + 0x2e) == h % 0x1_0000
            && e[..0x10] == b[..0x10] && e[PAYLOAD..] == b[PAYLOAD..]
            && forall k :: Padding(k) ==> e[k] == b[k]
  {
    hide Le16;
  }

  /** The parts of the record that a reader looks at. */
  lemma EnvelopeParts(b: seq<u8>, pix: seq<u8>, w: nat, h: nat)
    requires PAYLOAD + |pix| <= |b| < 0x1_0000_0000
    ensures var e := Envelope(b, pix, w, h);
            && e[..0x10] == Places(b, |pix|)[..0x10]
            && e[0x10..PAYLOAD] == Format(Places(b, |pix|), w, h)[0x10..PAYLOAD]
            && e[PAYLOAD..PAYLOAD + |pix|] == pix
            && e[PAYLOAD + |pix|..] == b[PAYLOAD + |pix|..]
  {
    hide Places, Format;
    PlacesRead(b, |pix|);
    FormatRead(Places(b, |pix|), w, h);
    var p, f, e := Places(b, |pix|), Format(Places(b, |pix|), w, h), Envelope(b, pix, w, h);
    assert e[..0x10] == f[..0x10];
    Suffix(f, p, PAYLOAD, |pix|);
    Suffix(p, b, 0x10, PAYLOAD - 0x10 + |pix|);
    Suffix(e, f, PAYLOAD + |pix|, 0);
  }

  lemma Suffix(s: seq<u8>, t: seq<u8>, o: nat, n: nat)
    requires |s| == |t| && o + n <= |s| && s[o..] == t[o..]
    ensures s[o + n..] == t[o + n..]
  {
    assert s[o..][n..] == s[o + n..] && t[o..][n..] == t[o + n..];
  }

  /** Reading the record by its own offsets gives back the picture with its size, resolution and depth. */
  lemma RecordReads(b: seq<u8>, pix: seq<u8>, w: nat, h: nat)
    requires PAYLOAD + |pix| <= |b| < 0x1_0000_0000 && w < 0x1_0000 && h < 0x1_0000
    ensures ReadRecord(Envelope(b, pix, w, h)[..PAYLOAD + |pix|]) == Some(Image(500, 500, 8, w, h, pix))
  {
    hide Places, Format, Envelope, Read16, Read32;
    var p, f := Places(b, |pix|), Format(Places(b, |pix|), w, h);
    EnvelopeParts(b, pix, w, h);
    PlacesRead(b, |pix|);
    FormatRead(p, w, h);
    var r := Envelope(b, pix, w, h)[..PAYLOAD + |pix|];
    assert r[..0x10] == p[..0x10] && r[0x10..PAYLOAD] == f[0x10..PAYLOAD];
    SameWords(r, p);
    SameFields(r, f);
    assert r[STD + 0x38..STD + (0x38 + |pix|)] == pix;
  }

  /** What was in the buffer shows only between the fields. */
  lemma RecordPadding(b: seq<u8>, pix: seq<u8>, w: nat, h: nat, k: nat)
    requires PAYLOAD + |pix| <= |b| < 0x1_0000_0000 && Padding(k)
    ensures Envelope(b, pix, w, h)[k] == b[k]
  {
    hide Places, Format;
    var p, f, e := Places(b, |pix|), Format(Places(b, |pix|), w, h), Envelope(b, pix, w, h);
    EnvelopeParts(b, pix, w, h);
    PlacesRead(b, |pix|);
    FormatRead(p, w, h);
    assert e[k] == e[0x10..PAYLOAD][k - 0x10] && f[k] == f[0x10..PAYLOAD][k - 0x10];
    assert p[k] == p[0x10..][k - 0x10] && b[k] == b[0x10..][k - 0x10];
  }

  /** Buffers with the same first sixteen bytes hold the same four words. */
  lemma SameWords(b: seq<u8>, c: seq<u8>)
    requires |b| >= 0x10 && |c| >= 0x10 && b[..0x10] == c[..0x10]
    ensures Read32(b, 0) == Read32(c, 0) && Read32(b, 4) == Read32(c, 4)
    ensures Read32(b, 8) == Read32(c, 8) && Read32(b, 0xc) == Read32(c, 0xc)
  {
    forall k | 0 <= k < 0x10 ensures b[k] == c[k] { assert b[..0x10][k] == c[..0x10][k]; }
  }

  lemma SameFields(b: seq<u8>, c: seq<u8>)
    requires |b| >= PAYLOAD && |c| >= PAYLOAD && b[0x10..PAYLOAD] == c[0x10..PAYLOAD]
    ensures Read16(b, STD + 0x1c) == Read16(c, STD + 0x1c) && Read16(b, STD + 0x1e) == Read16(c, STD + 0x1e)
    ensures b[STD + 0x22] == c[STD + 0x22]
    ensures Read16(b, STD + 0x2c) == Read16(c, STD + 0x2c) && Read16(b, STD + 0x2e) == Read16(c, STD + 0x2e)
  {
    forall k | 0x10 <= k < PAYLOAD ensures b[k] == c[k] {
      assert b[0x10..PAYLOAD][k - 0x10] == c[0x10..PAYLOAD][k - 0x10];
    }
  }

  // ---- the buffers, filled in place ----

  const BUFFER: nat := 262144

  function Zeros(n: nat): seq<u8> { seq(n, _ => 0) }

  method Write(buf: array<u8>, o: nat, d: seq<u8>)
    requires o + |d| <= buf.Length
    modifies buf
    ensures buf[..] == Put(old(buf[..]), o, d)
  {
    for i := 0 to |d|
      invariant forall k :: 0 <= k < buf.Length ==> buf[k] == if o <= k < o + i then d[k - o] else old(buf[k])
    {
      buf[o + i] := d[i];
    }
  }

  method Clear(buf: array<u8>, n: nat)
    requires n <= buf.Length
    modifies buf
    ensures buf[..] == Zeros(n) + old(buf[n..])
  {
    for i := 0 to n
      invariant forall k :: 0 <= k < buf.Length ==> buf[k] == if k < i then 0 else old(buf[k])
    {
      buf[i] := 0;
    }
  }

  class Sampler {
    /** small and birbuf. */
    const small: array<u8>
    const birbuf: array<u8>

    ghost predicate Valid() { small.Length == BUFFER && birbuf.Length == BUFFER && small != birbuf }

    constructor ()
      ensures Valid() && fresh(small) && fresh(birbuf)
    {
      small := new u8[BUFFER](_ => 0);
      birbuf := new u8[BUFFER](_ => 0);
    }

    /** resize: nearest neighbour to 64x80. */
    method Resize(src: seq<u8>, sw: nat, sh: nat)
      requires Valid() && IsFrame(src, sw, sh)
      modifies small
      ensures forall x: nat, y: nat :: x < FRAME_W && y < FRAME_H ==>
                small[y * FRAME_W + x] == Pixel(src, sw, sh, false, x, y)
    {
      hide Scaled;
      for y := 0 to FRAME_H
        invariant forall b: nat, a: nat :: b < y && a < FRAME_W ==>
                    small[b * FRAME_W + a] == Pixel(src, sw, sh, false, a, b)
      {
        for x := 0 to FRAME_W
          invariant forall b: nat, a: nat :: (b < y && a < FRAME_W) || (b == y && a < x) ==>
                      small[b * FRAME_W + a] == Pixel(src, sw, sh, false, a, b)
        {
          Inside(Row(y, sh, false), Column(x, sw, false), sw, sh);
          small[y * FRAME_W + x] := src[Scaled(y, sh, FRAME_H) * sw + Scaled(x, sw, FRAME_W)];
        }
      }
    }

    /** The cropping half of prepare_frame. */
    method Crop(src: seq<u8>, sw: nat, sh: nat)
      requires Valid() && IsFrame(src, sw, sh) && Crops(sw, sh, false)
      modifies small
      ensures forall x: nat, y: nat :: x < FRAME_W && y < FRAME_H ==>
                small[y * FRAME_W + x] == Pixel(src, sw, sh, true, x, y)
    {
      var ox, oy := (sw - FRAME_W) / 2, (sh - FRAME_H) / 2;
      for y := 0 to FRAME_H
        invariant forall b: nat, a: nat :: b < y && a < FRAME_W ==>
                    small[b * FRAME_W + a] == Pixel(src, sw, sh, true, a, b)
      {
        for x := 0 to FRAME_W
          invariant forall b: nat, a: nat :: (b < y && a < FRAME_W) || (b == y && a < x) ==>
                      small[b * FRAME_W + a] == Pixel(src, sw, sh, true, a, b)
        {
          Inside(Row(y, sh, true), Column(x, sw, true), sw, sh);
          small[y * FRAME_W + x] := src[(oy + y) * sw + (ox + x)];
        }
      }
    }

    method PrepareFrame(src: seq<u8>, sw: nat, sh: nat, force: bool)
      requires Valid() && IsFrame(src, sw, sh)
      modifies small
      ensures small[..FRAME_W * FRAME_H] == Prepared(src, sw, sh, force)
    {
      if sw >= FRAME_W && sh >= FRAME_H && !force { Crop(src, sw, sh); } else { Resize(src, sw, sh); }
      hide Pixel;
      ghost var f, n := Prepared(src, sw, sh, force), FRAME_W * FRAME_H;
      forall k | 0 <= k < n ensures small[k] == f[k] {
        assert k == k / FRAME_W * FRAME_W + k % FRAME_W;
      }
    }

    /** build_bir for a w x h picture in `small`: the record, on freshly cleared bytes. */
    method BuildBir(w: nat, h: nat) returns (total: nat)
      requires Valid() && PAYLOAD + w * h <= BUFFER
      modifies birbuf
      ensures total == PAYLOAD + w * h
      ensures birbuf[..] == Envelope(Zeros(total) + old(birbuf[total..]), small[..w * h], w, h)
    {
      hide Envelope;
      var n := w * h;
      total := PAYLOAD + n;
      FillRecord(n, w, h);
    }

    method FillRecord(n: nat, w: nat, h: nat)
      requires Valid() && PAYLOAD + n <= BUFFER
      modifies birbuf
      ensures birbuf[..] == Envelope(Zeros(PAYLOAD + n) + old(birbuf[PAYLOAD + n..]), small[..n], w, h)
    {
      hide Put, Places, Format;
      Clear(birbuf, PAYLOAD + n);
      WritePlaces(n);
      WriteFormat(w, h);
      Write(birbuf, PAYLOAD, small[..n]);
    }

    method WritePlaces(n: nat)
      requires Valid() && PAYLOAD + n <= BUFFER
      modifies birbuf
      ensures birbuf[..] == Places(old(birbuf[..]), n)
    {
      hide Put, Le32;
      Write(birbuf, 0, Le32(0x30));
      Write(birbuf, 4, Le32(HDR));
      Write(birbuf, 8, Le32(0x38 + n));
      Write(birbuf, 0xc, Le32(STD));
    }

    method WriteFormat(w: nat, h: nat)
      requires Valid()
      modifies birbuf
      ensures birbuf[..] == Format(old(birbuf[..]), w, h)
    {
      hide Put, Le16;
      Write(birbuf, HDR + 0x28, Le16(0x1b));
      Write(birbuf, HDR + 0x2a, Le16(0x401));
      Write(birbuf, STD + 0x1c, Le16(500));
      Write(birbuf, STD + 0x1e, Le16(500));
      Write(birbuf, STD + 0x22, [8]);
      Write(birbuf, STD + 0x23, [0]);
      Write(birbuf, STD + 0x2c, Le16(w % 0x1_0000));
      Write(birbuf, STD + 0x2e, Le16(h % 0x1_0000));
    }

    /** ft_engine_accept up to the engine call: whatever frames went before, the engine is handed a record of 5248
        bytes which, read by its own offsets, holds the prepared frame; all unused header bytes are zero. */
    method Submit(src: seq<u8>, sw: nat, sh: nat, force: bool) returns (record: seq<u8>)
      requires Valid() && IsFrame(src, sw, sh)
      modifies small, birbuf
      ensures |record| == 5248
      ensures ReadRecord(record) == Some(Image(500, 500, 8, FRAME_W, FRAME_H, Prepared(src, sw, sh, force)))
      ensures forall k :: Padding(k) ==> record[k] == 0
      ensures sw == FRAME_W && sh == FRAME_H ==> record[PAYLOAD..] == src
    {
      PrepareFrame(src, sw, sh, force);
      hide Prepared, Envelope, ReadRecord, Places, Format;
      var total := BuildBir(FRAME_W, FRAME_H);
      ghost var b, pix := Zeros(total) + old(birbuf[total..]), Prepared(src, sw, sh, force);
      record := birbuf[..total];
      RecordReads(b, pix, FRAME_W, FRAME_H);
      forall k | Padding(k) ensures record[k] == 0 { RecordPadding(b, pix, FRAME_W, FRAME_H, k); }
      if sw == FRAME_W && sh == FRAME_H {
        NativeFrame(src, force);
        EnvelopeParts(b, pix, FRAME_W, FRAME_H);
      }
    }
  }
}
