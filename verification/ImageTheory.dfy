/** What the interval walks mean: agreement with the page map, and the bytes a mapped address shows. */
module ImageTheory {
  import opened Bytes
  import opened PeFile
  import opened PrepareImage
  import opened ImageMap

  /** The u32 sums with which image_range finds SizeOfHeaders do not wrap. */
  predicate HeaderOffsetFits(f: seq<u8>) {
    Lfanew(f) as int + 84 < 0x1_0000_0000
  }

  lemma FitsMeansSame(f: seq<u8>)
    ensures HeaderOffsetFits(f) ==> WalkHeaderSize(f) == HeaderSize(f)
    ensures LoaderAccepts(f) && |f| <= 0x1_0000_0000 ==> HeaderOffsetFits(f) && CoffOffsetsFit(f)
  {
  }

  lemma AccessibleIsCovered(img: Image, a: nat)
    requires img.Mapped()
    ensures img.Accessible(a) <==> a < img.size as int && MapCovers(img.file, a)
  {
    var secs, hdr := Sections(img.file), HeaderSize(img.file);
    PageProtCovers(hdr, secs, img.size, a);
    if MapCovers(img.file, a) {
      if a >= PageUp(hdr) {
        var s :| s in secs && s.OnPages(a);
        assert OverlayOk(img.size, s, false);
      }
      assert a < img.size as int;
    }
  }

  /** Bytes that lie in the header pages only as the walk reads SizeOfHeaders all lie in sections. */
  ghost predicate NoPhantom(f: seq<u8>) {
    forall a :: PageUp(HeaderSize(f)) <= a < PageUp(WalkHeaderSize(f)) && a < ImageSize(f) as int
                ==> SectionCovers(Sections(f), a)
  }

  /** So do those that lie there only as the mapping phase reads it. */
  ghost predicate NoGap(f: seq<u8>) {
    forall a :: PageUp(WalkHeaderSize(f)) <= a < PageUp(HeaderSize(f)) && a < ImageSize(f) as int
                ==> SectionCovers(Sections(f), a)
  }

  /** The two readings of SizeOfHeaders differ over no byte outside the sections. */
  ghost predicate ReadingsAgree(f: seq<u8>) { NoPhantom(f) && NoGap(f) }

  /** What image_range answers. */
  ghost predicate Answer(img: Image, o: nat, n: nat)
    reads img
  {
    img.base != 0 && Usable(img.file, img.size, o, n)
  }

  /** One byte, for the walk and for the page map. */
  lemma ByteAnswer(img: Image, a: nat)
    requires img.Mapped()
    ensures Usable(img.file, img.size, a, 1) <==> a < img.size as int && WalkCovers(img.file, a)
    ensures img.Backed(a, 1) <==> a < img.size as int && MapCovers(img.file, a)
  {
    AccessibleIsCovered(img, a);
    assert img.Backed(a, 1) ==> img.Accessible(a);
  }

  /** After a successful mapping phase every range the walk lets through is mapped, exactly when no phantom header
      byte lies outside the sections. */
  lemma TrustExactly(img: Image)
    requires img.Mapped()
    ensures (forall o: nat, n: nat :: Usable(img.file, img.size, o, n) ==> img.Backed(o, n)) <==> NoPhantom(img.file)
  {
    if NoPhantom(img.file) {
      forall o: nat, n: nat | Usable(img.file, img.size, o, n) ensures img.Backed(o, n) { RangeBacked(img, o, n); }
    } else {
      var f := img.file;
      var a: nat :| PageUp(HeaderSize(f)) <= a < PageUp(WalkHeaderSize(f)) && a < ImageSize(f) as int
                    && !SectionCovers(Sections(f), a);
      ByteAnswer(img, a);
    }
  }

  /** And it lets every mapped range through exactly when it misses no header byte outside the sections. */
  lemma ReachExactly(img: Image)
    requires img.Mapped()
    ensures (forall o: nat, n: nat :: img.Backed(o, n) ==> Usable(img.file, img.size, o, n)) <==> NoGap(img.file)
  {
    if NoGap(img.file) {
      forall o: nat, n: nat | img.Backed(o, n) ensures Usable(img.file, img.size, o, n) { BackedUsable(img, o, n); }
    } else {
      var f := img.file;
      var a: nat :| PageUp(WalkHeaderSize(f)) <= a < PageUp(HeaderSize(f)) && a < ImageSize(f) as int
                    && !SectionCovers(Sections(f), a);
      ByteAnswer(img, a);
    }
  }

  lemma RangeBacked(img: Image, o: nat, n: nat)
    requires img.Mapped() && NoPhantom(img.file) && Usable(img.file, img.size, o, n)
    ensures img.Backed(o, n)
  {
    hide Image.Mapped, WalkCovers, NoPhantom, Image.Accessible;
    forall a | o <= a < o + n ensures img.Accessible(a) { ByteBacked(img, a); }
  }

  lemma ByteBacked(img: Image, a: nat)
    requires img.Mapped() && NoPhantom(img.file) && WalkCovers(img.file, a) && a < img.size as int
    ensures img.Accessible(a)
  {
    hide PageUp, SectionCovers, Sections, HeaderSize, WalkHeaderSize;
    AccessibleIsCovered(img, a);
  }

  lemma BackedUsable(img: Image, o: nat, n: nat)
    requires img.Mapped() && NoGap(img.file) && img.Backed(o, n)
    ensures Usable(img.file, img.size, o, n)
  {
    hide Image.Mapped, WalkCovers, NoGap, Image.Accessible;
    forall a | o <= a < o + n ensures WalkCovers(img.file, a) { ByteUsable(img, a); }
  }

  lemma ByteUsable(img: Image, a: nat)
    requires img.Mapped() && NoGap(img.file) && img.Accessible(a) && a < img.size as int
    ensures WalkCovers(img.file, a)
  {
    hide PageUp, SectionCovers, Sections, HeaderSize, WalkHeaderSize;
    AccessibleIsCovered(img, a);
  }

  /** After a successful mapping phase image_range answers "every byte was mapped" for every non-empty range
      exactly when the image is not at the null address and the two readings of SizeOfHeaders agree, which they do
      whenever no offset wraps. */
  lemma WalkMatchesPageMap(img: Image)
    requires img.Mapped()
    ensures (forall o: nat, n: nat :: 0 < n ==> (Answer(img, o, n) <==> img.Backed(o, n)))
            <==> img.base != 0 && ReadingsAgree(img.file)
    ensures HeaderOffsetFits(img.file) ==> ReadingsAgree(img.file)
  {
    hide Image.Backed, Usable, NoPhantom, NoGap, Image.Mapped, HeaderOffsetFits, WalkHeaderSize, HeaderSize;
    FitsAgree(img.file);
    TrustExactly(img);
    ReachExactly(img);
    EmptyRange(img);
    if img.base == 0 { FirstByteMapped(img); }
  }

  lemma EmptyRange(img: Image)
    ensures forall o: nat :: Usable(img.file, img.size, o, 0) <==> img.Backed(o, 0)
  {
  }

  lemma FirstByteMapped(img: Image)
    requires img.Mapped()
    ensures img.Backed(0, 1)
  {
    AccessibleIsCovered(img, 0);
  }

  /** For one range. */
  lemma RangeMatches(img: Image, o: nat, n: nat)
    requires img.Mapped() && ReadingsAgree(img.file)
    ensures Usable(img.file, img.size, o, n) <==> img.Backed(o, n)
  {
    hide Image.Backed, Usable, NoPhantom, NoGap, Image.Mapped;
    if Usable(img.file, img.size, o, n) { RangeBacked(img, o, n); }
    if img.Backed(o, n) { BackedUsable(img, o, n); }
  }

  lemma FitsAgree(f: seq<u8>)
    ensures HeaderOffsetFits(f) ==> ReadingsAgree(f)
  {
    FitsMeansSame(f);
  }

  /** The length readable_range_length returns never leaves mapped memory, and is positive exactly when the
      byte is usable and lies in the header pages or in a section flagged readable. */
  lemma ReadableIsAccessible(img: Image, o: nat)
    requires img.Mapped()
    ensures img.Backed(o, ReadableLength(img.file, img.size, o)) || ReadableLength(img.file, img.size, o) == 0
    ensures ReadableLength(img.file, img.size, o) > 0
            <==> Usable(img.file, img.size, o, 1)
                 && (o < PageUp(HeaderSize(img.file))
                     || exists s :: s in Sections(img.file) && s.Readable() && s.OnPages(o))
  {
    var secs, hdr := Sections(img.file), PageUp(HeaderSize(img.file));
    var least := if o < hdr then hdr else 0;
    ReachIsMax(secs, o, least);
    var reach := ReachFrom(secs, o, least);
    forall a | o <= a < reach ensures img.Accessible(a) {
      AccessibleIsCovered(img, a);
      if reach != least {
        var s :| s in secs && s.Readable() && s.OnPages(o) && s.Limit() == reach;
        assert s.OnPages(a) && OverlayOk(img.size, s, false);
      }
    }
    if o < reach { AccessibleIsCovered(img, reach - 1); }
  }

  // ---- files that the whole pipeline accepts and the walk misreads ----

  /** Loaded at the null address; or the walk misses the header page; or it sees a header page that is not mapped. */
  datatype Misread = AtNull | Gap | Phantom

  /** Their PE header starts at 0xffffffb0, where the sums for the COFF fields still fit but the one for SizeOfHeaders
      wraps to offset 4. */
  const MISREAD: nat := 0xffff_ffb0

  function MisreadByte(v: Misread, i: nat): u8 {
    if i == 0 then 0x4d else if i == 1 then 0x5a
    else if i == 5 then (if v.Phantom? then 0x20 else 0)
    else if i == 0x3c then 0xb0 else if 0x3d <= i < 0x40 then 0xff
    else if i < MISREAD then 0
    else HeaderByte(v, i - MISREAD)
  }

  /** Byte k of the PE header; the phantom page is where its import directory lies. */
  function HeaderByte(v: Misread, k: nat): u8 {
    if k == 0 then 0x50 else if k == 1 then 0x45
    else if k == 4 then 0x64 else if k == 5 then 0x86
    else if k == 20 then 0x80
    else if k == 24 then 0x0b else if k == 25 then 0x02
    else if k == 51 then (if v.AtNull? then 0 else 0x80) else if k == 52 then (if v.AtNull? then 0 else 1)
    else if k == 81 then (if v.Phantom? then 0x20 else 0x10) else if k == 85 then 0x10
    else if k == 132 then 2 else if k == 145 then (if v.Phantom? then 0x10 else 0) else if k == 148 then 40
    else 0
  }

  /** One page of headers and no sections. */
  function MisreadFile(v: Misread): (f: seq<u8>)
    ensures |f| == MISREAD + 0x1000
  {
    seq(MISREAD + 0x1000, i requires 0 <= i => MisreadByte(v, i))
  }

  lemma MisreadAt(v: Misread, o: nat)
    requires o + 4 <= MISREAD + 0x1000
    ensures var f := MisreadFile(v);
            f[o] == MisreadByte(v, o) && f[o + 1] == MisreadByte(v, o + 1)
            && f[o + 2] == MisreadByte(v, o + 2) && f[o + 3] == MisreadByte(v, o + 3)
  {
    hide MisreadByte;
  }

  lemma MisreadStart(v: Misread)
    ensures var f := MisreadFile(v);
            Lfanew(f) == MISREAD && F16(f, 0) == 0x5a4d && F32(f, 4) == (if v.Phantom? then 0x2000 else 0)
            && F32(f, MISREAD) == 0x4550 && F16(f, MISREAD + 4) == 0x8664 && F16(f, MISREAD + 6) == 0
            && F16(f, MISREAD + 20) == 0x80
  {
    hide MisreadFile;
    MisreadAt(v, 0);
    MisreadAt(v, 4);
    MisreadAt(v, 0x3c);
    MisreadAt(v, MISREAD);
    MisreadAt(v, MISREAD + 4);
    MisreadAt(v, MISREAD + 20);
  }

  function MisreadSize(v: Misread): u32 { if v.Phantom? then 0x2000 else 0x1000 }

  function MisreadBase(v: Misread): u64 { if v.AtNull? then 0 else 0x1_8000_0000 }

  lemma MisreadOptional(v: Misread)
    ensures var f := MisreadFile(v);
            && F16(f, MISREAD + 24) == 0x20b && F32(f, MISREAD + 40) == 0 && F64(f, MISREAD + 48) == MisreadBase(v)
            && F32(f, MISREAD + 80) == MisreadSize(v) && F32(f, MISREAD + 84) == 0x1000
  {
    hide MisreadFile;
    MisreadAt(v, MISREAD + 24);
    MisreadAt(v, MISREAD + 40);
    MisreadAt(v, MISREAD + 48);
    MisreadAt(v, MISREAD + 52);
    MisreadAt(v, MISREAD + 80);
    MisreadAt(v, MISREAD + 84);
  }

  lemma MisreadImports(v: Misread)
    ensures var f := MisreadFile(v);
            && F32(f, MISREAD + 132) == 2 && F32(f, MISREAD + 144) == (if v.Phantom? then 0x1000 else 0)
            && F32(f, MISREAD + 148) == 40
  {
    hide MisreadFile;
    MisreadAt(v, MISREAD + 132);
    MisreadAt(v, MISREAD + 144);
    MisreadAt(v, MISREAD + 148);
  }

  lemma MisreadFields(v: Misread)
    ensures var f := MisreadFile(v);
            && Sections(f) == [] && ExactSections(f) == [] && ImageSize(f) == MisreadSize(v)
            && ImageBase(f) == MisreadBase(v) && HeaderSize(f) == 0x1000
            && WalkHeaderSize(f) == (if v.Phantom? then 0x2000 else 0)
            && LoaderAccepts(f) && PrepareAccepts(f)
  {
    hide MisreadFile, F16, F32, F64;
    MisreadStart(v);
    MisreadOptional(v);
    MisreadImports(v);
  }

  /** Script, checks and mappings all go well. Then image_range refuses byte 0, which the header overlay maps; or, in
      the phantom file, it lets byte 0x1000 through, which nothing maps. Where it only refuses too much, it can still
      be trusted. */
  lemma MisreadFileLoads(v: Misread)
    ensures var f := MisreadFile(v);
            && PrepareAccepts(f) && LoaderAccepts(f) && MapsOk(f, {}) && ImageBase(f) == MisreadBase(v)
            && if v.Phantom? then !NoPhantom(f) && WalkCovers(f, 0x1000) && !MapCovers(f, 0x1000)
               else NoPhantom(f) && !NoGap(f) && MapCovers(f, 0) && !WalkCovers(f, 0)
  {
    hide MisreadFile, LoaderAccepts, PrepareAccepts, ImageBase, ImageSize, HeaderSize, WalkHeaderSize, Sections;
    MisreadFields(v);
    var f := MisreadFile(v);
    assert v.Phantom? ==> WalkCovers(f, 0x1000) && !MapCovers(f, 0x1000);
    assert !v.Phantom? ==> !WalkCovers(f, 0) && MapCovers(f, 0);
  }

  /** Install and load one file: the script writes the sidecar, the loader checks the file and maps the sidecar.
      Loading succeeds exactly when both accept the file and no mapping fails, and then every accessible byte is the
      one the layout rule gives, whichever overlay put its page there. */
  method LoadPrepared(raw: seq<u8>, refused: set<nat>) returns (img: Image, ok: bool)
    ensures fresh(img) && img.file == raw
    ensures ok <==> PrepareAccepts(raw) && LoaderAccepts(raw) && MapsOk(raw, refused)
    ensures CoffOffsetsFit(raw) ==> (ok <==> LoaderAccepts(raw) && MapsOk(raw, refused))
    ensures ok ==> img.Mapped() && fresh(img.bytes) && fresh(img.prot)
    ensures ok ==> forall a :: 0 <= a < img.bytes.Length && img.Accessible(a)
                     ==> img.bytes[a] == LaidOut(raw, HeaderSize(raw), ExactSections(raw), a)
  {
    hide LoaderAccepts, PrepareAccepts, MapsOk;
    img := new Image(raw);
    var sidecar := Prepare(raw);
    if CoffOffsetsFit(raw) && LoaderAccepts(raw) { LoaderImpliesPrepare(raw); }
    ok := false;
    if sidecar.None? { return; }
    ok := img.CheckHeaders();
    if !ok { return; }
    ok := img.MapImage(sidecar.value, refused);
  }
}
