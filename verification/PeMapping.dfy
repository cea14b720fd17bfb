/** What a file's headers make of the image: which bytes are mapped, with which rights and contents, and which ranges
    the interval walks let through, told from the written headers. */
module PeMapping {
  import opened Bytes
  import opened PeFile
  import opened PeLayout
  import opened PrepareImage
  import opened ImageMap
  import opened ImageTheory

  /** Whole pages for n bytes. */
  function Room(n: nat): nat { (n + 0xfff) / 0x1000 * 0x1000 }

  predicate Covers(r: Row, a: nat) { r.vaddr <= a < r.vaddr as int + Room(Span(r)) }

  ghost predicate Covered(h: Header, a: nat) { exists i :: 0 <= i < |h.rows| && Covers(h.rows[i], a) }

  /** Row i is the last that covers a. */
  predicate LastOver(h: Header, i: nat, a: nat) {
    i < |h.rows| && Covers(h.rows[i], a) && forall k :: i < k < |h.rows| ==> !Covers(h.rows[k], a)
  }

  /** The 32-bit sums by which the loader and image_range find header fields do not wrap. */
  predicate NoWrap(e: u32) { e as int + 84 < 0x1_0000_0000 }

  /** Bit 29 of a word with these bits above and below it. */
  predicate Bit29(flags: u32, high: nat, x: nat, low: nat) {
    flags as int == high * 0x4000_0000 + x * 0x2000_0000 + low && high < 4 && x < 2 && low < 0x2000_0000
  }

  predicate Bit30(flags: u32, high: nat, x: nat, low: nat) {
    flags as int == high * 0x8000_0000 + x * 0x4000_0000 + low && high < 2 && x < 2 && low < 0x4000_0000
  }

  // ---- the section table as the loader walks it ----

  lemma LoaderRows(f: seq<u8>, e: u32, h: Header)
    requires Says(f, e, h) && NoWrap(e)
    ensures var secs := Sections(f); |secs| == |h.rows| && forall i :: 0 <= i < |secs| ==> secs[i] == Columns(h.rows[i])
    ensures HeaderSize(f) == WalkHeaderSize(f) == h.opt.headerSize && ImageSize(f) == h.opt.imageSize
    ensures ImageBase(f) == h.opt.base
  {
    hide Says, SectionAt, F16, F32, F64;
    SaysStart(f, e, h);
    SaysOptional(f, e, h);
    SaysSections(f, e, h);
    CoffFieldsExact(f);
  }

  lemma ColumnsCover(r: Row, a: nat)
    ensures Columns(r).OnPages(a) <==> Covers(r, a)
  {
  }

  lemma CoveredIs(f: seq<u8>, e: u32, h: Header, a: nat)
    requires Says(f, e, h) && NoWrap(e)
    ensures SectionCovers(Sections(f), a) <==> Covered(h, a)
  {
    hide Says, Covers;
    LoaderRows(f, e, h);
    var secs := Sections(f);
    if SectionCovers(secs, a) {
      var i :| 0 <= i < |secs| && secs[i].OnPages(a);
      ColumnsCover(h.rows[i], a);
    }
    if i :| 0 <= i < |h.rows| && Covers(h.rows[i], a) {
      ColumnsCover(h.rows[i], a);
      assert secs[i] in secs;
    }
  }

  lemma NoWrapNoPhantom(f: seq<u8>, e: u32, h: Header)
    requires Says(f, e, h) && NoWrap(e)
    ensures NoPhantom(f)
  {
    hide Says, Sections;
    LoaderRows(f, e, h);
  }

  // ---- the page map ----

  lemma {:induction false} PageProtIs(hdr: u32, secs: seq<Section>, i: nat, p: nat)
    requires i <= |secs|
    requires i < |secs| ==> OnPage(secs[i], p) && PageUp32(secs[i].Span()) != 0
    requires forall k :: (if i < |secs| then i + 1 else 0) <= k < |secs|
                         ==> !(OnPage(secs[k], p) && PageUp32(secs[k].Span()) != 0)
    ensures PageProt(hdr, secs, p)
            == if i < |secs| then SectionProt(secs[i]) else if p < PageUp32(hdr) / PAGE then ReadOnly else NoAccess
  {
    hide OnPage, PageUp32, SectionProt;
    if secs != [] && i != |secs| - 1 {
      PageProtIs(hdr, secs[..|secs| - 1], if i < |secs| then i else |secs| - 1, p);
    }
  }

  lemma OnPageIs(img: Image, e: u32, h: Header, k: nat, a: nat)
    requires img.Mapped() && Says(img.file, e, h) && NoWrap(e) && k < |h.rows|
    ensures |Sections(img.file)| == |h.rows|
    ensures var s := Sections(img.file)[k]; OnPage(s, a / PAGE) && PageUp32(s.Span()) != 0 <==> Covers(h.rows[k], a)
  {
    hide Says, Covers, OnPage, PageUp32, Sections, OverlayOk;
    LoaderRows(img.file, e, h);
    var s := Sections(img.file)[k];
    assert s in Sections(img.file) && OverlayOk(img.size, s, false);
    PageOfByte(s, img.size, a);
    ColumnsCover(h.rows[k], a);
  }

  lemma ProtAt(img: Image, e: u32, h: Header, i: nat, a: nat)
    requires img.Mapped() && Says(img.file, e, h) && NoWrap(e) && a < img.size as int
    requires if i < |h.rows| then LastOver(h, i, a) else !Covered(h, a) && i == |h.rows|
    ensures i <= |Sections(img.file)| == |h.rows| && a / PAGE < img.prot.Length
    ensures img.prot[a / PAGE]
            == if i < |h.rows| then SectionProt(Sections(img.file)[i])
               else if a / PAGE < PageUp32(HeaderSize(img.file)) / PAGE then ReadOnly else NoAccess
  {
    hide Says, Covers, OnPage, PageUp32, Sections, OverlayOk, SectionProt, HeaderSize;
    LoaderRows(img.file, e, h);
    forall k | 0 <= k < |h.rows|
      ensures var s := Sections(img.file)[k]; OnPage(s, a / PAGE) && PageUp32(s.Span()) != 0 <==> Covers(h.rows[k], a)
    {
      OnPageIs(img, e, h, k, a);
    }
    PageProtIs(HeaderSize(img.file), Sections(img.file), i, a / PAGE);
  }

  /** The page of a byte has the rights its last covering row's flags ask for: execution exactly with bit 29, else
      writing. */
  lemma RightsExactly(img: Image, e: u32, h: Header, a: nat, i: nat, high: nat, x: nat, low: nat)
    requires img.Mapped() && Says(img.file, e, h) && NoWrap(e) && a < img.size as int
    requires LastOver(h, i, a) && Bit29(h.rows[i].flags, high, x, low)
    ensures a / PAGE < img.prot.Length && img.prot[a / PAGE] == if x == 1 then ReadExec else ReadWrite
  {
    hide Says, Covers, Image.Mapped, Sections;
    ProtAt(img, e, h, i, a);
    LoaderRows(img.file, e, h);
    ExecutableIs(h.rows[i], high, x, low);
  }

  lemma ExecutableIs(r: Row, high: nat, x: nat, low: nat)
    requires Bit29(r.flags, high, x, low)
    ensures Columns(r).Executable() <==> x == 1
  {
  }

  /** A byte no row covers can be read exactly in the header pages. */
  lemma RightsOutside(img: Image, e: u32, h: Header, a: nat)
    requires img.Mapped() && Says(img.file, e, h) && NoWrap(e) && a < img.size as int && !Covered(h, a)
    ensures a / PAGE < img.prot.Length
    ensures img.prot[a / PAGE] == if a < Room(h.opt.headerSize) then ReadOnly else NoAccess
  {
    hide Says, Covers, Sections;
    ProtAt(img, e, h, |h.rows|, a);
    LoaderRows(img.file, e, h);
  }

  // ---- the interval walks ----

  /** Every byte of the range lies in the image, and in the header pages or in a section. */
  ghost predicate Reaches(h: Header, o: nat, n: nat) {
    o + n <= h.opt.imageSize as int && forall a :: o <= a < o + n ==> a < Room(h.opt.headerSize) || Covered(h, a)
  }

  lemma UsableIs(f: seq<u8>, e: u32, h: Header, o: nat, n: nat)
    requires Says(f, e, h) && NoWrap(e)
    ensures Usable(f, h.opt.imageSize as int, o, n) <==> Reaches(h, o, n)
  {
    hide Says, Covered, SectionCovers, Sections;
    LoaderRows(f, e, h);
    forall a: nat ensures WalkCovers(f, a) <==> a < Room(h.opt.headerSize) || Covered(h, a) { CoveredIs(f, e, h, a); }
  }

  /** The range lies in the header pages, or in one section that bit 30 of its flags makes readable. */
  ghost predicate InRegion(h: Header, o: nat, n: nat) {
    o + n <= Room(h.opt.headerSize) || exists i :: 0 <= i < |h.rows| && ReadableOver(h.rows[i], o, n)
  }

  ghost predicate ReadableOver(r: Row, o: nat, n: nat) {
    && r.vaddr <= o && o + n <= r.vaddr as int + Room(Span(r))
    && exists high, low :: Bit30(r.flags, high, 1, low)
  }

  lemma ReadableIs(r: Row)
    ensures Columns(r).Readable() <==> exists high, low :: Bit30(r.flags, high, 1, low)
  {
    var f := r.flags as int;
    var high, x, low := f / 0x8000_0000, f / 0x4000_0000 % 2, f % 0x4000_0000;
    assert Bit30(r.flags, high, x, low);
    if high', low' :| Bit30(r.flags, high', 1, low') { BitOf(f, high', low'); }
  }

  lemma BitOf(f: int, high: nat, low: nat)
    requires f == high * 0x8000_0000 + 0x4000_0000 + low && low < 0x4000_0000
    ensures f / 0x4000_0000 % 2 == 1
  {
    assert f / 0x4000_0000 == 2 * high + 1;
  }

  lemma ReadableOverIs(r: Row, o: nat, n: nat)
    requires n > 0
    ensures ReadableOver(r, o, n) <==> Columns(r).Readable() && Columns(r).OnPages(o) && o + n <= Columns(r).Limit()
  {
    hide Bit30;
    ReadableIs(r);
  }

  /** n bytes from o may hold a string exactly when they lie in one readable region, and o may be used. */
  lemma StringRoomIs(f: seq<u8>, e: u32, h: Header, o: nat, n: nat)
    requires Says(f, e, h) && NoWrap(e) && n > 0
    ensures ReadableLength(f, h.opt.imageSize as int, o) >= n <==> Reaches(h, o, 1) && InRegion(h, o, n)
  {
    hide Says, Usable, Sections, ReadableOver, Reaches, ReachFrom;
    LoaderRows(f, e, h);
    UsableIs(f, e, h, o, 1);
    var secs, hdr := Sections(f), Room(h.opt.headerSize);
    var least := if o < hdr then hdr else 0;
    ReachIsMax(secs, o, least);
    forall i | 0 <= i < |h.rows|
      ensures ReadableOver(h.rows[i], o, n) <==> secs[i].Readable() && secs[i].OnPages(o) && o + n <= secs[i].Limit()
    {
      ReadableOverIs(h.rows[i], o, n);
    }
    if InRegion(h, o, n) && o + n > hdr {
      var i :| 0 <= i < |h.rows| && ReadableOver(h.rows[i], o, n);
      assert secs[i] in secs;
    }
  }

  // ---- loading ----

  predicate RowMaps(imageSize: u32, r: Row, refused: bool) {
    && r.vaddr as int + Room(Span(r)) <= imageSize as int
    && (Room(Span(r)) != 0 ==> r.vaddr % 0x1000 == 0 && !refused)
  }

  /** No mapping fails; `refused` holds the numbers of the mmap calls that the kernel turns down. */
  predicate Maps(h: Header, refused: set<nat>) {
    && h.opt.base % 0x1000 == 0 && 0 !in refused
    && Room(h.opt.headerSize) <= h.opt.imageSize as int && 1 !in refused
    && forall i :: 0 <= i < |h.rows| ==> RowMaps(h.opt.imageSize, h.rows[i], i + 2 in refused)
  }

  lemma RowMapsIs(f: seq<u8>, e: u32, h: Header, i: nat, refused: bool)
    requires Loads(|f|, e, h) && i < |h.rows|
    ensures OverlayOk(h.opt.imageSize, Columns(h.rows[i]), refused) <==> RowMaps(h.opt.imageSize, h.rows[i], refused)
  {
    assert RowFits(|f|, h.opt.imageSize, h.rows[i]);
  }

  lemma MapsIs(f: seq<u8>, e: u32, h: Header, refused: set<nat>)
    requires Says(f, e, h) && NoWrap(e) && Loads(|f|, e, h)
    ensures MapsOk(f, refused) <==> Maps(h, refused)
  {
    hide Says, Sections, OverlayOk, RowMaps, Loads;
    LoaderRows(f, e, h);
    var secs := Sections(f);
    OverlaysOkEach(h.opt.imageSize, secs, refused, |secs|);
    forall i: nat | i < |secs|
      ensures OverlayOk(h.opt.imageSize, secs[i], i + 2 in refused)
              <==> RowMaps(h.opt.imageSize, h.rows[i], i + 2 in refused)
    {
      RowMapsIs(f, e, h, i, i + 2 in refused);
    }
    assert h.opt.headerSize <= 0x8000_0000 by { HeaderBounded(f, e, h); }
  }

  lemma HeaderBounded(f: seq<u8>, e: u32, h: Header)
    requires Loads(|f|, e, h)
    ensures h.opt.headerSize <= h.opt.imageSize <= 0x8000_0000 && h.opt.headerSize as int <= |f|
  {
  }

  predicate RawOver(r: Row, a: nat) { r.vaddr as int <= a < r.vaddr as int + r.rawSize as int }

  /** Row i is the last whose raw data covers a. */
  predicate LastRaw(h: Header, i: nat, a: nat) {
    i < |h.rows| && RawOver(h.rows[i], a) && forall k :: i < k < |h.rows| ==> !RawOver(h.rows[k], a)
  }

  predicate RawsInFile(length: nat, h: Header) {
    forall i :: 0 <= i < |h.rows| ==> h.rows[i].rawPtr as int + h.rows[i].rawSize as int <= length
  }

  /** b is what byte a shows: the raw data of the last row that has any there, else the headers, else nothing. */
  ghost predicate Shows(f: seq<u8>, h: Header, a: nat, b: u8)
    requires RawsInFile(|f|, h) && h.opt.headerSize as int <= |f|
  {
    && (forall i: nat :: LastRaw(h, i, a) ==> b == f[h.rows[i].rawPtr as int + (a - h.rows[i].vaddr as int)])
    && ((forall i :: 0 <= i < |h.rows| ==> !RawOver(h.rows[i], a))
        ==> b == if a < h.opt.headerSize as int then f[a] else 0)
  }

  lemma LoadsInFile(f: seq<u8>, e: u32, h: Header)
    requires Loads(|f|, e, h)
    ensures RawsInFile(|f|, h) && h.opt.headerSize as int <= |f| && Prepares(|f|, e, h)
  {
    forall i: nat | i < |h.rows| ensures h.rows[i].rawPtr as int + h.rows[i].rawSize as int <= |f| {
      assert RowFits(|f|, h.opt.imageSize, h.rows[i]);
    }
  }

  predicate ColumnsOf(secs: seq<Section>, h: Header) {
    |secs| == |h.rows| && forall i :: 0 <= i < |secs| ==> secs[i] == Columns(h.rows[i])
  }

  lemma RowsInFile(f: seq<u8>, h: Header, secs: seq<Section>)
    requires RawsInFile(|f|, h) && ColumnsOf(secs, h)
    ensures forall s :: s in secs ==> RawInFile(f, s)
  {
  }

  lemma LastShows(f: seq<u8>, h: Header, secs: seq<Section>, a: nat, i: nat)
    requires RawsInFile(|f|, h) && h.opt.headerSize as int <= |f| && ColumnsOf(secs, h) && LastRaw(h, i, a)
    requires forall s :: s in secs ==> RawInFile(f, s)
    ensures LaidOut(f, h.opt.headerSize as int, secs, a) == f[h.rows[i].rawPtr as int + (a - h.rows[i].vaddr as int)]
  {
    hide LaidOut;
    LaidOutIsLastCover(f, h.opt.headerSize as int, secs, i, a);
  }

  lemma NoneShows(f: seq<u8>, h: Header, secs: seq<Section>, a: nat)
    requires h.opt.headerSize as int <= |f| && ColumnsOf(secs, h)
    requires forall s :: s in secs ==> RawInFile(f, s)
    requires forall i :: 0 <= i < |h.rows| ==> !RawOver(h.rows[i], a)
    ensures LaidOut(f, h.opt.headerSize as int, secs, a) == if a < h.opt.headerSize as int then f[a] else 0
  {
    hide LaidOut;
    LaidOutUncovered(f, h.opt.headerSize as int, secs, a);
  }

  /** The layout rule on sections that are these rows' columns. */
  lemma RuleShows(f: seq<u8>, h: Header, secs: seq<Section>, a: nat)
    requires RawsInFile(|f|, h) && h.opt.headerSize as int <= |f| && ColumnsOf(secs, h)
    ensures forall s :: s in secs ==> RawInFile(f, s)
    ensures Shows(f, h, a, LaidOut(f, h.opt.headerSize as int, secs, a))
  {
    hide LaidOut, ColumnsOf, RawInFile;
    RowsInFile(f, h, secs);
    forall i: nat | LastRaw(h, i, a)
      ensures LaidOut(f, h.opt.headerSize as int, secs, a) == f[h.rows[i].rawPtr as int + (a - h.rows[i].vaddr as int)]
    {
      LastShows(f, h, secs, a, i);
    }
    if forall i :: 0 <= i < |h.rows| ==> !RawOver(h.rows[i], a) { NoneShows(f, h, secs, a); }
  }

  lemma LaidOutShows(f: seq<u8>, e: u32, h: Header, a: nat)
    requires Says(f, e, h) && Loads(|f|, e, h) && PrepareAccepts(f)
    ensures RawsInFile(|f|, h) && h.opt.headerSize as int <= |f|
    ensures Shows(f, h, a, LaidOut(f, HeaderSize(f), ExactSections(f), a))
  {
    hide Says, LaidOut, PrepareAccepts, Loads, Shows, ExactSections, HeaderSize, RawsInFile;
    SaysStart(f, e, h);
    SaysOptional(f, e, h);
    SaysSections(f, e, h);
    LoadsInFile(f, e, h);
    assert ColumnsOf(ExactSections(f), h);
    RuleShows(f, h, ExactSections(f), a);
  }

  /** The page of byte a has the rights that the rows ask for. */
  ghost predicate RightsAsked(img: Image, h: Header, a: nat)
    requires a / PAGE < img.prot.Length
    reads img, img.prot
  {
    && (forall i: nat, high: nat, x: nat, low: nat :: LastOver(h, i, a) && Bit29(h.rows[i].flags, high, x, low)
            ==> img.prot[a / PAGE] == if x == 1 then ReadExec else ReadWrite)
    && (!Covered(h, a) ==> img.prot[a / PAGE] == if a < Room(h.opt.headerSize) then ReadOnly else NoAccess)
  }

  lemma PageInMap(img: Image, a: nat)
    requires img.Mapped() && a < img.size as int
    ensures a / PAGE < img.prot.Length
  {
    hide Sections;
  }

  lemma RightsAt(img: Image, e: u32, h: Header, a: nat)
    requires img.Mapped() && Says(img.file, e, h) && NoWrap(e) && a < img.size as int
    ensures a / PAGE < img.prot.Length && RightsAsked(img, h, a)
  {
    hide Says, Covers, Bit29, Image.Mapped;
    assert a / PAGE < img.prot.Length by { PageInMap(img, a); }
    forall i: nat, high: nat, x: nat, low: nat | LastOver(h, i, a) && Bit29(h.rows[i].flags, high, x, low)
      ensures img.prot[a / PAGE] == if x == 1 then ReadExec else ReadWrite
    {
      RightsExactly(img, e, h, a, i, high, x, low);
    }
    if !Covered(h, a) { RightsOutside(img, e, h, a); }
  }

  /** The mapped image is the one the headers describe. */
  ghost predicate AsWritten(img: Image, h: Header)
    reads img, img.prot
  {
    && img.Mapped() && img.base == h.opt.base && img.size == h.opt.imageSize
    && RawsInFile(|img.file|, h) && h.opt.headerSize as int <= |img.file|
    && forall a: nat :: a < img.size as int ==> a / PAGE < img.prot.Length && RightsAsked(img, h, a)
  }

  lemma MappedAsWritten(img: Image, e: u32, h: Header)
    requires img.Mapped() && Says(img.file, e, h) && NoWrap(e) && Loads(|img.file|, e, h)
    ensures AsWritten(img, h)
  {
    hide Says, Loads, RightsAsked, Sections;
    LoaderRows(img.file, e, h);
    LoadsInFile(img.file, e, h);
    forall a: nat | a < img.size as int ensures a / PAGE < img.prot.Length && RightsAsked(img, h, a) {
      RightsAt(img, e, h, a);
    }
  }

  /** Install and load a file of which the headers are known: it is refused exactly as they say, and then each mapped
      byte shows its section's raw data, the headers or zero, on a page with the rights its section's flags ask for. */
  method LoadWritten(raw: seq<u8>, ghost e: u32, ghost h: Header, refused: set<nat>) returns (img: Image, ok: bool)
    requires Says(raw, e, h) && NoWrap(e)
    ensures fresh(img) && img.file == raw
    ensures ok <==> Loads(|raw|, e, h) && Maps(h, refused)
    ensures ok ==> AsWritten(img, h)
    ensures ok ==> forall a :: 0 <= a < img.bytes.Length && img.Accessible(a) ==> Shows(raw, h, a, img.bytes[a])
  {
    hide Says, PrepareAccepts, LoaderAccepts, MapsOk, Maps, Loads, LaidOut, Shows, AsWritten, Image.Mapped, RawsInFile;
    AcceptedExactly(raw, e, h);
    img, ok := LoadPrepared(raw, refused);
    if Loads(|raw|, e, h) {
      LoadsInFile(raw, e, h);
      MapsIs(raw, e, h, refused);
    }
    if ok {
      assert AsWritten(img, h) by { MappedAsWritten(img, e, h); }
      forall a | 0 <= a < img.bytes.Length && img.Accessible(a) ensures Shows(raw, h, a, img.bytes[a]) {
        LaidOutShows(raw, e, h, a);
      }
    }
  }
}
