/** What a PE32+ file says, written down field after field (Microsoft PE/COFF specification, sections 3.3, 3.4 and 4),
    independently of the offsets at which script and loader read it. */
module PeLayout {
  import opened Bytes
  import opened Layout
  import opened PeFile

  // ---- the records ----

  datatype Coff = Coff(signature: u32, machine: u16, stamp: u32, symbols: u32, symbolCount: u32, optSize: u16,
                       flags: u16)

  datatype Directory = Directory(rva: u32, size: u32)

  datatype Optional = Optional(
    magic: u16, linker: u16, codeSize: u32, dataSize: u32, bssSize: u32, entry: u32, codeBase: u32,
    base: u64, align: u32, fileAlign: u32, system: u32, version: u32, subsystemVersion: u32, reserved: u32,
    imageSize: u32, headerSize: u32, checksum: u32, subsystem: u16, flags: u16,
    stackReserve: u64, stackCommit: u64, heapReserve: u64, heapCommit: u64, loaderFlags: u32,
    dirs: seq<Directory>)

  /** The name takes eight bytes; relocations, line numbers and their counts twelve. */
  datatype Row = Row(name: seq<u8>, vsize: u32, vaddr: u32, rawSize: u32, rawPtr: u32, relocs: seq<u8>, flags: u32)

  /** `magic` is the first word of the DOS header. */
  datatype Header = Header(magic: u16, coff: Coff, opt: Optional, rows: seq<Row>) {
    predicate Written() {
      |rows| < 0x1_0000 && |opt.dirs| < 0x1_0000_0000
      && forall i :: 0 <= i < |rows| ==> |rows[i].name| == 8 && |rows[i].relocs| == 12
    }
  }

  function CoffBytes(c: Coff, rows: u16): (d: seq<u8>)
    ensures |d| == 24
  {
    hide Le16, Le32;
    Le32(c.signature) + Le16(c.machine) + Le16(rows)
    + Le32(c.stamp) + Le32(c.symbols) + Le32(c.symbolCount) + Le16(c.optSize) + Le16(c.flags)
  }

  function StandardBytes(o: Optional): (d: seq<u8>)
    ensures |d| == 24
  {
    hide Le16, Le32;
    Le16(o.magic) + Le16(o.linker) + Le32(o.codeSize) + Le32(o.dataSize) + Le32(o.bssSize)
    + Le32(o.entry) + Le32(o.codeBase)
  }

  function WindowsBytes(o: Optional): (d: seq<u8>)
    ensures |d| == 44
  {
    hide Le16, Le32, Le64;
    Le64(o.base) + Le32(o.align) + Le32(o.fileAlign) + Le32(o.system) + Le32(o.version) + Le32(o.subsystemVersion)
    + Le32(o.reserved) + Le32(o.imageSize) + Le32(o.headerSize) + Le32(o.checksum)
  }

  function LimitBytes(o: Optional): (d: seq<u8>)
    requires |o.dirs| < 0x1_0000_0000
    ensures |d| == 44
  {
    hide Le16, Le32, Le64;
    Le16(o.subsystem) + Le16(o.flags) + Le64(o.stackReserve) + Le64(o.stackCommit) + Le64(o.heapReserve)
    + Le64(o.heapCommit) + Le32(o.loaderFlags) + Le32(|o.dirs|)
  }

  function DirectoryBytes(d: Directory): (r: seq<u8>)
    ensures |r| == 8
  {
    Le32(d.rva) + Le32(d.size)
  }

  function RowBytes(r: Row): (d: seq<u8>)
    requires |r.name| == 8 && |r.relocs| == 12
    ensures |d| == 40
  {
    hide Le32;
    r.name + Le32(r.vsize) + Le32(r.vaddr) + Le32(r.rawSize) + Le32(r.rawPtr) + r.relocs + Le32(r.flags)
  }

  function DirectoryTable(dirs: seq<Directory>): (rows: seq<seq<u8>>)
    ensures |rows| == |dirs| && Even(rows, 8)
  {
    seq(|dirs|, i requires 0 <= i < |dirs| => DirectoryBytes(dirs[i]))
  }

  function RowTable(h: Header): (rows: seq<seq<u8>>)
    requires h.Written()
    ensures |rows| == |h.rows| && Even(rows, 40)
  {
    seq(|h.rows|, i requires 0 <= i < |h.rows| => RowBytes(h.rows[i]))
  }

  /** The headers, in the order of the file: DOS header, and from e on signature and COFF header, optional header with
      its directories, and, behind it, the section table. */
  ghost predicate Says(f: seq<u8>, e: u32, h: Header) {
    && h.Written()
    && At(f, 0, Le16(h.magic)) && At(f, 60, Le32(e))
    && At(f, e, CoffBytes(h.coff, |h.rows|))
    && At(f, e as int + 24, StandardBytes(h.opt))
    && At(f, e as int + 48, WindowsBytes(h.opt))
    && At(f, e as int + 92, LimitBytes(h.opt))
    && At(f, e as int + 136, Concat(DirectoryTable(h.opt.dirs)))
    && At(f, e as int + 24 + h.coff.optSize as int, Concat(RowTable(h)))
  }

  /** Such a file, written from end to end: its headers without gaps, and anything behind them. */
  function File(h: Header, stub: seq<u8>, tail: seq<u8>): seq<u8>
    requires h.Written()
  {
    Le16(h.magic) + (stub + (Le32(64) + (CoffBytes(h.coff, |h.rows|) + Body(h, tail))))
  }

  function Body(h: Header, tail: seq<u8>): seq<u8>
    requires h.Written()
  {
    StandardBytes(h.opt)
    + (WindowsBytes(h.opt)
       + (LimitBytes(h.opt) + (Concat(DirectoryTable(h.opt.dirs)) + (Concat(RowTable(h)) + tail))))
  }

  lemma BodySays(f: seq<u8>, o: nat, h: Header, tail: seq<u8>)
    requires h.Written() && At(f, o, Body(h, tail))
    ensures At(f, o, StandardBytes(h.opt)) && At(f, o + 24, WindowsBytes(h.opt)) && At(f, o + 68, LimitBytes(h.opt))
    ensures At(f, o + 112, Concat(DirectoryTable(h.opt.dirs)))
    ensures At(f, o + 112 + 8 * |h.opt.dirs|, Concat(RowTable(h)))
  {
    hide At, StandardBytes, WindowsBytes, LimitBytes, Concat, DirectoryTable, RowTable;
    var rows, dirs := Concat(RowTable(h)), Concat(DirectoryTable(h.opt.dirs));
    ConcatLength(DirectoryTable(h.opt.dirs), 8);
    AtParts(f, o, StandardBytes(h.opt), WindowsBytes(h.opt) + (LimitBytes(h.opt) + (dirs + (rows + tail))));
    AtParts(f, o + 24, WindowsBytes(h.opt), LimitBytes(h.opt) + (dirs + (rows + tail)));
    AtParts(f, o + 68, LimitBytes(h.opt), dirs + (rows + tail));
    AtParts(f, o + 112, dirs, rows + tail);
    AtParts(f, o + 112 + 8 * |h.opt.dirs|, rows, tail);
  }

  /** What is written is what the file says. */
  lemma FileSays(h: Header, stub: seq<u8>, tail: seq<u8>)
    requires h.Written() && |stub| == 58 && h.coff.optSize as int == 112 + 8 * |h.opt.dirs|
    ensures Says(File(h, stub, tail), 64, h)
  {
    hide At, CoffBytes, StandardBytes, WindowsBytes, LimitBytes, Concat, DirectoryTable, RowTable, Body, Le16, Le32;
    var f, coff, body := File(h, stub, tail), CoffBytes(h.coff, |h.rows|), Body(h, tail);
    WholeAt(f);
    AtParts(f, 0, Le16(h.magic), stub + (Le32(64) + (coff + body)));
    AtParts(f, 2, stub, Le32(64) + (coff + body));
    AtParts(f, 60, Le32(64), coff + body);
    AtParts(f, 64, coff, body);
    BodySays(f, 88, h, tail);
  }

  lemma WholeAt(f: seq<u8>)
    ensures At(f, 0, f)
  {
    assert f[0..|f|] == f;
  }

  // ---- the fields again ----

  lemma CoffParts(c: Coff, n: u16)
    ensures var d := CoffBytes(c, n);
            && d[0..4] == Le32(c.signature) && d[4..6] == Le16(c.machine) && d[6..8] == Le16(n)
            && d[20..22] == Le16(c.optSize)
  {
    hide Le16, Le32;
  }

  lemma StandardParts(o: Optional)
    ensures var d := StandardBytes(o); d[0..2] == Le16(o.magic) && d[16..20] == Le32(o.entry)
  {
    hide Le16, Le32;
  }

  lemma WindowsParts(o: Optional)
    ensures var d := WindowsBytes(o);
            d[0..8] == Le64(o.base) && d[32..36] == Le32(o.imageSize) && d[36..40] == Le32(o.headerSize)
  {
    hide Le32, Le64;
  }

  lemma LimitParts(o: Optional)
    requires |o.dirs| < 0x1_0000_0000
    ensures LimitBytes(o)[40..44] == Le32(|o.dirs|)
  {
    hide Le16, Le32, Le64;
  }

  lemma RowParts(r: Row)
    requires |r.name| == 8 && |r.relocs| == 12
    ensures var d := RowBytes(r);
            && d[8..12] == Le32(r.vsize) && d[12..16] == Le32(r.vaddr) && d[16..20] == Le32(r.rawSize)
            && d[20..24] == Le32(r.rawPtr) && d[36..40] == Le32(r.flags)
  {
    hide Le32;
  }

  lemma Field16(f: seq<u8>, o: nat, d: seq<u8>, i: nat, v: u16)
    requires At(f, o, d) && i + 2 <= |d| && d[i..i + 2] == Le16(v)
    ensures F16(f, o + i) == v
  {
    hide Le16, Read16;
    Part16(f, o, d, i, v);
  }

  lemma Field32(f: seq<u8>, o: nat, d: seq<u8>, i: nat, v: u32)
    requires At(f, o, d) && i + 4 <= |d| && d[i..i + 4] == Le32(v)
    ensures F32(f, o + i) == v
  {
    hide Le32, Read32;
    Part32(f, o, d, i, v);
  }

  lemma Field64(f: seq<u8>, o: nat, d: seq<u8>, i: nat, v: u64)
    requires At(f, o, d) && i + 8 <= |d| && d[i..i + 8] == Le64(v)
    ensures F64(f, o + i) == v
  {
    hide Le64, Read64;
    Part64(f, o, d, i, v);
  }

  lemma SaysStart(f: seq<u8>, e: u32, h: Header)
    requires Says(f, e, h)
    ensures |f| >= 0x40 && F16(f, 0) == h.magic && Lfanew(f) == e && InFile(f, e, 24)
    ensures F32(f, e) == h.coff.signature && MachineAt(f, e) == h.coff.machine
    ensures NumSecsAt(f, e) == |h.rows| && OptSizeAt(f, e) == h.coff.optSize
  {
    hide Le16, Le32, CoffBytes, StandardBytes, WindowsBytes, LimitBytes, Concat, F16, F32;
    Field16(f, 0, Le16(h.magic), 0, h.magic);
    Field32(f, 60, Le32(e), 0, e);
    var d := CoffBytes(h.coff, |h.rows|);
    CoffParts(h.coff, |h.rows|);
    Field32(f, e, d, 0, h.coff.signature);
    Field16(f, e, d, 4, h.coff.machine);
    Field16(f, e, d, 6, |h.rows|);
    Field16(f, e, d, 20, h.coff.optSize);
  }

  lemma SaysOptional(f: seq<u8>, e: u32, h: Header)
    requires Says(f, e, h) && Lfanew(f) == e
    ensures F16(f, Opt(f)) == h.opt.magic && Entry(f) == h.opt.entry && ImageBase(f) == h.opt.base
    ensures ImageSize(f) == h.opt.imageSize && HeaderSize(f) == h.opt.headerSize && NumDirs(f) == |h.opt.dirs|
  {
    hide Le16, Le32, Le64, CoffBytes, StandardBytes, WindowsBytes, LimitBytes, Concat, F16, F32, F64;
    StandardParts(h.opt);
    Field16(f, e as int + 24, StandardBytes(h.opt), 0, h.opt.magic);
    Field32(f, e as int + 24, StandardBytes(h.opt), 16, h.opt.entry);
    WindowsParts(h.opt);
    Field64(f, e as int + 48, WindowsBytes(h.opt), 0, h.opt.base);
    Field32(f, e as int + 48, WindowsBytes(h.opt), 32, h.opt.imageSize);
    Field32(f, e as int + 48, WindowsBytes(h.opt), 36, h.opt.headerSize);
    LimitParts(h.opt);
    Field32(f, e as int + 92, LimitBytes(h.opt), 40, |h.opt.dirs|);
  }

  /** The columns that are read. */
  function Columns(r: Row): Section { Section(r.vsize, r.vaddr, r.rawSize, r.rawPtr, r.flags) }

  lemma SaysRow(f: seq<u8>, o: nat, r: Row)
    requires |r.name| == 8 && |r.relocs| == 12 && At(f, o, RowBytes(r))
    ensures SectionAt(f, o) == Columns(r)
  {
    hide Le32, RowBytes, F32;
    var d := RowBytes(r);
    RowParts(r);
    Field32(f, o, d, 8, r.vsize);
    Field32(f, o, d, 12, r.vaddr);
    Field32(f, o, d, 16, r.rawSize);
    Field32(f, o, d, 20, r.rawPtr);
    Field32(f, o, d, 36, r.flags);
  }

  lemma SaysRowAt(f: seq<u8>, e: u32, h: Header, i: nat)
    requires Says(f, e, h) && i < |h.rows|
    ensures SectionAt(f, e as int + 24 + h.coff.optSize as int + 40 * i) == Columns(h.rows[i])
  {
    hide Le16, Le32, CoffBytes, StandardBytes, WindowsBytes, LimitBytes;
    hide Concat, RowBytes, SectionAt, At, DirectoryTable;
    var o := e as int + 24 + h.coff.optSize as int;
    RowAt(f, o, RowTable(h), 40, i);
    SaysRow(f, o + 40 * i, h.rows[i]);
  }

  /** The section table that script and loader work on: row i's columns. */
  lemma SaysSections(f: seq<u8>, e: u32, h: Header)
    requires Says(f, e, h)
    ensures var secs := ExactSections(f);
            |secs| == |h.rows| && forall i :: 0 <= i < |secs| ==> secs[i] == Columns(h.rows[i])
    ensures InFile(f, e as int + 24 + h.coff.optSize as int, 40 * |h.rows|)
  {
    hide Says, SectionAt, NumSecsAt, OptSizeAt, Lfanew;
    SaysStart(f, e, h);
    forall i: nat | i < |h.rows| ensures ExactSections(f)[i] == Columns(h.rows[i]) { SaysRowAt(f, e, h, i); }
    TableFits(f, e, h);
  }

  lemma TableFits(f: seq<u8>, e: u32, h: Header)
    requires Says(f, e, h)
    ensures InFile(f, e as int + 24 + h.coff.optSize as int, 40 * |h.rows|)
  {
    hide Le16, Le32, CoffBytes, StandardBytes, WindowsBytes, LimitBytes, Concat, RowBytes, DirectoryTable;
    ConcatLength(RowTable(h), 40);
  }

  lemma SaysDirectory(f: seq<u8>, e: u32, h: Header, k: nat)
    requires Says(f, e, h) && k < |h.opt.dirs|
    ensures F32(f, e as int + 136 + 8 * k) == h.opt.dirs[k].rva && F32(f, e as int + 140 + 8 * k) == h.opt.dirs[k].size
  {
    hide Le16, Le32, CoffBytes, StandardBytes, WindowsBytes, LimitBytes, Concat, RowTable, F32;
    var o, d := e as int + 136, h.opt.dirs[k];
    RowAt(f, o, DirectoryTable(h.opt.dirs), 8, k);
    Field32(f, o + 8 * k, DirectoryBytes(d), 0, d.rva);
    Field32(f, o + 8 * k, DirectoryBytes(d), 4, d.size);
  }

  // ---- which files are accepted ----

  /** The larger of a section's two sizes. */
  function Span(r: Row): nat { if r.vsize > r.rawSize then r.vsize else r.rawSize }

  predicate RowFits(length: nat, imageSize: u32, r: Row) {
    r.vaddr as int + Span(r) <= imageSize as int && r.rawPtr as int + r.rawSize as int <= length
  }

  /** The script takes such a file of this length. */
  predicate Prepares(length: nat, e: u32, h: Header) {
    && h.magic == 0x5a4d && h.coff.signature == 0x4550 && h.coff.machine == 0x8664 && h.opt.magic == 0x20b
    && h.coff.optSize >= 112 && e as int + 24 + h.coff.optSize as int <= length
    && 0 < h.opt.headerSize <= h.opt.imageSize && h.opt.headerSize as int <= length
    && forall i :: 0 <= i < |h.rows| ==> RowFits(length, h.opt.imageSize, h.rows[i])
  }

  /** So does the loader, besides. */
  predicate Loads(length: nat, e: u32, h: Header) {
    && Prepares(length, e, h) && h.opt.imageSize <= 0x8000_0000 && h.opt.entry < h.opt.imageSize
    && |h.opt.dirs| <= 16 && 112 + 8 * |h.opt.dirs| <= h.coff.optSize as int
  }

  lemma ColumnsPlaced(f: seq<u8>, size: u32, r: Row)
    ensures Placed(f, size, Columns(r)) <==> RowFits(|f|, size, r)
  {
  }

  lemma AllPlacedIs(f: seq<u8>, h: Header, size: u32, secs: seq<Section>)
    requires |secs| == |h.rows| && forall i :: 0 <= i < |secs| ==> secs[i] == Columns(h.rows[i])
    ensures (forall s :: s in secs ==> Placed(f, size, s))
            <==> forall i :: 0 <= i < |h.rows| ==> RowFits(|f|, size, h.rows[i])
  {
    hide Placed, RowFits;
    forall i | 0 <= i < |h.rows| ensures Placed(f, size, secs[i]) <==> RowFits(|f|, size, h.rows[i]) {
      ColumnsPlaced(f, size, h.rows[i]);
    }
    assert forall i :: 0 <= i < |secs| ==> secs[i] in secs;
  }

  /** Script and loader accept exactly the files whose header says so, the loader while its 32-bit sums do not wrap. */
  lemma AcceptedExactly(f: seq<u8>, e: u32, h: Header)
    requires Says(f, e, h)
    ensures PrepareAccepts(f) <==> Prepares(|f|, e, h)
    ensures e as int + 20 < 0x1_0000_0000 ==> (LoaderAccepts(f) <==> Loads(|f|, e, h))
  {
    hide Says, F16, F32, F64, SectionAt, Placed, RowFits;
    SaysStart(f, e, h);
    SaysOptional(f, e, h);
    SaysSections(f, e, h);
    AllPlacedIs(f, h, h.opt.imageSize, ExactSections(f));
  }
}
