/** An ELF64 file as its headers are written, and the bytes extraction takes from it, independently of the offsets at
    which it reads them. */
module ElfLayout {
  import opened Bytes
  import opened Layout
  import opened SymbolListing
  import opened FirmwareElf

  /** The file header; `pad` is the rest of its identification. */
  datatype Header = Header(
    magic: seq<u8>, cls: u8, order: u8, current: u8, pad: seq<u8>, kind: u16, machine: u16, version: u32, entry: u64,
    phoff: u64, shoff: u64, flags: u32, ehsize: u16, phentsize: u16, phnum: u16, shentsize: u16, shnum: u16,
    shstrndx: u16)
  {
    predicate Written() { |magic| == 4 && |pad| == 9 }
  }

  datatype Part = Part(name: u32, kind: u32, flags: u64, addr: u64, off: u64, size: u64, link: u32, info: u32,
                       align: u64, entsize: u64)

  function HeaderBytes(h: Header): (d: seq<u8>)
    requires h.Written()
    ensures |d| == 64
  {
    hide Le16, Le32, Le64;
    h.magic + [h.cls, h.order, h.current] + h.pad + Le16(h.kind) + Le16(h.machine) + Le32(h.version) + Le64(h.entry)
    + Le64(h.phoff) + Le64(h.shoff) + Le32(h.flags) + Le16(h.ehsize) + Le16(h.phentsize) + Le16(h.phnum)
    + Le16(h.shentsize) + Le16(h.shnum) + Le16(h.shstrndx)
  }

  function PartBytes(p: Part): (d: seq<u8>)
    ensures |d| == 64
  {
    hide Le32, Le64;
    Le32(p.name) + Le32(p.kind) + Le64(p.flags) + Le64(p.addr) + Le64(p.off) + Le64(p.size) + Le32(p.link)
    + Le32(p.info) + Le64(p.align) + Le64(p.entsize)
  }

  /** The file starts with this header, and these section headers stand where it says. */
  ghost predicate Says(d: seq<u8>, h: Header, parts: seq<Part>) {
    && h.Written() && At(d, 0, HeaderBytes(h)) && |parts| == h.shnum as int
    && forall i: nat :: i < |parts| ==> PartStands(d, h, parts, i)
  }

  predicate PartStands(d: seq<u8>, h: Header, parts: seq<Part>, i: nat)
    requires i < |parts|
  {
    var o := i * h.shentsize as int;
    0 <= o && At(d, h.shoff as int + o, PartBytes(parts[i]))
  }

  /** A current little-endian ELF64 executable or shared object with a whole section table. */
  predicate Accepted(d: seq<u8>, h: Header) {
    && h.magic == [0x7f, 0x45, 0x4c, 0x46] && h.cls == 2 && h.order == 1 && h.current == 1
    && (h.kind == 2 || h.kind == 3)
    && h.ehsize >= 64 && h.shentsize >= 64 && h.shnum > 0 && h.shstrndx < h.shnum
    && h.shoff as int + h.shnum as int * h.shentsize as int <= |d|
  }

  predicate Holds(p: Part, v: nat) { p.addr as int <= v < p.addr as int + p.size as int }

  /** Kind 8 is a section without bytes in the file. */
  predicate Backed(p: Part) { p.kind != 8 }

  /** Symbol k is the only one of that name and not empty, and section j the only one that holds its address; it has
      bytes in the file and all of the symbol, and no section reaches past the end of the file. */
  predicate Placed(d: seq<u8>, parts: seq<Part>, symbols: seq<Symbol>, k: nat, j: nat) {
    && k < |symbols| && j < |parts|
    && symbols[k].name == "FOCALFP_9338_FW_APP" && symbols[k].size > 0
    && (forall i :: 0 <= i < |symbols| && symbols[i].name == "FOCALFP_9338_FW_APP" ==> i == k)
    && Holds(parts[j], symbols[k].addr)
    && (forall i :: 0 <= i < |parts| && Holds(parts[i], symbols[k].addr) ==> i == j)
    && (forall i :: 0 <= i < |parts| && Backed(parts[i]) && parts[i].size > 0
            ==> parts[i].off as int + parts[i].size as int <= |d|)
    && Backed(parts[j]) && symbols[k].addr + symbols[k].size <= parts[j].addr as int + parts[j].size as int
  }

  /** The bytes as far behind the section's offset as the symbol's address is behind the section's. */
  predicate Selects(d: seq<u8>, parts: seq<Part>, symbols: seq<Symbol>, k: nat, j: nat, r: Option<seq<u8>>) {
    && k < |symbols| && j < |parts|
    && var o, n := parts[j].off as int + symbols[k].addr - parts[j].addr as int, symbols[k].size;
       0 <= o && o + n <= |d| && r == Some(d[o..o + n])
  }

  // ---- the fields again ----

  lemma HeaderParts(h: Header)
    requires h.Written()
    ensures var d := HeaderBytes(h);
            && d[0..4] == h.magic && d[4] == h.cls && d[5] == h.order && d[6] == h.current
            && d[16..18] == Le16(h.kind) && d[40..48] == Le64(h.shoff)
  {
    hide Le16, Le32, Le64;
  }

  lemma TableParts(h: Header)
    requires h.Written()
    ensures var d := HeaderBytes(h);
            && d[52..54] == Le16(h.ehsize) && d[58..60] == Le16(h.shentsize) && d[60..62] == Le16(h.shnum)
            && d[62..64] == Le16(h.shstrndx)
  {
    hide Le16, Le32, Le64;
  }

  lemma PartParts(p: Part)
    ensures var d := PartBytes(p);
            && d[4..8] == Le32(p.kind) && d[16..24] == Le64(p.addr) && d[24..32] == Le64(p.off)
            && d[32..40] == Le64(p.size)
  {
    hide Le32, Le64;
  }

  lemma SaysHeader(d: seq<u8>, h: Header)
    requires h.Written() && At(d, 0, HeaderBytes(h))
    ensures |d| >= 64 && d[0..4] == h.magic && d[4] == h.cls && d[5] == h.order && d[6] == h.current
    ensures Read16(d, 16) == h.kind && Shoff(d) == h.shoff as int
  {
    hide Le16, Le64, Read16, Read64, HeaderBytes;
    var b := HeaderBytes(h);
    HeaderParts(h);
    assert d[0..64] == b && d[0..4] == b[0..4] && d[4] == b[4] && d[5] == b[5] && d[6] == b[6];
    Part16(d, 0, b, 16, h.kind);
    Part64(d, 0, b, 40, h.shoff);
  }

  lemma SaysTable(d: seq<u8>, h: Header)
    requires h.Written() && At(d, 0, HeaderBytes(h))
    ensures |d| >= 64 && Read16(d, 52) == h.ehsize && Entry(d) == h.shentsize as int
    ensures NumSections(d) == h.shnum as int && Read16(d, 62) == h.shstrndx
  {
    hide Le16, Read16, HeaderBytes;
    var b := HeaderBytes(h);
    TableParts(h);
    Part16(d, 0, b, 52, h.ehsize);
    Part16(d, 0, b, 58, h.shentsize);
    Part16(d, 0, b, 60, h.shnum);
    Part16(d, 0, b, 62, h.shstrndx);
  }

  /** The header checks pass exactly on accepted headers. */
  lemma AcceptedExactly(d: seq<u8>, h: Header)
    requires h.Written() && At(d, 0, HeaderBytes(h))
    ensures |d| >= 64 && (IsElf(d) && HasTable(d) <==> Accepted(d, h))
  {
    hide HeaderBytes, Read16, Read64, Shoff, Entry, NumSections;
    SaysHeader(d, h);
    SaysTable(d, h);
    assert d[..4] == d[0..4];
  }

  lemma SaysPart(d: seq<u8>, h: Header, parts: seq<Part>, i: nat)
    requires Says(d, h, parts) && |d| >= 64 && HasTable(d) && i < |parts|
    ensures NumSections(d) == |parts|
    ensures SectionAt(d, i) == Section(parts[i].kind, parts[i].addr, parts[i].off, parts[i].size)
  {
    hide Le32, Le64, Read32, Read64, HeaderBytes, PartBytes, HasTable, Shoff, Entry, NumSections;
    SaysHeader(d, h);
    SaysTable(d, h);
    var p, o := parts[i], h.shoff as int + i * h.shentsize as int;
    assert PartStands(d, h, parts, i);
    var b := PartBytes(p);
    PartParts(p);
    assert EntryAt(d, i) == o by { EntryIs(d, h, i); }
    Part32(d, o, b, 4, p.kind);
    Part64(d, o, b, 16, p.addr);
    Part64(d, o, b, 24, p.off);
    Part64(d, o, b, 32, p.size);
  }

  lemma EntryIs(d: seq<u8>, h: Header, i: nat)
    requires |d| >= 64 && HasTable(d) && i < NumSections(d)
    requires Shoff(d) == h.shoff as int && Entry(d) == h.shentsize as int
    ensures EntryAt(d, i) == h.shoff as int + i * h.shentsize as int
  {
    hide HasTable, Shoff, Entry, NumSections;
  }

  lemma LocatedIs(d: seq<u8>, h: Header, parts: seq<Part>, symbols: seq<Symbol>, k: nat, j: nat)
    requires Says(d, h, parts) && forall i :: 0 <= i < |symbols| ==> symbols[i].Printable()
    ensures var rows := Table(Printed(RowsOf(symbols)));
            && (Located(d, rows, k, j) <==> Accepted(d, h) && Placed(d, parts, symbols, k, j))
            && (Located(d, rows, k, j) ==> Selects(d, parts, symbols, k, j, Some(Payload(d, rows, k, j))))
  {
    hide Says, Table, Printed, RowsOf, IsElf, HasTable, SectionAt, OnlyRow, Symbol.Printable, Accepted, NumSections;
    var rows := Table(Printed(RowsOf(symbols)));
    if k < |symbols| { PrintedListing(symbols, k); } else { PrintedRows(symbols); }
    HeaderIs(d, h, parts);
    if Accepted(d, h) {
      forall i: nat | i < |parts|
        ensures NumSections(d) == |parts|
        ensures SectionAt(d, i) == Section(parts[i].kind, parts[i].addr, parts[i].off, parts[i].size)
      {
        SaysPart(d, h, parts, i);
      }
    }
  }

  lemma HeaderIs(d: seq<u8>, h: Header, parts: seq<Part>)
    requires Says(d, h, parts)
    ensures |d| >= 64 && (IsElf(d) && HasTable(d) <==> Accepted(d, h)) && NumSections(d) == |parts|
  {
    hide HeaderBytes, IsElf, HasTable, Accepted, PartStands, NumSections;
    AcceptedExactly(d, h);
    SaysTable(d, h);
  }

  lemma PrintedRows(symbols: seq<Symbol>)
    requires forall i :: 0 <= i < |symbols| ==> symbols[i].Printable()
    ensures |Table(Printed(RowsOf(symbols)))| == |symbols|
  {
    hide Table, Printed, RowOfWords, Symbol.Printable;
    forall i: nat | i < |symbols| ensures RowOfWords(RowsOf(symbols)[i]) { PrintedRow(symbols[i], 16); }
    TableBack(RowsOf(symbols));
  }

  /** Read the firmware from a file whose headers are known, by the listing of its symbols as printed: it is found
      exactly when the file is accepted and the symbol is placed, and then it is the bytes that the symbol's address and
      size select. */
  method ExtractWritten(d: seq<u8>, ghost h: Header, ghost parts: seq<Part>, symbols: seq<Symbol>)
    returns (r: Option<seq<u8>>)
    requires Says(d, h, parts) && forall i :: 0 <= i < |symbols| ==> symbols[i].Printable()
    ensures r.Some? <==> Accepted(d, h) && exists k, j :: Placed(d, parts, symbols, k, j)
    ensures forall k, j :: Accepted(d, h) && Placed(d, parts, symbols, k, j) ==> Selects(d, parts, symbols, k, j, r)
  {
    hide Says, Table, Printed, RowsOf, Located, Placed, Accepted, Payload, Selects, Symbol.Printable;
    r := ReadFirmware(d, Printed(RowsOf(symbols)));
    ghost var rows := Table(Printed(RowsOf(symbols)));
    forall k: nat, j: nat
      ensures Located(d, rows, k, j) <==> Accepted(d, h) && Placed(d, parts, symbols, k, j)
      ensures Located(d, rows, k, j) ==> Selects(d, parts, symbols, k, j, r)
    {
      LocatedIs(d, h, parts, symbols, k, j);
    }
  }
}
