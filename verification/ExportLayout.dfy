/** Export tables written down as bytes (Microsoft PE/COFF specification, section 6.3), and what looking a name up in
    them yields, independently of the offsets at which it reads them. */
module ExportLayout {
  import opened Bytes
  import opened Layout
  import opened PeFile
  import opened PeLayout
  import opened PeMapping
  import opened ImageMap
  import opened ImageTheory
  import opened ImportSpec
  import opened ImportLayout
  import opened Imports
  import opened Exports

  datatype Name = Name(rva: u32, text: seq<u8>)

  /** The directory, and the tables it points to. */
  datatype Table = Table(flags: u32, stamp: u32, version: u32, dll: u32, base: u32,
                         functions: seq<u32>, names: seq<Name>, ordinals: seq<u16>,
                         functionsAt: u32, namesAt: u32, ordinalsAt: u32)
  {
    predicate Valid() {
      && |functions| < 0x1_0000_0000 && |names| < 0x1_0000_0000 && |ordinals| == |names|
      && forall i :: 0 <= i < |names| ==> 0 !in names[i].text
    }
  }

  function DirectoryWords(t: Table): (d: seq<u8>)
    requires t.Valid()
    ensures |d| == 40
  {
    hide Le32;
    Le32(t.flags) + Le32(t.stamp) + Le32(t.version) + Le32(t.dll) + Le32(t.base)
    + Le32(|t.functions|) + Le32(|t.names|) + Le32(t.functionsAt) + Le32(t.namesAt) + Le32(t.ordinalsAt)
  }

  function Functions(t: Table): (rows: seq<seq<u8>>)
    ensures |rows| == |t.functions| && Even(rows, 4)
  {
    seq(|t.functions|, i requires 0 <= i < |t.functions| => Le32(t.functions[i]))
  }

  function Names(t: Table): (rows: seq<seq<u8>>)
    ensures |rows| == |t.names| && Even(rows, 4)
  {
    seq(|t.names|, i requires 0 <= i < |t.names| => Le32(t.names[i].rva))
  }

  function Ordinals(t: Table): (rows: seq<seq<u8>>)
    ensures |rows| == |t.ordinals| && Even(rows, 2)
  {
    seq(|t.ordinals|, i requires 0 <= i < |t.ordinals| => Le16(t.ordinals[i]))
  }

  /** Directory, tables and names stand in memory. */
  ghost predicate ExportsStand(mem: seq<u8>, at: nat, t: Table) {
    && t.Valid() && At(mem, at, DirectoryWords(t)) && At(mem, t.functionsAt, Concat(Functions(t)))
    && At(mem, t.namesAt, Concat(Names(t))) && At(mem, t.ordinalsAt, Concat(Ordinals(t)))
    && forall i :: 0 <= i < |t.names| ==> At(mem, t.names[i].rva, t.names[i].text + [0])
  }

  /** Directory and tables may be used, and every name can be read whole. */
  ghost predicate TablesFit(h: Header, at: nat, t: Table) {
    && Reaches(h, at, 40) && Reaches(h, t.functionsAt, 4 * |t.functions|)
    && Reaches(h, t.namesAt, 4 * |t.names|) && Reaches(h, t.ordinalsAt, 2 * |t.names|)
    && forall i :: 0 <= i < |t.names| ==> NameFits(h, t.names[i])
  }

  ghost predicate NameFits(h: Header, n: Name) { Reaches(h, n.rva, 1) && InRegion(h, n.rva, |n.text| + 1) }

  /** The first name equal to `want`, or their number. */
  function FirstIndex(names: seq<Name>, want: seq<u8>): (i: nat)
    ensures i <= |names| && (i < |names| ==> names[i].text == want)
    ensures forall k :: 0 <= k < i ==> names[k].text != want
  {
    if names == [] || names[0].text == want then 0 else 1 + FirstIndex(names[1..], want)
  }

  /** What the name leads to: its ordinal selects a function, provided the ordinal is in the table, the exported number
      fits 32 bits, and the function may be used. */
  ghost predicate LeadsFrom(h: Header, t: Table, want: seq<u8>, rva: u32)
    requires t.Valid()
  {
    var i := FirstIndex(t.names, want);
    && i < |t.names| && t.ordinals[i] as int < |t.functions| && t.base as int + t.ordinals[i] as int < 0x1_0000_0000
    && rva == t.functions[t.ordinals[i]] && Reaches(h, rva, 1)
  }

  // ---- as the lookup reads them ----

  lemma DirectoryParts(t: Table)
    requires t.Valid()
    ensures var d := DirectoryWords(t);
            && d[16..20] == Le32(t.base) && d[20..24] == Le32(|t.functions|) && d[24..28] == Le32(|t.names|)
            && d[28..32] == Le32(t.functionsAt) && d[32..36] == Le32(t.namesAt) && d[36..40] == Le32(t.ordinalsAt)
  {
    hide Le32;
  }

  function DirOf(t: Table): ExportDir
    requires t.Valid()
  {
    ExportDir(t.base, |t.functions|, |t.names|, t.functionsAt, t.namesAt, t.ordinalsAt)
  }

  lemma DirectoryReads(mem: seq<u8>, at: nat, t: Table)
    requires t.Valid() && At(mem, at, DirectoryWords(t))
    ensures at + 40 <= |mem| && ReadExportDir(mem, at) == DirOf(t)
  {
    hide Le32, Read32, DirectoryWords;
    var d := DirectoryWords(t);
    DirectoryParts(t);
    Part32(mem, at, d, 16, t.base);
    Part32(mem, at, d, 20, |t.functions|);
    Part32(mem, at, d, 24, |t.names|);
    Part32(mem, at, d, 28, t.functionsAt);
    Part32(mem, at, d, 32, t.namesAt);
    Part32(mem, at, d, 36, t.ordinalsAt);
  }

  lemma NameReads(w: World, mem: seq<u8>, at: nat, t: Table, i: nat)
    requires ExportsStand(mem, at, t) && i < |t.names| && |mem| == w.size && TablesIn(w, DirOf(t))
    ensures NameRva(w, mem, DirOf(t), i) == t.names[i].rva
  {
    hide Le32, Read32, Concat, At, DirectoryWords, TablesIn, Functions, Ordinals;
    assert t.namesAt as int + 4 * |t.names| <= w.size by { NamesFit(w, DirOf(t)); }
    RowAt(mem, t.namesAt, Names(t), 4, i);
    Word32(mem, t.namesAt as int + 4 * i, t.names[i].rva);
  }

  lemma OrdinalReads(mem: seq<u8>, at: nat, t: Table, i: nat)
    requires ExportsStand(mem, at, t) && i < |t.names|
    ensures t.ordinalsAt as int + 2 * i + 2 <= |mem| && Read16(mem, t.ordinalsAt as int + 2 * i) == t.ordinals[i]
  {
    hide Le16, Read16, Concat, At, DirectoryWords, Functions, Names;
    RowAt(mem, t.ordinalsAt, Ordinals(t), 2, i);
    Word16(mem, t.ordinalsAt as int + 2 * i, t.ordinals[i]);
  }

  lemma FunctionReads(mem: seq<u8>, at: nat, t: Table, k: nat)
    requires ExportsStand(mem, at, t) && k < |t.functions|
    ensures t.functionsAt as int + 4 * k + 4 <= |mem| && Read32(mem, t.functionsAt as int + 4 * k) == t.functions[k]
  {
    hide Le32, Read32, Concat, At, DirectoryWords, Names, Ordinals;
    RowAt(mem, t.functionsAt, Functions(t), 4, k);
    Word32(mem, t.functionsAt as int + 4 * k, t.functions[k]);
  }

  /** Header fields are found where no 32-bit sum wraps. */
  predicate NoExportWrap(e: u32) { e as int + 140 < 0x1_0000_0000 }

  /** The export directory is the first one. */
  function ExportDirectory(h: Header): Directory { if |h.opt.dirs| > 0 then h.opt.dirs[0] else Directory(0, 0) }

  lemma ExportDirectoryIs(f: seq<u8>, e: u32, h: Header)
    requires Says(f, e, h) && NoExportWrap(e)
    ensures ExportRva(f) == ExportDirectory(h).rva && ExportSize(f) == ExportDirectory(h).size
  {
    hide Says, F32;
    SaysStart(f, e, h);
    SaysOptional(f, e, h);
    if |h.opt.dirs| > 0 { SaysDirectory(f, e, h, 0); }
  }

  lemma NameIs(w: World, mem: seq<u8>, e: u32, h: Header, at: nat, t: Table, i: nat)
    requires Fits(w) && Says(w.file, e, h) && NoExportWrap(e) && |mem| == w.size == h.opt.imageSize as int
    requires ExportsStand(mem, at, t) && i < |t.names| && NameFits(h, t.names[i])
    ensures WellFormed(w, mem, t.names[i].rva) && CString(w, mem, t.names[i].rva) == t.names[i].text
  {
    hide Fits, Says, Usable, ReadableLength, Reaches, InRegion, FirstNul, Concat, DirectoryWords;
    var n := t.names[i];
    UsableIs(w.file, e, h, n.rva, 1);
    StringRoomIs(w.file, e, h, n.rva, |n.text| + 1);
    StringFound(w, mem, n.rva, n.text);
  }

  /** The directory is taken, and its tables pass their checks. */
  lemma DirectoryTaken(w: World, mem: seq<u8>, e: u32, h: Header, t: Table)
    requires Says(w.file, e, h) && NoExportWrap(e) && |mem| == w.size == h.opt.imageSize as int
    requires w.base != 0 && ExportDirectory(h).rva != 0 && ExportDirectory(h).size >= 40
    requires ExportsStand(mem, ExportDirectory(h).rva, t) && TablesFit(h, ExportDirectory(h).rva, t)
    ensures HasDirectory(w) && TablesIn(w, DirOf(t)) && ReadExportDir(mem, ExportRva(w.file)) == DirOf(t)
  {
    hide Says, Usable, Reaches, NameFits, ReadExportDir, Concat, DirectoryWords, At, ExportRva, ExportSize;
    ExportDirectoryIs(w.file, e, h);
    var at: nat := ExportDirectory(h).rva;
    DirectoryReads(mem, at, t);
    UsableIs(w.file, e, h, at, 40);
    UsableIs(w.file, e, h, t.functionsAt, 4 * |t.functions|);
    UsableIs(w.file, e, h, t.namesAt, 4 * |t.names|);
    UsableIs(w.file, e, h, t.ordinalsAt, 2 * |t.names|);
  }

  lemma FirstNamedIs(w: World, mem: seq<u8>, e: u32, h: Header, at: nat, t: Table, want: seq<u8>, i: nat)
    requires Fits(w) && Says(w.file, e, h) && NoExportWrap(e) && |mem| == w.size == h.opt.imageSize as int
    requires ExportsStand(mem, at, t) && TablesFit(h, at, t) && TablesIn(w, DirOf(t))
    ensures FirstNamed(w, mem, DirOf(t), want, i) <==> i < |t.names| && i == FirstIndex(t.names, want)
  {
    hide Fits, Says, ExportsStand, TablesIn, WellFormed, CString, NameRva, NameFits, Reaches;
    TableValid(mem, at, t);
    forall k: nat | k < |t.names|
      ensures NameRva(w, mem, DirOf(t), k) == t.names[k].rva
      ensures WellFormed(w, mem, t.names[k].rva) && CString(w, mem, t.names[k].rva) == t.names[k].text
    {
      NameReads(w, mem, at, t, k);
      NameIs(w, mem, e, h, at, t, k);
    }
  }

  lemma LeadsIs(w: World, mem: seq<u8>, e: u32, h: Header, at: nat, t: Table, i: nat, rva: u32)
    requires Says(w.file, e, h) && NoExportWrap(e) && |mem| == w.size == h.opt.imageSize as int
    requires ExportsStand(mem, at, t) && TablesIn(w, DirOf(t)) && i < |t.names|
    ensures LeadsTo(w, mem, DirOf(t), i, rva)
            <==> t.ordinals[i] as int < |t.functions| && t.base as int + t.ordinals[i] as int < 0x1_0000_0000
                 && rva == t.functions[t.ordinals[i]] && Reaches(h, rva, 1)
  {
    hide Says, ExportsStand, Usable, Reaches, Read16, Read32;
    TableValid(mem, at, t);
    OrdinalReads(mem, at, t, i);
    if t.ordinals[i] as int < |t.functions| { FunctionReads(mem, at, t, t.ordinals[i]); }
    UsableIs(w.file, e, h, rva, 1);
  }

  /** Exported is what the written tables lead to. */
  lemma ExportedIs(w: World, mem: seq<u8>, e: u32, h: Header, t: Table, want: seq<u8>, rva: u32)
    requires Fits(w) && Says(w.file, e, h) && NoExportWrap(e) && |mem| == w.size == h.opt.imageSize as int
    requires w.base != 0 && ExportDirectory(h).rva != 0 && ExportDirectory(h).size >= 40
    requires ExportsStand(mem, ExportDirectory(h).rva, t) && TablesFit(h, ExportDirectory(h).rva, t)
    ensures Exported(w, mem, want, rva) <==> LeadsFrom(h, t, want, rva)
  {
    hide Fits, Says, ExportsStand, TablesFit, FirstNamed, LeadsTo, HasDirectory, TablesIn, ReadExportDir, Reaches;
    assert t.Valid() by { TableValid(mem, ExportDirectory(h).rva, t); }
    var at: nat, i := ExportDirectory(h).rva, FirstIndex(t.names, want);
    DirectoryTaken(w, mem, e, h, t);
    forall k: nat ensures FirstNamed(w, mem, DirOf(t), want, k) <==> k < |t.names| && k == i {
      FirstNamedIs(w, mem, e, h, at, t, want, k);
    }
    if i < |t.names| { LeadsIs(w, mem, e, h, at, t, i, rva); }
  }

  lemma TableValid(mem: seq<u8>, at: nat, t: Table)
    requires ExportsStand(mem, at, t)
    ensures t.Valid()
  {
  }

  /** Look a name up in an image of which headers and export tables are known: exactly what the first entry of that name
      leads to is returned, and nothing faults. */
  method GetWritten(img: Image, ghost e: u32, ghost h: Header, ghost t: Table, want: seq<u8>)
    returns (r: Option<u32>, fault: bool)
    requires AsWritten(img, h) && Says(img.file, e, h) && NoExportWrap(e)
    requires Fits(WorldOf(img, [])) && img.bytes.Length == img.size as int
    requires h.opt.base != 0 && ExportDirectory(h).rva != 0 && ExportDirectory(h).size >= 40
    requires ExportsStand(img.bytes[..], ExportDirectory(h).rva, t) && TablesFit(h, ExportDirectory(h).rva, t)
    ensures t.Valid() && !fault && forall rva: u32 :: r == Some(rva) <==> LeadsFrom(h, t, want, rva)
  {
    hide Fits, Says, ExportsStand, TablesFit, LeadsFrom, Exported, LookupFaults, Image.Mapped, RightsAsked, NoPhantom;
    TableValid(img.bytes[..], ExportDirectory(h).rva, t);
    NoWrapNoPhantom(img.file, e, h);
    r, fault := GetExport(img, want);
    forall rva: u32 ensures Exported(WorldOf(img, []), img.bytes[..], want, rva) <==> LeadsFrom(h, t, want, rva) {
      ExportedIs(WorldOf(img, []), img.bytes[..], e, h, t, want, rva);
    }
  }
}
