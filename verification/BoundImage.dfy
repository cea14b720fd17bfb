/** From a written file to a bound image: everything load_pe does before thread-local storage, told from headers and
    import tables as they are written. */
module BoundImage {
  import opened Bytes
  import opened PeFile
  import opened PeLayout
  import opened PeMapping
  import opened ImageMap
  import opened ImageTheory
  import opened AccessLog
  import opened ImportSpec
  import opened ImportTables
  import opened ImportTheory
  import opened ImportFaults
  import opened ImportLayout
  import opened Imports
  import opened Loader

  /** The import directory is the second one. */
  function ImportDirectory(h: Header): Directory { if |h.opt.dirs| > 1 then h.opt.dirs[1] else Directory(0, 0) }

  function Start(h: Header): nat { ImportDirectory(h).rva }

  lemma DirectoryIs(f: seq<u8>, e: u32, h: Header)
    requires Says(f, e, h)
    ensures ImportRva(f) == Start(h) && ImportSize(f) == ImportDirectory(h).size
  {
    hide Says, F32;
    SaysStart(f, e, h);
    SaysOptional(f, e, h);
    if |h.opt.dirs| > 1 { SaysDirectory(f, e, h, 1); }
  }

  // ---- the checks, on the written headers ----

  ghost predicate NameFits(h: Header, i: Import)
    requires i.ByName?
  {
    Reaches(h, i.at, 3) && InRegion(h, i.at + 2, |i.name| + 1)
  }

  ghost predicate DllFits(h: Header, d: Dll) {
    && d.name != 0 && d.fthunk != 0 && Reaches(h, d.name, 1)
    && (forall a :: d.fthunk as int <= a < d.fthunk as int + 8 ==> Covered(h, a))
    && Reaches(h, d.Table(), 8 * |d.imports| + 8) && Reaches(h, d.fthunk, 8 * |d.imports| + 8)
    && forall j :: 0 <= j < |d.imports| && d.imports[j].ByName? ==> NameFits(h, d.imports[j])
  }

  /** The directory has room for the descriptors, and every descriptor, thunk, slot and name is where it may be. */
  ghost predicate TablesFit(h: Header, dlls: seq<Dll>) {
    && h.opt.base != 0 && Reaches(h, Start(h), ImportDirectory(h).size)
    && 20 * |dlls| + 20 <= ImportDirectory(h).size as int
    && forall k :: 0 <= k < |dlls| ==> DllFits(h, dlls[k])
  }

  lemma ReadableIsFits(w: World, e: u32, h: Header, i: Import)
    requires Fits(w) && Says(w.file, e, h) && NoWrap(e) && w.size == h.opt.imageSize as int && i.ByName?
    ensures Readable(w, i) <==> NameFits(h, i)
  {
    hide Fits, Says, Usable, ReadableLength, Reaches, InRegion;
    UsableIs(w.file, e, h, i.at, 3);
    StringRoomIs(w.file, e, h, i.at + 2, |i.name| + 1);
    if Reaches(h, i.at, 3) { LastOfThree(h, i.at); }
  }

  lemma LastOfThree(h: Header, o: nat)
    requires Reaches(h, o, 3)
    ensures Reaches(h, o + 2, 1)
  {
    hide Covered;
  }

  lemma AcceptedIsFits(w: World, e: u32, h: Header, d: Dll)
    requires Fits(w) && Says(w.file, e, h) && NoWrap(e) && w.size == h.opt.imageSize as int
    ensures DllAccepted(w, d) <==> DllFits(h, d)
  {
    hide Fits, Says, Usable, Readable, Reaches, NameFits, Sections, SectionCovers, Covered;
    UsableIs(w.file, e, h, d.name, 1);
    UsableIs(w.file, e, h, d.Table(), 8 * |d.imports| + 8);
    UsableIs(w.file, e, h, d.fthunk, 8 * |d.imports| + 8);
    forall a: nat ensures SectionCovers(Sections(w.file), a) <==> Covered(h, a) { CoveredIs(w.file, e, h, a); }
    forall j | 0 <= j < |d.imports| && d.imports[j].ByName?
      ensures Readable(w, d.imports[j]) <==> NameFits(h, d.imports[j])
    {
      ReadableIsFits(w, e, h, d.imports[j]);
    }
  }

  /** The walk accepts the tables exactly when they fit. */
  lemma TablesOkIsFit(w: World, mem: seq<u8>, e: u32, h: Header, dlls: seq<Dll>)
    requires Fits(w) && Says(w.file, e, h) && NoWrap(e) && |mem| == w.size == h.opt.imageSize as int
    requires Start(h) != 0 && w.base == h.opt.base && Stand(mem, Start(h), dlls)
    ensures TablesOk(w, mem) <==> TablesFit(h, dlls)
  {
    hide Fits, Says, Usable, Reaches, DllAccepted, DllFits, Stand, TablesOk, ImportRva, ImportSize;
    DirectoryIs(w.file, e, h);
    TablesOkIs(w, mem, dlls);
    UsableIs(w.file, e, h, Start(h), ImportDirectory(h).size);
    forall k | 0 <= k < |dlls| ensures DllAccepted(w, dlls[k]) <==> DllFits(h, dlls[k]) {
      AcceptedIsFits(w, e, h, dlls[k]);
    }
  }

  // ---- the slots that may be written ----

  /** The last row over byte a does not ask for execution. */
  ghost predicate Writable(h: Header, a: nat) {
    exists i: nat :: LastOver(h, i, a) && DataRow(h.rows[i])
  }

  /** Bit 29 of its flags is clear. */
  ghost predicate DataRow(r: Row) { exists high, low :: Bit29(r.flags, high, 0, low) }

  ghost predicate SlotsWritable(h: Header, dlls: seq<Dll>) {
    forall k: nat, a: nat :: k < |dlls| && SlotByte(dlls[k], a) ==> Writable(h, a)
  }

  lemma DataRowIs(r: Row)
    ensures DataRow(r) <==> !Columns(r).Executable()
  {
    var f := r.flags as int;
    var high, x, low := f / 0x4000_0000, f / 0x2000_0000 % 2, f % 0x2000_0000;
    assert Bit29(r.flags, high, x, low);
    if high', low' :| Bit29(r.flags, high', 0, low') { ExecutableIs(r, high', 0, low'); }
  }

  lemma WritableIs(f: seq<u8>, e: u32, h: Header, a: nat)
    requires Says(f, e, h) && NoWrap(e)
    ensures WritableByTable(Sections(f), a) <==> Writable(h, a)
  {
    hide Says, Covers, Sections, DataRow;
    LoaderRows(f, e, h);
    var secs := Sections(f);
    forall i: nat | i < |secs|
      ensures (secs[i].OnPages(a) <==> Covers(h.rows[i], a)) && (secs[i].Executable() <==> !DataRow(h.rows[i]))
    {
      ColumnsCover(h.rows[i], a);
      DataRowIs(h.rows[i]);
    }
    if i: nat :| LastOver(h, i, a) && DataRow(h.rows[i]) { assert IsLastOn(secs, i, a); }
  }

  /** The slots that the loader comes to on fitting tables may all be written exactly when their bytes may. */
  lemma SlotsWritableIs(img: Image, shims: seq<Shim>, mem: seq<u8>, e: u32, h: Header, dlls: seq<Dll>)
    requires Says(img.file, e, h) && NoWrap(e) && Start(h) != 0 && Stand(mem, Start(h), dlls)
    requires Fits(WorldOf(img, shims)) && |mem| == img.size as int && TablesOk(WorldOf(img, shims), mem)
    ensures SlotsWritable(h, dlls)
            <==> forall k, j :: ComesTo(WorldOf(img, shims), mem, k, j) ==> SlotWritable(img, mem, k, j)
  {
    hide Fits, Says, Stand, Writable, WritableByTable, TablesOk, ComesTo, Live, DescNo, ImportRva, Sections;
    DirectoryIs(img.file, e, h);
    var w, rva: nat := WorldOf(img, shims), Start(h);
    forall a: nat ensures WritableByTable(Sections(img.file), a) <==> Writable(h, a) { WritableIs(img.file, e, h, a); }
    forall k: nat, j: nat
      ensures ComesTo(w, mem, k, j) <==> k < |dlls| && j < |dlls[k].imports|
      ensures ComesTo(w, mem, k, j) ==> Slot(DescNo(mem, rva, k), j) == dlls[k].fthunk as int + 8 * j
    {
      ComesToLive(w, mem, k, j);
      LiveIs(mem, rva, dlls, k, j);
    }
    if forall k, j :: ComesTo(w, mem, k, j) ==> SlotWritable(img, mem, k, j) {
      forall k: nat, a: nat | k < |dlls| && SlotByte(dlls[k], a) ensures Writable(h, a) {
        var j := (a - dlls[k].fthunk as int) / 8;
        assert ComesTo(w, mem, k, j) && SlotWritable(img, mem, k, j);
      }
    }
  }

  // ---- the whole way ----

  /** How binding these tables ends: well exactly when they fit and every slot lies in data, then with every slot
      holding what its import asks for and no other byte changed; with a fault when they fit and some slot does not. */
  ghost predicate EndsAsWritten(h: Header, shims: seq<Shim>, dlls: seq<Dll>, laid: seq<u8>, r: Run) {
    && (r.outcome == Bound <==> TablesFit(h, dlls) && SlotsWritable(h, dlls))
    && (TablesFit(h, dlls) && !SlotsWritable(h, dlls) ==> r.outcome == Fault)
    && (r.outcome == Bound ==> BoundAs(dlls, shims, laid, r.mem))
  }

  lemma BoundExactly(img: Image, shims: seq<Shim>, laid: seq<u8>, e: u32, h: Header, dlls: seq<Dll>)
    requires Says(img.file, e, h) && NoWrap(e) && Start(h) != 0 && AsWritten(img, h) && Fits(WorldOf(img, shims))
    requires |laid| == img.size as int && Stand(laid, Start(h), dlls) && LaidApart(Start(h), dlls)
    ensures EndsAsWritten(h, shims, dlls, laid, RunImports(WorldOf(img, shims), laid))
  {
    hide Fits, Says, Stand, TablesFit, SlotsWritable, TablesOk, ComesTo, RunImports, SlotWritable, ExactlyBound;
    hide BoundAs, Image.Mapped, LaidApart, TablesApart, NoPhantom, ImportWalk, NoHazard, RightsAsked;
    var w, rva: nat := WorldOf(img, shims), Start(h);
    DirectoryIs(img.file, e, h);
    LaidApartIsApart(w, laid, rva, dlls);
    ApartTablesHaveNoHazard(w, laid);
    NoWrapNoPhantom(img.file, e, h);
    BindingFaultsExactly(img, shims, laid);
    TablesOkIsFit(w, laid, e, h, dlls);
    if TablesFit(h, dlls) { SlotsWritableIs(img, shims, laid, e, h, dlls); }
    if RunImports(w, laid).outcome == Bound {
      BindingIsExact(w, laid);
      BoundAsWritten(w, laid, rva, dlls, RunImports(w, laid).mem);
    }
  }

  /** The laid-out image shows what the headers say, byte for byte, where anything is mapped. */
  ghost predicate LaidAsWritten(img: Image, h: Header, laid: seq<u8>)
    reads img, img.prot
  {
    && RawsInFile(|img.file|, h) && h.opt.headerSize as int <= |img.file| && |laid| == h.opt.imageSize as int
    && forall a: nat :: a < |laid| && img.Accessible(a) ==> Shows(img.file, h, a, laid[a])
  }

  lemma LaidIsWritten(img: Image, e: u32, h: Header, laid: seq<u8>)
    requires img.Mapped() && Says(img.file, e, h) && NoWrap(e) && Loads(|img.file|, e, h) && PrepareAccepts(img.file)
    requires |laid| == img.size as int && ShowsLayout(img, img.file, laid)
    ensures AsWritten(img, h) && LaidAsWritten(img, h, laid)
  {
    hide Says, PrepareAccepts, Loads, LaidOut, Shows, Image.Accessible, RightsAsked, Image.Mapped, RawsInFile;
    MappedAsWritten(img, e, h);
    LoadsInFile(img.file, e, h);
    forall a: nat | a < |laid| && img.Accessible(a) ensures Shows(img.file, h, a, laid[a]) {
      LaidOutShows(img.file, e, h, a);
    }
  }

  /** Load and bind a file of which headers and import tables are known. It is refused exactly as the headers say. Each
      byte then shows its section's raw data, the headers or zero, on a page with the rights its section's flags ask
      for. If these import tables stand there, with the slots apart from all else that is read, binding ends as they
      are written. */
  method BindWritten(raw: seq<u8>, ghost e: u32, ghost h: Header, refused: set<nat>, shims: seq<Shim>,
                     ghost dlls: seq<Dll>)
    returns (img: Image, r: Option<Outcome>, ghost laid: seq<u8>)
    requires Says(raw, e, h) && NoWrap(e) && Start(h) != 0
    ensures fresh(img) && img.file == raw
    ensures r.Some? <==> Loads(|raw|, e, h) && Maps(h, refused)
    ensures r.Some? ==> AsWritten(img, h) && LaidAsWritten(img, h, laid)
    ensures r.Some? && Stand(laid, Start(h), dlls) && LaidApart(Start(h), dlls)
            ==> EndsAsWritten(h, shims, dlls, laid, Run(r.value, img.bytes[..]))
  {
    hide Says, PrepareAccepts, LoaderAccepts, MapsOk, Maps, Loads, ShowsLayout, AsWritten, LaidAsWritten, Image.Mapped;
    hide RunImports, EndsAsWritten, Stand, LaidApart, EndsAsTold, Harmless, ExactlyBound, Fits;
    AcceptedExactly(raw, e, h);
    if Loads(|raw|, e, h) {
      LoadsInFile(raw, e, h);
      MapsIs(raw, e, h, refused);
    }
    img, r, laid := LoadAndBind(raw, refused, shims);
    if r.Some? { Written(img, e, h, shims, laid, dlls); }
  }

  lemma Written(img: Image, e: u32, h: Header, shims: seq<Shim>, laid: seq<u8>, dlls: seq<Dll>)
    requires img.Mapped() && Says(img.file, e, h) && NoWrap(e) && Start(h) != 0 && Loads(|img.file|, e, h)
    requires PrepareAccepts(img.file) && |laid| == img.size as int && ShowsLayout(img, img.file, laid)
    requires Fits(WorldOf(img, shims))
    ensures AsWritten(img, h) && LaidAsWritten(img, h, laid)
    ensures Stand(laid, Start(h), dlls) && LaidApart(Start(h), dlls)
            ==> EndsAsWritten(h, shims, dlls, laid, RunImports(WorldOf(img, shims), laid))
  {
    hide Says, PrepareAccepts, Loads, ShowsLayout, AsWritten, LaidAsWritten, Image.Mapped, RunImports, EndsAsWritten;
    hide Stand, LaidApart, Fits;
    LaidIsWritten(img, e, h, laid);
    if Stand(laid, Start(h), dlls) && LaidApart(Start(h), dlls) {
      BoundExactly(img, shims, laid, e, h, dlls);
    }
  }
}
