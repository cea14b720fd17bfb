/** Files that pass every check and mapping and then fault, and one that does not. */
module FaultFiles {
  import opened Bytes
  import opened PeFile
  import opened ImageMap
  import opened ImageTheory
  import opened AccessLog
  import opened ImportSpec
  import opened Imports
  import opened Loader

  // ---- a file whose import address table lies in an executable section ----

  function HeadByte(exec: bool, i: nat): u8 {
    if i == 0 then 0x4d else if i == 1 then 0x5a else if i == 0x3c then 0x40
    else if i == 0x40 then 0x50 else if i == 0x41 then 0x45
    else if i == 0x44 then 0x64 else if i == 0x45 then 0x86 else if i == 0x46 then 1 else if i == 0x54 then 0x80
    else if i == 0x58 then 0x0b else if i == 0x59 then 0x02 else if i == 0x73 then 0x80 else if i == 0x74 then 1
    else if i == 0x91 then 0x20 else if i == 0x95 then 0x10 else if i == 0xc4 then 2
    else if i == 0xd1 then 0x10 else if i == 0xd4 then 40
    else if i == 0xe1 || i == 0xe5 || i == 0xed then 0x10 else if i == 0xe9 then 2
    else if i == 0xff then (if exec then 0x60 else 0xc0)
    else 0
  }

  /** One descriptor, naming itself, whose only thunk asks for ordinal 1; the zero descriptor and thunk follow. */
  function DataByte(i: nat): u8 {
    if i == 0xd then 0x10 else if i == 0x11 then 0x11
    else if i == 0x100 then 1 else if i == 0x107 then 0x80
    else 0
  }

  /** A header page, and a section at RVA 0x1000 that holds the import tables: code, or data. */
  function TableFile(exec: bool): (f: seq<u8>)
    ensures |f| == 0x1200
  {
    seq(0x1200, i requires 0 <= i => if i < 0x1000 then HeadByte(exec, i) else DataByte(i - 0x1000))
  }

  function OnlySection(exec: bool): Section {
    Section(0x1000, 0x1000, 0x200, 0x1000, if exec then 0x6000_0000 else 0xc000_0000)
  }

  lemma TableAt(exec: bool, o: nat)
    requires o + 4 <= 0x1000
    ensures F32(TableFile(exec), o)
            == HeadByte(exec, o) as int + 0x100 * (HeadByte(exec, o + 1) as int)
               + 0x1_0000 * (HeadByte(exec, o + 2) as int) + 0x100_0000 * (HeadByte(exec, o + 3) as int)
    ensures F16(TableFile(exec), o) == HeadByte(exec, o) as int + 0x100 * (HeadByte(exec, o + 1) as int)
  {
    hide HeadByte, DataByte;
  }

  lemma TableHeader(exec: bool)
    ensures var f := TableFile(exec);
            && F16(f, 0) == 0x5a4d && Lfanew(f) == 0x40 && F32(f, 0x40) == 0x4550 && F16(f, 0x44) == 0x8664
            && F16(f, 0x46) == 1 && F16(f, 0x54) == 0x80 && F16(f, 0x58) == 0x20b && F32(f, 0x68) == 0
  {
    hide TableFile;
    TableAt(exec, 0);
    TableAt(exec, 0x3c);
    TableAt(exec, 0x40);
    TableAt(exec, 0x44);
    TableAt(exec, 0x46);
    TableAt(exec, 0x54);
    TableAt(exec, 0x58);
    TableAt(exec, 0x68);
  }

  lemma TableOptional(exec: bool)
    ensures var f := TableFile(exec);
            && F64(f, 0x70) == 0x1_8000_0000 && F32(f, 0x90) == 0x2000 && F32(f, 0x94) == 0x1000 && F32(f, 0xc4) == 2
            && F32(f, 0xd0) == 0x1000 && F32(f, 0xd4) == 40 && SectionAt(f, 0xd8) == OnlySection(exec)
  {
    hide TableFile;
    TableAt(exec, 0x70);
    TableAt(exec, 0x74);
    TableAt(exec, 0x90);
    TableAt(exec, 0x94);
    TableAt(exec, 0xc4);
    TableAt(exec, 0xd0);
    TableAt(exec, 0xd4);
    TableAt(exec, 0xe0);
    TableAt(exec, 0xe4);
    TableAt(exec, 0xe8);
    TableAt(exec, 0xec);
    TableAt(exec, 0xfc);
  }

  lemma TableFields(exec: bool)
    ensures var f := TableFile(exec);
            && Sections(f) == [OnlySection(exec)] && ExactSections(f) == [OnlySection(exec)]
            && ImageSize(f) == 0x2000 && HeaderSize(f) == 0x1000 && WalkHeaderSize(f) == 0x1000
            && ImageBase(f) == 0x1_8000_0000 && ImportRva(f) == 0x1000 && ImportSize(f) == 40
            && NumDirs(f) == 2 && OptSize(f) == 0x80 && Opt(f) == 0x58 && Entry(f) == 0
  {
    hide TableFile, F16, F32, F64, SectionAt;
    TableHeader(exec);
    TableOptional(exec);
    var f := TableFile(exec);
    assert SectionTable(f, 0xd8, 1) == [SectionAt(f, 0xd8)];
  }

  lemma TableFileLoads(exec: bool)
    ensures var f := TableFile(exec); PrepareAccepts(f) && LoaderAccepts(f) && MapsOk(f, {}) && HeaderOffsetFits(f)
  {
    hide TableFile, F16, F32, F64, Sections, ExactSections, ImageSize, HeaderSize, ImageBase, NumDirs;
    TableHeader(exec);
    TableFields(exec);
    var f := TableFile(exec);
    assert OverlaysOk(0x2000, [OnlySection(exec)], {}, 0);
    assert OverlaysOk(0x2000, [OnlySection(exec)], {}, 1);
    assert forall s :: s in Sections(f) ==> Placed(f, 0x2000, s);
  }

  /** The mapped image of the file, before binding. */
  ghost predicate ShowsTables(exec: bool, w: World, laid: seq<u8>) {
    && w.file == TableFile(exec) && w.base == 0x1_8000_0000 && w.size == |laid| == 0x2000 && |w.prot| == 2
    && w.prot[0] == ReadOnly && w.prot[1] == (if exec then ReadExec else ReadWrite)
    && forall a :: 0x1000 <= a < 0x1200 ==> laid[a] == DataByte(a - 0x1000)
  }

  lemma TableMemory(exec: bool, w: World, laid: seq<u8>)
    requires ShowsTables(exec, w, laid)
    ensures ReadDesc(laid, 0x1000) == Desc(0, 0, 0, 0x1000, 0x1100) && ReadDesc(laid, 0x1014) == Desc(0, 0, 0, 0, 0)
    ensures Read64(laid, 0x1100) == 0x8000_0000_0000_0001 && Read64(laid, 0x1108) == 0
  {
  }

  lemma TableCovers(exec: bool, a: nat)
    ensures SectionCovers(Sections(TableFile(exec)), a) <==> 0x1000 <= a < 0x2000
  {
    hide TableFile, Sections;
    TableFields(exec);
    var s := OnlySection(exec);
    assert s in Sections(TableFile(exec)) && (s.OnPages(a) <==> 0x1000 <= a < 0x2000);
  }

  lemma TableRange(exec: bool, w: World, laid: seq<u8>, o: nat, n: nat)
    requires ShowsTables(exec, w, laid) && 0x1000 <= o && o + n <= 0x2000
    ensures Usable(w.file, w.size, o, n) && Lands(w, Load(o, o + n))
    ensures forall a :: o <= a < o + n ==> SectionCovers(Sections(w.file), a)
  {
    hide TableFile, Sections;
    forall a | o <= a < o + n ensures SectionCovers(Sections(w.file), a) { TableCovers(exec, a); }
  }

  lemma TableStore(exec: bool, w: World, laid: seq<u8>, o: nat, v: u64)
    requires ShowsTables(exec, w, laid) && 0x1000 <= o && o + 8 <= 0x2000
    ensures Lands(w, Store(o, v)) <==> !exec
  {
    hide TableFile;
    assert CanWrite(w, o) <==> !exec;
  }

  lemma TableFits(exec: bool, w: World, laid: seq<u8>)
    requires ShowsTables(exec, w, laid)
    ensures Fits(w)
  {
    hide TableFile, Sections, HeaderSize;
    TableFields(exec);
  }

  lemma TableThunks(exec: bool, w: World, laid: seq<u8>)
    requires ShowsTables(exec, w, laid) && Fits(w)
    ensures RunThunks(w, laid, 0x1100, 0x1100, 0).outcome == if exec then Fault else Bound
    ensures !exec ==> RunThunks(w, laid, 0x1100, 0x1100, 0).mem == Put(laid, 0x1100, Le64(0))
  {
    hide Usable, Fits, Lands, Put, Le64, Read64, ShowsTables, WindowLength, StringWindow;
    assert w.size == |laid| == 0x2000 by { TableSize(exec, w, laid); }
    TableMemory(exec, w, laid);
    TableRange(exec, w, laid, 0x1100, 8);
    TableRange(exec, w, laid, 0x1108, 8);
    assert ThunkUsable(w, 0x1100, 0x1100, 0) && ThunkUsable(w, 0x1100, 0x1100, 1);
    assert Lands(w, Lookup(0x1100, 0)) && Lands(w, Lookup(0x1100, 1)) && Lands(w, Load(0, 0)) by { Nowhere(w); }
    assert NameLoad(w, laid, 0x8000_0000_0000_0001) == Load(0, 0);
    TableStore(exec, w, laid, 0x1100, 0);
    if !exec {
      var m := Put(laid, 0x1100, Le64(0));
      assert Read64(m, 0x1108) == 0 by { NextThunk(laid); }
      assert RunThunks(w, m, 0x1100, 0x1100, 1) == Run(Bound, m);
    }
  }

  lemma TableSize(exec: bool, w: World, laid: seq<u8>)
    requires ShowsTables(exec, w, laid)
    ensures w.size == |laid| == 0x2000
  {
  }

  lemma Nowhere(w: World)
    ensures Lands(w, Load(0, 0))
  {
  }

  lemma NextThunk(laid: seq<u8>)
    requires |laid| == 0x2000 && Read64(laid, 0x1108) == 0
    ensures Read64(Put(laid, 0x1100, Le64(0)), 0x1108) == 0
  {
    hide Le64;
  }

  lemma TableDescOk(exec: bool, w: World, laid: seq<u8>)
    requires ShowsTables(exec, w, laid)
    ensures DescOk(w, Desc(0, 0, 0, 0x1000, 0x1100))
  {
    hide Usable, ShowsTables;
    TableRange(exec, w, laid, 0x1000, 1);
    TableRange(exec, w, laid, 0x1100, 8);
  }

  lemma DescStops(w: World, m: seq<u8>, d: nat, end: nat)
    requires Fits(w) && |m| == w.size && DescUsable(w, d, end) && Lands(w, Load(d, d + 20)) && ReadDesc(m, d).Null()
    ensures RunDescs(w, m, d, end).outcome == Bound
  {
    hide Fits, DescUsable, Lands, ReadDesc;
  }

  lemma DescGoesOn(w: World, m: seq<u8>, d: nat, end: nat, desc: Desc)
    requires Fits(w) && |m| == w.size && DescUsable(w, d, end) && Lands(w, Load(d, d + 20))
    requires ReadDesc(m, d) == desc && !desc.Null() && DescOk(w, desc)
    ensures var t := RunThunks(w, m, desc.Source(), desc.fthunk, 0);
            RunDescs(w, m, d, end) == if t.outcome.Bound? then RunDescs(w, t.mem, d + 20, end) else t
  {
    hide Fits, DescUsable, Lands, ReadDesc, DescOk, RunThunks;
  }

  lemma DescKept(m: seq<u8>, o: nat, v: u64, d: nat)
    requires o + 8 <= |m| && d + 20 <= o
    ensures ReadDesc(Put(m, o, Le64(v)), d) == ReadDesc(m, d)
  {
    hide Le64, ReadDesc;
    DescBytes(Put(m, o, Le64(v)), m, d);
  }

  lemma TableFirst(exec: bool, w: World, laid: seq<u8>, d: nat)
    requires ShowsTables(exec, w, laid) && Fits(w) && d == 0x1000 && |laid| == w.size == 0x2000
    ensures var t := RunThunks(w, laid, 0x1100, 0x1100, 0);
            RunDescs(w, laid, d, d + 40) == if t.outcome.Bound? then RunDescs(w, t.mem, d + 20, d + 40) else t
  {
    hide Usable, Fits, Lands, ReadDesc, ShowsTables, RunThunks, DescOk, RunDescs;
    TableMemory(exec, w, laid);
    TableDescOk(exec, w, laid);
    TableRange(exec, w, laid, d, 20);
    DescGoesOn(w, laid, d, d + 40, Desc(0, 0, 0, 0x1000, 0x1100));
  }

  /** Binding the thunks leaves the zero descriptor alone. */
  lemma TableKept(laid: seq<u8>, v: u64, d: nat)
    requires |laid| == 0x2000 && d == 0x1014 && ReadDesc(laid, d) == Desc(0, 0, 0, 0, 0)
    ensures ReadDesc(Put(laid, 0x1100, Le64(v)), d) == Desc(0, 0, 0, 0, 0)
  {
    hide ReadDesc, Put, Le64;
    DescKept(laid, 0x1100, v, d);
  }

  lemma TableLast(exec: bool, w: World, laid: seq<u8>, m: seq<u8>, d: nat)
    requires ShowsTables(exec, w, laid) && Fits(w) && d == 0x1014 && |m| == w.size == 0x2000
    requires ReadDesc(m, d) == Desc(0, 0, 0, 0, 0)
    ensures RunDescs(w, m, d, d + 20).outcome == Bound
  {
    hide Usable, Fits, Lands, ReadDesc, ShowsTables, RunDescs;
    TableRange(exec, w, laid, d, 20);
    DescStops(w, m, d, d + 20);
  }

  lemma TableDescs(exec: bool, w: World, laid: seq<u8>, d: nat)
    requires ShowsTables(exec, w, laid) && Fits(w) && d == 0x1000
    ensures RunDescs(w, laid, d, d + 40).outcome == if exec then Fault else Bound
  {
    hide Fits, Put, Le64, ShowsTables, RunThunks, RunDescs, ReadDesc, Read64;
    assert w.size == |laid| == 0x2000 by { TableSize(exec, w, laid); }
    TableThunks(exec, w, laid);
    TableFirst(exec, w, laid, d);
    TableMemory(exec, w, laid);
    if !exec {
      TableKept(laid, 0, d + 20);
      TableLast(exec, w, laid, RunThunks(w, laid, 0x1100, 0x1100, 0).mem, d + 20);
    }
  }

  lemma TableShown(exec: bool, img: Image, shims: seq<Shim>, laid: seq<u8>)
    requires img.Mapped() && img.file == TableFile(exec) && PrepareAccepts(img.file)
    requires |laid| == img.size as int && ShowsLayout(img, img.file, laid)
    ensures ShowsTables(exec, WorldOf(img, shims), laid)
  {
    hide TableFile, Sections, ExactSections, HeaderSize, ImageSize, ImageBase, PrepareAccepts, LoaderAccepts;
    TableFields(exec);
    var f, s := img.file, OnlySection(exec);
    var secs := [s];
    assert PageProt(0x1000, secs[..0], 0) == ReadOnly;
    assert PageProt(0x1000, secs, 0) == ReadOnly && PageProt(0x1000, secs, 1) == SectionProt(s);
    forall a | 0x1000 <= a < 0x1200 ensures laid[a] == DataByte(a - 0x1000) {
      assert img.prot[1] != NoAccess && img.Accessible(a);
      assert s.OnRaw(a) && s in ExactSections(f);
      TableData(exec, a);
    }
  }

  lemma TableData(exec: bool, a: nat)
    requires 0x1000 <= a < 0x1200
    ensures TableFile(exec)[a] == DataByte(a - 0x1000)
  {
    hide DataByte, HeadByte;
  }

  lemma TableOutcome(exec: bool, w: World, laid: seq<u8>)
    requires ShowsTables(exec, w, laid) && Fits(w) && |laid| == w.size
    ensures RunImports(w, laid).outcome == if exec then Fault else Bound
  {
    hide TableFile, ShowsTables, RunDescs, Fits, Lands, Usable;
    assert w.size == 0x2000 by { TableSize(exec, w, laid); }
    TableBase(exec, w, laid);
    TableFields(exec);
    TableRange(exec, w, laid, 0x1000, 40);
    TableDescs(exec, w, laid, ImportRva(TableFile(exec)));
  }

  /** One and the same file, with its import tables in a section that is code or data: every check and mapping goes
      well, and then binding dies of a fault at its first store, or succeeds. */
  method BindTableFile(exec: bool, shims: seq<Shim>) returns (r: Option<Outcome>)
    ensures r == Some(if exec then Fault else Bound)
  {
    hide TableFile, ShowsTables, ShowsLayout, RunImports, PrepareAccepts, LoaderAccepts, MapsOk, Image.Mapped, Fits;
    TableFileLoads(exec);
    var img;
    ghost var laid;
    img, r, laid := LoadAndBind(TableFile(exec), {}, shims);
    TableShown(exec, img, shims, laid);
    TableOutcome(exec, WorldOf(img, shims), laid);
  }

  lemma TableBase(exec: bool, w: World, laid: seq<u8>)
    requires ShowsTables(exec, w, laid)
    ensures w.base != 0 && w.file == TableFile(exec)
  {
  }

  // ---- a file whose import directory lies in a header page that only the walk sees ----

  lemma PhantomFields()
    ensures var f := MisreadFile(Phantom); ImportRva(f) == 0x1000 && ImportSize(f) == 40
  {
    hide MisreadFile, F16, F32;
    MisreadStart(Phantom);
    MisreadImports(Phantom);
  }

  lemma PhantomWorld(img: Image, shims: seq<Shim>)
    requires img.Mapped() && img.file == MisreadFile(Phantom)
    ensures var w := WorldOf(img, shims);
            w.base != 0 && w.size == 0x2000 && forall a :: 0x1000 <= a < 0x2000 ==> !CanRead(w, a)
  {
    hide MisreadFile, LoaderAccepts, PrepareAccepts, ImageBase, ImageSize, HeaderSize, WalkHeaderSize, Sections;
    MisreadFields(Phantom);
    assert img.prot[1] == PageProt(0x1000, [], 1);
  }

  lemma PhantomRange(w: World, o: nat, n: nat)
    requires w.file == MisreadFile(Phantom) && w.size == 0x2000 && o + n <= 0x2000
    ensures Usable(w.file, w.size, o, n)
  {
    hide MisreadFile, LoaderAccepts, PrepareAccepts, ImageBase, ImageSize, HeaderSize, WalkHeaderSize, Sections;
    MisreadFields(Phantom);
  }

  lemma DescFaults(w: World, m: seq<u8>, d: nat, end: nat)
    requires Fits(w) && |m| == w.size && DescUsable(w, d, end) && !CanRead(w, d)
    ensures RunDescs(w, m, d, end).outcome == Fault
  {
    hide Fits, DescUsable, CanRead;
    assert !Lands(w, Load(d, d + 20));
  }

  /** A file that every check and mapping lets pass; then image_range lets the import directory through, which nothing
      maps, and binding dies at its first load. */
  method BindPhantomFile(shims: seq<Shim>) returns (r: Option<Outcome>)
    ensures r == Some(Fault)
  {
    hide MisreadFile, ShowsLayout, RunDescs, PrepareAccepts, LoaderAccepts, MapsOk, Image.Mapped, Fits, CanRead, Usable;
    MisreadFileLoads(Phantom);
    PhantomFields();
    var img;
    ghost var laid;
    img, r, laid := LoadAndBind(MisreadFile(Phantom), {}, shims);
    PhantomWorld(img, shims);
    ghost var w := WorldOf(img, shims);
    PhantomRange(w, 0x1000, 40);
    PhantomRange(w, 0x1000, 20);
    DescFaults(w, laid, 0x1000, 0x1028);
  }
}
