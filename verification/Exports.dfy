/** Export lookup by name (get_export; Microsoft PE/COFF specification, section 6.3). */
module Exports {
  import opened Bytes
  import opened PeFile
  import opened ImageMap
  import opened ImageTheory
  import opened AccessLog
  import opened ImportSpec
  import opened Imports

  // get_export finds the directory entry with u32 sums, which wrap.
  function DirOffset(f: seq<u8>, k: nat): u32 { W32(W32(Lfanew(f) as int + 24) as int + k) }

  function ExportRva(f: seq<u8>): u32 {
    if F32(f, DirOffset(f, 108)) != 0 then F32(f, DirOffset(f, 112)) else 0
  }

  function ExportSize(f: seq<u8>): u32 {
    if F32(f, DirOffset(f, 108)) != 0 then F32(f, DirOffset(f, 116)) else 0
  }

  datatype ExportDir = ExportDir(base: u32, nfns: u32, nnames: u32, fns: u32, names: u32, ords: u32)

  function ReadExportDir(mem: seq<u8>, at: nat): ExportDir
    requires at + 40 <= |mem|
  {
    ExportDir(Read32(mem, at + 16), Read32(mem, at + 20), Read32(mem, at + 24), Read32(mem, at + 28),
              Read32(mem, at + 32), Read32(mem, at + 36))
  }

  ghost predicate In(w: World, o: nat, n: nat)
    ensures In(w, o, n) ==> o + n <= w.size
  {
    Usable(w.file, w.size, o, n)
  }

  ghost predicate HasDirectory(w: World) {
    w.base != 0 && ExportRva(w.file) != 0 && ExportSize(w.file) >= 40 && In(w, ExportRva(w.file), 40)
  }

  /** The directory's three tables lie in mapped memory. */
  ghost predicate TablesIn(w: World, d: ExportDir) {
    In(w, d.fns, 4 * (d.nfns as int)) && In(w, d.names, 4 * (d.nnames as int)) && In(w, d.ords, 2 * (d.nnames as int))
  }

  /** The string at this RVA is NUL-terminated inside its readable region. */
  ghost predicate WellFormed(w: World, mem: seq<u8>, at: nat)
    requires Fits(w) && |mem| == w.size
  {
    In(w, at, 1) && FirstNul(StringWindow(w, mem, at)) < WindowLength(w, at)
  }

  ghost function CString(w: World, mem: seq<u8>, at: nat): seq<u8>
    requires Fits(w) && |mem| == w.size
  {
    StringWindow(w, mem, at)[..FirstNul(StringWindow(w, mem, at))]
  }

  /** RVA of the i-th exported name. */
  ghost function NameRva(w: World, mem: seq<u8>, d: ExportDir, i: nat): u32
    requires |mem| == w.size && TablesIn(w, d) && i < d.nnames as int
  {
    Read32(mem, d.names as int + 4 * i)
  }

  /** The first name equal to `want` is number i, and every name up to it is well formed. */
  ghost predicate FirstNamed(w: World, mem: seq<u8>, d: ExportDir, want: seq<u8>, i: nat)
    requires Fits(w) && |mem| == w.size && TablesIn(w, d)
  {
    && i < d.nnames as int
    && (forall k :: 0 <= k <= i ==> WellFormed(w, mem, NameRva(w, mem, d, k)))
    && (forall k :: 0 <= k < i ==> CString(w, mem, NameRva(w, mem, d, k)) != want)
    && CString(w, mem, NameRva(w, mem, d, i)) == want
  }

  /** Name i leads to `rva` through the ordinal and function tables. */
  ghost predicate LeadsTo(w: World, mem: seq<u8>, d: ExportDir, i: nat, rva: u32)
    requires |mem| == w.size && TablesIn(w, d) && i < d.nnames as int
  {
    var ord: nat := Read16(mem, d.ords as int + 2 * i);
    && ord < d.nfns as int && d.base as int <= 0xffff_ffff - ord
    && rva == Read32(mem, d.fns as int + 4 * ord) && In(w, rva, 1)
  }

  ghost predicate Exported(w: World, mem: seq<u8>, want: seq<u8>, rva: u32)
    requires Fits(w) && |mem| == w.size
  {
    HasDirectory(w) && var d := ReadExportDir(mem, ExportRva(w.file));
    TablesIn(w, d) && exists i :: FirstNamed(w, mem, d, want, i) && LeadsTo(w, mem, d, i, rva)
  }

  // ---- which lookups fault ----

  function NameEntry(d: ExportDir, i: nat): Access { Load(d.names as int + 4 * i, d.names as int + 4 * i + 4) }

  /** The search comes to name i: every name before it could be read, is well formed and is another. */
  ghost predicate Reached(w: World, mem: seq<u8>, d: ExportDir, want: seq<u8>, i: nat)
    requires Fits(w) && |mem| == w.size && TablesIn(w, d)
  {
    && i < d.nnames as int
    && forall k :: 0 <= k < i ==> Lands(w, NameEntry(d, k)) && WellFormed(w, mem, NameRva(w, mem, d, k))
                                  && CString(w, mem, NameRva(w, mem, d, k)) != want
  }

  /** Following name i loads an entry of the ordinal or function table that is not mapped. */
  ghost predicate FollowFaults(w: World, mem: seq<u8>, d: ExportDir, i: nat)
    requires |mem| == w.size && TablesIn(w, d) && i < d.nnames as int
  {
    var at, ord: nat := d.ords as int + 2 * i, Read16(mem, d.ords as int + 2 * i);
    || !Lands(w, Load(at, at + 2))
    || (ord < d.nfns as int && d.base as int <= 0xffff_ffff - ord
        && !Lands(w, Load(d.fns as int + 4 * ord, d.fns as int + 4 * ord + 4)))
  }

  /** The lookup comes to name i, and there it loads something that is not mapped. */
  ghost predicate FaultsAt(w: World, mem: seq<u8>, d: ExportDir, want: seq<u8>, i: nat)
    requires Fits(w) && |mem| == w.size && TablesIn(w, d)
  {
    && Reached(w, mem, d, want, i)
    && (!Lands(w, NameEntry(d, i))
        || (WellFormed(w, mem, NameRva(w, mem, d, i)) && CString(w, mem, NameRva(w, mem, d, i)) == want
            && FollowFaults(w, mem, d, i)))
  }

  /** The directory itself or something the lookup comes to is not mapped. */
  ghost predicate LookupFaults(w: World, mem: seq<u8>, want: seq<u8>)
    requires Fits(w) && |mem| == w.size
  {
    HasDirectory(w) && var at: nat := ExportRva(w.file);
    || !Lands(w, Load(at + 16, at + 40))
    || (var d := ReadExportDir(mem, at); TablesIn(w, d) && exists i :: FaultsAt(w, mem, d, want, i))
  }

  /** Where the lookup stops for good it cannot fault elsewhere. */
  lemma StopsHere(w: World, mem: seq<u8>, d: ExportDir, want: seq<u8>, i: nat, j: nat)
    requires Fits(w) && |mem| == w.size && TablesIn(w, d) && Reached(w, mem, d, want, i) && Lands(w, NameEntry(d, i))
    requires !WellFormed(w, mem, NameRva(w, mem, d, i)) || CString(w, mem, NameRva(w, mem, d, i)) == want
    requires FaultsAt(w, mem, d, want, j)
    ensures j == i && WellFormed(w, mem, NameRva(w, mem, d, i)) && FollowFaults(w, mem, d, i)
  {
    hide Fits, TablesIn, WellFormed, CString, NameRva, Lands, FollowFaults, NameEntry;
  }

  /** Where what image_range lets through is mapped, no lookup faults. */
  lemma NoPhantomNoFault(img: Image, mem: seq<u8>, want: seq<u8>)
    requires img.Mapped() && NoPhantom(img.file) && Fits(WorldOf(img, [])) && |mem| == img.size as int
    ensures !LookupFaults(WorldOf(img, []), mem, want)
  {
    hide Fits, NoPhantom, Usable, Image.Mapped, ReadExportDir, FaultsAt;
    var w := WorldOf(img, []);
    if HasDirectory(w) {
      var at: nat := ExportRva(w.file);
      PartLands(img, at, 40, at + 16, 24);
      var d := ReadExportDir(mem, at);
      if TablesIn(w, d) {
        forall i: nat ensures !FaultsAt(w, mem, d, want, i) { NameNoFault(img, mem, d, want, i); }
      }
    }
  }

  lemma NameNoFault(img: Image, mem: seq<u8>, d: ExportDir, want: seq<u8>, i: nat)
    requires img.Mapped() && NoPhantom(img.file) && Fits(WorldOf(img, [])) && |mem| == img.size as int
    requires TablesIn(WorldOf(img, []), d)
    ensures !FaultsAt(WorldOf(img, []), mem, d, want, i)
  {
    hide Fits, NoPhantom, Usable, Lands, Image.Mapped, WellFormed, CString;
    if i < d.nnames as int {
      PartLands(img, d.names, 4 * (d.nnames as int), d.names as int + 4 * i, 4);
      PartLands(img, d.ords, 2 * (d.nnames as int), d.ords as int + 2 * i, 2);
      var ord: nat := Read16(mem, d.ords as int + 2 * i);
      if ord < d.nfns as int { PartLands(img, d.fns, 4 * (d.nfns as int), d.fns as int + 4 * ord, 4); }
    }
  }

  lemma PartLands(img: Image, lo: nat, len: nat, o: nat, n: nat)
    requires img.Mapped() && NoPhantom(img.file) && Usable(img.file, img.size as int, lo, len)
    requires lo <= o && o + n <= lo + len
    ensures Lands(WorldOf(img, []), Load(o, o + n))
  {
    hide NoPhantom, Usable, Image.Mapped;
    RangeBacked(img, lo, len);
    assert forall a: nat :: CanRead(WorldOf(img, []), a) == img.Accessible(a);
  }

  // ---- get_export ----

  lemma FirstNamedUnique(w: World, mem: seq<u8>, d: ExportDir, want: seq<u8>, i: nat, j: nat)
    requires Fits(w) && |mem| == w.size && TablesIn(w, d)
    requires FirstNamed(w, mem, d, want, i) && FirstNamed(w, mem, d, want, j)
    ensures i == j
  {
    hide TablesIn, WellFormed, CString, NameRva, Fits;
  }

  /** Nothing is exported when a name before any match is malformed. */
  lemma MalformedEarly(w: World, mem: seq<u8>, d: ExportDir, want: seq<u8>, i: nat, j: nat)
    requires Fits(w) && |mem| == w.size && TablesIn(w, d) && i < d.nnames as int
    requires forall k :: 0 <= k < i ==> CString(w, mem, NameRva(w, mem, d, k)) != want
    requires !WellFormed(w, mem, NameRva(w, mem, d, i))
    ensures !FirstNamed(w, mem, d, want, j)
  {
    hide TablesIn, WellFormed, CString, NameRva, Fits;
  }

  /** Load the six fields used. */
  method ReadDir(img: Image, at: nat) returns (d: ExportDir)
    requires img.Backed(at + 16, 24) && img.bytes.Length == img.size as int
    ensures d == ReadExportDir(img.bytes[..], at)
  {
    d := ExportDir(img.Load32(at + 16), img.Load32(at + 20), img.Load32(at + 24), img.Load32(at + 28),
                   img.Load32(at + 32), img.Load32(at + 36));
  }

  /** The tail of get_export once name i has matched. */
  method FollowOrdinal(img: Image, d: ExportDir, i: nat) returns (r: Option<u32>, fault: bool)
    requires Bindable(img, []) && TablesIn(WorldOf(img, []), d) && i < d.nnames as int
    ensures fault <==> FollowFaults(WorldOf(img, []), img.bytes[..], d, i)
    ensures !fault ==> forall rva: u32 :: r == Some(rva) <==> LeadsTo(WorldOf(img, []), img.bytes[..], d, i, rva)
  {
    hide Usable, Fits, Lands, Image.Mapped;
    var ok := Peek(img, [], d.ords as int + 2 * i, 2);
    if !ok { return None, true; }
    var ord: nat := img.Load16(d.ords as int + 2 * i);
    if ord >= d.nfns as int || d.base as int > 0xffff_ffff - ord { return None, false; }
    ok := Peek(img, [], d.fns as int + 4 * ord, 4);
    if !ok { return None, true; }
    var frva := img.Load32(d.fns as int + 4 * ord);
    ok := Range(img, frva, 1);
    return if ok then Some(frva) else None, false;
  }

  /** The name loop of get_export: the number of the first name equal to `want`, if all up to it are well formed. */
  method SearchNames(img: Image, d: ExportDir, want: seq<u8>) returns (r: Option<nat>, fault: bool)
    requires Bindable(img, []) && TablesIn(WorldOf(img, []), d)
    ensures r.Some? ==> !fault && FirstNamed(WorldOf(img, []), img.bytes[..], d, want, r.value)
                        && Reached(WorldOf(img, []), img.bytes[..], d, want, r.value)
                        && Lands(WorldOf(img, []), NameEntry(d, r.value))
    ensures r.None? && !fault ==> forall j :: !FirstNamed(WorldOf(img, []), img.bytes[..], d, want, j)
                                              && !FaultsAt(WorldOf(img, []), img.bytes[..], d, want, j)
    ensures fault ==> exists j :: FaultsAt(WorldOf(img, []), img.bytes[..], d, want, j)
  {
    hide Usable, Fits, WindowLength, In, TablesIn, StringWindow, WellFormed, CString, Lands, FollowFaults, Image.Mapped;
    ghost var w, mem := WorldOf(img, []), img.bytes[..];
    assert d.names as int + 4 * (d.nnames as int) <= img.size as int by { NamesFit(w, d); }
    for i := 0 to d.nnames as int
      invariant i < d.nnames as int ==> Reached(w, mem, d, want, i)
      invariant forall k :: 0 <= k < i ==> Lands(w, NameEntry(d, k)) && WellFormed(w, mem, NameRva(w, mem, d, k))
                                           && CString(w, mem, NameRva(w, mem, d, k)) != want
    {
      var ok := Peek(img, [], d.names as int + 4 * i, 4);
      if !ok {
        assert FaultsAt(WorldOf(img, []), img.bytes[..], d, want, i);
        return None, true;
      }
      var nrva: nat := img.Load32(d.names as int + 4 * i);
      assert nrva == NameRva(w, mem, d, i);
      var matched := MatchName(img, nrva, want);
      if matched.None? {
        forall j ensures !FirstNamed(w, mem, d, want, j) { MalformedEarly(w, mem, d, want, i, j); }
        forall j | FaultsAt(w, mem, d, want, j) ensures false { StopsHere(w, mem, d, want, i, j); }
        return None, false;
      }
      if matched.value { return Some(i), false; }
    }
    return None, false;
  }

  lemma NamesFit(w: World, d: ExportDir)
    requires TablesIn(w, d)
    ensures d.names as int + 4 * (d.nnames as int) <= w.size
  {
    hide In;
  }

  method CheckTables(img: Image, d: ExportDir) returns (ok: bool)
    requires img.Mapped() && img.base != 0
    ensures ok == TablesIn(WorldOf(img, []), d)
  {
    hide Usable, Image.Mapped;
    ok := Range(img, d.fns, 4 * (d.nfns as int));
    if !ok { return; }
    ok := Range(img, d.names, 4 * (d.nnames as int));
    if !ok { return; }
    ok := Range(img, d.ords, 2 * (d.nnames as int));
  }

  /** get_export from a directory whose tables have passed their checks. */
  method LookUp(img: Image, d: ExportDir, want: seq<u8>) returns (r: Option<u32>, fault: bool)
    requires Bindable(img, []) && TablesIn(WorldOf(img, []), d)
    ensures fault <==> exists j :: FaultsAt(WorldOf(img, []), img.bytes[..], d, want, j)
    ensures !fault ==>
              forall rva: u32 ::
                r == Some(rva)
                <==> (exists i :: FirstNamed(WorldOf(img, []), img.bytes[..], d, want, i)
                                  && LeadsTo(WorldOf(img, []), img.bytes[..], d, i, rva))
  {
    hide Bindable, Usable, Fits, WindowLength, LeadsTo, FirstNamed, TablesIn, Reached, FollowFaults, WellFormed;
    assert img.bytes.Length == img.size as int && Fits(WorldOf(img, [])) by { BindableParts(img, []); }
    ghost var w, mem := WorldOf(img, []), img.bytes[..];
    var i;
    i, fault := SearchNames(img, d, want);
    if i.None? { return None, fault; }
    FirstNamedIndex(w, mem, d, want, i.value);
    r, fault := FollowOrdinal(img, d, i.value);
    forall j | FirstNamed(w, mem, d, want, j) ensures j == i.value { FirstNamedUnique(w, mem, d, want, i.value, j); }
    forall j | FaultsAt(w, mem, d, want, j) ensures j == i.value && fault { StopsHere(w, mem, d, want, i.value, j); }
    assert fault ==> FaultsAt(w, mem, d, want, i.value);
  }

  /** The checks on the directory and its tables; None if one fails. */
  method Directory(img: Image) returns (d: Option<ExportDir>, fault: bool)
    requires img.Mapped() && Fits(WorldOf(img, [])) && img.bytes.Length == img.size as int
    ensures var w, at: nat := WorldOf(img, []), ExportRva(img.file);
            && (fault <==> HasDirectory(w) && !Lands(w, Load(at + 16, at + 40))) && (fault ==> d.None?)
            && (!fault ==> (d.Some? <==> HasDirectory(w) && TablesIn(w, ReadExportDir(img.bytes[..], at))))
    ensures d.Some? ==> d.value == ReadExportDir(img.bytes[..], ExportRva(img.file))
  {
    hide Usable, Fits, TablesIn, ReadExportDir, Lands, Image.Mapped;
    var exprva: nat, expsz: nat := ExportRva(img.file), ExportSize(img.file);
    if exprva == 0 || expsz < 40 || img.base == 0 { return None, false; }
    var ok := Range(img, exprva, 40);
    if !ok { return None, false; }
    ok := Peek(img, [], exprva + 16, 24);
    if !ok { return None, true; }
    var dir := ReadDir(img, exprva);
    ok := CheckTables(img, dir);
    return if ok then Some(dir) else None, false;
  }

  /** get_export returns an RVA exactly when the first name equal to `want` has only well-formed names up to it and
      leads to a mapped target. It faults exactly where it comes to a table entry that is not mapped. */
  method GetExport(img: Image, want: seq<u8>) returns (r: Option<u32>, fault: bool)
    requires img.Mapped() && Fits(WorldOf(img, [])) && img.bytes.Length == img.size as int
    ensures fault <==> LookupFaults(WorldOf(img, []), img.bytes[..], want)
    ensures fault ==> !NoPhantom(img.file)
    ensures !fault ==> forall rva: u32 :: r == Some(rva) <==> Exported(WorldOf(img, []), img.bytes[..], want, rva)
  {
    hide Usable, Fits, LeadsTo, FirstNamed, TablesIn, ReadExportDir, NoPhantom, FaultsAt, Image.Mapped;
    if NoPhantom(img.file) { NoPhantomNoFault(img, img.bytes[..], want); }
    var d;
    d, fault := Directory(img);
    if d.None? { return None, fault; }
    r, fault := LookUp(img, d.value, want);
  }

  lemma FirstNamedIndex(w: World, mem: seq<u8>, d: ExportDir, want: seq<u8>, i: nat)
    requires Fits(w) && |mem| == w.size && TablesIn(w, d) && FirstNamed(w, mem, d, want, i)
    ensures i < d.nnames as int && WellFormed(w, mem, NameRva(w, mem, d, i))
    ensures CString(w, mem, NameRva(w, mem, d, i)) == want
  {
    hide Fits, TablesIn, WellFormed, CString, NameRva;
  }

  /** Compare the string at nrva: None if it is malformed. */
  method MatchName(img: Image, nrva: nat, want: seq<u8>) returns (r: Option<bool>)
    requires Bindable(img, [])
    ensures r.Some? <==> WellFormed(WorldOf(img, []), img.bytes[..], nrva)
    ensures r.Some? ==> r.value == (CString(WorldOf(img, []), img.bytes[..], nrva) == want)
  {
    hide Usable, Fits, WindowLength, Image.Mapped;
    var ok := Range(img, nrva, 1);
    if !ok { return None; }
    var window := ReadWindow(img, [], nrva);
    var n := FirstNul(window);
    if n == |window| { return None; }
    r := Some(window[..n] == want);
  }
}
