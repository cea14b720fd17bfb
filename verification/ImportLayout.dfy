/** Import tables written down as bytes (Microsoft PE/COFF specification, section 6.4), and what binding makes of them,
    independently of how the loader takes the words apart. */
module ImportLayout {
  import opened Bytes
  import opened Layout
  import opened PeFile
  import opened ImageMap
  import opened AccessLog
  import opened ImportSpec
  import opened ImportTables
  import opened ImportTheory

  // ---- the tables ----

  /** An import by ordinal, or by the name that stands two bytes behind RVA `at`; `high` is what a thunk by name holds
      in the bits from 31 up to the flag. */
  datatype Import = ByOrdinal(number: nat) | ByName(at: nat, high: nat, name: seq<u8>) {
    predicate Valid() {
      match this
      case ByOrdinal(number) => number < 0x8000_0000_0000_0000
      case ByName(at, high, name) => at < 0x8000_0000 && high < 0x1_0000_0000 && at + high > 0 && 0 !in name
    }

    /** Its thunk. */
    function Word(): (v: u64)
      requires Valid()
      ensures v > 0
    {
      match this
      case ByOrdinal(number) => 0x8000_0000_0000_0000 + number
      case ByName(at, high, _) => 0x8000_0000 * high + at
    }

    /** What its slot is to hold. */
    function Asks(shims: seq<Shim>): u64 {
      match this
      case ByOrdinal(_) => 0
      case ByName(_, _, name) => FindShim(shims, name)
    }
  }

  /** A descriptor and the thunks of its lookup table. */
  datatype Dll = Dll(orig: u32, timestamp: u32, chain: u32, name: u32, fthunk: u32, imports: seq<Import>) {
    predicate Valid() {
      && !(orig == 0 && timestamp == 0 && chain == 0 && name == 0 && fthunk == 0)
      && forall j :: 0 <= j < |imports| ==> imports[j].Valid()
    }

    /** Where its thunks are: in the lookup table, or, without one, in the address table. */
    function Table(): u32 { if orig != 0 then orig else fthunk }
  }

  function DllBytes(d: Dll): (r: seq<u8>)
    ensures |r| == 20
  {
    hide Le32;
    Le32(d.orig) + Le32(d.timestamp) + Le32(d.chain) + Le32(d.name) + Le32(d.fthunk)
  }

  function DllTable(dlls: seq<Dll>): (rows: seq<seq<u8>>)
    ensures |rows| == |dlls| && Even(rows, 20)
  {
    seq(|dlls|, k requires 0 <= k < |dlls| => DllBytes(dlls[k]))
  }

  /** The words of a lookup table: the thunks and a zero behind them. */
  function ThunkWord(d: Dll, j: nat): u64
    requires d.Valid()
  {
    if j < |d.imports| then d.imports[j].Word() else 0
  }

  function ThunkTable(d: Dll): (rows: seq<seq<u8>>)
    requires d.Valid()
    ensures |rows| == |d.imports| + 1 && Even(rows, 8)
  {
    seq(|d.imports| + 1, j requires 0 <= j <= |d.imports| => Le64(ThunkWord(d, j)))
  }

  /** A descriptor's lookup table, and the names its thunks ask for. */
  ghost predicate ThunksStand(mem: seq<u8>, d: Dll)
    requires d.Valid()
  {
    && At(mem, d.Table(), Concat(ThunkTable(d)))
    && forall j :: 0 <= j < |d.imports| && d.imports[j].ByName? ==> NameStands(mem, d.imports[j])
  }

  predicate NameStands(mem: seq<u8>, i: Import)
    requires i.ByName?
  {
    At(mem, i.at + 2, i.name + [0])
  }

  const NO_DLL: Dll := Dll(0, 0, 0, 0, 0, [])

  /** These descriptors, a zero descriptor behind them, and all their thunks and names stand in memory. */
  ghost predicate Stand(mem: seq<u8>, rva: nat, dlls: seq<Dll>) {
    && At(mem, rva, Concat(DllTable(dlls))) && At(mem, rva + 20 * |dlls|, DllBytes(Dll(0, 0, 0, 0, 0, [])))
    && forall k :: 0 <= k < |dlls| ==> dlls[k].Valid() && ThunksStand(mem, dlls[k])
  }

  // ---- as the loader reads them ----

  lemma DllParts(d: Dll)
    ensures var b := DllBytes(d);
            && b[0..4] == Le32(d.orig) && b[4..8] == Le32(d.timestamp) && b[8..12] == Le32(d.chain)
            && b[12..16] == Le32(d.name) && b[16..20] == Le32(d.fthunk)
  {
    hide Le32;
  }

  function DescOf(d: Dll): Desc { Desc(d.orig, d.timestamp, d.chain, d.name, d.fthunk) }

  lemma DescReads(mem: seq<u8>, o: nat, d: Dll)
    requires At(mem, o, DllBytes(d))
    ensures o + 20 <= |mem| && ReadDesc(mem, o) == DescOf(d)
  {
    hide Le32, Read32, DllBytes;
    var b := DllBytes(d);
    DllParts(d);
    Part32(mem, o, b, 0, d.orig);
    Part32(mem, o, b, 4, d.timestamp);
    Part32(mem, o, b, 8, d.chain);
    Part32(mem, o, b, 12, d.name);
    Part32(mem, o, b, 16, d.fthunk);
  }

  lemma DescStands(mem: seq<u8>, rva: nat, dlls: seq<Dll>, k: nat)
    requires Stand(mem, rva, dlls) && k <= |dlls|
    ensures DescAt(mem, rva, k)
    ensures ReadDesc(mem, rva + 20 * k) == if k < |dlls| then DescOf(dlls[k]) else Desc(0, 0, 0, 0, 0)
  {
    hide DllBytes, Concat, At, ReadDesc, ThunksStand;
    if k < |dlls| {
      RowAt(mem, rva, DllTable(dlls), 20, k);
      DescReads(mem, rva + 20 * k, dlls[k]);
    } else {
      DescReads(mem, rva + 20 * k, NO_DLL);
    }
  }

  /** The descriptors the walk comes to are those that stand there. */
  lemma DescLiveIs(mem: seq<u8>, rva: nat, dlls: seq<Dll>, k: nat)
    requires Stand(mem, rva, dlls)
    ensures DescLive(mem, rva, k) <==> k < |dlls|
    ensures k < |dlls| ==> DescNo(mem, rva, k) == DescOf(dlls[k]) && dlls[k].Valid() && ThunksStand(mem, dlls[k])
  {
    hide DllBytes, Concat, At, ReadDesc, ThunksStand;
    forall i: nat | i <= |dlls|
      ensures DescAt(mem, rva, i)
      ensures ReadDesc(mem, rva + 20 * i) == if i < |dlls| then DescOf(dlls[i]) else Desc(0, 0, 0, 0, 0)
    {
      DescStands(mem, rva, dlls, i);
    }
  }

  lemma ThunkReads(mem: seq<u8>, d: Dll, j: nat)
    requires d.Valid() && ThunksStand(mem, d) && j <= |d.imports|
    ensures ThunkAt(mem, d.Table(), j) && Read64(mem, d.Table() as int + 8 * j) == ThunkWord(d, j)
  {
    hide Le64, Read64, Concat, At, ThunkWord;
    var rt: nat := d.Table();
    RowAt(mem, rt, ThunkTable(d), 8, j);
    Word64(mem, rt + 8 * j, ThunkWord(d, j));
  }

  lemma ThunkLiveIs(mem: seq<u8>, d: Dll, j: nat)
    requires d.Valid() && ThunksStand(mem, d)
    ensures ThunkLive(mem, d.Table(), j) <==> j < |d.imports|
  {
    hide Read64, ThunksStand;
    forall i: nat | i <= |d.imports|
      ensures ThunkAt(mem, d.Table(), i) && Read64(mem, d.Table() as int + 8 * i) == ThunkWord(d, i)
    {
      ThunkReads(mem, d, i);
    }
    ThunkReads(mem, d, |d.imports|);
  }

  /** Slot (k, j) is one the loader is to bind exactly when import j of descriptor k stands there. */
  lemma LiveIs(mem: seq<u8>, rva: nat, dlls: seq<Dll>, k: nat, j: nat)
    requires Stand(mem, rva, dlls)
    ensures Live(mem, rva, k, j) <==> k < |dlls| && j < |dlls[k].imports|
    ensures Live(mem, rva, k, j) ==> dlls[k].Valid() && ThunksStand(mem, dlls[k])
                                     && ThunkNo(mem, rva, k, j) == dlls[k].imports[j].Word()
                                     && Slot(DescNo(mem, rva, k), j) == dlls[k].fthunk as int + 8 * j
  {
    hide Read64, ThunksStand, Stand, ThunkLive, DescLive, DescNo;
    DescLiveIs(mem, rva, dlls, k);
    if k < |dlls| {
      ThunkLiveIs(mem, dlls[k], j);
      if j < |dlls[k].imports| { ThunkReads(mem, dlls[k], j); }
    }
  }

  // ---- what a thunk asks for ----

  /** The name at `at` can be read whole: its start is usable and it ends within its readable region. */
  ghost predicate Readable(w: World, i: Import)
    requires Fits(w) && i.ByName?
  {
    Usable(w.file, w.size, i.at, 3) && WindowLength(w, i.at + 2) > |i.name|
  }

  lemma WordParts(i: Import)
    requires i.Valid() && i.ByName?
    ensures i.Word() < BY_ORDINAL && ThunkRva(i.Word()) == i.at
  {
    assert i.Word() as int == 0x8000_0000 * i.high + i.at;
  }

  /** The string found where a text stands: the text, or a beginning of it that is cut off without a NUL. */
  lemma StringFound(w: World, mem: seq<u8>, at: nat, text: seq<u8>)
    requires Fits(w) && |mem| == w.size && 0 !in text && At(mem, at, text + [0])
    ensures var window := StringWindow(w, mem, at);
            if |window| > |text| then FirstNul(window) == |text| && window[..|text|] == text
            else FirstNul(window) == |window|
  {
    hide Fits, WindowLength, FirstNul;
    var window, d := StringWindow(w, mem, at), text + [0];
    forall k: nat | k < |window| && k <= |text| ensures window[k] == d[k] { AtByte(mem, at, d, k); }
    FirstNulUnique(window, if |window| > |text| then |text| else |window|);
  }

  /** A thunk by name receives the first shim of exactly that name, whatever bits stand above its RVA; it is rejected
      exactly when the name cannot be read whole. One by ordinal receives null. */
  lemma ValueIs(w: World, mem: seq<u8>, i: Import)
    requires Fits(w) && |mem| == w.size && i.Valid() && (i.ByName? ==> NameStands(mem, i))
    ensures EntryValue(w, mem, i.Word())
            == if i.ByOrdinal? || Readable(w, i) then Some(i.Asks(w.shims)) else None
  {
    hide Fits, WindowLength, FirstNul, Usable, StringWindow;
    if i.ByName? {
      WordParts(i);
      StringFound(w, mem, i.at + 2, i.name);
    }
  }

  /** Nothing but the name and its NUL is examined. */
  lemma NameLoadIs(w: World, mem: seq<u8>, i: Import)
    requires Fits(w) && |mem| == w.size && i.Valid() && (i.ByName? ==> NameStands(mem, i))
    ensures var x := NameLoad(w, mem, i.Word());
            x == Load(0, 0) || (i.ByName? && x.Lo() == i.at + 2 && x.Hi() <= i.at + 2 + |i.name| + 1)
  {
    hide Fits, WindowLength, FirstNul, Usable, StringWindow;
    if i.ByName? {
      WordParts(i);
      StringFound(w, mem, i.at + 2, i.name);
    }
  }

  // ---- what a bound image holds ----

  /** Byte a belongs to a slot. */
  predicate SlotByte(d: Dll, a: nat) { d.fthunk <= a < d.fthunk as int + 8 * |d.imports| }

  /** Every slot holds what its import asks for, and no other byte has changed. */
  ghost predicate BoundAs(dlls: seq<Dll>, shims: seq<Shim>, mem: seq<u8>, final: seq<u8>) {
    && |final| == |mem|
    && (forall k, j :: 0 <= k < |dlls| && 0 <= j < |dlls[k].imports| ==>
          At(final, dlls[k].fthunk as int + 8 * j, Le64(dlls[k].imports[j].Asks(shims))))
    && forall a :: 0 <= a < |mem| && (forall k :: 0 <= k < |dlls| ==> !SlotByte(dlls[k], a)) ==> final[a] == mem[a]
  }

  lemma SlotBound(w: World, mem: seq<u8>, rva: nat, dlls: seq<Dll>, final: seq<u8>, k: nat, j: nat)
    requires Fits(w) && |mem| == w.size && Stand(mem, rva, dlls) && ExactlyBound(w, mem, rva, final)
    requires k < |dlls| && j < |dlls[k].imports|
    ensures At(final, dlls[k].fthunk as int + 8 * j, Le64(dlls[k].imports[j].Asks(w.shims)))
  {
    hide Fits, Stand, ThunksStand, Le64, Read64, EntryValue, Live, DescNo, At;
    LiveIs(mem, rva, dlls, k, j);
    var i := dlls[k].imports[j];
    assert Holds(w, mem, rva, final, k, j);
    assert i.Valid() && (i.ByName? ==> NameStands(mem, i)) by { ImportStands(mem, dlls[k], j); }
    ValueIs(w, mem, i);
    Word64(final, dlls[k].fthunk as int + 8 * j, i.Asks(w.shims));
  }

  lemma ImportStands(mem: seq<u8>, d: Dll, j: nat)
    requires d.Valid() && ThunksStand(mem, d) && j < |d.imports|
    ensures d.imports[j].Valid() && (d.imports[j].ByName? ==> NameStands(mem, d.imports[j]))
  {
    hide At, Concat;
  }

  lemma ByteKept(w: World, mem: seq<u8>, rva: nat, dlls: seq<Dll>, final: seq<u8>, a: nat)
    requires Fits(w) && |mem| == w.size && Stand(mem, rva, dlls) && ExactlyBound(w, mem, rva, final)
    requires a < |mem| && forall k :: 0 <= k < |dlls| ==> !SlotByte(dlls[k], a)
    ensures final[a] == mem[a]
  {
    hide Fits, Stand, Holds, Live, DescNo, ThunksStand, Slot;
    forall k: nat, j: nat | Live(mem, rva, k, j)
      ensures !(Slot(DescNo(mem, rva, k), j) <= a < Slot(DescNo(mem, rva, k), j) + 8)
    {
      LiveIs(mem, rva, dlls, k, j);
      assert !SlotByte(dlls[k], a);
    }
  }

  /** Tables bound exactly are bound as the written tables ask. */
  lemma BoundAsWritten(w: World, mem: seq<u8>, rva: nat, dlls: seq<Dll>, final: seq<u8>)
    requires Fits(w) && |mem| == w.size && Stand(mem, rva, dlls) && ExactlyBound(w, mem, rva, final)
    ensures BoundAs(dlls, w.shims, mem, final)
  {
    hide Fits, Stand, At, SlotByte, Le64;
    forall k, j | 0 <= k < |dlls| && 0 <= j < |dlls[k].imports|
      ensures At(final, dlls[k].fthunk as int + 8 * j, Le64(dlls[k].imports[j].Asks(w.shims)))
    {
      SlotBound(w, mem, rva, dlls, final, k, j);
    }
    forall a | 0 <= a < |mem| && (forall k :: 0 <= k < |dlls| ==> !SlotByte(dlls[k], a)) ensures final[a] == mem[a] {
      ByteKept(w, mem, rva, dlls, final, a);
    }
    assert |final| == |mem| by { SameLength(w, mem, rva, final); }
  }

  lemma SameLength(w: World, mem: seq<u8>, rva: nat, final: seq<u8>)
    requires Fits(w) && |mem| == w.size && ExactlyBound(w, mem, rva, final)
    ensures |final| == |mem|
  {
    hide Holds, InSlot;
  }

  // ---- which tables are accepted ----

  /** The thunks with their zero thunk, and their slots, may be used, and every name can be read whole. */
  ghost predicate ThunksAccepted(w: World, d: Dll)
    requires Fits(w)
  {
    var n := 8 * |d.imports| + 8;
    && Usable(w.file, w.size, d.Table(), n) && Usable(w.file, w.size, d.fthunk, n)
    && forall j :: 0 <= j < |d.imports| && d.imports[j].ByName? ==> Readable(w, d.imports[j])
  }

  lemma ThunkBindsIs(w: World, mem: seq<u8>, d: Dll, j: nat)
    requires Fits(w) && |mem| == w.size && d.Valid() && ThunksStand(mem, d) && j <= |d.imports|
    ensures ThunkBinds(w, mem, d.Table(), d.fthunk, j)
            <==> j < |d.imports| && ThunkUsable(w, d.Table(), d.fthunk, j)
                 && (d.imports[j].ByName? ==> Readable(w, d.imports[j]))
    ensures ThunkEnds(w, mem, d.Table(), d.fthunk, j) <==> j == |d.imports| && ThunkUsable(w, d.Table(), d.fthunk, j)
  {
    hide Fits, ThunksStand, Read64, EntryValue, ThunkUsable, Readable, NameStands;
    ThunkReads(mem, d, j);
    if j < |d.imports| {
      ImportStands(mem, d, j);
      ValueIs(w, mem, d.imports[j]);
    }
  }

  lemma AllUsable(w: World, d: Dll)
    ensures (forall j: nat :: j <= |d.imports| ==> ThunkUsable(w, d.Table(), d.fthunk, j))
            <==> Usable(w.file, w.size, d.Table(), 8 * |d.imports| + 8)
                 && Usable(w.file, w.size, d.fthunk, 8 * |d.imports| + 8)
  {
    hide WalkCovers;
    var rt: nat, fth: nat, n := d.Table(), d.fthunk, |d.imports|;
    if forall j: nat :: j <= n ==> ThunkUsable(w, rt, fth, j) {
      assert ThunkUsable(w, rt, fth, n);
      forall a | rt <= a < rt + 8 * n + 8 ensures WalkCovers(w.file, a) {
        assert ThunkUsable(w, rt, fth, (a - rt) / 8);
      }
      forall a | fth <= a < fth + 8 * n + 8 ensures WalkCovers(w.file, a) {
        assert ThunkUsable(w, rt, fth, (a - fth) / 8);
      }
    }
  }

  lemma ThunksOkIs(w: World, mem: seq<u8>, d: Dll)
    requires Fits(w) && |mem| == w.size && d.Valid() && ThunksStand(mem, d)
    ensures ThunksOk(w, mem, d.Table(), d.fthunk, 0) <==> ThunksAccepted(w, d)
  {
    hide Fits, ThunksStand, ThunkBinds, ThunkEnds, ThunkUsable, Usable, Readable;
    var rt: nat, fth: nat, n := d.Table(), d.fthunk, |d.imports|;
    forall j: nat | j <= n
      ensures ThunkBinds(w, mem, rt, fth, j)
              <==> j < n && ThunkUsable(w, rt, fth, j) && (d.imports[j].ByName? ==> Readable(w, d.imports[j]))
      ensures ThunkEnds(w, mem, rt, fth, j) <==> j == n && ThunkUsable(w, rt, fth, j)
    {
      ThunkBindsIs(w, mem, d, j);
    }
    AllUsable(w, d);
    if ThunksOk(w, mem, rt, fth, 0) {
      var m: nat :| ThunksBind(w, mem, rt, fth, 0, m) && ThunkEnds(w, mem, rt, fth, m);
      assert m == n;
    }
    if ThunksAccepted(w, d) { assert ThunksBind(w, mem, rt, fth, 0, n); }
  }

  /** A descriptor's names and tables pass their checks, and its thunks are accepted. */
  ghost predicate DllAccepted(w: World, d: Dll)
    requires Fits(w)
  {
    && d.name != 0 && d.fthunk != 0 && Usable(w.file, w.size, d.name, 1)
    && (forall a :: d.fthunk as int <= a < d.fthunk as int + 8 ==> SectionCovers(Sections(w.file), a))
    && ThunksAccepted(w, d)
  }

  lemma FirstUsable(w: World, o: nat, n: nat)
    requires Usable(w.file, w.size, o, 8 * n + 8)
    ensures Usable(w.file, w.size, o, 8)
  {
    hide WalkCovers;
  }

  lemma DescBindsIs(w: World, mem: seq<u8>, rva: nat, end: nat, dlls: seq<Dll>, k: nat)
    requires Fits(w) && |mem| == w.size && Stand(mem, rva, dlls) && k < |dlls|
    ensures DescBinds(w, mem, rva, end, k) <==> DescUsable(w, rva + 20 * k, end) && DllAccepted(w, dlls[k])
  {
    hide Fits, Stand, ThunksStand, ReadDesc, ThunksOk, ThunksAccepted, DescUsable, Usable, SectionCovers;
    var d := dlls[k];
    DescStands(mem, rva, dlls, k);
    DescLiveIs(mem, rva, dlls, k);
    ThunksOkIs(w, mem, d);
    if ThunksAccepted(w, d) { FirstThunks(w, d); }
  }

  lemma FirstThunks(w: World, d: Dll)
    requires Fits(w) && ThunksAccepted(w, d)
    ensures Usable(w.file, w.size, d.fthunk, 8) && Usable(w.file, w.size, d.Table(), 8)
  {
    hide Usable, Readable;
    FirstUsable(w, d.Table(), |d.imports|);
    FirstUsable(w, d.fthunk, |d.imports|);
  }

  /** Written tables are well formed exactly when the directory may be used and has room for them, and every descriptor
      is accepted. */
  lemma TablesOkIs(w: World, mem: seq<u8>, dlls: seq<Dll>)
    requires Fits(w) && |mem| == w.size && ImportRva(w.file) != 0 && Stand(mem, ImportRva(w.file), dlls)
    ensures TablesOk(w, mem)
            <==> DirectoryOk(w) && 20 * |dlls| + 20 <= ImportSize(w.file) as int
                 && forall k :: 0 <= k < |dlls| ==> DllAccepted(w, dlls[k])
  {
    hide Fits, Stand, DescBinds, DllAccepted, ReadDesc, Usable;
    var rva: nat, end, n := ImportRva(w.file), ImportEnd(w.file), |dlls|;
    forall k: nat | k <= n && DirectoryOk(w)
      ensures DescUsable(w, rva + 20 * k, end) <==> 20 * k + 20 <= ImportSize(w.file) as int
      ensures DescEnds(w, mem, rva, end, k) <==> k == n && DescUsable(w, rva + 20 * k, end)
      ensures DescBinds(w, mem, rva, end, k) ==> k < n
      ensures k < n ==>
                (DescBinds(w, mem, rva, end, k) <==> DescUsable(w, rva + 20 * k, end) && DllAccepted(w, dlls[k]))
    {
      EachDesc(w, mem, rva, end, dlls, k);
    }
    if DirectoryOk(w) && DescsOk(w, mem, rva, end, 0) {
      var m: nat :| DescsBind(w, mem, rva, end, 0, m) && DescEnds(w, mem, rva, end, m);
      assert m == n;
    }
    if DirectoryOk(w) && 20 * n + 20 <= ImportSize(w.file) as int
       && forall k :: 0 <= k < n ==> DllAccepted(w, dlls[k])
    {
      assert DescsBind(w, mem, rva, end, 0, n) && DescEnds(w, mem, rva, end, n);
    }
  }

  lemma EachDesc(w: World, mem: seq<u8>, rva: nat, end: nat, dlls: seq<Dll>, k: nat)
    requires Fits(w) && |mem| == w.size && rva == ImportRva(w.file) as int && end == ImportEnd(w.file)
    requires Stand(mem, rva, dlls) && k <= |dlls| && DirectoryOk(w)
    ensures DescUsable(w, rva + 20 * k, end) <==> 20 * k + 20 <= ImportSize(w.file) as int
    ensures DescEnds(w, mem, rva, end, k) <==> k == |dlls| && DescUsable(w, rva + 20 * k, end)
    ensures DescBinds(w, mem, rva, end, k) ==> k < |dlls|
    ensures k < |dlls| ==>
              (DescBinds(w, mem, rva, end, k) <==> DescUsable(w, rva + 20 * k, end) && DllAccepted(w, dlls[k]))
  {
    hide Fits, Stand, DllAccepted, ReadDesc, WalkCovers, ThunksOk, DescOk;
    DescStands(mem, rva, dlls, k);
    if k < |dlls| {
      DescBindsIs(w, mem, rva, end, dlls, k);
      DescLiveIs(mem, rva, dlls, k);
    }
  }

  // ---- tables that do not get in each other's way ----

  predicate Disjoint(a: nat, n: nat, b: nat, m: nat) { n == 0 || m == 0 || a + n <= b || b + m <= a }

  /** Slots keep off the descriptors, each other, the names, and the lookup tables but their own. */
  predicate LaidApart(rva: nat, dlls: seq<Dll>) {
    && (forall k :: 0 <= k < |dlls| ==> Disjoint(dlls[k].fthunk, 8 * |dlls[k].imports|, rva, 20 * |dlls| + 20))
    && (forall k, m :: 0 <= k < |dlls| && 0 <= m < |dlls| && k != m
            ==> Disjoint(dlls[k].fthunk, 8 * |dlls[k].imports|, dlls[m].fthunk, 8 * |dlls[m].imports|))
    && (forall k, m :: 0 <= k < |dlls| && 0 <= m < |dlls| ==> KeepsOffAt(dlls, k, m))
  }

  predicate KeepsOffAt(dlls: seq<Dll>, k: nat, m: nat)
    requires k < |dlls| && m < |dlls|
  {
    var d, other, slots := dlls[k], dlls[m], 8 * |dlls[k].imports|;
    && ((k == m && d.Table() == d.fthunk) || Disjoint(d.fthunk, slots, other.Table(), 8 * |other.imports| + 8))
    && forall j :: 0 <= j < |other.imports| && other.imports[j].ByName?
                   ==> Disjoint(d.fthunk, slots, other.imports[j].at + 2, |other.imports[j].name| + 1)
  }

  lemma ReachedIs(mem: seq<u8>, rva: nat, dlls: seq<Dll>, m: nat)
    requires Stand(mem, rva, dlls)
    ensures DescReached(mem, rva, m) <==> m <= |dlls|
  {
    hide Stand, ReadDesc;
    if m > 0 {
      DescLiveIs(mem, rva, dlls, m - 1);
    }
  }

  lemma VisitedIs(mem: seq<u8>, rva: nat, dlls: seq<Dll>, m: nat, i: nat)
    requires Stand(mem, rva, dlls) && ThunkVisited(mem, rva, m, i)
    ensures m < |dlls| && i <= |dlls[m].imports| && DescNo(mem, rva, m) == DescOf(dlls[m])
  {
    hide Stand, ThunksStand, DescLive, Read64, DescNo;
    DescLiveIs(mem, rva, dlls, m);
    ThunkLiveIs(mem, dlls[m], |dlls[m].imports|);
  }

  lemma SlotsApart(mem: seq<u8>, rva: nat, dlls: seq<Dll>, k: nat, j: nat, m: nat, i: nat)
    requires Stand(mem, rva, dlls) && LaidApart(rva, dlls) && TwoSlots(mem, rva, k, j, m, i)
    ensures Apart(SlotOf(mem, rva, k, j), SlotOf(mem, rva, m, i))
  {
    hide Stand, ThunksStand, Live, DescNo, KeepsOffAt;
    LiveIs(mem, rva, dlls, k, j);
    LiveIs(mem, rva, dlls, m, i);
  }

  lemma DescsApart(mem: seq<u8>, rva: nat, dlls: seq<Dll>, k: nat, j: nat, m: nat)
    requires Stand(mem, rva, dlls) && LaidApart(rva, dlls) && Live(mem, rva, k, j) && DescReached(mem, rva, m)
    ensures Apart(SlotOf(mem, rva, k, j), DescRange(rva, m))
  {
    hide Stand, ThunksStand, Live, DescNo, KeepsOffAt, DescReached;
    LiveIs(mem, rva, dlls, k, j);
    ReachedIs(mem, rva, dlls, m);
  }

  lemma LookupsApart(mem: seq<u8>, rva: nat, dlls: seq<Dll>, k: nat, j: nat, m: nat, i: nat)
    requires Stand(mem, rva, dlls) && LaidApart(rva, dlls) && Live(mem, rva, k, j) && ThunkVisited(mem, rva, m, i)
    requires !(k == m && DescNo(mem, rva, k).Source() == DescNo(mem, rva, k).fthunk)
    ensures Apart(SlotOf(mem, rva, k, j), Lookup(DescNo(mem, rva, m).Source(), i))
  {
    hide Stand, ThunksStand, Live, DescNo, ThunkVisited;
    LiveIs(mem, rva, dlls, k, j);
    VisitedIs(mem, rva, dlls, m, i);
    assert KeepsOffAt(dlls, k, m);
    assert k == m ==> DescNo(mem, rva, k) == DescOf(dlls[k]);
  }

  lemma NamesApart(w: World, mem: seq<u8>, rva: nat, dlls: seq<Dll>, k: nat, j: nat, m: nat, i: nat)
    requires Fits(w) && |mem| == w.size && Stand(mem, rva, dlls) && LaidApart(rva, dlls)
    requires Live(mem, rva, k, j) && Live(mem, rva, m, i)
    ensures Apart(SlotOf(mem, rva, k, j), NameLoad(w, mem, ThunkNo(mem, rva, m, i)))
  {
    hide Fits, Stand, ThunksStand, Live, DescNo, NameLoad;
    LiveIs(mem, rva, dlls, k, j);
    LiveIs(mem, rva, dlls, m, i);
    ImportStands(mem, dlls[m], i);
    NameLoadIs(w, mem, dlls[m].imports[i]);
    assert KeepsOffAt(dlls, k, m);
  }

  /** Tables written apart are free of hazards. */
  lemma LaidApartIsApart(w: World, mem: seq<u8>, rva: nat, dlls: seq<Dll>)
    requires Fits(w) && |mem| == w.size && Stand(mem, rva, dlls) && LaidApart(rva, dlls)
    ensures TablesApart(w, mem, rva)
  {
    hide Fits, Stand, LaidApart, Live, DescNo, NameLoad, SlotOf, ThunkVisited, DescReached, Apart, Lookup, TwoSlots;
    forall k, j, m, i | TwoSlots(mem, rva, k, j, m, i) ensures Apart(SlotOf(mem, rva, k, j), SlotOf(mem, rva, m, i)) {
      SlotsApart(mem, rva, dlls, k, j, m, i);
    }
    forall k, j, m | Live(mem, rva, k, j) && DescReached(mem, rva, m)
      ensures Apart(SlotOf(mem, rva, k, j), DescRange(rva, m))
    {
      DescsApart(mem, rva, dlls, k, j, m);
    }
    forall k, j, m, i | Live(mem, rva, k, j) && ThunkVisited(mem, rva, m, i)
                        && !(k == m && DescNo(mem, rva, k).Source() == DescNo(mem, rva, k).fthunk)
      ensures Apart(SlotOf(mem, rva, k, j), Lookup(DescNo(mem, rva, m).Source(), i))
    {
      LookupsApart(mem, rva, dlls, k, j, m, i);
    }
    forall k, j, m, i | Live(mem, rva, k, j) && Live(mem, rva, m, i)
      ensures Apart(SlotOf(mem, rva, k, j), NameLoad(w, mem, ThunkNo(mem, rva, m, i)))
    {
      NamesApart(w, mem, rva, dlls, k, j, m, i);
    }
  }
}
