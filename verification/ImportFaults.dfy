/** How binding the imports ends: on which tables it faults, rejects or succeeds. */
module ImportFaults {
  import opened Bytes
  import opened PeFile
  import opened ImageMap
  import opened ImageTheory
  import opened AccessLog
  import opened ImportSpec
  import opened ImportTables
  import opened Imports

  /** How binding ends, when no access touches an earlier store: well exactly when the tables are well formed and every
      access lands, and with a rejection exactly when they are not and every access lands. */
  lemma BindingEnds(w: World, mem: seq<u8>)
    requires Fits(w) && |mem| == w.size && NoHazard(ImportWalk(w, mem).log)
    ensures RunImports(w, mem).outcome == Bound <==> TablesOk(w, mem) && AllLand(w, ImportWalk(w, mem).log)
    ensures RunImports(w, mem).outcome == Rejected <==> !TablesOk(w, mem) && AllLand(w, ImportWalk(w, mem).log)
  {
    hide Fits, NoHazard, RunImports, ImportWalk, TablesOk, AllLand;
    ImportsRefine(w, mem);
    ImportWalkOk(w, mem);
  }

  predicate LoadsLand(w: World, log: seq<Access>) {
    forall x :: x in log && x.Load? ==> Lands(w, x)
  }

  /** If no load faults, binding faults exactly when the loader comes to a slot that may not be written. */
  lemma FaultsAtSlots(w: World, mem: seq<u8>)
    requires Fits(w) && |mem| == w.size
    requires NoHazard(ImportWalk(w, mem).log) && LoadsLand(w, ImportWalk(w, mem).log)
    ensures RunImports(w, mem).outcome == Fault
            <==> exists k, j :: ComesTo(w, mem, k, j) && !Lands(w, StoreAt(w, mem, k, j))
  {
    hide Fits, NoHazard, RunImports, ImportWalk, TablesOk, ComesTo, StoreAt, Lands;
    BindingEnds(w, mem);
    var log := ImportWalk(w, mem).log;
    if !AllLand(w, log) {
      var x :| x in log && !Lands(w, x);
      ImportWalkStores(w, mem, x);
    }
    forall k, j | ComesTo(w, mem, k, j) ensures StoreAt(w, mem, k, j) in log {
      StoreAtSlot(w, mem, k, j);
      ImportWalkStores(w, mem, StoreAt(w, mem, k, j));
    }
  }

  // ---- loads never fault where image_range can be trusted ----

  /** What image_range lets through may be read, and so may what readable_range_length measures. */
  ghost predicate Safe(w: World) {
    && (forall o: nat, n: nat :: Usable(w.file, w.size, o, n) ==> Lands(w, Load(o, o + n)))
    && forall at: nat :: Fits(w) ==> Lands(w, Load(at, at + WindowLength(w, at)))
  }

  lemma LandsIsBacked(img: Image, shims: seq<Shim>, o: nat, n: nat)
    requires o + n <= img.size as int
    ensures Lands(WorldOf(img, shims), Load(o, o + n)) <==> img.Backed(o, n)
  {
    assert forall a: nat :: CanRead(WorldOf(img, shims), a) == img.Accessible(a);
  }

  /** On a mapped image that is so exactly when no phantom header byte lies outside the sections. */
  lemma ReadyIsSafe(img: Image, shims: seq<Shim>)
    requires img.Mapped()
    ensures Fits(WorldOf(img, shims)) && (Safe(WorldOf(img, shims)) <==> NoPhantom(img.file))
  {
    hide NoPhantom, ReadableLength, Fits, Lands, Image.Mapped, WalkCovers, Image.Backed;
    MappedFits(img, shims);
    TrustExactly(img);
    var w := WorldOf(img, shims);
    forall o: nat, n: nat | Usable(w.file, w.size, o, n)
      ensures Lands(w, Load(o, o + n)) <==> img.Backed(o, n)
    {
      LandsIsBacked(img, shims, o, n);
    }
    forall at: nat ensures Lands(w, Load(at, at + WindowLength(w, at))) { WindowLands(img, shims, at); }
  }

  lemma WindowLands(img: Image, shims: seq<Shim>, at: nat)
    requires img.Mapped() && Fits(WorldOf(img, shims))
    ensures var w := WorldOf(img, shims); Lands(w, Load(at, at + WindowLength(w, at)))
  {
    hide Fits, Image.Mapped, ReadableLength, Usable;
    ReadableIsAccessible(img, at);
    assert forall a: nat :: CanRead(WorldOf(img, shims), a) == img.Accessible(a);
  }

  lemma NameLands(w: World, mem: seq<u8>, ent: u64)
    requires Fits(w) && |mem| == w.size && Safe(w)
    ensures Lands(w, NameLoad(w, mem, ent))
  {
    hide WindowLength, Usable, Fits, StringExtent;
    var at := ThunkRva(ent) + 2;
    assert Lands(w, Load(at, at + WindowLength(w, at)));
  }

  lemma TurnLoadsLand(w: World, mem: seq<u8>, rt: nat, fth: nat, j: nat)
    requires Fits(w) && |mem| == w.size && Safe(w) && ThunkUsable(w, rt, fth, j)
    ensures LoadsLand(w, ThunkTurn(w, mem, rt, fth, j).log)
  {
    hide Fits, Usable, EntryValue, NameLoad, Lands, Read64;
    NameLands(w, mem, Read64(mem, rt + 8 * j));
  }

  lemma {:induction false} ThunkLoadsLand(w: World, mem: seq<u8>, rt: nat, fth: nat, j: nat)
    requires Fits(w) && |mem| == w.size && Safe(w)
    ensures LoadsLand(w, ThunkWalk(w, mem, rt, fth, j).log)
    decreases w.size - 8 * j
  {
    hide Fits, Safe, ThunkUsable, ThunkTurn, Lands;
    if ThunkUsable(w, rt, fth, j) {
      TurnLoadsLand(w, mem, rt, fth, j);
      if ThunkTurn(w, mem, rt, fth, j).stop.None? { ThunkLoadsLand(w, mem, rt, fth, j + 1); }
    }
  }

  lemma {:induction false} DescLoadsLand(w: World, mem: seq<u8>, d: nat, end: nat)
    requires Fits(w) && |mem| == w.size && Safe(w)
    ensures LoadsLand(w, DescWalk(w, mem, d, end).log)
    decreases end - d
  {
    hide Fits, ThunkWalk, DescOk, Lands, Usable, ReadDesc;
    if DescUsable(w, d, end) {
      var desc := ReadDesc(mem, d);
      assert Lands(w, Load(d, d + 20));
      ThunkLoadsLand(w, mem, desc.Source(), desc.fthunk, 0);
      DescLoadsLand(w, mem, d + 20, end);
    }
  }

  // ---- what the section table says about a slot ----

  /** The last section covering byte a is not executable; the header pages are not writable. */
  ghost predicate WritableByTable(secs: seq<Section>, a: nat) {
    exists i :: 0 <= i < |secs| && IsLastOn(secs, i, a) && !secs[i].Executable()
  }

  predicate IsLastOn(secs: seq<Section>, i: nat, a: nat)
    requires i < |secs|
  {
    secs[i].OnPages(a) && forall k :: i < k < |secs| ==> !secs[k].OnPages(a)
  }

  lemma {:induction false} PageWritable(hdr: u32, secs: seq<Section>, size: u32, a: nat)
    requires forall s :: s in secs ==> OverlayOk(size, s, false)
    ensures PageProt(hdr, secs, a / PAGE) == ReadWrite <==> WritableByTable(secs, a)
  {
    hide OverlayOk, PageUp32, OnPage;
    if secs != [] {
      var last, rest := secs[|secs| - 1], secs[..|secs| - 1];
      assert last in secs;
      PageOfByte(last, size, a);
      if last.OnPages(a) {
        assert IsLastOn(secs, |secs| - 1, a);
      } else {
        PageWritable(hdr, rest, size, a);
        assert forall i :: 0 <= i < |rest| ==> (IsLastOn(secs, i, a) <==> IsLastOn(rest, i, a));
      }
    }
  }

  lemma WritableExactly(img: Image, shims: seq<Shim>, a: nat)
    requires img.Mapped()
    ensures CanWrite(WorldOf(img, shims), a) <==> WritableByTable(Sections(img.file), a)
  {
    hide PageProt;
    PageWritable(HeaderSize(img.file), Sections(img.file), img.size, a);
    if i :| 0 <= i < |Sections(img.file)| && IsLastOn(Sections(img.file), i, a) {
      assert OverlayOk(img.size, Sections(img.file)[i], false);
    }
  }

  /** Every byte of the slot is in a section that was mapped last there and is not executable. */
  ghost predicate SlotWritable(img: Image, mem: seq<u8>, k: nat, j: nat) {
    var slot := Slot(DescNo(mem, ImportRva(img.file), k), j);
    forall a :: slot <= a < slot + 8 ==> WritableByTable(Sections(img.file), a)
  }

  /** How binding ends on a mapped image on which image_range can be trusted: it faults exactly when the loader comes
      to a slot of which some byte lies in no section or last in an executable one, and succeeds exactly when it comes
      to none and the tables are well formed. */
  ghost predicate EndsByTables(img: Image, shims: seq<Shim>, mem: seq<u8>, outcome: Outcome)
    requires Fits(WorldOf(img, shims)) && |mem| == img.size as int
    reads img, img.prot
  {
    var w := WorldOf(img, shims);
    && (outcome == Fault <==> exists k, j :: ComesTo(w, mem, k, j) && !SlotWritable(img, mem, k, j))
    && (outcome == Bound <==> TablesOk(w, mem) && forall k, j :: ComesTo(w, mem, k, j) ==> SlotWritable(img, mem, k, j))
  }

  lemma StoreAtLands(img: Image, shims: seq<Shim>, mem: seq<u8>, k: nat, j: nat)
    requires img.Mapped() && |mem| == img.size as int && Fits(WorldOf(img, shims))
    requires ComesTo(WorldOf(img, shims), mem, k, j)
    ensures Lands(WorldOf(img, shims), StoreAt(WorldOf(img, shims), mem, k, j)) <==> SlotWritable(img, mem, k, j)
  {
    hide Fits, DescNo, WritableByTable, Image.Mapped, ComesTo, StoreAt;
    var w := WorldOf(img, shims);
    StoreAtSlot(w, mem, k, j);
    var slot := Slot(DescNo(mem, ImportRva(img.file), k), j);
    forall a | slot <= a < slot + 8 ensures CanWrite(w, a) <==> WritableByTable(Sections(img.file), a) {
      WritableExactly(img, shims, a);
    }
  }

  lemma BindingFaultsExactly(img: Image, shims: seq<Shim>, mem: seq<u8>)
    requires img.Mapped() && NoPhantom(img.file) && |mem| == img.size as int
    requires Fits(WorldOf(img, shims)) && NoHazard(ImportWalk(WorldOf(img, shims), mem).log)
    ensures EndsByTables(img, shims, mem, RunImports(WorldOf(img, shims), mem).outcome)
  {
    hide Fits, NoHazard, RunImports, DescWalk, Safe, Image.Mapped, NoPhantom, ComesTo, TablesOk, SlotWritable, StoreAt;
    var w := WorldOf(img, shims);
    ReadyIsSafe(img, shims);
    DescLoadsLand(w, mem, ImportRva(img.file), ImportEnd(img.file));
    FaultsAtSlots(w, mem);
    BindingEnds(w, mem);
    forall k, j | ComesTo(w, mem, k, j)
      ensures Lands(w, StoreAt(w, mem, k, j)) <==> SlotWritable(img, mem, k, j)
    {
      StoreAtLands(img, shims, mem, k, j);
    }
  }
}
