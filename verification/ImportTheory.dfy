/** What a bound image holds, and table layouts on which patching while walking is harmless. */
module ImportTheory {
  import opened Bytes
  import opened AccessLog
  import opened ImportSpec
  import opened ImportTables

  // ---- which accesses a walk makes ----

  /** x is one of the accesses made for thunk j. */
  ghost predicate ThunkAccess(w: World, mem: seq<u8>, rt: nat, fth: nat, j: nat, x: Access)
    requires Fits(w) && |mem| == w.size
  {
    && ThunkReached(mem, rt, j) && ThunkAt(mem, rt, j)
    && (x == Lookup(rt, j)
        || (Read64(mem, rt + 8 * j) != 0
            && (x == NameLoad(w, mem, Read64(mem, rt + 8 * j))
                || (x.Store? && x.at == fth + 8 * j && EntryValue(w, mem, Read64(mem, rt + 8 * j)) == Some(x.val)))))
  }

  ghost predicate ThunkAccessFrom(w: World, mem: seq<u8>, rt: nat, fth: nat, j0: nat, x: Access)
    requires Fits(w) && |mem| == w.size
  {
    exists j :: j0 <= j && ThunkAccess(w, mem, rt, fth, j, x)
  }

  lemma TurnAccesses(w: World, mem: seq<u8>, rt: nat, fth: nat, j: nat)
    requires Fits(w) && |mem| == w.size && ThunkUsable(w, rt, fth, j) && ThunkReached(mem, rt, j)
    ensures forall x :: x in ThunkTurn(w, mem, rt, fth, j).log ==> ThunkAccess(w, mem, rt, fth, j, x)
    ensures ThunkTurn(w, mem, rt, fth, j).stop.None? ==> ThunkReached(mem, rt, j + 1)
  {
    hide Fits, EntryValue, NameLoad, Read64;
  }

  lemma {:induction false} ThunkAccesses(w: World, mem: seq<u8>, rt: nat, fth: nat, j: nat, x: Access)
    requires Fits(w) && |mem| == w.size && ThunkReached(mem, rt, j)
    requires x in ThunkWalk(w, mem, rt, fth, j).log
    ensures ThunkAccessFrom(w, mem, rt, fth, j, x)
    decreases w.size - 8 * j
  {
    hide Fits, ThunkAccess, ThunkTurn, ThunkReached, ThunkUsable;
    TurnAccesses(w, mem, rt, fth, j);
    if x !in ThunkTurn(w, mem, rt, fth, j).log {
      ThunkAccesses(w, mem, rt, fth, j + 1, x);
    }
  }

  /** x is one of the accesses made for descriptor k. */
  ghost predicate DescAccess(w: World, mem: seq<u8>, rva: nat, k: nat, x: Access)
    requires Fits(w) && |mem| == w.size
  {
    && DescReached(mem, rva, k)
    && (x == Load(rva + 20 * k, rva + 20 * k + 20)
        || (DescLive(mem, rva, k)
            && ThunkAccessFrom(w, mem, DescNo(mem, rva, k).Source(), DescNo(mem, rva, k).fthunk, 0, x)))
  }

  ghost predicate DescAccessFrom(w: World, mem: seq<u8>, rva: nat, k0: nat, x: Access)
    requires Fits(w) && |mem| == w.size
  {
    exists k :: k0 <= k && DescAccess(w, mem, rva, k, x)
  }

  lemma DescStep(mem: seq<u8>, rva: nat, k: nat)
    requires DescReached(mem, rva, k) && DescAt(mem, rva, k) && !ReadDesc(mem, rva + 20 * k).Null()
    ensures DescReached(mem, rva, k + 1) && DescLive(mem, rva, k)
  {
  }

  lemma {:induction false} DescAccesses(w: World, mem: seq<u8>, rva: nat, k: nat, end: nat, x: Access)
    requires Fits(w) && |mem| == w.size && DescReached(mem, rva, k)
    requires x in DescWalk(w, mem, rva + 20 * k, end).log
    ensures DescAccessFrom(w, mem, rva, k, x)
    decreases end - (rva + 20 * k)
  {
    hide Fits, ThunkWalk, ThunkAccessFrom, ReadDesc, DescOk, DescReached, DescLive;
    var d := rva + 20 * k;
    var desc, load := DescNo(mem, rva, k), Load(d, d + 20);
    if x == load {
      assert DescAccess(w, mem, rva, k, x);
    } else {
      DescStep(mem, rva, k);
      var t := ThunkWalk(w, mem, desc.Source(), desc.fthunk, 0);
      if x in t.log {
        Nothing(mem, desc.Source());
        ThunkAccesses(w, mem, desc.Source(), desc.fthunk, 0, x);
        assert DescAccess(w, mem, rva, k, x);
      } else {
        DescAccesses(w, mem, rva, k + 1, end, x);
      }
    }
  }

  lemma Nothing(mem: seq<u8>, at: nat)
    ensures ThunkReached(mem, at, 0) && DescReached(mem, at, 0)
  {
  }

  // ---- import binding is exact ----

  /** RVA a belongs to some slot the loader binds. */
  ghost predicate InSlot(mem: seq<u8>, rva: nat, a: nat) {
    exists k, j :: Live(mem, rva, k, j) && Slot(DescNo(mem, rva, k), j) <= a < Slot(DescNo(mem, rva, k), j) + 8
  }

  /** In `final` slot (k, j) holds what its thunk in mem asks for. */
  ghost predicate Holds(w: World, mem: seq<u8>, rva: nat, final: seq<u8>, k: nat, j: nat)
    requires Fits(w) && |mem| == w.size && Live(mem, rva, k, j)
  {
    var slot := Slot(DescNo(mem, rva, k), j);
    slot + 8 <= |final| && EntryValue(w, mem, ThunkNo(mem, rva, k, j)) == Some(Read64(final, slot))
  }

  /** Every live slot of the tables in mem holds its value in `final`, and no other byte differs. */
  ghost predicate ExactlyBound(w: World, mem: seq<u8>, rva: nat, final: seq<u8>)
    requires Fits(w) && |mem| == w.size
  {
    && |final| == |mem|
    && (forall k, j :: Live(mem, rva, k, j) ==> Holds(w, mem, rva, final, k, j))
    && forall a :: 0 <= a < |mem| && !InSlot(mem, rva, a) ==> final[a] == mem[a]
  }

  /** A walk that ends well stores the value of every live thunk into its slot. */
  lemma LiveStored(w: World, mem: seq<u8>, k: nat, j: nat)
    requires Fits(w) && |mem| == w.size && ImportRva(w.file) != 0 && ImportWalk(w, mem).ok
    requires Live(mem, ImportRva(w.file), k, j)
    ensures var rva: nat := ImportRva(w.file);
            && EntryValue(w, mem, ThunkNo(mem, rva, k, j)).Some? && Slot(DescNo(mem, rva, k), j) + 8 <= |mem|
            && Store(Slot(DescNo(mem, rva, k), j), EntryValue(w, mem, ThunkNo(mem, rva, k, j)).value)
               in ImportWalk(w, mem).log
  {
    hide Fits, ImportWalk, ComesTo, TablesOk, Live, Slot, ThunkNo, EntryValue, StoreAt;
    ImportWalkOk(w, mem);
    ComesToLive(w, mem, k, j);
    StoreAtSlot(w, mem, k, j);
    ImportWalkStores(w, mem, StoreAt(w, mem, k, j));
  }

  lemma SlotHolds(w: World, mem: seq<u8>, k: nat, j: nat)
    requires Fits(w) && |mem| == w.size && ImportRva(w.file) != 0 && ImportWalk(w, mem).ok
    requires NoHazard(ImportWalk(w, mem).log) && Live(mem, ImportRva(w.file), k, j)
    ensures Holds(w, mem, ImportRva(w.file), Apply(mem, ImportWalk(w, mem).log), k, j)
  {
    hide Fits, EntryValue, Apply, NoHazard, ImportWalk, Live, Slot, ThunkNo, DescNo, Read64;
    var rva: nat, log := ImportRva(w.file), ImportWalk(w, mem).log;
    LiveStored(w, mem, k, j);
    var v, slot := EntryValue(w, mem, ThunkNo(mem, rva, k, j)).value, Slot(DescNo(mem, rva, k), j);
    var i :| 0 <= i < |log| && log[i] == Store(slot, v);
    StoresSurvive(mem, log, i);
  }

  /** Every store goes to a live slot, whether the walk ends well or not. */
  lemma StoresAreSlots(w: World, mem: seq<u8>, x: Access)
    requires Fits(w) && |mem| == w.size && ImportRva(w.file) != 0 && x in ImportWalk(w, mem).log && x.Store?
    ensures exists k, j :: Live(mem, ImportRva(w.file), k, j) && x.at == Slot(DescNo(mem, ImportRva(w.file), k), j)
  {
    hide Fits, ImportWalk, ComesTo, Live, Slot, DescNo, StoreAt;
    ImportWalkStores(w, mem, x);
    var k, j :| ComesTo(w, mem, k, j) && x == StoreAt(w, mem, k, j);
    StoreAtSlot(w, mem, k, j);
    ComesToIsLive(w, mem, k, j);
  }

  lemma StoreMisses(w: World, mem: seq<u8>, x: Access, a: nat)
    requires Fits(w) && |mem| == w.size && ImportRva(w.file) != 0 && !InSlot(mem, ImportRva(w.file), a)
    requires x in ImportWalk(w, mem).log && x.Store?
    ensures Apart(x, Load(a, a + 1))
  {
    hide Fits, ImportWalk, Live, DescNo, Slot;
    StoresAreSlots(w, mem, x);
  }

  lemma OtherBytesKept(w: World, mem: seq<u8>, a: nat)
    requires Fits(w) && |mem| == w.size && ImportRva(w.file) != 0 && a < |mem| && !InSlot(mem, ImportRva(w.file), a)
    ensures Apply(mem, ImportWalk(w, mem).log)[a] == mem[a]
  {
    hide Fits, ImportWalk, Apply, InSlot, Apart;
    var log := ImportWalk(w, mem).log;
    forall x | x in log && x.Store? ensures Apart(x, Load(a, a + 1)) { StoreMisses(w, mem, x, a); }
    ApplyUntouched(mem, log, a, a + 1);
    assert Apply(mem, log)[a] == Apply(mem, log)[a..a + 1][0] && mem[a] == mem[a..a + 1][0];
  }

  lemma LogBindsExactly(w: World, mem: seq<u8>)
    requires Fits(w) && |mem| == w.size && ImportRva(w.file) != 0 && ImportWalk(w, mem).ok
    requires NoHazard(ImportWalk(w, mem).log)
    ensures ExactlyBound(w, mem, ImportRva(w.file), Apply(mem, ImportWalk(w, mem).log))
  {
    var log, rva: nat := ImportWalk(w, mem).log, ImportRva(w.file);
    hide Fits, ImportWalk, Apply, Live, Holds, InSlot;
    forall k, j | Live(mem, rva, k, j) ensures Holds(w, mem, rva, Apply(mem, log), k, j) { SlotHolds(w, mem, k, j); }
    forall a | 0 <= a < |mem| && !InSlot(mem, rva, a) ensures Apply(mem, log)[a] == mem[a] {
      OtherBytesKept(w, mem, a);
    }
  }

  /** A successful walk over tables without hazards leaves every slot before the zero thunk of every descriptor
      before the all-zero one equal to null for an ordinal and to the named shim otherwise, as the tables stood
      before the walk, and changes no other byte. */
  lemma BindingIsExact(w: World, mem: seq<u8>)
    requires Fits(w) && |mem| == w.size && NoHazard(ImportWalk(w, mem).log)
    requires RunImports(w, mem).outcome.Bound?
    ensures if ImportRva(w.file) == 0 then RunImports(w, mem).mem == mem
            else ExactlyBound(w, mem, ImportRva(w.file), RunImports(w, mem).mem)
  {
    ImportsRefine(w, mem);
    assert [] + ImportWalk(w, mem).log == ImportWalk(w, mem).log;
    if ImportRva(w.file) != 0 { LogBindsExactly(w, mem); }
  }

  // ---- layouts without hazards ----

  /** The loader binds slots (k, j) and (m, i), and they are not the same slot. */
  ghost predicate TwoSlots(mem: seq<u8>, rva: nat, k: nat, j: nat, m: nat, i: nat) {
    Live(mem, rva, k, j) && Live(mem, rva, m, i) && (k != m || j != i)
  }

  predicate ThunkVisited(mem: seq<u8>, rva: nat, m: nat, i: nat) {
    DescLive(mem, rva, m) && ThunkReached(mem, DescNo(mem, rva, m).Source(), i)
  }

  function SlotOf(mem: seq<u8>, rva: nat, k: nat, j: nat): Access { Store(Slot(DescNo(mem, rva, k), j), 0) }

  function DescRange(rva: nat, m: nat): Access { Load(rva + 20 * m, rva + 20 * m + 20) }

  /** Slots do not overlap each other, the descriptors, the names, or a lookup table other than their own IAT. */
  ghost predicate TablesApart(w: World, mem: seq<u8>, rva: nat)
    requires Fits(w) && |mem| == w.size
  {
    && (forall k, j, m, i :: TwoSlots(mem, rva, k, j, m, i) ==> Apart(SlotOf(mem, rva, k, j), SlotOf(mem, rva, m, i)))
    && (forall k, j, m :: Live(mem, rva, k, j) && DescReached(mem, rva, m)
                          ==> Apart(SlotOf(mem, rva, k, j), DescRange(rva, m)))
    && (forall k, j, m, i :: Live(mem, rva, k, j) && ThunkVisited(mem, rva, m, i)
                             && !(k == m && DescNo(mem, rva, k).Source() == DescNo(mem, rva, k).fthunk)
                             ==> Apart(SlotOf(mem, rva, k, j), Lookup(DescNo(mem, rva, m).Source(), i)))
    && (forall k, j, m, i :: Live(mem, rva, k, j) && Live(mem, rva, m, i)
                             ==> Apart(SlotOf(mem, rva, k, j), NameLoad(w, mem, ThunkNo(mem, rva, m, i))))
  }

  lemma ApartFromLookup(w: World, mem: seq<u8>, rva: nat, k: nat, j: nat, m: nat, i: nat)
    requires Fits(w) && |mem| == w.size && TablesApart(w, mem, rva) && Live(mem, rva, k, j)
    requires ThunkVisited(mem, rva, m, i) && (k != m || j < i)
    ensures Apart(SlotOf(mem, rva, k, j), Lookup(DescNo(mem, rva, m).Source(), i))
  {
    hide Fits, Live, DescNo, NameLoad, ThunkVisited, DescRange;
    if k == m && DescNo(mem, rva, k).Source() == DescNo(mem, rva, k).fthunk { OwnLookup(mem, rva, k, j, i); }
  }

  /** Where a descriptor's lookup table is its address table, thunk i and slot i are the same place. */
  lemma OwnLookup(mem: seq<u8>, rva: nat, k: nat, j: nat, i: nat)
    requires DescNo(mem, rva, k).Source() == DescNo(mem, rva, k).fthunk && j < i
    ensures Apart(SlotOf(mem, rva, k, j), Lookup(DescNo(mem, rva, k).Source(), i))
  {
    hide DescNo;
  }

  lemma ApartFromSlot(w: World, mem: seq<u8>, rva: nat, k: nat, j: nat, m: nat, i: nat)
    requires Fits(w) && |mem| == w.size && TablesApart(w, mem, rva) && TwoSlots(mem, rva, k, j, m, i)
    ensures Apart(SlotOf(mem, rva, k, j), SlotOf(mem, rva, m, i))
  {
    hide Fits, Live, DescNo, NameLoad, SlotOf, TwoSlots, ThunkVisited, DescRange, Apart;
  }

  lemma ApartFromName(w: World, mem: seq<u8>, rva: nat, k: nat, j: nat, m: nat, i: nat)
    requires Fits(w) && |mem| == w.size && TablesApart(w, mem, rva) && Live(mem, rva, k, j) && Live(mem, rva, m, i)
    ensures Apart(SlotOf(mem, rva, k, j), NameLoad(w, mem, ThunkNo(mem, rva, m, i)))
  {
    hide Fits, Live, DescNo, NameLoad, SlotOf, TwoSlots, ThunkVisited, DescRange, Apart, ThunkNo;
  }

  /** An access made for thunk i of descriptor m is its lookup, or the thunk is live and it is its name or slot. */
  lemma AccessIs(w: World, mem: seq<u8>, rva: nat, m: nat, i: nat, x: Access)
    requires Fits(w) && |mem| == w.size && DescLive(mem, rva, m)
    requires ThunkAccess(w, mem, DescNo(mem, rva, m).Source(), DescNo(mem, rva, m).fthunk, i, x)
    ensures ThunkVisited(mem, rva, m, i)
    ensures x == Lookup(DescNo(mem, rva, m).Source(), i)
            || (Live(mem, rva, m, i)
                && (x == NameLoad(w, mem, ThunkNo(mem, rva, m, i)) || (x.Store? && x.at == SlotOf(mem, rva, m, i).at)))
  {
    hide Fits, EntryValue, DescNo, DescReached, DescLive, Read64, NameLoad;
  }

  /** Only a store's place matters. */
  lemma ApartByPlace(x: Access, y: Access, v: u64, z: Access)
    requires x.Store? && Apart(x, y) && (z == y || (y.Store? && z.Store? && z.at == y.at))
    ensures Apart(Store(x.at, v), z)
  {
  }

  /** A slot is apart from every access made for a thunk that comes later. */
  lemma ApartFromThunk(w: World, mem: seq<u8>, rva: nat, k: nat, j: nat, m: nat, i: nat, x: Access, v: u64)
    requires Fits(w) && |mem| == w.size && TablesApart(w, mem, rva) && Live(mem, rva, k, j) && DescLive(mem, rva, m)
    requires k != m || j < i
    requires ThunkAccess(w, mem, DescNo(mem, rva, m).Source(), DescNo(mem, rva, m).fthunk, i, x)
    ensures Apart(Store(Slot(DescNo(mem, rva, k), j), v), x)
  {
    hide Fits, DescNo, DescLive, TablesApart, ThunkAccess, Live, NameLoad, ThunkVisited, Apart, ThunkNo, Lookup, Slot;
    var s := SlotOf(mem, rva, k, j);
    AccessIs(w, mem, rva, m, i, x);
    if x == Lookup(DescNo(mem, rva, m).Source(), i) {
      ApartFromLookup(w, mem, rva, k, j, m, i);
      ApartByPlace(s, x, v, x);
    } else if x.Store? {
      ApartFromSlot(w, mem, rva, k, j, m, i);
      ApartByPlace(s, SlotOf(mem, rva, m, i), v, x);
    } else {
      ApartFromName(w, mem, rva, k, j, m, i);
      ApartByPlace(s, x, v, x);
    }
  }

  /** A slot is apart from every access made for a later descriptor. */
  lemma ApartFromLaterDesc(w: World, mem: seq<u8>, rva: nat, k: nat, j: nat, m: nat, x: Access, v: u64)
    requires Fits(w) && |mem| == w.size && TablesApart(w, mem, rva) && Live(mem, rva, k, j) && k < m
    requires DescAccess(w, mem, rva, m, x)
    ensures Apart(Store(Slot(DescNo(mem, rva, k), j), v), x)
  {
    if x == DescRange(rva, m) {
      assert Apart(SlotOf(mem, rva, k, j), DescRange(rva, m));
    } else {
      hide Fits, DescNo, DescReached, DescLive, ThunkAccess, TablesApart, Live, Slot;
      var desc := DescNo(mem, rva, m);
      var i: nat :| ThunkAccess(w, mem, desc.Source(), desc.fthunk, i, x);
      ApartFromThunk(w, mem, rva, k, j, m, i, x, v);
    }
  }

  lemma NoStoresNoHazard(log: seq<Access>)
    requires forall x :: x in log ==> x.Load?
    ensures NoHazard(log)
  {
  }

  /** Within one turn the only store comes last. */
  lemma TurnHazardFree(w: World, mem: seq<u8>, rt: nat, fth: nat, j: nat)
    requires Fits(w) && |mem| == w.size && ThunkUsable(w, rt, fth, j)
    ensures NoHazard(ThunkTurn(w, mem, rt, fth, j).log)
  {
    hide Fits, EntryValue, NameLoad, Read64, Lookup, Apart;
  }

  lemma {:induction false} ThunksHazardFree(w: World, mem: seq<u8>, rva: nat, k: nat, j: nat)
    requires Fits(w) && |mem| == w.size && TablesApart(w, mem, rva) && DescLive(mem, rva, k)
    requires ThunkReached(mem, DescNo(mem, rva, k).Source(), j)
    ensures NoHazard(ThunkWalk(w, mem, DescNo(mem, rva, k).Source(), DescNo(mem, rva, k).fthunk, j).log)
    decreases w.size - 8 * j
  {
    hide Fits, TablesApart, DescNo, DescLive, ThunkReached, ThunkTurn, Apart, ThunkUsable, Live;
    var rt: nat, fth: nat := DescNo(mem, rva, k).Source(), DescNo(mem, rva, k).fthunk;
    if !ThunkUsable(w, rt, fth, j) {
      NoStoresNoHazard([]);
    } else {
      var t := ThunkTurn(w, mem, rt, fth, j);
      TurnHazardFree(w, mem, rt, fth, j);
      if t.stop.None? {
        TurnAccesses(w, mem, rt, fth, j);
        var rest := ThunkWalk(w, mem, rt, fth, j + 1);
        ThunksHazardFree(w, mem, rva, k, j + 1);
        forall x, y | x in t.log && y in rest.log && x.Store? ensures Apart(x, y) {
          TurnStoreApart(w, mem, rva, k, j, x, y);
        }
        HazardAppend(t.log, rest.log);
      }
    }
  }

  lemma TurnStoreApart(w: World, mem: seq<u8>, rva: nat, k: nat, j: nat, x: Access, y: Access)
    requires Fits(w) && |mem| == w.size && TablesApart(w, mem, rva) && DescLive(mem, rva, k)
    requires var rt, fth := DescNo(mem, rva, k).Source(), DescNo(mem, rva, k).fthunk;
             ThunkUsable(w, rt, fth, j) && ThunkReached(mem, rt, j) && ThunkReached(mem, rt, j + 1)
             && x in ThunkTurn(w, mem, rt, fth, j).log && y in ThunkWalk(w, mem, rt, fth, j + 1).log
    requires x.Store?
    ensures Apart(x, y)
  {
    hide Fits, TablesApart, DescNo, DescLive, ThunkReached, ThunkTurn, Apart, ThunkUsable, ThunkAccess, ThunkWalk;
    var rt: nat, fth: nat := DescNo(mem, rva, k).Source(), DescNo(mem, rva, k).fthunk;
    TurnAccesses(w, mem, rt, fth, j);
    ThunkStoreLive(w, mem, rt, fth, j, x);
    ThunkAccesses(w, mem, rt, fth, j + 1, y);
    var i: nat :| j + 1 <= i && ThunkAccess(w, mem, rt, fth, i, y);
    ApartFromThunk(w, mem, rva, k, j, k, i, y, x.val);
  }

  /** A store made for descriptor k goes to one of its live slots. */
  lemma StoreHasSlot(w: World, mem: seq<u8>, rva: nat, k: nat, x: Access) returns (j: nat)
    requires Fits(w) && |mem| == w.size && DescReached(mem, rva, k + 1)
    requires x in ThunkWalk(w, mem, DescNo(mem, rva, k).Source(), DescNo(mem, rva, k).fthunk, 0).log && x.Store?
    ensures Live(mem, rva, k, j) && x == Store(Slot(DescNo(mem, rva, k), j), x.val)
  {
    hide Fits, DescNo, DescReached, ThunkWalk, ThunkAccess, ThunkLive;
    var rt: nat, fth: nat := DescNo(mem, rva, k).Source(), DescNo(mem, rva, k).fthunk;
    Nothing(mem, rt);
    ThunkAccesses(w, mem, rt, fth, 0, x);
    j :| ThunkAccess(w, mem, rt, fth, j, x);
    ThunkStoreLive(w, mem, rt, fth, j, x);
  }

  /** A store made for descriptor k is apart from everything done for the descriptors after it. */
  lemma DescStoreApart(w: World, mem: seq<u8>, rva: nat, k: nat, end: nat, x: Access, y: Access)
    requires Fits(w) && |mem| == w.size && TablesApart(w, mem, rva) && DescReached(mem, rva, k + 1)
    requires x in ThunkWalk(w, mem, DescNo(mem, rva, k).Source(), DescNo(mem, rva, k).fthunk, 0).log && x.Store?
    requires y in DescWalk(w, mem, rva + 20 * (k + 1), end).log
    ensures Apart(x, y)
  {
    hide Fits, TablesApart, DescNo, DescReached, DescAccess, Apart, ThunkWalk, DescWalk, Live, Slot;
    var j := StoreHasSlot(w, mem, rva, k, x);
    DescAccesses(w, mem, rva, k + 1, end, y);
    var m: nat :| k + 1 <= m && DescAccess(w, mem, rva, m, y);
    ApartFromLaterDesc(w, mem, rva, k, j, m, y, x.val);
  }

  lemma ThunkStoreLive(w: World, mem: seq<u8>, rt: nat, fth: nat, j: nat, x: Access)
    requires Fits(w) && |mem| == w.size && ThunkAccess(w, mem, rt, fth, j, x) && x.Store?
    ensures ThunkLive(mem, rt, j) && x.at == fth + 8 * j
  {
    hide Fits, EntryValue, Read64;
  }

  lemma {:induction false} DescsHazardFree(w: World, mem: seq<u8>, rva: nat, k: nat, end: nat)
    requires Fits(w) && |mem| == w.size && TablesApart(w, mem, rva) && DescReached(mem, rva, k)
    ensures NoHazard(DescWalk(w, mem, rva + 20 * k, end).log)
    decreases end - (rva + 20 * k)
  {
    hide Fits, TablesApart, ReadDesc, DescReached, ThunkWalk, Apart, NoHazard, DescOk;
    var d := rva + 20 * k;
    var load := [Load(d, d + 20)];
    NoStoresNoHazard([]);
    NoStoresNoHazard(load);
    if DescUsable(w, d, end) && !ReadDesc(mem, d).Null() && DescOk(w, ReadDesc(mem, d)) {
      var desc := DescNo(mem, rva, k);
      DescStep(mem, rva, k);
      Nothing(mem, desc.Source());
      var t, rest := ThunkWalk(w, mem, desc.Source(), desc.fthunk, 0), DescWalk(w, mem, d + 20, end);
      ThunksHazardFree(w, mem, rva, k, 0);
      if t.ok {
        DescsHazardFree(w, mem, rva, k + 1, end);
        forall x, y | x in t.log && y in rest.log && x.Store? ensures Apart(x, y) {
          DescStoreApart(w, mem, rva, k, end, x, y);
        }
        HazardAppend(t.log, rest.log);
        HazardAppend(load, t.log + rest.log);
      } else {
        HazardAppend(load, t.log);
      }
    }
  }

  /** Tables laid out apart make binding free of hazards, so that BindingIsExact applies. */
  lemma ApartTablesHaveNoHazard(w: World, mem: seq<u8>)
    requires Fits(w) && |mem| == w.size
    requires ImportRva(w.file) != 0 ==> TablesApart(w, mem, ImportRva(w.file))
    ensures NoHazard(ImportWalk(w, mem).log)
  {
    if ImportRva(w.file) != 0 {
      Nothing(mem, ImportRva(w.file));
      DescsHazardFree(w, mem, ImportRva(w.file), 0, ImportEnd(w.file));
    }
  }
}
