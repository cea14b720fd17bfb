/** Which import tables the loader accepts, and which slots it comes to, told from the tables alone. */
module ImportTables {
  import opened Bytes
  import opened AccessLog
  import opened ImportSpec

  // ---- the tables as they stand in memory ----

  /** Thunk j of the table at rt lies in memory. */
  predicate ThunkAt(mem: seq<u8>, rt: nat, j: nat) {
    rt + 8 * j + 8 <= |mem|
  }

  /** Every thunk before j is non-zero, so the walk gets to thunk j. */
  predicate ThunkReached(mem: seq<u8>, rt: nat, j: nat) {
    forall i :: 0 <= i < j ==> ThunkAt(mem, rt, i) && Read64(mem, rt + 8 * i) != 0
  }

  /** Thunk j comes before the zero thunk. */
  predicate ThunkLive(mem: seq<u8>, rt: nat, j: nat) {
    ThunkReached(mem, rt, j + 1)
  }

  predicate DescAt(mem: seq<u8>, rva: nat, k: nat) {
    rva + 20 * k + 20 <= |mem|
  }

  predicate DescReached(mem: seq<u8>, rva: nat, k: nat) {
    forall i :: 0 <= i < k ==> DescAt(mem, rva, i) && !ReadDesc(mem, rva + 20 * i).Null()
  }

  /** Descriptor k comes before the all-zero one. */
  predicate DescLive(mem: seq<u8>, rva: nat, k: nat) {
    DescReached(mem, rva, k + 1)
  }

  /** Descriptor k, or the all-zero descriptor when it is not in memory. */
  function DescNo(mem: seq<u8>, rva: nat, k: nat): Desc {
    if DescAt(mem, rva, k) then ReadDesc(mem, rva + 20 * k) else Desc(0, 0, 0, 0, 0)
  }

  function Slot(d: Desc, j: nat): nat { d.fthunk as int + 8 * j }

  /** Thunk j of descriptor k is one the loader binds. */
  predicate Live(mem: seq<u8>, rva: nat, k: nat, j: nat) {
    DescLive(mem, rva, k) && ThunkLive(mem, DescNo(mem, rva, k).Source(), j)
  }

  function ThunkNo(mem: seq<u8>, rva: nat, k: nat, j: nat): u64
    requires Live(mem, rva, k, j)
  {
    assert ThunkAt(mem, DescNo(mem, rva, k).Source(), j);
    Read64(mem, DescNo(mem, rva, k).Source() as int + 8 * j)
  }

  // ---- one descriptor's thunks ----

  /** Thunk i and its slot lie in usable memory, and it asks for an ordinal or for a readable name. */
  ghost predicate ThunkBinds(w: World, mem: seq<u8>, rt: nat, fth: nat, i: nat)
    requires Fits(w) && |mem| == w.size
  {
    ThunkUsable(w, rt, fth, i) && Read64(mem, rt + 8 * i) != 0 && EntryValue(w, mem, Read64(mem, rt + 8 * i)).Some?
  }

  ghost predicate ThunksBind(w: World, mem: seq<u8>, rt: nat, fth: nat, j: nat, n: nat)
    requires Fits(w) && |mem| == w.size
  {
    j <= n && forall i: nat :: j <= i < n ==> ThunkBinds(w, mem, rt, fth, i)
  }

  ghost predicate ThunkEnds(w: World, mem: seq<u8>, rt: nat, fth: nat, n: nat)
    requires Fits(w) && |mem| == w.size
  {
    ThunkUsable(w, rt, fth, n) && Read64(mem, rt + 8 * n) == 0
  }

  /** The table from thunk j on is well formed: thunks that can be bound, up to a zero thunk. */
  ghost predicate ThunksOk(w: World, mem: seq<u8>, rt: nat, fth: nat, j: nat)
    requires Fits(w) && |mem| == w.size
  {
    exists n: nat :: ThunksBind(w, mem, rt, fth, j, n) && ThunkEnds(w, mem, rt, fth, n)
  }

  lemma TurnSays(w: World, mem: seq<u8>, rt: nat, fth: nat, j: nat)
    requires Fits(w) && |mem| == w.size && ThunkUsable(w, rt, fth, j)
    ensures var t := ThunkTurn(w, mem, rt, fth, j);
            && (t.stop.None? <==> ThunkBinds(w, mem, rt, fth, j))
            && (t.stop == Some(true) <==> ThunkEnds(w, mem, rt, fth, j))
  {
    hide Fits, EntryValue, Read64, NameLoad, ThunkUsable;
  }

  lemma ThunksBindStep(w: World, mem: seq<u8>, rt: nat, fth: nat, j: nat, n: nat)
    requires Fits(w) && |mem| == w.size
    ensures ThunksBind(w, mem, rt, fth, j, n)
            <==> j == n || (ThunkBinds(w, mem, rt, fth, j) && ThunksBind(w, mem, rt, fth, j + 1, n))
  {
    hide Fits, ThunkBinds;
  }

  lemma ThunksOkStep(w: World, mem: seq<u8>, rt: nat, fth: nat, j: nat)
    requires Fits(w) && |mem| == w.size
    ensures ThunksOk(w, mem, rt, fth, j)
            <==> ThunkEnds(w, mem, rt, fth, j)
                 || (ThunkBinds(w, mem, rt, fth, j) && ThunksOk(w, mem, rt, fth, j + 1))
  {
    hide Fits, ThunkBinds, ThunkEnds, ThunksBind;
    forall n: nat { ThunksBindStep(w, mem, rt, fth, j, n); }
  }

  lemma UnusableThunk(w: World, mem: seq<u8>, rt: nat, fth: nat, j: nat)
    requires Fits(w) && |mem| == w.size && !ThunkUsable(w, rt, fth, j)
    ensures !ThunkBinds(w, mem, rt, fth, j) && !ThunkEnds(w, mem, rt, fth, j)
  {
  }

  /** The thunk loop ends well exactly on well-formed tables. */
  lemma {:induction false} ThunkWalkOk(w: World, mem: seq<u8>, rt: nat, fth: nat, j: nat)
    requires Fits(w) && |mem| == w.size
    ensures ThunkWalk(w, mem, rt, fth, j).ok <==> ThunksOk(w, mem, rt, fth, j)
    decreases w.size - 8 * j
  {
    hide Fits, ThunkUsable, ThunkTurn, ThunksOk, ThunkBinds, ThunkEnds;
    ThunksOkStep(w, mem, rt, fth, j);
    if ThunkUsable(w, rt, fth, j) {
      TurnSays(w, mem, rt, fth, j);
      if ThunkTurn(w, mem, rt, fth, j).stop.None? { ThunkWalkOk(w, mem, rt, fth, j + 1); }
    } else {
      UnusableThunk(w, mem, rt, fth, j);
    }
  }

  /** What slot i receives. */
  ghost function SlotStore(w: World, mem: seq<u8>, rt: nat, fth: nat, i: nat): Access
    requires Fits(w) && |mem| == w.size && ThunkBinds(w, mem, rt, fth, i)
  {
    Store(fth + 8 * i, EntryValue(w, mem, Read64(mem, rt + 8 * i)).value)
  }

  /** x is the store for thunk i, which can be bound. */
  ghost predicate StoreOf(w: World, mem: seq<u8>, rt: nat, fth: nat, i: nat, x: Access)
    requires Fits(w) && |mem| == w.size
  {
    ThunkBinds(w, mem, rt, fth, i) && x == SlotStore(w, mem, rt, fth, i)
  }

  /** x is the store for one of the thunks that the loop, started at thunk j, comes to. */
  ghost predicate ThunkStores(w: World, mem: seq<u8>, rt: nat, fth: nat, j: nat, x: Access)
    requires Fits(w) && |mem| == w.size
  {
    exists i: nat :: ThunksBind(w, mem, rt, fth, j, i) && StoreOf(w, mem, rt, fth, i, x)
  }

  lemma TurnStore(w: World, mem: seq<u8>, rt: nat, fth: nat, j: nat, x: Access)
    requires Fits(w) && |mem| == w.size && ThunkUsable(w, rt, fth, j) && x.Store?
    ensures x in ThunkTurn(w, mem, rt, fth, j).log <==> StoreOf(w, mem, rt, fth, j, x)
  {
    hide Fits, EntryValue, Read64, NameLoad, ThunkUsable;
    var t := ThunkTurn(w, mem, rt, fth, j);
    if t.stop.None? { assert t.log[2] == SlotStore(w, mem, rt, fth, j); }
  }

  lemma ThunkStoresStep(w: World, mem: seq<u8>, rt: nat, fth: nat, j: nat, x: Access)
    requires Fits(w) && |mem| == w.size
    ensures ThunkStores(w, mem, rt, fth, j, x)
            <==> StoreOf(w, mem, rt, fth, j, x)
                 || (ThunkBinds(w, mem, rt, fth, j) && ThunkStores(w, mem, rt, fth, j + 1, x))
  {
    hide Fits, ThunkBinds, StoreOf, ThunksBind;
    forall n: nat { ThunksBindStep(w, mem, rt, fth, j, n); }
  }

  /** The stores of the thunk loop are exactly those for the thunks it comes to. */
  lemma {:induction false} ThunkWalkStores(w: World, mem: seq<u8>, rt: nat, fth: nat, j: nat, x: Access)
    requires Fits(w) && |mem| == w.size && x.Store?
    ensures x in ThunkWalk(w, mem, rt, fth, j).log <==> ThunkStores(w, mem, rt, fth, j, x)
    decreases w.size - 8 * j
  {
    hide Fits, ThunkUsable, ThunkTurn, ThunkStores, ThunkBinds, SlotStore, ThunkEnds;
    ThunkStoresStep(w, mem, rt, fth, j, x);
    if ThunkUsable(w, rt, fth, j) {
      TurnSays(w, mem, rt, fth, j);
      TurnStore(w, mem, rt, fth, j, x);
      if ThunkTurn(w, mem, rt, fth, j).stop.None? { ThunkWalkStores(w, mem, rt, fth, j + 1, x); }
    } else {
      UnusableThunk(w, mem, rt, fth, j);
    }
  }

  // ---- the descriptor table ----

  /** Descriptor k lies in the directory, is not the terminator, and passes its checks. */
  ghost predicate DescPasses(w: World, mem: seq<u8>, rva: nat, end: nat, k: nat)
    requires Fits(w) && |mem| == w.size
  {
    DescUsable(w, rva + 20 * k, end)
    && var desc := ReadDesc(mem, rva + 20 * k); !desc.Null() && DescOk(w, desc)
  }

  /** And its thunks are well formed. */
  ghost predicate DescBinds(w: World, mem: seq<u8>, rva: nat, end: nat, k: nat)
    requires Fits(w) && |mem| == w.size
  {
    DescPasses(w, mem, rva, end, k)
    && var desc := ReadDesc(mem, rva + 20 * k); ThunksOk(w, mem, desc.Source(), desc.fthunk, 0)
  }

  ghost predicate DescsBind(w: World, mem: seq<u8>, rva: nat, end: nat, m: nat, n: nat)
    requires Fits(w) && |mem| == w.size
  {
    m <= n && forall k: nat :: m <= k < n ==> DescBinds(w, mem, rva, end, k)
  }

  ghost predicate DescEnds(w: World, mem: seq<u8>, rva: nat, end: nat, n: nat)
    requires Fits(w) && |mem| == w.size
  {
    DescUsable(w, rva + 20 * n, end) && ReadDesc(mem, rva + 20 * n).Null()
  }

  /** The table from descriptor m on is well formed: descriptors that can be bound, up to the all-zero one. */
  ghost predicate DescsOk(w: World, mem: seq<u8>, rva: nat, end: nat, m: nat)
    requires Fits(w) && |mem| == w.size
  {
    exists n: nat :: DescsBind(w, mem, rva, end, m, n) && DescEnds(w, mem, rva, end, n)
  }

  lemma DescsBindStep(w: World, mem: seq<u8>, rva: nat, end: nat, m: nat, n: nat)
    requires Fits(w) && |mem| == w.size
    ensures DescsBind(w, mem, rva, end, m, n)
            <==> m == n || (DescBinds(w, mem, rva, end, m) && DescsBind(w, mem, rva, end, m + 1, n))
  {
    hide Fits, DescBinds;
  }

  lemma DescsOkStep(w: World, mem: seq<u8>, rva: nat, end: nat, m: nat)
    requires Fits(w) && |mem| == w.size
    ensures DescsOk(w, mem, rva, end, m)
            <==> DescEnds(w, mem, rva, end, m)
                 || (DescBinds(w, mem, rva, end, m) && DescsOk(w, mem, rva, end, m + 1))
  {
    hide Fits, DescBinds, DescEnds, DescsBind;
    forall n: nat { DescsBindStep(w, mem, rva, end, m, n); }
  }

  lemma DescSays(w: World, mem: seq<u8>, rva: nat, end: nat, k: nat)
    requires Fits(w) && |mem| == w.size
    ensures var d := rva + 20 * k; var walk := DescWalk(w, mem, d, end);
            && (DescEnds(w, mem, rva, end, k) ==> walk.ok)
            && (!DescEnds(w, mem, rva, end, k) && !DescBinds(w, mem, rva, end, k) ==> !walk.ok)
            && (DescBinds(w, mem, rva, end, k) ==> walk.ok == DescWalk(w, mem, d + 20, end).ok)
  {
    hide Fits, DescUsable, DescOk, ReadDesc, ThunkWalk, ThunksOk;
    if DescUsable(w, rva + 20 * k, end) {
      var desc := ReadDesc(mem, rva + 20 * k);
      ThunkWalkOk(w, mem, desc.Source(), desc.fthunk, 0);
    }
  }

  /** The descriptor loop ends well exactly on well-formed tables. */
  lemma {:induction false} DescWalkOk(w: World, mem: seq<u8>, rva: nat, end: nat, m: nat)
    requires Fits(w) && |mem| == w.size
    ensures DescWalk(w, mem, rva + 20 * m, end).ok <==> DescsOk(w, mem, rva, end, m)
    decreases end - (rva + 20 * m)
  {
    hide Fits, DescWalk, DescsOk, DescEnds, DescOk, ReadDesc, ThunksOk;
    DescsOkStep(w, mem, rva, end, m);
    DescSays(w, mem, rva, end, m);
    if DescBinds(w, mem, rva, end, m) { DescWalkOk(w, mem, rva, end, m + 1); }
  }

  /** x is one of the stores for descriptor k, which passes its checks. */
  ghost predicate DescStoreOf(w: World, mem: seq<u8>, rva: nat, end: nat, k: nat, x: Access)
    requires Fits(w) && |mem| == w.size
  {
    DescPasses(w, mem, rva, end, k)
    && var desc := ReadDesc(mem, rva + 20 * k); ThunkStores(w, mem, desc.Source(), desc.fthunk, 0, x)
  }

  ghost predicate DescStores(w: World, mem: seq<u8>, rva: nat, end: nat, m: nat, x: Access)
    requires Fits(w) && |mem| == w.size
  {
    exists k: nat :: DescsBind(w, mem, rva, end, m, k) && DescStoreOf(w, mem, rva, end, k, x)
  }

  lemma DescStoresStep(w: World, mem: seq<u8>, rva: nat, end: nat, m: nat, x: Access)
    requires Fits(w) && |mem| == w.size
    ensures DescStores(w, mem, rva, end, m, x)
            <==> DescStoreOf(w, mem, rva, end, m, x)
                 || (DescBinds(w, mem, rva, end, m) && DescStores(w, mem, rva, end, m + 1, x))
  {
    hide Fits, DescBinds, DescStoreOf, DescsBind;
    forall n: nat { DescsBindStep(w, mem, rva, end, m, n); }
  }

  lemma DescStoreSays(w: World, mem: seq<u8>, rva: nat, end: nat, k: nat, x: Access)
    requires Fits(w) && |mem| == w.size && x.Store?
    ensures var d := rva + 20 * k;
            x in DescWalk(w, mem, d, end).log
            <==> DescStoreOf(w, mem, rva, end, k, x)
                 || (DescBinds(w, mem, rva, end, k) && x in DescWalk(w, mem, d + 20, end).log)
  {
    hide Fits, DescUsable, DescOk, ReadDesc, ThunkWalk, ThunksOk, ThunkStores;
    if DescUsable(w, rva + 20 * k, end) {
      var desc := ReadDesc(mem, rva + 20 * k);
      ThunkWalkOk(w, mem, desc.Source(), desc.fthunk, 0);
      ThunkWalkStores(w, mem, desc.Source(), desc.fthunk, 0, x);
    }
  }

  /** The stores of the descriptor loop are exactly those for the thunks it comes to. */
  lemma {:induction false} DescWalkStores(w: World, mem: seq<u8>, rva: nat, end: nat, m: nat, x: Access)
    requires Fits(w) && |mem| == w.size && x.Store?
    ensures x in DescWalk(w, mem, rva + 20 * m, end).log <==> DescStores(w, mem, rva, end, m, x)
    decreases end - (rva + 20 * m)
  {
    hide Fits, DescWalk, DescStores, DescStoreOf, DescOk, ReadDesc, ThunksOk;
    DescStoresStep(w, mem, rva, end, m, x);
    DescStoreSays(w, mem, rva, end, m, x);
    if DescBinds(w, mem, rva, end, m) { DescWalkStores(w, mem, rva, end, m + 1, x); }
  }

  // ---- the import directory ----

  /** There are no imports, or the directory passes its check and every table in it is well formed. */
  ghost predicate TablesOk(w: World, mem: seq<u8>)
    requires Fits(w) && |mem| == w.size
  {
    ImportRva(w.file) == 0 || (DirectoryOk(w) && DescsOk(w, mem, ImportRva(w.file), ImportEnd(w.file), 0))
  }

  /** The loader comes to slot (k, j): the descriptors before k can be bound, descriptor k passes its checks, and its
      thunks up to j can be bound. */
  ghost predicate ComesTo(w: World, mem: seq<u8>, k: nat, j: nat)
    requires Fits(w) && |mem| == w.size
  {
    var rva: nat, end := ImportRva(w.file), ImportEnd(w.file);
    && rva != 0 && DirectoryOk(w) && DescsBind(w, mem, rva, end, 0, k) && DescPasses(w, mem, rva, end, k)
    && var desc := ReadDesc(mem, rva + 20 * k);
       ThunksBind(w, mem, desc.Source(), desc.fthunk, 0, j) && ThunkBinds(w, mem, desc.Source(), desc.fthunk, j)
  }

  /** What it stores there. */
  ghost function StoreAt(w: World, mem: seq<u8>, k: nat, j: nat): Access
    requires Fits(w) && |mem| == w.size && ComesTo(w, mem, k, j)
  {
    var desc := ReadDesc(mem, ImportRva(w.file) as int + 20 * k);
    SlotStore(w, mem, desc.Source(), desc.fthunk, j)
  }

  /** The walk over the tables ends well exactly when they are well formed. */
  lemma ImportWalkOk(w: World, mem: seq<u8>)
    requires Fits(w) && |mem| == w.size
    ensures ImportWalk(w, mem).ok <==> TablesOk(w, mem)
  {
    hide Fits, DirectoryOk, DescWalk, DescsOk;
    if ImportRva(w.file) != 0 { DescWalkOk(w, mem, ImportRva(w.file), ImportEnd(w.file), 0); }
  }

  lemma PassesAt(w: World, mem: seq<u8>, rva: nat, end: nat, k: nat)
    requires Fits(w) && |mem| == w.size && DescPasses(w, mem, rva, end, k)
    ensures DescAt(mem, rva, k)
  {
  }

  /** The walk stores exactly into the slots it comes to, into each what its thunk asks for. */
  lemma ImportWalkStores(w: World, mem: seq<u8>, x: Access)
    requires Fits(w) && |mem| == w.size && x.Store?
    ensures x in ImportWalk(w, mem).log <==> exists k, j :: ComesTo(w, mem, k, j) && x == StoreAt(w, mem, k, j)
  {
    hide Fits, DirectoryOk, DescWalk, DescPasses, DescsBind, ThunksBind, ReadDesc, ThunkBinds, SlotStore;
    var rva: nat, end := ImportRva(w.file), ImportEnd(w.file);
    if rva != 0 && DirectoryOk(w) {
      DescWalkStores(w, mem, rva, end, 0, x);
      if x in ImportWalk(w, mem).log {
        var k: nat :| DescsBind(w, mem, rva, end, 0, k) && DescStoreOf(w, mem, rva, end, k, x);
        assert DescAt(mem, rva, k) by { PassesAt(w, mem, rva, end, k); }
        var desc := ReadDesc(mem, rva + 20 * k);
        var j: nat :| ThunksBind(w, mem, desc.Source(), desc.fthunk, 0, j)
                      && StoreOf(w, mem, desc.Source(), desc.fthunk, j, x);
        assert ComesTo(w, mem, k, j);
      }
      if k, j :| ComesTo(w, mem, k, j) && x == StoreAt(w, mem, k, j) {
        assert DescStoreOf(w, mem, rva, end, k, x);
      }
    }
  }

  // ---- on well-formed tables the loader comes to every slot ----

  lemma ThunkBindsLive(w: World, mem: seq<u8>, rt: nat, fth: nat, j: nat)
    requires Fits(w) && |mem| == w.size && ThunksBind(w, mem, rt, fth, 0, j) && ThunkBinds(w, mem, rt, fth, j)
    ensures ThunkLive(mem, rt, j)
  {
    hide Fits, Read64, ThunkUsable, EntryValue;
    forall i: nat | i <= j ensures ThunkAt(mem, rt, i) && Read64(mem, rt + 8 * i) != 0 {
      assert ThunkBinds(w, mem, rt, fth, i);
    }
  }

  lemma ThunkLiveBinds(w: World, mem: seq<u8>, rt: nat, fth: nat, j: nat)
    requires Fits(w) && |mem| == w.size && ThunksOk(w, mem, rt, fth, 0) && ThunkLive(mem, rt, j)
    ensures ThunksBind(w, mem, rt, fth, 0, j) && ThunkBinds(w, mem, rt, fth, j)
  {
    hide Fits, Read64, ThunkUsable, ThunkBinds;
    var n: nat :| ThunksBind(w, mem, rt, fth, 0, n) && ThunkEnds(w, mem, rt, fth, n);
    assert j < n;
  }

  lemma DescBindsLive(w: World, mem: seq<u8>, rva: nat, end: nat, k: nat)
    requires Fits(w) && |mem| == w.size && DescsBind(w, mem, rva, end, 0, k) && DescPasses(w, mem, rva, end, k)
    ensures DescLive(mem, rva, k)
  {
    hide Fits, ReadDesc, DescUsable, DescOk, ThunksOk;
    forall i: nat | i <= k ensures DescAt(mem, rva, i) && !ReadDesc(mem, rva + 20 * i).Null() {
      assert DescPasses(w, mem, rva, end, i) by { if i < k { assert DescBinds(w, mem, rva, end, i); } }
    }
  }

  lemma DescLiveBinds(w: World, mem: seq<u8>, rva: nat, end: nat, k: nat)
    requires Fits(w) && |mem| == w.size && DescsOk(w, mem, rva, end, 0) && DescLive(mem, rva, k)
    ensures DescsBind(w, mem, rva, end, 0, k) && DescBinds(w, mem, rva, end, k)
  {
    hide Fits, ReadDesc, DescUsable, DescBinds;
    var n: nat :| DescsBind(w, mem, rva, end, 0, n) && DescEnds(w, mem, rva, end, n);
    assert k < n;
  }

  lemma ComesToIsLive(w: World, mem: seq<u8>, k: nat, j: nat)
    requires Fits(w) && |mem| == w.size && ComesTo(w, mem, k, j)
    ensures Live(mem, ImportRva(w.file), k, j)
  {
    hide Fits, DirectoryOk, DescPasses, DescsBind, ThunksBind, ReadDesc, ThunkBinds, ThunkLive, DescLive;
    var rva: nat, end := ImportRva(w.file), ImportEnd(w.file);
    DescBindsLive(w, mem, rva, end, k);
    PassesAt(w, mem, rva, end, k);
    var desc := DescNo(mem, rva, k);
    ThunkBindsLive(w, mem, desc.Source(), desc.fthunk, j);
  }

  /** When the tables are well formed, the loader comes to every slot before the zero thunk of every descriptor before
      the zero one, and to no other. */
  lemma ComesToLive(w: World, mem: seq<u8>, k: nat, j: nat)
    requires Fits(w) && |mem| == w.size && ImportRva(w.file) != 0 && TablesOk(w, mem)
    ensures ComesTo(w, mem, k, j) <==> Live(mem, ImportRva(w.file), k, j)
  {
    hide Fits, DirectoryOk, DescPasses, DescsBind, ThunksBind, ReadDesc, ThunkBinds, DescsOk, ThunksOk, DescLive;
    var rva: nat, end := ImportRva(w.file), ImportEnd(w.file);
    if ComesTo(w, mem, k, j) { ComesToIsLive(w, mem, k, j); }
    if Live(mem, rva, k, j) {
      DescLiveBinds(w, mem, rva, end, k);
      PassesAt(w, mem, rva, end, k);
      var desc := DescNo(mem, rva, k);
      ThunkLiveBinds(w, mem, desc.Source(), desc.fthunk, j);
    }
  }

  /** What the loader stores there, and where, told as by Live. */
  lemma StoreAtSlot(w: World, mem: seq<u8>, k: nat, j: nat)
    requires Fits(w) && |mem| == w.size && ComesTo(w, mem, k, j)
    ensures Live(mem, ImportRva(w.file), k, j) && Slot(DescNo(mem, ImportRva(w.file), k), j) + 8 <= |mem|
    ensures var ent := ThunkNo(mem, ImportRva(w.file), k, j);
            EntryValue(w, mem, ent).Some?
            && StoreAt(w, mem, k, j) == Store(Slot(DescNo(mem, ImportRva(w.file), k), j), EntryValue(w, mem, ent).value)
  {
    hide Fits, DirectoryOk, DescsBind, DescPasses, ThunksBind, ReadDesc, Live, EntryValue, Read64, ThunkUsable;
    ComesToIsLive(w, mem, k, j);
    PassesAt(w, mem, ImportRva(w.file), ImportEnd(w.file), k);
  }
}
