/** What import binding means (the second half of load_pe; Microsoft PE/COFF specification, section 6.4).
    The loader's walk patches the memory it is reading: the Run functions say what it does. The Walk functions
    run the same walk over frozen memory and log every access; the two agree when the log has no hazard. */
module ImportSpec {
  import opened Bytes
  import opened PeFile
  import opened ImageMap
  import opened AccessLog

  // ---- the shim table ----

  datatype Shim = Shim(name: seq<u8>, fn: u64)

  /** The first shim with that name, else the null pointer. */
  function FindShim(shims: seq<Shim>, name: seq<u8>): u64 {
    if shims == [] then 0 else if shims[0].name == name then shims[0].fn else FindShim(shims[1..], name)
  }

  lemma {:induction false} FindShimIsFirst(shims: seq<Shim>, name: seq<u8>, i: nat)
    requires i <= |shims| && forall k :: 0 <= k < i ==> shims[k].name != name
    requires i < |shims| ==> shims[i].name == name
    ensures FindShim(shims, name) == if i < |shims| then shims[i].fn else 0
  {
    if i > 0 {
      assert forall k :: 0 <= k < i - 1 ==> shims[1..][k] == shims[k + 1];
      FindShimIsFirst(shims[1..], name, i - 1);
    }
  }

  method LookupShim(shims: seq<Shim>, name: seq<u8>) returns (fn: u64)
    ensures fn == FindShim(shims, name)
  {
    for i := 0 to |shims|
      invariant FindShim(shims, name) == FindShim(shims[i..], name)
    {
      if shims[i].name == name { return shims[i].fn; }
    }
    fn := 0;
  }

  /** memchr(s, 0, |s|): the offset of the first NUL, or |s|. */
  function FirstNul(s: seq<u8>): (n: nat)
    ensures n <= |s| && (n < |s| ==> s[n] == 0)
    ensures forall k :: 0 <= k < n ==> s[k] != 0
  {
    if s == [] || s[0] == 0 then 0 else 1 + FirstNul(s[1..])
  }

  lemma FirstNulUnique(s: seq<u8>, n: nat)
    requires n <= |s| && (n < |s| ==> s[n] == 0) && forall k :: 0 <= k < n ==> s[k] != 0
    ensures FirstNul(s) == n
  {
  }

  // ---- the surroundings of a walk ----

  /** All a walk depends on besides the memory: the file it consults, where the image is and its size, the shims, the
      page map. */
  datatype World = World(file: seq<u8>, base: u64, size: nat, shims: seq<Shim>, prot: seq<Prot>)

  /** Header pages and sections end inside the image. */
  ghost predicate Fits(w: World) {
    PageUp(HeaderSize(w.file)) <= w.size && forall s :: s in Sections(w.file) ==> s.Limit() <= w.size
  }

  predicate CanRead(w: World, a: nat) {
    a / PAGE < |w.prot| && w.prot[a / PAGE] != NoAccess
  }

  predicate CanWrite(w: World, a: nat) {
    a / PAGE < |w.prot| && w.prot[a / PAGE] == ReadWrite
  }

  /** This access does not fault. */
  predicate Lands(w: World, x: Access) {
    forall a :: x.Lo() <= a < x.Hi() ==> if x.Load? then CanRead(w, a) else CanWrite(w, a)
  }

  lemma ReadableFits(w: World, o: nat)
    requires Fits(w)
    ensures ReadableLength(w.file, w.size, o) == 0 || o + ReadableLength(w.file, w.size, o) <= w.size
  {
    ReachIsMax(Sections(w.file), o, if o < PageUp(HeaderSize(w.file)) then PageUp(HeaderSize(w.file)) else 0);
  }

  /** How far past an RVA a string may reach: to the end of its readable region. */
  ghost function WindowLength(w: World, at: nat): (n: nat)
    requires Fits(w)
    ensures n > 0 ==> at + n <= w.size
  {
    ReadableFits(w, at);
    ReadableLength(w.file, w.size, at)
  }

  ghost function StringWindow(w: World, mem: seq<u8>, at: nat): (r: seq<u8>)
    requires Fits(w) && |mem| == w.size
    ensures |r| == WindowLength(w, at)
  {
    hide WindowLength, Fits;
    if WindowLength(w, at) == 0 then [] else mem[at..at + WindowLength(w, at)]
  }

  // ---- one thunk ----

  const BY_ORDINAL: nat := 0x8000_0000_0000_0000

  function ThunkRva(ent: u64): nat { ent as int % 0x8000_0000 }

  /** What the slot of a non-zero thunk receives: null for an ordinal, the shim for a name; None if the name is
      not wholly readable. */
  ghost function EntryValue(w: World, mem: seq<u8>, ent: u64): Option<u64>
    requires Fits(w) && |mem| == w.size
  {
    hide WindowLength, Fits, StringWindow;
    if ent as int >= BY_ORDINAL then Some(0)
    else
      var window := StringWindow(w, mem, ThunkRva(ent) + 2);
      if !Usable(w.file, w.size, ThunkRva(ent), 3) || FirstNul(window) == |window| then None
      else Some(FindShim(w.shims, window[..FirstNul(window)]))
  }

  function StringExtent(window: seq<u8>): (n: nat)
    ensures n <= |window|
  {
    if FirstNul(window) < |window| then FirstNul(window) + 1 else |window|
  }

  /** The bytes examined to get there: the name with its NUL, or the whole window when there is none; nothing for an
      ordinal or an unusable name. */
  ghost function NameLoad(w: World, mem: seq<u8>, ent: u64): (x: Access)
    requires Fits(w) && |mem| == w.size
    ensures x.Load? && x.lo <= x.hi <= |mem|
  {
    hide WindowLength, Fits, StringExtent, Usable;
    var at := ThunkRva(ent) + 2;
    if ent as int >= BY_ORDINAL || !Usable(w.file, w.size, ThunkRva(ent), 3) || WindowLength(w, at) == 0 then Load(0, 0)
    else Load(at, at + StringExtent(StringWindow(w, mem, at)))
  }

  /** Two windows that agree up to the first one's NUL hold the same string. */
  lemma SameString(now: seq<u8>, frozen: seq<u8>)
    requires |now| == |frozen| && now[..StringExtent(frozen)] == frozen[..StringExtent(frozen)]
    ensures FirstNul(now) == FirstNul(frozen) && now[..FirstNul(now)] == frozen[..FirstNul(frozen)]
    ensures StringExtent(now) == StringExtent(frozen)
  {
    var n, hi := FirstNul(frozen), StringExtent(frozen);
    forall k | 0 <= k < hi ensures now[k] == frozen[k] { assert now[k] == now[..hi][k]; }
    FirstNulUnique(now, n);
    assert now[..n] == now[..hi][..n] && frozen[..n] == frozen[..hi][..n];
  }

  /** Memories that agree on the bytes a string examines hold the same string there. */
  lemma SameWindow(w: World, m: seq<u8>, mem: seq<u8>, at: nat)
    requires Fits(w) && |m| == |mem| == w.size && WindowLength(w, at) > 0
    requires var hi := at + StringExtent(StringWindow(w, mem, at)); hi <= |mem| && m[at..hi] == mem[at..hi]
    ensures var now, frozen := StringWindow(w, m, at), StringWindow(w, mem, at);
            FirstNul(now) == FirstNul(frozen) && now[..FirstNul(now)] == frozen[..FirstNul(frozen)]
            && StringExtent(now) == StringExtent(frozen)
  {
    hide WindowLength, StringExtent, Fits, FirstNul;
    var now, frozen := StringWindow(w, m, at), StringWindow(w, mem, at);
    var n := StringExtent(frozen);
    assert now[..n] == m[at..at + n];
    assert frozen[..n] == mem[at..at + n];
    SameString(now, frozen);
  }

  /** Memories that agree on the examined bytes resolve a thunk to the same value, by the same bytes. */
  lemma EntrySame(w: World, m: seq<u8>, mem: seq<u8>, ent: u64)
    requires Fits(w) && |m| == |mem| == w.size
    requires var x := NameLoad(w, mem, ent); m[x.lo..x.hi] == mem[x.lo..x.hi]
    ensures EntryValue(w, m, ent) == EntryValue(w, mem, ent) && NameLoad(w, m, ent) == NameLoad(w, mem, ent)
  {
    hide WindowLength, Fits, StringExtent, StringWindow, FirstNul, Usable, FindShim;
    var at := ThunkRva(ent) + 2;
    if ent as int < BY_ORDINAL && Usable(w.file, w.size, ThunkRva(ent), 3) && WindowLength(w, at) > 0 {
      SameWindow(w, m, mem, at);
    }
  }

  // ---- one turn of the thunk loop ----

  /** The accesses of a walk and whether it ends well. */
  datatype Walk = Walk(log: seq<Access>, ok: bool)

  /** Fault stands for the signal that an access to a page mapped without the right to it raises. */
  datatype Outcome = Bound | Rejected | Fault

  datatype Run = Run(outcome: Outcome, mem: seq<u8>)

  /** One turn of a loop: its accesses (or the memory it leaves), and how the loop ends if it ends here. */
  datatype Turn = Turn(log: seq<Access>, stop: Option<bool>)

  datatype RunTurn = RunTurn(mem: seq<u8>, stop: Option<Outcome>)

  function Lookup(rt: nat, j: nat): (x: Access)
    ensures x.Load?
  {
    Load(rt + 8 * j, rt + 8 * j + 8)
  }

  ghost predicate ThunkUsable(w: World, rt: nat, fth: nat, j: nat)
    ensures ThunkUsable(w, rt, fth, j) ==> rt + 8 * j + 8 <= w.size && fth + 8 * j + 8 <= w.size
  {
    Usable(w.file, w.size, rt + 8 * j, 8) && Usable(w.file, w.size, fth + 8 * j, 8)
  }

  ghost function ThunkTurn(w: World, mem: seq<u8>, rt: nat, fth: nat, j: nat): Turn
    requires Fits(w) && |mem| == w.size && ThunkUsable(w, rt, fth, j)
  {
    var ent := Read64(mem, rt + 8 * j);
    if ent == 0 then Turn([Lookup(rt, j)], Some(true))
    else
      match EntryValue(w, mem, ent)
      case None => Turn([Lookup(rt, j), NameLoad(w, mem, ent)], Some(false))
      case Some(v) => Turn([Lookup(rt, j), NameLoad(w, mem, ent), Store(fth + 8 * j, v)], None)
  }

  /** The same turn on memory that it patches. */
  ghost function RunThunk(w: World, m: seq<u8>, rt: nat, fth: nat, j: nat): (r: RunTurn)
    requires Fits(w) && |m| == w.size && ThunkUsable(w, rt, fth, j)
    ensures |r.mem| == w.size
  {
    var ent := Read64(m, rt + 8 * j);
    if !Lands(w, Lookup(rt, j)) then RunTurn(m, Some(Fault))
    else if ent == 0 then RunTurn(m, Some(Bound))
    else if !Lands(w, NameLoad(w, m, ent)) then RunTurn(m, Some(Fault))
    else
      match EntryValue(w, m, ent)
      case None => RunTurn(m, Some(Rejected))
      case Some(v) =>
        if Lands(w, Store(fth + 8 * j, v)) then RunTurn(Put(m, fth + 8 * j, Le64(v)), None)
        else RunTurn(m, Some(Fault))
  }

  predicate AllLand(w: World, log: seq<Access>) {
    forall x :: x in log ==> Lands(w, x)
  }

  function Verdict(ok: bool): Outcome { if ok then Bound else Rejected }

  /** In step with the frozen walk, the patched memory holds the same thunk and resolves it to the same value. */
  lemma ThunkSame(w: World, mem: seq<u8>, done: seq<Access>, rt: nat, fth: nat, j: nat)
    requires Fits(w) && |mem| == w.size && ThunkUsable(w, rt, fth, j)
    requires NoHazard(done + ThunkTurn(w, mem, rt, fth, j).log)
    ensures Read64(Apply(mem, done), rt + 8 * j) == Read64(mem, rt + 8 * j)
    ensures var ent := Read64(mem, rt + 8 * j);
            ent != 0 ==> EntryValue(w, Apply(mem, done), ent) == EntryValue(w, mem, ent)
                         && NameLoad(w, Apply(mem, done), ent) == NameLoad(w, mem, ent)
  {
    var m, log, at := Apply(mem, done), ThunkTurn(w, mem, rt, fth, j).log, rt + 8 * j;
    hide Fits, ThunkUsable, EntryValue, NameLoad, Apply, NoHazard;
    LoadSeesInitial(mem, done, log, at, at + 8, 0);
    SameBytes64(m, mem, at, at);
    var ent := Read64(mem, at);
    if ent != 0 {
      var name := NameLoad(w, mem, ent);
      LoadSeesInitial(mem, done, log, name.lo, name.hi, 1);
      EntrySame(w, m, mem, ent);
    }
  }

  lemma LoadsOnly(mem: seq<u8>, done: seq<Access>, look: Access, name: Access)
    requires look.Load? && name.Load?
    ensures Apply(mem, done + [look]) == Apply(mem, done) == Apply(mem, done + [look, name])
  {
    ApplyOne(mem, done, look);
    ApplyOne(mem, done + [look], name);
    assert done + [look, name] == done + [look] + [name];
  }

  /** The log of one bound thunk changes exactly its slot. */
  lemma EntryEffect(mem: seq<u8>, done: seq<Access>, look: Access, name: Access, slot: nat, v: u64)
    requires look.Load? && name.Load? && slot + 8 <= |mem|
    ensures Apply(mem, done + [look, name, Store(slot, v)]) == Put(Apply(mem, done), slot, Le64(v))
  {
    LoadsOnly(mem, done, look, name);
    ApplyOne(mem, done + [look, name], Store(slot, v));
    assert done + [look, name, Store(slot, v)] == done + [look, name] + [Store(slot, v)];
  }

  lemma AllLandThree(w: World, x: Access, y: Access, z: Access)
    ensures AllLand(w, [x]) <==> Lands(w, x)
    ensures AllLand(w, [x, y]) <==> Lands(w, x) && Lands(w, y)
    ensures AllLand(w, [x, y, z]) <==> Lands(w, x) && Lands(w, y) && Lands(w, z)
  {
    hide Lands;
    assert [x][0] == x && [x, y][0] == x && [x, y][1] == y;
    assert [x, y, z][0] == x && [x, y, z][1] == y && [x, y, z][2] == z;
  }

  /** A frozen turn that ends the walk: over patched memory one of its accesses faults, or it ends the walk the same
      way and leaves the memory alone. */
  lemma TurnStops(w: World, mem: seq<u8>, done: seq<Access>, rt: nat, fth: nat, j: nat)
    requires Fits(w) && |mem| == w.size && ThunkUsable(w, rt, fth, j)
    requires NoHazard(done + ThunkTurn(w, mem, rt, fth, j).log) && ThunkTurn(w, mem, rt, fth, j).stop.Some?
    ensures var t, r := ThunkTurn(w, mem, rt, fth, j), RunThunk(w, Apply(mem, done), rt, fth, j);
            && Apply(mem, done + t.log) == Apply(mem, done)
            && if AllLand(w, t.log) then r == RunTurn(Apply(mem, done), Some(Verdict(t.stop.value)))
               else r.stop == Some(Fault)
  {
    hide Fits, ThunkUsable, EntryValue, NameLoad, Apply, NoHazard, Lookup, Read64, AllLand, Lands;
    ThunkSame(w, mem, done, rt, fth, j);
    var look, name := Lookup(rt, j), NameLoad(w, mem, Read64(mem, rt + 8 * j));
    LoadsOnly(mem, done, look, name);
    AllLandThree(w, look, name, name);
  }

  /** A frozen turn that stores: over patched memory one of its accesses faults, or it has the same effect. */
  lemma TurnStores(w: World, mem: seq<u8>, done: seq<Access>, rt: nat, fth: nat, j: nat)
    requires Fits(w) && |mem| == w.size && ThunkUsable(w, rt, fth, j)
    requires NoHazard(done + ThunkTurn(w, mem, rt, fth, j).log) && ThunkTurn(w, mem, rt, fth, j).stop.None?
    ensures var t, r := ThunkTurn(w, mem, rt, fth, j), RunThunk(w, Apply(mem, done), rt, fth, j);
            if AllLand(w, t.log) then r == RunTurn(Apply(mem, done + t.log), None) else r.stop == Some(Fault)
  {
    hide Fits, ThunkUsable, EntryValue, NameLoad, Apply, NoHazard, Lookup, Read64, AllLand, Lands;
    ThunkSame(w, mem, done, rt, fth, j);
    var ent, slot := Read64(mem, rt + 8 * j), fth + 8 * j;
    var look, name, v := Lookup(rt, j), NameLoad(w, mem, ent), EntryValue(w, mem, ent).value;
    EntryEffect(mem, done, look, name, slot, v);
    AllLandThree(w, look, name, Store(slot, v));
    assert ThunkTurn(w, mem, rt, fth, j).log == [look, name, Store(slot, v)];
  }

  // ---- one descriptor's thunks ----

  /** The accesses that bind thunks j, j + 1, ... up to the zero thunk. */
  ghost function ThunkWalk(w: World, mem: seq<u8>, rt: nat, fth: nat, j: nat): Walk
    requires Fits(w) && |mem| == w.size
    decreases w.size - 8 * j
  {
    if !ThunkUsable(w, rt, fth, j) then Walk([], false)
    else
      var t := ThunkTurn(w, mem, rt, fth, j);
      if t.stop.Some? then Walk(t.log, t.stop.value)
      else After(t.log, ThunkWalk(w, mem, rt, fth, j + 1))
  }

  ghost function RunThunks(w: World, m: seq<u8>, rt: nat, fth: nat, j: nat): (r: Run)
    requires Fits(w) && |m| == w.size
    ensures |r.mem| == w.size
    decreases w.size - 8 * j
  {
    if !ThunkUsable(w, rt, fth, j) then Run(Rejected, m)
    else
      var t := RunThunk(w, m, rt, fth, j);
      if t.stop.Some? then Run(t.stop.value, t.mem) else RunThunks(w, t.mem, rt, fth, j + 1)
  }

  function After(log: seq<Access>, rest: Walk): Walk { Walk(log + rest.log, rest.ok) }

  /** The run ended as the frozen walk says, `done` having been applied before it: it faults exactly when one of
      the walk's accesses does not land, and otherwise leaves the memory with all its stores applied. */
  ghost predicate Matches(w: World, mem: seq<u8>, done: seq<Access>, walk: Walk, r: Run) {
    && (r.outcome.Fault? <==> !AllLand(w, walk.log))
    && (!r.outcome.Fault? ==> r.outcome == Verdict(walk.ok) && r.mem == Apply(mem, done + walk.log))
  }

  lemma LandSplit(w: World, a: seq<Access>, b: seq<Access>)
    ensures AllLand(w, a + b) <==> AllLand(w, a) && AllLand(w, b)
  {
    assert forall x :: x in a + b <==> x in a || x in b;
  }

  /** Runs compose: a head whose accesses land, then a rest that matches. */
  lemma MatchesAfter(w: World, mem: seq<u8>, done: seq<Access>, head: seq<Access>, rest: Walk, r: Run)
    requires if AllLand(w, head) then Matches(w, mem, done + head, rest, r) else r.outcome == Fault
    ensures Matches(w, mem, done, After(head, rest), r)
  {
    assert done + (head + rest.log) == done + head + rest.log;
    LandSplit(w, head, rest.log);
  }

  lemma HazardPrefix(done: seq<Access>, head: seq<Access>, rest: seq<Access>)
    requires NoHazard(done + (head + rest))
    ensures NoHazard(done + head) && NoHazard(done + head + rest)
  {
    assert done + (head + rest) == done + head + rest;
    assert forall i :: 0 <= i < |done + head| ==> (done + head)[i] == (done + head + rest)[i];
  }

  lemma {:induction false} ThunksRefine(w: World, mem: seq<u8>, done: seq<Access>, rt: nat, fth: nat, j: nat)
    requires Fits(w) && |mem| == w.size && NoHazard(done + ThunkWalk(w, mem, rt, fth, j).log)
    ensures Matches(w, mem, done, ThunkWalk(w, mem, rt, fth, j), RunThunks(w, Apply(mem, done), rt, fth, j))
    decreases w.size - 8 * j
  {
    hide Fits, ThunkUsable, Apply, NoHazard, Lands, ThunkTurn, RunThunk;
    assert done + [] == done;
    if ThunkUsable(w, rt, fth, j) {
      var t := ThunkTurn(w, mem, rt, fth, j);
      if t.stop.Some? {
        TurnStops(w, mem, done, rt, fth, j);
      } else {
        var rest := ThunkWalk(w, mem, rt, fth, j + 1);
        HazardPrefix(done, t.log, rest.log);
        TurnStores(w, mem, done, rt, fth, j);
        if AllLand(w, t.log) { ThunksRefine(w, mem, done + t.log, rt, fth, j + 1); }
        MatchesAfter(w, mem, done, t.log, rest, RunThunks(w, Apply(mem, done), rt, fth, j));
      }
    }
  }

  // ---- the descriptor table ----

  datatype Desc = Desc(orig: u32, timestamp: u32, chain: u32, name: u32, fthunk: u32) {
    predicate Null() { orig == 0 && timestamp == 0 && chain == 0 && name == 0 && fthunk == 0 }

    /** The table thunks are read from: the lookup table, or the IAT itself. */
    function Source(): u32 { if orig != 0 then orig else fthunk }
  }

  function ReadDesc(mem: seq<u8>, d: nat): Desc
    requires d + 20 <= |mem|
  {
    Desc(Read32(mem, d), Read32(mem, d + 4), Read32(mem, d + 8), Read32(mem, d + 12), Read32(mem, d + 16))
  }

  ghost predicate DescUsable(w: World, d: nat, end: nat)
    ensures DescUsable(w, d, end) ==> d + 20 <= w.size && d + 20 <= end
  {
    d + 20 <= end && Usable(w.file, w.size, d, 20)
  }

  /** The checks on a descriptor that is not the terminator. */
  ghost predicate DescOk(w: World, d: Desc) {
    && d.name != 0 && d.fthunk != 0
    && Usable(w.file, w.size, d.name, 1) && Usable(w.file, w.size, d.fthunk, 8)
    && (d.orig != 0 ==> Usable(w.file, w.size, d.orig, 8))
    && forall a :: d.fthunk as int <= a < d.fthunk as int + 8 ==> SectionCovers(Sections(w.file), a)
  }

  /** The accesses that bind every descriptor from RVA d on, in a directory that ends at `end`. */
  ghost function DescWalk(w: World, mem: seq<u8>, d: nat, end: nat): Walk
    requires Fits(w) && |mem| == w.size
    decreases end - d
  {
    if !DescUsable(w, d, end) then Walk([], false)
    else
      var desc, load := ReadDesc(mem, d), [Load(d, d + 20)];
      if desc.Null() || !DescOk(w, desc) then Walk(load, desc.Null())
      else
        var t := ThunkWalk(w, mem, desc.Source(), desc.fthunk, 0);
        After(load, if t.ok then After(t.log, DescWalk(w, mem, d + 20, end)) else t)
  }

  ghost function RunDescs(w: World, m: seq<u8>, d: nat, end: nat): (r: Run)
    requires Fits(w) && |m| == w.size
    ensures |r.mem| == w.size
    decreases end - d
  {
    if !DescUsable(w, d, end) then Run(Rejected, m)
    else if !Lands(w, Load(d, d + 20)) then Run(Fault, m)
    else
      var desc := ReadDesc(m, d);
      if desc.Null() || !DescOk(w, desc) then Run(Verdict(desc.Null()), m)
      else
        var t := RunThunks(w, m, desc.Source(), desc.fthunk, 0);
        if t.outcome.Bound? then RunDescs(w, t.mem, d + 20, end) else t
  }

  lemma DescSame(w: World, mem: seq<u8>, done: seq<Access>, d: nat, rest: seq<Access>)
    requires d + 20 <= |mem| && NoHazard(done + ([Load(d, d + 20)] + rest))
    ensures ReadDesc(Apply(mem, done), d) == ReadDesc(mem, d)
    ensures Apply(mem, done + [Load(d, d + 20)]) == Apply(mem, done)
  {
    var m := Apply(mem, done);
    LoadSeesInitial(mem, done, [Load(d, d + 20)] + rest, d, d + 20, 0);
    ApplyOne(mem, done, Load(d, d + 20));
    hide Apply, NoHazard;
    assert m[d..d + 20] == mem[d..d + 20];
    DescBytes(m, mem, d);
  }

  lemma DescBytes(m: seq<u8>, mem: seq<u8>, d: nat)
    requires |m| == |mem| && d + 20 <= |mem| && m[d..d + 20] == mem[d..d + 20]
    ensures ReadDesc(m, d) == ReadDesc(mem, d)
  {
    assert forall k :: d <= k < d + 20 ==> m[k] == m[d..d + 20][k - d] && mem[k] == mem[d..d + 20][k - d];
  }

  /** A thunk walk and then a rest: composed, they match the runs composed. */
  lemma MatchesThen(w: World, mem: seq<u8>, done: seq<Access>, t: Walk, rt: Run, rest: Walk, r: Run)
    requires Matches(w, mem, done, t, rt)
    requires t.ok ==> if rt.outcome.Bound? then Matches(w, mem, done + t.log, rest, r) else r == rt
    requires !t.ok ==> r == rt
    ensures Matches(w, mem, done, if t.ok then After(t.log, rest) else t, r)
  {
    if t.ok { MatchesAfter(w, mem, done, t.log, rest, r); }
  }

  lemma {:induction false} DescsRefine(w: World, mem: seq<u8>, done: seq<Access>, d: nat, end: nat)
    requires Fits(w) && |mem| == w.size && NoHazard(done + DescWalk(w, mem, d, end).log)
    ensures Matches(w, mem, done, DescWalk(w, mem, d, end), RunDescs(w, Apply(mem, done), d, end))
    decreases end - d
  {
    hide Fits, DescOk, DescUsable, Apply, NoHazard, Lands, AllLand, ReadDesc, ThunkWalk, RunThunks, Matches;
    var walk, m := DescWalk(w, mem, d, end), Apply(mem, done);
    if !DescUsable(w, d, end) {
      MatchesNothing(w, mem, done);
    } else {
      var desc, load := ReadDesc(mem, d), [Load(d, d + 20)];
      assert load + [] == load && walk.log == load + walk.log[1..];
      DescSame(w, mem, done, d, walk.log[1..]);
      AllLandThree(w, Load(d, d + 20), Load(d, d + 20), Load(d, d + 20));
      MatchesNothing(w, mem, done + load);
      if !desc.Null() && DescOk(w, desc) {
        var t, tr := ThunkWalk(w, mem, desc.Source(), desc.fthunk, 0), RunThunks(w, m, desc.Source(), desc.fthunk, 0);
        var rest := if t.ok then DescWalk(w, mem, d + 20, end) else Walk([], false);
        assert walk.log == load + (t.log + rest.log);
        HazardPrefix(done, load, t.log + rest.log);
        HazardPrefix(done + load, t.log, rest.log);
        ThunksRefine(w, mem, done + load, desc.Source(), desc.fthunk, 0);
        MatchesMemory(w, mem, done + load, t, tr);
        if t.ok && tr.outcome.Bound? { DescsRefine(w, mem, done + load + t.log, d + 20, end); }
        if Lands(w, Load(d, d + 20)) { MatchesThen(w, mem, done + load, t, tr, rest, RunDescs(w, m, d, end)); }
        MatchesAfter(w, mem, done, load, if t.ok then After(t.log, rest) else t, RunDescs(w, m, d, end));
      } else {
        MatchesAfter(w, mem, done, load, Walk([], desc.Null()), RunDescs(w, m, d, end));
      }
    }
  }

  lemma MatchesMemory(w: World, mem: seq<u8>, done: seq<Access>, t: Walk, r: Run)
    requires Matches(w, mem, done, t, r)
    ensures r.outcome.Bound? ==> t.ok && r.mem == Apply(mem, done + t.log)
  {
  }

  /** A walk that stops without another access. */
  lemma MatchesNothing(w: World, mem: seq<u8>, done: seq<Access>)
    ensures forall ok :: Matches(w, mem, done, Walk([], ok), Run(Verdict(ok), Apply(mem, done)))
  {
    assert done + [] == done;
  }

  function ImportRva(f: seq<u8>): u32 { if NumDirs(f) > 1 then F32(f, Opt(f) + 120) else 0 }

  function ImportSize(f: seq<u8>): u32 { if NumDirs(f) > 1 then F32(f, Opt(f) + 124) else 0 }

  function ImportEnd(f: seq<u8>): nat { ImportRva(f) as int + ImportSize(f) as int }

  ghost predicate DirectoryOk(w: World) {
    w.base != 0 && ImportSize(w.file) >= 20 && Usable(w.file, w.size, ImportRva(w.file), ImportSize(w.file))
  }

  /** The whole of import binding over frozen memory. */
  ghost function ImportWalk(w: World, mem: seq<u8>): Walk
    requires Fits(w) && |mem| == w.size
  {
    if ImportRva(w.file) == 0 then Walk([], true)
    else if !DirectoryOk(w) then Walk([], false)
    else DescWalk(w, mem, ImportRva(w.file), ImportEnd(w.file))
  }

  /** The whole of import binding as the loader runs it. */
  ghost function RunImports(w: World, m: seq<u8>): Run
    requires Fits(w) && |m| == w.size
  {
    if ImportRva(w.file) == 0 then Run(Bound, m)
    else if !DirectoryOk(w) then Run(Rejected, m)
    else RunDescs(w, m, ImportRva(w.file), ImportEnd(w.file))
  }

  /** When no access of the frozen walk touches an earlier store, patching while walking changes nothing: it faults
      exactly when one of the walk's accesses does not land, and else ends with the same verdict and leaves the
      initial memory with the walk's stores applied. */
  lemma ImportsRefine(w: World, mem: seq<u8>)
    requires Fits(w) && |mem| == w.size && NoHazard(ImportWalk(w, mem).log)
    ensures Matches(w, mem, [], ImportWalk(w, mem), RunImports(w, mem))
  {
    if ImportRva(w.file) == 0 || !DirectoryOk(w) {
      MatchesNothing(w, mem, []);
    } else {
      assert [] + ImportWalk(w, mem).log == ImportWalk(w, mem).log;
      DescsRefine(w, mem, [], ImportRva(w.file), ImportEnd(w.file));
    }
  }
}
