/** Import binding as load_pe performs it, on the mapped image (src/ft_engine.c). */
module Imports {
  import opened Bytes
  import opened PeFile
  import opened ImageMap
  import opened ImageTheory
  import opened AccessLog
  import opened ImportSpec

  ghost function WorldOf(img: Image, shims: seq<Shim>): World
    reads img, img.prot
  {
    World(img.file, img.base, img.size as int, shims, img.prot[..])
  }

  lemma MappedFits(img: Image, shims: seq<Shim>)
    requires img.Mapped()
    ensures Fits(WorldOf(img, shims)) && img.bytes.Length == img.size as int
  {
    forall s | s in Sections(img.file) ensures s.Limit() <= img.size as int {
      assert OverlayOk(img.size, s, false);
    }
  }

  /** The state binding works in: the image is mapped, somewhere. */
  ghost predicate Bindable(img: Image, shims: seq<Shim>)
    reads img, img.prot, img.bytes
  {
    img.Mapped() && img.base != 0 && Fits(WorldOf(img, shims)) && img.bytes.Length == img.size as int
  }

  /** Does a load of n bytes at o go through, or does the processor raise a fault? The range is short enough to touch
      two pages at most. */
  method Peek(img: Image, shims: seq<Shim>, o: nat, n: nat) returns (ok: bool)
    requires o + n <= img.size as int && 0 < n <= PAGE
    ensures ok == Lands(WorldOf(img, shims), Load(o, o + n)) == img.Backed(o, n)
  {
    ok := img.Accessible(o) && img.Accessible(o + n - 1);
    assert CanRead(WorldOf(img, shims), o) == img.Accessible(o);
    assert CanRead(WorldOf(img, shims), o + n - 1) == img.Accessible(o + n - 1);
    forall a | o <= a < o + n ensures a / PAGE == o / PAGE || a / PAGE == (o + n - 1) / PAGE {}
  }

  /** image_range, with what its answer means for memory accesses where it can be trusted. */
  method Range(img: Image, o: nat, n: nat) returns (ok: bool)
    requires img.Mapped() && img.base != 0
    ensures ok == Usable(img.file, img.size as int, o, n) && (ok ==> o + n <= img.size as int)
    ensures ok && NoPhantom(img.file) ==> img.Backed(o, n)
  {
    ok := img.ImageRange(o, n);
    if ok && NoPhantom(img.file) { RangeBacked(img, o, n); }
  }

  /** The bytes a string at this RVA may occupy, as memory shows them now. */
  method ReadWindow(img: Image, shims: seq<Shim>, at: nat) returns (window: seq<u8>)
    requires Bindable(img, shims)
    ensures window == StringWindow(WorldOf(img, shims), img.bytes[..], at)
    ensures window != [] ==> img.Backed(at, |window|)
  {
    hide Fits, Usable, ReadableLength;
    var limit := img.ReadableRangeLength(at);
    assert limit == WindowLength(WorldOf(img, shims), at);
    if limit == 0 { return []; }
    ReadableIsAccessible(img, at);
    window := img.View(at, limit);
  }

  /** Decide what a thunk's slot receives, reading the memory as it is now; the bytes read are mapped. */
  method ResolveThunk(img: Image, shims: seq<Shim>, ent: u64) returns (v: Option<u64>)
    requires Bindable(img, shims)
    ensures v == EntryValue(WorldOf(img, shims), img.bytes[..], ent)
    ensures Lands(WorldOf(img, shims), NameLoad(WorldOf(img, shims), img.bytes[..], ent))
  {
    hide Bindable, Fits, Usable, WindowLength, Image.Mapped;
    assert img.Mapped() && img.base != 0 by { BindableParts(img, shims); }
    if ent as int >= BY_ORDINAL { return Some(0); }
    var irva := ent as int % 0x8000_0000;
    var ok := Range(img, irva, 3);
    if !ok { return None; }
    var window := ReadWindow(img, shims, irva + 2);
    assert forall a :: 0 <= a ==> img.Accessible(a) == CanRead(WorldOf(img, shims), a);
    var n := FirstNul(window);
    if n == |window| { return None; }
    var fn := LookupShim(shims, window[..n]);
    v := Some(fn);
  }

  lemma BindableParts(img: Image, shims: seq<Shim>)
    requires Bindable(img, shims)
    ensures img.Mapped() && img.base != 0 && Fits(WorldOf(img, shims)) && img.bytes.Length == img.size as int
  {
  }

  method ThunkRange(img: Image, shims: seq<Shim>, rt: nat, fth: nat, j: nat) returns (ok: bool)
    requires img.Mapped() && img.base != 0
    ensures ok == ThunkUsable(WorldOf(img, shims), rt, fth, j)
  {
    hide Usable, Image.Mapped;
    ok := Range(img, rt + 8 * j, 8);
    if !ok { return; }
    ok := Range(img, fth + 8 * j, 8);
  }

  /** A store to the slot goes through exactly when its first and last byte may be written. */
  lemma SlotLands(img: Image, shims: seq<Shim>, slot: nat, v: u64)
    ensures Lands(WorldOf(img, shims), Store(slot, v)) <==> img.Writable(slot) && img.Writable(slot + 7)
  {
    var w := WorldOf(img, shims);
    assert CanWrite(w, slot) == img.Writable(slot) && CanWrite(w, slot + 7) == img.Writable(slot + 7);
    forall a | slot <= a < slot + 8 ensures a / PAGE == slot / PAGE || a / PAGE == (slot + 7) / PAGE {}
  }

  method StoreThunk(img: Image, shims: seq<Shim>, slot: nat, v: u64) returns (stop: Option<Outcome>)
    requires slot + 8 <= img.size as int == img.bytes.Length
    modifies img.bytes
    ensures RunTurn(img.bytes[..], stop)
            == if Lands(WorldOf(img, shims), Store(slot, v)) then RunTurn(Put(old(img.bytes[..]), slot, Le64(v)), None)
               else RunTurn(old(img.bytes[..]), Some(Fault))
  {
    hide Lands, Put, Le64;
    SlotLands(img, shims, slot, v);
    var stored := img.Store64(slot, v);
    stop := if stored then None else Some(Fault);
  }

  /** One turn of the thunk loop: None to go on, else how the walk ends. */
  method BindThunk(img: Image, shims: seq<Shim>, rt: nat, fth: nat, j: nat) returns (stop: Option<Outcome>)
    requires Bindable(img, shims) && ThunkUsable(WorldOf(img, shims), rt, fth, j)
    modifies img.bytes
    ensures RunTurn(img.bytes[..], stop) == RunThunk(WorldOf(img, shims), old(img.bytes[..]), rt, fth, j)
  {
    hide Fits, ThunkUsable, EntryValue, NameLoad, Lands, Put, Le64, Image.Mapped;
    var ok := Peek(img, shims, rt + 8 * j, 8);
    if !ok { return Some(Fault); }
    var ent := img.Load64(rt + 8 * j);
    if ent == 0 { return Some(Bound); }
    var v := ResolveThunk(img, shims, ent);
    if v.None? { return Some(Rejected); }
    stop := StoreThunk(img, shims, fth + 8 * j, v.value);
  }

  method BindThunks(img: Image, shims: seq<Shim>, rt: nat, fth: nat) returns (r: Outcome)
    requires Bindable(img, shims)
    modifies img.bytes
    ensures Run(r, img.bytes[..]) == RunThunks(WorldOf(img, shims), old(img.bytes[..]), rt, fth, 0)
  {
    hide Fits, RunThunk, Usable, Image.Mapped;
    ghost var w := WorldOf(img, shims);
    var j := 0;
    var go := ThunkRange(img, shims, rt, fth, j);
    while go
      invariant go == ThunkUsable(w, rt, fth, j)
      invariant RunThunks(w, img.bytes[..], rt, fth, j) == RunThunks(w, old(img.bytes[..]), rt, fth, 0)
      decreases img.size as int - 8 * j
    {
      var stop := BindThunk(img, shims, rt, fth, j);
      if stop.Some? { return stop.value; }
      j := j + 1;
      go := ThunkRange(img, shims, rt, fth, j);
    }
    r := Rejected;
  }

  method CheckDesc(img: Image, shims: seq<Shim>, desc: Desc) returns (ok: bool)
    requires img.Mapped() && img.base != 0
    ensures ok == DescOk(WorldOf(img, shims), desc)
  {
    hide Usable, Image.Mapped;
    if desc.name == 0 || desc.fthunk == 0 { return false; }
    ok := Range(img, desc.name, 1);
    if !ok { return; }
    ok := Range(img, desc.fthunk, 8);
    if !ok { return; }
    if desc.orig != 0 {
      ok := Range(img, desc.orig, 8);
      if !ok { return; }
    }
    ok := img.ImageWritableRange(desc.fthunk, 8);
  }

  /** Load a descriptor, if the processor lets us. */
  method LoadDesc(img: Image, shims: seq<Shim>, d: nat) returns (desc: Option<Desc>)
    requires d + 20 <= img.size as int == img.bytes.Length
    ensures desc == if Lands(WorldOf(img, shims), Load(d, d + 20)) then Some(ReadDesc(img.bytes[..], d)) else None
  {
    hide Lands;
    var ok := Peek(img, shims, d, 20);
    if !ok { return None; }
    desc := Some(Desc(img.Load32(d), img.Load32(d + 4), img.Load32(d + 8), img.Load32(d + 12), img.Load32(d + 16)));
  }

  /** The descriptor loop, from a directory that has passed its check; termination is by the directory's end and the
      image's size. */
  method BindDescs(img: Image, shims: seq<Shim>, rva: nat, end: nat) returns (r: Outcome)
    requires Bindable(img, shims)
    modifies img.bytes
    ensures Run(r, img.bytes[..]) == RunDescs(WorldOf(img, shims), old(img.bytes[..]), rva, end)
  {
    hide Fits, RunThunks, DescOk, Usable, Lands, ReadDesc, Image.Mapped;
    ghost var w := WorldOf(img, shims);
    var d := rva;
    while d + 20 <= end
      invariant RunDescs(w, img.bytes[..], d, end) == RunDescs(w, old(img.bytes[..]), rva, end)
      decreases end - d
    {
      var ok := Range(img, d, 20);
      if !ok { return Rejected; }
      assert DescUsable(w, d, end);
      var loaded := LoadDesc(img, shims, d);
      if loaded.None? { return Fault; }
      var desc := loaded.value;
      if desc.Null() { return Bound; }
      ok := CheckDesc(img, shims, desc);
      if !ok { return Rejected; }
      r := BindThunks(img, shims, desc.Source(), desc.fthunk);
      if !r.Bound? { return; }
      d := d + 20;
    }
    r := Rejected;
  }

  /** Bind every import of the mapped image. */
  method BindImports(img: Image, shims: seq<Shim>) returns (r: Outcome)
    requires img.Mapped() && Fits(WorldOf(img, shims)) && img.bytes.Length == img.size as int
    modifies img.bytes
    ensures Run(r, img.bytes[..]) == RunImports(WorldOf(img, shims), old(img.bytes[..]))
  {
    hide Fits, RunDescs, Usable, Image.Mapped;
    var rva, size: nat := ImportRva(img.file), ImportSize(img.file);
    if rva == 0 { return Bound; }
    if size < 20 { return Rejected; }
    var ok := img.ImageRange(rva, size);
    if !ok { return Rejected; }
    r := BindDescs(img, shims, rva, rva as int + size);
  }
}
