/** The loader's reserved address range: header checks, mapping, and the interval walks that later decide
    which ranges may be touched (src/ft_engine.c). */
module ImageMap {
  import opened Bytes
  import opened PeFile

  datatype Prot = NoAccess | ReadOnly | ReadExec | ReadWrite

  /** SizeOfHeaders as image_range re-reads it: both sums are u32 and wrap. */
  function WalkHeaderSize(f: seq<u8>): u32 {
    F32(f, W32(W32(Lfanew(f) as int + 24) as int + 60))
  }

  ghost predicate SectionCovers(secs: seq<Section>, a: nat) {
    exists s :: s in secs && s.OnPages(a)
  }

  /** Bytes the interval walk of image_range steps over. */
  ghost predicate WalkCovers(f: seq<u8>, a: nat) {
    a < PageUp(WalkHeaderSize(f)) || SectionCovers(Sections(f), a)
  }

  /** Bytes the header and section overlays were asked to map. */
  ghost predicate MapCovers(f: seq<u8>, a: nat) {
    a < PageUp(HeaderSize(f)) || SectionCovers(Sections(f), a)
  }

  /** What image_range decides. */
  ghost predicate Usable(f: seq<u8>, size: nat, o: nat, n: nat) {
    o + n <= size && forall a :: o <= a < o + n ==> WalkCovers(f, a)
  }

  /** Largest limit among the readable sections that cover o, or `least` if none exceeds it. */
  function ReachFrom(secs: seq<Section>, o: nat, least: nat): nat {
    if secs == [] then least
    else
      var r, s := ReachFrom(secs[..|secs| - 1], o, least), secs[|secs| - 1];
      if s.Readable() && s.OnPages(o) && s.Limit() > r then s.Limit() else r
  }

  lemma {:induction false} ReachIsMax(secs: seq<Section>, o: nat, least: nat)
    ensures ReachFrom(secs, o, least) >= least
    ensures forall s :: s in secs && s.Readable() && s.OnPages(o) ==> s.Limit() <= ReachFrom(secs, o, least)
    ensures ReachFrom(secs, o, least) == least
            || exists s :: s in secs && s.Readable() && s.OnPages(o) && s.Limit() == ReachFrom(secs, o, least)
  {
    if secs != [] {
      ReachIsMax(secs[..|secs| - 1], o, least);
    }
  }

  lemma ReachNone(o: nat, least: nat)
    ensures ReachFrom([], o, least) == least
  {
  }

  lemma ReachNext(secs: seq<Section>, i: nat, o: nat, least: nat)
    requires i < |secs|
    ensures var r, s := ReachFrom(secs[..i], o, least), secs[i];
            ReachFrom(secs[..i + 1], o, least) == if s.Readable() && s.OnPages(o) && s.Limit() > r then s.Limit() else r
  {
    assert secs[..i + 1][..i] == secs[..i];
  }

  /** What readable_range_length returns: how far the header page or one readable section reaches past o. */
  ghost function ReadableLength(f: seq<u8>, size: nat, o: nat): nat {
    if !Usable(f, size, o, 1) then 0
    else
      var hdr := PageUp(HeaderSize(f));
      var reach := ReachFrom(Sections(f), o, if o < hdr then hdr else 0);
      if reach > o then reach - o else 0
  }

  // ---- the page map the overlays leave ----

  function SectionProt(s: Section): Prot {
    if s.Executable() then ReadExec else ReadWrite
  }

  predicate OnPage(s: Section, p: nat) {
    s.vaddr / PAGE <= p < s.Limit() / PAGE
  }

  /** Protection of page p after the header and then the given sections were overlaid in order. */
  function PageProt(hdr: u32, secs: seq<Section>, p: nat): Prot {
    if secs == [] then
      if p < PageUp32(hdr) / PAGE then ReadOnly else NoAccess
    else if OnPage(secs[|secs| - 1], p) && PageUp32(secs[|secs| - 1].Span()) != 0 then
      SectionProt(secs[|secs| - 1])
    else
      PageProt(hdr, secs[..|secs| - 1], p)
  }

  /** A section's overlay passes the loader's range check and mmap accepts its address. */
  predicate OverlayOk(size: u32, s: Section, refused: bool) {
    && s.Span() <= 0xffff_f000 && s.vaddr <= size
    && PageUp32(s.Span()) as int <= size as int - s.vaddr as int
    && (PageUp32(s.Span()) != 0 ==> s.vaddr % PAGE == 0 && !refused)
  }

  /** The first n section overlays succeed. */
  ghost predicate OverlaysOk(size: u32, secs: seq<Section>, refused: set<nat>, n: nat)
    requires n <= |secs|
  {
    n == 0 || (OverlaysOk(size, secs, refused, n - 1) && OverlayOk(size, secs[n - 1], n + 1 in refused))
  }

  lemma OverlaysOkEach(size: u32, secs: seq<Section>, refused: set<nat>, n: nat)
    requires n <= |secs|
    ensures OverlaysOk(size, secs, refused, n)
            <==> forall i :: 0 <= i < n ==> OverlayOk(size, secs[i], i + 2 in refused)
  {
  }

  lemma OverlaysOkMono(size: u32, secs: seq<Section>, refused: set<nat>, m: nat, n: nat)
    requires m <= n <= |secs| && OverlaysOk(size, secs, refused, n)
    ensures OverlaysOk(size, secs, refused, m)
  {
  }

  lemma AllOverlaysOk(size: u32, secs: seq<Section>, refused: set<nat>)
    requires OverlaysOk(size, secs, refused, |secs|)
    ensures forall s :: s in secs ==> OverlayOk(size, s, false)
  {
    OverlaysOkEach(size, secs, refused, |secs|);
    forall s | s in secs ensures OverlayOk(size, s, false) {
      var i :| 0 <= i < |secs| && secs[i] == s;
      assert OverlayOk(size, secs[i], i + 2 in refused);
    }
  }

  /** Every step of the mapping phase succeeds. `refused` holds the numbers of the mmap calls the kernel turns
      down for reasons of its own: 0 the reservation, 1 the headers, 2 + i section i. */
  ghost predicate MapsOk(f: seq<u8>, refused: set<nat>) {
    && ImageBase(f) % PAGE == 0 && 0 !in refused
    && PageUp32(HeaderSize(f)) <= ImageSize(f) && 1 !in refused
    && OverlaysOk(ImageSize(f), Sections(f), refused, |Sections(f)|)
  }

  function PageCount(n: nat): nat { (n + 0xfff) / PAGE }

  /** On aligned sections, covering a page and covering one of its bytes are the same. */
  lemma PageOfByte(s: Section, size: u32, a: nat)
    requires OverlayOk(size, s, false)
    ensures PageUp32(s.Span()) != 0 && OnPage(s, a / PAGE) <==> s.OnPages(a)
  {
  }

  /** Walk order does not matter: a page is accessible exactly when some overlay covers it. */
  lemma {:induction false} PageProtCovers(hdr: u32, secs: seq<Section>, size: u32, a: nat)
    requires hdr <= 0xffff_f000
    requires forall s :: s in secs ==> OverlayOk(size, s, false)
    ensures PageProt(hdr, secs, a / PAGE) != NoAccess <==> a < PageUp(hdr) || SectionCovers(secs, a)
  {
    if secs != [] {
      var last, rest := secs[|secs| - 1], secs[..|secs| - 1];
      assert last in secs;
      PageProtCovers(hdr, rest, size, a);
      PageOfByte(last, size, a);
      hide OverlayOk, PageUp32, PageUp, OnPage;
      assert forall s :: s in secs <==> s in rest || s == last;
      assert PageProt(hdr, secs, a / PAGE) != NoAccess
             <==> last.OnPages(a) || PageProt(hdr, rest, a / PAGE) != NoAccess;
    }
  }

  /** The loader's global state: g_file, g_image_size, g_image, the memory behind it and its page map. */
  class Image {
    const file: seq<u8>
    var size: u32
    /** The address in g_image, null until the range is reserved. */
    var base: u64
    var bytes: array<u8>
    var prot: array<Prot>

    constructor (file: seq<u8>)
      ensures this.file == file && size == 0 && base == 0 && fresh(bytes) && fresh(prot)
    {
      this.file := file;
      size, base := 0, 0;
      bytes, prot := new u8[0], new Prot[0];
    }

    /** The header, section and directory checks of load_pe; g_image_size is set on the way. */
    method CheckHeaders() returns (ok: bool)
      modifies `size
      ensures ok == LoaderAccepts(file)
      ensures ok ==> size == ImageSize(file)
    {
      hide F16, F32, SectionTable, AllPlaced, W32;
      if |file| < 0x40 || F16(file, 0) != 0x5a4d { return false; }
      var e: nat := F32(file, 0x3c);
      if !InFile(file, e, 24) || F32(file, e) != 0x4550 { return false; }
      var machine := F16(file, W32(e + 4));
      var nsec: nat, optsize: nat := F16(file, W32(e + 6)), F16(file, W32(e + 20));
      var opt := e + 24;
      if machine != 0x8664 || optsize < 112 || !InFile(file, opt, optsize) || F16(file, opt) != 0x20b { return false; }
      var hdrsize := F32(file, opt + 60);
      size := F32(file, opt + 56);
      var sectbl := opt + optsize;
      if size == 0 || size > 0x8000_0000 || hdrsize == 0 || hdrsize > size || hdrsize as int > |file|
         || !InFile(file, sectbl, nsec * 40) || F32(file, opt + 16) >= size { return false; }
      ok := CheckSections(sectbl, nsec);
      if !ok { return; }
      var dirs: nat := F32(file, opt + 108);
      ok := dirs <= 16 && 112 + dirs * 8 <= optsize;
    }

    method CheckSections(sectbl: nat, nsec: nat) returns (ok: bool)
      requires size == ImageSize(file)
      ensures ok == AllPlaced(file, SectionTable(file, sectbl, nsec))
    {
      ghost var all := SectionTable(file, sectbl, nsec);
      for i := 0 to nsec
        invariant AllPlaced(file, all[..i])
      {
        var s := SectionAt(file, sectbl + i * 40);
        assert s == all[i] && s in all && all[..i + 1] == all[..i] + [s];
        if s.vaddr > size || s.Span() as int > size as int - s.vaddr as int || !InFile(file, s.rawPtr, s.rawSize) {
          return false;
        }
      }
      assert all[..nsec] == all;
      ok := true;
    }

    /** mmap with MAP_FIXED over the reservation: fails on an empty range, on an unaligned address or offset,
        or when refused. */
    method Overlay(at: nat, len: nat, p: Prot, fd: seq<u8>, refused: bool) returns (ok: bool)
      requires len % PAGE == 0 && at + len <= bytes.Length && at + len <= |fd|
      requires prot.Length == PageCount(bytes.Length) && bytes as object != prot
      modifies bytes, prot
      ensures ok == (len > 0 && at % PAGE == 0 && !refused)
      ensures !ok ==> bytes[..] == old(bytes[..]) && prot[..] == old(prot[..])
      ensures ok ==> forall a :: 0 <= a < bytes.Length
                      ==> bytes[a] == if at <= a < at + len then fd[a] else old(bytes[a])
      ensures ok ==> forall q :: 0 <= q < prot.Length
                      ==> prot[q] == if at / PAGE <= q < (at + len) / PAGE then p else old(prot[q])
    {
      if len == 0 || at % PAGE != 0 || refused { return false; }
      forall a | at <= a < at + len { bytes[a] := fd[a]; }
      forall q | at / PAGE <= q < (at + len) / PAGE { prot[q] := p; }
      ok := true;
    }

    predicate Accessible(a: nat)
      reads this, prot
    {
      a / PAGE < prot.Length && prot[a / PAGE] != NoAccess
    }

    /** Every byte of [o, o + n) lies in the image and may be read. */
    ghost predicate Backed(o: nat, n: nat)
      reads this, prot
    {
      o + n <= size as int && forall a :: o <= a < o + n ==> Accessible(a)
    }

    predicate Writable(a: nat)
      reads this, prot
    {
      a / PAGE < prot.Length && prot[a / PAGE] == ReadWrite
    }

    // Memory accesses. A load outside mapped memory is a proof failure; whoever loads finds out first.

    function Load16(a: nat): u16
      requires Backed(a, 2) && bytes.Length == size as int
      reads this, prot, bytes
    {
      Read16(bytes[..], a)
    }

    function Load32(a: nat): u32
      requires Backed(a, 4) && bytes.Length == size as int
      reads this, prot, bytes
    {
      Read32(bytes[..], a)
    }

    function Load64(a: nat): u64
      requires Backed(a, 8) && bytes.Length == size as int
      reads this, prot, bytes
    {
      Read64(bytes[..], a)
    }

    function View(a: nat, n: nat): seq<u8>
      requires Backed(a, n) && bytes.Length == size as int
      reads this, prot, bytes
    {
      bytes[a..a + n]
    }

    method Store64(a: nat, v: u64) returns (ok: bool)
      requires a + 8 <= bytes.Length
      modifies bytes
      ensures ok == (Writable(a) && Writable(a + 7))
      ensures bytes[..] == if ok then Put(old(bytes[..]), a, Le64(v)) else old(bytes[..])
    {
      if !(Writable(a) && Writable(a + 7)) { return false; }
      var d := Le64(v);
      forall k | 0 <= k < 8 { bytes[a + k] := d[k]; }
      ok := true;
    }

    /** The state a successful mapping phase leaves. */
    ghost predicate Mapped()
      reads this, prot
    {
      && base == ImageBase(file) && LoaderAccepts(file) && size == ImageSize(file)
      && bytes.Length == size as int && prot.Length == PageCount(size)
      && PageUp32(HeaderSize(file)) <= size
      && (forall s :: s in Sections(file) ==> OverlayOk(size, s, false))
      && forall q :: 0 <= q < prot.Length ==> prot[q] == PageProt(HeaderSize(file), Sections(file), q)
    }

    /** Where the mapping phase stands: the headers and the sections in `done` are overlaid on the reservation. */
    ghost predicate Overlaid(done: seq<Section>, sidecar: seq<u8>)
      reads this, bytes, prot
    {
      && base == ImageBase(file) && bytes.Length == size as int == |sidecar| && prot.Length == PageCount(size)
      && (forall q :: 0 <= q < prot.Length ==> prot[q] == PageProt(HeaderSize(file), done, q))
      && forall a :: 0 <= a < bytes.Length && Accessible(a) ==> bytes[a] == sidecar[a]
    }

    method MapSection(s: Section, sidecar: seq<u8>, refused: bool, ghost done: seq<Section>) returns (ok: bool)
      requires Overlaid(done, sidecar)
      modifies bytes, prot
      ensures ok == OverlayOk(size, s, refused)
      ensures ok ==> Overlaid(done + [s], sidecar)
    {
      var seglen := PageUp32(s.Span());
      if s.Span() > 0xffff_f000 || s.vaddr > size || seglen as int > size as int - s.vaddr as int { return false; }
      assert (done + [s])[..|done|] == done;
      if seglen == 0 { return true; }
      ok := Overlay(s.vaddr, seglen, SectionProt(s), sidecar, refused);
    }

    /** Check the sidecar's size, reserve the preferred base and overlay the headers. */
    method MapHeaders(sidecar: seq<u8>, refused: set<nat>) returns (ok: bool)
      requires 0 < HeaderSize(file)
      modifies `base, `bytes, `prot
      ensures ok <==> |sidecar| == size as int && ImageBase(file) % PAGE == 0 && PageUp32(HeaderSize(file)) <= size
                      && HeaderSize(file) <= 0xffff_f000 && 0 !in refused && 1 !in refused
      ensures ok ==> Overlaid([], sidecar) && fresh(bytes) && fresh(prot)
    {
      if |sidecar| != size as int || ImageBase(file) % PAGE != 0 || 0 in refused { return false; }
      bytes, prot := new u8[size](_ => 0), new Prot[PageCount(size)](_ => NoAccess);
      base := ImageBase(file);
      var hdrmap := PageUp32(HeaderSize(file));
      if hdrmap > size { return false; }
      ok := Overlay(0, hdrmap, ReadOnly, sidecar, 1 in refused);
    }

    /** The mapping phase of load_pe. Every byte it makes accessible shows the sidecar. */
    method MapImage(sidecar: seq<u8>, refused: set<nat>) returns (ok: bool)
      requires LoaderAccepts(file) && size == ImageSize(file)
      modifies `base, `bytes, `prot
      ensures ok <==> |sidecar| == ImageSize(file) as int && MapsOk(file, refused)
      ensures ok ==> Mapped() && fresh(bytes) && fresh(prot)
      ensures ok ==> forall a :: 0 <= a < bytes.Length && Accessible(a) ==> bytes[a] == sidecar[a]
    {
      hide OverlaysOk, PageProt;
      assert HeaderSize(file) <= 0xffff_f000;
      ok := MapHeaders(sidecar, refused);
      if !ok { return; }
      ok := MapSections(sidecar, refused);
      if ok { AllOverlaysOk(size, Sections(file), refused); }
    }

    /** The section loop of the mapping phase. */
    method MapSections(sidecar: seq<u8>, refused: set<nat>) returns (ok: bool)
      requires Overlaid([], sidecar)
      modifies bytes, prot
      ensures ok <==> OverlaysOk(size, Sections(file), refused, |Sections(file)|)
      ensures ok ==> Overlaid(Sections(file), sidecar)
    {
      hide Overlaid, OverlayOk, PageUp32;
      ghost var all := Sections(file);
      var sectbl, nsec: nat := Opt(file) + OptSize(file) as int, NumSecs(file);
      for i := 0 to nsec
        invariant Overlaid(all[..i], sidecar)
        invariant OverlaysOk(size, all, refused, i)
      {
        var s := SectionAt(file, sectbl + i * 40);
        assert s == all[i] && all[..i + 1] == all[..i] + [s];
        ok := MapSection(s, sidecar, i + 2 in refused, all[..i]);
        if !ok {
          if OverlaysOk(size, all, refused, nsec) { OverlaysOkMono(size, all, refused, i + 1, nsec); }
          return;
        }
      }
      assert all[..nsec] == all;
      ok := true;
    }

    /** Furthest limit among the sections covering cursor: the inner loop of the three walks. */
    method SectionReach(cursor: nat) returns (reach: nat)
      ensures reach > cursor <==> SectionCovers(Sections(file), cursor)
      ensures forall a :: cursor <= a < reach ==> SectionCovers(Sections(file), a)
    {
      ghost var all := Sections(file);
      var sectbl, nsec: nat := Opt(file) + OptSize(file) as int, NumSecs(file);
      reach := 0;
      for i := 0 to nsec
        invariant reach > 0 ==> exists s :: s in all && s.OnPages(cursor) && s.Limit() == reach
        invariant forall k :: 0 <= k < i && all[k].OnPages(cursor) ==> all[k].Limit() <= reach
      {
        var s := SectionAt(file, sectbl + i * 40);
        assert s == all[i] && s in all;
        if s.OnPages(cursor) && s.Limit() > reach { reach := s.Limit(); }
      }
    }

    /** Does [o, o + n) lie in mapped regions? */
    method ImageRange(o: nat, n: nat) returns (ok: bool)
      ensures ok == (base != 0 && Usable(file, size, o, n))
    {
      if base == 0 || o > size as int || n > size as int - o { return false; }
      var end, cursor := o + n, o;
      while cursor < end
        invariant o <= cursor <= end
        invariant forall a :: o <= a < cursor ==> WalkCovers(file, a)
        decreases end - cursor
      {
        var hdrmap := PageUp(WalkHeaderSize(file));
        var regionEnd := hdrmap;
        if cursor >= hdrmap { regionEnd := SectionReach(cursor); }
        if regionEnd <= cursor {
          assert !WalkCovers(file, cursor);
          return false;
        }
        cursor := if regionEnd < end then regionEnd else end;
      }
      ok := true;
    }

    /** Despite its name it tests coverage by sections, not their flags. */
    method ImageWritableRange(o: nat, n: nat) returns (ok: bool)
      ensures ok <==> base != 0 && Usable(file, size, o, n)
                      && forall a :: o <= a < o + n ==> SectionCovers(Sections(file), a)
    {
      ok := ImageRange(o, n);
      if !ok { return; }
      var end, cursor := o + n, o;
      while cursor < end
        invariant o <= cursor <= end
        invariant forall a :: o <= a < cursor ==> SectionCovers(Sections(file), a)
        decreases end - cursor
      {
        var best := SectionReach(cursor);
        if best <= cursor {
          assert !SectionCovers(Sections(file), cursor);
          return false;
        }
        cursor := if best < end then best else end;
      }
    }

    method ReadableRangeLength(o: nat) returns (n: nat)
      ensures n == if base != 0 then ReadableLength(file, size, o) else 0
    {
      hide Usable, PageUp, HeaderSize, ReachFrom;
      var ok := ImageRange(o, 1);
      if !ok { return 0; }
      ghost var all := Sections(file);
      var sectbl, nsec: nat := Opt(file) + OptSize(file) as int, NumSecs(file);
      var hdrmap := PageUp(HeaderSize(file));
      ghost var least := if o < hdrmap then hdrmap else 0;
      var limit := if o < hdrmap then hdrmap else 0;
      ReachNone(o, least);
      for i := 0 to nsec
        invariant limit == ReachFrom(all[..i], o, least)
      {
        var s := SectionAt(file, sectbl + i * 40);
        assert s == all[i];
        ReachNext(all, i, o, least);
        if s.Readable() && o >= s.vaddr as int && o < s.Limit() && s.Limit() > limit { limit := s.Limit(); }
      }
      assert all[..nsec] == all;
      n := if limit > o then limit - o else 0;
    }
  }
}
