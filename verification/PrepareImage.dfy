/** The offline step (scripts/prepare-engine-image.py): lay a PE file out by RVA. */
module PrepareImage {
  import opened Bytes
  import opened PeFile

  /** Python's `s[lo:hi] = d` on a bytearray: bounds are clamped and the length may change. */
  function SliceAssign(s: seq<u8>, lo: nat, hi: nat, d: seq<u8>): seq<u8> {
    var l := if lo <= |s| then lo else |s|;
    var h := if hi <= |s| then hi else |s|;
    s[..l] + d + s[if h < l then l else h..]
  }

  /** Python's `s[lo:hi]`. */
  function Slice(s: seq<u8>, lo: nat, hi: nat): seq<u8> {
    var h := if hi <= |s| then hi else |s|;
    if lo < h then s[lo..h] else []
  }

  /** The image the script writes for an accepted file. */
  ghost function Reference(raw: seq<u8>): (r: seq<u8>)
    requires PrepareAccepts(raw)
    ensures |r| == ImageSize(raw)
  {
    seq(ImageSize(raw) as int, a requires 0 <= a => LaidOut(raw, HeaderSize(raw), ExactSections(raw), a))
  }

  /** The layout half of prepare(): copy the headers, then each section's raw data in table order. */
  method Lay(raw: seq<u8>, imageSize: nat, headerSize: nat, sections: seq<Section>) returns (image: seq<u8>)
    requires headerSize <= imageSize && headerSize <= |raw|
    requires forall s :: s in sections ==> RawInFile(raw, s) && s.vaddr as int + s.rawSize as int <= imageSize
    ensures |image| == imageSize
    ensures forall a :: 0 <= a < imageSize ==> image[a] == LaidOut(raw, headerSize, sections, a)
  {
    image := seq(imageSize, _ => 0);
    image := SliceAssign(image, 0, headerSize, Slice(raw, 0, headerSize));
    for index := 0 to |sections|
      invariant |image| == imageSize
      invariant forall a :: 0 <= a < imageSize ==> image[a] == LaidOut(raw, headerSize, sections[..index], a)
    {
      var s := sections[index];
      var data := Slice(raw, s.rawPtr, s.rawPtr as int + s.rawSize as int);
      var next := SliceAssign(image, s.vaddr, s.vaddr as int + s.rawSize as int, data);
      assert sections[..index + 1][..index] == sections[..index];
      forall a | 0 <= a < imageSize
        ensures |next| == imageSize && next[a] == LaidOut(raw, headerSize, sections[..index + 1], a)
      {
        if s.OnRaw(a) { assert next[a] == data[a - s.vaddr as int]; }
      }
      image := next;
    }
    assert sections[..|sections|] == sections;
  }

  /** prepare(): None stands for the InvalidPE exception. */
  method Prepare(raw: seq<u8>) returns (r: Option<seq<u8>>)
    ensures r.Some? <==> PrepareAccepts(raw)
    ensures r.Some? ==> r.value == Reference(raw)
  {
    hide F16, F32;
    if !InFile(raw, 0, 0x40) || F16(raw, 0) != 0x5a4d { return None; }
    var pe: nat := F32(raw, 0x3c);
    if !InFile(raw, pe, 24) || F32(raw, pe) != 0x4550 { return None; }
    var machine := F16(raw, pe + 4);
    var nsec: nat, optsz: nat := F16(raw, pe + 6), F16(raw, pe + 20);
    var opt := pe + 24;
    if !InFile(raw, opt, optsz) { return None; }
    if machine != 0x8664 || optsz < 112 || F16(raw, opt) != 0x20b { return None; }
    var imageSize, headerSize := F32(raw, opt + 56), F32(raw, opt + 60);
    if imageSize == 0 || headerSize == 0 || headerSize > imageSize || headerSize as int > |raw| { return None; }
    var sectbl := opt + optsz;
    if !InFile(raw, sectbl, nsec * 40) { return None; }
    ghost var all := ExactSections(raw);
    var sections: seq<Section> := [];
    for index := 0 to nsec
      invariant sections == all[..index]
      invariant AllPlaced(raw, sections)
    {
      var s := SectionAt(raw, sectbl + 40 * index);
      assert s == all[index] && s in all;
      if s.vaddr > imageSize || s.Span() as int > imageSize as int - s.vaddr as int { return None; }
      if !InFile(raw, s.rawPtr, s.rawSize) { return None; }
      sections := sections + [s];
    }
    assert sections == all;
    var image := Lay(raw, imageSize, headerSize, sections);
    r := Some(image);
  }

  // ---- the order of the section table does not matter when raw ranges are disjoint ----

  ghost predicate RawDisjoint(secs: seq<Section>) {
    forall i, j, a: nat :: 0 <= i < j < |secs| ==> !(secs[i].OnRaw(a) && secs[j].OnRaw(a))
  }

  /** The last section covering a, or |secs| when none does. */
  function LastIndex(secs: seq<Section>, a: nat): (i: nat)
    ensures i < |secs| ==> LastCover(secs, i, a)
    ensures i >= |secs| ==> forall k :: 0 <= k < |secs| ==> !secs[k].OnRaw(a)
  {
    if secs == [] then 0
    else if secs[|secs| - 1].OnRaw(a) then |secs| - 1
    else
      var i := LastIndex(secs[..|secs| - 1], a);
      if i < |secs| - 1 then i else |secs|
  }

  lemma SameMembers(s: seq<Section>, t: seq<Section>)
    requires multiset(s) == multiset(t)
    ensures |s| == |t| && forall x :: x in s <==> x in t
  {
    assert |s| == |multiset(s)| && |t| == |multiset(t)|;
    forall x ensures x in s <==> x in t {
      assert x in s <==> x in multiset(s);
      assert x in t <==> x in multiset(t);
    }
  }

  /** Rows in any order give the same byte at every RVA, provided their raw ranges do not overlap. */
  lemma OrderIrrelevant(f: seq<u8>, hdr: nat, secs: seq<Section>, perm: seq<Section>, a: nat)
    requires hdr <= |f|
    requires forall s :: s in secs ==> RawInFile(f, s)
    requires multiset(secs) == multiset(perm) && RawDisjoint(secs)
    ensures forall s :: s in perm ==> RawInFile(f, s)
    ensures LaidOut(f, hdr, secs, a) == LaidOut(f, hdr, perm, a)
  {
    SameMembers(secs, perm);
    var i, j := LastIndex(secs, a), LastIndex(perm, a);
    if i < |secs| {
      assert secs[i] in perm;
      LaidOutIsLastCover(f, hdr, secs, i, a);
      LaidOutIsLastCover(f, hdr, perm, j, a);
      assert perm[j] in secs;
      var k :| 0 <= k < |secs| && secs[k] == perm[j];
      assert k == i;
    } else {
      LaidOutUncovered(f, hdr, secs, a);
      assert forall s :: s in perm ==> !s.OnRaw(a);
      LaidOutUncovered(f, hdr, perm, a);
    }
  }

  // ---- files whose section tables are permutations of each other ----

  ghost predicate SameOutside(f: seq<u8>, g: seq<u8>, lo: nat, hi: nat) {
    |f| == |g| && forall k :: 0 <= k < |f| && !(lo <= k < hi) ==> f[k] == g[k]
  }

  lemma SameFields(f: seq<u8>, g: seq<u8>, lo: nat, hi: nat, o: nat)
    requires SameOutside(f, g, lo, hi)
    ensures o + 2 <= lo ==> F16(f, o) == F16(g, o)
    ensures o + 4 <= lo ==> F32(f, o) == F32(g, o)
  {
  }

  function TableStart(f: seq<u8>): nat { Opt(f) + OptSizeAt(f, Lfanew(f)) as int }

  function TableEnd(f: seq<u8>): nat { TableStart(f) + 40 * (NumSecsAt(f, Lfanew(f)) as int) }

  /** Raw data of every section lies outside the section table itself. */
  ghost predicate DataOutsideTable(f: seq<u8>) {
    forall s :: s in ExactSections(f) ==> s.rawPtr as int + s.rawSize as int <= TableStart(f) || TableEnd(f) <= s.rawPtr
  }

  lemma SameHeaders(f: seq<u8>, g: seq<u8>)
    requires PrepareAccepts(f) && SameOutside(f, g, TableStart(f), TableEnd(f))
    ensures Lfanew(g) == Lfanew(f) && F16(g, 0) == F16(f, 0) && F32(g, Lfanew(f)) == F32(f, Lfanew(f))
    ensures MachineAt(g, Lfanew(f)) == MachineAt(f, Lfanew(f)) && NumSecsAt(g, Lfanew(f)) == NumSecsAt(f, Lfanew(f))
    ensures OptSizeAt(g, Lfanew(f)) == OptSizeAt(f, Lfanew(f)) && F16(g, Opt(f)) == F16(f, Opt(f))
    ensures ImageSize(g) == ImageSize(f) && HeaderSize(g) == HeaderSize(f)
  {
    var lo, hi, e := TableStart(f), TableEnd(f), Lfanew(f) as int;
    SameFields(f, g, lo, hi, 0);
    SameFields(f, g, lo, hi, 0x3c);
    SameFields(f, g, lo, hi, e);
    SameFields(f, g, lo, hi, e + 4);
    SameFields(f, g, lo, hi, e + 6);
    SameFields(f, g, lo, hi, e + 20);
    SameFields(f, g, lo, hi, e + 24);
    SameFields(f, g, lo, hi, e + 80);
    SameFields(f, g, lo, hi, e + 84);
  }

  /** Permuting the rows of an accepted file's section table gives another accepted file, and its image is the
      same wherever it does not show the table itself. */
  lemma PermutedTable(f: seq<u8>, g: seq<u8>)
    requires PrepareAccepts(f) && SameOutside(f, g, TableStart(f), TableEnd(f))
    requires multiset(ExactSections(f)) == multiset(ExactSections(g))
    requires RawDisjoint(ExactSections(f)) && DataOutsideTable(f)
    ensures PrepareAccepts(g) && ImageSize(g) == ImageSize(f)
    ensures forall a :: 0 <= a < ImageSize(f) as int && !(TableStart(f) <= a < TableEnd(f))
                        ==> Reference(f)[a] == Reference(g)[a]
  {
    var lo, hi := TableStart(f), TableEnd(f);
    SameHeaders(f, g);
    var secs, perm := ExactSections(f), ExactSections(g);
    SameMembers(secs, perm);
    forall a | 0 <= a < ImageSize(f) as int && !(lo <= a < hi)
      ensures Reference(f)[a] == Reference(g)[a]
    {
      OrderIrrelevant(f, HeaderSize(f), secs, perm, a);
      SameLayout(f, g, HeaderSize(f), perm, a, lo, hi);
    }
  }

  lemma {:induction false} SameLayout(f: seq<u8>, g: seq<u8>, hdr: nat, secs: seq<Section>, a: nat, lo: nat, hi: nat)
    requires SameOutside(f, g, lo, hi) && hdr <= |f| && !(lo <= a < hi)
    requires forall s :: s in secs ==> RawInFile(f, s) && (s.rawPtr as int + s.rawSize as int <= lo || hi <= s.rawPtr)
    ensures LaidOut(f, hdr, secs, a) == LaidOut(g, hdr, secs, a)
  {
    if secs != [] {
      SameLayout(f, g, hdr, secs[..|secs| - 1], a, lo, hi);
    }
  }

  // ---- what the loader accepts, the script accepts ----

  /** The loader's u32 sums that locate the COFF header fields do not wrap. */
  predicate CoffOffsetsFit(f: seq<u8>) {
    Lfanew(f) as int + 20 < 0x1_0000_0000
  }

  lemma CoffFieldsExact(f: seq<u8>)
    requires CoffOffsetsFit(f)
    ensures Machine(f) == MachineAt(f, Lfanew(f)) && NumSecs(f) == NumSecsAt(f, Lfanew(f))
    ensures OptSize(f) == OptSizeAt(f, Lfanew(f)) && Sections(f) == ExactSections(f)
  {
  }

  /** Every file the loader accepts is accepted by the script, which then writes a sidecar of exactly the size
      the loader asks for, and both sides read the same section table, while no sum wraps. */
  lemma LoaderImpliesPrepare(f: seq<u8>)
    requires LoaderAccepts(f) && CoffOffsetsFit(f)
    ensures PrepareAccepts(f) && |Reference(f)| == ImageSize(f)
    ensures Sections(f) == ExactSections(f)
  {
    CoffFieldsExact(f);
  }

  // ---- files of 4 GiB and more, on which the wrapped reads go wrong ----

  /** The first header offset whose sum with 20 wraps. */
  const WRAP: nat := 0xffff_ffec

  /** Where the wrapped sums land: the loader reads the size of the optional header at k, and once k is large enough
      also the section count and the machine, all below the header offset field. */
  function LowByte(k: nat, i: nat): u8 {
    if i == 0 then 0x4d else if i == 1 then 0x5a
    else if k >= 18 && i == k - 16 then 0x64
    else if k >= 18 && i == k - 15 then 0x86
    else if k == 1 && i == 2 then 1
    else if k >= 2 && i == k then 0x80
    else 0
  }

  function HighByte(i: nat): u8 {
    if i == 0 then 0x50 else if i == 1 then 0x45
    else if i == 4 then 0x64 else if i == 5 then 0x86
    else if i == 24 then 0x0b else if i == 25 then 0x02
    else if i == 81 || i == 85 then 0x10
    else 0
  }

  function WrappingByte(k: nat, i: nat): u8
    requires k < 20
  {
    if i < 0x3c then LowByte(k, i)
    else if i == 0x3c then 0xec + k
    else if i < 0x40 then 0xff
    else if i < WRAP + k then 0
    else HighByte(i - (WRAP + k))
  }

  const TAIL: nat := 0x10_0000

  /** A file whose PE header starts at WRAP + k. The true size of its optional header is zero. */
  function WrappingFile(k: nat): (f: seq<u8>)
    requires k < 20
    ensures |f| == WRAP + TAIL
  {
    seq(WRAP + TAIL, i requires 0 <= i => WrappingByte(k, i))
  }

  lemma WrappingFileAt(k: nat, i: nat)
    requires k < 20 && i < WRAP + TAIL
    ensures WrappingFile(k)[i] == WrappingByte(k, i)
  {
  }

  lemma Field16(k: nat, o: nat)
    requires k < 20 && o + 2 <= WRAP + TAIL
    ensures F16(WrappingFile(k), o) == WrappingByte(k, o) as int + 0x100 * (WrappingByte(k, o + 1) as int)
  {
    hide WrappingByte, WrappingFile;
    WrappingFileAt(k, o);
    WrappingFileAt(k, o + 1);
  }

  lemma Field32(k: nat, o: nat)
    requires k < 20 && o + 4 <= WRAP + TAIL
    ensures F32(WrappingFile(k), o)
            == WrappingByte(k, o) as int + 0x100 * (WrappingByte(k, o + 1) as int)
               + 0x1_0000 * (WrappingByte(k, o + 2) as int) + 0x100_0000 * (WrappingByte(k, o + 3) as int)
  {
    hide WrappingByte, WrappingFile;
    WrappingFileAt(k, o);
    WrappingFileAt(k, o + 1);
    WrappingFileAt(k, o + 2);
    WrappingFileAt(k, o + 3);
  }

  lemma WrappingStart(k: nat)
    requires k < 20
    ensures var f := WrappingFile(k); Lfanew(f) == WRAP + k && F16(f, 0) == 0x5a4d
  {
    hide WrappingFile;
    Field32(k, 0x3c);
    Field16(k, 0);
  }

  lemma WrappingHeader(k: nat)
    requires k < 20
    ensures var f, e := WrappingFile(k), WRAP + k;
            && F32(f, e) == 0x4550 && F16(f, e + 20) == 0 && F16(f, e + 24) == 0x20b && F32(f, e + 40) == 0
            && F32(f, e + 80) == 0x1000 && F32(f, e + 84) == 0x1000 && F32(f, e + 132) == 0
  {
    hide WrappingFile;
    var e := WRAP + k;
    Field32(k, e);
    Field16(k, e + 20);
    Field16(k, e + 24);
    Field32(k, e + 40);
    Field32(k, e + 80);
    Field32(k, e + 84);
    Field32(k, e + 132);
  }

  /** What the loader takes for the COFF fields. */
  lemma WrappingCoff(k: nat)
    requires k < 20 && k != 16 && k != 17
    ensures var f := WrappingFile(k); Machine(f) == 0x8664 && 112 <= OptSize(f) <= 0x5a4d && NumSecs(f) <= 0x5a4d
  {
    hide WrappingFile, F16;
    var e := WRAP + k;
    WrappingStart(k);
    Field16(k, W32(e + 4));
    Field16(k, W32(e + 6));
    Field16(k, W32(e + 20));
  }

  /** Its section rows, however many there seem to be, are all zero. */
  lemma WrappingRows(k: nat, o: nat)
    requires k < 20 && WRAP + k + 136 <= o && o + 40 <= WRAP + TAIL
    ensures SectionAt(WrappingFile(k), o) == Section(0, 0, 0, 0, 0)
  {
    hide WrappingFile;
    Field32(k, o + 8);
    Field32(k, o + 12);
    Field32(k, o + 16);
    Field32(k, o + 20);
    Field32(k, o + 36);
  }

  lemma WrappingTable(k: nat)
    requires k < 20 && k != 16 && k != 17
    ensures var f := WrappingFile(k);
            AllPlaced(f, Sections(f)) && InFile(f, Opt(f) + OptSize(f) as int, NumSecs(f) as int * 40)
  {
    hide WrappingFile, SectionAt, OptSize, NumSecs;
    var f := WrappingFile(k);
    WrappingStart(k);
    WrappingHeader(k);
    WrappingCoff(k);
    forall s | s in Sections(f) ensures Placed(f, ImageSize(f), s) {
      var i :| 0 <= i < |Sections(f)| && Sections(f)[i] == s;
      WrappingRows(k, Opt(f) + OptSize(f) as int + 40 * i);
    }
  }

  /** The loader accepts it, the script does not. */
  lemma WrappingFileRejected(k: nat)
    requires k < 20 && k != 16 && k != 17
    ensures var f := WrappingFile(k); Lfanew(f) == WRAP + k && LoaderAccepts(f) && !PrepareAccepts(f)
  {
    hide WrappingFile, F16, F32, AllPlaced;
    WrappingStart(k);
    WrappingHeader(k);
    WrappingCoff(k);
    WrappingTable(k);
  }

  /** Two offsets put the machine field over the DOS signature, which it cannot match. */
  lemma MachineOverSignature(f: seq<u8>)
    requires Lfanew(f) == WRAP + 16 || Lfanew(f) == WRAP + 17
    ensures !LoaderAccepts(f)
  {
  }

  /** The script accepts every file that the loader accepts and whose PE header starts at e, exactly when the loader's
      sums do not wrap there, or wrap so that it accepts no file at all. */
  lemma LoaderImpliesPrepareExactly(e: u32)
    ensures (forall f: seq<u8> :: Lfanew(f) == e && LoaderAccepts(f) ==> PrepareAccepts(f))
            <==> e < WRAP || e == WRAP + 16 || e == WRAP + 17
  {
    hide LoaderAccepts, PrepareAccepts, WrappingFile;
    if e < WRAP || e == WRAP + 16 || e == WRAP + 17 {
      forall f: seq<u8> | Lfanew(f) == e && LoaderAccepts(f) ensures PrepareAccepts(f) {
        if e < WRAP { LoaderImpliesPrepare(f); } else { MachineOverSignature(f); }
      }
    } else {
      WrappingFileRejected(e as int - WRAP);
      var f := WrappingFile(e as int - WRAP);
      assert Lfanew(f) == e && LoaderAccepts(f) && !PrepareAccepts(f);
    }
  }
}
