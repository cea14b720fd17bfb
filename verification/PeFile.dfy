/** Header fields and section table of a PE32+ file (Microsoft PE/COFF specification, sections 3.4 and 4). */
module PeFile {
  import opened Bytes

  /** One row of the section table; the columns nobody reads are left out. */
  datatype Section = Section(vsize: u32, vaddr: u32, rawSize: u32, rawPtr: u32, chars: u32) {
    /** Bytes the section occupies in memory: the larger of its two sizes. */
    function Span(): u32 {
      if rawSize > vsize then rawSize else vsize
    }

    /** End of the page-rounded interval the section occupies in memory. */
    function Limit(): nat {
      vaddr as int + PageUp(Span())
    }

    predicate OnPages(a: nat) {
      vaddr <= a < Limit()
    }

    predicate OnRaw(a: nat) {
      vaddr as int <= a < vaddr as int + rawSize as int
    }

    predicate Executable() { chars / 0x2000_0000 % 2 == 1 }

    predicate Readable() { chars / 0x4000_0000 % 2 == 1 }
  }

  predicate InFile(f: seq<u8>, o: nat, n: nat) {
    o <= |f| && n <= |f| - o
  }

  /** The loader's f16, f32 and f64: a field that is not wholly inside the file reads as zero. */
  function F16(f: seq<u8>, o: nat): u16 {
    if InFile(f, o, 2) then Read16(f, o) else 0
  }

  function F32(f: seq<u8>, o: nat): u32 {
    if InFile(f, o, 4) then Read32(f, o) else 0
  }

  function F64(f: seq<u8>, o: nat): u64 {
    if InFile(f, o, 8) then Read64(f, o) else 0
  }

  function Lfanew(f: seq<u8>): u32 { F32(f, 0x3c) }

  function Opt(f: seq<u8>): nat { Lfanew(f) as int + 24 }

  // COFF header fields at their true offsets, as the offline script reads them.
  function MachineAt(f: seq<u8>, e: nat): u16 { F16(f, e + 4) }

  function NumSecsAt(f: seq<u8>, e: nat): u16 { F16(f, e + 6) }

  function OptSizeAt(f: seq<u8>, e: nat): u16 { F16(f, e + 20) }

  // The same fields as the loader reads them: the offset is a u32 sum and wraps.
  function Machine(f: seq<u8>): u16 { F16(f, W32(Lfanew(f) + 4)) }

  function NumSecs(f: seq<u8>): u16 { F16(f, W32(Lfanew(f) as int + 6)) }

  function OptSize(f: seq<u8>): u16 { F16(f, W32(Lfanew(f) as int + 20)) }

  // Optional header fields.
  function ImageBase(f: seq<u8>): u64 { F64(f, Opt(f) + 24) }

  function Entry(f: seq<u8>): u32 { F32(f, Opt(f) + 16) }

  function ImageSize(f: seq<u8>): u32 { F32(f, Opt(f) + 56) }

  function HeaderSize(f: seq<u8>): u32 { F32(f, Opt(f) + 60) }

  function NumDirs(f: seq<u8>): u32 { F32(f, Opt(f) + 108) }

  function SectionAt(f: seq<u8>, s: nat): Section {
    Section(F32(f, s + 8), F32(f, s + 12), F32(f, s + 16), F32(f, s + 20), F32(f, s + 36))
  }

  function SectionTable(f: seq<u8>, tbl: nat, n: nat): (r: seq<Section>)
    ensures |r| == n
  {
    seq(n, i requires 0 <= i < n => SectionAt(f, tbl + 40 * i))
  }

  /** The section table as the loader walks it. */
  function Sections(f: seq<u8>): seq<Section> {
    SectionTable(f, Opt(f) + OptSize(f) as int, NumSecs(f) as int)
  }

  /** The section table as the offline script walks it. */
  function ExactSections(f: seq<u8>): seq<Section> {
    SectionTable(f, Opt(f) + OptSizeAt(f, Lfanew(f)) as int, NumSecsAt(f, Lfanew(f)) as int)
  }

  /** A section lies inside the image, and its raw data inside the file. */
  predicate Placed(f: seq<u8>, size: u32, s: Section) {
    && s.vaddr <= size
    && s.Span() as int <= size as int - s.vaddr as int
    && InFile(f, s.rawPtr, s.rawSize)
  }

  /** The checks both sides make on the DOS, COFF and optional headers, given the COFF fields they read. */
  predicate HeadersOk(f: seq<u8>, machine: u16, nsec: u16, optSize: u16) {
    && |f| >= 0x40
    && F16(f, 0) == 0x5a4d
    && InFile(f, Lfanew(f), 24) && F32(f, Lfanew(f)) == 0x4550
    && machine == 0x8664 && optSize >= 112
    && InFile(f, Opt(f), optSize) && F16(f, Opt(f)) == 0x20b
    && 0 < ImageSize(f)
    && 0 < HeaderSize(f) <= ImageSize(f) && HeaderSize(f) as int <= |f|
    && InFile(f, Opt(f) + optSize as int, nsec as int * 40)
  }

  predicate AllPlaced(f: seq<u8>, secs: seq<Section>) {
    forall s :: s in secs ==> Placed(f, ImageSize(f), s)
  }

  /** Everything load_pe checks before it opens the sidecar. */
  predicate LoaderAccepts(f: seq<u8>) {
    && HeadersOk(f, Machine(f), NumSecs(f), OptSize(f))
    && ImageSize(f) <= 0x8000_0000 && Entry(f) < ImageSize(f)
    && AllPlaced(f, Sections(f))
    && NumDirs(f) <= 16 && 112 + NumDirs(f) as int * 8 <= OptSize(f) as int
  }

  /** Everything the offline script checks before it lays the image out. */
  predicate PrepareAccepts(f: seq<u8>) {
    && HeadersOk(f, MachineAt(f, Lfanew(f)), NumSecsAt(f, Lfanew(f)), OptSizeAt(f, Lfanew(f)))
    && AllPlaced(f, ExactSections(f))
  }

  predicate RawInFile(f: seq<u8>, s: Section) {
    InFile(f, s.rawPtr, s.rawSize)
  }

  /** The file byte a section puts at RVA a. */
  function RawByte(f: seq<u8>, s: Section, a: nat): u8
    requires RawInFile(f, s) && s.OnRaw(a)
  {
    f[s.rawPtr as int + (a - s.vaddr as int)]
  }

  /** Byte a of the image before imports are bound: the last section whose raw data covers it, else the
      copied headers, else zero. */
  function LaidOut(f: seq<u8>, hdr: nat, secs: seq<Section>, a: nat): u8
    requires hdr <= |f|
    requires forall s :: s in secs ==> RawInFile(f, s)
  {
    if secs == [] then
      if a < hdr then f[a] else 0
    else if secs[|secs| - 1].OnRaw(a) then
      RawByte(f, secs[|secs| - 1], a)
    else
      LaidOut(f, hdr, secs[..|secs| - 1], a)
  }

  /** Section i decides byte a: it covers a and no later section does. */
  predicate LastCover(secs: seq<Section>, i: nat, a: nat) {
    i < |secs| && secs[i].OnRaw(a) && forall k :: i < k < |secs| ==> !secs[k].OnRaw(a)
  }

  lemma {:induction false} LaidOutIsLastCover(f: seq<u8>, hdr: nat, secs: seq<Section>, i: nat, a: nat)
    requires hdr <= |f|
    requires forall s :: s in secs ==> RawInFile(f, s)
    requires LastCover(secs, i, a)
    ensures LaidOut(f, hdr, secs, a) == RawByte(f, secs[i], a)
  {
    if i < |secs| - 1 {
      LaidOutIsLastCover(f, hdr, secs[..|secs| - 1], i, a);
    }
  }

  lemma {:induction false} LaidOutUncovered(f: seq<u8>, hdr: nat, secs: seq<Section>, a: nat)
    requires hdr <= |f|
    requires forall s :: s in secs ==> RawInFile(f, s)
    requires forall s :: s in secs ==> !s.OnRaw(a)
    ensures LaidOut(f, hdr, secs, a) == if a < hdr then f[a] else 0
  {
    if secs != [] {
      LaidOutUncovered(f, hdr, secs[..|secs| - 1], a);
    }
  }
}
