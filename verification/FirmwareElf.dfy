/** Extraction of the embedded firmware from an ELF shared object (read_firmware of scripts/extract-firmware.py). */
module FirmwareElf {
  import opened Bytes
  import opened SymbolListing

  const SYMBOL: string := "FOCALFP_9338_FW_APP"

  predicate Named(r: Row) { r != [] && r[|r| - 1] == SYMBOL }

  // ---- hexadecimal numbers, as Python's int(s, 16) reads them ----

  /** One or more digits; single underscores may stand between them. */
  function HexDigits(s: string): Option<nat> {
    if s == [] then None
    else
      var d := HexValue(s[|s| - 1]);
      if |s| == 1 || d.None? then d
      else
        var high := HexDigits(if s[|s| - 2] == '_' then s[..|s| - 2] else s[..|s| - 1]);
        if high.None? then None else Some(16 * high.value + d.value)
  }

  /** An optional sign, an optional prefix, which one underscore may follow, and digits. */
  function HexNumber(s: string): Option<int> {
    var signed := s != [] && (s[0] == '-' || s[0] == '+');
    var u := if signed then s[1..] else s;
    var prefixed := |u| >= 2 && u[0] == '0' && (u[1] == 'x' || u[1] == 'X');
    var v := if !prefixed then u else if |u| >= 3 && u[2] == '_' then u[3..] else u[2..];
    var n := HexDigits(v);
    if n.None? then None else Some(if signed && s[0] == '-' then -(n.value as int) else n.value)
  }

  /** n in k digits, zero-padded, as the listing tool prints addresses and sizes. */
  function HexText(n: nat, k: nat): string
    requires k > 0
  {
    var c := HexDigit(n % 16);
    if k == 1 then [c] else HexText(n / 16, k - 1) + [c]
  }

  predicate FitsDigits(n: nat, k: nat)
    requires k > 0
  {
    if k == 1 then n < 16 else FitsDigits(n / 16, k - 1)
  }

  lemma {:induction false} HexBack(n: nat, k: nat)
    requires k > 0 && FitsDigits(n, k)
    ensures |HexText(n, k)| == k && HexDigits(HexText(n, k)) == Some(n)
    ensures forall i :: 0 <= i < k ==> HexValue(HexText(n, k)[i]).Some?
  {
    hide HexDigit, HexValue;
    HexDigitBack(n % 16);
    NoUnderscore();
    if k == 1 {
      assert HexText(n, k) == [HexDigit(n)];
    } else {
      HexBack(n / 16, k - 1);
      assert HexText(n, k)[..k - 1] == HexText(n / 16, k - 1);
    }
  }

  lemma NoUnderscore()
    ensures HexValue('_').None?
  {
  }

  /** A printed number reads back. */
  lemma HexNumberBack(n: nat, k: nat)
    requires k > 0 && FitsDigits(n, k)
    ensures HexNumber(HexText(n, k)) == Some(n)
  {
    hide HexDigits, HexText;
    HexBack(n, k);
  }

  /** Numbers as int(s, 16) takes them, and one it does not. */
  lemma NumbersRead()
    ensures HexNumber("1f") == Some(31) && HexNumber("0x_1F") == Some(31) && HexNumber("-1_0") == Some(-16)
    ensures HexNumber("1__0") == None && HexNumber("0x") == None && HexNumber("g") == None
  {
    assert "1f"[..1] == "1" && "1F"[..1] == "1" && "1_0"[..1] == "1" && "1__0"[..2] == "1_";
    assert "0x_1F"[3..] == "1F" && "-1_0"[1..] == "1_0" && "0x"[2..] == "";
  }

  datatype Section = Section(kind: u32, addr: u64, off: u64, size: u64) {
    /** SHT_NOBITS sections take no room in the file. */
    predicate FileBacked() { kind != 8 }

    predicate InFile(n: nat) { FileBacked() && size > 0 ==> off + size <= n }

    predicate Covers(v: int) { addr <= v < addr + size }
  }

  // ---- what the file says ----

  function Shoff(d: seq<u8>): nat
    requires |d| >= 64
  {
    Read64(d, 40)
  }

  function Entry(d: seq<u8>): nat
    requires |d| >= 64
  {
    Read16(d, 58)
  }

  function NumSections(d: seq<u8>): nat
    requires |d| >= 64
  {
    Read16(d, 60)
  }

  predicate IsElf(d: seq<u8>) {
    |d| >= 64 && d[..4] == [0x7f, 0x45, 0x4c, 0x46] && d[4] == 2 && d[5] == 1 && d[6] == 1
    && (Read16(d, 16) == 2 || Read16(d, 16) == 3)
  }

  /** The section table has whole entries, lies in the file, and its name index is in range. */
  predicate HasTable(d: seq<u8>)
    requires |d| >= 64
  {
    && Read16(d, 52) >= 64 && Entry(d) >= 64 && NumSections(d) > 0 && Read16(d, 62) < NumSections(d)
    && Shoff(d) + NumSections(d) * Entry(d) <= |d|
  }

  /** Offset of table entry i. */
  function EntryAt(d: seq<u8>, i: nat): (o: nat)
    requires |d| >= 64 && HasTable(d) && i < NumSections(d)
    ensures o + 64 <= |d|
  {
    hide HasTable, Shoff, Entry, NumSections;
    EntryFits(d, i);
    Shoff(d) + i * Entry(d)
  }

  lemma EntryFits(d: seq<u8>, i: nat)
    requires |d| >= 64 && HasTable(d) && i < NumSections(d)
    ensures 0 <= i * Entry(d) && Shoff(d) + i * Entry(d) + 64 <= |d|
  {
    hide Read16, Shoff, Entry, NumSections;
    Rows(i, NumSections(d), Entry(d));
  }

  lemma Rows(i: nat, n: nat, w: nat)
    requires i < n
    ensures i * w + w <= n * w
  {
    MulMono(i + 1, n, w);
    Distribute(i, 1, w);
  }

  function SectionAt(d: seq<u8>, i: nat): Section
    requires |d| >= 64 && HasTable(d) && i < NumSections(d)
  {
    hide EntryAt, HasTable, Read32, Read64;
    var o := EntryAt(d, i);
    Section(Read32(d, o + 4), Read64(d, o + 16), Read64(d, o + 24), Read64(d, o + 32))
  }

  predicate RowOk(r: Row) {
    |r| >= 4 && HexNumber(r[0]).Some? && HexNumber(r[1]).Some? && HexNumber(r[1]).value > 0
  }

  function Address(r: Row): int
    requires RowOk(r)
  {
    HexNumber(r[0]).value
  }

  function Length(r: Row): (n: nat)
    requires RowOk(r)
    ensures n > 0
  {
    HexNumber(r[1]).value
  }

  /** Row k is the only one for the symbol, and well formed. */
  predicate OnlyRow(rows: seq<Row>, k: nat)
    requires k < |rows|
  {
    Named(rows[k]) && RowOk(rows[k]) && forall i :: 0 <= i < |rows| && Named(rows[i]) ==> i == k
  }

  /** Section j is the only one whose addresses cover v, and every file-backed section lies in the file. */
  predicate OnlySection(d: seq<u8>, v: int, j: nat)
    requires |d| >= 64 && HasTable(d) && j < NumSections(d)
  {
    && SectionAt(d, j).Covers(v)
    && (forall i :: 0 <= i < NumSections(d) && SectionAt(d, i).Covers(v) ==> i == j)
    && (forall i :: 0 <= i < NumSections(d) ==> SectionAt(d, i).InFile(|d|))
  }

  /** The symbol is named once, one section covers its address, and that section is file-backed and holds all of it. */
  predicate Located(d: seq<u8>, rows: seq<Row>, k: nat, j: nat) {
    && IsElf(d) && HasTable(d) && k < |rows| && j < NumSections(d)
    && OnlyRow(rows, k) && OnlySection(d, Address(rows[k]), j) && SectionAt(d, j).FileBacked()
    && Address(rows[k]) + Length(rows[k]) <= SectionAt(d, j).addr + SectionAt(d, j).size
  }

  /** The symbol's bytes in the file. */
  function Payload(d: seq<u8>, rows: seq<Row>, k: nat, j: nat): (p: seq<u8>)
    requires Located(d, rows, k, j)
    ensures |p| == Length(rows[k])
  {
    hide SectionAt;
    var s := SectionAt(d, j);
    assert s.InFile(|d|);
    var o := s.off + (Address(rows[k]) - s.addr);
    d[o..o + Length(rows[k])]
  }

  // ---- what the listing tool prints ----

  datatype Symbol = Symbol(addr: nat, size: nat, kind: string, name: string) {
    /** Addresses and sizes take sixteen digits; neither type nor name is empty or has white space in it. */
    predicate Printable() { FitsDigits(addr, 16) && FitsDigits(size, 16) && Word(kind, Space) && Word(name, Space) }

    function Row(): Row { [HexText(addr, 16), HexText(size, 16), kind, name] }
  }

  function RowsOf(symbols: seq<Symbol>): seq<Row> { seq(|symbols|, i requires 0 <= i < |symbols| => symbols[i].Row()) }

  lemma {:induction false} NumeralIsWord(n: nat, k: nat)
    requires k > 0
    ensures Word(HexText(n, k), Space)
  {
    hide Space, HexDigit;
    DigitIsNoSpace(n % 16);
    if k > 1 { NumeralIsWord(n / 16, k - 1); }
  }

  lemma DigitIsNoSpace(v: nat)
    requires v < 16
    ensures !Space(HexDigit(v))
  {
  }

  lemma PrintedRow(s: Symbol, k: nat)
    requires s.Printable() && k == 16
    ensures RowOfWords(s.Row())
    ensures HexNumber(s.Row()[0]) == Some(s.addr) && HexNumber(s.Row()[1]) == Some(s.size)
    ensures (Named(s.Row()) <==> s.name == SYMBOL) && (RowOk(s.Row()) <==> s.size > 0)
  {
    hide HexText, HexNumber, FitsDigits, Space;
    NumeralIsWord(s.addr, k);
    NumeralIsWord(s.size, k);
    HexNumberBack(s.addr, k);
    HexNumberBack(s.size, k);
  }

  /** On a printed listing the symbol's row is found exactly when it is listed once and not empty, with the address and
      size that were printed. */
  lemma PrintedListing(symbols: seq<Symbol>, k: nat)
    requires k < |symbols| && forall i :: 0 <= i < |symbols| ==> symbols[i].Printable()
    ensures var rows := Table(Printed(RowsOf(symbols)));
            && |rows| == |symbols|
            && (OnlyRow(rows, k) <==> symbols[k].name == SYMBOL && symbols[k].size > 0
                                      && forall i :: 0 <= i < |symbols| && symbols[i].name == SYMBOL ==> i == k)
            && (OnlyRow(rows, k) ==> Address(rows[k]) == symbols[k].addr && Length(rows[k]) == symbols[k].size)
  {
    hide Table, Printed, HexText, HexNumber, RowOfWords, Named, Symbol.Printable;
    var rows := RowsOf(symbols);
    forall i | 0 <= i < |symbols|
      ensures RowOfWords(rows[i]) && (Named(rows[i]) <==> symbols[i].name == SYMBOL)
    {
      PrintedRow(symbols[i], 16);
    }
    TableBack(rows);
    PrintedRow(symbols[k], 16);
  }

  // ---- extraction ----

  /** Positions of the symbol's rows among the first n, all of them well formed. */
  ghost predicate Found(rows: seq<Row>, n: nat, at: seq<nat>, matches: seq<(int, int)>) {
    && n <= |rows| && |at| == |matches|
    && (forall m :: 0 <= m < |at| ==> at[m] < n && Named(rows[at[m]]) && RowOk(rows[at[m]])
                                       && matches[m] == (Address(rows[at[m]]), Length(rows[at[m]])))
    && (forall m, m' :: 0 <= m < m' < |at| ==> at[m] < at[m'])
    && (forall i :: 0 <= i < n && Named(rows[i]) ==> i in at)
  }

  /** The loop over the lines of the symbol listing. */
  method MatchRows(listing: string) returns (r: Option<(int, int)>)
    ensures var rows := Table(listing);
            && (r.Some? <==> exists k :: 0 <= k < |rows| && OnlyRow(rows, k))
            && forall k :: 0 <= k < |rows| && OnlyRow(rows, k) ==> r == Some((Address(rows[k]), Length(rows[k])))
  {
    hide Words;
    var lines := Lines(listing);
    ghost var rows := Table(listing);
    var matches: seq<(int, int)> := [];
    ghost var at: seq<nat> := [];
    for i := 0 to |lines|
      invariant Found(rows, i, at, matches)
    {
      var row := Fields(lines[i]);
      assert row == rows[i];
      if |row| == 0 || row[|row| - 1] != SYMBOL { continue; }
      if |row| < 4 { return None; }
      var value, size := HexNumber(row[0]), HexNumber(row[1]);
      if value.None? || size.None? || size.value <= 0 { return None; }
      matches := matches + [(value.value, size.value)];
      at := at + [i];
    }
    if |matches| != 1 {
      if |matches| > 1 { assert at[0] < at[1]; }
      return None;
    }
    assert OnlyRow(rows, at[0]);
    return Some(matches[0]);
  }

  /** Positions of the sections among the first n that cover v. */
  ghost predicate Covering(d: seq<u8>, v: int, n: nat, at: seq<nat>, sections: seq<Section>)
    requires |d| >= 64 && HasTable(d)
  {
    && n <= NumSections(d) && |at| == |sections|
    && (forall m :: 0 <= m < |at| ==> at[m] < n && sections[m] == SectionAt(d, at[m]) && sections[m].Covers(v))
    && (forall m, m' :: 0 <= m < m' < |at| ==> at[m] < at[m'])
    && (forall i :: 0 <= i < n && SectionAt(d, i).Covers(v) ==> i in at)
  }

  /** The loop over the section table. */
  method MatchSections(d: seq<u8>, v: int) returns (r: Option<Section>)
    requires |d| >= 64 && HasTable(d)
    ensures r.Some? <==> exists j :: 0 <= j < NumSections(d) && OnlySection(d, v, j)
    ensures forall j :: 0 <= j < NumSections(d) && OnlySection(d, v, j) ==> r == Some(SectionAt(d, j))
  {
    hide SectionAt, HasTable;
    var sections: seq<Section> := [];
    ghost var at: seq<nat> := [];
    for i := 0 to NumSections(d)
      invariant Covering(d, v, i, at, sections)
      invariant forall j :: 0 <= j < i ==> SectionAt(d, j).InFile(|d|)
    {
      var sec := SectionAt(d, i);
      if sec.kind != 8 && sec.size != 0 {
        if sec.off > |d| || sec.size > |d| - sec.off { return None; }
      }
      if sec.addr <= v && v < sec.addr + sec.size {
        sections := sections + [sec];
        at := at + [i];
      }
    }
    if |sections| != 1 {
      if |sections| > 1 { assert at[0] < at[1]; }
      return None;
    }
    assert OnlySection(d, v, at[0]);
    return Some(sections[0]);
  }

  /** The header checks. */
  method CheckHeaders(d: seq<u8>) returns (ok: bool)
    ensures ok <==> IsElf(d) && HasTable(d)
    ensures ok ==> |d| >= 64
  {
    hide Read16, Read64;
    if |d| < 64 || d[..4] != [0x7f, 0x45, 0x4c, 0x46] { return false; }
    if d[4] != 2 || d[5] != 1 || d[6] != 1 { return false; }
    var kind := Read16(d, 16);
    if kind != 2 && kind != 3 { return false; }
    var shoff, entry, count := Shoff(d), Entry(d), NumSections(d);
    if Read16(d, 52) < 64 || entry < 64 || count == 0 || Read16(d, 62) >= count { return false; }
    if shoff > |d| { NonNegative(count, entry); return false; }
    TableFits(|d| - shoff, entry, count);
    return count <= (|d| - shoff) / entry;
  }

  lemma NonNegative(a: nat, b: nat)
    ensures a * b >= 0
  {
  }

  /** read_firmware on the file's bytes and the symbol listing: it yields bytes exactly when the symbol is located, and
      then they are the symbol's slice of the section that covers it. */
  method ReadFirmware(d: seq<u8>, listing: string) returns (r: Option<seq<u8>>)
    ensures var rows := Table(listing);
            && (r.Some? <==> exists k, j :: Located(d, rows, k, j))
            && forall k, j :: Located(d, rows, k, j) ==> r == Some(Payload(d, rows, k, j))
    ensures r.Some? ==> r.value != []
  {
    hide SectionAt, OnlyRow, OnlySection, IsElf, HasTable, Table;
    ghost var rows := Table(listing);
    var ok := CheckHeaders(d);
    if !ok { return None; }
    var row := MatchRows(listing);
    if row.None? { return None; }
    var (v, size) := row.value;
    ghost var k :| 0 <= k < |rows| && OnlyRow(rows, k);
    RowIs(rows, k);
    var sec := MatchSections(d, v);
    if sec.None? { return None; }
    ghost var j :| 0 <= j < NumSections(d) && OnlySection(d, v, j);
    SectionIs(d, v, j);
    var s := sec.value;
    var delta := v - s.addr;
    if s.kind == 8 || delta > s.size || size > s.size - delta { return None; }
    assert Located(d, rows, k, j);
    var o := s.off + delta;
    if o > |d| || size > |d| - o { return None; }
    return Some(d[o..o + size]);
  }

  lemma RowIs(rows: seq<Row>, k: nat)
    requires k < |rows| && OnlyRow(rows, k)
    ensures RowOk(rows[k]) && forall i :: 0 <= i < |rows| && OnlyRow(rows, i) ==> i == k
  {
  }

  lemma SectionIs(d: seq<u8>, v: int, j: nat)
    requires |d| >= 64 && HasTable(d) && j < NumSections(d) && OnlySection(d, v, j)
    ensures SectionAt(d, j).Covers(v) && SectionAt(d, j).InFile(|d|)
    ensures forall i :: 0 <= i < NumSections(d) && OnlySection(d, v, i) ==> i == j
  {
    hide SectionAt, HasTable;
  }

  lemma TableFits(room: int, entry: nat, count: nat)
    requires entry > 0 && room >= 0
    ensures count > room / entry <==> count * entry > room
  {
    if count > room / entry {
      assert count * entry >= (room / entry + 1) * entry;
    } else {
      assert count * entry <= room / entry * entry;
    }
  }
}
