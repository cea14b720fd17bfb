/** The C header the firmware is printed into (write_header of scripts/extract-firmware.py), and reading it back. */
module FirmwareText {
  import opened Bytes

  // ---- printing ----

  /** 0x and two lower-case hexadecimal digits. */
  function ByteText(b: u8): string { ['0', 'x', HexDigit(b / 16), HexDigit(b % 16)] }

  /** The bytes of a row, separated by a comma and a space. */
  function Joined(bytes: seq<u8>): string
    requires bytes != []
  {
    if |bytes| == 1 then ByteText(bytes[0]) else ByteText(bytes[0]) + [',', ' '] + Joined(bytes[1..])
  }

  const ROW: nat := 12

  function RowText(bytes: seq<u8>): string
    requires bytes != []
  {
    [' ', ' '] + Joined(bytes) + [',']
  }

  function First(fw: seq<u8>): nat { if |fw| < ROW then |fw| else ROW }

  /** The rows of the array, twelve bytes each but the last. */
  function Rows(fw: seq<u8>): seq<string> {
    if fw == [] then [] else [RowText(fw[..First(fw)])] + Rows(fw[First(fw)..])
  }

  function Decimal(n: nat): (s: string)
    ensures s != []
  {
    if n < 10 then [HexDigit(n)] else Decimal(n / 10) + [HexDigit(n % 10)]
  }

  const NOTE1: string := "/* FT9338W MCU firmware - extracted from ft9201-static (FOCALFP_9338_FW_APP)."
  const NOTE2: string := " * FocalTech proprietary; generated at build time, not committed. */"
  const OPEN: string := "static const guint8 ft9201_fw_data[] = {"
  const CLOSE: string := "};"
  const SIZE: string := "static const gsize ft9201_fw_size = "
  const UNIT: string := "U;"

  function SizeLine(n: nat): string { SIZE + Decimal(n) + UNIT }

  function HeaderLines(fw: seq<u8>): seq<string> {
    [NOTE1, NOTE2, OPEN] + Rows(fw) + [CLOSE, SizeLine(|fw|), ""]
  }

  function JoinLines(lines: seq<string>): string
    requires lines != []
  {
    if |lines| == 1 then lines[0] else lines[0] + ['\n'] + JoinLines(lines[1..])
  }

  function HeaderText(fw: seq<u8>): string { JoinLines(HeaderLines(fw)) }

  /** Two bytes and a size, as they are printed. */
  lemma BytesPrinted()
    ensures RowText([0x1f, 0xa0]) == "  0x1f, 0xa0,"
  {
    assert ByteText(0x1f) == "0x1f" && ByteText(0xa0) == "0xa0";
    assert [0x1f, 0xa0][1..] == [0xa0];
    assert Joined([0x1f, 0xa0]) == "0x1f, 0xa0";
  }

  lemma SizePrinted()
    ensures SizeLine(4096) == "static const gsize ft9201_fw_size = 4096U;"
  {
    assert Decimal(40) == "40" && Decimal(409) == "409" && Decimal(4096) == "4096";
  }

  /** Where row k of n bytes ends. */
  function RowEnd(n: nat, k: nat): nat { if (k + 1) * ROW < n then (k + 1) * ROW else n }

  /** Row k holds bytes 12k up to 12k+12 or the end: at least one and at most twelve. */
  lemma {:induction false} RowsAre(fw: seq<u8>, k: nat)
    requires k * ROW < |fw|
    ensures |Rows(fw)| == (|fw| + ROW - 1) / ROW && k < |Rows(fw)|
    ensures k * ROW < RowEnd(|fw|, k) && Rows(fw)[k] == RowText(fw[k * ROW..RowEnd(|fw|, k)])
  {
    hide RowText;
    var rest := fw[First(fw)..];
    if k > 0 {
      RowsAre(rest, k - 1);
      Slice(fw, ROW, k * ROW, RowEnd(|fw|, k));
    } else if rest != [] {
      RowsAre(rest, 0);
    }
  }

  lemma Slice(fw: seq<u8>, m: nat, lo: nat, hi: nat)
    requires m <= lo <= hi <= |fw|
    ensures fw[m..][lo - m..hi - m] == fw[lo..hi]
  {
  }

  // ---- reading ----

  /** The bytes of a row of an initializer: spaces, and 0x.. constants each followed by a comma. */
  function Scan(s: string): Option<seq<u8>> {
    if s == [] then Some([])
    else if s[0] == ' ' then Scan(s[1..])
    else if |s| >= 5 && s[..2] == ['0', 'x'] && HexValue(s[2]).Some? && HexValue(s[3]).Some? && s[4] == ',' then
      var rest := Scan(s[5..]);
      if rest.None? then None else Some([HexValue(s[2]).value * 16 + HexValue(s[3]).value] + rest.value)
    else None
  }

  /** A non-empty decimal numeral. */
  function Number(s: string): Option<nat> {
    if s == [] then None
    else
      var last := HexValue(s[|s| - 1]);
      if last.None? || last.value > 9 then None
      else if |s| == 1 then last
      else
        var high := Number(s[..|s| - 1]);
        if high.None? then None else Some(10 * high.value + last.value)
  }

  function Split(s: string): (lines: seq<string>)
    ensures lines != []
  {
    if s == [] then [[]]
    else
      var rest := Split(s[1..]);
      if s[0] == '\n' then [[]] + rest else [[s[0]] + rest[0]] + rest[1..]
  }

  /** Rows up to the closing line: their bytes, and the lines after it. */
  function ReadRows(lines: seq<string>): Option<(seq<u8>, seq<string>)> {
    if lines == [] then None
    else if lines[0] == CLOSE then Some(([], lines[1..]))
    else
      var row, rest := Scan(lines[0]), ReadRows(lines[1..]);
      if row.None? || rest.None? then None else Some((row.value + rest.value.0, rest.value.1))
  }

  function ReadSize(line: string): Option<nat> {
    if |line| < |SIZE| + |UNIT| || line[..|SIZE|] != SIZE || line[|line| - |UNIT|..] != UNIT then None
    else Number(line[|SIZE|..|line| - |UNIT|])
  }

  /** The array and the size of a header, as a compiler would find them. */
  function ReadLines(lines: seq<string>): Option<(seq<u8>, nat)> {
    if lines == [] then None
    else if lines[0] != OPEN then ReadLines(lines[1..])
    else
      var rows := ReadRows(lines[1..]);
      if rows.None? || rows.value.1 == [] then None
      else
        var size := ReadSize(rows.value.1[0]);
        if size.None? then None else Some((rows.value.0, size.value))
  }

  function ReadHeader(text: string): Option<(seq<u8>, nat)> { ReadLines(Split(text)) }

  // ---- round trip ----

  lemma ScanByte(b: u8, rest: string)
    requires Scan(rest).Some?
    ensures Scan(ByteText(b) + [','] + rest) == Some([b] + Scan(rest).value)
  {
    hide HexDigit, HexValue;
    HexDigitBack(b / 16);
    HexDigitBack(b % 16);
    var s := ByteText(b) + [','] + rest;
    assert s[5..] == rest;
    var h, l := s[2], s[3];
    assert HexValue(h) == Some(b / 16) && HexValue(l) == Some(b % 16);
  }

  lemma {:induction false} ScanJoined(bytes: seq<u8>)
    requires bytes != []
    ensures Scan(Joined(bytes) + [',']) == Some(bytes)
  {
    hide HexDigit, HexValue, ByteText;
    if |bytes| == 1 {
      ScanNothing();
      ScanByte(bytes[0], []);
      assert ByteText(bytes[0]) + [','] + [] == Joined(bytes) + [','];
      assert [bytes[0]] + [] == bytes;
    } else {
      var rest := Joined(bytes[1..]) + [','];
      ScanJoined(bytes[1..]);
      ScanSpace(rest);
      ScanByte(bytes[0], [' '] + rest);
      assert Joined(bytes) + [','] == ByteText(bytes[0]) + [','] + ([' '] + rest);
      assert [bytes[0]] + bytes[1..] == bytes;
    }
  }

  lemma ScanNothing()
    ensures Scan([]) == Some([])
  {
  }

  lemma ScanSpace(rest: string)
    ensures Scan([' '] + rest) == Scan(rest)
  {
    assert ([' '] + rest)[1..] == rest;
  }

  lemma ScanRow(bytes: seq<u8>)
    requires bytes != []
    ensures Scan(RowText(bytes)) == Some(bytes)
  {
    hide Scan, Joined;
    ScanJoined(bytes);
    var s := Joined(bytes) + [','];
    ScanSpace(s);
    ScanSpace([' '] + s);
    assert RowText(bytes) == [' '] + ([' '] + s);
  }

  lemma {:induction false} ReadRowsBack(fw: seq<u8>, after: seq<string>)
    ensures ReadRows(Rows(fw) + [CLOSE] + after) == Some((fw, after))
  {
    hide RowText, Scan;
    if fw == [] {
      assert (Rows(fw) + [CLOSE] + after)[1..] == after;
    } else {
      var n := First(fw);
      ScanRow(fw[..n]);
      RowIsNoClose(fw[..n]);
      ReadRowsBack(fw[n..], after);
      assert (Rows(fw) + [CLOSE] + after)[1..] == Rows(fw[n..]) + [CLOSE] + after;
      assert fw[..n] + fw[n..] == fw;
    }
  }

  lemma RowIsNoClose(bytes: seq<u8>)
    requires bytes != []
    ensures RowText(bytes) != CLOSE
  {
    assert RowText(bytes)[0] == ' ' && CLOSE[0] == '}';
  }

  lemma {:induction false} NumberBack(n: nat)
    ensures Number(Decimal(n)) == Some(n)
  {
    hide HexDigit, HexValue;
    HexDigitBack(n % 10);
    if n >= 10 {
      NumberBack(n / 10);
      assert Decimal(n)[..|Decimal(n)| - 1] == Decimal(n / 10);
    }
  }

  lemma SizeBack(n: nat)
    ensures ReadSize(SizeLine(n)) == Some(n)
  {
    hide Number, Decimal;
    NumberBack(n);
    var line := SizeLine(n);
    assert line[..|SIZE|] == SIZE && line[|line| - |UNIT|..] == UNIT && line[|SIZE|..|line| - |UNIT|] == Decimal(n);
  }

  predicate OneLine(s: string) { '\n' !in s }

  lemma {:induction false} SplitLine(line: string, rest: string)
    requires OneLine(line)
    ensures Split(line + ['\n'] + rest) == [line] + Split(rest)
  {
    var s := line + ['\n'] + rest;
    if line == [] {
      assert s[1..] == rest;
    } else {
      SplitLine(line[1..], rest);
      assert s[1..] == line[1..] + ['\n'] + rest;
      assert [line[0]] + line[1..] == line;
    }
  }

  lemma {:induction false} SplitLast(line: string)
    requires OneLine(line)
    ensures Split(line) == [line]
  {
    if line != [] {
      SplitLast(line[1..]);
      assert [line[0]] + line[1..] == line;
    }
  }

  lemma {:induction false} SplitBack(lines: seq<string>)
    requires lines != [] && forall i :: 0 <= i < |lines| ==> OneLine(lines[i])
    ensures Split(JoinLines(lines)) == lines
  {
    hide Split;
    if |lines| == 1 {
      SplitLast(lines[0]);
    } else {
      SplitBack(lines[1..]);
      SplitLine(lines[0], JoinLines(lines[1..]));
      assert [lines[0]] + lines[1..] == lines;
    }
  }

  lemma {:induction false} JoinedOneLine(bytes: seq<u8>)
    requires bytes != []
    ensures OneLine(Joined(bytes))
  {
    hide HexDigit, HexValue;
    HexDigitBack(bytes[0] / 16);
    HexDigitBack(bytes[0] % 16);
    if |bytes| > 1 { JoinedOneLine(bytes[1..]); }
  }

  lemma {:induction false} RowsOneLine(fw: seq<u8>)
    ensures forall i :: 0 <= i < |Rows(fw)| ==> OneLine(Rows(fw)[i])
  {
    hide Joined;
    if fw != [] {
      JoinedOneLine(fw[..First(fw)]);
      RowsOneLine(fw[First(fw)..]);
    }
  }

  lemma {:induction false} DecimalOneLine(n: nat)
    ensures OneLine(Decimal(n))
  {
    hide HexDigit, HexValue;
    HexDigitBack(n % 10);
    if n >= 10 { DecimalOneLine(n / 10); }
  }

  lemma LinesOneLine(fw: seq<u8>)
    ensures forall i :: 0 <= i < |HeaderLines(fw)| ==> OneLine(HeaderLines(fw)[i])
  {
    hide Rows, Decimal;
    RowsOneLine(fw);
    DecimalOneLine(|fw|);
    FirstNoteOneLine();
    SecondNoteOneLine();
    FixedOneLine();
  }

  lemma FixedOneLine()
    ensures OneLine(OPEN) && OneLine(CLOSE) && OneLine(SIZE) && OneLine(UNIT)
  {
  }

  // The solver follows a long literal only from a prefix on.

  lemma FirstNoteOneLine()
    ensures OneLine(NOTE1)
  {
    FirstNoteBegins();
  }

  lemma FirstNoteBegins()
    ensures '\n' !in "/* FT9338W MCU firmware - extracted from "
  {
  }

  lemma SecondNoteOneLine()
    ensures OneLine(NOTE2)
  {
    SecondNoteBegins();
  }

  lemma SecondNoteBegins()
    ensures '\n' !in " * FocalTech proprietary; generated at "
  {
  }

  /** The printed header, read back line by line and byte by byte, gives the firmware and its length. */
  lemma HeaderBack(fw: seq<u8>)
    ensures ReadHeader(HeaderText(fw)) == Some((fw, |fw|))
  {
    hide Split, JoinLines, Rows, ReadRows, SizeLine, ReadSize;
    LinesOneLine(fw);
    var lines, after := HeaderLines(fw), [SizeLine(|fw|), ""];
    SplitBack(lines);
    var body := Rows(fw) + [CLOSE] + after;
    ReadRowsBack(fw, after);
    SizeBack(|fw|);
    assert lines == [NOTE1] + ([NOTE2] + ([OPEN] + body));
    SkipLine(NOTE1, [NOTE2] + ([OPEN] + body));
    SkipLine(NOTE2, [OPEN] + body);
    assert ([OPEN] + body)[1..] == body;
  }

  lemma SkipLine(line: string, rest: seq<string>)
    requires line == NOTE1 || line == NOTE2
    ensures ReadLines([line] + rest) == ReadLines(rest)
  {
    hide ReadRows, ReadSize;
    assert |line| != |OPEN|;
    assert ([line] + rest)[1..] == rest;
  }

  // ---- the script's loop ----

  /** write_header: empty firmware is refused; otherwise the text it writes is the header, which read back gives the
      firmware and its length. */
  method WriteHeader(fw: seq<u8>) returns (text: Option<string>)
    ensures text.None? <==> fw == []
    ensures text.Some? ==> text.value == HeaderText(fw) && ReadHeader(text.value) == Some((fw, |fw|))
  {
    hide RowText, ReadHeader, JoinLines, SizeLine;
    if fw == [] { return None; }
    var content := [NOTE1, NOTE2, OPEN];
    var i := 0;
    while i < |fw|
      invariant i <= |fw| && content + Rows(fw[i..]) == [NOTE1, NOTE2, OPEN] + Rows(fw)
    {
      var next := if i + ROW < |fw| then i + ROW else |fw|;
      assert fw[i..][..First(fw[i..])] == fw[i..next] && fw[i..][First(fw[i..])..] == fw[next..];
      content := content + [RowText(fw[i..next])];
      i := next;
    }
    assert fw[i..] == [] && content == [NOTE1, NOTE2, OPEN] + Rows(fw);
    content := content + [CLOSE, SizeLine(|fw|), ""];
    HeaderBack(fw);
    assert content == HeaderLines(fw);
    return Some(JoinLines(content));
  }
}
