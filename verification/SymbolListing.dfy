/** The symbol listing as text: lines and fields as Python's str.splitlines and str.split cut them
    (scripts/extract-firmware.py). */
module SymbolListing {

  /** A row of the listing, split into fields: address, size, type and name. */
  type Row = seq<string>

  /** The characters str.splitlines cuts at. */
  predicate Break(c: char) {
    '\n' <= c <= '\r' || '\U{1c}' <= c <= '\U{1e}' || c == '\U{85}' || c == '\U{2028}' || c == '\U{2029}'
  }

  /** The characters str.split cuts at: white space. */
  predicate Space(c: char) {
    || Break(c) || c == '\t' || c == ' ' || c == '\U{1f}' || c == '\U{a0}' || c == '\U{1680}'
    || '\U{2000}' <= c <= '\U{200a}' || c == '\U{202f}' || c == '\U{205f}' || c == '\U{3000}'
  }

  /** The words between separators. Empty ones are dropped, which for lines makes no difference: the script passes over
      lines without fields. */
  function Words(s: string, sep: char -> bool): seq<string> {
    if s == [] then []
    else
      var n := WordLength(s, sep);
      if n == 0 then Words(s[1..], sep) else [s[..n]] + Words(s[n..], sep)
  }

  function WordLength(s: string, sep: char -> bool): (n: nat)
    ensures n <= |s|
  {
    if s == [] || sep(s[0]) then 0 else 1 + WordLength(s[1..], sep)
  }

  function Lines(text: string): seq<string> { Words(text, Break) }

  function Fields(line: string): Row { Words(line, Space) }

  function Table(text: string): (rows: seq<Row>)
    ensures |rows| == |Lines(text)|
  {
    var lines := Lines(text);
    seq(|lines|, i requires 0 <= i < |lines| => Fields(lines[i]))
  }

  // ---- words are what stands between separators ----

  predicate Gap(s: string, sep: char -> bool) { forall i :: 0 <= i < |s| ==> sep(s[i]) }

  predicate Word(s: string, sep: char -> bool) { s != [] && forall i :: 0 <= i < |s| ==> !sep(s[i]) }

  /** Words and the gaps around them: a gap, then word by word with the gap after it. */
  function Spaced(gaps: seq<string>, words: seq<string>): string
    requires |gaps| == |words| + 1
  {
    if words == [] then gaps[0] else gaps[0] + (words[0] + Spaced(gaps[1..], words[1..]))
  }

  /** Only the first and the last gap may be empty. */
  predicate Separated(gaps: seq<string>, words: seq<string>, sep: char -> bool) {
    && |gaps| == |words| + 1
    && (forall i :: 0 <= i < |gaps| ==> Gap(gaps[i], sep))
    && (forall i :: 0 <= i < |words| ==> Word(words[i], sep))
    && forall i :: 0 < i < |words| ==> gaps[i] != []
  }

  lemma {:induction false} WordLengthIs(w: string, rest: string, sep: char -> bool)
    requires forall i :: 0 <= i < |w| ==> !sep(w[i])
    requires rest != [] ==> sep(rest[0])
    ensures WordLength(w + rest, sep) == |w|
  {
    if w == [] {
      assert w + rest == rest;
    } else {
      WordLengthIs(w[1..], rest, sep);
      assert (w + rest)[1..] == w[1..] + rest;
    }
  }

  lemma {:induction false} GapSkipped(g: string, rest: string, sep: char -> bool)
    requires Gap(g, sep)
    ensures Words(g + rest, sep) == Words(rest, sep)
  {
    if g == [] {
      assert g + rest == rest;
    } else {
      GapSkipped(g[1..], rest, sep);
      assert (g + rest)[1..] == g[1..] + rest && (g + rest)[0] == g[0];
    }
  }

  lemma WordTaken(w: string, rest: string, sep: char -> bool)
    requires Word(w, sep) && (rest != [] ==> sep(rest[0]))
    ensures Words(w + rest, sep) == [w] + Words(rest, sep)
  {
    hide WordLength;
    WordLengthIs(w, rest, sep);
    assert (w + rest)[..|w|] == w && (w + rest)[|w|..] == rest;
  }

  /** Whatever words are put between gaps come out again. */
  lemma {:induction false} WordsBack(gaps: seq<string>, words: seq<string>, sep: char -> bool)
    requires Separated(gaps, words, sep)
    ensures Words(Spaced(gaps, words), sep) == words
    decreases |words|
  {
    hide Words;
    if words == [] {
      GapSkipped(gaps[0], [], sep);
      assert gaps[0] + [] == gaps[0];
      NoWords(sep);
    } else {
      var rest := Spaced(gaps[1..], words[1..]);
      assert Separated(gaps[1..], words[1..], sep);
      WordsBack(gaps[1..], words[1..], sep);
      GapSkipped(gaps[0], words[0] + rest, sep);
      StartsWithGap(gaps[1..], words[1..], sep);
      WordTaken(words[0], rest, sep);
    }
  }

  lemma NoWords(sep: char -> bool)
    ensures Words([], sep) == []
  {
  }

  lemma StartsWithGap(gaps: seq<string>, words: seq<string>, sep: char -> bool)
    requires Separated(gaps, words, sep) && (words != [] ==> gaps[0] != [])
    ensures var s := Spaced(gaps, words); s != [] ==> sep(s[0])
  {
  }

  /** And every text is its words put between gaps, so that no other words would do. */
  lemma {:induction false} WordsCut(s: string, sep: char -> bool) returns (gaps: seq<string>)
    ensures Separated(gaps, Words(s, sep), sep) && s == Spaced(gaps, Words(s, sep))
    decreases |s|
  {
    hide Separated, Spaced;
    if s == [] {
      gaps := [[]];
      NothingCut(sep);
    } else {
      var n := WordLength(s, sep);
      WordIs(s, sep);
      if n == 0 {
        var rest := WordsCut(s[1..], sep);
        gaps := MoreGap(s[0], rest, Words(s[1..], sep), sep);
        assert [s[0]] + s[1..] == s;
      } else {
        var rest := WordsCut(s[n..], sep);
        gaps := [[]] + rest;
        OneMore(s[..n], rest, Words(s[n..], sep), sep);
        assert s[..n] + s[n..] == s;
      }
    }
  }

  lemma NothingCut(sep: char -> bool)
    ensures Separated([[]], [], sep) && Spaced([[]], []) == []
  {
  }

  lemma MoreGap(c: char, gaps: seq<string>, words: seq<string>, sep: char -> bool) returns (more: seq<string>)
    requires Separated(gaps, words, sep) && sep(c)
    ensures Separated(more, words, sep) && Spaced(more, words) == [c] + Spaced(gaps, words)
  {
    more := [[c] + gaps[0]] + gaps[1..];
  }

  lemma OneMore(w: string, gaps: seq<string>, words: seq<string>, sep: char -> bool)
    requires Separated(gaps, words, sep) && Word(w, sep)
    requires var s := Spaced(gaps, words); s != [] ==> sep(s[0])
    ensures Separated([[]] + gaps, [w] + words, sep) && Spaced([[]] + gaps, [w] + words) == w + Spaced(gaps, words)
  {
    GapFirst(gaps, words, sep);
    var all, more := [w] + words, [[]] + gaps;
    assert all[1..] == words && more[1..] == gaps;
    assert forall i :: 0 < i < |all| ==> all[i] == words[i - 1] && more[i] == gaps[i - 1];
  }

  lemma GapFirst(gaps: seq<string>, words: seq<string>, sep: char -> bool)
    requires Separated(gaps, words, sep)
    requires var s := Spaced(gaps, words); s != [] ==> sep(s[0])
    ensures words != [] ==> gaps[0] != []
  {
  }

  lemma {:induction false} WordIs(s: string, sep: char -> bool)
    ensures var n := WordLength(s, sep); (forall i :: 0 <= i < n ==> !sep(s[i])) && (n < |s| ==> sep(s[n]))
  {
    if s != [] && !sep(s[0]) { WordIs(s[1..], sep); }
  }

  // ---- a listing as the tool prints it ----

  function Joined(fields: Row): string {
    if fields == [] then []
    else if |fields| == 1 then fields[0]
    else fields[0] + ([' '] + Joined(fields[1..]))
  }

  /** A line for each row, its fields separated by a space. */
  function Printed(rows: seq<Row>): string {
    if rows == [] then [] else Joined(rows[0]) + (['\n'] + Printed(rows[1..]))
  }

  predicate RowOfWords(r: Row) { r != [] && forall i :: 0 <= i < |r| ==> Word(r[i], Space) }

  lemma {:induction false} FieldsBack(fields: Row)
    requires RowOfWords(fields)
    ensures Fields(Joined(fields)) == fields && Word(Joined(fields), Break)
  {
    hide Words, Space, Break;
    SpaceIs();
    if |fields| == 1 {
      WordTaken(fields[0], [], Space);
      NoWords(Space);
      assert fields[0] + [] == fields[0];
    } else {
      var rest := Joined(fields[1..]);
      FieldsBack(fields[1..]);
      GapSkipped([' '], rest, Space);
      WordTaken(fields[0], [' '] + rest, Space);
    }
  }

  lemma SpaceIs()
    ensures Space(' ') && !Break(' ') && forall c :: Break(c) ==> Space(c)
  {
  }

  /** A printed listing reads back as its rows. */
  lemma {:induction false} TableBack(rows: seq<Row>)
    requires forall i :: 0 <= i < |rows| ==> RowOfWords(rows[i])
    ensures Table(Printed(rows)) == rows
  {
    hide Words, Space, Joined, Word;
    if rows == [] {
      NoWords(Break);
    } else {
      var line, rest := Joined(rows[0]), Printed(rows[1..]);
      TableBack(rows[1..]);
      FieldsBack(rows[0]);
      GapSkipped(['\n'], rest, Break);
      WordTaken(line, ['\n'] + rest, Break);
      assert Lines(Printed(rows)) == [line] + Lines(rest);
    }
  }
}
