/**
 The frames of the log stream: how the relay prints a log line and how the viewer undoes it.

 The printer escapes with three replacements in a row, the viewer scans once from the left.
 The lemmas show that the three replacements act as one per-character map, that an escaped
 line cannot break a frame, that unescaping is the inverse of escaping, which strings are
 escaped lines at all, and what a reader sees of a line that was cut.
 */
module Wire {
  import opened Prelude

  /** Replaces every occurrence of one character. */
  function ReplaceChar(s: string, c: char, t: string): string {
    if s == "" then "" else (if s[0] == c then t else [s[0]]) + ReplaceChar(s[1..], c, t)
  }

  function EscapeLine(line: string): string {
    ReplaceChar(ReplaceChar(ReplaceChar(line, '\\', "\\\\"), '\r', "\\r"), '\n', "\\n")
  }

  function DataFrame(line: string): string {
    "data: " + EscapeLine(line) + "\n\n"
  }

  function EventFrame(event: string, data: string): string {
    "event: " + event + "\ndata: " + EscapeLine(data) + "\n\n"
  }

  const KEEPALIVE_FRAME := ": keepalive\n\n"

  /** What follows the text of an event that was cut. */
  const TRUNCATED_MARKER := " \U{2026}[truncated]"

  predicate Escapable(c: char) {
    c == 'n' || c == 'r' || c == '\\'
  }

  function Decoded(c: char): char {
    if c == 'n' then '\n' else if c == 'r' then '\r' else '\\'
  }

  /** Leftmost, non-overlapping replacement of the three two-character sequences. */
  function UnescapeLine(data: string): string {
    if data == "" then ""
    else if |data| >= 2 && data[0] == '\\' && Escapable(data[1]) then
      [Decoded(data[1])] + UnescapeLine(data[2..])
    else [data[0]] + UnescapeLine(data[1..])
  }

  /** The per-character reading of the three replacements. */
  function EscapeChar(c: char): string {
    if c == '\\' then "\\\\" else if c == '\r' then "\\r" else if c == '\n' then "\\n" else [c]
  }

  function EscapeEach(line: string): string {
    if line == "" then "" else EscapeChar(line[0]) + EscapeEach(line[1..])
  }

  predicate NoBreaks(s: string) {
    forall i :: 0 <= i < |s| ==> s[i] != '\n' && s[i] != '\r'
  }

  // ----- the three replacements are one map -----

  lemma {:induction false} ReplaceAppend(a: string, b: string, c: char, t: string)
    ensures ReplaceChar(a + b, c, t) == ReplaceChar(a, c, t) + ReplaceChar(b, c, t)
  {
    if a == "" {
      assert a + b == b;
    } else {
      assert (a + b)[1..] == a[1..] + b;
      ReplaceAppend(a[1..], b, c, t);
    }
  }

  lemma EscapeAppend(a: string, b: string)
    ensures EscapeLine(a + b) == EscapeLine(a) + EscapeLine(b)
  {
    ReplaceAppend(a, b, '\\', "\\\\");
    var a1, b1 := ReplaceChar(a, '\\', "\\\\"), ReplaceChar(b, '\\', "\\\\");
    ReplaceAppend(a1, b1, '\r', "\\r");
    ReplaceAppend(ReplaceChar(a1, '\r', "\\r"), ReplaceChar(b1, '\r', "\\r"), '\n', "\\n");
  }

  lemma ReplaceOne(c: char, d: char, t: string)
    ensures ReplaceChar([c], d, t) == if c == d then t else [c]
  {
    assert [c][1..] == "";
  }

  lemma ReplaceTwo(c1: char, c2: char, d: char, t: string)
    ensures ReplaceChar([c1, c2], d, t) == (if c1 == d then t else [c1]) + (if c2 == d then t else [c2])
  {
    assert [c1, c2] == [c1] + [c2];
    ReplaceAppend([c1], [c2], d, t);
    ReplaceOne(c1, d, t);
    ReplaceOne(c2, d, t);
  }

  /** A backslash is written before each of three characters, which are then a backslash, r and n. */
  lemma EscapeOne(c: char)
    ensures EscapeLine([c]) == EscapeChar(c)
    ensures EscapeLine([c]) == if c == '\\' || c == '\r' || c == '\n'
                               then ['\\', if c == '\r' then 'r' else if c == '\n' then 'n' else '\\'] else [c]
  {
    ReplaceOne(c, '\\', "\\\\");
    if c == '\\' {
      ReplaceTwo('\\', '\\', '\r', "\\r");
      ReplaceTwo('\\', '\\', '\n', "\\n");
    } else {
      ReplaceOne(c, '\r', "\\r");
      if c == '\r' {
        ReplaceTwo('\\', 'r', '\n', "\\n");
      } else {
        ReplaceOne(c, '\n', "\\n");
      }
    }
  }

  lemma EscapeCons(line: string)
    requires line != ""
    ensures EscapeLine(line) == EscapeChar(line[0]) + EscapeLine(line[1..])
  {
    assert line == [line[0]] + line[1..];
    EscapeAppend([line[0]], line[1..]);
    EscapeOne(line[0]);
  }

  lemma {:induction false} EscapeIsPerCharacter(line: string)
    ensures EscapeLine(line) == EscapeEach(line)
  {
    if line == "" {
    } else {
      EscapeCons(line);
      EscapeIsPerCharacter(line[1..]);
    }
  }

  /** An escaped line holds no line terminator, so it cannot end a frame or start a field. */
  lemma {:induction false} EscapeHasNoBreaks(line: string)
    ensures NoBreaks(EscapeLine(line))
  {
    if line == "" {
    } else {
      EscapeCons(line);
      EscapeHasNoBreaks(line[1..]);
    }
  }

  // ----- unescaping inverts escaping -----

  lemma UnescapeOne(c: char, more: string)
    ensures UnescapeLine(EscapeChar(c) + more) == [c] + UnescapeLine(more)
  {
    var e := EscapeChar(c);
    assert (e + more)[|e|..] == more;
  }

  lemma {:induction false} UnescapeAfterEach(line: string, more: string)
    ensures UnescapeLine(EscapeEach(line) + more) == line + UnescapeLine(more)
  {
    if line == "" {
      assert EscapeEach(line) + more == more;
    } else {
      var c, rest := line[0], EscapeEach(line[1..]);
      Regroup(EscapeChar(c), rest, more);
      UnescapeOne(c, rest + more);
      UnescapeAfterEach(line[1..], more);
      Regroup([c], line[1..], UnescapeLine(more));
      assert [c] + line[1..] == line;
    }
  }

  lemma UnescapeAfterEscape(line: string, more: string)
    ensures UnescapeLine(EscapeLine(line) + more) == line + UnescapeLine(more)
  {
    EscapeIsPerCharacter(line);
    UnescapeAfterEach(line, more);
  }

  lemma UnescapeInvertsEscape(line: string)
    ensures UnescapeLine(EscapeLine(line)) == line
  {
    UnescapeAfterEscape(line, "");
    assert EscapeLine(line) + "" == EscapeLine(line);
  }

  /** No two log lines share a frame. */
  lemma DataFrameInjective(a: string, b: string)
    requires DataFrame(a) == DataFrame(b)
    ensures a == b
  {
    var fa, fb := DataFrame(a), DataFrame(b);
    assert fa[6..|fa| - 2] == EscapeLine(a);
    assert fb[6..|fb| - 2] == EscapeLine(b);
    UnescapeInvertsEscape(a);
    UnescapeInvertsEscape(b);
  }

  /** The strings made of plain characters and complete escape sequences. */
  predicate Escaped(s: string) {
    s == "" ||
    (if s[0] == '\\' then |s| >= 2 && Escapable(s[1]) && Escaped(s[2..])
     else s[0] != '\r' && s[0] != '\n' && Escaped(s[1..]))
  }

  lemma {:induction false} EscapeIsEscaped(line: string)
    ensures Escaped(EscapeLine(line))
  {
    if line == "" {
    } else {
      EscapeCons(line);
      EscapeIsEscaped(line[1..]);
      var e := EscapeChar(line[0]);
      assert EscapeLine(line)[|e|..] == EscapeLine(line[1..]);
    }
  }

  lemma {:induction false} EscapeAfterUnescape(s: string)
    requires Escaped(s)
    ensures EscapeLine(UnescapeLine(s)) == s
  {
    if s == "" {
    } else {
      var n := if s[0] == '\\' then 2 else 1;
      EscapeAfterUnescape(s[n..]);
      EscapeCons(UnescapeLine(s));
      assert UnescapeLine(s)[1..] == UnescapeLine(s[n..]);
      assert s == s[..n] + s[n..];
    }
  }

  /** Escaping after unescaping gives the string back exactly for escaped strings. */
  lemma EscapeInvertsUnescape(s: string)
    ensures EscapeLine(UnescapeLine(s)) == s <==> Escaped(s)
  {
    EscapeIsEscaped(UnescapeLine(s));
    if Escaped(s) {
      EscapeAfterUnescape(s);
    }
  }

  // ----- a line that was cut -----

  lemma {:induction false} UnescapeWithoutBackslash(s: string)
    requires forall i :: 0 <= i < |s| ==> s[i] != '\\'
    ensures UnescapeLine(s) == s
  {
    if s == "" {
    } else {
      UnescapeWithoutBackslash(s[1..]);
      assert s == [s[0]] + s[1..];
    }
  }

  /** The escape of a line cut after k characters is the escape of a prefix, and at most
      one backslash whose partner was cut off. */
  lemma {:induction false} CutSplitsOneSequence(line: string, k: nat) returns (j: nat)
    requires k <= |EscapeLine(line)|
    ensures j <= |line|
    ensures EscapeLine(line)[..k] == EscapeLine(line[..j])
         || EscapeLine(line)[..k] == EscapeLine(line[..j]) + "\\"
  {
    if k == 0 || line == "" {
      j := 0;
      assert line[..0] == "";
    } else {
      EscapeCons(line);
      var e := EscapeChar(line[0]);
      if k < |e| {
        j := 0;
        assert line[..0] == "";
        assert EscapeLine(line)[..k] == "\\";
      } else {
        var i := CutSplitsOneSequence(line[1..], k - |e|);
        j := i + 1;
        assert EscapeLine(line)[..k] == e + EscapeLine(line[1..])[..k - |e|];
        EscapeCons(line[..j]);
        assert line[..j][1..] == line[1..][..i];
      }
    }
  }

  /** What the viewer shows of an over-long line: the prefix whose escape fills the cut, or all but
      one character of it and then a stray backslash, and the marker. */
  lemma CutLineShowsPrefix(line: string, k: nat) returns (j: nat)
    requires k <= |EscapeLine(line)|
    ensures j <= |line|
    ensures var shown := UnescapeLine(EscapeLine(line)[..k] + TRUNCATED_MARKER);
            || (shown == line[..j] + TRUNCATED_MARKER && |EscapeLine(line[..j])| == k)
            || (shown == line[..j] + "\\" + TRUNCATED_MARKER && |EscapeLine(line[..j])| == k - 1)
  {
    j := CutSplitsOneSequence(line, k);
    MarkerKept(line[..j], TRUNCATED_MARKER);
    StrayAndMarkerKept(line[..j], "\\" + TRUNCATED_MARKER, TRUNCATED_MARKER);
    Regroup(EscapeLine(line[..j]), "\\", TRUNCATED_MARKER);
    Regroup(line[..j], "\\", TRUNCATED_MARKER);
  }

  lemma MarkerKept(line: string, marker: string)
    requires forall i :: 0 <= i < |marker| ==> marker[i] != '\\'
    ensures UnescapeLine(EscapeLine(line) + marker) == line + marker
  {
    UnescapeWithoutBackslash(marker);
    UnescapeAfterEscape(line, marker);
  }

  lemma StrayAndMarkerKept(line: string, stray: string, marker: string)
    requires marker != "" && !Escapable(marker[0]) && stray == "\\" + marker
    requires forall i :: 0 <= i < |marker| ==> marker[i] != '\\'
    ensures UnescapeLine(EscapeLine(line) + stray) == line + stray
  {
    UnescapeWithoutBackslash(marker);
    StrayBackslash(marker);
    UnescapeAfterEscape(line, stray);
  }

  /** A backslash that begins none of the three sequences stays as it is. */
  lemma StrayBackslash(marker: string)
    requires marker == "" || (marker[0] != 'n' && marker[0] != 'r' && marker[0] != '\\')
    ensures UnescapeLine("\\" + marker) == "\\" + UnescapeLine(marker)
  {
    assert ("\\" + marker)[1..] == marker;
  }
}
