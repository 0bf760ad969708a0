/**
 services/ics.py: escaping, folding and rendering of a calendar event, and the reader that undoes them
 (sections 3.1 and 3.3.11 of RFC 5545). Strings are sequences of Unicode characters; octets are UTF-8.
 */
module Calendar {
  import opened Text

  const CRLF := "\r\n"
  const FOLD := "\r\n "
  const MAX_LINE_OCTETS := 75

  predicate StartsCrlf(s: string) { |s| > 1 && s[0] == '\r' && s[1] == '\n' }

  lemma CrlfAtStart(s: string)
    ensures StartsWith(s, CRLF) <==> StartsCrlf(s)
  {
    if StartsWith(s, CRLF) { assert s[0] == CRLF[0] && s[1] == CRLF[1]; }
  }

  lemma OneAtStart(s: string, c: char)
    ensures StartsWith(s, [c]) <==> s != "" && s[0] == c
  {
    if StartsWith(s, [c]) { assert s[0] == [c][0]; }
  }

  // ---------------------------------------------------------------- TEXT values

  function EscapeText(value: string): string {
    var v := Replace(value, "\\", "\\\\");
    var v := Replace(v, ";", "\\;");
    var v := Replace(v, ",", "\\,");
    var v := Replace(v, CRLF, "\\n");
    Replace(v, "\n", "\\n")
  }

  // How one character of a TEXT value is written.
  function EscapeChar(c: char): string {
    if c == '\\' then "\\\\" else if c == ';' then "\\;" else if c == ',' then "\\,"
    else if c == '\n' then "\\n" else [c]
  }

  // The same escaping in one pass from left to right.
  function EscapeOnce(value: string): string
    decreases |value|
  {
    if value == "" then ""
    else if StartsCrlf(value) then "\\n" + EscapeOnce(value[2..])
    else EscapeChar(value[0]) + EscapeOnce(value[1..])
  }

  // The reader of TEXT values.
  function Unescape(text: string): string
    decreases |text|
  {
    if text == "" then ""
    else if text[0] == '\\' && |text| > 1 then
      [if text[1] == 'n' || text[1] == 'N' then '\n' else text[1]] + Unescape(text[2..])
    else [text[0]] + Unescape(text[1..])
  }

  function NormalizeNewlines(value: string): string { Replace(value, CRLF, "\n") }

  // The first three replacements, and the last two.
  function Marks(v: string): string {
    Replace(Replace(Replace(v, "\\", "\\\\"), ";", "\\;"), ",", "\\,")
  }

  function Breaks(v: string): string { Replace(Replace(v, CRLF, "\\n"), "\n", "\\n") }

  function Mark(c: char): string {
    if c == '\\' then "\\\\" else if c == ';' then "\\;" else if c == ',' then "\\," else [c]
  }

  lemma MarkOne(c: char)
    ensures Marks([c]) == Mark(c)
  {
    ReplaceCharOne(c, '\\', "\\\\");
    if c == '\\' {
      assert "\\\\" == ['\\'] + ['\\'];
      ReplaceCharConcat(['\\'], ['\\'], ';', "\\;");
      ReplaceCharOne('\\', ';', "\\;");
      ReplaceCharConcat(['\\'], ['\\'], ',', "\\,");
      ReplaceCharOne('\\', ',', "\\,");
    } else {
      ReplaceCharOne(c, ';', "\\;");
      if c == ';' {
        assert "\\;" == ['\\'] + [';'];
        ReplaceCharConcat(['\\'], [';'], ',', "\\,");
        ReplaceCharOne('\\', ',', "\\,");
        ReplaceCharOne(';', ',', "\\,");
      } else {
        ReplaceCharOne(c, ',', "\\,");
      }
    }
  }

  lemma MarksStep(v: string)
    requires v != ""
    ensures Marks(v) == Mark(v[0]) + Marks(v[1..])
  {
    assert v == [v[0]] + v[1..];
    ReplaceCharConcat([v[0]], v[1..], '\\', "\\\\");
    ReplaceCharConcat(Replace([v[0]], "\\", "\\\\"), Replace(v[1..], "\\", "\\\\"), ';', "\\;");
    ReplaceCharConcat(Replace(Replace([v[0]], "\\", "\\\\"), ";", "\\;"),
                      Replace(Replace(v[1..], "\\", "\\\\"), ";", "\\;"), ',', "\\,");
    MarkOne(v[0]);
  }

  // A character other than the two of a line break goes through the last two replacements untouched.
  lemma BreaksCopy(c: char, rest: string)
    requires c != '\r' && c != '\n'
    ensures Breaks([c] + rest) == [c] + Breaks(rest)
  {
    CrlfAtStart([c] + rest);
    ReplaceMiss(c, rest, CRLF, "\\n");
    OneAtStart([c] + Replace(rest, CRLF, "\\n"), '\n');
    ReplaceMiss(c, Replace(rest, CRLF, "\\n"), "\n", "\\n");
  }

  lemma BreaksCopyTwo(c: char, d: char, rest: string)
    requires c != '\r' && c != '\n' && d != '\r' && d != '\n'
    ensures Breaks([c, d] + rest) == [c, d] + Breaks(rest)
  {
    assert [c, d] + rest == [c] + ([d] + rest);
    BreaksCopy(c, [d] + rest);
    BreaksCopy(d, rest);
    assert [c] + ([d] + Breaks(rest)) == [c, d] + Breaks(rest);
  }

  lemma BreaksReturn(rest: string)
    requires rest == "" || rest[0] != '\n'
    ensures Breaks("\r" + rest) == "\r" + Breaks(rest)
  {
    assert "\r" == ['\r'];
    CrlfAtStart(['\r'] + rest);
    ReplaceMiss('\r', rest, CRLF, "\\n");
    OneAtStart(['\r'] + Replace(rest, CRLF, "\\n"), '\n');
    ReplaceMiss('\r', Replace(rest, CRLF, "\\n"), "\n", "\\n");
  }

  lemma BreaksNewline(rest: string)
    ensures Breaks("\n" + rest) == "\\n" + Breaks(rest)
  {
    assert "\n" == ['\n'];
    CrlfAtStart(['\n'] + rest);
    ReplaceMiss('\n', rest, CRLF, "\\n");
    ReplaceHit(Replace(rest, CRLF, "\\n"), "\n", "\\n");
  }

  lemma BreaksCrlf(rest: string)
    ensures Breaks(CRLF + rest) == "\\n" + Breaks(rest)
  {
    ReplaceHit(rest, CRLF, "\\n");
    var r := Replace(rest, CRLF, "\\n");
    assert "\\n" + r == ['\\'] + (['n'] + r);
    OneAtStart(['\\'] + (['n'] + r), '\n');
    OneAtStart(['n'] + r, '\n');
    ReplaceMiss('\\', ['n'] + r, "\n", "\\n");
    ReplaceMiss('n', r, "\n", "\\n");
    assert ['\\'] + (['n'] + Replace(r, "\n", "\\n")) == "\\n" + Replace(r, "\n", "\\n");
  }

  lemma EscapeStep(value: string)
    requires value != "" && !StartsCrlf(value)
    ensures EscapeText(value) == EscapeChar(value[0]) + EscapeText(value[1..])
  {
    var c, rest := value[0], value[1..];
    MarksStep(value);
    if c == '\r' {
      if rest != "" { MarksStep(rest); }
      BreaksReturn(Marks(rest));
    } else if c == '\n' {
      BreaksNewline(Marks(rest));
    } else if c == '\\' || c == ';' || c == ',' {
      assert Mark(c) == ['\\', c];
      BreaksCopyTwo('\\', c, Marks(rest));
    } else {
      BreaksCopy(c, Marks(rest));
    }
  }

  lemma EscapeCrlf(value: string)
    requires StartsCrlf(value)
    ensures EscapeText(value) == "\\n" + EscapeText(value[2..])
  {
    MarksStep(value);
    MarksStep(value[1..]);
    assert value[1..][1..] == value[2..];
    assert Marks(value) == CRLF + Marks(value[2..]);
    BreaksCrlf(Marks(value[2..]));
  }

  /** The chain of five replacements is one left-to-right pass. */
  lemma {:induction false} EscapeIsOnePass(value: string)
    ensures EscapeText(value) == EscapeOnce(value)
    decreases |value|
  {
    if value == "" {
    } else if StartsCrlf(value) {
      EscapeCrlf(value);
      EscapeIsOnePass(value[2..]);
    } else {
      EscapeStep(value);
      EscapeIsOnePass(value[1..]);
    }
  }

  lemma UnescapePair(c: char, rest: string)
    ensures Unescape(['\\', c] + rest) == [if c == 'n' || c == 'N' then '\n' else c] + Unescape(rest)
  {
    assert (['\\', c] + rest)[2..] == rest;
  }

  lemma NormalizeStep(value: string)
    requires value != ""
    ensures NormalizeNewlines(value) == if StartsCrlf(value) then "\n" + NormalizeNewlines(value[2..])
                                        else [value[0]] + NormalizeNewlines(value[1..])
  {
    CrlfAtStart(value);
  }

  /** A reader gets every TEXT value back, with CRLF read as LF: for all strings. */
  lemma {:induction false} UnescapeUndoesEscape(value: string)
    ensures Unescape(EscapeText(value)) == NormalizeNewlines(value)
    decreases |value|
  {
    if value == "" {
    } else if StartsCrlf(value) {
      NormalizeStep(value);
      EscapeCrlf(value);
      UnescapeUndoesEscape(value[2..]);
      assert "\\n" == ['\\', 'n'];
      UnescapePair('n', EscapeText(value[2..]));
    } else {
      var c, rest := value[0], value[1..];
      NormalizeStep(value);
      EscapeStep(value);
      UnescapeUndoesEscape(rest);
      if c == '\\' || c == ';' || c == ',' {
        assert EscapeChar(c) == ['\\', c];
        UnescapePair(c, EscapeText(rest));
      } else if c == '\n' {
        assert EscapeChar(c) == ['\\', 'n'];
        UnescapePair('n', EscapeText(rest));
      } else {
        assert ([c] + EscapeText(rest))[1..] == EscapeText(rest);
      }
    }
  }

  lemma {:induction false} EscapedHasNoNewline(value: string)
    ensures '\n' !in EscapeText(value)
    decreases |value|
  {
    if value == "" {
    } else if StartsCrlf(value) {
      EscapeCrlf(value);
      EscapedHasNoNewline(value[2..]);
    } else {
      EscapeStep(value);
      EscapedHasNoNewline(value[1..]);
    }
  }

  // ---------------------------------------------------------------- folding

  // The length of a character in UTF-8.
  function CharOctets(c: char): nat {
    if c as int < 0x80 then 1 else if c as int < 0x800 then 2 else if c as int < 0x10000 then 3 else 4
  }

  function Octets(s: string): nat {
    if s == "" then 0 else Octets(s[..|s| - 1]) + CharOctets(s[|s| - 1])
  }

  // The octets of one code point (section 3 of RFC 3629).
  function Utf8Char(c: char): seq<nat> {
    var n := c as int;
    if n < 128 then [n]
    else if n < 2048 then [192 + n / 64, 128 + n % 64]
    else if n < 65536 then [224 + n / 4096, 128 + n / 64 % 64, 128 + n % 64]
    else [240 + n / 262144, 128 + n / 4096 % 64, 128 + n / 64 % 64, 128 + n % 64]
  }

  function Utf8(s: string): seq<nat> {
    if s == "" then [] else Utf8(s[..|s| - 1]) + Utf8Char(s[|s| - 1])
  }

  // The code point that a lead octet and the ones after it stand for.
  function CodePoint(octets: seq<int>): int
    requires octets != []
  {
    var lead := octets[0];
    if lead < 128 then lead
    else if lead < 224 && |octets| > 1 then (lead - 192) * 64 + (octets[1] - 128)
    else if lead < 240 && |octets| > 2 then (lead - 224) * 4096 + (octets[1] - 128) * 64 + (octets[2] - 128)
    else if |octets| > 3 then
      (lead - 240) * 262144 + (octets[1] - 128) * 4096 + (octets[2] - 128) * 64 + (octets[3] - 128)
    else lead
  }

  // The six low bits of a number, and of what is above them.
  lemma SixBits(n: nat)
    ensures n == n / 64 * 64 + n % 64 && n / 64 == n / 4096 * 64 + n / 64 % 64
    ensures n / 4096 == n / 262144 * 64 + n / 4096 % 64
  {
    assert n / 64 / 64 == n / 4096 && n / 4096 / 64 == n / 262144;
  }

  lemma ThreeOctetsRead(n: nat)
    requires 2048 <= n < 65536
    ensures 224 <= 224 + n / 4096 < 240
    ensures CodePoint([224 + n / 4096, 128 + n / 64 % 64, 128 + n % 64]) == n
  {
    SixBits(n);
  }

  lemma FourOctetsRead(n: nat)
    requires 65536 <= n < 0x110000
    ensures 240 <= 240 + n / 262144
    ensures CodePoint([240 + n / 262144, 128 + n / 4096 % 64, 128 + n / 64 % 64, 128 + n % 64]) == n
  {
    SixBits(n);
  }

  lemma Utf8CharReads(c: char)
    ensures |Utf8Char(c)| == CharOctets(c) && CodePoint(Utf8Char(c)) == c as int
  {
    var n := c as int;
    if n >= 65536 { FourOctetsRead(n); } else if n >= 2048 { ThreeOctetsRead(n); }
    if n >= 2048 { hide CodePoint; }
  }

  /** The octets counted are those of UTF-8, from which each character reads back. */
  lemma {:induction false} OctetsAreUtf8(s: string)
    ensures Octets(s) == |Utf8(s)|
    ensures forall i | 0 <= i < |s| :: CodePoint(Utf8Char(s[i])) == s[i] as int
    decreases |s|
  {
    forall i | 0 <= i < |s| ensures CodePoint(Utf8Char(s[i])) == s[i] as int { Utf8CharReads(s[i]); }
    if s != "" {
      OctetsAreUtf8(s[..|s| - 1]);
      Utf8CharReads(s[|s| - 1]);
    }
  }

  // The pieces a line is cut into, from a piece under construction, what is left and the room per piece.
  function Pieces(current: string, rest: string, limit: nat): seq<string>
    decreases |rest|
  {
    if rest == "" then [current]
    else if Octets(current + [rest[0]]) > limit then
      [current] + Pieces([rest[0]], rest[1..], MAX_LINE_OCTETS - 1)
    else Pieces(current + [rest[0]], rest[1..], limit)
  }

  function Join(pieces: seq<string>, glue: string): string {
    if pieces == [] then "" else if |pieces| == 1 then pieces[0] else pieces[0] + glue + Join(pieces[1..], glue)
  }

  function FoldedPieces(line: string): seq<string> {
    if Octets(line) <= MAX_LINE_OCTETS then [line] else Pieces("", line, MAX_LINE_OCTETS)
  }

  function Folded(line: string): string { Join(FoldedPieces(line), FOLD) }

  lemma {:induction false} JoinAppend(a: seq<string>, b: seq<string>, glue: string)
    requires a != [] && b != []
    ensures Join(a + b, glue) == Join(a, glue) + glue + Join(b, glue)
    decreases |a|
  {
    if |a| == 1 {
      assert (a + b)[1..] == b;
    } else {
      assert (a + b)[1..] == a[1..] + b;
      JoinAppend(a[1..], b, glue);
    }
  }

  method Fold(line: string) returns (folded: string)
    ensures folded == Folded(line)
  {
    if Octets(line) <= MAX_LINE_OCTETS {
      return line;
    }
    var pieces: seq<string>, current := [], "";
    var limit: nat := MAX_LINE_OCTETS;
    for i := 0 to |line|
      invariant pieces + Pieces(current, line[i..], limit) == Pieces("", line, MAX_LINE_OCTETS)
    {
      var c := line[i];
      assert line[i..][1..] == line[i + 1..];
      if Octets(current + [c]) > limit {
        pieces, current, limit := pieces + [current], [c], MAX_LINE_OCTETS - 1;
      } else {
        current := current + [c];
      }
    }
    pieces := pieces + [current];
    folded := Join(pieces, FOLD);
  }

  lemma OctetsOneMore(s: string, c: char)
    ensures Octets(s + [c]) == Octets(s) + CharOctets(c) && 1 <= CharOctets(c) <= 4 && Octets("") == 0
  {
    assert (s + [c])[..|s|] == s;
  }

  // What the pieces under construction are good for.
  lemma {:induction false} PiecesFit(current: string, rest: string, limit: nat)
    requires Octets(current) <= limit && 4 <= limit <= MAX_LINE_OCTETS
    requires current == "" ==> rest != ""
    ensures var ps := Pieces(current, rest, limit);
            && Concat(ps) == current + rest
            && Octets(ps[0]) <= limit
            && (forall k | 0 < k < |ps| :: Octets(ps[k]) <= MAX_LINE_OCTETS - 1)
            && (forall k | 0 <= k < |ps| :: ps[k] != "")
    decreases |rest|
  {
    if rest == "" {
      assert current + rest == current;
    } else {
      var c, tail := rest[0], rest[1..];
      assert current + rest == current + [c] + tail;
      OctetsOneMore(current, c);
      OctetsOneMore("", c);
      assert "" + [c] == [c];
      hide Octets, CharOctets;
      if Octets(current + [c]) > limit {
        assert current != "";
        PiecesFit([c], tail, MAX_LINE_OCTETS - 1);
        ConcatCons(current, Pieces([c], tail, MAX_LINE_OCTETS - 1));
      } else {
        PiecesFit(current + [c], tail, limit);
      }
    }
  }

  function Concat(pieces: seq<string>): string { if pieces == [] then "" else pieces[0] + Concat(pieces[1..]) }

  lemma ConcatCons(p: string, ps: seq<string>)
    ensures Concat([p] + ps) == p + Concat(ps)
  {
    assert ([p] + ps)[1..] == ps;
  }

  /** Folding cuts every line into non-empty runs of whole characters that add up to the line, the first within
      75 octets and each later one within 74, which leaves its leading space in. */
  lemma FoldFits(line: string)
    ensures var ps := FoldedPieces(line);
            && Concat(ps) == line && |ps| > 0 && Octets(ps[0]) <= 75
            && (forall k | 0 < k < |ps| :: 1 + Octets(ps[k]) <= 75)
            && (|ps| > 1 ==> forall k | 0 <= k < |ps| :: ps[k] != "")
  {
    if Octets(line) <= MAX_LINE_OCTETS {
      ConcatCons(line, []);
    } else {
      PiecesFit("", line, MAX_LINE_OCTETS);
      assert "" + line == line;
    }
  }

  // ---------------------------------------------------------------- reading back

  // No CRLF anywhere in the string.
  predicate NoCrlf(s: string)
    decreases |s|
  {
    s == "" || (!StartsCrlf(s) && NoCrlf(s[1..]))
  }

  predicate AllNoCrlf(ps: seq<string>) { forall k | 0 <= k < |ps| :: NoCrlf(ps[k]) }

  // Whether a CRLF spans the seam of two strings.
  predicate SplitsCrlf(a: string, b: string) { a != "" && b != "" && a[|a| - 1] == '\r' && b[0] == '\n' }

  lemma {:induction false} NoCrlfConcat(a: string, b: string)
    ensures NoCrlf(a + b) <==> NoCrlf(a) && NoCrlf(b) && !SplitsCrlf(a, b)
    decreases |a|
  {
    if a == "" {
      assert a + b == b;
    } else {
      assert (a + b)[1..] == a[1..] + b;
      NoCrlfConcat(a[1..], b);
      if |a| == 1 { assert a[1..] == ""; } else { assert StartsCrlf(a + b) == StartsCrlf(a); }
    }
  }

  // A reader's first step: a CRLF followed by a space is no line end.
  function Unfold(text: string): string { Replace(text, FOLD, "") }

  // A reader's second step: the lines that CRLF ends.
  function Lines(current: string, text: string): seq<string>
    decreases |text|
  {
    if text == "" then (if current == "" then [] else [current])
    else if StartsCrlf(text) then [current] + Lines("", text[2..])
    else Lines(current + [text[0]], text[1..])
  }

  function ContentLinesOf(text: string): seq<string> { Lines("", Unfold(text)) }

  lemma FoldAtStart(s: string)
    ensures StartsWith(s, FOLD) <==> StartsCrlf(s) && |s| > 2 && s[2] == ' '
  {
    if StartsWith(s, FOLD) { assert s[0] == FOLD[0] && s[1] == FOLD[1] && s[2] == FOLD[2]; }
  }

  // Text with no CRLF in it is copied up to where the next CRLF may start.
  lemma {:induction false} UnfoldCopies(s: string, rest: string)
    requires NoCrlf(s) && !SplitsCrlf(s, rest)
    ensures Unfold(s + rest) == s + Unfold(rest)
    decreases |s|
  {
    if s == "" {
      assert s + rest == rest;
    } else {
      var tail := s[1..];
      assert s + rest == [s[0]] + (tail + rest);
      if |s| > 1 { assert (s + rest)[1] == s[1]; }
      FoldAtStart(s + rest);
      ReplaceMiss(s[0], tail + rest, FOLD, "");
      UnfoldCopies(tail, rest);
      assert [s[0]] + (tail + Unfold(rest)) == s + Unfold(rest);
    }
  }

  // A real line end stays.
  lemma UnfoldKeepsLineEnd(rest: string)
    requires rest == "" || rest[0] != ' '
    ensures Unfold(CRLF + rest) == CRLF + Unfold(rest)
  {
    assert CRLF + rest == ['\r'] + (['\n'] + rest);
    FoldAtStart(CRLF + rest);
    ReplaceMiss('\r', ['\n'] + rest, FOLD, "");
    FoldAtStart(['\n'] + rest);
    ReplaceMiss('\n', rest, FOLD, "");
    assert ['\r'] + (['\n'] + Unfold(rest)) == CRLF + Unfold(rest);
  }

  lemma {:induction false} UnfoldJoins(ps: seq<string>, rest: string)
    requires ps != [] && AllNoCrlf(ps) && (rest == "" || rest[0] != '\n')
    ensures Unfold(Join(ps, FOLD) + rest) == Concat(ps) + Unfold(rest)
    decreases |ps|
  {
    if |ps| == 1 {
      assert ps == [ps[0]];
      ConcatCons(ps[0], []);
      UnfoldCopies(ps[0], rest);
    } else {
      hide Unfold, NoCrlf, FOLD;
      UnfoldJoins(ps[1..], rest);
      UnfoldPiece(ps[0], Join(ps[1..], FOLD) + rest);
      Regroup(ps[0], FOLD, Join(ps[1..], FOLD), rest);
      Regroup(ps[0], "", Concat(ps[1..]), Unfold(rest));
    }
  }

  lemma Regroup(a: string, b: string, c: string, d: string)
    ensures a + b + c + d == a + (b + (c + d))
    ensures a + c + d == a + (c + d)
  {
  }

  lemma UnfoldPiece(piece: string, tail: string)
    requires NoCrlf(piece)
    ensures Unfold(piece + (FOLD + tail)) == piece + Unfold(tail)
  {
    UnfoldCopies(piece, FOLD + tail);
    ReplaceHit(tail, FOLD, "");
    assert "" + Unfold(tail) == Unfold(tail);
  }

  // Parts of a string with no CRLF have none.
  lemma {:induction false} PartsHaveNoCrlf(ps: seq<string>)
    requires NoCrlf(Concat(ps))
    ensures AllNoCrlf(ps)
    decreases |ps|
  {
    if ps != [] {
      NoCrlfConcat(ps[0], Concat(ps[1..]));
      PartsHaveNoCrlf(ps[1..]);
      forall k | 0 <= k < |ps| ensures NoCrlf(ps[k]) {
        if k > 0 { assert ps[k] == ps[1..][k - 1]; }
      }
    }
  }

  /** Unfolding undoes folding, for every line without a line break. */
  lemma UnfoldUndoesFold(line: string)
    requires NoCrlf(line)
    ensures Unfold(Folded(line)) == line
  {
    FoldFits(line);
    PartsHaveNoCrlf(FoldedPieces(line));
    UnfoldJoins(FoldedPieces(line), "");
    assert Folded(line) + "" == Folded(line) && line + Unfold("") == line;
  }

  // Reading up to a line end.
  lemma {:induction false} LinesReadsOne(current: string, line: string, rest: string)
    requires NoCrlf(line)
    ensures Lines(current, line + (CRLF + rest)) == [current + line] + Lines("", rest)
    decreases |line|
  {
    var text := line + (CRLF + rest);
    if line == "" {
      assert text == CRLF + rest && text[2..] == rest && current + line == current;
    } else {
      if |line| > 1 { assert text[1] == line[1]; }
      assert text[1..] == line[1..] + (CRLF + rest);
      LinesReadsOne(current + [line[0]], line[1..], rest);
      assert current + [line[0]] + line[1..] == current + line;
    }
  }

  // What is read as a line has no CRLF in it.
  lemma {:induction false} LinesHaveNoCrlf(current: string, text: string)
    requires NoCrlf(current) && !SplitsCrlf(current, text)
    ensures AllNoCrlf(Lines(current, text))
    decreases |text|
  {
    if text == "" {
    } else if StartsCrlf(text) {
      LinesHaveNoCrlf("", text[2..]);
    } else {
      var one := [text[0]];
      assert one[1..] == "" && NoCrlf(one);
      NoCrlfConcat(current, one);
      LinesHaveNoCrlf(current + one, text[1..]);
    }
  }

  function Rendered(lines: seq<string>): string {
    if lines == [] then "" else Folded(lines[0]) + CRLF + Rendered(lines[1..])
  }

  lemma FoldedStart(line: string)
    requires line != ""
    ensures Folded(line) != "" && Folded(line)[0] == line[0]
  {
    FoldFits(line);
    var ps := FoldedPieces(line);
    assert line == ps[0] + Concat(ps[1..]);
    if |ps| == 1 { assert ps[1..] == []; }
  }

  // Content lines a reader can tell apart: none is empty or starts with a blank.
  predicate ProperLines(lines: seq<string>) {
    forall k | 0 <= k < |lines| :: lines[k] != "" && lines[k][0] != ' ' && lines[k][0] != '\n'
  }

  lemma RenderedStart(lines: seq<string>)
    requires ProperLines(lines)
    ensures Rendered(lines) == "" || (Rendered(lines)[0] != ' ' && Rendered(lines)[0] != '\n')
  {
    if lines != [] { FoldedStart(lines[0]); }
  }

  // One folded line, read back in front of the rest.
  lemma FoldedLineUnfolds(line: string, rest: string)
    requires NoCrlf(line) && (rest == "" || (rest[0] != ' ' && rest[0] != '\n'))
    ensures Unfold(Folded(line) + (CRLF + rest)) == line + (CRLF + Unfold(rest))
  {
    FoldFits(line);
    PartsHaveNoCrlf(FoldedPieces(line));
    UnfoldJoins(FoldedPieces(line), CRLF + rest);
    UnfoldKeepsLineEnd(rest);
  }

  lemma {:induction false} RenderedUnfolds(lines: seq<string>)
    requires ProperLines(lines) && AllNoCrlf(lines)
    ensures ContentLinesOf(Rendered(lines)) == lines
    decreases |lines|
  {
    if lines == [] {
      assert Rendered(lines) == "";
    } else {
      RenderedUnfolds(lines[1..]);
      RenderedStart(lines[1..]);
      FirstLineUnfolds(lines[0], Rendered(lines[1..]));
      RenderedSplits(lines);
    }
  }

  lemma RenderedSplits(lines: seq<string>)
    requires lines != []
    ensures Rendered(lines) == Folded(lines[0]) + (CRLF + Rendered(lines[1..]))
    ensures lines == [lines[0]] + lines[1..]
  {
    hide Folded, CRLF, Rendered;
    assert Rendered(lines) == Folded(lines[0]) + CRLF + Rendered(lines[1..]) by { RenderedFirst(lines); }
    Regroup(Folded(lines[0]), "", CRLF, Rendered(lines[1..]));
  }

  lemma RenderedFirst(lines: seq<string>)
    requires lines != []
    ensures Rendered(lines) == Folded(lines[0]) + CRLF + Rendered(lines[1..])
  {
  }

  lemma FirstLineUnfolds(line: string, rest: string)
    requires NoCrlf(line) && (rest == "" || (rest[0] != ' ' && rest[0] != '\n'))
    ensures ContentLinesOf(Folded(line) + (CRLF + rest)) == [line] + ContentLinesOf(rest)
  {
    FoldedLineUnfolds(line, rest);
    LinesReadsOne("", line, Unfold(rest));
    hide Folded, CRLF, NoCrlf, Unfold, Lines;
    assert "" + line == line;
  }

  /** Splitting and unfolding recovers the content lines, in order, exactly when none of them holds a CRLF. */
  lemma RenderedParsesBack(lines: seq<string>)
    requires ProperLines(lines)
    ensures ContentLinesOf(Rendered(lines)) == lines <==> AllNoCrlf(lines)
  {
    LinesHaveNoCrlf("", Unfold(Rendered(lines)));
    if AllNoCrlf(lines) { RenderedUnfolds(lines); }
  }

  // Physical lines within the limit.
  predicate AllFit(lines: seq<string>) { forall k | 0 <= k < |lines| :: Octets(lines[k]) <= 75 }

  // Pieces that fit as continuation lines.
  predicate FitBehindSpace(ps: seq<string>) {
    forall k | 0 <= k < |ps| :: NoCrlf(ps[k]) && 1 + Octets(ps[k]) <= MAX_LINE_OCTETS
  }

  // One physical line in front of more.
  lemma OneMoreFits(line: string, rest: string)
    requires NoCrlf(line) && Octets(line) <= MAX_LINE_OCTETS && AllFit(Lines("", rest))
    ensures AllFit(Lines("", line + (CRLF + rest)))
  {
    LinesReadsOne("", line, rest);
    assert "" + line == line;
  }

  lemma SpaceBefore(s: string)
    ensures Octets(" " + s) == 1 + Octets(s) && (NoCrlf(s) ==> NoCrlf(" " + s))
  {
    PrefixOctets(" ", s);
    NoCrlfConcat(" ", s);
    assert " "[1..] == "";
  }

  lemma {:induction false} ContinuationsFit(ps: seq<string>, rest: string)
    requires ps != [] && FitBehindSpace(ps) && AllFit(Lines("", rest))
    ensures AllFit(Lines("", " " + Join(ps, FOLD) + (CRLF + rest)))
    decreases |ps|
  {
    SpaceBefore(ps[0]);
    if |ps| == 1 {
      OneMoreFits(" " + ps[0], rest);
    } else {
      ContinuationsFit(ps[1..], rest);
      var next := " " + Join(ps[1..], FOLD) + (CRLF + rest);
      OneMoreFits(" " + ps[0], next);
      assert " " + Join(ps, FOLD) + (CRLF + rest) == " " + ps[0] + (CRLF + next);
    }
  }

  lemma {:induction false} PrefixOctets(prefix: string, s: string)
    requires prefix == " "
    ensures Octets(prefix + s) == 1 + Octets(s)
    decreases |s|
  {
    if s == "" {
      assert prefix + s == prefix && prefix[..0] == "";
    } else {
      assert (prefix + s)[..|prefix + s| - 1] == prefix + s[..|s| - 1];
      PrefixOctets(prefix, s[..|s| - 1]);
    }
  }

  /** Every physical line of a rendered calendar, leading spaces included, is within 75 octets. */
  lemma {:induction false} RenderedFits(lines: seq<string>)
    requires AllNoCrlf(lines)
    ensures AllFit(Lines("", Rendered(lines)))
    decreases |lines|
  {
    if lines == [] {
      assert Rendered(lines) == "";
    } else {
      RenderedFits(lines[1..]);
      FirstLineFits(lines[0], Rendered(lines[1..]));
      RenderedSplits(lines);
    }
  }

  // The physical lines of one folded line, in front of more.
  lemma FirstLineFits(line: string, rest: string)
    requires NoCrlf(line) && AllFit(Lines("", rest))
    ensures AllFit(Lines("", Folded(line) + (CRLF + rest)))
  {
    var ps := FoldedPieces(line);
    FoldFits(line);
    PartsHaveNoCrlf(ps);
    if |ps| == 1 {
      assert Folded(line) == ps[0];
      OneMoreFits(ps[0], rest);
    } else {
      ContinuationsFit(ps[1..], rest);
      var next := " " + Join(ps[1..], FOLD) + (CRLF + rest);
      OneMoreFits(ps[0], next);
      FoldedSplits(ps, rest);
    }
  }

  lemma FoldedSplits(ps: seq<string>, rest: string)
    requires |ps| > 1
    ensures Join(ps, FOLD) + (CRLF + rest) == ps[0] + (CRLF + (" " + Join(ps[1..], FOLD) + (CRLF + rest)))
  {
    var tail := Join(ps[1..], FOLD);
    assert FOLD + tail == CRLF + (" " + tail);
  }
}
