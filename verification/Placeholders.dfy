/**
 The placeholder engine of services/email_render.py: the token pattern, substitution into plain text and into
 HTML, and the reader that takes the HTML back to the text.
 */
module Placeholders {
  import opened Basics
  import opened Text

  // ---------------------------------------------------------------- the token pattern

  // A match at the start of a text: the name it captures and the length it spans.
  datatype Token = Token(name: string, length: nat)

  predicate IsNameChar(c: char) { 'a' <= c <= 'z' || c == '_' }

  // The run of spaces, and the run of name characters, at the start of a text.
  function Spaces(t: string): (n: nat)
    ensures n <= |t|
  {
    if t != "" && IsSpace(t[0]) then 1 + Spaces(t[1..]) else 0
  }

  function NameChars(t: string): (n: nat)
    ensures n <= |t|
  {
    if t != "" && IsNameChar(t[0]) then 1 + NameChars(t[1..]) else 0
  }

  // A text without its leading spaces, and without its leading name characters.
  function AfterSpaces(t: string): string { t[Spaces(t)..] }

  function AfterName(t: string): string { t[NameChars(t)..] }

  // Two braces, spaces, a name, spaces, two braces. Spaces and name characters are disjoint, so taking
  // as many of each as there are is the only way to match.
  function TokenAt(t: string): Option<Token> {
    if |t| < 2 || t[0] != '{' || t[1] != '{' then None
    else
      var named := AfterSpaces(t[2..]);
      var close := AfterSpaces(AfterName(named));
      if NameChars(named) > 0 && |close| > 1 && close[0] == '}' && close[1] == '}'
      then Some(Token(named[..NameChars(named)], |t| - |close| + 2)) else None
  }

  // The declarative reading of the pattern.
  ghost predicate IsTokenText(s: string, name: string) {
    exists x, y :: AllSpaces(x) && AllSpaces(y) && s == TokenText(x, name, y) && AllNameChars(name) && name != ""
  }

  function TokenText(x: string, name: string, y: string): string { "{{" + (x + (name + (y + "}}"))) }

  predicate AllSpaces(s: string) { s == "" || (IsSpace(s[0]) && AllSpaces(s[1..])) }

  predicate AllNameChars(s: string) { s == "" || (IsNameChar(s[0]) && AllNameChars(s[1..])) }

  lemma {:induction false} SpacesOf(x: string, rest: string)
    requires AllSpaces(x) && rest != "" && !IsSpace(rest[0])
    ensures Spaces(x + rest) == |x|
  {
    hide IsSpace;
    if x == "" {
      assert x + rest == rest;
    } else {
      assert (x + rest)[1..] == x[1..] + rest;
      SpacesOf(x[1..], rest);
    }
  }

  lemma {:induction false} NameCharsOf(x: string, rest: string)
    requires AllNameChars(x) && rest != "" && !IsNameChar(rest[0])
    ensures NameChars(x + rest) == |x|
  {
    if x == "" {
      assert x + rest == rest;
    } else {
      assert (x + rest)[1..] == x[1..] + rest;
      NameCharsOf(x[1..], rest);
    }
  }

  lemma {:induction false} SpacesAreSpaces(t: string)
    ensures AllSpaces(t[..Spaces(t)]) && (Spaces(t) < |t| ==> !IsSpace(t[Spaces(t)]))
  {
    if t != "" && IsSpace(t[0]) {
      SpacesAreSpaces(t[1..]);
      assert t[..Spaces(t)][1..] == t[1..][..Spaces(t[1..])];
    }
  }

  lemma {:induction false} NameCharsAreNameChars(t: string)
    ensures AllNameChars(t[..NameChars(t)])
  {
    if t != "" && IsNameChar(t[0]) {
      NameCharsAreNameChars(t[1..]);
      assert t[..NameChars(t)][1..] == t[1..][..NameChars(t[1..])];
    }
  }

  lemma Cut(x: string, rest: string)
    ensures (x + rest)[|x|..] == rest && (x + rest)[..|x|] == x
  {
  }

  lemma TokenTextBehind(x: string, name: string, y: string, rest: string)
    ensures TokenText(x, name, y) + rest == "{{" + (x + (name + (y + ("}}" + rest))))
    ensures |TokenText(x, name, y)| == 4 + |x| + |name| + |y|
  {
    assert y + "}}" + rest == y + ("}}" + rest);
    assert name + (y + "}}") + rest == name + (y + "}}" + rest);
    assert x + (name + (y + "}}")) + rest == x + (name + (y + "}}") + rest);
  }

  // A token cut into its parts.
  lemma TokenFromParts(t: string, x: string, named: string, name: string, behind: string, y: string, close: string)
    requires t == "{{" + (x + named) && named == name + behind && behind == y + close
    requires Spaces(x + named) == |x| && NameChars(named) == |name| > 0 && Spaces(behind) == |y|
    requires |close| > 1 && close[0] == '}' && close[1] == '}'
    ensures TokenAt(t) == Some(Token(name, 4 + |x| + |name| + |y|))
  {
    hide Spaces, NameChars;
    assert AfterSpaces(x + named) == named by { Cut(x, named); }
    assert AfterName(named) == behind && named[..NameChars(named)] == name by { Cut(name, behind); }
    assert AfterSpaces(behind) == close by { Cut(y, close); }
    Cut("{{", x + named);
    assert t[2..] == x + named;
  }

  lemma MatchesTokenText(x: string, name: string, y: string, rest: string)
    requires AllSpaces(x) && AllSpaces(y) && AllNameChars(name) && name != ""
    ensures TokenAt(TokenText(x, name, y) + rest) == Some(Token(name, |TokenText(x, name, y)|))
  {
    hide TokenAt, TokenText, Spaces, NameChars, AllNameChars;
    var close := "}}" + rest;
    var behind := y + close;
    var named := name + behind;
    TokenTextBehind(x, name, y, rest);
    FirstIsSpace(y);
    FirstIsNameChar(name);
    SpacesOf(x, named);
    NameCharsOf(name, behind);
    SpacesOf(y, close);
    TokenFromParts(TokenText(x, name, y) + rest, x, named, name, behind, y, close);
  }

  lemma FirstIsSpace(s: string)
    requires AllSpaces(s)
    ensures s != "" ==> IsSpace(s[0]) && !IsNameChar(s[0])
  {
  }

  lemma FirstIsNameChar(s: string)
    requires AllNameChars(s) && s != ""
    ensures IsNameChar(s[0]) && !IsSpace(s[0])
  {
  }

  lemma {:induction false} NoBraceInSpaces(s: string)
    requires AllSpaces(s) || AllNameChars(s)
    ensures '{' !in s
  {
    if s != "" { NoBraceInSpaces(s[1..]); }
  }

  lemma SpacesCut(t: string) returns (x: string)
    ensures AllSpaces(x) && t == x + AfterSpaces(t)
  {
    SpacesAreSpaces(t);
    x := t[..Spaces(t)];
  }

  lemma NameCut(t: string)
    ensures AllNameChars(t[..NameChars(t)]) && t == t[..NameChars(t)] + AfterName(t) && |t[..NameChars(t)]| == NameChars(t)
  {
    NameCharsAreNameChars(t);
  }

  // A text that matches, cut where the scanner cuts it.
  lemma TokenCuts(t: string) returns (x: string, y: string, rest: string)
    requires TokenAt(t).Some?
    ensures var m := TokenAt(t).value;
            && AllSpaces(x) && AllSpaces(y) && AllNameChars(m.name) && m.name != ""
            && m.length + |rest| == |t|
            && t == "{{" + (x + (m.name + (y + ("}}" + rest))))
  {
    hide AllSpaces, AllNameChars, NameChars, AfterSpaces, AfterName;
    var named := AfterSpaces(t[2..]);
    var close := AfterSpaces(AfterName(named));
    x := SpacesCut(t[2..]);
    NameCut(named);
    y := SpacesCut(AfterName(named));
    rest := close[2..];
    assert close == "}}" + rest;
    assert t == "{{" + t[2..];
  }

  // What a match looks like.
  lemma TokenParts(t: string) returns (x: string, y: string)
    requires TokenAt(t).Some?
    ensures var m := TokenAt(t).value;
            && AllSpaces(x) && AllSpaces(y) && AllNameChars(m.name) && m.name != ""
            && m.length == |TokenText(x, m.name, y)| <= |t| && t[..m.length] == TokenText(x, m.name, y)
  {
    hide TokenAt, AllSpaces, AllNameChars, TokenText;
    var rest;
    x, y, rest := TokenCuts(t);
    TokenTextBehind(x, TokenAt(t).value.name, y, rest);
    Cut(TokenText(x, TokenAt(t).value.name, y), rest);
  }

  lemma TokenTextShape(x: string, name: string, y: string)
    requires AllSpaces(x) && AllSpaces(y) && AllNameChars(name) && name != ""
    ensures var s := TokenText(x, name, y); |s| > 4 && s[|s| - 1] == '}' && '{' !in s[2..]
  {
    hide AllSpaces, AllNameChars;
    NoBraceInSpaces(x);
    NoBraceInSpaces(name);
    NoBraceInSpaces(y);
    Cut("{{", x + (name + (y + "}}")));
  }

  lemma TokenShape(t: string)
    requires TokenAt(t).Some?
    ensures var m := TokenAt(t).value;
            4 < m.length <= |t| && IsTokenText(t[..m.length], m.name)
            && t[m.length - 1] == '}' && '{' !in t[2..m.length]
  {
    hide TokenAt, TokenText, AllSpaces, AllNameChars;
    var x, y := TokenParts(t);
    var m := TokenAt(t).value;
    TokenTextShape(x, m.name, y);
    assert t[..m.length][2..] == t[2..m.length];
  }

  /** The scanner finds a token at the start of a text exactly when a prefix has the declared shape. */
  lemma TokenAtIsThePattern(t: string, name: string, length: nat)
    ensures TokenAt(t) == Some(Token(name, length)) <==> length <= |t| && IsTokenText(t[..length], name)
  {
    hide TokenAt, IsTokenText;
    if TokenAt(t) == Some(Token(name, length)) { TokenShape(t); }
    if length <= |t| && IsTokenText(t[..length], name) {
      assert t == t[..length] + t[length..];
      PatternIsFound(t[..length], t[length..], name, t);
    }
  }

  lemma PatternIsFound(s: string, rest: string, name: string, t: string)
    requires IsTokenText(s, name) && t == s + rest
    ensures TokenAt(t) == Some(Token(name, |s|))
  {
    var x, y :| AllSpaces(x) && AllSpaces(y) && s == TokenText(x, name, y) && AllNameChars(name) && name != "";
    MatchesTokenText(x, name, y, rest);
  }

  // Text behind a match does not change it.
  lemma TokenExtends(t: string, more: string)
    requires TokenAt(t).Some?
    ensures TokenAt(t + more) == TokenAt(t)
  {
    hide TokenAt, IsTokenText;
    TokenShape(t);
    var m := TokenAt(t).value;
    assert t + more == t[..m.length] + (t[m.length..] + more);
    PatternIsFound(t[..m.length], t[m.length..] + more, m.name, t + more);
  }

  // No token starts inside another.
  lemma TokensDoNotOverlap(t: string, i: nat)
    requires TokenAt(t).Some? && 0 < i < TokenAt(t).value.length
    ensures TokenAt(t[i..]) == None
  {
    hide IsTokenText;
    TokenShape(t);
    var n := TokenAt(t).value.length;
    if i + 1 < n {
      assert t[2..n][i - 1] == t[i + 1] == t[i..][1];
    } else {
      assert t[i..][0] == t[n - 1] == '}';
    }
  }

  // ---------------------------------------------------------------- scanning

  datatype Piece = Literal(c: char) | Hole(name: string, raw: string)

  // finditer: what the text is made of, from left to right.
  function Scan(t: string): seq<Piece>
    decreases |t|
  {
    if t == "" then []
    else match TokenAt(t)
      case Some(m) =>
        if 0 < m.length <= |t| then [Hole(m.name, t[..m.length])] + Scan(t[m.length..]) else []
      case None => [Literal(t[0])] + Scan(t[1..])
  }

  // findall: the names in the text.
  function NamesIn(ps: seq<Piece>): set<string> { set p | p in ps && p.Hole? :: p.name }

  function Names(t: string): set<string> { NamesIn(Scan(t)) }

  // A token of this name starts at this place.
  predicate MentionsAt(t: string, name: string, i: int) {
    0 <= i <= |t| && TokenAt(t[i..]).Some? && TokenAt(t[i..]).value.name == name
  }

  // ... or anywhere.
  ghost predicate Mentions(t: string, name: string) { exists i :: MentionsAt(t, name, i) }

  lemma ScanStep(t: string)
    requires t != ""
    ensures match TokenAt(t)
            case Some(m) => 0 < m.length <= |t| && Scan(t) == [Hole(m.name, t[..m.length])] + Scan(t[m.length..])
                            && Names(t) == {m.name} + Names(t[m.length..])
            case None => Scan(t) == [Literal(t[0])] + Scan(t[1..]) && Names(t) == Names(t[1..])
  {
    hide TokenAt;
    if TokenAt(t).Some? {
      TokenShape(t);
      var m := TokenAt(t).value;
      var rest := Scan(t[m.length..]);
      forall n ensures n in Names(t) <==> n == m.name || n in NamesIn(rest) {
        if n == m.name { assert Scan(t)[0] in Scan(t); }
        if p :| p in rest && p.Hole? && p.name == n { assert p in Scan(t); }
      }
    } else {
      var rest := Scan(t[1..]);
      forall n ensures n in Names(t) <==> n in NamesIn(rest) {
        if p :| p in rest && p.Hole? && p.name == n { assert p in Scan(t); }
      }
    }
  }

  // The first step of a scan and the tokens behind it.
  lemma MentionsStep(t: string, name: string)
    requires t != ""
    ensures var step := if TokenAt(t).Some? then TokenAt(t).value.length else 1;
            && 0 < step <= |t|
            && (Mentions(t, name) <==> MentionsAt(t, name, 0) || Mentions(t[step..], name))
  {
    hide TokenAt, Scan, Names, NamesIn;
    ScanStep(t);
    var step := if TokenAt(t).Some? then TokenAt(t).value.length else 1;
    var rest := t[step..];
    if i :| MentionsAt(rest, name, i) {
      assert rest[i..] == t[i + step..];
      assert MentionsAt(t, name, i + step);
    }
    if i :| MentionsAt(t, name, i) && i > 0 {
      if i < step { TokensDoNotOverlap(t, i); }
      assert t[i..] == rest[i - step..];
      assert MentionsAt(rest, name, i - step);
    }
  }

  /** The left-to-right scan misses no token: it finds a name exactly when a token of that name stands anywhere. */
  lemma {:induction false} ScanFindsEveryToken(t: string, name: string)
    ensures name in Names(t) <==> Mentions(t, name)
    decreases |t|
  {
    if t == "" {
      assert Names(t) == {};
    } else {
      ScanStep(t);
      MentionsStep(t, name);
      assert t[0..] == t;
      ScanFindsEveryToken(t[if TokenAt(t).Some? then TokenAt(t).value.length else 1..], name);
    }
  }

  lemma NamesOfPart(a: string, b: string, name: string)
    requires name in Names(a) || name in Names(b)
    ensures name in Names(a + "\n" + b)
  {
    hide TokenAt, Names, NamesIn, Scan;
    var joined := a + "\n" + b;
    ScanFindsEveryToken(a, name);
    ScanFindsEveryToken(b, name);
    ScanFindsEveryToken(joined, name);
    if i :| MentionsAt(a, name, i) {
      TokenExtends(a[i..], "\n" + b);
      assert joined[i..] == a[i..] + ("\n" + b);
      assert MentionsAt(joined, name, i);
    } else {
      var i :| MentionsAt(b, name, i);
      assert joined[i + |a| + 1..] == b[i..];
      assert MentionsAt(joined, name, i + |a| + 1);
    }
  }

  /** Joining two texts with a newline loses no token of either. */
  lemma JoinKeepsTokens(a: string, b: string)
    ensures Names(a) <= Names(a + "\n" + b) && Names(b) <= Names(a + "\n" + b)
  {
    forall name | name in Names(a) || name in Names(b) ensures name in Names(a + "\n" + b) {
      NamesOfPart(a, b, name);
    }
  }

  // ---------------------------------------------------------------- substitution

  datatype Result = Text(text: string) | KeyError(name: string)

  const BOLD_TAG := "<b style=\"font-weight: 600;\""
  const BOLD := BOLD_TAG + ">"
  const BOLD_END := "</b>"

  function EscapeHtmlChar(c: char): string {
    if c == '&' then "&amp;" else if c == '<' then "&lt;" else if c == '>' then "&gt;" else [c]
  }

  function EscapeHtml(s: string): string {
    if s == "" then "" else EscapeHtmlChar(s[0]) + EscapeHtml(s[1..])
  }

  // How a literal character and a value are written.
  function Written(s: string, html: bool): string { if html then EscapeHtml(s) else s }

  function WrittenValue(name: string, value: string, html: bool): string {
    if html && name == "job_title" then BOLD + EscapeHtml(value) + BOLD_END else Written(value, html)
  }

  function Fill(ps: seq<Piece>, values: map<string, string>, html: bool): Result {
    if ps == [] then Text("")
    else
      match ps[0]
      case Literal(c) => Prepend(Written([c], html), Fill(ps[1..], values, html))
      case Hole(name, _) =>
        if name !in values then KeyError(name)
        else Prepend(WrittenValue(name, values[name], html), Fill(ps[1..], values, html))
  }

  function Prepend(s: string, r: Result): Result {
    match r case Text(t) => Text(s + t) case KeyError(_) => r
  }

  /** What substitution means: every piece of the template is written once, values as they are. */
  function Substituted(text: string, values: map<string, string>, html: bool): Result { Fill(Scan(text), values, html) }

  lemma {:induction false} EscapeHtmlConcat(a: string, b: string)
    ensures EscapeHtml(a + b) == EscapeHtml(a) + EscapeHtml(b)
    decreases |a|
  {
    if a == "" {
      assert a + b == b;
    } else {
      assert (a + b)[1..] == a[1..] + b;
      EscapeHtmlConcat(a[1..], b);
    }
  }

  lemma WrittenConcat(a: string, b: string, html: bool)
    ensures Written(a + b, html) == Written(a, html) + Written(b, html)
  {
    EscapeHtmlConcat(a, b);
  }

  lemma PrependTwice(a: string, b: string, r: Result)
    ensures Prepend(a, Prepend(b, r)) == Prepend(a + b, r)
    ensures Prepend("", r) == r
  {
    if r.Text? {
      assert a + (b + r.text) == a + b + r.text;
      assert "" + r.text == r.text;
    }
  }

  // One character that starts no token moves from the rest to the literal segment.
  lemma SegmentGrows(segment: string, rest: string, values: map<string, string>, html: bool)
    requires rest != "" && TokenAt(rest) == None
    ensures Prepend(Written(segment, html), Substituted(rest, values, html))
            == Prepend(Written(segment + [rest[0]], html), Substituted(rest[1..], values, html))
  {
    ScanStep(rest);
    var ps := Scan(rest);
    assert ps[0] == Literal(rest[0]) && ps[1..] == Scan(rest[1..]);
    WrittenConcat(segment, [rest[0]], html);
    PrependTwice(Written(segment, html), Written([rest[0]], html), Substituted(rest[1..], values, html));
  }

  lemma TokenFills(rest: string, values: map<string, string>, html: bool)
    requires rest != "" && TokenAt(rest).Some?
    ensures var m := TokenAt(rest).value;
            0 < m.length <= |rest|
            && Substituted(rest, values, html) ==
                 if m.name !in values then KeyError(m.name)
                 else Prepend(WrittenValue(m.name, values[m.name], html), Substituted(rest[m.length..], values, html))
  {
    ScanStep(rest);
    var m := TokenAt(rest).value;
    assert Scan(rest)[1..] == Scan(rest[m.length..]);
  }

  // The loop's state as a value: what is out, the segment since the last match, what is left.
  function Progress(out: string, segment: string, rest: string, values: map<string, string>, html: bool): Result {
    Prepend(out, Prepend(Written(segment, html), Substituted(rest, values, html)))
  }

  lemma ProgressOverChar(out: string, segment: string, rest: string, values: map<string, string>, html: bool)
    requires rest != "" && TokenAt(rest) == None
    ensures Progress(out, segment, rest, values, html) == Progress(out, segment + [rest[0]], rest[1..], values, html)
  {
    hide TokenAt;
    SegmentGrows(segment, rest, values, html);
  }

  lemma ProgressOverToken(out: string, segment: string, rest: string, values: map<string, string>, html: bool)
    requires rest != "" && TokenAt(rest).Some?
    ensures var m := TokenAt(rest).value;
            0 < m.length <= |rest|
            && Progress(out, segment, rest, values, html) ==
                 if m.name !in values then KeyError(m.name)
                 else Progress(out + (Written(segment, html) + WrittenValue(m.name, values[m.name], html)),
                               "", rest[m.length..], values, html)
  {
    hide TokenAt, Substituted, Fill, Scan;
    TokenFills(rest, values, html);
    var m := TokenAt(rest).value;
    if m.name in values {
      var value, behind := WrittenValue(m.name, values[m.name], html), Substituted(rest[m.length..], values, html);
      PrependTwice(Written(segment, html), value, behind);
      PrependTwice(out, Written(segment, html) + value, behind);
      PrependTwice("", "", behind);
    }
  }

  lemma ProgressAtEnds(text: string, out: string, segment: string, values: map<string, string>, html: bool)
    ensures Progress("", "", text, values, html) == Substituted(text, values, html)
    ensures Progress(out, segment, "", values, html) == Text(out + Written(segment, html))
  {
    PrependTwice("", "", Substituted(text, values, html));
    assert Written(segment, html) + "" == Written(segment, html);
  }

  method Substitute(text: string, values: map<string, string>, html: bool) returns (r: Result)
    ensures r == Substituted(text, values, html)
  {
    hide TokenAt, Progress, Written, WrittenValue, Substituted;
    var out, position, i := "", 0, 0;
    assert text[0..] == text && text[0..0] == "";
    ProgressAtEnds(text, "", "", values, html);
    while i < |text|
      invariant 0 <= position <= i <= |text|
      invariant Substituted(text, values, html) == Progress(out, text[position..i], text[i..], values, html)
    {
      var m := TokenAt(text[i..]);
      if m == None {
        ProgressOverChar(out, text[position..i], text[i..], values, html);
        assert text[position..i] + [text[i..][0]] == text[position..i + 1] && text[i..][1..] == text[i + 1..];
        i := i + 1;
      } else {
        ProgressOverToken(out, text[position..i], text[i..], values, html);
        if m.value.name !in values {
          return KeyError(m.value.name);
        }
        out := out + (Written(text[position..i], html) + WrittenValue(m.value.name, values[m.value.name], html));
        assert text[i..][m.value.length..] == text[i + m.value.length..];
        i := i + m.value.length;
        position := i;
        assert text[position..i] == "";
      }
    }
    ProgressAtEnds(text, out, text[position..], values, html);
    assert text[position..i] == text[position..] && text[i..] == "";
    r := Text(out + Written(text[position..], html));
  }

  /** Substitution fails exactly when the text has a token with no value. */
  lemma {:induction false} FailsExactlyOnMissing(ps: seq<Piece>, values: map<string, string>, html: bool)
    ensures Fill(ps, values, html).Text? <==> NamesIn(ps) <= values.Keys
    decreases |ps|
  {
    if ps != [] {
      FailsExactlyOnMissing(ps[1..], values, html);
      assert NamesIn(ps) == NamesIn([ps[0]]) + NamesIn(ps[1..]) by {
        forall n ensures n in NamesIn(ps) <==> n in NamesIn([ps[0]]) || n in NamesIn(ps[1..]) {
          if p :| p in ps && p.Hole? && p.name == n { assert p == ps[0] || p in ps[1..]; assert p == ps[0] ==> p in [ps[0]]; }
          if p :| p in [ps[0]] && p.Hole? && p.name == n { assert p in ps; }
          if p :| p in ps[1..] && p.Hole? && p.name == n { assert p in ps; }
        }
      }
      if ps[0].Hole? { assert ps[0] in [ps[0]]; }
    }
  }

  // A match does not run into the token behind it.
  lemma MatchEndsBefore(before: string, token: string, name: string, after: string)
    requires before != "" && IsTokenText(token, name) && TokenAt(before + (token + after)).Some?
    ensures TokenAt(before) == TokenAt(before + (token + after)) && TokenAt(before).value.length <= |before|
  {
    hide TokenAt, IsTokenText;
    var t, n := before + (token + after), |before|;
    var m := TokenAt(t).value;
    TokenShape(t);
    BracesFirst(token, name);
    assert t[n] == token[0] && t[n + 1] == token[1];
    forall k | 2 <= k < m.length ensures t[k] != '{' { assert t[k] == t[2..m.length][k - 2]; }
    assert m.length <= n;
    assert before == t[..m.length] + before[m.length..];
    PatternIsFound(t[..m.length], before[m.length..], m.name, before);
  }

  lemma BracesFirst(token: string, name: string)
    requires IsTokenText(token, name)
    ensures |token| > 4 && token[0] == '{' && token[1] == '{'
  {
    var x, y :| AllSpaces(x) && AllSpaces(y) && token == TokenText(x, name, y) && AllNameChars(name) && name != "";
  }

  // One step of a scan that does not look past the text in front.
  lemma SharedStep(before: string, behind: string) returns (p: Piece, step: nat)
    requires before != "" && TokenAt(before + behind) == TokenAt(before)
    ensures 0 < step <= |before|
    ensures Scan(before) == [p] + Scan(before[step..])
    ensures Scan(before + behind) == [p] + Scan(before[step..] + behind)
  {
    hide TokenAt, Scan, Names;
    var t := before + behind;
    ScanStep(t);
    ScanStep(before);
    match TokenAt(before)
    case Some(m) =>
      p, step := Hole(m.name, before[..m.length]), m.length;
      assert t[step..] == before[step..] + behind && t[..step] == before[..step];
    case None =>
      p, step := Literal(before[0]), 1;
      assert t[1..] == before[1..] + behind && t[0] == before[0];
  }

  lemma SharedToken(before: string, token: string, name: string, after: string)
    requires before != "" && IsTokenText(token, name)
    ensures TokenAt(before + (token + after)) == TokenAt(before)
  {
    hide TokenAt, IsTokenText;
    if TokenAt(before + (token + after)).Some? {
      MatchEndsBefore(before, token, name, after);
    } else if TokenAt(before).Some? {
      TokenExtends(before, token + after);
    }
  }

  // The scan of a text around a token is the scan before it, the token, and the scan behind it.
  lemma {:induction false} ScanSplits(before: string, token: string, name: string, after: string)
    requires IsTokenText(token, name)
    ensures Scan(before + (token + after)) == Scan(before) + [Hole(name, token)] + Scan(after)
    decreases |before|
  {
    if before == "" {
      assert before + (token + after) == token + after && Scan(before) == [];
      TokenIsScanned(token, name, after);
    } else {
      hide TokenAt, IsTokenText, Scan;
      SharedToken(before, token, name, after);
      var p, step := SharedStep(before, token + after);
      ScanSplits(before[step..], token, name, after);
      OneInFront(p, Scan(before[step..]), [Hole(name, token)], Scan(after));
    }
  }

  lemma OneInFront(p: Piece, a: seq<Piece>, b: seq<Piece>, c: seq<Piece>)
    ensures [p] + (a + b + c) == ([p] + a) + b + c
  {
  }

  lemma TokenIsScanned(token: string, name: string, after: string)
    requires IsTokenText(token, name)
    ensures Scan(token + after) == [] + [Hole(name, token)] + Scan(after)
  {
    hide TokenAt, IsTokenText, Scan, Names;
    BracesFirst(token, name);
    ScanStep(token + after);
    PatternIsFound(token, after, name, token + after);
    Cut(token, after);
  }

  // One result and then another; the first missing name counts.
  function Then(a: Result, b: Result): Result {
    match a case Text(s) => Prepend(s, b) case KeyError(_) => a
  }

  lemma {:induction false} FillConcat(a: seq<Piece>, b: seq<Piece>, values: map<string, string>, html: bool)
    ensures Fill(a + b, values, html) == Then(Fill(a, values, html), Fill(b, values, html))
    decreases |a|
  {
    if a == [] {
      assert a + b == b;
      PrependTwice("", "", Fill(b, values, html));
    } else {
      assert (a + b)[0] == a[0] && (a + b)[1..] == a[1..] + b;
      FillConcat(a[1..], b, values, html);
      if Fill(a[1..], values, html).Text? {
        var piece := match a[0] case Literal(c) => Written([c], html)
                                case Hole(name, _) => if name in values then WrittenValue(name, values[name], html) else "";
        PrependTwice(piece, Fill(a[1..], values, html).text, Fill(b, values, html));
      }
    }
  }

  /** In every template, wherever a token stands and however it is spaced, its value is copied as it is and the text
      on both sides is substituted by itself, in both outputs: placeholder-shaped text inside a value is never
      expanded, alone or with its neighbours. */
  lemma ValuesAreNotExpanded(before: string, token: string, name: string, after: string, values: map<string, string>, html: bool)
    requires IsTokenText(token, name)
    ensures Substituted(before + (token + after), values, html)
            == Then(Substituted(before, values, html),
                    if name !in values then KeyError(name)
                    else Prepend(WrittenValue(name, values[name], html), Substituted(after, values, html)))
  {
    hide Scan, Fill, Then, Prepend, WrittenValue, IsTokenText;
    ScanSplits(before, token, name, after);
    var b, hole, a := Scan(before), [Hole(name, token)], Scan(after);
    assert b + hole + a == b + (hole + a);
    FillConcat(b, hole + a, values, html);
    FillHole(name, token, a, values, html);
  }

  lemma FillHole(name: string, token: string, rest: seq<Piece>, values: map<string, string>, html: bool)
    ensures Fill([Hole(name, token)] + rest, values, html)
            == if name !in values then KeyError(name)
               else Prepend(WrittenValue(name, values[name], html), Fill(rest, values, html))
  {
    assert ([Hole(name, token)] + rest)[1..] == rest;
  }

  // A scan that finds no name has only characters.
  lemma {:induction false} CharactersStay(ps: seq<Piece>, values: map<string, string>, html: bool)
    requires forall p | p in ps :: p.Literal?
    ensures Fill(ps, values, html) == Text(Written(Raw(ps), html))
    decreases |ps|
  {
    if ps != [] {
      assert ps[0] in ps && forall p | p in ps[1..] :: p in ps;
      CharactersStay(ps[1..], values, html);
      WrittenConcat([ps[0].c], Raw(ps[1..]), html);
    }
  }

  // What a scan was made from.
  function Raw(ps: seq<Piece>): string {
    if ps == [] then ""
    else (match ps[0] case Literal(c) => [c] case Hole(_, raw) => raw) + Raw(ps[1..])
  }

  lemma {:induction false} ScanIsOfTheText(t: string)
    ensures Raw(Scan(t)) == t
    decreases |t|
  {
    if t != "" {
      ScanStep(t);
      hide TokenAt, Scan, Names, Raw;
      match TokenAt(t)
      case Some(m) =>
        ScanIsOfTheText(t[m.length..]);
        RawFirst(Hole(m.name, t[..m.length]), Scan(t[m.length..]));
        assert t == t[..m.length] + t[m.length..];
      case None =>
        ScanIsOfTheText(t[1..]);
        RawFirst(Literal(t[0]), Scan(t[1..]));
        assert t == [t[0]] + t[1..];
    }
  }

  lemma RawFirst(p: Piece, ps: seq<Piece>)
    ensures Raw([p] + ps) == (match p case Literal(c) => [c] case Hole(_, raw) => raw) + Raw(ps)
  {
    assert ([p] + ps)[1..] == ps;
  }

  /** A text in which no token stands is copied: as it is into the plain text, escaped into the HTML. */
  lemma TextWithoutTokensStays(text: string, values: map<string, string>)
    requires forall name :: !Mentions(text, name)
    ensures Substituted(text, values, false) == Text(text) && Substituted(text, values, true) == Text(EscapeHtml(text))
  {
    hide Mentions, TokenAt;
    var ps := Scan(text);
    forall p | p in ps ensures p.Literal? {
      if p.Hole? { assert p.name in Names(text); ScanFindsEveryToken(text, p.name); }
    }
    ScanIsOfTheText(text);
    CharactersStay(ps, values, true);
    CharactersStay(ps, values, false);
  }

  /** A value goes into the plain text as it is and into the HTML escaped, the job title inside its bold tag; what is
      escaped opens or closes no tag, and reads back. */
  lemma {:induction false} ValueIsWritten(name: string, value: string)
    ensures WrittenValue(name, value, false) == value
    ensures WrittenValue(name, value, true)
            == if name == "job_title" then "<b style=\"font-weight: 600;\"" + ">" + EscapeHtml(value) + "</b>"
               else EscapeHtml(value)
    ensures '<' !in EscapeHtml(value) && '>' !in EscapeHtml(value) && PlainText(EscapeHtml(value)) == value
  {
    EscapedHasNoTags(value);
    EscapedTextIsRead(value, "");
    assert EscapeHtml(value) + "" == EscapeHtml(value) && value + "" == value;
  }

  lemma {:induction false} EscapedHasNoTags(s: string)
    ensures '<' !in EscapeHtml(s) && '>' !in EscapeHtml(s)
  {
    if s != "" { EscapedHasNoTags(s[1..]); }
  }

  // ---------------------------------------------------------------- from HTML back to text

  // Where the tag at the start of the text ends.
  function TagLength(h: string): (n: nat)
    ensures n <= |h| && (h != "" ==> 0 < n)
  {
    if h == "" then 0 else if h[0] == '>' then 1 else 1 + TagLength(h[1..])
  }

  // Tags dropped and the three entities read.
  function PlainText(h: string): string
    decreases |h|
  {
    if h == "" then ""
    else if h[0] == '<' then PlainText(h[TagLength(h)..])
    else if StartsWith(h, "&amp;") then "&" + PlainText(h[5..])
    else if StartsWith(h, "&lt;") then "<" + PlainText(h[4..])
    else if StartsWith(h, "&gt;") then ">" + PlainText(h[4..])
    else [h[0]] + PlainText(h[1..])
  }

  lemma {:induction false} TagLengthOf(s: string, rest: string)
    requires '>' !in s
    ensures TagLength(s + (">" + rest)) == |s| + 1
    decreases |s|
  {
    var h := s + (">" + rest);
    if s == "" {
      assert h == ">" + rest;
    } else {
      assert h[1..] == s[1..] + (">" + rest);
      TagLengthOf(s[1..], rest);
    }
  }

  lemma TagIsDropped(s: string, rest: string)
    requires s != "" && s[0] == '<' && '>' !in s
    ensures PlainText(s + (">" + rest)) == PlainText(rest)
  {
    TagLengthOf(s, rest);
    assert (s + (">" + rest))[|s| + 1..] == rest;
  }

  lemma EntityIsRead(c: char, rest: string)
    ensures PlainText(EscapeHtmlChar(c) + rest) == [c] + PlainText(rest)
  {
    var h := EscapeHtmlChar(c) + rest;
    if c == '&' {
      assert StartsWith(h, "&amp;") && h[5..] == rest;
    } else if c == '<' {
      assert h[1] == 'l' && !StartsWith(h, "&amp;") by { assert "&amp;"[1] == 'a'; }
      assert StartsWith(h, "&lt;") && h[4..] == rest;
    } else if c == '>' {
      assert h[1] == 'g' && !StartsWith(h, "&amp;") && !StartsWith(h, "&lt;") by {
        assert "&amp;"[1] == 'a' && "&lt;"[1] == 'l';
      }
      assert StartsWith(h, "&gt;") && h[4..] == rest;
    } else {
      assert h[0] == c && h[1..] == rest;
      assert "&amp;"[0] == "&lt;"[0] == "&gt;"[0] == '&';
    }
  }

  lemma EscapeHtmlFirst(s: string, rest: string)
    requires s != ""
    ensures EscapeHtml(s) + rest == EscapeHtmlChar(s[0]) + (EscapeHtml(s[1..]) + rest)
  {
  }

  lemma {:induction false} EscapedTextIsRead(s: string, rest: string)
    ensures PlainText(EscapeHtml(s) + rest) == s + PlainText(rest)
    decreases |s|
  {
    hide PlainText, EscapeHtmlChar;
    if s == "" {
      assert EscapeHtml(s) + rest == rest;
    } else {
      var tail := EscapeHtml(s[1..]) + rest;
      EscapedTextIsRead(s[1..], rest);
      EntityIsRead(s[0], tail);
      EscapeHtmlFirst(s, rest);
      assert [s[0]] + (s[1..] + PlainText(rest)) == s + PlainText(rest);
    }
  }

  lemma EndTagIsDropped(rest: string)
    ensures PlainText(BOLD_END + rest) == PlainText(rest)
  {
    hide PlainText;
    assert BOLD_END + rest == "</b" + (">" + rest);
    TagIsDropped("</b", rest);
  }

  lemma StartTagIsDropped(rest: string)
    ensures PlainText(BOLD + rest) == PlainText(rest)
  {
    hide PlainText;
    assert BOLD + rest == BOLD_TAG + (">" + rest);
    TagIsDropped(BOLD_TAG, rest);
  }

  lemma BoldIsRead(value: string, rest: string)
    ensures PlainText(BOLD + EscapeHtml(value) + BOLD_END + rest) == value + PlainText(rest)
  {
    hide PlainText, EscapeHtml;
    StartTagIsDropped(EscapeHtml(value) + (BOLD_END + rest));
    assert BOLD + EscapeHtml(value) + BOLD_END + rest == BOLD + (EscapeHtml(value) + (BOLD_END + rest));
    EscapedTextIsRead(value, BOLD_END + rest);
    EndTagIsDropped(rest);
  }

  lemma {:induction false} FilledHtmlReads(ps: seq<Piece>, values: map<string, string>)
    ensures var h, t := Fill(ps, values, true), Fill(ps, values, false);
            if h.KeyError? then t == h else t == Text(PlainText(h.text))
    decreases |ps|
  {
    if ps != [] {
      FilledHtmlReads(ps[1..], values);
      var rest := Fill(ps[1..], values, true);
      if rest.Text? {
        match ps[0]
        case Literal(c) => EscapedTextIsRead([c], rest.text);
        case Hole(name, _) =>
          if name in values {
            if name == "job_title" { BoldIsRead(values[name], rest.text); }
            else { EscapedTextIsRead(values[name], rest.text); }
          }
      }
    }
  }

  /** HTML substitution refines text substitution, for every template and all values: they fail on the same
      placeholder, and otherwise the HTML without its tags and entities is the plain text. */
  lemma HtmlRefinesText(text: string, values: map<string, string>)
    ensures var h, t := Substituted(text, values, true), Substituted(text, values, false);
            if h.KeyError? then t == h else t == Text(PlainText(h.text))
  {
    FilledHtmlReads(Scan(text), values);
  }
}
