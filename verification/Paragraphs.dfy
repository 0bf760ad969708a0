/**
 The paragraphs of a rendered mail body (services/email_render.py): the text and the HTML are each cut at blank lines
 and trimmed, after substitution. Whether both cuts fall in the same places depends on the one value that gets a tag
 around it, the job title.
 */
module Paragraphs {
  import opened Text
  import opened Placeholders

  // ---------------------------------------------------------------- cutting a body

  // The white space a text starts with.
  function Blank(s: string): (w: string)
    ensures |w| <= |s| && s[..|w|] == w
  {
    if s == "" || !IsSpace(s[0]) then "" else [s[0]] + Blank(s[1..])
  }

  // One more than the place of the last line feed; 0 if there is none.
  function PastLastFeed(w: string): (n: nat)
    ensures n <= |w|
  {
    if w == "" then 0 else if w[|w| - 1] == '\n' then |w| else PastLastFeed(w[..|w| - 1])
  }

  // The separator at the start of a text: a line feed, white space, and the last line feed of that white space.
  function Gap(s: string): (n: nat)
    ensures n <= |s|
  {
    if s == "" || s[0] != '\n' || PastLastFeed(Blank(s[1..])) == 0 then 0 else 1 + PastLastFeed(Blank(s[1..]))
  }

  // re.split, with the part under construction.
  function Parts(part: string, rest: string): seq<string>
    decreases |rest|
  {
    if rest == "" then [part]
    else if Gap(rest) > 0 then [part] + Parts("", rest[Gap(rest)..])
    else Parts(part + [rest[0]], rest[1..])
  }

  // The parts that are not blank, trimmed.
  function Trimmed(parts: seq<string>): seq<string> {
    if parts == [] then []
    else (if Strip(parts[0]) == "" then [] else [Strip(parts[0])]) + Trimmed(parts[1..])
  }

  function ParagraphsOf(body: string): seq<string> { Trimmed(Parts("", body)) }

  // ---------------------------------------------------------------- both outputs from one list

  // A character, or a tag of the bold title.
  datatype Unit = Char(c: char) | BoldOn | BoldOff

  function HtmlOne(u: Unit): string {
    match u case Char(c) => EscapeHtmlChar(c) case BoldOn => BOLD case BoldOff => BOLD_END
  }

  function Html(us: seq<Unit>): string { if us == [] then "" else HtmlOne(us[0]) + Html(us[1..]) }

  function PlainOne(u: Unit): string { match u case Char(c) => [c] case _ => "" }

  function Plain(us: seq<Unit>): string { if us == [] then "" else PlainOne(us[0]) + Plain(us[1..]) }

  function Chars(s: string): (us: seq<Unit>)
    ensures |us| == |s|
  {
    seq(|s|, i requires 0 <= i < |s| => Char(s[i]))
  }

  function UnitsOf(ps: seq<Piece>, values: map<string, string>): seq<Unit>
    requires NamesIn(ps) <= values.Keys
  {
    if ps == [] then []
    else
      TailNames(ps);
      match ps[0]
      case Literal(c) => [Char(c)] + UnitsOf(ps[1..], values)
      case Hole(name, _) =>
        HeadName(ps);
        (if name == "job_title" then [BoldOn] + Chars(values[name]) + [BoldOff] else Chars(values[name]))
        + UnitsOf(ps[1..], values)
  }

  lemma TailNames(ps: seq<Piece>)
    requires ps != []
    ensures NamesIn(ps[1..]) <= NamesIn(ps)
  {
    forall p | p in ps[1..] ensures p in ps {}
  }

  lemma HeadName(ps: seq<Piece>)
    requires ps != [] && ps[0].Hole?
    ensures ps[0].name in NamesIn(ps)
  {
    assert ps[0] in ps;
  }

  lemma {:induction false} HtmlConcat(a: seq<Unit>, b: seq<Unit>)
    ensures Html(a + b) == Html(a) + Html(b) && Plain(a + b) == Plain(a) + Plain(b)
    decreases |a|
  {
    hide HtmlOne, PlainOne;
    if a == [] {
      assert a + b == b;
    } else {
      assert (a + b)[0] == a[0] && (a + b)[1..] == a[1..] + b;
      HtmlConcat(a[1..], b);
      Grouped(HtmlOne(a[0]), Html(a[1..]), Html(b));
      Grouped(PlainOne(a[0]), Plain(a[1..]), Plain(b));
    }
  }

  lemma Grouped(a: string, b: string, c: string)
    ensures a + (b + c) == a + b + c
  {
  }

  lemma OneUnit(u: Unit)
    ensures Html([u]) == HtmlOne(u) && Plain([u]) == PlainOne(u)
  {
    assert [u][1..] == [];
  }

  lemma {:induction false} CharsRead(s: string)
    ensures Html(Chars(s)) == EscapeHtml(s) && Plain(Chars(s)) == s
    decreases |s|
  {
    if s != "" {
      assert Chars(s)[1..] == Chars(s[1..]);
      CharsRead(s[1..]);
      assert s == [s[0]] + s[1..];
    }
  }

  lemma TitleReads(title: string)
    ensures Html([BoldOn] + Chars(title) + [BoldOff]) == BOLD + EscapeHtml(title) + BOLD_END
    ensures Plain([BoldOn] + Chars(title) + [BoldOff]) == title
  {
    HtmlConcat([BoldOn] + Chars(title), [BoldOff]);
    HtmlConcat([BoldOn], Chars(title));
    OneUnit(BoldOn);
    OneUnit(BoldOff);
    CharsRead(title);
    assert "" + title + "" == title;
  }

  // The units give both outputs of the substitution.
  lemma {:induction false} UnitsFill(ps: seq<Piece>, values: map<string, string>)
    requires NamesIn(ps) <= values.Keys
    ensures Fill(ps, values, true) == Result.Text(Html(UnitsOf(ps, values)))
    ensures Fill(ps, values, false) == Result.Text(Plain(UnitsOf(ps, values)))
    decreases |ps|
  {
    if ps != [] {
      TailNames(ps);
      UnitsFill(ps[1..], values);
      var rest := UnitsOf(ps[1..], values);
      match ps[0]
      case Literal(c) =>
        HtmlConcat([Char(c)], rest);
        OneUnit(Char(c));
        assert EscapeHtml([c]) == EscapeHtmlChar(c) by { assert [c][1..] == ""; }
      case Hole(name, _) =>
        HeadName(ps);
        TitleReads(values[name]);
        CharsRead(values[name]);
        HtmlConcat(if name == "job_title" then [BoldOn] + Chars(values[name]) + [BoldOff] else Chars(values[name]), rest);
    }
  }

  lemma {:induction false} HtmlReads(us: seq<Unit>)
    ensures PlainText(Html(us)) == Plain(us)
    decreases |us|
  {
    if us == [] {
    } else {
      HtmlReads(us[1..]);
      match us[0]
      case Char(c) => EntityIsRead(c, Html(us[1..]));
      case BoldOn => StartTagIsDropped(Html(us[1..]));
      case BoldOff => EndTagIsDropped(Html(us[1..]));
    }
  }

  // ---------------------------------------------------------------- cutting and trimming units

  predicate IsBlank(u: Unit) { u.Char? && IsSpace(u.c) }

  predicate IsInk(u: Unit) { u.Char? && !IsSpace(u.c) }

  // Every tag touches a character of the title that is no white space.
  predicate Tight(us: seq<Unit>) {
    && (forall i | 0 <= i < |us| && us[i] == BoldOn :: i + 1 < |us| && IsInk(us[i + 1]))
    && (forall i | 0 <= i < |us| && us[i] == BoldOff :: i > 0 && IsInk(us[i - 1]))
  }

  function BlankUnits(us: seq<Unit>): (w: string)
    ensures |w| <= |us|
  {
    if us == [] || !IsBlank(us[0]) then "" else [us[0].c] + BlankUnits(us[1..])
  }

  function GapUnits(us: seq<Unit>): (n: nat)
    ensures n <= |us|
  {
    if us == [] || us[0] != Char('\n') || PastLastFeed(BlankUnits(us[1..])) == 0 then 0
    else 1 + PastLastFeed(BlankUnits(us[1..]))
  }

  function PartsUnits(part: seq<Unit>, rest: seq<Unit>): seq<seq<Unit>>
    decreases |rest|
  {
    if rest == [] then [part]
    else if GapUnits(rest) > 0 then [part] + PartsUnits([], rest[GapUnits(rest)..])
    else PartsUnits(part + [rest[0]], rest[1..])
  }

  function Trim(us: seq<Unit>): seq<Unit>
    decreases |us|
  {
    if us == [] then []
    else if IsBlank(us[0]) then Trim(us[1..])
    else if IsBlank(us[|us| - 1]) then Trim(us[..|us| - 1])
    else us
  }

  // The two outputs of a list of parts.
  function HtmlAll(ps: seq<seq<Unit>>): seq<string> { if ps == [] then [] else [Html(ps[0])] + HtmlAll(ps[1..]) }

  function PlainAll(ps: seq<seq<Unit>>): seq<string> { if ps == [] then [] else [Plain(ps[0])] + PlainAll(ps[1..]) }

  predicate AllTight(ps: seq<seq<Unit>>) { forall i | 0 <= i < |ps| :: Tight(ps[i]) }

  // What one unit looks like in HTML: never empty, and blank or a line feed only if the unit is.
  lemma HtmlOneLooks(u: Unit)
    ensures var h := HtmlOne(u);
            && h != "" && '\n' !in h[1..]
            && (IsSpace(h[0]) <==> IsBlank(u)) && (IsSpace(h[|h| - 1]) <==> IsBlank(u))
            && (IsBlank(u) ==> h == [u.c]) && (h[0] == '\n' <==> u == Char('\n'))
  {
    match u
    case Char(c) =>
    case BoldOn => BoldLooks();
    case BoldOff =>
  }

  lemma BoldLooks()
    ensures BOLD != "" && '\n' !in BOLD[1..] && BOLD[0] == '<' && BOLD[|BOLD| - 1] == '>'
  {
    assert BOLD_TAG[0] == '<' && '\n' !in BOLD_TAG;
    assert BOLD[0] == BOLD_TAG[0];
    assert forall i | 0 <= i < |BOLD_TAG| :: BOLD[i] == BOLD_TAG[i];
  }

  lemma {:induction false} BlankOfHtml(us: seq<Unit>)
    ensures Blank(Html(us)) == BlankUnits(us)
    decreases |us|
  {
    hide HtmlOne, IsSpace;
    if us != [] {
      HtmlOneLooks(us[0]);
      if IsBlank(us[0]) {
        BlankOfHtml(us[1..]);
        assert Html(us)[1..] == Html(us[1..]);
      }
    }
  }

  lemma {:induction false} BlankOfPlain(us: seq<Unit>)
    requires Tight(us)
    ensures Blank(Plain(us)) == BlankUnits(us)
    decreases |us|
  {
    hide IsSpace;
    if us != [] {
      if us[0].Char? {
        assert Plain(us) == [us[0].c] + Plain(us[1..]);
        if IsBlank(us[0]) {
          TightBehindBlank(us);
          BlankOfPlain(us[1..]);
          assert Plain(us)[1..] == Plain(us[1..]);
        }
      } else {
        assert us[0] == BoldOn && IsInk(us[1]);
        assert Plain(us) == "" + Plain(us[1..]) && Plain(us[1..]) == [us[1].c] + Plain(us[1..][1..]);
      }
    }
  }

  lemma TightBehindBlank(us: seq<Unit>)
    requires Tight(us) && us != [] && IsBlank(us[0])
    ensures Tight(us[1..])
  {
    var t := us[1..];
    forall i | 0 <= i < |t| && t[i] == BoldOff ensures i > 0 && IsInk(t[i - 1]) { assert us[i + 1] == BoldOff; }
    forall i | 0 <= i < |t| && t[i] == BoldOn ensures i + 1 < |t| && IsInk(t[i + 1]) { assert us[i + 1] == BoldOn; }
  }

  lemma {:induction false} DropBlank(us: seq<Unit>, n: nat)
    requires n <= |BlankUnits(us)|
    ensures n <= |Html(us)| && Html(us)[n..] == Html(us[n..])
    ensures n <= |Plain(us)| && Plain(us)[n..] == Plain(us[n..])
    decreases n
  {
    if n == 0 {
      assert Html(us)[0..] == Html(us) && Plain(us)[0..] == Plain(us) && us[0..] == us;
    } else {
      HtmlOneLooks(us[0]);
      DropBlank(us[1..], n - 1);
      var c := us[0].c;
      assert Html(us) == [c] + Html(us[1..]) && Plain(us) == [c] + Plain(us[1..]);
      assert us[1..][n - 1..] == us[n..];
      hide Html, Plain, HtmlOne, BlankUnits;
      DropOne(c, Html(us[1..]), n);
      DropOne(c, Plain(us[1..]), n);
    }
  }

  lemma DropOne(c: char, s: string, n: nat)
    requires 0 < n <= |s| + 1
    ensures ([c] + s)[n..] == s[n - 1..]
  {
  }

  lemma GapIsBlank(us: seq<Unit>)
    ensures GapUnits(us) <= |BlankUnits(us)|
  {
  }

  lemma GapOfHtml(us: seq<Unit>)
    requires us != []
    ensures Gap(Html(us)) == GapUnits(us)
  {
    hide HtmlOne, IsSpace, PastLastFeed;
    HtmlOneLooks(us[0]);
    if us[0] == Char('\n') {
      FeedIsSpace();
      BlankOfHtml(us[1..]);
      assert Html(us)[1..] == Html(us[1..]);
    }
  }

  lemma FeedIsSpace()
    ensures IsSpace('\n')
  {
  }

  lemma GapOfPlain(us: seq<Unit>)
    requires us != [] && us[0].Char? && (IsBlank(us[0]) ==> Tight(us[1..]))
    ensures Gap(Plain(us)) == GapUnits(us)
  {
    hide IsSpace, PastLastFeed;
    assert Plain(us) == [us[0].c] + Plain(us[1..]);
    if us[0] == Char('\n') {
      FeedIsSpace();
      BlankOfPlain(us[1..]);
      assert Plain(us)[1..] == Plain(us[1..]);
    }
  }

  // Text without a separator goes to the part under construction.
  lemma {:induction false} PartsOver(part: string, a: string, b: string)
    requires a == "" || (Gap(a + b) == 0 && '\n' !in a[1..])
    ensures Parts(part, a + b) == Parts(part + a, b)
    decreases |a|
  {
    if a == "" {
      assert a + b == b && part + a == part;
    } else {
      assert (a + b)[1..] == a[1..] + b && (a + b)[0] == a[0];
      if |a| > 1 { assert (a[1..] + b)[0] == a[1..][0]; }
      PartsOver(part + [a[0]], a[1..], b);
      assert part + [a[0]] + a[1..] == part + a;
    }
  }

  /** The cut of the HTML is the cut of the units. */
  lemma {:induction false} HtmlCuts(part: seq<Unit>, rest: seq<Unit>)
    ensures Parts(Html(part), Html(rest)) == HtmlAll(PartsUnits(part, rest))
    decreases |rest|
  {
    if rest != [] {
      hide Gap, GapUnits, HtmlOne;
      GapOfHtml(rest);
      HtmlOneLooks(rest[0]);
      assert Html(rest) != "";
      if GapUnits(rest) > 0 {
        GapIsBlank(rest);
        DropBlank(rest, GapUnits(rest));
        HtmlCuts([], rest[GapUnits(rest)..]);
      } else {
        PartsOver(Html(part), HtmlOne(rest[0]), Html(rest[1..]));
        HtmlConcat(part, [rest[0]]);
        OneUnit(rest[0]);
        HtmlCuts(part + [rest[0]], rest[1..]);
      }
    }
  }

  lemma TightPieces(part: seq<Unit>, rest: seq<Unit>, n: nat)
    requires Tight(part + rest) && rest != [] && IsBlank(rest[0]) && 0 < n <= |rest| && IsBlank(rest[n - 1])
    ensures Tight(part) && Tight(rest[n..])
  {
    var us, t := part + rest, rest[n..];
    assert us[|part|] == rest[0];
    forall i | 0 <= i < |part| ensures us[i] == part[i] {}
    forall i | 0 <= i < |part| && part[i] == BoldOn ensures i + 1 < |part| && IsInk(part[i + 1]) {
      assert us[i] == BoldOn && IsInk(us[i + 1]);
    }
    forall i | 0 <= i < |part| && part[i] == BoldOff ensures i > 0 && IsInk(part[i - 1]) {
      assert us[i] == BoldOff && IsInk(us[i - 1]);
    }
    forall i | 0 <= i < |rest| ensures us[|part| + i] == rest[i] {}
    forall i | 0 <= i < |t| && t[i] == BoldOn ensures i + 1 < |t| && IsInk(t[i + 1]) {
      assert us[|part| + n + i] == BoldOn && IsInk(us[|part| + n + i + 1]);
    }
    forall i | 0 <= i < |t| && t[i] == BoldOff ensures i > 0 && IsInk(t[i - 1]) {
      assert us[|part| + n + i] == BoldOff && IsInk(us[|part| + n + i - 1]);
    }
  }

  lemma {:induction false} BlankUnitsAre(us: seq<Unit>, i: nat)
    requires i < |BlankUnits(us)|
    ensures IsBlank(us[i]) && us[i].c == BlankUnits(us)[i]
    decreases |us|
  {
    if i > 0 { BlankUnitsAre(us[1..], i - 1); }
  }

  // One step of the cut of the text, at a separator and over a unit.
  lemma PlainGap(part: seq<Unit>, rest: seq<Unit>)
    requires Tight(part + rest) && rest != []
    ensures rest[0].Char? ==> Gap(Plain(rest)) == GapUnits(rest)
    ensures var g := GapUnits(rest);
            g > 0 ==> Tight(part) && Tight(rest[g..]) && g <= |Plain(rest)| && Plain(rest)[g..] == Plain(rest[g..])
  {
    hide Gap, IsSpace, GapUnits;
    if rest[0].Char? {
      if IsBlank(rest[0]) { TightPieces(part, rest, 1); }
      GapOfPlain(rest);
    }
    var g := GapUnits(rest);
    if g > 0 {
      GapIsBlank(rest);
      BlankUnitsAre(rest, 0);
      BlankUnitsAre(rest, g - 1);
      TightPieces(part, rest, g);
      DropBlank(rest, g);
    }
  }

  lemma PlainStep(part: seq<Unit>, rest: seq<Unit>)
    requires rest != [] && GapUnits(rest) == 0 && (rest[0].Char? ==> Gap(Plain(rest)) == 0)
    ensures Parts(Plain(part), Plain(rest)) == Parts(Plain(part + [rest[0]]), Plain(rest[1..]))
  {
    hide Gap, GapUnits;
    HtmlConcat(part, [rest[0]]);
    OneUnit(rest[0]);
    if rest[0].Char? {
      assert Plain(rest) == [rest[0].c] + Plain(rest[1..]);
      assert Plain(rest)[0] == rest[0].c && Plain(rest)[1..] == Plain(rest[1..]);
    } else {
      assert Plain(rest) == "" + Plain(rest[1..]) == Plain(rest[1..]);
      assert Plain(part) + "" == Plain(part);
    }
  }

  /** And so is the cut of the text, as long as every tag touches ink. */
  lemma {:induction false} PlainCuts(part: seq<Unit>, rest: seq<Unit>)
    requires Tight(part + rest)
    ensures Parts(Plain(part), Plain(rest)) == PlainAll(PartsUnits(part, rest))
    ensures AllTight(PartsUnits(part, rest))
    decreases |rest|
  {
    if rest == [] {
      assert part + rest == part;
    } else {
      hide Gap, GapUnits, IsSpace, Tight;
      PlainGap(part, rest);
      var g := GapUnits(rest);
      if g > 0 {
        assert [] + rest[g..] == rest[g..];
        PlainCuts([], rest[g..]);
        GapNeedsFeed(rest);
        assert Plain(rest) != "";
      } else {
        assert (part + [rest[0]]) + rest[1..] == part + rest;
        PlainCuts(part + [rest[0]], rest[1..]);
        PlainStep(part, rest);
      }
    }
  }

  lemma GapNeedsFeed(us: seq<Unit>)
    requires GapUnits(us) > 0
    ensures us[0] == Char('\n') && Plain(us) == ['\n'] + Plain(us[1..])
  {
  }

  // ---------------------------------------------------------------- trimming

  lemma HtmlEnds(us: seq<Unit>)
    requires us != []
    ensures var h := Html(us);
            h != "" && (IsSpace(h[0]) <==> IsBlank(us[0])) && (IsSpace(h[|h| - 1]) <==> IsBlank(us[|us| - 1]))
  {
    hide HtmlOne, IsSpace;
    var front, last := us[..|us| - 1], us[|us| - 1];
    HtmlOneLooks(us[0]);
    HtmlOneLooks(last);
    assert us == front + [last];
    HtmlConcat(front, [last]);
    OneUnit(last);
  }

  lemma {:induction false} HtmlTrims(us: seq<Unit>)
    ensures Strip(Html(us)) == Html(Trim(us))
    decreases |us|
  {
    if us != [] {
      hide HtmlOne, IsSpace;
      HtmlEnds(us);
      HtmlOneLooks(us[0]);
      var n := |us| - 1;
      if IsBlank(us[0]) {
        assert Html(us)[1..] == Html(us[1..]);
        HtmlTrims(us[1..]);
      } else if IsBlank(us[n]) {
        HtmlTrims(us[..n]);
        assert us == us[..n] + [us[n]];
        HtmlConcat(us[..n], [us[n]]);
        OneUnit(us[n]);
        HtmlOneLooks(us[n]);
        assert Html(us)[..|Html(us)| - 1] == Html(us[..n]);
      }
    }
  }

  lemma PlainEnds(us: seq<Unit>)
    requires Tight(us) && us != [] && !IsBlank(us[0]) && !IsBlank(us[|us| - 1])
    ensures var p := Plain(us); p != "" && !IsSpace(p[0]) && !IsSpace(p[|p| - 1])
  {
    hide IsSpace;
    PlainStarts(us);
    var n := |us| - 1;
    var k := if us[n] == BoldOff then n - 1 else n;
    assert IsInk(us[k]);
    hide Tight;
    PlainStops(us, k);
  }

  lemma PlainStarts(us: seq<Unit>)
    requires us != [] && (IsInk(us[0]) || (us[0] == BoldOn && |us| > 1 && IsInk(us[1])))
    ensures Plain(us) != "" && !IsSpace(Plain(us)[0])
  {
    if us[0] == BoldOn {
      assert Plain(us) == "" + Plain(us[1..]) && Plain(us[1..]) == [us[1].c] + Plain(us[1..][1..]);
    }
  }

  // Ink with at most the end of the title behind it.
  lemma PlainStops(us: seq<Unit>, k: nat)
    requires k < |us| && us[k].Char? && (k == |us| - 1 || (k == |us| - 2 && us[k + 1] == BoldOff))
    ensures Plain(us) != "" && Plain(us)[|Plain(us)| - 1] == us[k].c
  {
    assert us == us[..k] + us[k..];
    HtmlConcat(us[..k], us[k..]);
    OneUnit(us[k]);
    if k == |us| - 1 {
      assert us[k..] == [us[k]];
    } else {
      assert us[k..] == [us[k]] + [BoldOff];
      HtmlConcat([us[k]], [BoldOff]);
      OneUnit(BoldOff);
    }
  }

  lemma TightFront(us: seq<Unit>)
    requires Tight(us) && us != [] && IsBlank(us[|us| - 1])
    ensures Tight(us[..|us| - 1])
  {
    var t := us[..|us| - 1];
    forall i | 0 <= i < |t| && t[i] == BoldOn ensures i + 1 < |t| && IsInk(t[i + 1]) { assert us[i] == BoldOn; }
    forall i | 0 <= i < |t| && t[i] == BoldOff ensures i > 0 && IsInk(t[i - 1]) { assert us[i] == BoldOff; }
  }

  lemma {:induction false} PlainTrims(us: seq<Unit>)
    requires Tight(us)
    ensures Strip(Plain(us)) == Plain(Trim(us)) && (Plain(Trim(us)) == "" <==> Trim(us) == [])
    decreases |us|
  {
    if us != [] {
      hide IsSpace;
      var n := |us| - 1;
      if IsBlank(us[0]) {
        TightBehindBlank(us);
        assert Plain(us) == [us[0].c] + Plain(us[1..]) && Plain(us)[1..] == Plain(us[1..]);
        PlainTrims(us[1..]);
      } else if IsBlank(us[n]) {
        TightFront(us);
        PlainTrims(us[..n]);
        assert us == us[..n] + [us[n]];
        HtmlConcat(us[..n], [us[n]]);
        OneUnit(us[n]);
        assert Plain(us) == Plain(us[..n]) + [us[n].c];
        StripsLast(Plain(us[..n]), us[n].c);
      } else {
        PlainEnds(us);
      }
    }
  }

  // White space at the end goes, whatever is in front.
  lemma {:induction false} StripsLast(s: string, c: char)
    requires IsSpace(c)
    ensures Strip(s + [c]) == Strip(s)
    decreases |s|
  {
    hide IsSpace;
    if s == "" {
      assert (s + [c])[1..] == "";
    } else if IsSpace(s[0]) {
      assert (s + [c])[1..] == s[1..] + [c];
      StripsLast(s[1..], c);
    } else {
      assert (s + [c])[..|s|] == s;
    }
  }

  // ---------------------------------------------------------------- the two lists of paragraphs

  // As many paragraphs, and each HTML paragraph reads as its text.
  predicate ReadAlike(h: seq<string>, t: seq<string>) { |h| == |t| && forall i | 0 <= i < |h| :: PlainText(h[i]) == t[i] }

  lemma {:induction false} TrimmedAlike(ps: seq<seq<Unit>>)
    requires AllTight(ps)
    ensures ReadAlike(Trimmed(HtmlAll(ps)), Trimmed(PlainAll(ps)))
    decreases |ps|
  {
    if ps != [] {
      TrimmedAlike(ps[1..]);
      PartAlike(ps[0]);
      hide Html, Plain, Strip, Trim, PlainText, Tight;
      OneMoreAlike(Strip(Html(ps[0])), Strip(Plain(ps[0])), Trimmed(HtmlAll(ps[1..])), Trimmed(PlainAll(ps[1..])));
    }
  }

  lemma PartAlike(us: seq<Unit>)
    requires Tight(us)
    ensures PlainText(Strip(Html(us))) == Strip(Plain(us)) && (Strip(Html(us)) == "" <==> Strip(Plain(us)) == "")
  {
    hide Html, Plain, Strip, Trim, PlainText, Tight;
    HtmlTrims(us);
    PlainTrims(us);
    HtmlReads(Trim(us));
    EmptyHtml(Trim(us));
  }

  lemma OneMoreAlike(h: string, t: string, hs: seq<string>, ts: seq<string>)
    requires PlainText(h) == t && (h == "" <==> t == "") && ReadAlike(hs, ts)
    ensures ReadAlike((if h == "" then [] else [h]) + hs, (if t == "" then [] else [t]) + ts)
  {
    hide PlainText;
  }

  lemma EmptyHtml(us: seq<Unit>)
    ensures Html(us) == "" <==> us == []
  {
    if us != [] { HtmlOneLooks(us[0]); }
  }

  lemma TightReadsAlike(us: seq<Unit>)
    requires Tight(us)
    ensures ReadAlike(ParagraphsOf(Html(us)), ParagraphsOf(Plain(us)))
  {
    assert [] + us == us;
    HtmlCuts([], us);
    PlainCuts([], us);
    TrimmedAlike(PartsUnits([], us));
  }

  // ---------------------------------------------------------------- bodies and titles

  // The paragraphs of a body in one of the outputs.
  function BodyParagraphs(body: string, values: map<string, string>, html: bool): seq<string> {
    match Substituted(body, values, html) case Text(t) => ParagraphsOf(t) case KeyError(_) => []
  }

  // Neither empty nor with white space at an end.
  predicate IsTrimmed(title: string) { title != "" && !IsSpace(title[0]) && !IsSpace(title[|title| - 1]) }

  lemma TightConcat(a: seq<Unit>, b: seq<Unit>)
    requires Tight(a) && Tight(b)
    ensures Tight(a + b)
  {
    var us := a + b;
    forall i | 0 <= i < |us| && us[i] == BoldOn ensures i + 1 < |us| && IsInk(us[i + 1]) {
      if i < |a| { assert a[i] == BoldOn; } else { assert b[i - |a|] == BoldOn; }
    }
    forall i | 0 <= i < |us| && us[i] == BoldOff ensures i > 0 && IsInk(us[i - 1]) {
      if i < |a| { assert a[i] == BoldOff; } else { assert b[i - |a|] == BoldOff; }
    }
  }

  lemma {:induction false} UnitsAreTight(ps: seq<Piece>, values: map<string, string>)
    requires NamesIn(ps) <= values.Keys
    requires "job_title" in NamesIn(ps) ==> IsTrimmed(values["job_title"])
    ensures Tight(UnitsOf(ps, values))
    decreases |ps|
  {
    if ps != [] {
      TailNames(ps);
      UnitsAreTight(ps[1..], values);
      var rest := UnitsOf(ps[1..], values);
      match ps[0]
      case Literal(c) =>
        CharsAreTight([c]);
        assert Chars([c]) == [Char(c)];
        hide Tight, IsTrimmed;
        TightConcat([Char(c)], rest);
      case Hole(name, _) =>
        HeadName(ps);
        CharsAreTight(values[name]);
        if name == "job_title" { TitleIsTight(values[name]); }
        hide Tight, IsTrimmed, Chars;
        TightConcat(if name == "job_title" then [BoldOn] + Chars(values[name]) + [BoldOff] else Chars(values[name]), rest);
    }
  }

  lemma CharsAreTight(s: string)
    ensures Tight(Chars(s))
  {
  }

  lemma TitleIsTight(title: string)
    requires IsTrimmed(title)
    ensures Tight([BoldOn] + Chars(title) + [BoldOff])
  {
    hide IsSpace;
  }

  /** A body's HTML paragraphs are as many as its text paragraphs, and each reads as its text, whenever the body does
      not use the job title, or the title is neither empty nor padded. */
  lemma ParagraphsAgree(body: string, values: map<string, string>)
    requires "job_title" in Names(body) && "job_title" in values ==> IsTrimmed(values["job_title"])
    ensures ReadAlike(BodyParagraphs(body, values, true), BodyParagraphs(body, values, false))
  {
    hide Scan, TokenAt, IsTrimmed, ParagraphsOf, PlainText, UnitsOf;
    var ps := Scan(body);
    FailsExactlyOnMissing(ps, values, true);
    FailsExactlyOnMissing(ps, values, false);
    if NamesIn(ps) <= values.Keys {
      UnitsFill(ps, values);
      UnitsAreTight(ps, values);
      TightReadsAlike(UnitsOf(ps, values));
    }
  }

  /** A text that is kept as typed agrees with its HTML, too. */
  lemma LiteralParagraphsAgree(body: string)
    ensures ReadAlike(ParagraphsOf(EscapeHtml(body)), ParagraphsOf(body))
  {
    CharsRead(body);
    TightReadsAlike(Chars(body));
  }

  // ---------------------------------------------------------------- a padded title

  predicate IsPrefix(a: seq<Unit>, b: seq<Unit>) { |a| <= |b| && a == b[..|a|] }

  predicate IsSuffix(a: seq<Unit>, b: seq<Unit>) { |a| <= |b| && a == b[|b| - |a|..] }

  lemma {:induction false} FirstPart(part: seq<Unit>, rest: seq<Unit>)
    ensures PartsUnits(part, rest) != [] && |part| <= |PartsUnits(part, rest)[0]| && IsPrefix(PartsUnits(part, rest)[0], part + rest)
    decreases |rest|
  {
    if rest != [] && GapUnits(rest) == 0 {
      assert (part + [rest[0]]) + rest[1..] == part + rest;
      FirstPart(part + [rest[0]], rest[1..]);
    }
  }

  lemma SuffixOfRest(a: seq<Unit>, part: seq<Unit>, rest: seq<Unit>, g: nat)
    requires g <= |rest| && IsSuffix(a, [] + rest[g..])
    ensures IsSuffix(a, part + rest)
  {
    assert [] + rest[g..] == (part + rest)[|part| + g..];
  }

  lemma {:induction false} LastPart(part: seq<Unit>, rest: seq<Unit>)
    requires rest != [] && !IsBlank(rest[|rest| - 1])
    ensures var ps := PartsUnits(part, rest);
            ps != [] && ps[|ps| - 1] != [] && IsSuffix(ps[|ps| - 1], part + rest)
    decreases |rest|
  {
    var g := GapUnits(rest);
    if g > 0 {
      GapIsBlank(rest);
      BlankUnitsAre(rest, g - 1);
      hide IsBlank, GapUnits, BlankUnits;
      LastPart([], rest[g..]);
      var ps := PartsUnits([], rest[g..]);
      SuffixOfRest(ps[|ps| - 1], part, rest, g);
    } else {
      hide IsBlank, GapUnits;
      assert (part + [rest[0]]) + rest[1..] == part + rest;
      if |rest| > 1 { LastPart(part + [rest[0]], rest[1..]); }
      else { assert PartsUnits(part + [rest[0]], rest[1..]) == [part + [rest[0]]]; }
    }
  }

  lemma FirstPartOf(us: seq<Unit>)
    requires us != [] && !IsBlank(us[0])
    ensures PartsUnits([], us) != [] && PartsUnits([], us)[0] != [] && IsPrefix(PartsUnits([], us)[0], us)
  {
    var one := [us[0]];
    assert [] + one == one && one + us[1..] == us;
    NoGapBeforeInk(us);
    FirstPart(one, us[1..]);
  }

  lemma NoGapBeforeInk(us: seq<Unit>)
    requires us != [] && !IsBlank(us[0])
    ensures GapUnits(us) == 0
  {
    FeedIsSpace();
  }

  // Of a text between two tags the first kept part starts, and the last one ends, with a tag.
  lemma PartsBetweenTags(us: seq<Unit>)
    requires |us| > 1 && us[0] == BoldOn && us[|us| - 1] == BoldOff
    ensures var ps := PartsUnits([], us);
            && ps != []
            && Trim(ps[0]) != [] && IsPrefix(Trim(ps[0]), us)
            && Trim(ps[|ps| - 1]) != [] && IsSuffix(Trim(ps[|ps| - 1]), us)
  {
    hide PartsUnits, Trim;
    assert [] + us == us;
    FirstPartOf(us);
    LastPart([], us);
    var ps := PartsUnits([], us);
    var first, last := ps[0], ps[|ps| - 1];
    assert first[0] == BoldOn && last[|last| - 1] == BoldOff;
    TrimIsPrefix(first);
    TrimIsSuffix(last);
  }

  lemma {:induction false} TrimIsPrefix(us: seq<Unit>)
    requires us != [] && !IsBlank(us[0])
    ensures Trim(us) != [] && IsPrefix(Trim(us), us)
    decreases |us|
  {
    if IsBlank(us[|us| - 1]) { TrimIsPrefix(us[..|us| - 1]); }
  }

  lemma {:induction false} TrimIsSuffix(us: seq<Unit>)
    requires us != [] && !IsBlank(us[|us| - 1])
    ensures Trim(us) != [] && IsSuffix(Trim(us), us)
    decreases |us|
  {
    if IsBlank(us[0]) { TrimIsSuffix(us[1..]); }
  }

  // A kept part stays at its end of the list.
  lemma {:induction false} KeptAtTheEnds(ps: seq<seq<Unit>>)
    requires ps != []
    ensures var h := Trimmed(HtmlAll(ps));
            && (Trim(ps[0]) != [] ==> h != [] && h[0] == Html(Trim(ps[0])))
            && (Trim(ps[|ps| - 1]) != [] ==> h != [] && h[|h| - 1] == Html(Trim(ps[|ps| - 1])))
    decreases |ps|
  {
    hide Html, Strip, Trim;
    HtmlTrims(ps[0]);
    EmptyHtml(Trim(ps[0]));
    if |ps| > 1 {
      KeptAtTheEnds(ps[1..]);
    } else {
      assert HtmlAll(ps[1..]) == [];
    }
  }

  lemma {:induction false} StripLooks(s: string)
    ensures Strip(s) != "" ==> !IsSpace(Strip(s)[0]) && !IsSpace(Strip(s)[|Strip(s)| - 1])
    decreases |s|
  {
    hide IsSpace;
    if s != "" {
      if IsSpace(s[0]) { StripLooks(s[1..]); }
      else if IsSpace(s[|s| - 1]) { StripLooks(s[..|s| - 1]); }
    }
  }

  lemma {:induction false} TrimmedLooks(parts: seq<string>, i: nat)
    requires i < |Trimmed(parts)|
    ensures IsTrimmed(Trimmed(parts)[i])
    decreases |parts|
  {
    hide IsSpace, Strip;
    StripLooks(parts[0]);
    var kept := if Strip(parts[0]) == "" then 0 else 1;
    if i >= kept { TrimmedLooks(parts[1..], i - kept); }
  }

  function TitleUnits(title: string): seq<Unit> { [BoldOn] + Chars(title) + [BoldOff] }

  // What the text of a part at an end of the title must look like.
  lemma StartsInTitle(title: string, first: seq<Unit>)
    requires IsPrefix(first, TitleUnits(title)) && first != [] && IsTrimmed(Plain(first))
    ensures title != "" && !IsSpace(title[0])
  {
    var us := TitleUnits(title);
    OneUnit(BoldOn);
    TitleReads(title);
    hide HtmlOne, Html, IsSpace, Plain;
    assert first[0] == BoldOn;
    assert |first| == 1 ==> first == [BoldOn];
    assert |us| == 2 && |first| == 2 ==> first == us;
    assert first[1] == us[1] == Char(title[0]);
    StartOfTitle(first);
  }

  lemma StopsInTitle(title: string, last: seq<Unit>)
    requires IsSuffix(last, TitleUnits(title)) && last != [] && IsTrimmed(Plain(last))
    ensures title != "" && !IsSpace(title[|title| - 1])
  {
    var us := TitleUnits(title);
    OneUnit(BoldOff);
    TitleReads(title);
    hide HtmlOne, Html, IsSpace, Plain;
    assert last[|last| - 1] == BoldOff;
    assert |last| == 1 ==> last == [BoldOff];
    assert |us| == 2 && |last| == 2 ==> last == us;
    assert last[|last| - 2] == us[|us| - 2] == Char(title[|title| - 1]);
    PlainStops(last, |last| - 2);
  }

  lemma StartOfTitle(us: seq<Unit>)
    requires |us| > 1 && us[0] == BoldOn && us[1].Char?
    ensures Plain(us) != "" && Plain(us)[0] == us[1].c
  {
    assert Plain(us) == "" + Plain(us[1..]) && Plain(us[1..]) == [us[1].c] + Plain(us[1..][1..]);
  }

  lemma TitleDiffers(title: string)
    requires ReadAlike(ParagraphsOf(Html(TitleUnits(title))), ParagraphsOf(title))
    ensures IsTrimmed(title)
  {
    hide IsSpace, PlainText, Html, Plain, Parts, Strip, Trim, PartsUnits;
    var us := TitleUnits(title);
    var ps := PartsUnits([], us);
    assert [] + us == us;
    HtmlCuts([], us);
    assert Html([]) == "" by { EmptyHtml([]); }
    PartsBetweenTags(us);
    var first, last := Trim(ps[0]), Trim(ps[|ps| - 1]);
    KeptAtTheEnds(ps);
    HtmlReads(first);
    HtmlReads(last);
    var t := ParagraphsOf(title);
    TrimmedLooks(Parts("", title), 0);
    TrimmedLooks(Parts("", title), |t| - 1);
    StartsInTitle(title, first);
    StopsInTitle(title, last);
  }

  const TITLE_ALONE := TokenText("", "job_title", "")

  lemma TitleAloneFills(values: map<string, string>)
    requires "job_title" in values
    ensures Substituted(TITLE_ALONE, values, true) == Result.Text(Html(TitleUnits(values["job_title"])))
    ensures Substituted(TITLE_ALONE, values, false) == Result.Text(values["job_title"])
  {
    var hole := Hole("job_title", TITLE_ALONE);
    assert Scan(TITLE_ALONE) == [hole] by { TitleAloneScans(); }
    assert NamesIn([hole]) <= values.Keys;
    UnitsFill([hole], values);
    TitleAloneUnits(hole, values);
    TitleReads(values["job_title"]);
    hide Html, Plain, Fill, UnitsOf, TitleUnits;
  }

  lemma TitleAloneUnits(hole: Piece, values: map<string, string>)
    requires hole.Hole? && hole.name == "job_title" && "job_title" in values && NamesIn([hole]) <= values.Keys
    ensures UnitsOf([hole], values) == TitleUnits(values["job_title"])
  {
    assert [hole][1..] == [];
    assert UnitsOf([hole], values) == TitleUnits(values["job_title"]) + [];
  }

  lemma TitleAloneScans()
    ensures Scan(TITLE_ALONE) == [Hole("job_title", TITLE_ALONE)]
  {
    assert AllNameChars("job_title") by { TitleName(); }
    assert AllSpaces("");
    hide TokenText, AllNameChars, AllSpaces, TokenAt;
    assert IsTokenText(TITLE_ALONE, "job_title");
    ScanSplits("", TITLE_ALONE, "job_title", "");
    assert "" + (TITLE_ALONE + "") == TITLE_ALONE;
    assert Scan("") == [];
  }

  lemma TitleName()
    ensures AllNameChars("job_title")
  {
    var s := "job_title";
    assert s[1..] == "ob_title" && s[2..] == "b_title" && s[3..] == "_title" && s[4..] == "title" && s[5..] == "itle";
    assert AllNameChars("tle") by { assert "tle"[1..] == "le" && "le"[1..] == "e" && "e"[1..] == ""; }
    assert "itle"[1..] == "tle" && "title"[1..] == "itle" && "_title"[1..] == "title" && "b_title"[1..] == "_title"
           && "ob_title"[1..] == "b_title" && "job_title"[1..] == "ob_title";
  }

  /** The two outputs agree on the paragraphs of every body if and only if the job title is neither empty nor padded:
      an empty or padded title already differs where it stands alone. */
  lemma ParagraphsAgreeExactly(title: string)
    ensures (forall body, values: map<string, string> | "job_title" in values && values["job_title"] == title ::
               ReadAlike(BodyParagraphs(body, values, true), BodyParagraphs(body, values, false)))
            <==> IsTrimmed(title)
  {
    hide IsTrimmed, BodyParagraphs;
    if IsTrimmed(title) {
      forall body, values: map<string, string> | "job_title" in values && values["job_title"] == title
        ensures ReadAlike(BodyParagraphs(body, values, true), BodyParagraphs(body, values, false))
      {
        ParagraphsAgree(body, values);
      }
    } else {
      var values := map["job_title" := title];
      DiffersAlone(values);
      assert values["job_title"] == title;
    }
  }

  lemma DiffersAlone(values: map<string, string>)
    requires "job_title" in values && !IsTrimmed(values["job_title"])
    ensures !ReadAlike(BodyParagraphs(TITLE_ALONE, values, true), BodyParagraphs(TITLE_ALONE, values, false))
  {
    hide Substituted, ReadAlike, ParagraphsOf, IsTrimmed;
    TitleAloneFills(values);
    if ReadAlike(ParagraphsOf(Html(TitleUnits(values["job_title"]))), ParagraphsOf(values["job_title"])) {
      TitleDiffers(values["job_title"]);
    }
  }
}
