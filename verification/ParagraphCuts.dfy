/**
 What the cut of a mail body at blank lines amounts to (services/email_render.py): the separator of the regular
 expression read declaratively, and the paragraphs with the gaps between them put together again.
 */
module ParagraphCuts {
  import opened Text
  import opened Paragraphs

  // A prefix of n characters the separator matches: white space from a line feed to a line feed.
  predicate IsGap(s: string, n: int) {
    2 <= n <= |s| && s[0] == '\n' && s[n - 1] == '\n' && forall i | 0 <= i < n :: IsSpace(s[i])
  }

  ghost predicate NoGapAt(s: string, i: int)
    requires 0 <= i <= |s|
  {
    forall n :: !IsGap(s[i..], n)
  }

  // No separator anywhere.
  ghost predicate NoGap(s: string) { forall i | 0 <= i <= |s| :: NoGapAt(s, i) }

  lemma {:induction false} BlankIsLongest(s: string)
    ensures AllBlank(Blank(s)) && (|Blank(s)| < |s| ==> !IsSpace(s[|Blank(s)|]))
  {
    hide IsSpace;
    if s != "" && IsSpace(s[0]) { BlankIsLongest(s[1..]); }
  }

  lemma {:induction false} LastFeedIsLast(w: string)
    ensures PastLastFeed(w) > 0 ==> w[PastLastFeed(w) - 1] == '\n'
    ensures forall i | PastLastFeed(w) <= i < |w| :: w[i] != '\n'
    decreases |w|
  {
    if w != "" && w[|w| - 1] != '\n' { LastFeedIsLast(w[..|w| - 1]); }
  }

  /** The cut takes the longest separator there is, and cuts wherever there is one. */
  lemma GapIsLongest(s: string)
    ensures Gap(s) > 0 ==> IsGap(s, Gap(s))
    ensures forall n | IsGap(s, n) :: n <= Gap(s)
  {
    if s != "" {
      var w := Blank(s[1..]);
      BlankIsLongest(s[1..]);
      LastFeedIsLast(w);
      assert IsSpace('\n');
      hide IsSpace;
      assert |w| + 1 < |s| ==> s[|w| + 1] == s[1..][|w|];
      if Gap(s) > 0 {
        forall i | 0 <= i < Gap(s) ensures IsSpace(s[i]) { if i > 0 { assert s[i] == w[i - 1]; } }
        assert s[Gap(s) - 1] == w[Gap(s) - 2];
      }
      forall n | IsGap(s, n) ensures n <= Gap(s) {
        assert n - 1 <= |w|;
        assert w[n - 2] == s[1..][n - 2] == s[n - 1];
      }
    }
  }

  // Parts and the separators between them.
  function Rejoined(parts: seq<string>, gaps: seq<string>): string
    requires |parts| == |gaps| + 1
  {
    if gaps == [] then parts[0] else parts[0] + gaps[0] + Rejoined(parts[1..], gaps[1..])
  }

  // The part under construction holds no separator, even one that runs into what is left.
  ghost predicate SoFar(part: string, rest: string) {
    forall i | 0 <= i < |part| :: NoGapAt(part + rest, i)
  }

  lemma GapExtends(s: string, more: string, n: int)
    ensures IsGap(s, n) ==> IsGap(s + more, n)
  {
  }

  lemma SoFarHasNoGap(part: string, rest: string)
    requires SoFar(part, rest)
    ensures NoGap(part)
  {
    forall i, n | 0 <= i <= |part| ensures !IsGap(part[i..], n) {
      assert i < |part| ==> NoGapAt(part + rest, i);
      assert (part + rest)[i..] == part[i..] + rest;
      GapExtends(part[i..], rest, n);
    }
  }

  lemma OneMoreCharacter(part: string, rest: string)
    requires SoFar(part, rest) && rest != "" && Gap(rest) == 0
    ensures SoFar(part + [rest[0]], rest[1..])
  {
    GapIsLongest(rest);
    var all := part + rest;
    assert part + [rest[0]] + rest[1..] == all;
    assert all[|part|..] == rest;
    assert NoGapAt(all, |part|);
  }

  lemma {:induction false} PartsCut(part: string, rest: string) returns (gaps: seq<string>)
    requires SoFar(part, rest)
    ensures var parts := Parts(part, rest);
            && |parts| == |gaps| + 1 && Rejoined(parts, gaps) == part + rest
            && (forall k | 0 <= k < |parts| :: NoGap(parts[k]))
            && (forall k | 0 <= k < |gaps| :: IsGap(gaps[k], |gaps[k]|))
    decreases |rest|
  {
    if rest == "" {
      gaps := [];
      SoFarHasNoGap(part, rest);
      assert part + rest == part;
    } else if Gap(rest) > 0 {
      GapIsLongest(rest);
      hide IsGap, NoGap, Gap;
      var gap, tail := rest[..Gap(rest)], rest[Gap(rest)..];
      SoFarHasNoGap(part, rest);
      var more := PartsCut("", tail);
      gaps := [gap] + more;
      assert IsGap(gap, |gap|) by { PrefixGap(rest); }
      assert gaps[1..] == more;
      assert ([part] + Parts("", tail))[1..] == Parts("", tail);
      assert part + gap + ("" + tail) == part + rest;
    } else {
      hide IsGap, NoGap, Gap;
      OneMoreCharacter(part, rest);
      gaps := PartsCut(part + [rest[0]], rest[1..]);
      assert part + [rest[0]] + rest[1..] == part + rest;
    }
  }

  lemma PrefixGap(s: string)
    requires Gap(s) > 0
    ensures IsGap(s[..Gap(s)], |s[..Gap(s)]|)
  {
    GapIsLongest(s);
  }

  /** A body is its parts with the separators put back between them, and no part holds another one. */
  lemma BodyIsItsParts(body: string) returns (gaps: seq<string>)
    ensures var parts := Parts("", body);
            && |parts| == |gaps| + 1 && Rejoined(parts, gaps) == body
            && (forall k | 0 <= k < |parts| :: NoGap(parts[k]))
            && (forall k | 0 <= k < |gaps| :: IsGap(gaps[k], |gaps[k]|))
  {
    gaps := PartsCut("", body);
    assert "" + body == body;
  }

  // The parts that are not blank, in order.
  function Inked(parts: seq<string>): seq<string> {
    if parts == [] then [] else (if AllBlank(parts[0]) then [] else [parts[0]]) + Inked(parts[1..])
  }

  // p is part without the white space around it.
  ghost predicate IsTrimOf(p: string, part: string) {
    IsTrimmed(p) && exists i: nat :: IsTrimAt(p, part, i)
  }

  predicate IsTrimAt(p: string, part: string, i: nat) {
    i + |p| <= |part| && p == part[i..i + |p|] && AllBlank(part[..i]) && AllBlank(part[i + |p|..])
  }

  lemma StripIsTrim(part: string)
    ensures if AllBlank(part) then Strip(part) == "" else IsTrimOf(Strip(part), part)
  {
    hide IsSpace;
    var front, back := StripTrims(part);
    var p := Strip(part);
    assert part[|front|..|front| + |p|] == p && part[..|front|] == front && part[|front| + |p|..] == back;
    assert IsTrimAt(p, part, |front|);
    if p == "" {
      assert part == front + back;
    } else {
      assert part[|front|] == p[0];
    }
  }

  lemma {:induction false} ParagraphsAreTrims(parts: seq<string>)
    ensures var ps, inked := Trimmed(parts), Inked(parts);
            |ps| == |inked| && forall k | 0 <= k < |ps| :: IsTrimOf(ps[k], inked[k])
  {
    hide Strip, AllBlank, IsTrimOf;
    if parts != [] {
      ParagraphsAreTrims(parts[1..]);
      StripIsTrim(parts[0]);
      assert AllBlank(parts[0]) || Strip(parts[0]) != "" by { TrimIsNotEmpty(Strip(parts[0]), parts[0]); }
    }
  }

  lemma TrimIsNotEmpty(p: string, part: string)
    ensures IsTrimOf(p, part) ==> p != ""
  {
  }

  /** The paragraphs of a body: one for each part between separators that is not blank, in order, without the white
      space around it. */
  lemma ParagraphsAre(body: string)
    ensures var ps, inked := ParagraphsOf(body), Inked(Parts("", body));
            |ps| == |inked| && forall k | 0 <= k < |ps| :: IsTrimOf(ps[k], inked[k])
  {
    ParagraphsAreTrims(Parts("", body));
  }
}
