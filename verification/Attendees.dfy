/**
 The people on a calendar message, read the way section 3.1 of RFC 5545 splits a content line: parameters end at the
 first colon outside double quotes, and an unquoted parameter value holds no quote, semicolon, colon or comma
 (section 3.2). Names are written with the backslash escapes of a TEXT value, which no such value has.
 */
module Attendees {
  import opened Basics
  import opened Text
  import opened Calendar
  import opened CalendarMessage

  // ---------------------------------------------------------------- the reader

  predicate EndsValue(c: char) { c == '"' || c == ';' || c == ':' || c == ',' }

  // An unquoted parameter value at the start of a text.
  function SafeText(s: string): string {
    if s == "" || EndsValue(s[0]) then "" else [s[0]] + SafeText(s[1..])
  }

  // The value of a line: what follows the first colon outside quotes.
  function AfterColon(s: string, quoted: bool): Option<string> {
    if s == "" then None
    else if s[0] == '"' then AfterColon(s[1..], !quoted)
    else if s[0] == ':' && !quoted then Some(s[1..])
    else AfterColon(s[1..], quoted)
  }

  // The common name behind "...;CN=", and the address of a mailto value.
  function NameIn(line: string, prefix: string): string
    requires |prefix| <= |line|
  {
    SafeText(line[|prefix|..])
  }

  function AddressIn(line: string): Option<string> {
    match AfterColon(line, false)
    case Some(v) => if StartsWith(v, "mailto:") then Some(v[7..]) else None
    case None => None
  }

  // ---------------------------------------------------------------- when a name comes back

  // Nothing a parameter value cannot hold, and nothing the escaping touches.
  predicate Unremarkable(name: string) {
    forall c | c in name :: !EndsValue(c) && c != '\\' && c != '\n'
  }

  // Reading over a text: the quotes are open or closed behind it, or its value begins inside it.
  function QuotesAfter(s: string, quoted: bool): Option<bool> {
    if s == "" then Some(quoted)
    else if s[0] == '"' then QuotesAfter(s[1..], !quoted)
    else if s[0] == ':' && !quoted then None
    else QuotesAfter(s[1..], quoted)
  }

  lemma {:induction false} SafeTextOver(a: string, b: string)
    requires b != "" && EndsValue(b[0])
    ensures SafeText(a + b) == SafeText(a)
    ensures (forall c | c in a :: !EndsValue(c)) ==> SafeText(a) == a
    ensures forall c | c in SafeText(a) :: !EndsValue(c)
    decreases |a|
  {
    if a == "" {
      assert a + b == b;
    } else {
      assert (a + b)[0] == a[0] && (a + b)[1..] == a[1..] + b;
      assert forall c | c in a[1..] :: c in a;
      SafeTextOver(a[1..], b);
      assert a == [a[0]] + a[1..];
    }
  }

  lemma {:induction false} UnremarkableIsPlain(name: string)
    requires Unremarkable(name)
    ensures EscapeOnce(name) == name
    decreases |name|
  {
    if name != "" {
      assert name[0] in name && forall c | c in name[1..] :: c in name;
      if |name| > 1 { assert name[1] in name; }
      UnremarkableIsPlain(name[1..]);
      assert name == [name[0]] + name[1..];
    }
  }

  // Escaping makes a text longer wherever it adds a backslash.
  lemma {:induction false} EscapingGrows(name: string)
    requires '\n' !in name
    ensures |EscapeOnce(name)| >= |name| && (EscapeOnce(name) == name ==> '\\' !in name)
    ensures forall c | EndsValue(c) && c in EscapeOnce(name) :: c in name
    decreases |name|
  {
    if name != "" {
      assert !StartsCrlf(name) && name[0] in name && forall c | c in name[1..] :: c in name;
      EscapingGrows(name[1..]);
      assert EscapeOnce(name) == EscapeChar(name[0]) + EscapeOnce(name[1..]);
      if EscapeOnce(name) == name {
        assert |EscapeChar(name[0])| == 1;
        assert EscapeOnce(name)[1..] == name[1..];
        assert name == [name[0]] + name[1..];
      }
    }
  }

  lemma {:induction false} EscapingKeepsStops(name: string, c: char)
    requires EndsValue(c)
    ensures c in EscapeOnce(name) <==> c in name
    decreases |name|
  {
    if name != "" {
      if StartsCrlf(name) {
        EscapingKeepsStops(name[2..], c);
        assert name == [name[0], name[1]] + name[2..];
      } else {
        EscapingKeepsStops(name[1..], c);
        assert name == [name[0]] + name[1..];
      }
    }
  }

  // A name comes back exactly when it is unremarkable.
  lemma NameReadsExactly(name: string, rest: string)
    requires rest != "" && EndsValue(rest[0])
    ensures SafeText(EscapeText(name) + rest) == name <==> Unremarkable(name)
  {
    var written := EscapeText(name);
    EscapeIsOnePass(name);
    SafeTextOver(written, rest);
    forall c | EndsValue(c) ensures c in written <==> c in name { EscapingKeepsStops(name, c); }
    if Unremarkable(name) {
      UnremarkableIsPlain(name);
    }
    if SafeText(written + rest) == name {
      assert forall c | c in name :: !EndsValue(c);
      assert written == name;
      EscapedHasNoNewline(name);
      EscapingGrows(name);
    }
  }

  // ---------------------------------------------------------------- when an address comes back

  lemma {:induction false} AfterColonOver(a: string, b: string, quoted: bool)
    ensures match QuotesAfter(a, quoted)
            case Some(q) => AfterColon(a + b, quoted) == AfterColon(b, q)
            case None => AfterColon(a + b, quoted).Some? && |AfterColon(a + b, quoted).value| >= |b|
    decreases |a|
  {
    if a == "" {
      assert a + b == b;
    } else {
      assert (a + b)[0] == a[0] && (a + b)[1..] == a[1..] + b;
      if a[0] == '"' { AfterColonOver(a[1..], b, !quoted); }
      else if a[0] != ':' || quoted { AfterColonOver(a[1..], b, quoted); }
    }
  }

  lemma {:induction false} ValueIsShorter(s: string, quoted: bool)
    ensures AfterColon(s, quoted).Some? ==> |AfterColon(s, quoted).value| < |s|
    decreases |s|
  {
    if s != "" {
      if s[0] == '"' { ValueIsShorter(s[1..], !quoted); }
      else if s[0] != ':' || quoted { ValueIsShorter(s[1..], quoted); }
    }
  }

  lemma {:induction false} EscapingKeepsQuotes(name: string, quoted: bool)
    ensures QuotesAfter(EscapeOnce(name), quoted) == QuotesAfter(name, quoted)
    decreases |name|
  {
    if name != "" {
      if StartsCrlf(name) {
        EscapingKeepsQuotes(name[2..], quoted);
        QuotesOver("\\n", EscapeOnce(name[2..]), quoted);
        assert name[1..][1..] == name[2..];
        assert "\\n"[1..][1..] == "";
      } else {
        QuotesOver(EscapeChar(name[0]), EscapeOnce(name[1..]), quoted);
        CharQuotes(name[0], quoted);
        if name[0] == '"' { EscapingKeepsQuotes(name[1..], !quoted); }
        else { EscapingKeepsQuotes(name[1..], quoted); }
      }
    }
  }

  lemma CharQuotes(c: char, quoted: bool)
    ensures QuotesAfter(EscapeChar(c), quoted) == if c == '"' then Some(!quoted) else if c == ':' && !quoted then None else Some(quoted)
  {
    if |EscapeChar(c)| == 2 {
      var x := EscapeChar(c)[1];
      assert EscapeChar(c) == ['\\'] + [x];
      QuotesOver(['\\'], [x], quoted);
      OneQuotes('\\', quoted);
      OneQuotes(x, quoted);
    } else {
      assert EscapeChar(c) == [c];
      OneQuotes(c, quoted);
    }
  }

  lemma OneQuotes(c: char, quoted: bool)
    ensures QuotesAfter([c], quoted) == if c == '"' then Some(!quoted) else if c == ':' && !quoted then None else Some(quoted)
  {
    assert [c][1..] == "";
  }

  lemma {:induction false} QuotesOver(a: string, b: string, quoted: bool)
    ensures QuotesAfter(a + b, quoted) ==
            match QuotesAfter(a, quoted) case Some(q) => QuotesAfter(b, q) case None => None
    decreases |a|
  {
    if a == "" {
      assert a + b == b;
    } else {
      assert (a + b)[0] == a[0] && (a + b)[1..] == a[1..] + b;
      if a[0] == '"' { QuotesOver(a[1..], b, !quoted); }
      else if a[0] != ':' || quoted { QuotesOver(a[1..], b, quoted); }
    }
  }

  // Parameters that neither quote nor end the line's name.
  predicate Quiet(s: string) { '"' !in s && ':' !in s }

  lemma {:induction false} QuietKeepsQuotes(s: string, quoted: bool)
    requires Quiet(s)
    ensures QuotesAfter(s, quoted) == Some(quoted)
    decreases |s|
  {
    if s != "" {
      assert s[0] in s && forall c | c in s[1..] :: c in s;
      QuietKeepsQuotes(s[1..], quoted);
    }
  }

  // An address comes back exactly when the name closes its quotes and has no colon outside them.
  lemma AddressReadsExactly(prefix: string, name: string, params: string, email: string)
    requires Quiet(prefix) && Quiet(params)
    ensures AddressIn(prefix + (EscapeText(name) + (params + (":mailto:" + email)))) == Some(email)
            <==> QuotesAfter(name, false) == Some(false)
  {
    var written, value := EscapeText(name), ":mailto:" + email;
    var behind := params + value;
    hide EscapeText, QuotesAfter, AfterColon;
    EscapeIsOnePass(name);
    EscapingKeepsQuotes(name, false);
    QuietKeepsQuotes(prefix, false);
    AfterColonOver(prefix, written + behind, false);
    AfterColonOver(written, behind, false);
    match QuotesAfter(name, false)
    case None =>
    case Some(q) =>
      QuietKeepsQuotes(params, q);
      AfterColonOver(params, value, q);
      MailtoReads(email, q);
  }

  lemma MailtoReads(email: string, quoted: bool)
    ensures var v := AfterColon(":mailto:" + email, quoted);
            if quoted then v.Some? ==> |v.value| < |email| + 7
            else v == Some("mailto:" + email) && StartsWith("mailto:" + email, "mailto:") && ("mailto:" + email)[7..] == email
  {
    var s := ":mailto:" + email;
    assert s[1..] == "mailto:" + email;
    if quoted {
      var t := "mailto:" + email;
      assert AfterColon(s, true) == AfterColon(t, true);
      ValueIsShorter(t, true);
    }
  }

  // ---------------------------------------------------------------- the lines of a message

  const ATTENDEE := "ATTENDEE;CN="
  const ORGANIZER := "ORGANIZER;CN="

  lemma RoleSplits()
    returns (params: string)
    ensures ROLE == params + ":mailto:" && Quiet(params) && params != "" && params[0] == ';'
  {
    var first, second := ";ROLE=REQ-PARTICIPANT;PARTSTAT=", "NEEDS-ACTION;RSVP=FALSE";
    assert "NEEDS-ACTION;RSVP=FALSE:mailto:" == second + ":mailto:";
    assert Quiet(first) by { FirstIsQuiet(); }
    assert Quiet(second);
    params := first + second;
  }

  lemma FirstIsQuiet()
    ensures Quiet(";ROLE=REQ-PARTICIPANT;PARTSTAT=")
  {
  }

  // What a reader gets from a person's line.
  predicate ReadsExactly(line: string, prefix: string, name: string, email: string) {
    && |prefix| <= |line|
    && (NameIn(line, prefix) == name <==> Unremarkable(name))
    && (AddressIn(line) == Some(email) <==> QuotesAfter(name, false) == Some(false))
  }

  /** From an attendee line a reader gets the name exactly when it holds no quote, semicolon, colon, comma, backslash
      or line feed, and the address exactly when the name closes every quote it opens and has no colon outside quotes. */
  lemma AttendeeReadsExactly(a: Attendee)
    ensures ReadsExactly(AttendeeLine(a), ATTENDEE, a.name, a.email)
  {
    hide ROLE, EscapeText, AddressIn, SafeText, QuotesAfter, Unremarkable;
    var params := RoleSplits();
    var value := ":mailto:" + a.email;
    var rest := params + value;
    var line := AttendeeLine(a);
    assert ROLE + a.email == rest;
    assert line == ATTENDEE + (EscapeText(a.name) + rest);
    assert line[|ATTENDEE|..] == EscapeText(a.name) + rest;
    NameReadsExactly(a.name, rest);
    AddressReadsExactly(ATTENDEE, a.name, params, a.email);
  }

  /** ... and likewise from the organizer's line. */
  lemma OrganizerReadsExactly(e: Event)
    ensures ReadsExactly(OrganizerLine(e), ORGANIZER, e.organizerName, e.organizerEmail)
  {
    hide EscapeText, AddressIn, SafeText, QuotesAfter, Unremarkable;
    var rest := ":mailto:" + e.organizerEmail;
    var line := OrganizerLine(e);
    assert line == ORGANIZER + (EscapeText(e.organizerName) + rest);
    assert line[|ORGANIZER|..] == EscapeText(e.organizerName) + rest;
    NameReadsExactly(e.organizerName, rest);
    AddressReadsExactly(ORGANIZER, e.organizerName, "", e.organizerEmail);
    assert "" + rest == rest;
  }

  // Where the people stand among the content lines.
  lemma PeopleLines(e: Event, m: Method, stamp: Stamp)
    ensures var lines, at := ContentLines(e, m, stamp), 12 + |PlaceLines(e)|;
            && at + |e.attendees| <= |lines| && lines[at - 1] == OrganizerLine(e)
            && forall i | 0 <= i < |e.attendees| :: lines[at + i] == AttendeeLine(e.attendees[i])
  {
    hide TailLines, OrganizerLine, AttendeeLine, EscapeText, Decimal;
    var h, p, a := HeadLines(e, m, stamp), PlaceLines(e), AttendeeLines(e.attendees);
    assert |h| == 12 && p[|p| - 1] == OrganizerLine(e);
  }

  /** So a message whose unescaped fields are clean names its people exactly when their names are unremarkable. */
  lemma PeopleComeBackExactly(e: Event, m: Method, stamp: Stamp)
    requires RawFieldsClean(e)
    ensures var lines, at := ContentLinesOf(Rendered(ContentLines(e, m, stamp))), 12 + |PlaceLines(e)|;
            && at + |e.attendees| <= |lines|
            && ReadsExactly(lines[at - 1], ORGANIZER, e.organizerName, e.organizerEmail)
            && forall i | 0 <= i < |e.attendees| ::
                 ReadsExactly(lines[at + i], ATTENDEE, e.attendees[i].name, e.attendees[i].email)
  {
    hide ContentLines, Rendered, ContentLinesOf, PlaceLines, ReadsExactly, AttendeeLine, OrganizerLine, RawFieldsClean, AllFit;
    MessageParsesBack(e, m, stamp);
    PeopleLines(e, m, stamp);
    OrganizerReadsExactly(e);
    forall i | 0 <= i < |e.attendees|
      ensures ReadsExactly(AttendeeLine(e.attendees[i]), ATTENDEE, e.attendees[i].name, e.attendees[i].email)
    {
      AttendeeReadsExactly(e.attendees[i]);
    }
  }

  /** For a name that is lost, one as ordinary as "Doe, Ada": the reader takes its comma for the end. */
  lemma CommaNameIsLost(a: Attendee)
    requires ',' in a.name
    ensures |ATTENDEE| <= |AttendeeLine(a)| && NameIn(AttendeeLine(a), ATTENDEE) != a.name
  {
    hide AttendeeLine, NameIn, AddressIn;
    AttendeeReadsExactly(a);
  }
}
