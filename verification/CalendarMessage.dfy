/** The calendar message of services/ics.py, as it is written and as a reader gets it back. */
module CalendarMessage {
  import opened Text
  import opened Calendar

  datatype Method = REQUEST | CANCEL | PUBLISH

  // A UTC time as strftime writes it, YYYYMMDDTHHMMSSZ.
  type Stamp = s: string | |s| == 16 && forall i | 0 <= i < 16 :: '0' <= s[i] <= '9' || s[i] == 'T' || s[i] == 'Z'
    witness "19700101T000000Z"

  datatype Attendee = Attendee(name: string, email: string)

  // An empty location or url is none.
  datatype Event = Event(uid: string, sequence: nat, start: Stamp, end: Stamp, summary: string, description: string,
                         location: string, organizerEmail: string, organizerName: string,
                         attendees: seq<Attendee>, url: string)

  function MethodName(m: Method): string {
    match m case REQUEST => "REQUEST" case CANCEL => "CANCEL" case PUBLISH => "PUBLISH"
  }

  function OrganizerLine(e: Event): string {
    "ORGANIZER;CN=" + EscapeText(e.organizerName) + ":mailto:" + e.organizerEmail
  }

  const ROLE := ";ROLE=REQ-PARTICIPANT;PARTSTAT=" + "NEEDS-ACTION;RSVP=FALSE:mailto:"

  function AttendeeLine(a: Attendee): string {
    "ATTENDEE;CN=" + EscapeText(a.name) + ROLE + a.email
  }

  function HeadLines(e: Event, m: Method, stamp: Stamp): seq<string> {
    ["BEGIN:VCALENDAR", "VERSION:2.0", "PRODID:-//Ganek//Interview scheduling//EN", "METHOD:" + MethodName(m),
     "BEGIN:VEVENT", "UID:" + e.uid, "SEQUENCE:" + Decimal(e.sequence), "DTSTAMP:" + stamp,
     "DTSTART:" + e.start, "DTEND:" + e.end,
     "SUMMARY:" + EscapeText(e.summary), "DESCRIPTION:" + EscapeText(e.description)]
  }

  function PlaceLines(e: Event): seq<string> {
    (if e.location == "" then [] else ["LOCATION:" + EscapeText(e.location)])
    + (if e.url == "" then [] else ["URL:" + e.url])
    + [OrganizerLine(e)]
  }

  function AttendeeLines(attendees: seq<Attendee>): seq<string> {
    seq(|attendees|, i requires 0 <= i < |attendees| => AttendeeLine(attendees[i]))
  }

  function TailLines(m: Method): seq<string> {
    [if m == CANCEL then "STATUS:CANCELLED" else "STATUS:CONFIRMED", "END:VEVENT", "END:VCALENDAR"]
  }

  // The content lines of a message, before folding.
  function ContentLines(e: Event, m: Method, stamp: Stamp): seq<string> {
    HeadLines(e, m, stamp) + PlaceLines(e) + AttendeeLines(e.attendees) + TailLines(m)
  }

  lemma {:induction false} RenderedAppend(a: seq<string>, b: seq<string>)
    ensures Rendered(a + b) == Rendered(a) + Rendered(b)
    decreases |a|
  {
    if a == [] {
      assert a + b == b;
    } else {
      assert (a + b)[1..] == a[1..] + b;
      RenderedAppend(a[1..], b);
    }
  }

  method Render(e: Event, m: Method, stamp: Stamp) returns (text: string)
    ensures text == Rendered(ContentLines(e, m, stamp))
  {
    hide HeadLines, TailLines, OrganizerLine, AttendeeLine, EscapeText;
    var lines := HeadLines(e, m, stamp);
    if e.location != "" {
      lines := lines + ["LOCATION:" + EscapeText(e.location)];
    }
    if e.url != "" {
      lines := lines + ["URL:" + e.url];
    }
    lines := lines + [OrganizerLine(e)];
    assert lines == HeadLines(e, m, stamp) + PlaceLines(e);
    ghost var before := lines;
    for i := 0 to |e.attendees|
      invariant lines == before + AttendeeLines(e.attendees)[..i]
    {
      lines := lines + [AttendeeLine(e.attendees[i])];
    }
    lines := lines + TailLines(m);
    assert lines == ContentLines(e, m, stamp);
    text := FoldAll(lines);
  }

  // The final join: every line folded and ended.
  method FoldAll(lines: seq<string>) returns (text: string)
    ensures text == Rendered(lines)
  {
    text := "";
    for i := 0 to |lines|
      invariant text == Rendered(lines[..i])
    {
      var folded := Fold(lines[i]);
      assert lines[..i + 1] == lines[..i] + [lines[i]];
      RenderedAppend(lines[..i], [lines[i]]);
      assert Rendered([lines[i]]) == folded + CRLF + "";
      text := text + (folded + CRLF);
    }
    assert lines[..|lines|] == lines;
  }

  // ---------------------------------------------------------------- which messages parse back

  // The fields that are written as they are hold no CRLF.
  predicate RawFieldsClean(e: Event) {
    NoCrlf(e.uid) && NoCrlf(e.url) && NoCrlf(e.organizerEmail)
    && forall i | 0 <= i < |e.attendees| :: NoCrlf(e.attendees[i].email)
  }

  // A text without line feeds, and one behind such a prefix.
  lemma {:induction false} NoNewlineNoCrlf(s: string)
    requires '\n' !in s
    ensures NoCrlf(s)
    decreases |s|
  {
    if s != "" {
      if |s| > 1 { assert s[1] in s; }
      NoNewlineNoCrlf(s[1..]);
    }
  }

  lemma BehindPrefix(prefix: string, s: string)
    requires '\n' !in prefix && prefix != "" && prefix[|prefix| - 1] != '\r'
    ensures NoCrlf(prefix + s) <==> NoCrlf(s)
  {
    NoNewlineNoCrlf(prefix);
    NoCrlfConcat(prefix, s);
  }

  lemma EscapedLineIsClean(prefix: string, value: string)
    requires '\n' !in prefix
    ensures NoCrlf(prefix + EscapeText(value))
  {
    EscapedHasNoNewline(value);
    NoNewlineNoCrlf(prefix + EscapeText(value));
  }

  lemma {:induction false} DecimalHasDigits(n: nat)
    ensures '\n' !in Decimal(n) && Decimal(n) != ""
  {
    if n >= 10 { DecimalHasDigits(n / 10); }
  }

  // The fixed lines of a message.
  lemma BeginIsClean()
    ensures NoCrlf("BEGIN:VCALENDAR")
  {
    NoNewlineNoCrlf("BEGIN:VCALENDAR");
  }

  lemma VersionIsClean()
    ensures NoCrlf("VERSION:2.0") && NoCrlf("BEGIN:VEVENT")
  {
    NoNewlineNoCrlf("VERSION:2.0");
    NoNewlineNoCrlf("BEGIN:VEVENT");
  }

  lemma ProductIsClean()
    ensures NoCrlf("PRODID:-//Ganek//Interview scheduling//EN")
  {
    NoNewlineNoCrlf("PRODID:-//Ganek//Interview scheduling//EN");
  }

  lemma MethodIsClean(m: Method)
    ensures NoCrlf("METHOD:" + MethodName(m))
  {
    NoNewlineNoCrlf("METHOD:" + MethodName(m));
  }

  lemma NumbersAreClean(e: Event, stamp: Stamp)
    ensures NoCrlf("SEQUENCE:" + Decimal(e.sequence)) && NoCrlf("DTSTAMP:" + stamp)
    ensures NoCrlf("DTSTART:" + e.start) && NoCrlf("DTEND:" + e.end)
  {
    DecimalHasDigits(e.sequence);
    NoNewlineNoCrlf("SEQUENCE:" + Decimal(e.sequence));
    NoNewlineNoCrlf("DTSTAMP:" + stamp);
    NoNewlineNoCrlf("DTSTART:" + e.start);
    NoNewlineNoCrlf("DTEND:" + e.end);
  }

  lemma StatusIsClean(m: Method)
    ensures NoCrlf(if m == CANCEL then "STATUS:CANCELLED" else "STATUS:CONFIRMED")
  {
    NoNewlineNoCrlf(if m == CANCEL then "STATUS:CANCELLED" else "STATUS:CONFIRMED");
  }

  lemma EndsAreClean()
    ensures NoCrlf("END:VEVENT") && NoCrlf("END:VCALENDAR")
  {
    NoNewlineNoCrlf("END:VEVENT");
    NoNewlineNoCrlf("END:VCALENDAR");
  }

  lemma TailIsClean(m: Method)
    ensures AllNoCrlf(TailLines(m))
  {
    hide NoCrlf;
    StatusIsClean(m);
    EndsAreClean();
  }

  lemma HeadIsClean(e: Event, m: Method, stamp: Stamp)
    ensures AllNoCrlf(HeadLines(e, m, stamp)) <==> NoCrlf(e.uid)
  {
    hide NoCrlf, EscapeText, Decimal;
    var h := HeadLines(e, m, stamp);
    BeginIsClean();
    VersionIsClean();
    ProductIsClean();
    MethodIsClean(m);
    NumbersAreClean(e, stamp);
    BehindPrefix("UID:", e.uid);
    EscapedLineIsClean("SUMMARY:", e.summary);
    EscapedLineIsClean("DESCRIPTION:", e.description);
    assert h[5] == "UID:" + e.uid;
  }

  lemma OrganizerIsClean(e: Event)
    ensures NoCrlf(OrganizerLine(e)) <==> NoCrlf(e.organizerEmail)
  {
    EscapedHasNoNewline(e.organizerName);
    BehindPrefix("ORGANIZER;CN=" + EscapeText(e.organizerName) + ":mailto:", e.organizerEmail);
  }

  lemma RoleIsClean()
    ensures '\n' !in ROLE && ROLE != "" && ROLE[|ROLE| - 1] == ':'
  {
    assert '\n' !in ";ROLE=REQ-PARTICIPANT;PARTSTAT=";
    assert '\n' !in "NEEDS-ACTION;RSVP=FALSE:mailto:";
  }

  lemma AttendeeIsClean(a: Attendee)
    ensures NoCrlf(AttendeeLine(a)) <==> NoCrlf(a.email)
  {
    EscapedHasNoNewline(a.name);
    RoleIsClean();
    var prefix := "ATTENDEE;CN=" + EscapeText(a.name) + ROLE;
    assert prefix[|prefix| - 1] == ROLE[|ROLE| - 1];
    BehindPrefix(prefix, a.email);
  }

  lemma PlaceIsClean(e: Event)
    ensures AllNoCrlf(PlaceLines(e)) <==> NoCrlf(e.url) && NoCrlf(e.organizerEmail)
  {
    OrganizerIsClean(e);
    BehindPrefix("URL:", e.url);
    EscapedLineIsClean("LOCATION:", e.location);
    var p := PlaceLines(e);
    assert p[|p| - 1] == OrganizerLine(e);
    if e.url != "" { assert p[|p| - 2] == "URL:" + e.url; }
  }

  lemma AllNoCrlfAppend(a: seq<string>, b: seq<string>)
    ensures AllNoCrlf(a + b) <==> AllNoCrlf(a) && AllNoCrlf(b)
  {
    if AllNoCrlf(a + b) {
      forall k | 0 <= k < |a| ensures NoCrlf(a[k]) { assert (a + b)[k] == a[k]; }
      forall k | 0 <= k < |b| ensures NoCrlf(b[k]) { assert (a + b)[k + |a|] == b[k]; }
    }
  }

  lemma AttendeesAreClean(attendees: seq<Attendee>)
    ensures AllNoCrlf(AttendeeLines(attendees)) <==> forall i | 0 <= i < |attendees| :: NoCrlf(attendees[i].email)
  {
    var a := AttendeeLines(attendees);
    forall i | 0 <= i < |attendees| ensures NoCrlf(a[i]) <==> NoCrlf(attendees[i].email) {
      AttendeeIsClean(attendees[i]);
    }
  }

  lemma ContentIsClean(e: Event, m: Method, stamp: Stamp)
    ensures AllNoCrlf(ContentLines(e, m, stamp)) <==> RawFieldsClean(e)
  {
    HeadIsClean(e, m, stamp);
    PlaceIsClean(e);
    AttendeesAreClean(e.attendees);
    TailIsClean(m);
    AppendFour(HeadLines(e, m, stamp), PlaceLines(e), AttendeeLines(e.attendees), TailLines(m));
  }

  lemma AppendFour(a: seq<string>, b: seq<string>, c: seq<string>, d: seq<string>)
    ensures AllNoCrlf(a + b + c + d) <==> AllNoCrlf(a) && AllNoCrlf(b) && AllNoCrlf(c) && AllNoCrlf(d)
    ensures ProperLines(a) && ProperLines(b) && ProperLines(c) && ProperLines(d) ==> ProperLines(a + b + c + d)
  {
    AllNoCrlfAppend(a, b);
    AllNoCrlfAppend(a + b, c);
    AllNoCrlfAppend(a + b + c, d);
  }

  lemma HeadIsProper(e: Event, m: Method, stamp: Stamp)
    ensures ProperLines(HeadLines(e, m, stamp))
  {
  }

  lemma ContentIsProper(e: Event, m: Method, stamp: Stamp)
    ensures ProperLines(ContentLines(e, m, stamp))
  {
    var h, p, a, t := HeadLines(e, m, stamp), PlaceLines(e), AttendeeLines(e.attendees), TailLines(m);
    HeadIsProper(e, m, stamp);
    assert ProperLines(p) && ProperLines(a) && ProperLines(t);
    AppendFour(h, p, a, t);
  }

  /** A rendered message parses back to its content lines, in order, exactly when no field that is written
      unescaped holds a CRLF; then every physical line is within 75 octets. */
  lemma MessageParsesBack(e: Event, m: Method, stamp: Stamp)
    ensures ContentLinesOf(Rendered(ContentLines(e, m, stamp))) == ContentLines(e, m, stamp) <==> RawFieldsClean(e)
    ensures RawFieldsClean(e) ==> AllFit(Lines("", Rendered(ContentLines(e, m, stamp))))
  {
    ContentIsClean(e, m, stamp);
    ContentIsProper(e, m, stamp);
    RenderedParsesBack(ContentLines(e, m, stamp));
    if RawFieldsClean(e) { RenderedFits(ContentLines(e, m, stamp)); }
  }

  // The value of a property line, unescaped.
  function TextValue(line: string, name: string): string
    requires |name| <= |line|
  {
    Unescape(line[|name|..])
  }

  // A property line read back as text.
  lemma TextLineReads(name: string, value: string)
    ensures name <= name + EscapeText(value) && TextValue(name + EscapeText(value), name) == NormalizeNewlines(value)
  {
    assert (name + EscapeText(value))[|name|..] == EscapeText(value);
    UnescapeUndoesEscape(value);
  }

  lemma TextLines(e: Event, m: Method, stamp: Stamp)
    ensures var lines := ContentLines(e, m, stamp);
            && |lines| > 12
            && lines[5] == "UID:" + e.uid && lines[6] == "SEQUENCE:" + Decimal(e.sequence)
            && lines[10] == "SUMMARY:" + EscapeText(e.summary) && lines[11] == "DESCRIPTION:" + EscapeText(e.description)
            && (e.location != "" ==> lines[12] == "LOCATION:" + EscapeText(e.location))
  {
    hide AttendeeLines, TailLines, OrganizerLine, EscapeText, Decimal;
    var h, p := HeadLines(e, m, stamp), PlaceLines(e);
    assert |h| == 12 && |p| > 0;
    assert e.location != "" ==> p[0] == "LOCATION:" + EscapeText(e.location);
  }

  /** From such a message a reader gets the summary, the description and the location, with CRLF as LF. */
  lemma TextFieldsComeBack(e: Event, m: Method, stamp: Stamp)
    requires RawFieldsClean(e)
    ensures var lines := ContentLinesOf(Rendered(ContentLines(e, m, stamp)));
            && |lines| > 12
            && lines[5] == "UID:" + e.uid && lines[6] == "SEQUENCE:" + Decimal(e.sequence)
            && "SUMMARY:" <= lines[10] && TextValue(lines[10], "SUMMARY:") == NormalizeNewlines(e.summary)
            && "DESCRIPTION:" <= lines[11] && TextValue(lines[11], "DESCRIPTION:") == NormalizeNewlines(e.description)
            && (e.location != "" ==>
                  "LOCATION:" <= lines[12] && TextValue(lines[12], "LOCATION:") == NormalizeNewlines(e.location))
  {
    MessageParsesBack(e, m, stamp);
    TextLines(e, m, stamp);
    TextLineReads("SUMMARY:", e.summary);
    TextLineReads("DESCRIPTION:", e.description);
    TextLineReads("LOCATION:", e.location);
    hide EscapeText, Unescape, TextValue, ContentLines, Rendered, ContentLinesOf, Decimal, RawFieldsClean, NormalizeNewlines;
  }

  // Where the lines behind the optional ones stand.
  function AfterPlace(e: Event): nat {
    12 + (if e.location == "" then 0 else 1) + (if e.url == "" then 0 else 1)
  }

  lemma HeadFields(e: Event, m: Method, stamp: Stamp)
    ensures var lines := HeadLines(e, m, stamp);
            && |lines| == 12 && lines[0] == "BEGIN:VCALENDAR" && lines[1] == "VERSION:2.0" && lines[4] == "BEGIN:VEVENT"
            && lines[3] == (match m case REQUEST => "METHOD:REQUEST" case CANCEL => "METHOD:CANCEL"
                                    case PUBLISH => "METHOD:PUBLISH")
            && lines[7] == "DTSTAMP:" + stamp && lines[8] == "DTSTART:" + e.start && lines[9] == "DTEND:" + e.end
  {
    hide EscapeText, Decimal;
  }

  lemma PlaceFields(e: Event)
    ensures var lines := PlaceLines(e);
            && |lines| == AfterPlace(e) - 11
            && (e.url != "" ==> lines[|lines| - 2] == "URL:" + e.url)
            && lines[|lines| - 1] == OrganizerLine(e)
  {
    hide EscapeText, OrganizerLine;
  }

  lemma TailFields(m: Method)
    ensures var lines := TailLines(m);
            && |lines| == 3 && lines[1] == "END:VEVENT" && lines[2] == "END:VCALENDAR"
            && (m == CANCEL ==> lines[0] == "STATUS:CANCELLED") && (m != CANCEL ==> lines[0] == "STATUS:CONFIRMED")
  {
  }

  /** From such a message a reader gets the method, the three times, the link and the status, and no further
      lines: one for each attendee behind the organizer's. */
  lemma FixedFieldsComeBack(e: Event, m: Method, stamp: Stamp)
    requires RawFieldsClean(e)
    ensures var lines := ContentLinesOf(Rendered(ContentLines(e, m, stamp)));
            && |lines| == AfterPlace(e) + 1 + |e.attendees| + 3
            && lines[0] == "BEGIN:VCALENDAR" && lines[1] == "VERSION:2.0" && lines[4] == "BEGIN:VEVENT"
            && lines[3] == (match m case REQUEST => "METHOD:REQUEST" case CANCEL => "METHOD:CANCEL"
                                    case PUBLISH => "METHOD:PUBLISH")
            && lines[7] == "DTSTAMP:" + stamp && lines[8] == "DTSTART:" + e.start && lines[9] == "DTEND:" + e.end
            && (e.url != "" ==> lines[AfterPlace(e) - 1] == "URL:" + e.url)
            && lines[|lines| - 3] == (if m == CANCEL then "STATUS:CANCELLED" else "STATUS:CONFIRMED")
            && lines[|lines| - 2] == "END:VEVENT" && lines[|lines| - 1] == "END:VCALENDAR"
  {
    MessageParsesBack(e, m, stamp);
    HeadFields(e, m, stamp);
    PlaceFields(e);
    TailFields(m);
    hide HeadLines, PlaceLines, AttendeeLine, TailLines, OrganizerLine, Rendered, ContentLinesOf, RawFieldsClean;
    var p, a := PlaceLines(e), AttendeeLines(e.attendees);
    assert |a| == |e.attendees|;
    var lines := ContentLines(e, m, stamp);
    assert forall i | 0 <= i < 12 :: lines[i] == HeadLines(e, m, stamp)[i];
    assert e.url != "" ==> lines[AfterPlace(e) - 1] == p[|p| - 2];
    assert forall i | 0 <= i < 3 :: lines[|lines| - 3 + i] == TailLines(m)[i];
    assert lines[|lines| - 3] == TailLines(m)[0] && lines[|lines| - 2] == TailLines(m)[1];
    assert lines[|lines| - 1] == TailLines(m)[2];
  }

  // What asks an attendee for nothing: a participant who has not answered and need not.
  lemma RoleSays()
    ensures ROLE == ";ROLE=REQ-PARTICIPANT" + ";PARTSTAT=NEEDS-ACTION" + ";RSVP=FALSE" + ":mailto:"
  {
    assert ";PARTSTAT=NEEDS-ACTION" == ";PARTSTAT=" + "NEEDS-ACTION";
    assert ";ROLE=REQ-PARTICIPANT;PARTSTAT=" == ";ROLE=REQ-PARTICIPANT" + ";PARTSTAT=";
    assert "NEEDS-ACTION;RSVP=FALSE:mailto:" == "NEEDS-ACTION" + ";RSVP=FALSE" + ":mailto:";
  }

  /** ... and the lines of the people, the organizer first and the attendees in order. */
  lemma PeopleLinesComeBack(e: Event, m: Method, stamp: Stamp)
    requires RawFieldsClean(e)
    ensures var lines, at := ContentLinesOf(Rendered(ContentLines(e, m, stamp))), AfterPlace(e);
            && |lines| > at + |e.attendees|
            && lines[at] == "ORGANIZER;CN=" + EscapeText(e.organizerName) + ":mailto:" + e.organizerEmail
            && forall i | 0 <= i < |e.attendees| ::
                 lines[at + 1 + i] == "ATTENDEE;CN=" + EscapeText(e.attendees[i].name)
                   + (";ROLE=REQ-PARTICIPANT" + ";PARTSTAT=NEEDS-ACTION" + ";RSVP=FALSE" + ":mailto:") + e.attendees[i].email
  {
    MessageParsesBack(e, m, stamp);
    PlaceFields(e);
    RoleSays();
    hide HeadLines, PlaceLines, TailLines, Rendered, ContentLinesOf, RawFieldsClean, EscapeText, ROLE;
    var h, p, a := HeadLines(e, m, stamp), PlaceLines(e), AttendeeLines(e.attendees);
    HeadFields(e, m, stamp);
    var lines, at := ContentLines(e, m, stamp), AfterPlace(e);
    assert |h| + |p| == at + 1;
    assert lines[at] == p[|p| - 1];
    forall i | 0 <= i < |e.attendees| ensures lines[at + 1 + i] == AttendeeLine(e.attendees[i]) {
      assert lines[at + 1 + i] == a[i];
    }
  }

  /** The number of such a message, read as a number. */
  lemma SequenceComesBack(e: Event, m: Method, stamp: Stamp)
    requires RawFieldsClean(e)
    ensures var lines := ContentLinesOf(Rendered(ContentLines(e, m, stamp)));
            && |lines| > 6 && "SEQUENCE:" < lines[6] && AllDigits(lines[6][9..]) && NumberOf(lines[6][9..]) == e.sequence
  {
    TextFieldsComeBack(e, m, stamp);
    DecimalReads(e.sequence);
    assert ("SEQUENCE:" + Decimal(e.sequence))[9..] == Decimal(e.sequence);
  }

  /** For one that does not parse back: a line break in the uid. */
  lemma BrokenUidIsLost(e: Event, m: Method, stamp: Stamp)
    requires e.uid == CRLF
    ensures ContentLinesOf(Rendered(ContentLines(e, m, stamp))) != ContentLines(e, m, stamp)
  {
    hide ContentLinesOf, Rendered, ContentLines;
    MessageParsesBack(e, m, stamp);
    assert StartsCrlf(e.uid);
  }
}
