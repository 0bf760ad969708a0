/** Template validation and rendering in services/email_render.py: when a mail can fail on a missing placeholder. */
module Templates {
  import opened Basics
  import opened Text
  import opened Placeholders

  datatype Kind = QuizInvite | QuizReminder | StageAdvance | Rejection

  datatype Template = Template(subject: string, body: string)

  // What a sender passes. The expiry is its formatted day; a count of 0 is none.
  datatype Context = Context(candidateName: string, jobTitle: string, companyName: string,
                             expiry: Option<string>, questionCount: nat, secondsPerQuestion: Option<nat>,
                             daysLeft: int, completedAssessment: bool)

  const COMMON := {"candidate_name", "candidate_first_name", "job_title", "company_name"}

  function Allowed(kind: Kind): set<string> {
    COMMON +
    match kind
    case QuizInvite => {"question_count", "time_per_question", "assessment_duration", "valid_until"}
    case QuizReminder => {"assessment_duration", "valid_until", "days_left", "expires_phrase", "days_left_phrase"}
    case StageAdvance => {}
    case Rejection => {"assessment_thanks"}
  }

  predicate IsQuiz(kind: Kind) { kind == QuizInvite || kind == QuizReminder }

  // The unknown placeholders validate reports; empty when the template is accepted.
  function Unknown(kind: Kind, subject: string, body: string): set<string> {
    Names(subject + "\n" + body) - Allowed(kind)
  }

  const THANKS := " We were glad you took the time to complete the assessment - "
    + "a real person reviewed it, not a filter."

  // The first whitespace-separated word.
  function FirstWord(s: string): string
    decreases |s|
  {
    if s == "" then ""
    else if IsSpace(s[0]) then FirstWord(s[1..])
    else WordAt(s)
  }

  function WordAt(s: string): string { if s == "" || IsSpace(s[0]) then "" else [s[0]] + WordAt(s[1..]) }

  // Whole minutes the assessment takes at most, rounded up, at least 1.
  function AssessmentMinutes(count: nat, seconds: Option<nat>): Option<nat> {
    if count == 0 || seconds == None then None
    else var m := (count * seconds.value + 59) / 60; Some(if m < 1 then 1 else m)
  }

  function AssessmentDuration(count: nat, seconds: Option<nat>): string {
    match AssessmentMinutes(count, seconds)
    case None => "a few minutes"
    case Some(m) => "about " + Decimal(m) + " minute" + (if m == 1 then "" else "s")
  }

  function CommonValues(c: Context): map<string, string> {
    map["candidate_name" := c.candidateName, "candidate_first_name" := FirstWord(c.candidateName),
        "job_title" := c.jobTitle, "company_name" := c.companyName]
  }

  function QuizValues(c: Context): map<string, string> {
    (if c.expiry.Some? then map["valid_until" := c.expiry.value] else map[])
    + map["assessment_duration" := AssessmentDuration(c.questionCount, c.secondsPerQuestion)]
  }

  function InviteValues(c: Context): map<string, string> {
    map["question_count" := if c.questionCount == 0 then "" else Decimal(c.questionCount),
        "time_per_question" := if c.secondsPerQuestion.Some? then Decimal(c.secondsPerQuestion.value) + "s" else ""]
  }

  function ReminderValues(c: Context): map<string, string> {
    var d := c.daysLeft;
    var shown := if d < 0 then "-" + Decimal(-d) else Decimal(d);
    var phrases := if d <= 0 then ("today", "last day") else if d == 1 then ("in 1 day", "1 day left")
                   else ("in " + shown + " days", shown + " days left");
    map["days_left" := shown, "expires_phrase" := phrases.0, "days_left_phrase" := phrases.1]
  }

  function Values(kind: Kind, c: Context): map<string, string> {
    var common := CommonValues(c);
    match kind
    case QuizInvite => common + QuizValues(c) + InviteValues(c)
    case QuizReminder => common + QuizValues(c) + ReminderValues(c)
    case StageAdvance => common
    case Rejection => common + map["assessment_thanks" := if c.completedAssessment then THANKS else ""]
  }

  /** The values cover exactly the allowed names of the kind, except the expiry when the context has none. */
  lemma ValuesCoverAllowed(kind: Kind, c: Context)
    ensures Values(kind, c).Keys == Allowed(kind) - (if IsQuiz(kind) && c.expiry == None then {"valid_until"} else {})
  {
    hide FirstWord, AssessmentDuration, Decimal, THANKS;
  }

  // The least number of whole minutes, at least one, that so many seconds fit in.
  predicate IsMinutesFor(m: nat, seconds: nat) {
    1 <= m && seconds <= 60 * m && (m == 1 || 60 * (m - 1) < seconds)
  }

  predicate IsDurationPhrase(phrase: string, m: nat) {
    phrase == if m == 1 then "about 1 minute" else "about " + Decimal(m) + " minutes"
  }

  lemma MinutesAreLeast(count: nat, seconds: nat)
    requires count > 0
    ensures AssessmentMinutes(count, Some(seconds)).Some?
            && IsMinutesFor(AssessmentMinutes(count, Some(seconds)).value, count * seconds)
  {
  }

  /** The duration phrase: the least whole number of minutes the questions fit in, or a vague one when the number of
      questions or the time for each is not known. */
  lemma DurationSays(count: nat, seconds: Option<nat>)
    ensures count == 0 || seconds == None ==> AssessmentDuration(count, seconds) == "a few minutes"
    ensures count > 0 && seconds.Some? ==>
              exists m: nat :: IsMinutesFor(m, count * seconds.value) && IsDurationPhrase(AssessmentDuration(count, seconds), m)
    ensures forall m: nat, k: nat, total: nat :: IsMinutesFor(m, total) && IsMinutesFor(k, total) ==> m == k
  {
    if count > 0 && seconds.Some? {
      MinutesAreLeast(count, seconds.value);
      var m := AssessmentMinutes(count, seconds).value;
      assert Decimal(1) == "1";
      assert IsDurationPhrase(AssessmentDuration(count, seconds), m);
    }
  }

  // A text without white space.
  predicate NoSpaces(s: string) { forall i | 0 <= i < |s| :: !IsSpace(s[i]) }

  lemma {:induction false} WordIsFirst(s: string) returns (rest: string)
    ensures s == WordAt(s) + rest && NoSpaces(WordAt(s)) && (rest == "" || IsSpace(rest[0]))
  {
    hide IsSpace;
    if s == "" || IsSpace(s[0]) {
      rest := s;
    } else {
      rest := WordIsFirst(s[1..]);
    }
  }

  /** The first name is the first run of other characters than white space, and empty exactly when there is none. */
  lemma {:induction false} FirstWordIsFirst(s: string) returns (front: string, rest: string)
    ensures s == front + FirstWord(s) + rest && AllBlank(front) && NoSpaces(FirstWord(s))
    ensures rest == "" || IsSpace(rest[0])
    ensures FirstWord(s) == "" <==> AllBlank(s)
  {
    hide IsSpace;
    if s == "" {
      front, rest := "", "";
    } else if IsSpace(s[0]) {
      front, rest := FirstWordIsFirst(s[1..]);
      CharInFront(s, front, FirstWord(s[1..]), rest);
      front := [s[0]] + front;
      assert AllBlank(s) <==> AllBlank(s[1..]) by { assert s == [s[0]] + s[1..]; }
    } else {
      front := "";
      rest := WordIsFirst(s);
    }
  }

  /** What every mail's placeholders stand for. */
  lemma NamesSay(kind: Kind, c: Context)
    ensures var v := Values(kind, c);
            && {"candidate_name", "candidate_first_name", "job_title", "company_name"} <= v.Keys
            && v["candidate_name"] == c.candidateName && v["job_title"] == c.jobTitle
            && v["company_name"] == c.companyName && v["candidate_first_name"] == FirstWord(c.candidateName)
  {
    CommonSays(c);
    KindsAddTheirOwn(c);
    hide CommonValues, QuizValues, InviteValues, ReminderValues, FirstWord, THANKS;
    var own := CommonValues(c);
    assert forall name | name in own :: name in Values(kind, c) && Values(kind, c)[name] == own[name];
  }

  lemma CommonSays(c: Context)
    ensures var v := CommonValues(c);
            && v.Keys == COMMON
            && v["candidate_name"] == c.candidateName && v["job_title"] == c.jobTitle
            && v["company_name"] == c.companyName && v["candidate_first_name"] == FirstWord(c.candidateName)
  {
  }

  // What a kind adds replaces none of the values all mails share.
  lemma KindsAddTheirOwn(c: Context)
    ensures QuizValues(c).Keys !! COMMON && InviteValues(c).Keys !! COMMON && ReminderValues(c).Keys !! COMMON
    ensures "assessment_thanks" !in COMMON
  {
    hide AssessmentDuration, Decimal;
  }

  /** What a quiz mail's placeholders stand for. */
  lemma QuizSays(kind: Kind, c: Context)
    requires IsQuiz(kind)
    ensures var v := Values(kind, c);
            && "assessment_duration" in v
            && v["assessment_duration"] == AssessmentDuration(c.questionCount, c.secondsPerQuestion)
            && (c.expiry.Some? ==> "valid_until" in v && v["valid_until"] == c.expiry.value)
  {
    hide CommonValues, AssessmentDuration, Decimal;
  }

  /** ... an invitation's besides, ... */
  lemma InviteSays(c: Context)
    ensures var v := Values(QuizInvite, c);
            && {"question_count", "time_per_question"} <= v.Keys
            && (c.questionCount == 0 ==> v["question_count"] == "")
            && (c.questionCount > 0 ==> v["question_count"] == Decimal(c.questionCount))
            && (c.secondsPerQuestion == None ==> v["time_per_question"] == "")
            && (c.secondsPerQuestion.Some? ==> v["time_per_question"] == Decimal(c.secondsPerQuestion.value) + "s")
  {
  }

  /** ... and a reminder's: the last day, tomorrow, or a count of days. */
  lemma ReminderSays(c: Context)
    ensures var v := Values(QuizReminder, c);
            && {"days_left", "expires_phrase", "days_left_phrase"} <= v.Keys
            && (c.daysLeft <= 0 ==> v["expires_phrase"] == "today" && v["days_left_phrase"] == "last day")
            && (c.daysLeft == 1 ==> v["expires_phrase"] == "in 1 day" && v["days_left_phrase"] == "1 day left")
            && (c.daysLeft >= 0 ==> v["days_left"] == Decimal(c.daysLeft))
            && (c.daysLeft < 0 ==> v["days_left"] == "-" + Decimal(-c.daysLeft))
            && (c.daysLeft > 1 ==> v["expires_phrase"] == "in " + Decimal(c.daysLeft) + " days"
                                   && v["days_left_phrase"] == Decimal(c.daysLeft) + " days left")
  {
    hide CommonValues, QuizValues, Decimal;
  }

  /** A rejection thanks those, and only those, who finished the assessment. */
  lemma RejectionSays(c: Context)
    ensures var v := Values(Rejection, c);
            && "assessment_thanks" in v
            && (v["assessment_thanks"] == "" <==> !c.completedAssessment)
            && (c.completedAssessment ==> " We were glad you took the time to complete the assessment - "
                                          < v["assessment_thanks"])
  {
  }

  datatype Outcome = Rendered(subject: string, text: string, html: string) | Missing(name: string)

  // The fixed part of a quiz mail reads the expiry whatever the template says.
  function ActionError(kind: Kind, values: map<string, string>): Option<string> {
    if IsQuiz(kind) && "valid_until" !in values then Some("valid_until") else None
  }

  // One part of a template; a recruiter's one-off edit is literal text, braces included.
  function Part(text: string, values: map<string, string>, html: bool, literal: bool): Result {
    if literal then Text(Written(text, html)) else Substituted(text, values, html)
  }

  // The template part of render, in the order the source evaluates it.
  function Render(kind: Kind, t: Template, c: Context, literal: bool): Outcome {
    var values := Values(kind, c);
    match Part(t.subject, values, false, literal)
    case KeyError(n) => Missing(n)
    case Text(subject) =>
      match Part(t.body, values, false, literal)
      case KeyError(n) => Missing(n)
      case Text(text) =>
        match Part(t.body, values, true, literal)
        case KeyError(n) => Missing(n)
        case Text(html) =>
          match ActionError(kind, values)
          case Some(n) => Missing(n)
          case None => Rendered(subject, text, html)
  }

  /** A mail that renders holds the subject and the body it was given: as typed, escaped for the HTML, when the text is
      literal, and otherwise each with its placeholders replaced. */
  lemma RenderedSays(kind: Kind, t: Template, c: Context, literal: bool)
    requires Render(kind, t, c, literal).Rendered?
    ensures var r := Render(kind, t, c, literal);
            if literal then r == Rendered(t.subject, t.body, EscapeHtml(t.body))
            else Substituted(t.subject, Values(kind, c), false) == Text(r.subject)
                 && Substituted(t.body, Values(kind, c), false) == Text(r.text)
                 && Substituted(t.body, Values(kind, c), true) == Text(r.html)
  {
    hide Values, Substituted;
  }

  lemma PartFails(text: string, values: map<string, string>, html: bool, literal: bool)
    ensures Part(text, values, html, literal).Text? <==> literal || Names(text) <= values.Keys
  {
    hide Names, NamesIn, Fill, Scan;
    PieceNames(text);
    FailsExactlyOnMissing(Scan(text), values, html);
  }

  lemma PieceNames(text: string)
    ensures Names(text) == NamesIn(Scan(text))
  {
  }

  lemma ActionFails(kind: Kind, c: Context)
    ensures ActionError(kind, Values(kind, c)).Some? <==> IsQuiz(kind) && c.expiry == None
  {
    hide Values;
    ValuesCoverAllowed(kind, c);
  }

  /** Rendering fails exactly when the subject or the body names something without a value, or a quiz mail has no expiry. */
  lemma RenderFailsExactly(kind: Kind, t: Template, c: Context, literal: bool)
    ensures Render(kind, t, c, literal).Rendered?
            <==> (literal || (Names(t.subject) <= Values(kind, c).Keys && Names(t.body) <= Values(kind, c).Keys))
                 && !(IsQuiz(kind) && c.expiry == None)
  {
    hide Values, Part, ActionError, Names;
    var values := Values(kind, c);
    PartFails(t.subject, values, false, literal);
    PartFails(t.body, values, false, literal);
    PartFails(t.body, values, true, literal);
    ActionFails(kind, c);
  }

  /** A template that validation accepts, on subject and body joined by a newline, never hits a missing placeholder
      when the two are rendered apart, exactly unless a quiz mail comes without an expiry. */
  lemma ValidatedTemplatesRender(kind: Kind, t: Template, c: Context, literal: bool)
    requires Unknown(kind, t.subject, t.body) == {}
    ensures Render(kind, t, c, literal).Rendered? <==> !(IsQuiz(kind) && c.expiry == None)
  {
    hide Values, Allowed, Names, Render;
    JoinKeepsTokens(t.subject, t.body);
    ValuesCoverAllowed(kind, c);
    RenderFailsExactly(kind, t, c, literal);
    var joined := Names(t.subject + "\n" + t.body);
    assert joined <= (joined - Allowed(kind)) + Allowed(kind);
    assert joined - Allowed(kind) == Unknown(kind, t.subject, t.body);
  }

  // The name a substitution stumbles over is one of the text's, without a value.
  lemma {:induction false} StumblesOver(ps: seq<Piece>, values: map<string, string>, html: bool)
    ensures Fill(ps, values, html).KeyError? ==>
              Fill(ps, values, html).name in NamesIn(ps) && Fill(ps, values, html).name !in values
    decreases |ps|
  {
    if ps != [] {
      StumblesOver(ps[1..], values, html);
      assert forall p | p in ps[1..] :: p in ps;
      assert ps[0] in ps;
    }
  }

  lemma PartStumbles(text: string, values: map<string, string>, html: bool, literal: bool, name: string)
    requires literal || Names(text) <= values.Keys + {name}
    ensures Part(text, values, html, literal).KeyError? ==> Part(text, values, html, literal).name == name
  {
    StumblesOver(Scan(text), values, html);
  }

  /** The one that is left: without an expiry no quiz mail renders, whatever its template; and the name missing from an
      accepted template, or from a text kept as typed, is the expiry. */
  lemma QuizNeedsExpiry(kind: Kind, t: Template, c: Context, literal: bool)
    requires IsQuiz(kind) && c.expiry == None
    ensures !Render(kind, t, c, literal).Rendered?
    ensures literal || Unknown(kind, t.subject, t.body) == {} ==> Render(kind, t, c, literal) == Missing("valid_until")
  {
    hide Values, Allowed, Names, Part, ActionError;
    RenderFailsExactly(kind, t, c, literal);
    if literal || Unknown(kind, t.subject, t.body) == {} {
      var values, name := Values(kind, c), "valid_until";
      if !literal {
        JoinKeepsTokens(t.subject, t.body);
        ValuesCoverAllowed(kind, c);
        var joined := Names(t.subject + "\n" + t.body);
        assert joined <= (joined - Allowed(kind)) + Allowed(kind);
        assert joined - Allowed(kind) == Unknown(kind, t.subject, t.body);
      }
      PartStumbles(t.subject, values, false, literal, name);
      PartStumbles(t.body, values, false, literal, name);
      PartStumbles(t.body, values, true, literal, name);
      ActionIsExpiry(kind, values);
    }
  }

  lemma ActionIsExpiry(kind: Kind, values: map<string, string>)
    ensures ActionError(kind, values).Some? ==> ActionError(kind, values).value == "valid_until"
  {
  }

  /** And then the HTML body says what the text body says. */
  lemma RenderedBodiesAgree(kind: Kind, t: Template, c: Context, literal: bool)
    requires Render(kind, t, c, literal).Rendered?
    ensures Render(kind, t, c, literal).text == PlainText(Render(kind, t, c, literal).html)
  {
    hide Values, Substituted, PlainText, EscapeHtml;
    HtmlRefinesText(t.body, Values(kind, c));
    EscapedTextIsRead(t.body, "");
    NothingToRead();
    assert EscapeHtml(t.body) + "" == EscapeHtml(t.body) && t.body + "" == t.body;
  }

  lemma NothingToRead()
    ensures PlainText("") == ""
  {
  }
}
