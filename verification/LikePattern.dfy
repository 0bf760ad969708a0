/**
 LIKE escaping in services/applications.py and services/erasure.py, against the SQL meaning of LIKE with
 backslash as the escape character. "same" compares two characters: equality for LIKE, equality up to case for ILIKE.
 */
module LikePattern {
  import opened Basics
  import opened Text

  function EscapeLike(text: string): string {
    Replace(Replace(Replace(text, "\\", "\\\\"), "%", "\\%"), "_", "\\_")
  }

  function EscapeLikeChar(c: char): string {
    if c == '\\' || c == '%' || c == '_' then ['\\', c] else [c]
  }

  // The same escaping, character by character.
  function EscapeLikeOnce(text: string): string {
    if text == "" then "" else EscapeLikeChar(text[0]) + EscapeLikeOnce(text[1..])
  }

  // SQL: % is any run, _ is any one character, a backslash takes the next character as it is.
  predicate Like(subject: string, pattern: string, same: (char, char) -> bool)
    decreases |pattern|, |subject|
  {
    if pattern == "" then subject == ""
    else if pattern[0] == '%' then
      Like(subject, pattern[1..], same) || (subject != "" && Like(subject[1..], pattern, same))
    else if subject == "" then false
    else if pattern[0] == '_' then Like(subject[1..], pattern[1..], same)
    else if pattern[0] == '\\' then
      |pattern| > 1 && same(subject[0], pattern[1]) && Like(subject[1..], pattern[2..], same)
    else same(subject[0], pattern[0]) && Like(subject[1..], pattern[1..], same)
  }

  predicate SameAt(subject: string, text: string, same: (char, char) -> bool)
    decreases |text|
  {
    text == "" || (subject != "" && same(subject[0], text[0]) && SameAt(subject[1..], text[1..], same))
  }

  // The text occurs in the subject as a substring.
  predicate Occurs(subject: string, text: string, same: (char, char) -> bool) {
    exists i | 0 <= i <= |subject| :: SameAt(subject[i..], text, same)
  }

  lemma EscapeLikeOneChar(c: char)
    ensures EscapeLike([c]) == EscapeLikeChar(c)
  {
    ReplaceCharOne(c, '\\', "\\\\");
    if c == '\\' {
      assert "\\\\" == ['\\'] + ['\\'];
      ReplaceCharConcat(['\\'], ['\\'], '%', "\\%");
      ReplaceCharOne('\\', '%', "\\%");
      ReplaceCharConcat(['\\'], ['\\'], '_', "\\_");
      ReplaceCharOne('\\', '_', "\\_");
    } else {
      ReplaceCharOne(c, '%', "\\%");
      if c == '%' {
        assert "\\%" == ['\\'] + ['%'];
        ReplaceCharConcat(['\\'], ['%'], '_', "\\_");
        ReplaceCharOne('\\', '_', "\\_");
        ReplaceCharOne('%', '_', "\\_");
      } else {
        ReplaceCharOne(c, '_', "\\_");
      }
    }
  }

  lemma EscapeLikeConcat(a: string, b: string)
    ensures EscapeLike(a + b) == EscapeLike(a) + EscapeLike(b)
  {
    ReplaceCharConcat(a, b, '\\', "\\\\");
    ReplaceCharConcat(Replace(a, "\\", "\\\\"), Replace(b, "\\", "\\\\"), '%', "\\%");
    ReplaceCharConcat(Replace(Replace(a, "\\", "\\\\"), "%", "\\%"),
                      Replace(Replace(b, "\\", "\\\\"), "%", "\\%"), '_', "\\_");
  }

  /** The three chained replacements are one character-wise map. */
  lemma {:induction false} EscapeLikeIsOnePass(text: string)
    ensures EscapeLike(text) == EscapeLikeOnce(text)
  {
    if text != "" {
      assert text == [text[0]] + text[1..];
      EscapeLikeConcat([text[0]], text[1..]);
      EscapeLikeOneChar(text[0]);
      EscapeLikeIsOnePass(text[1..]);
    }
  }

  lemma {:induction false} PercentMatchesAll(subject: string, same: (char, char) -> bool)
    ensures Like(subject, "%", same)
  {
    assert "%"[1..] == "";
    if subject != "" { PercentMatchesAll(subject[1..], same); }
  }

  // An escaped text followed by % matches exactly the subjects that start with the text.
  lemma {:induction false} EscapedIsPrefix(subject: string, text: string, same: (char, char) -> bool)
    ensures Like(subject, EscapeLikeOnce(text) + "%", same) <==> SameAt(subject, text, same)
    decreases |text|
  {
    var pattern := EscapeLikeOnce(text) + "%";
    if text == "" {
      assert pattern == "%";
      PercentMatchesAll(subject, same);
    } else {
      var c, rest := text[0], EscapeLikeOnce(text[1..]) + "%";
      if EscapeLikeChar(c) == [c] {
        assert pattern[0] == c && pattern[1..] == rest;
      } else {
        assert pattern[0] == '\\' && pattern[1] == c && pattern[2..] == rest;
      }
      if subject != "" { EscapedIsPrefix(subject[1..], text[1..], same); }
    }
  }

  // A leading % tries every suffix.
  lemma {:induction false} LeadingPercent(subject: string, pattern: string, same: (char, char) -> bool)
    ensures Like(subject, "%" + pattern, same) <==> exists i | 0 <= i <= |subject| :: Like(subject[i..], pattern, same)
    decreases |subject|
  {
    var p := "%" + pattern;
    assert p[1..] == pattern && subject[0..] == subject;
    if subject != "" {
      LeadingPercent(subject[1..], pattern, same);
      if i :| 0 <= i <= |subject| && Like(subject[i..], pattern, same) {
        if i > 0 { assert subject[i..] == subject[1..][i - 1..]; }
      }
      if i :| 0 <= i <= |subject| - 1 && Like(subject[1..][i..], pattern, same) {
        assert subject[1..][i..] == subject[i + 1..];
      }
    }
  }

  /** For every text and subject, the pattern % + escaped text + % matches exactly when the text occurs in the
      subject: wildcards and backslashes in the text stand for themselves. */
  lemma EscapedPatternIsSubstring(subject: string, text: string, same: (char, char) -> bool)
    ensures Like(subject, "%" + EscapeLike(text) + "%", same) <==> Occurs(subject, text, same)
  {
    EscapeLikeIsOnePass(text);
    assert "%" + EscapeLike(text) + "%" == "%" + (EscapeLikeOnce(text) + "%");
    LeadingPercent(subject, EscapeLikeOnce(text) + "%", same);
    forall i | 0 <= i <= |subject|
      ensures Like(subject[i..], EscapeLikeOnce(text) + "%", same) <==> SameAt(subject[i..], text, same)
    {
      EscapedIsPrefix(subject[i..], text, same);
    }
  }

  // ---------------------------------------------------------------- the applicant search

  // The q filter of the applicant list; an empty q is no filter.
  predicate SearchKeeps(name: string, email: string, q: string, sameLetter: (char, char) -> bool) {
    q != "" ==>
      var pattern := "%" + EscapeLike(Strip(q)) + "%";
      Like(name, pattern, sameLetter) || Like(email, pattern, sameLetter)
  }

  /** The search keeps exactly the applicants whose name or email holds the trimmed query. */
  lemma SearchIsSubstring(name: string, email: string, q: string, sameLetter: (char, char) -> bool)
    ensures SearchKeeps(name, email, q, sameLetter)
            <==> Occurs(name, Strip(q), sameLetter) || Occurs(email, Strip(q), sameLetter)
  {
    EscapedPatternIsSubstring(name, Strip(q), sameLetter);
    EscapedPatternIsSubstring(email, Strip(q), sameLetter);
    if q == "" { assert SameAt(name[0..], "", sameLetter); }
  }

  // ---------------------------------------------------------------- the privacy-request scrub

  function Equal(): (char, char) -> bool { (a, b) => a == b }

  // The note of the task that a request for data or deletion leaves.
  function TaskNote(name: string, email: string, tail: string): string { name + " (" + email + ")" + tail }

  predicate NoteIsScrubbed(note: string, candidateEmail: string) {
    Like(note, "%(" + EscapeLike(candidateEmail) + ")%", Equal())
  }

  lemma {:induction false} SameAtPrefix(text: string, tail: string)
    ensures SameAt(text + tail, text, Equal())
    decreases |text|
  {
    if text != "" {
      assert (text + tail)[1..] == text[1..] + tail;
      SameAtPrefix(text[1..], tail);
    }
  }

  /** The scrub of an erasure takes a privacy task exactly when its note holds the candidate's address in
      parentheses, so always while the address is the one the request was made with. */
  lemma ScrubTakesNotesOfTheAddress(name: string, email: string, tail: string, candidateEmail: string)
    ensures NoteIsScrubbed(TaskNote(name, email, tail), candidateEmail)
            <==> Occurs(TaskNote(name, email, tail), "(" + candidateEmail + ")", Equal())
    ensures candidateEmail == email ==> NoteIsScrubbed(TaskNote(name, email, tail), candidateEmail)
  {
    var note, text := TaskNote(name, email, tail), "(" + candidateEmail + ")";
    EscapeLikeConcat("(" + candidateEmail, ")");
    EscapeLikeConcat("(", candidateEmail);
    EscapeLikeOneChar('(');
    EscapeLikeOneChar(')');
    assert "(" == ['('] && ")" == [')'];
    assert "%" + EscapeLike(text) + "%" == "%(" + EscapeLike(candidateEmail) + ")%";
    EscapedPatternIsSubstring(note, text, Equal());
    if candidateEmail == email {
      var i := |name| + 1;
      assert note[i..] == text + tail;
      SameAtPrefix(text, tail);
    }
  }

  lemma {:induction false} SameIsPrefix(s: string, text: string)
    ensures SameAt(s, text, Equal()) <==> |text| <= |s| && s[..|text|] == text
    decreases |text|
  {
    if text != "" && s != "" {
      SameIsPrefix(s[1..], text[1..]);
      assert text == [text[0]] + text[1..];
      if |text| <= |s| { assert s[..|text|] == [s[0]] + s[1..][..|text| - 1]; }
    }
  }

  // The text stands at a place of the subject.
  predicate StandsAt(subject: string, text: string, i: int) {
    0 <= i && i + |text| <= |subject| && subject[i..i + |text|] == text
  }

  lemma OccursMeans(subject: string, text: string)
    ensures Occurs(subject, text, Equal()) <==> exists i :: StandsAt(subject, text, i)
  {
    hide SameAt;
    if i :| 0 <= i <= |subject| && SameAt(subject[i..], text, Equal()) {
      SameIsPrefix(subject[i..], text);
      assert subject[i..][..|text|] == subject[i..i + |text|];
      assert StandsAt(subject, text, i);
    }
    if i :| StandsAt(subject, text, i) {
      assert subject[i..][..|text|] == subject[i..i + |text|];
      SameIsPrefix(subject[i..], text);
    }
  }

  // No parenthesis of its own.
  predicate IsBare(s: string) { '(' !in s && ')' !in s }

  // An address in parentheses cannot run into the next opening one.
  lemma OccursInParts(a: string, b: string, c: string)
    requires IsBare(c) && b != "" && b[0] == '('
    ensures var text := "(" + c + ")";
            Occurs(a + b, text, Equal()) <==> Occurs(a, text, Equal()) || Occurs(b, text, Equal())
  {
    hide Occurs;
    var s, text := a + b, "(" + c + ")";
    OccursMeans(s, text);
    OccursMeans(a, text);
    OccursMeans(b, text);
    if i :| StandsAt(s, text, i) {
      forall k | 0 < k < |text| ensures text[k] != '(' { assert k <= |c| ==> text[k] == c[k - 1]; }
      assert forall k | 0 <= k < |text| :: s[i + k] == s[i..i + |text|][k] == text[k];
      assert s[|a|] == '(';
      assert i + |text| <= |a| || i >= |a|;
      if i >= |a| {
        assert b[i - |a|..i - |a| + |text|] == s[i..i + |text|];
        assert StandsAt(b, text, i - |a|);
      } else {
        assert a[i..i + |text|] == s[i..i + |text|];
        assert StandsAt(a, text, i);
      }
    }
    if i :| StandsAt(a, text, i) {
      assert s[i..i + |text|] == a[i..i + |text|];
      assert StandsAt(s, text, i);
    }
    if i :| StandsAt(b, text, i) {
      assert s[|a| + i..|a| + i + |text|] == b[i..i + |text|];
      assert StandsAt(s, text, |a| + i);
    }
  }

  // Nor does it end in a text with no closing one.
  lemma OccursInFront(a: string, tail: string, c: string)
    requires ')' !in tail
    ensures var text := "(" + c + ")"; Occurs(a + tail, text, Equal()) <==> Occurs(a, text, Equal())
  {
    hide Occurs;
    var s, text := a + tail, "(" + c + ")";
    OccursMeans(s, text);
    OccursMeans(a, text);
    if i :| StandsAt(s, text, i) {
      var last := |text| - 1;
      assert s[i + last] == s[i..i + |text|][last] == ')';
      assert forall k | 0 <= k < |tail| :: s[|a| + k] == tail[k];
      assert a[i..i + |text|] == s[i..i + |text|];
      assert StandsAt(a, text, i);
    }
    if i :| StandsAt(a, text, i) {
      assert s[i..i + |text|] == a[i..i + |text|];
      assert StandsAt(s, text, i);
    }
  }

  lemma OccursAlone(email: string, c: string)
    requires IsBare(email) && IsBare(c)
    ensures Occurs("(" + email + ")", "(" + c + ")", Equal()) <==> c == email
  {
    hide Occurs;
    var s, text := "(" + email + ")", "(" + c + ")";
    OccursMeans(s, text);
    if c == email {
      assert StandsAt(s, text, 0);
    }
    if i :| StandsAt(s, text, i) {
      assert s[i] == s[i..i + |text|][0] == '(';
      assert forall k | 0 < k < |s| :: s[k] == if k <= |email| then email[k - 1] else ')';
      assert i == 0;
      assert (email + ")" + "")[..|c| + 1] == s[..|text|][1..] == text[1..] == c + ")";
      UpToTheParenthesis(c, email, "");
    }
  }

  // Two texts that both end at their first closing parenthesis.
  lemma UpToTheParenthesis(a: string, b: string, tail: string)
    requires ')' !in a && ')' !in b
    requires |a| + 1 <= |b + ")" + tail| && (b + ")" + tail)[..|a| + 1] == a + ")"
    ensures a == b
  {
    var s := b + ")" + tail;
    assert s[|a|] == (a + ")")[|a|] == ')';
    assert s[|b|] == ')';
    assert forall k | 0 <= k < |a| :: s[k] == s[..|a| + 1][k] == (a + ")")[k] == a[k];
    assert s[..|a|] == a by { assert s[..|a| + 1][..|a|] == (a + ")")[..|a|]; }
  }

  // The note of a request: who asked, by what address, about which job.
  const ASKED := " asked via their status page "
  const CLOCK := ". GDPR clock: respond within one month."

  function RequestNote(name: string, email: string, title: string): string {
    name + " (" + email + ")" + ASKED + "(" + title + ")" + CLOCK
  }

  lemma AskedIsBare()
    ensures ')' !in ASKED
  {
  }

  lemma ClockIsBare()
    ensures ')' !in CLOCK
  {
  }

  lemma NoteInParts(name: string, email: string, title: string, asked: string, clock: string)
    ensures name + " (" + email + ")" + asked + "(" + title + ")" + clock
            == (name + " ") + (("(" + email + ")" + asked) + (("(" + title + ")") + clock))
    ensures name + " (" + email + ")" + asked + "(" + title + ")" + clock
            == TaskNote(name, email, asked + "(" + title + ")" + clock)
  {
    var end := "(" + title + ")" + clock;
    var front := name + " (" + email + ")";
    assert front + asked + "(" + title + ")" + clock == front + (asked + end);
    assert asked + "(" + title + ")" + clock == asked + end;
    assert front == (name + " ") + ("(" + email + ")");
    assert front + (asked + end) == (name + " ") + (("(" + email + ")" + asked) + end);
  }

  /** A request's task is scrubbed exactly when the note has the present address in parentheses: where the request put
      its address, so if that is still the same, or else inside the name or the job title. For every name and title,
      and all addresses, which hold no parentheses. */
  lemma ScrubTakesExactly(name: string, email: string, title: string, candidateEmail: string)
    requires IsBare(email) && IsBare(candidateEmail)
    ensures var text := "(" + candidateEmail + ")";
            NoteIsScrubbed(RequestNote(name, email, title), candidateEmail)
            <==> candidateEmail == email || Occurs(name, text, Equal()) || Occurs("(" + title + ")", text, Equal())
  {
    hide Like, EscapeLike, Occurs, IsBare, ASKED, CLOCK;
    var c := candidateEmail;
    AskedIsBare();
    ClockIsBare();
    NoteInParts(name, email, title, ASKED, CLOCK);
    ScrubTakesNotesOfTheAddress(name, email, ASKED + "(" + title + ")" + CLOCK, c);
    var front, middle, end := name + " ", "(" + email + ")" + ASKED, "(" + title + ")" + CLOCK;
    OccursInParts(front, middle + end, c);
    OccursInParts(middle, end, c);
    OccursInFront(name, " ", c);
    OccursInFront("(" + email + ")", ASKED, c);
    OccursInFront("(" + title + ")", CLOCK, c);
    OccursAlone(email, c);
  }

  lemma WhatOccursIsInside(subject: string, text: string, sign: char)
    requires Occurs(subject, text, Equal()) && sign in text
    ensures sign in subject
  {
    hide Occurs;
    OccursMeans(subject, text);
    var i :| StandsAt(subject, text, i);
    var k :| 0 <= k < |text| && text[k] == sign;
    assert subject[i..i + |text|][k] == subject[i + k];
  }

  /** So where neither the name nor the job title holds an at sign, the scrub takes the task exactly if the person
      still has the address of the request: an address that changed since keeps the task, and the name in it. */
  lemma ScrubNeedsTheSameAddress(name: string, email: string, title: string, candidateEmail: string)
    requires IsBare(email) && IsBare(candidateEmail) && '@' in candidateEmail
    requires '@' !in name && '@' !in title
    ensures NoteIsScrubbed(RequestNote(name, email, title), candidateEmail) <==> candidateEmail == email
  {
    hide NoteIsScrubbed, RequestNote, Occurs;
    ScrubTakesExactly(name, email, title, candidateEmail);
    var text := "(" + candidateEmail + ")";
    assert '@' in text;
    if Occurs(name, text, Equal()) { WhatOccursIsInside(name, text, '@'); }
    if Occurs("(" + title + ")", text, Equal()) { WhatOccursIsInside("(" + title + ")", text, '@'); }
  }

  // ---------------------------------------------------------------- the whole condition of the scrub

  const PRIVACY := "Privacy: "
  const REQUEST := "request - "

  // A task on the team's list; no creator marks one the system wrote.
  datatype Task = Task(company: nat, createdBy: Option<nat>, title: string, note: string)

  // The delete of scrub_privacy_request_tasks.
  predicate IsScrubbed(task: Task, company: nat, candidateEmail: string) {
    && task.company == company && task.createdBy == None
    && Like(task.title, PRIVACY + ("%" + (REQUEST + "%")), Equal())
    && NoteIsScrubbed(task.note, candidateEmail)
  }

  // The task a request leaves; asked is "data" or "deletion".
  function RequestTask(company: nat, asked: string, name: string, email: string, title: string): Task {
    Task(company, None, PRIVACY + (asked + " " + (REQUEST + name)), RequestNote(name, email, title))
  }

  predicate IsPlain(text: string) { forall c | c in text :: c != '%' && c != '_' && c != '\\' }

  // The same plain text in front of both changes nothing.
  lemma {:induction false} PlainFront(a: string, t: string, p: string)
    requires IsPlain(a)
    ensures Like(a + t, a + p, Equal()) <==> Like(t, p, Equal())
    decreases |a|
  {
    if a == "" {
      assert a + t == t && a + p == p;
    } else {
      assert a[0] in a && forall c | c in a[1..] :: c in a;
      assert (a + t)[1..] == a[1..] + t && (a + p)[1..] == a[1..] + p;
      PlainFront(a[1..], t, p);
    }
  }

  lemma TitleMatches(asked: string, name: string)
    ensures Like(PRIVACY + (asked + " " + (REQUEST + name)), PRIVACY + ("%" + (REQUEST + "%")), Equal())
  {
    FrontsArePlain();
    hide Like, PRIVACY, REQUEST;
    PercentMatchesAll(name, Equal());
    PlainFront(REQUEST, name, "%");
    var t := asked + " " + (REQUEST + name);
    LeadingPercent(t, REQUEST + "%", Equal());
    assert t[|asked + " "|..] == REQUEST + name;
    PlainFront(PRIVACY, t, "%" + (REQUEST + "%"));
  }

  lemma FrontsArePlain()
    ensures IsPlain(PRIVACY) && IsPlain(REQUEST)
  {
  }

  /** The scrub of one company takes the task of a request, of either kind, exactly when the request was made to that
      company and the note has the present address where ScrubTakesExactly says. */
  lemma RequestIsScrubbedExactly(company: nat, asked: string, name: string, email: string, title: string,
                                 scrubbed: nat, candidateEmail: string)
    requires IsBare(email) && IsBare(candidateEmail)
    ensures var text := "(" + candidateEmail + ")";
            IsScrubbed(RequestTask(company, asked, name, email, title), scrubbed, candidateEmail)
            <==> company == scrubbed
                 && (candidateEmail == email || Occurs(name, text, Equal()) || Occurs("(" + title + ")", text, Equal()))
  {
    hide Like, Occurs, NoteIsScrubbed, RequestNote, PRIVACY, REQUEST;
    TitleMatches(asked, name);
    ScrubTakesExactly(name, email, title, candidateEmail);
  }
}
