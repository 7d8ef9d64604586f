/**
 * What each of the six PHI patterns matches, stated by hand and proved equal
 * to the backtracking matcher, and what follows for `redact_phi`.
 */
module PhiPatternProps {
  import opened Wrappers
  import opened PyText
  import opened Regex
  import opened PhiRedaction

  predicate DigitsAt(s: string, i: nat, n: nat)
  {
    i + n <= |s| && forall j :: i <= j < i + n ==> IsDigit(s[j])
  }

  /** No word character right before `i` (where a match starting with a word character may begin). */
  predicate WordStart(s: string, i: nat)
  {
    i == 0 || (i <= |s| && !IsWordChar(s[i - 1]))
  }

  /** No word character at `e` (where a match ending in a word character may end). */
  predicate WordEnd(s: string, e: nat)
  {
    e >= |s| || !IsWordChar(s[e])
  }

  lemma {:induction false} DigitRun(s: string, i: nat, n: nat)
    ensures RunAt(Digit, s, i, n) == DigitsAt(s, i, n)
  {
    assert forall c :: MatchesChar(Digit, c) == IsDigit(c) by {
      forall c ensures MatchesChar(Digit, c) == IsDigit(c) { IgnoreCaseNoOp(Digit, c); }
    }
  }

  lemma {:induction false} LitRun(c: char, s: string, i: nat)
    requires !IsLetter(c)
    ensures RunAt(Exactly(c), s, i, 1) == (i < |s| && s[i] == c)
  {
    if i < |s| { IgnoreCaseNoOp(Exactly(c), s[i]); }
  }

  lemma {:induction false} DigitsStep(n: nat, q: Pattern, s: string, j: nat)
    requires j <= |s|
    ensures FirstEnd([Digits(n)] + q, s, j) ==
      if DigitsAt(s, j, n) then FirstEnd(q, s, j + n) else None
  {
    FixedStep([Digits(n)] + q, s, j);
    DigitRun(s, j, n);
    assert ([Digits(n)] + q)[1..] == q;
  }

  lemma {:induction false} SepStep(sep: char, q: Pattern, s: string, j: nat)
    requires j <= |s| && !IsLetter(sep)
    ensures FirstEnd([Lit(sep)] + q, s, j) ==
      if j < |s| && s[j] == sep then FirstEnd(q, s, j + 1) else None
  {
    FixedStep([Lit(sep)] + q, s, j);
    LitRun(sep, s, j);
    assert ([Lit(sep)] + q)[1..] == q;
  }

  /** A trailing `\d{c}\b`. */
  lemma {:induction false} DigitsEndStep(c: nat, s: string, j: nat)
    requires j <= |s| && c >= 1
    ensures FirstEnd([Digits(c), WordBoundary], s, j) ==
      if DigitsAt(s, j, c) && WordEnd(s, j + c) then Some(j + c) else None
  {
    DigitsStep(c, [WordBoundary], s, j);
    if DigitsAt(s, j, c) { assert IsDigit(s[j + c - 1]); }
  }

  /** A leading `\b` before a digit. */
  lemma {:induction false} DigitStartStep(q: Pattern, s: string, i: nat)
    requires i <= |s| && q != [] && q[0].Repeat? && q[0] == Digits(q[0].lo) && q[0].lo >= 1
    ensures FirstEnd([WordBoundary] + q, s, i) ==
      if WordStart(s, i) then FirstEnd(q, s, i) else None
  {
    assert ([WordBoundary] + q)[1..] == q;
    if i < |s| && IsDigit(s[i]) {
    } else {
      DigitRun(s, i, q[0].lo);
      FixedStep(q, s, i);
    }
  }

  /** `sep`, `b` digits, `sep`, `c` digits from `j`, then no word character. */
  predicate GroupedAt'(s: string, j: nat, sep: char, b: nat, c: nat)
  {
    && j < |s| && s[j] == sep && DigitsAt(s, j + 1, b)
    && j + 1 + b < |s| && s[j + 1 + b] == sep && DigitsAt(s, j + 2 + b, c)
    && WordEnd(s, j + 2 + b + c)
  }

  /** Three digit groups joined by `sep`, with no word character on either side;
      the match ends `a + b + c + 2` characters later. */
  predicate GroupedAt(s: string, i: nat, a: nat, sep: char, b: nat, c: nat)
  {
    WordStart(s, i) && DigitsAt(s, i, a) && GroupedAt'(s, i + a, sep, b, c)
  }

  /** `sep \d{n}` followed by any `tail`. */
  lemma {:induction false} SepDigitsStep(sep: char, n: nat, tail: Pattern, s: string, j: nat)
    requires j <= |s| && !IsLetter(sep)
    ensures FirstEnd([Lit(sep)] + ([Digits(n)] + tail), s, j) ==
      if j < |s| && s[j] == sep && DigitsAt(s, j + 1, n) then FirstEnd(tail, s, j + 1 + n) else None
  {
    SepStep(sep, [Digits(n)] + tail, s, j);
    if j < |s| && s[j] == sep {
      DigitsStep(n, tail, s, j + 1);
    }
  }

  /** A trailing `\b` right after a digit. */
  lemma {:induction false} EndAfterDigit(s: string, e: nat)
    requires 0 < e <= |s| && IsDigit(s[e - 1])
    ensures FirstEnd([WordBoundary], s, e) == if WordEnd(s, e) then Some(e) else None
  {
    assert [WordBoundary][1..] == [];
  }

  /** `sep \d{c}\b` from `j`. */
  lemma {:induction false} LastGroup(sep: char, c: nat, s: string, j: nat)
    requires j <= |s| && c >= 1 && !IsLetter(sep)
    ensures FirstEnd([Lit(sep)] + ([Digits(c)] + [WordBoundary]), s, j) ==
      if j < |s| && s[j] == sep && DigitsAt(s, j + 1, c) && WordEnd(s, j + 1 + c)
      then Some(j + 1 + c) else None
  {
    SepDigitsStep(sep, c, [WordBoundary], s, j);
    if j < |s| && s[j] == sep && DigitsAt(s, j + 1, c) {
      EndAfterDigit(s, j + 1 + c);
    }
  }

  /** `sep \d{b} sep \d{c}\b` from `j`. */
  lemma {:induction false} MiddleGroups(sep: char, b: nat, c: nat, s: string, j: nat)
    requires j <= |s| && c >= 1 && !IsLetter(sep)
    ensures FirstEnd([Lit(sep)] + ([Digits(b)] + ([Lit(sep)] + ([Digits(c)] + [WordBoundary]))), s, j) ==
      if && j < |s| && s[j] == sep && DigitsAt(s, j + 1, b)
         && j + 1 + b < |s| && s[j + 1 + b] == sep && DigitsAt(s, j + 2 + b, c)
         && WordEnd(s, j + 2 + b + c)
      then Some(j + 2 + b + c) else None
  {
    SepDigitsStep(sep, b, [Lit(sep)] + ([Digits(c)] + [WordBoundary]), s, j);
    if j < |s| && s[j] == sep && DigitsAt(s, j + 1, b) {
      LastGroup(sep, c, s, j + 1 + b);
    }
  }

  /** `\d{a} sep \d{b} sep \d{c}\b` from `i`. */
  lemma {:induction false} AllGroups(a: nat, sep: char, b: nat, c: nat, s: string, i: nat)
    requires i <= |s| && c >= 1 && !IsLetter(sep)
    ensures FirstEnd([Digits(a)] + ([Lit(sep)] + ([Digits(b)] + ([Lit(sep)] + ([Digits(c)] + [WordBoundary])))), s, i) ==
      if DigitsAt(s, i, a) && GroupedAt'(s, i + a, sep, b, c)
      then Some(i + a + b + c + 2) else None
  {
    DigitsStep(a, [Lit(sep)] + ([Digits(b)] + ([Lit(sep)] + ([Digits(c)] + [WordBoundary]))), s, i);
    if DigitsAt(s, i, a) {
      MiddleGroups(sep, b, c, s, i + a);
    }
  }

  lemma {:induction false} GroupedMatches(a: nat, sep: char, b: nat, c: nat, s: string, i: nat)
    requires i <= |s| && a >= 1 && c >= 1 && !IsLetter(sep)
    ensures FirstEnd(GroupedDigits(a, sep, b, c), s, i) ==
      if GroupedAt(s, i, a, sep, b, c) then Some(i + a + b + c + 2) else None
  {
    var t1 := [Digits(a)] + ([Lit(sep)] + ([Digits(b)] + ([Lit(sep)] + ([Digits(c)] + [WordBoundary]))));
    assert GroupedDigits(a, sep, b, c) == [WordBoundary] + t1;
    DigitStartStep(t1, s, i);
    AllGroups(a, sep, b, c, s, i);
  }

  lemma {:induction false} SsnDashMatches(s: string, i: nat)
    requires i <= |s|
    ensures FirstEnd(SsnDash, s, i) == if GroupedAt(s, i, 3, '-', 2, 4) then Some(i + 11) else None
  {
    GroupedMatches(3, '-', 2, 4, s, i);
  }

  lemma {:induction false} SsnDotMatches(s: string, i: nat)
    requires i <= |s|
    ensures FirstEnd(SsnDot, s, i) == if GroupedAt(s, i, 3, '.', 2, 4) then Some(i + 11) else None
  {
    GroupedMatches(3, '.', 2, 4, s, i);
  }

  lemma {:induction false} PhoneDashMatches(s: string, i: nat)
    requires i <= |s|
    ensures FirstEnd(PhoneDash, s, i) == if GroupedAt(s, i, 3, '-', 3, 4) then Some(i + 12) else None
  {
    GroupedMatches(3, '-', 3, 4, s, i);
  }

  lemma {:induction false} TenDigitsMatches(s: string, i: nat)
    requires i <= |s|
    ensures FirstEnd(TenDigits, s, i) ==
      if WordStart(s, i) && DigitsAt(s, i, 10) && WordEnd(s, i + 10) then Some(i + 10) else None
  {
    assert TenDigits == [WordBoundary] + [Digits(10), WordBoundary];
    DigitStartStep([Digits(10), WordBoundary], s, i);
    DigitsEndStep(10, s, i);
  }

  // ---------------------------------------------------------------------
  // The e-mail pattern

  /** Every character of `s[a..b]` belongs to `cl`. */
  predicate ClassRun(cl: CharClass, s: string, a: nat, b: nat)
  {
    a <= b <= |s| && forall j :: a <= j < b ==> InClass(cl, s[j])
  }

  lemma {:induction false} RunAtClass(cl: CharClass, s: string, a: nat, b: nat)
    requires CaseClosed(cl) && a <= b
    ensures RunAt(cl, s, a, b - a) == ClassRun(cl, s, a, b)
  {
    forall c ensures MatchesChar(cl, c) == InClass(cl, c) { IgnoreCaseNoOp(cl, c); }
  }

  /** An address at `i` ending at `e`: a local part `s[i..at]`, `@`, a domain
      `s[at+1..dot]`, `.`, and a top-level part `s[dot+1..e]` of two or more
      letters or `|`, with a word boundary at both ends. */
  predicate EmailShape(s: string, i: nat, at: nat, dot: nat, e: nat)
  {
    && i < at && at + 1 < dot && dot + 3 <= e <= |s|
    && ClassRun(EmailLocal, s, i, at) && s[at] == '@'
    && ClassRun(EmailDomain, s, at + 1, dot) && s[dot] == '.'
    && ClassRun(TopLevel, s, dot + 1, e)
    && AtBoundary(s, i) && AtBoundary(s, e)
  }

  /** The local part of any address match is the longest run of local-part
      characters from `i`: `@` is not one of them. */
  lemma {:induction false} LocalPartMaximal(s: string, i: nat, at: nat, dot: nat, e: nat)
    requires EmailShape(s, i, at, dot, e)
    ensures at == RunEnd(EmailLocal, s, i, None)
  {
    RunAtClass(EmailLocal, s, i, at);
    RunReach(EmailLocal, s, i, at - i, None);
    IgnoreCaseNoOp(EmailLocal, s[at]);
  }

  // Steps of the declarative reading, one atom at a time.

  lemma {:induction false} SpansBoundaryStep(p: Pattern, s: string, i: nat, e: nat)
    requires p != [] && p[0].WordBoundary?
    ensures Spans(p, s, i, e) == (i <= e <= |s| && AtBoundary(s, i) && Spans(p[1..], s, i, e))
  {
  }

  lemma {:induction false} SpansLitStep(p: Pattern, c: char, s: string, i: nat, e: nat)
    requires p != [] && p[0] == Lit(c) && !IsLetter(c)
    ensures Spans(p, s, i, e) == (i < |s| && s[i] == c && Spans(p[1..], s, i + 1, e))
  {
    if i < |s| { LitRun(c, s, i); }
    if i < |s| && s[i] == c && Spans(p[1..], s, i + 1, e) {
      assert RunAt(Exactly(c), s, i, 1);
    }
  }

  lemma {:induction false} SpansRunElim(p: Pattern, s: string, i: nat, e: nat) returns (j: nat)
    requires p != [] && p[0].Repeat? && p[0].hi.None? && CaseClosed(p[0].cl)
    requires Spans(p, s, i, e)
    ensures i + p[0].lo <= j <= e && ClassRun(p[0].cl, s, i, j) && Spans(p[1..], s, j, e)
  {
    j :| i + p[0].lo <= j <= e && RunAt(p[0].cl, s, i, j - i) && Spans(p[1..], s, j, e);
    RunAtClass(p[0].cl, s, i, j);
  }

  lemma {:induction false} SpansRunIntro(p: Pattern, s: string, i: nat, j: nat, e: nat)
    requires p != [] && p[0].Repeat? && p[0].hi.None? && CaseClosed(p[0].cl)
    requires i + p[0].lo <= j <= e && ClassRun(p[0].cl, s, i, j) && Spans(p[1..], s, j, e)
    ensures Spans(p, s, i, e)
  {
    RunAtClass(p[0].cl, s, i, j);
  }

  /** The e-mail pattern, one suffix at a time: up to the `@`, then after it. */
  lemma EmailHead()
    ensures Email[0] == WordBoundary
    ensures Email[1..][0] == Repeat(EmailLocal, 1, None) && Email[1..][1] == Lit('@')
    ensures Email[1..][2..] == Email[3..]
  {
  }

  lemma EmailTail()
    ensures Email[3..][0] == Repeat(EmailDomain, 1, None) && Email[3..][1] == Lit('.')
    ensures Email[3..][2..] == Email[5..]
    ensures Email[5..][0] == Repeat(TopLevel, 2, None) && Email[5..][1..] == Email[6..]
    ensures Email[6..][0] == WordBoundary && Email[6..][1..] == []
  {
  }

  /** A run of a class followed by a literal character, read declaratively. */
  lemma {:induction false} RunThenLit(p: Pattern, cl: CharClass, c: char, s: string, i: nat, e: nat)
    returns (j: nat)
    requires |p| >= 2 && p[0] == Repeat(cl, 1, None) && p[1] == Lit(c)
    requires CaseClosed(cl) && !IsLetter(c) && Spans(p, s, i, e)
    ensures i < j < e && ClassRun(cl, s, i, j) && s[j] == c && Spans(p[2..], s, j + 1, e)
  {
    assert p[1..][0] == Lit(c) && p[1..][1..] == p[2..];
    j := SpansRunElim(p, s, i, e);
    SpansLitStep(p[1..], c, s, j, e);
  }

  lemma {:induction false} RunThenLitIntro(p: Pattern, cl: CharClass, c: char, s: string, i: nat, j: nat, e: nat)
    requires |p| >= 2 && p[0] == Repeat(cl, 1, None) && p[1] == Lit(c)
    requires CaseClosed(cl) && !IsLetter(c)
    requires i < j < e <= |s| && ClassRun(cl, s, i, j) && s[j] == c && Spans(p[2..], s, j + 1, e)
    ensures Spans(p, s, i, e)
  {
    assert p[1..][0] == Lit(c) && p[1..][1..] == p[2..];
    SpansLitStep(p[1..], c, s, j, e);
    SpansRunIntro(p, s, i, j, e);
  }

  /** The part of `EmailShape` after the `@`, from `a` to `e`. */
  predicate DomainAt(s: string, a: nat, dot: nat, e: nat)
  {
    a < dot && dot + 3 <= e <= |s| && ClassRun(EmailDomain, s, a, dot) && s[dot] == '.'
    && ClassRun(TopLevel, s, dot + 1, e) && AtBoundary(s, e)
  }

  lemma {:induction false} DomainSpansShape(s: string, a: nat, e: nat) returns (dot: nat)
    requires Spans(Email[3..], s, a, e)
    ensures DomainAt(s, a, dot, e)
  {
    EmailTail();
    dot := RunThenLit(Email[3..], EmailDomain, '.', s, a, e);
    var t := SpansRunElim(Email[5..], s, dot + 1, e);
    SpansBoundaryStep(Email[6..], s, t, e);
  }

  /** The declarative reading of the e-mail pattern only describes addresses. */
  lemma {:induction false} EmailSpansShape(s: string, i: nat, e: nat) returns (at: nat, dot: nat)
    requires Spans(Email, s, i, e)
    ensures EmailShape(s, i, at, dot, e)
  {
    at := LocalSpansShape(s, i, e);
    dot := DomainSpansShape(s, at + 1, e);
  }

  lemma {:induction false} LocalSpansShape(s: string, i: nat, e: nat) returns (at: nat)
    requires Spans(Email, s, i, e)
    ensures i < at < e && AtBoundary(s, i) && ClassRun(EmailLocal, s, i, at) && s[at] == '@'
    ensures Spans(Email[3..], s, at + 1, e)
  {
    EmailHead();
    SpansBoundaryStep(Email, s, i, e);
    at := RunThenLit(Email[1..], EmailLocal, '@', s, i, e);
  }

  /** Every address is described by the e-mail pattern. */
  lemma {:induction false} ShapeEmailSpans(s: string, i: nat, at: nat, dot: nat, e: nat)
    requires EmailShape(s, i, at, dot, e)
    ensures Spans(Email, s, i, e)
  {
    EmailTail();
    SpansBoundaryStep(Email[6..], s, e, e);
    SpansRunIntro(Email[5..], s, dot + 1, e, e);
    RunThenLitIntro(Email[3..], EmailDomain, '.', s, at + 1, dot, e);
    EmailHead();
    RunThenLitIntro(Email[1..], EmailLocal, '@', s, i, at, e);
    SpansBoundaryStep(Email, s, i, e);
  }

  /**
   * The e-mail pattern matches at `i` exactly when an address starts there, and a
   * reported match is the address that greedy backtracking prefers: its local part
   * is the longest run of local-part characters from `i`, its `.` is the last one
   * after which an address can still end, and its end is the furthest such end
   * after that `.`.
   */
  lemma {:induction false} EmailMatches(s: string, i: nat)
    requires i <= |s|
    ensures FirstEnd(Email, s, i).Some? <==> exists at, dot, e :: EmailShape(s, i, at, dot, e)
    ensures FirstEnd(Email, s, i).Some? ==>
      exists dot :: EmailShape(s, i, RunEnd(EmailLocal, s, i, None), dot, FirstEnd(Email, s, i).value)
        && forall at': nat, dot': nat, e': nat :: EmailShape(s, i, at', dot', e') ==>
             at' == RunEnd(EmailLocal, s, i, None)
             && (dot' < dot || (dot' == dot && e' <= FirstEnd(Email, s, i).value))
  {
    if FirstEnd(Email, s, i).Some? {
      var dot := EmailLongest(s, i);
    }
    if exists at, dot, e :: EmailShape(s, i, at, dot, e) {
      var at, dot, e :| EmailShape(s, i, at, dot, e);
      ShapeEmailSpans(s, i, at, dot, e);
      FirstEndComplete(Email, s, i, e);
    }
  }

  /** The `.` that backtracking settles on for a reported address, with the
      reported end: lexicographically the largest of all addresses at `i`. */
  lemma {:induction false} EmailLongest(s: string, i: nat) returns (dot: nat)
    requires i <= |s| && FirstEnd(Email, s, i).Some?
    ensures EmailShape(s, i, RunEnd(EmailLocal, s, i, None), dot, FirstEnd(Email, s, i).value)
    ensures forall at': nat, dot': nat, e': nat :: EmailShape(s, i, at', dot', e') ==>
      at' == RunEnd(EmailLocal, s, i, None)
      && (dot' < dot || (dot' == dot && e' <= FirstEnd(Email, s, i).value))
  {
    var at, a, t;
    at, a, dot, t := EmailWalk(s, i);
    ShapeMaximal(s, i, at, a, dot, t);
  }

  /** Backtracking through the whole e-mail pattern: the local part, its `@`, and
      the lexicographically largest domain part after it. */
  lemma {:induction false} EmailWalk(s: string, i: nat) returns (at: nat, a: nat, dot: nat, t: nat)
    requires i <= |s| && FirstEnd(Email, s, i).Some?
    ensures i < at < |s| && AtBoundary(s, i) && ClassRun(EmailLocal, s, i, at) && s[at] == '@'
    ensures a == at + 1 && DomainAt(s, a, dot, t) && FirstEnd(Email, s, i) == Some(t)
    ensures forall d: nat, f: nat :: DomainAt(s, a, d, f) ==> d < dot || (d == dot && f <= t)
  {
    at, a := LocalWalk(s, i);
    dot, t := DomainWalk(s, a);
  }

  /** An address whose domain part is the lexicographically largest one after the
      longest local part is the lexicographically largest address. */
  lemma {:induction false} ShapeMaximal(s: string, i: nat, at: nat, a: nat, dot: nat, e: nat)
    requires i < at < |s| && AtBoundary(s, i) && ClassRun(EmailLocal, s, i, at) && s[at] == '@'
    requires a == at + 1 && DomainAt(s, a, dot, e)
    requires forall d: nat, f: nat :: DomainAt(s, a, d, f) ==> d < dot || (d == dot && f <= e)
    ensures EmailShape(s, i, at, dot, e) && at == RunEnd(EmailLocal, s, i, None)
    ensures forall at': nat, dot': nat, e': nat :: EmailShape(s, i, at', dot', e') ==>
      at' == at && (dot' < dot || (dot' == dot && e' <= e))
  {
    LocalPartMaximal(s, i, at, dot, e);
    forall at': nat, dot': nat, e': nat | EmailShape(s, i, at', dot', e')
      ensures at' == at && (dot' < dot || (dot' == dot && e' <= e))
    {
      LocalPartMaximal(s, i, at', dot', e');
      assert DomainAt(s, a, dot', e');
    }
  }

  /** Backtracking through `\b[A-Za-z0-9._%+-]+@`: the run stops at an `@`, and
      the domain part is matched right after it. */
  lemma {:induction false} LocalWalk(s: string, i: nat) returns (at: nat, a: nat)
    requires i <= |s| && FirstEnd(Email, s, i).Some?
    ensures i < at < |s| && AtBoundary(s, i) && ClassRun(EmailLocal, s, i, at) && s[at] == '@'
    ensures a == at + 1 && FirstEnd(Email[3..], s, a) == FirstEnd(Email, s, i)
  {
    EmailHead();
    assert AtBoundary(s, i) && FirstEnd(Email[1..], s, i) == FirstEnd(Email, s, i);
    at, a := RunThenLitFirst(Email[1..], EmailLocal, '@', s, i);
  }

  /** Backtracking through the domain part from `a`: the reported `.` and end are
      lexicographically the largest of all that the domain part allows. */
  lemma {:induction false} DomainWalk(s: string, a: nat) returns (dot: nat, t: nat)
    requires a <= |s| && FirstEnd(Email[3..], s, a).Some?
    ensures DomainAt(s, a, dot, t) && FirstEnd(Email[3..], s, a) == Some(t)
    ensures forall d: nat, f: nat :: DomainAt(s, a, d, f) ==> d < dot || (d == dot && f <= t)
  {
    EmailTail();
    var b;
    dot, b := RunThenLitFirst(Email[3..], EmailDomain, '.', s, a);
    t := TopLevelWalk(s, b);
    forall d: nat, f: nat | DomainAt(s, a, d, f) ensures d < dot || (d == dot && f <= t) {
      SpansBoundaryStep(Email[6..], s, f, f);
      SpansRunIntro(Email[5..], s, d + 1, f, f);
      assert Email[3..][1..][0] == Lit('.') && Email[3..][1..][1..] == Email[5..];
      SpansLitStep(Email[3..][1..], '.', s, d, f);
    }
  }

  /** Backtracking through a run of `cl` followed by the character `c`: the run
      stops at the last `c` after which the rest of the pattern can match. */
  lemma {:induction false} RunThenLitFirst(p: Pattern, cl: CharClass, c: char, s: string, i: nat)
    returns (j: nat, k: nat)
    requires i <= |s| && |p| >= 2 && p[0] == Repeat(cl, 1, None) && p[1] == Lit(c)
    requires CaseClosed(cl) && !IsLetter(c) && FirstEnd(p, s, i).Some?
    ensures i < j < |s| && ClassRun(cl, s, i, j) && s[j] == c
    ensures k == j + 1 && FirstEnd(p[2..], s, k) == FirstEnd(p, s, i)
    ensures forall d: nat, e: nat :: i < d && ClassRun(cl, s, i, d) && Spans(p[1..], s, d, e) ==> d <= j
  {
    assert p[1..][0] == Lit(c) && p[1..][1..] == p[2..];
    j := RepeatPick(p, s, i);
    FixedStep(p[1..], s, j);
    LitRun(c, s, j);
    RunAtClass(cl, s, i, j);
    k := j + 1;
    forall d: nat, e: nat | i < d && ClassRun(cl, s, i, d) && Spans(p[1..], s, d, e) ensures d <= j {
      RunAtClass(cl, s, i, d);
    }
  }

  /** Backtracking through `[A-Z|a-z]{2,}\b` from `b`: the reported end is the
      furthest one the run allows at which a word ends. */
  lemma {:induction false} TopLevelWalk(s: string, b: nat) returns (t: nat)
    requires b <= |s| && FirstEnd(Email[5..], s, b).Some?
    ensures b + 2 <= t == FirstEnd(Email[5..], s, b).value
    ensures ClassRun(TopLevel, s, b, t) && AtBoundary(s, t)
    ensures forall f: nat :: b + 2 <= f && ClassRun(TopLevel, s, b, f) && AtBoundary(s, f) ==> f <= t
  {
    EmailTail();
    t := RepeatPick(Email[5..], s, b);
    RunAtClass(TopLevel, s, b, t);
    forall f: nat | b + 2 <= f && ClassRun(TopLevel, s, b, f) && AtBoundary(s, f) ensures f <= t {
      SpansBoundaryStep(Email[6..], s, f, f);
      RunAtClass(TopLevel, s, b, f);
    }
  }

  // ---------------------------------------------------------------------
  // The parenthesised phone pattern

  /** `\d{3}-\d{4}` from `j`, with no word character after it. */
  predicate LocalNumberAt(s: string, j: nat)
  {
    DigitsAt(s, j, 3) && j + 3 < |s| && s[j + 3] == '-' && DigitsAt(s, j + 4, 4) && WordEnd(s, j + 8)
  }

  lemma {:induction false} LocalNumber(s: string, j: nat)
    requires j <= |s|
    ensures FirstEnd([Digits(3)] + ([Lit('-')] + ([Digits(4)] + [WordBoundary])), s, j) ==
      if LocalNumberAt(s, j) then Some(j + 8) else None
  {
    DigitsStep(3, [Lit('-')] + ([Digits(4)] + [WordBoundary]), s, j);
    if DigitsAt(s, j, 3) {
      SepDigitsStep('-', 4, [WordBoundary], s, j + 3);
      if j + 3 < |s| && s[j + 3] == '-' && DigitsAt(s, j + 4, 4) {
        EndAfterDigit(s, j + 8);
      }
    }
  }

  /** `\s?` before the local number: one whitespace character is taken if the
      rest then matches, otherwise none. */
  lemma {:induction false} OptionalSpace(s: string, j: nat)
    requires j <= |s|
    ensures FirstEnd([Repeat(Space, 0, Some(1))] + ([Digits(3)] + ([Lit('-')] + ([Digits(4)] + [WordBoundary]))), s, j) ==
      if j < |s| && IsSpace(s[j]) && LocalNumberAt(s, j + 1) then Some(j + 9)
      else if LocalNumberAt(s, j) then Some(j + 8) else None
  {
    var t := [Digits(3)] + ([Lit('-')] + ([Digits(4)] + [WordBoundary]));
    assert ([Repeat(Space, 0, Some(1))] + t)[1..] == t;
    OptionalStep([Repeat(Space, 0, Some(1))] + t, s, j);
    LocalNumber(s, j);
    if j < |s| {
      IgnoreCaseNoOp(Space, s[j]);
      LocalNumber(s, j + 1);
    }
  }

  /** What `\b\(\d{3}\)\s?\d{3}-\d{4}\b` matches at `i`. The leading `\b` sits
      before `(`, which is not a word character, so it needs a word character
      right before `i`. */
  function ParenPhoneEnd(s: string, i: nat): Option<nat>
    requires i <= |s|
  {
    if i > 0 && IsWordChar(s[i - 1]) && i + 4 < |s| && s[i] == '(' && DigitsAt(s, i + 1, 3) && s[i + 4] == ')' then
      if i + 5 < |s| && IsSpace(s[i + 5]) && LocalNumberAt(s, i + 6) then Some(i + 14)
      else if LocalNumberAt(s, i + 5) then Some(i + 13)
      else None
    else None
  }

  lemma {:induction false} ParenArea(s: string, i: nat)
    requires i <= |s|
    ensures FirstEnd(PhoneParen[1..], s, i) ==
      if i + 4 < |s| && s[i] == '(' && DigitsAt(s, i + 1, 3) && s[i + 4] == ')'
      then FirstEnd(PhoneParen[4..], s, i + 5) else None
  {
    var u := PhoneParen[4..];
    assert PhoneParen[1..] == [Lit('(')] + ([Digits(3)] + ([Lit(')')] + u));
    SepDigitsStep('(', 3, [Lit(')')] + u, s, i);
    if i < |s| && s[i] == '(' && DigitsAt(s, i + 1, 3) {
      SepStep(')', u, s, i + 4);
    }
  }

  lemma {:induction false} PhoneParenMatches(s: string, i: nat)
    requires i <= |s|
    ensures FirstEnd(PhoneParen, s, i) == ParenPhoneEnd(s, i)
  {
    assert PhoneParen == [WordBoundary] + PhoneParen[1..];
    assert PhoneParen[4..] == [Repeat(Space, 0, Some(1))] + ([Digits(3)] + ([Lit('-')] + ([Digits(4)] + [WordBoundary])));
    ParenArea(s, i);
    if i + 4 < |s| && s[i] == '(' && DigitsAt(s, i + 1, 3) && s[i + 4] == ')' {
      OptionalSpace(s, i + 5);
      assert AtBoundary(s, i) == (i > 0 && IsWordChar(s[i - 1]));
    }
  }

  /** No address starts at `j` when, before any `@`, a character `s[k]` comes that
      can be neither in a local part nor the `@`. */
  lemma {:induction false} EmailBlocked(s: string, j: nat, k: nat)
    requires j <= k < |s| && !InClass(EmailLocal, s[k]) && s[k] != '@'
    requires forall x :: j <= x < k ==> s[x] != '@'
    ensures FirstEnd(Email, s, j).None?
  {
    EmailMatches(s, j);
    IgnoreCaseNoOp(EmailLocal, s[k]);
  }

  /** In particular the pattern never matches at the start of the text or after a
      space or other non-word character. */
  lemma {:induction false} ParenPhoneNeedsWordBefore(s: string, i: nat)
    requires i <= |s| && (i == 0 || !IsWordChar(s[i - 1]))
    ensures FirstEnd(PhoneParen, s, i).None?
  {
    PhoneParenMatches(s, i);
  }

  // ---------------------------------------------------------------------
  // Texts the patterns leave alone

  /** A pattern with a mandatory run of a class that no character of `s` belongs
      to rewrites nothing. */
  lemma {:induction false} AbsentClassNoSub(p: Pattern, m: nat, repl: string, s: string)
    requires Consuming(p) && m < |p| && p[m].Repeat? && p[m].lo >= 1 && CaseClosed(p[m].cl)
    requires forall j :: 0 <= j < |s| ==> !InClass(p[m].cl, s[j])
    ensures Sub(p, repl, s) == s
  {
    forall j | 0 <= j <= |s| ensures FirstEnd(p, s, j).None? {
      forall x | j <= x < |s| ensures !MatchesChar(p[m].cl, s[x]) { IgnoreCaseNoOp(p[m].cl, s[x]); }
      NeedsClass(p, m, s, j);
    }
    SubNoMatch(p, repl, s);
  }

  /** No digit and no `@`. */
  predicate Inert(s: string)
  {
    forall j :: 0 <= j < |s| ==> !IsDigit(s[j]) && s[j] != '@'
  }

  /** The pattern needs a digit or an `@` somewhere. */
  predicate NeedsDigitOrAt(p: Pattern)
  {
    exists m :: 0 <= m < |p| && p[m].Repeat? && p[m].lo >= 1 && (p[m].cl == Digit || p[m].cl == Exactly('@'))
  }

  lemma {:induction false} RedactWithInert(ps: seq<Pattern>, s: string)
    requires AllConsuming(ps) && Inert(s)
    requires forall k :: 0 <= k < |ps| ==> NeedsDigitOrAt(ps[k])
    ensures RedactWith(ps, s) == s
    decreases |ps|
  {
    if ps != [] {
      var m :| 0 <= m < |ps[0]| && ps[0][m].Repeat? && ps[0][m].lo >= 1
        && (ps[0][m].cl == Digit || ps[0][m].cl == Exactly('@'));
      AbsentClassNoSub(ps[0], m, Marker, s);
      assert forall k :: 0 <= k < |ps[1..]| ==> ps[1..][k] == ps[k + 1];
      RedactWithInert(ps[1..], s);
    }
  }

  lemma {:induction false} AllNeedDigitOrAt()
    ensures forall k :: 0 <= k < |PhiPatterns| ==> NeedsDigitOrAt(PhiPatterns[k])
  {
    forall k | 0 <= k < |PhiPatterns| ensures NeedsDigitOrAt(PhiPatterns[k]) {
      if k == 2 || k == 4 {
        assert PhiPatterns[k][2].Repeat? && PhiPatterns[k][2].lo >= 1;
      } else {
        assert PhiPatterns[k][1].Repeat? && PhiPatterns[k][1].lo >= 1;
      }
    }
  }

  /** Every pattern needs a digit or an `@`, so a text with neither is returned
      unchanged by `redact_phi`. */
  lemma {:induction false} InertUnchanged(s: string)
    requires Inert(s)
    ensures RedactPhi(s) == s
  {
    PatternsConsuming();
    AllNeedDigitOrAt();
    RedactWithInert(PhiPatterns, s);
  }

  /** The same holds from any position in the pattern list on. */
  lemma {:induction false} InertUnchangedFrom(k: nat, s: string)
    requires k <= |PhiPatterns| && Inert(s)
    ensures AllConsuming(PhiPatterns[k..]) && RedactWith(PhiPatterns[k..], s) == s
  {
    PatternsConsuming();
    AllNeedDigitOrAt();
    RedactWithInert(PhiPatterns[k..], s);
  }

  /** The marker itself is never rewritten. */
  lemma {:induction false} MarkerFixed()
    ensures RedactPhi(Marker) == Marker
  {
    InertUnchanged(Marker);
  }
}
