/**
 * The redaction examples the project's own tests use, worked out exactly.
 */
module PhiExamples {
  import opened Wrappers
  import opened PyText
  import opened Regex
  import opened PhiRedaction
  import opened PhiPatternProps

  const SsnText: string := "Patient SSN: 123-45-6789"
  const SsnRedacted: string := "Patient SSN: [REDACTED]"

  lemma {:induction false} SsnShape()
    ensures GroupedAt(SsnText, 13, 3, '-', 2, 4)
  {
    var s := SsnText;
    assert s[12] == ' ' && s[16] == '-' && s[19] == '-' && |s| == 24;
    assert DigitsAt(s, 13, 3) by { assert IsDigit(s[13]) && IsDigit(s[14]) && IsDigit(s[15]); }
    assert DigitsAt(s, 17, 2) by { assert IsDigit(s[17]) && IsDigit(s[18]); }
    assert DigitsAt(s, 20, 4) by { assert IsDigit(s[20]) && IsDigit(s[21]) && IsDigit(s[22]) && IsDigit(s[23]); }
  }

  lemma {:induction false} SsnPrefixMisses()
    ensures forall j :: 0 <= j < 13 ==> FirstEnd(SsnDash, SsnText, j).None?
  {
    forall j | 0 <= j < 13 ensures FirstEnd(SsnDash, SsnText, j).None? {
      SsnDashMatches(SsnText, j);
      assert !IsDigit(SsnText[j]);
    }
  }

  lemma {:induction false} SsnRedactedInert()
    ensures Inert(SsnRedacted)
  {
  }

  lemma {:induction false} SsnFirstPattern()
    requires Consuming(SsnDash)
    ensures Sub(SsnDash, Marker, SsnText) == SsnRedacted
  {
    var s := SsnText;
    SsnPrefixMisses();
    SubSkip(SsnDash, Marker, s, 0, 13);
    SsnShape();
    SsnDashMatches(s, 13);
    SubFromMatch(SsnDash, Marker, s, 13, 24);
    SubFromEnd(SsnDash, Marker, s);
    var tail := SubFrom(SsnDash, Marker, s, 24);
    assert tail == [];
    assert SubFrom(SsnDash, Marker, s, 13) == Marker + tail;
    assert Sub(SsnDash, Marker, s) == s[0..13] + (Marker + tail);
    SsnSplice();
  }

  lemma {:induction false} SsnSplice()
    ensures SsnText[0..13] + Marker == SsnRedacted
  {
    assert SsnText[0..13] == "Patient SSN: ";
  }

  /** A social security number in a sentence is replaced, and nothing else changes. */
  lemma {:induction false} SsnExample()
    ensures RedactPhi(SsnText) == SsnRedacted
  {
    PatternsConsuming();
    SsnFirstPattern();
    SsnRedactedInert();
    InertUnchangedFrom(1, SsnRedacted);
  }

  const EmailText: string := "Contact: patient@example.com"
  const EmailRedacted: string := "Contact: [REDACTED]"

  lemma {:induction false} EmailTextShape()
    ensures EmailShape(EmailText, 9, 16, 24, 28)
  {
    var s := EmailText;
    assert |s| == 28 && s[16] == '@' && s[24] == '.';
    assert s[8] == ' ' && s[9] == 'p' && s[27] == 'm';
    assert ClassRun(EmailLocal, s, 9, 16) by {
      forall x | 9 <= x < 16 ensures InClass(EmailLocal, s[x]) { assert IsLetter(s[x]); }
    }
    assert ClassRun(EmailDomain, s, 17, 24) by {
      forall x | 17 <= x < 24 ensures InClass(EmailDomain, s[x]) { assert IsLetter(s[x]); }
    }
    assert ClassRun(TopLevel, s, 25, 28) by {
      forall x | 25 <= x < 28 ensures InClass(TopLevel, s[x]) { assert IsLetter(s[x]); }
    }
  }

  /** The only address starting at 9 runs to the end of the text. */
  lemma {:induction false} EmailTextEnd(at: nat, dot: nat, e: nat)
    requires EmailShape(EmailText, 9, at, dot, e)
    ensures e == 28
  {
    var s := EmailText;
    assert forall x :: 0 <= x < 28 && x != 24 ==> s[x] != '.';
    assert dot == 24;
    assert !AtBoundary(s, 27);
  }

  lemma {:induction false} EmailTextMatch()
    ensures FirstEnd(Email, EmailText, 9) == Some(28)
  {
    EmailTextShape();
    EmailMatches(EmailText, 9);
    var e := FirstEnd(Email, EmailText, 9).value;
    var dot :| EmailShape(EmailText, 9, RunEnd(EmailLocal, EmailText, 9, None), dot, e);
    EmailTextEnd(RunEnd(EmailLocal, EmailText, 9, None), dot, e);
  }

  lemma {:induction false} EmailPrefixMisses()
    ensures forall j :: 0 <= j < 9 ==> FirstEnd(Email, EmailText, j).None?
  {
    var s := EmailText;
    assert s[7] == ':' && s[8] == ' ';
    assert forall x :: 0 <= x < 9 ==> s[x] != '@';
    forall j | 0 <= j < 9 ensures FirstEnd(Email, s, j).None? {
      if j <= 7 { EmailBlocked(s, j, 7); } else { EmailBlocked(s, j, 8); }
    }
  }

  lemma {:induction false} EmailPattern()
    requires Consuming(Email)
    ensures Sub(Email, Marker, EmailText) == EmailRedacted
  {
    var s := EmailText;
    EmailPrefixMisses();
    SubSkip(Email, Marker, s, 0, 9);
    EmailTextMatch();
    SubFromMatch(Email, Marker, s, 9, 28);
    SubFromEnd(Email, Marker, s);
    var tail := SubFrom(Email, Marker, s, 28);
    assert tail == [];
    assert Sub(Email, Marker, s) == s[0..9] + (Marker + tail);
    EmailSplice();
  }

  lemma {:induction false} EmailSplice()
    ensures EmailText[0..9] + Marker == EmailRedacted
  {
    assert EmailText[0..9] == "Contact: ";
  }

  lemma {:induction false} EmailTextNoDigit()
    ensures forall j :: 0 <= j < |EmailText| ==> !InClass(Digit, EmailText[j])
  {
  }

  /** RedactPhi unrolled over the first three patterns. */
  lemma {:induction false} RedactPhiFirstThree(s: string)
    ensures Consuming(SsnDash) && Consuming(SsnDot) && Consuming(Email) && AllConsuming(PhiPatterns[3..])
    ensures RedactPhi(s) ==
      RedactWith(PhiPatterns[3..], Sub(Email, Marker, Sub(SsnDot, Marker, Sub(SsnDash, Marker, s))))
  {
    PatternsConsuming();
    var s1 := Sub(SsnDash, Marker, s);
    var s2 := Sub(SsnDot, Marker, s1);
    var s3 := Sub(Email, Marker, s2);
    assert PhiPatterns[0] == SsnDash && PhiPatterns[1..][0] == SsnDot && PhiPatterns[2..][0] == Email;
    assert PhiPatterns[1..][1..] == PhiPatterns[2..] && PhiPatterns[2..][1..] == PhiPatterns[3..];
    assert RedactWith(PhiPatterns, s) == RedactWith(PhiPatterns[1..], s1);
    assert RedactWith(PhiPatterns[1..], s1) == RedactWith(PhiPatterns[2..], s2);
    assert RedactWith(PhiPatterns[2..], s2) == RedactWith(PhiPatterns[3..], s3);
  }

  lemma {:induction false} EmailRedactedInert()
    ensures Inert(EmailRedacted)
  {
  }

  /** An e-mail address in a sentence is replaced, and nothing else changes. */
  lemma {:induction false} EmailExample()
    ensures RedactPhi(EmailText) == EmailRedacted
  {
    var s := EmailText;
    RedactPhiFirstThree(s);
    EmailTextNoDigit();
    AbsentClassNoSub(SsnDash, 1, Marker, s);
    AbsentClassNoSub(SsnDot, 1, Marker, s);
    EmailPattern();
    EmailRedactedInert();
    InertUnchangedFrom(3, EmailRedacted);
  }
}
