/**
 * The fragment of Python's `re` that the PHI patterns use: word boundaries and
 * greedy repetition of a character class, matched by backtracking, with
 * `re.IGNORECASE`, and `re.sub` with a literal replacement.
 */
module Regex {
  import opened Wrappers
  import opened PyText

  /** The character classes that occur in the PHI patterns. */
  datatype CharClass =
    | Digit            // \d
    | Exactly(c: char) // an escaped or plain literal character
    | Space            // \s
    | EmailLocal       // [A-Za-z0-9._%+-]
    | EmailDomain      // [A-Za-z0-9.-]
    | TopLevel         // [A-Z|a-z]

  predicate InClass(cl: CharClass, c: char)
  {
    match cl
    case Digit => IsDigit(c)
    case Exactly(x) => c == x
    case Space => IsSpace(c)
    case EmailLocal => IsLetter(c) || IsDigit(c) || c in "._%+-"
    case EmailDomain => IsLetter(c) || IsDigit(c) || c in ".-"
    case TopLevel => IsLetter(c) || c == '|'
  }

  /** Class membership under `re.IGNORECASE`: the character or its other case is in the class. */
  predicate MatchesChar(cl: CharClass, c: char)
  {
    InClass(cl, c) || InClass(cl, Lower(c)) || InClass(cl, Upper(c))
  }

  /** A class that holds a letter in one case only. */
  predicate CaseClosed(cl: CharClass)
  {
    cl.Exactly? ==> !IsLetter(cl.c)
  }

  /** For a class closed under case, `re.IGNORECASE` changes nothing. */
  lemma {:induction false} IgnoreCaseNoOp(cl: CharClass, c: char)
    requires CaseClosed(cl)
    ensures MatchesChar(cl, c) == InClass(cl, c)
  {
  }

  datatype Atom =
    | WordBoundary                                  // \b
    | Repeat(cl: CharClass, lo: nat, hi: Option<nat>) // greedy cl{lo,hi}; hi None means unbounded

  type Pattern = seq<Atom>

  /** `\b`: a word character on exactly one side of position `i`. */
  predicate AtBoundary(s: string, i: nat)
    requires i <= |s|
  {
    (i > 0 && IsWordChar(s[i - 1])) != (i < |s| && IsWordChar(s[i]))
  }

  /** How far a greedy run of `cl` starting at `i` reaches, stopping at `cap` if given. */
  function RunEnd(cl: CharClass, s: string, i: nat, cap: Option<nat>): (r: nat)
    requires i <= |s|
    ensures i <= r <= |s|
    ensures cap.Some? && i <= cap.value ==> r <= cap.value
    ensures forall j :: i <= j < r ==> MatchesChar(cl, s[j])
    ensures r < |s| && (cap.None? || r < cap.value) ==> !MatchesChar(cl, s[r])
    decreases |s| - i
  {
    if i < |s| && (cap.None? || i < cap.value) && MatchesChar(cl, s[i])
    then RunEnd(cl, s, i + 1, cap)
    else i
  }

  /**
   * The end of the match that Python's backtracking matcher reports for `p`
   * anchored at `i`, or None when `p` does not match there.
   */
  function FirstEnd(p: Pattern, s: string, i: nat): (r: Option<nat>)
    requires i <= |s|
    ensures r.Some? ==> i <= r.value <= |s|
    decreases |p|, 1, 0
  {
    if p == [] then Some(i)
    else match p[0]
      case WordBoundary =>
        if AtBoundary(s, i) then FirstEnd(p[1..], s, i) else None
      case Repeat(cl, lo, hi) =>
        var top := RunEnd(cl, s, i, if hi.Some? then Some(i + hi.value) else None);
        if top < i + lo then None else TryEnds(p[1..], s, i + lo, top)
  }

  /** Greedy backtracking: the rest of the pattern is tried after the run ends at
      `k`, then `k - 1`, down to `lo`; the first success wins. */
  function TryEnds(rest: Pattern, s: string, lo: nat, k: nat): (r: Option<nat>)
    requires lo <= k <= |s|
    ensures r.Some? ==> lo <= r.value <= |s|
    decreases |rest| + 1, 0, k
  {
    match FirstEnd(rest, s, k)
    case Some(e) => Some(e)
    case None => if k == lo then None else TryEnds(rest, s, lo, k - 1)
  }

  /** The backtracking result is the rest's match from the LAST candidate end
      (counting down from `k`) whose continuation matches, and there is none
      exactly when every candidate fails. */
  lemma {:induction false} TryEndsSpec(rest: Pattern, s: string, lo: nat, k: nat)
    requires lo <= k <= |s|
    ensures TryEnds(rest, s, lo, k).Some? ==>
      exists j :: lo <= j <= k && FirstEnd(rest, s, j) == TryEnds(rest, s, lo, k) &&
        forall j' :: j < j' <= k ==> FirstEnd(rest, s, j').None?
    ensures TryEnds(rest, s, lo, k).None? <==>
      forall j :: lo <= j <= k ==> FirstEnd(rest, s, j).None?
    decreases k - lo
  {
    if TryEnds(rest, s, lo, k).Some? {
      var j := TryEndsPick(rest, s, lo, k);
      assert !(forall j :: lo <= j <= k ==> FirstEnd(rest, s, j).None?) by {
        assert FirstEnd(rest, s, j).Some?;
      }
    } else if k > lo {
      TryEndsSpec(rest, s, lo, k - 1);
    }
  }

  /** `n` characters from `i` on all belong to `cl`. */
  predicate RunAt(cl: CharClass, s: string, i: nat, n: nat)
  {
    i + n <= |s| && forall j :: i <= j < i + n ==> MatchesChar(cl, s[j])
  }

  /** An exact repetition `cl{n}` matches iff the next `n` characters are in `cl`. */
  lemma {:induction false} FixedStep(p: Pattern, s: string, i: nat)
    requires i <= |s| && p != [] && p[0].Repeat? && p[0].hi == Some(p[0].lo)
    ensures FirstEnd(p, s, i) ==
      if RunAt(p[0].cl, s, i, p[0].lo) then FirstEnd(p[1..], s, i + p[0].lo) else None
  {
    var cl, n := p[0].cl, p[0].lo;
    var top := RunEnd(cl, s, i, Some(i + n));
    if RunAt(cl, s, i, n) {
      assert top == i + n;
    }
  }

  /** An optional `cl?` is first tried with one character, then with none. */
  lemma {:induction false} OptionalStep(p: Pattern, s: string, i: nat)
    requires i <= |s| && p != [] && p[0].Repeat? && p[0].lo == 0 && p[0].hi == Some(1)
    ensures FirstEnd(p, s, i) ==
      if i < |s| && MatchesChar(p[0].cl, s[i]) && FirstEnd(p[1..], s, i + 1).Some?
      then FirstEnd(p[1..], s, i + 1) else FirstEnd(p[1..], s, i)
  {
    var top := RunEnd(p[0].cl, s, i, Some(i + 1));
    if top == i + 1 {
      assert TryEnds(p[1..], s, i, i + 1) ==
        if FirstEnd(p[1..], s, i + 1).Some? then FirstEnd(p[1..], s, i + 1) else TryEnds(p[1..], s, i, i);
    }
  }

  /** A pattern whose first atom needs a character of `cl` fails where the next
      character is not in `cl`. */
  lemma {:induction false} LeadingMiss(p: Pattern, s: string, i: nat)
    requires i < |s| && p != [] && p[0].Repeat? && p[0].lo >= 1
    requires !MatchesChar(p[0].cl, s[i])
    ensures FirstEnd(p, s, i).None?
  {
  }

  /** Backtracking over candidate ends where the rest of the pattern must begin
      with a character `c` that none of the shorter candidates has: only the
      longest candidate can succeed. */
  lemma {:induction false} TryEndsLiteral(rest: Pattern, s: string, lo: nat, k: nat)
    requires lo <= k <= |s|
    requires rest != [] && rest[0].Repeat? && rest[0].lo >= 1
    requires forall j :: lo <= j < k ==> !MatchesChar(rest[0].cl, s[j])
    ensures TryEnds(rest, s, lo, k) == FirstEnd(rest, s, k)
    decreases k - lo
  {
    if k > lo && FirstEnd(rest, s, k).None? {
      TryEndsLiteral(rest, s, lo, k - 1);
      LeadingMiss(rest, s, k - 1);
    }
  }

  /**
   * The declarative reading of a pattern: it matches exactly `s[i..e]` when the
   * span can be cut into pieces, one per atom, each piece a run of the atom's
   * class of allowed length (empty, at a boundary, for `\b`). No search order.
   */
  predicate Spans(p: Pattern, s: string, i: nat, e: nat)
    decreases |p|
  {
    i <= e <= |s| &&
    if p == [] then i == e
    else match p[0]
      case WordBoundary => AtBoundary(s, i) && Spans(p[1..], s, i, e)
      case Repeat(cl, lo, hi) =>
        exists j :: i + lo <= j <= e && (hi.None? || j <= i + hi.value)
          && RunAt(cl, s, i, j - i) && Spans(p[1..], s, j, e)
  }

  /** A greedy run reaches at least as far as any run of the class within the cap. */
  lemma {:induction false} RunReach(cl: CharClass, s: string, i: nat, n: nat, cap: Option<nat>)
    requires i <= |s| && RunAt(cl, s, i, n) && (cap.None? || i + n <= cap.value)
    ensures i + n <= RunEnd(cl, s, i, cap)
  {
  }

  /** The backtracking matcher only reports spans the pattern describes. */
  lemma {:induction false} FirstEndSound(p: Pattern, s: string, i: nat)
    requires i <= |s|
    ensures FirstEnd(p, s, i).Some? ==> Spans(p, s, i, FirstEnd(p, s, i).value)
    decreases |p|
  {
    var r := FirstEnd(p, s, i);
    if r.Some? && p != [] {
      match p[0]
      case WordBoundary =>
        FirstEndSound(p[1..], s, i);
      case Repeat(cl, lo, hi) =>
        var j := RepeatPick(p, s, i);
        FirstEndSound(p[1..], s, j);
        SpansRepeat(p, s, i, j, r.value);
    }
  }

  /** A successful repetition stops at the longest run end the pattern allows from
      which the rest of the pattern matches at all, and the rest's match from there
      is the reported one. */
  lemma {:induction false} RepeatPick(p: Pattern, s: string, i: nat) returns (j: nat)
    requires i <= |s| && p != [] && p[0].Repeat? && FirstEnd(p, s, i).Some?
    ensures i + p[0].lo <= j <= |s| && (p[0].hi.None? || j <= i + p[0].hi.value)
    ensures RunAt(p[0].cl, s, i, j - i) && FirstEnd(p[1..], s, j) == FirstEnd(p, s, i)
    ensures forall j', e ::
      (i + p[0].lo <= j' && (p[0].hi.None? || j' <= i + p[0].hi.value)
       && RunAt(p[0].cl, s, i, j' - i) && Spans(p[1..], s, j', e)) ==> j' <= j
  {
    var cl, lo, hi := p[0].cl, p[0].lo, p[0].hi;
    var cap := if hi.Some? then Some(i + hi.value) else None;
    var top := RepeatUnfold(p, s, i);
    j := TryEndsPick(p[1..], s, i + lo, top);
    assert RunAt(cl, s, i, j - i);
    forall j', e | i + lo <= j' && (hi.None? || j' <= i + hi.value)
      && RunAt(cl, s, i, j' - i) && Spans(p[1..], s, j', e)
      ensures j' <= j
    {
      RunReach(cl, s, i, j' - i, cap);
      FirstEndComplete(p[1..], s, j', e);
    }
  }

  /** The candidate end whose continuation backtracking reports: the largest one
      whose continuation matches. */
  lemma {:induction false} TryEndsPick(rest: Pattern, s: string, lo: nat, k: nat) returns (j: nat)
    requires lo <= k <= |s| && TryEnds(rest, s, lo, k).Some?
    ensures lo <= j <= k && FirstEnd(rest, s, j) == TryEnds(rest, s, lo, k)
    ensures forall j' :: j < j' <= k ==> FirstEnd(rest, s, j').None?
    decreases k - lo
  {
    if FirstEnd(rest, s, k).Some? {
      j := k;
    } else {
      j := TryEndsPick(rest, s, lo, k - 1);
    }
  }

  lemma {:induction false} SpansRepeat(p: Pattern, s: string, i: nat, j: nat, e: nat)
    requires p != [] && p[0].Repeat? && i + p[0].lo <= j <= e
    requires p[0].hi.None? || j <= i + p[0].hi.value
    requires RunAt(p[0].cl, s, i, j - i) && Spans(p[1..], s, j, e)
    ensures Spans(p, s, i, e)
  {
  }

  /** Backtracking misses nothing: wherever some span is described, a match is reported. */
  lemma {:induction false} FirstEndComplete(p: Pattern, s: string, i: nat, e: nat)
    requires Spans(p, s, i, e)
    ensures FirstEnd(p, s, i).Some?
    decreases |p|
  {
    if p != [] {
      match p[0]
      case WordBoundary =>
        FirstEndComplete(p[1..], s, i, e);
      case Repeat(cl, lo, hi) =>
        var j :| i + lo <= j <= e && (hi.None? || j <= i + hi.value)
          && RunAt(cl, s, i, j - i) && Spans(p[1..], s, j, e);
        var cap := if hi.Some? then Some(i + hi.value) else None;
        RunReach(cl, s, i, j - i, cap);
        FirstEndComplete(p[1..], s, j, e);
        RepeatReaches(p, s, i, j);
    }
  }

  /** A repetition matches when the rest matches after some run it can take. */
  lemma {:induction false} RepeatReaches(p: Pattern, s: string, i: nat, j: nat)
    requires i <= |s| && p != [] && p[0].Repeat?
    requires i + p[0].lo <= j <= RunEnd(p[0].cl, s, i, if p[0].hi.Some? then Some(i + p[0].hi.value) else None)
    requires FirstEnd(p[1..], s, j).Some?
    ensures FirstEnd(p, s, i).Some?
  {
    var top := RepeatUnfold(p, s, i);
    TryEndsFinds(p[1..], s, i + p[0].lo, top, j);
  }

  /** A repetition tries the rest from the greedy run's end downwards. */
  lemma {:induction false} RepeatUnfold(p: Pattern, s: string, i: nat) returns (top: nat)
    requires i <= |s| && p != [] && p[0].Repeat?
    ensures top == RunEnd(p[0].cl, s, i, if p[0].hi.Some? then Some(i + p[0].hi.value) else None)
    ensures i + p[0].lo <= top ==> FirstEnd(p, s, i) == TryEnds(p[1..], s, i + p[0].lo, top)
  {
    top := RunEnd(p[0].cl, s, i, if p[0].hi.Some? then Some(i + p[0].hi.value) else None);
  }

  /** Backtracking finds a match when one of the candidate ends leads to one. */
  lemma {:induction false} TryEndsFinds(rest: Pattern, s: string, lo: nat, k: nat, j: nat)
    requires lo <= j <= k <= |s| && FirstEnd(rest, s, j).Some?
    ensures TryEnds(rest, s, lo, k).Some?
    decreases k - lo
  {
    if FirstEnd(rest, s, k).None? {
      TryEndsFinds(rest, s, lo, k - 1, j);
    }
  }

  /** Every match of the pattern consumes at least one character. */
  predicate Consuming(p: Pattern)
  {
    exists k :: 0 <= k < |p| && p[k].Repeat? && p[k].lo >= 1
  }

  lemma {:induction false} ConsumingEnd(p: Pattern, s: string, i: nat)
    requires i <= |s| && Consuming(p)
    ensures FirstEnd(p, s, i).Some? ==> FirstEnd(p, s, i).value > i
    decreases |p|
  {
    var k :| 0 <= k < |p| && p[k].Repeat? && p[k].lo >= 1;
    var r := FirstEnd(p, s, i);
    if r.Some? && k > 0 {
      assert p[1..][k - 1] == p[k];
      assert Consuming(p[1..]);
      match p[0]
      case WordBoundary =>
        ConsumingEnd(p[1..], s, i);
      case Repeat(cl, lo, hi) =>
        var j := RepeatPick(p, s, i);
        ConsumingEnd(p[1..], s, j);
    }
  }

  /**
   * A pattern with a mandatory run of `cl` cannot match at or after `i` when no
   * character from `i` on belongs to `cl`.
   */
  lemma {:induction false} NeedsClass(p: Pattern, k: nat, s: string, i: nat)
    requires i <= |s|
    requires k < |p| && p[k].Repeat? && p[k].lo >= 1
    requires forall j :: i <= j < |s| ==> !MatchesChar(p[k].cl, s[j])
    ensures FirstEnd(p, s, i).None?
    decreases |p|
  {
    if k > 0 {
      assert p[1..][k - 1] == p[k];
      match p[0]
      case WordBoundary =>
        if AtBoundary(s, i) { NeedsClass(p[1..], k - 1, s, i); }
      case Repeat(cl, lo, hi) =>
        var top := RunEnd(cl, s, i, if hi.Some? then Some(i + hi.value) else None);
        if i + lo <= top {
          forall j | i + lo <= j <= top ensures FirstEnd(p[1..], s, j).None? {
            NeedsClass(p[1..], k - 1, s, j);
          }
          TryEndsSpec(p[1..], s, i + lo, top);
        }
    }
  }

  /** `re.sub(p, repl, s)` continued from index `i`: leftmost match first, then
      the scan resumes after it; characters not inside a match are copied. */
  function SubFrom(p: Pattern, repl: string, s: string, i: nat): string
    requires Consuming(p) && i <= |s|
    decreases |s| - i
  {
    match FirstEnd(p, s, i)
    case Some(e) =>
      ConsumingEnd(p, s, i);
      repl + SubFrom(p, repl, s, e)
    case None =>
      if i == |s| then [] else [s[i]] + SubFrom(p, repl, s, i + 1)
  }

  function Sub(p: Pattern, repl: string, s: string): string
    requires Consuming(p)
  {
    SubFrom(p, repl, s, 0)
  }

  /** A match at `i` is replaced and the scan resumes where it ended. */
  lemma {:induction false} SubFromMatch(p: Pattern, repl: string, s: string, i: nat, e: nat)
    requires Consuming(p) && i <= |s| && FirstEnd(p, s, i) == Some(e)
    ensures SubFrom(p, repl, s, i) == repl + SubFrom(p, repl, s, e)
  {
  }

  /** At the end of the text nothing is left to rewrite: a match there would be empty. */
  lemma {:induction false} SubFromEnd(p: Pattern, repl: string, s: string)
    requires Consuming(p)
    ensures SubFrom(p, repl, s, |s|) == []
  {
    ConsumingEnd(p, s, |s|);
  }

  /** Where the pattern matches nowhere in `s[i..k]`, the scan copies that stretch. */
  lemma {:induction false} SubSkip(p: Pattern, repl: string, s: string, i: nat, k: nat)
    requires Consuming(p) && i <= k <= |s|
    requires forall j :: i <= j < k ==> FirstEnd(p, s, j).None?
    ensures SubFrom(p, repl, s, i) == s[i..k] + SubFrom(p, repl, s, k)
    decreases k - i
  {
    if i < k {
      assert FirstEnd(p, s, i).None?;
      SubSkip(p, repl, s, i + 1, k);
      SubFromCopy(p, repl, s, i, k);
    }
  }

  /** Where the pattern does not match, the scan copies one character. */
  lemma {:induction false} SubFromCopy(p: Pattern, repl: string, s: string, i: nat, k: nat)
    requires Consuming(p) && i < k <= |s| && FirstEnd(p, s, i).None?
    requires SubFrom(p, repl, s, i + 1) == s[i + 1..k] + SubFrom(p, repl, s, k)
    ensures SubFrom(p, repl, s, i) == s[i..k] + SubFrom(p, repl, s, k)
  {
    var rest := SubFrom(p, repl, s, k);
    assert SubFrom(p, repl, s, i) == [s[i]] + SubFrom(p, repl, s, i + 1);
    assert s[i..k] == [s[i]] + s[i + 1..k];
    assert [s[i]] + (s[i + 1..k] + rest) == ([s[i]] + s[i + 1..k]) + rest;
  }

  /** A text in which the pattern matches nowhere is left unchanged. */
  lemma {:induction false} SubNoMatch(p: Pattern, repl: string, s: string)
    requires Consuming(p)
    requires forall j :: 0 <= j <= |s| ==> FirstEnd(p, s, j).None?
    ensures Sub(p, repl, s) == s
  {
    SubSkip(p, repl, s, 0, |s|);
    assert s[0..|s|] == s;
  }
}
