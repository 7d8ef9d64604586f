/**
 * The ASCII subset of Python's string primitives that the rest of the model
 * relies on: character classes, `str.lower`, `str.strip`, the `in` test on
 * strings and splitting at the first separator.
 */
module PyText {

  predicate IsDigit(c: char) { '0' <= c <= '9' }

  predicate IsUpper(c: char) { 'A' <= c <= 'Z' }

  predicate IsLower(c: char) { 'a' <= c <= 'z' }

  predicate IsLetter(c: char) { IsUpper(c) || IsLower(c) }

  /** `\w` of Python's `re`, restricted to ASCII. */
  predicate IsWordChar(c: char) { IsLetter(c) || IsDigit(c) || c == '_' }

  /** Python's ASCII whitespace (`\s`, `str.isspace`, `str.strip`): tab to carriage
      return, the four separators 0x1c..0x1f, and space. */
  predicate IsSpace(c: char) { '\t' <= c <= '\r' || '\U{1c}' <= c <= ' ' }

  predicate IsHexDigit(c: char) { IsDigit(c) || 'a' <= c <= 'f' || 'A' <= c <= 'F' }

  function Lower(c: char): (r: char)
    ensures !IsUpper(r)
    ensures IsUpper(c) || r == c
    ensures IsWordChar(r) == IsWordChar(c) && IsDigit(r) == IsDigit(c) && IsLetter(r) == IsLetter(c)
  {
    if IsUpper(c) then (c as int + 32) as char else c
  }

  function Upper(c: char): (r: char)
    ensures !IsLower(r)
    ensures IsLower(c) || r == c
    ensures IsWordChar(r) == IsWordChar(c) && IsDigit(r) == IsDigit(c) && IsLetter(r) == IsLetter(c)
  {
    if IsLower(c) then (c as int - 32) as char else c
  }

  /** `str.lower()` on ASCII text. */
  function LowerStr(s: string): (r: string)
    ensures |r| == |s|
    ensures forall i :: 0 <= i < |s| ==> r[i] == Lower(s[i])
  {
    if s == [] then [] else [Lower(s[0])] + LowerStr(s[1..])
  }

  lemma {:induction false} LowerStrAppend(a: string, b: string)
    ensures LowerStr(a + b) == LowerStr(a) + LowerStr(b)
  {
    var l, r := LowerStr(a + b), LowerStr(a) + LowerStr(b);
    assert |l| == |r|;
    forall k | 0 <= k < |l| ensures l[k] == r[k] {
      if k < |a| {
        assert (a + b)[k] == a[k];
      } else {
        assert (a + b)[k] == b[k - |a|];
      }
    }
  }

  /** Python's `needle in hay` for strings. */
  predicate Contains(hay: string, needle: string)
    decreases |hay|
  {
    needle <= hay || (hay != [] && Contains(hay[1..], needle))
  }

  /** `needle` occurs in `hay` starting at index `i`. */
  predicate OccursAt(hay: string, needle: string, i: nat)
  {
    i + |needle| <= |hay| && hay[i..i + |needle|] == needle
  }

  /** `Contains` agrees with the textbook definition: some window of `hay` is `needle`. */
  lemma {:induction false} ContainsIff(hay: string, needle: string)
    ensures Contains(hay, needle) <==> exists i: nat :: OccursAt(hay, needle, i)
    decreases |hay|
  {
    if needle <= hay {
      assert OccursAt(hay, needle, 0);
    } else if hay != [] {
      ContainsIff(hay[1..], needle);
      forall i: nat | OccursAt(hay, needle, i) ensures Contains(hay[1..], needle) {
        assert i != 0;
        assert OccursAt(hay[1..], needle, i - 1);
      }
      forall j: nat | OccursAt(hay[1..], needle, j) ensures OccursAt(hay, needle, j + 1) {
        assert hay[j + 1..j + 1 + |needle|] == hay[1..][j..j + |needle|];
      }
    }
  }

  lemma {:induction false} ContainsMiddle(a: string, needle: string, b: string)
    ensures Contains(a + needle + b, needle)
  {
    var hay := a + needle + b;
    assert OccursAt(hay, needle, |a|);
    ContainsIff(hay, needle);
  }

  lemma {:induction false} ContainsTrans(a: string, b: string, c: string)
    requires Contains(a, b) && Contains(b, c)
    ensures Contains(a, c)
  {
    ContainsIff(a, b);
    ContainsIff(b, c);
    var i: nat :| OccursAt(a, b, i);
    var j: nat :| OccursAt(b, c, j);
    assert a[i + j..i + j + |c|] == c by {
      forall k | 0 <= k < |c| ensures a[i + j..i + j + |c|][k] == c[k] {
        assert a[i..i + |b|][j + k] == b[j + k];
        assert b[j..j + |c|][k] == c[k];
      }
    }
    assert OccursAt(a, c, i + j);
    ContainsIff(a, c);
  }

  /** Lower-casing keeps an occurrence. */
  lemma {:induction false} ContainsLower(a: string, b: string)
    requires Contains(a, b)
    ensures Contains(LowerStr(a), LowerStr(b))
  {
    ContainsIff(a, b);
    var i: nat :| OccursAt(a, b, i);
    var la, lb := LowerStr(a), LowerStr(b);
    assert la[i..i + |b|] == lb by {
      forall k | 0 <= k < |b| ensures la[i..i + |b|][k] == lb[k] {
        assert a[i..i + |b|][k] == b[k];
      }
    }
    assert OccursAt(la, lb, i);
    ContainsIff(la, lb);
  }

  /** A lower-cased text never contains a needle holding an upper-case letter. */
  lemma {:induction false} NoUpperInLowered(s: string, needle: string, k: nat)
    requires k < |needle| && IsUpper(needle[k])
    ensures !Contains(LowerStr(s), needle)
  {
    var hay := LowerStr(s);
    forall i: nat ensures !OccursAt(hay, needle, i) {
      if i + |needle| <= |hay| {
        assert hay[i..i + |needle|][k] == hay[i + k];
      }
    }
    ContainsIff(hay, needle);
  }

  predicate AllSpace(s: string) { forall i :: 0 <= i < |s| ==> IsSpace(s[i]) }

  /** The first index from `i` on that does not hold whitespace. */
  function SkipSpaces(s: string, i: nat): (j: nat)
    requires i <= |s|
    ensures i <= j <= |s| && (j == |s| || !IsSpace(s[j]))
    ensures forall k :: i <= k < j ==> IsSpace(s[k])
    decreases |s| - i
  {
    if i < |s| && IsSpace(s[i]) then SkipSpaces(s, i + 1) else i
  }

  /** The end of `s[lo..j]` once its trailing whitespace is dropped. */
  function TrimSpaces(s: string, lo: nat, j: nat): (i: nat)
    requires lo <= j <= |s|
    ensures lo <= i <= j && (i == lo || !IsSpace(s[i - 1]))
    ensures forall k :: i <= k < j ==> IsSpace(s[k])
    decreases j - lo
  {
    if lo < j && IsSpace(s[j - 1]) then TrimSpaces(s, lo, j - 1) else j
  }

  /** Python's `str.strip()` with no arguments: leading whitespace is skipped,
      then trailing whitespace of what is left. */
  function Strip(s: string): string
  {
    var a := SkipSpaces(s, 0);
    s[a..TrimSpaces(s, a, |s|)]
  }

  /** What `Strip` promises: an infix of its input with no whitespace at either end,
      obtained by removing only whitespace. */
  lemma {:induction false} StripSpec(s: string)
    ensures var r := Strip(s);
      && (exists i :: 0 <= i <= |s| - |r| && s[i..i + |r|] == r
            && AllSpace(s[..i]) && AllSpace(s[i + |r|..]))
      && (r == [] || (!IsSpace(r[0]) && !IsSpace(r[|r| - 1])))
  {
    var a := SkipSpaces(s, 0);
    var b := TrimSpaces(s, a, |s|);
    var r := s[a..b];
    assert s[a..a + |r|] == r;
    assert AllSpace(s[..a]);
    assert AllSpace(s[b..]);
    if r != [] {
      assert r[0] == s[a] && r[|r| - 1] == s[b - 1];
    }
  }

  /** `Strip` leaves nothing iff the text is all whitespace. */
  lemma {:induction false} StripEmptyIff(s: string)
    ensures Strip(s) == [] <==> AllSpace(s)
  {
    var a := SkipSpaces(s, 0);
    var b := TrimSpaces(s, a, |s|);
    if Strip(s) == [] {
      assert b == a;
      assert AllSpace(s);
    }
    if AllSpace(s) {
      assert a == |s|;
    }
  }

  /** Stripping an already stripped text changes nothing. */
  lemma {:induction false} StripIdempotent(s: string)
    ensures Strip(Strip(s)) == Strip(s)
  {
    var r := Strip(s);
    StripSpec(s);
    assert SkipSpaces(r, 0) == 0;
    assert TrimSpaces(r, 0, |r|) == |r|;
    assert r[0..|r|] == r;
  }

  /** The text before the first `sep`, as `s.split(sep)[0]`. */
  function BeforeFirst(s: string, sep: char): (r: string)
    ensures r <= s
    ensures sep !in r
    ensures |r| < |s| ==> s[|r|] == sep
  {
    if s == [] then []
    else if s[0] == sep then []
    else [s[0]] + BeforeFirst(s[1..], sep)
  }
}
