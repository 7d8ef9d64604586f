/**
 * The PHI redaction engine: six regular expressions applied one after the
 * other to free text, a recursive redactor for dictionaries keyed by field
 * name, the error-message sanitiser, the argument sanitising done before a
 * record is handed to `logging`, and the redacting log formatter.
 */
module PhiRedaction {
  import opened Wrappers
  import opened PyText
  import opened PyValue
  import opened Regex

  /** The replacement written over every pattern match and every PHI field value. */
  const Marker: string := "[REDACTED]"

  /** Appended to a sanitised error message whose context mentions a PHI field. */
  const ContextSuffix: string := " [Context contains PHI - redacted]"

  function Digits(n: nat): Atom { Repeat(Digit, n, Some(n)) }

  function Lit(c: char): Atom { Repeat(Exactly(c), 1, Some(1)) }

  /** \b\d{a}<sep>\d{b}<sep>\d{c}\b: three digit groups joined by one separator. */
  function GroupedDigits(a: nat, sep: char, b: nat, c: nat): Pattern
  {
    [WordBoundary, Digits(a), Lit(sep), Digits(b), Lit(sep), Digits(c), WordBoundary]
  }

  /** \b\d{3}-\d{2}-\d{4}\b */
  const SsnDash: Pattern := GroupedDigits(3, '-', 2, 4)

  /** \b\d{3}\.\d{2}\.\d{4}\b */
  const SsnDot: Pattern := GroupedDigits(3, '.', 2, 4)

  /** \b[A-Za-z0-9._%+-]+@[A-Za-z0-9.-]+\.[A-Z|a-z]{2,}\b */
  const Email: Pattern :=
    [WordBoundary, Repeat(EmailLocal, 1, None), Lit('@'), Repeat(EmailDomain, 1, None),
     Lit('.'), Repeat(TopLevel, 2, None), WordBoundary]

  /** \b\d{3}-\d{3}-\d{4}\b */
  const PhoneDash: Pattern := GroupedDigits(3, '-', 3, 4)

  /** \b\(\d{3}\)\s?\d{3}-\d{4}\b */
  const PhoneParen: Pattern :=
    [WordBoundary, Lit('('), Digits(3), Lit(')'), Repeat(Space, 0, Some(1)),
     Digits(3), Lit('-'), Digits(4), WordBoundary]

  /** \b\d{10}\b */
  const TenDigits: Pattern := [WordBoundary, Digits(10), WordBoundary]

  /** PHI_PATTERNS, in list order. */
  const PhiPatterns: seq<Pattern> := [SsnDash, SsnDot, Email, PhoneDash, PhoneParen, TenDigits]

  /** PHI_FIELDS, in the order the set literal lists them. */
  const PhiFieldList: seq<string> := [
    "patient_id", "patientId", "patient_name", "patientName",
    "patient_email", "patientEmail", "patient_phone", "patientPhone",
    "ssn", "social_security_number", "date_of_birth", "dateOfBirth",
    "dob", "address", "medical_record_number", "medicalRecordNumber"]

  const PhiFields: set<string> := set f | f in PhiFieldList

  /** Every PHI pattern has a mandatory run that needs at least one character. */
  lemma {:induction false} PatternsConsuming()
    ensures forall k :: 0 <= k < |PhiPatterns| ==> Consuming(PhiPatterns[k])
    ensures Consuming(SsnDash) && Consuming(SsnDot) && Consuming(Email)
    ensures Consuming(PhoneDash) && Consuming(PhoneParen) && Consuming(TenDigits)
  {
    forall k | 0 <= k < |PhiPatterns| ensures Consuming(PhiPatterns[k]) {
      assert PhiPatterns[k][1].Repeat? && PhiPatterns[k][1].lo >= 1;
    }
    assert PhiPatterns[0] == SsnDash && PhiPatterns[1] == SsnDot && PhiPatterns[2] == Email;
    assert PhiPatterns[3] == PhoneDash && PhiPatterns[4] == PhoneParen && PhiPatterns[5] == TenDigits;
  }

  predicate AllConsuming(ps: seq<Pattern>)
  {
    forall k :: 0 <= k < |ps| ==> Consuming(ps[k])
  }

  /** Apply the patterns in order, each rewriting the text the next one sees. */
  function RedactWith(ps: seq<Pattern>, text: string): string
    requires AllConsuming(ps)
  {
    if ps == [] then text else RedactWith(ps[1..], Sub(ps[0], Marker, text))
  }

  /** `redact_phi(text)` for a text that is already a `str`. */
  function RedactPhi(text: string): string
  {
    PatternsConsuming();
    RedactWith(PhiPatterns, text)
  }

  /** `redact_phi(x)` for any value: non-strings are passed through `str` first. */
  function RedactPhiValue(x: Value): (r: string)
    ensures x.VStr? ==> r == RedactPhi(x.s)
  {
    RedactPhi(Str(x))
  }

  /** The loop of `redact_phi`, reassigning `redacted` once per pattern. */
  method RedactPhiLoop(text: string) returns (redacted: string)
    ensures redacted == RedactPhi(text)
  {
    PatternsConsuming();
    redacted := text;
    var k := 0;
    while k < |PhiPatterns|
      invariant 0 <= k <= |PhiPatterns|
      invariant RedactWith(PhiPatterns[k..], redacted) == RedactPhi(text)
    {
      assert PhiPatterns[k..][1..] == PhiPatterns[k + 1..];
      redacted := Sub(PhiPatterns[k], Marker, redacted);
      k := k + 1;
    }
    assert PhiPatterns[k..] == [];
  }

  // ---------------------------------------------------------------------
  // redact_dict

  /** Some field name, lower-cased, is a substring of the lower-cased key. */
  predicate AnyFieldIn(keyLower: string, fields: seq<string>)
  {
    exists j :: 0 <= j < |fields| && Contains(keyLower, LowerStr(fields[j]))
  }

  /** `is_phi_field` of `redact_dict`, over PHI_FIELDS joined with the caller's extras. */
  predicate IsPhiField(key: string, extras: set<string>)
  {
    AnyFieldIn(LowerStr(key), PhiFieldList)
    || exists f :: f in extras && Contains(LowerStr(key), LowerStr(f))
  }

  /** `redact_dict(data, fields_to_redact)`: a new dict, entry by entry. */
  function RedactDict(data: Dict, extras: set<string>): (r: Dict)
    ensures |r| == |data|
    decreases data
  {
    if data == [] then [] else [RedactEntry(data[0], extras)] + RedactDict(data[1..], extras)
  }

  function RedactEntry(e: Entry, extras: set<string>): Entry
    decreases e
  {
    var phi := IsPhiField(e.key, extras);
    if phi && e.val != VNone then Entry(e.key, VStr(Marker))
    else match e.val
      case VDict(inner) => Entry(e.key, VDict(RedactDict(inner, extras)))
      case VList(items) => Entry(e.key, VList(RedactItems(items, extras, phi)))
      case _ => e
  }

  /** The list comprehension over a list value: dicts are redacted, other items kept
      (or replaced by the marker under a PHI key, a case the branch order rules out). */
  function RedactItems(items: seq<Value>, extras: set<string>, phi: bool): seq<Value>
    decreases items
  {
    if items == [] then [] else [RedactItem(items[0], extras, phi)] + RedactItems(items[1..], extras, phi)
  }

  function RedactItem(v: Value, extras: set<string>, phi: bool): Value
    decreases v
  {
    if v.VDict? then VDict(RedactDict(v.entries, extras)) else if phi then VStr(Marker) else v
  }

  /** The loop of `redact_dict`: fills a fresh dict entry by entry, recursing into
      nested dicts and into dicts held in lists. */
  method RedactDictLoop(data: Dict, extras: set<string>) returns (redacted: Dict)
    ensures redacted == RedactDict(data, extras)
    decreases data
  {
    redacted := [];
    var i := 0;
    while i < |data|
      invariant 0 <= i <= |data|
      invariant RedactDict(data, extras) == redacted + RedactDict(data[i..], extras)
    {
      var entry := RedactEntryStep(data[i], extras);
      ghost var rest := RedactDict(data[i + 1..], extras);
      assert data[i..][1..] == data[i + 1..];
      assert RedactDict(data[i..], extras) == [entry] + rest;
      assert redacted + ([entry] + rest) == (redacted + [entry]) + rest;
      redacted := redacted + [entry];
      i := i + 1;
    }
  }

  /** One pass of the loop body of `redact_dict`. */
  method RedactEntryStep(e: Entry, extras: set<string>) returns (r: Entry)
    ensures r == RedactEntry(e, extras)
    decreases e
  {
    var key, value := e.key, e.val;
    var phi := IsPhiField(key, extras);
    if phi && value != VNone {
      r := Entry(key, VStr(Marker));
    } else if value.VDict? {
      var inner := RedactDictLoop(value.entries, extras);
      r := Entry(key, VDict(inner));
    } else if value.VList? {
      var items := RedactListLoop(value.items, extras, phi);
      r := Entry(key, VList(items));
    } else {
      r := e;
    }
  }

  method RedactListLoop(items: seq<Value>, extras: set<string>, phi: bool) returns (out: seq<Value>)
    ensures out == RedactItems(items, extras, phi)
    decreases items
  {
    out := [];
    var i := 0;
    while i < |items|
      invariant 0 <= i <= |items|
      invariant RedactItems(items, extras, phi) == out + RedactItems(items[i..], extras, phi)
    {
      var w := RedactItemStep(items[i], extras, phi);
      ghost var rest := RedactItems(items[i + 1..], extras, phi);
      assert items[i..][1..] == items[i + 1..];
      assert RedactItems(items[i..], extras, phi) == [w] + rest;
      assert out + ([w] + rest) == (out + [w]) + rest;
      out := out + [w];
      i := i + 1;
    }
  }

  /** One item of the list comprehension. */
  method RedactItemStep(v: Value, extras: set<string>, phi: bool) returns (w: Value)
    ensures w == RedactItem(v, extras, phi)
    decreases v
  {
    if v.VDict? {
      var inner := RedactDictLoop(v.entries, extras);
      w := VDict(inner);
    } else if phi {
      w := VStr(Marker);
    } else {
      w := v;
    }
  }

  // ---------------------------------------------------------------------
  // sanitize_error_message

  /** `any(field in str(context).lower() for field in PHI_FIELDS)`: the field names
      are used as written, not lower-cased. */
  predicate ContextMentionsPhi(context: Dict)
  {
    exists j :: 0 <= j < |PhiFieldList| && Contains(LowerStr(DictStr(context)), PhiFieldList[j])
  }

  /** `sanitize_error_message(error_msg, context)`; None stands for no context.
      The redacted copy of the context that the source computes is never used, so
      it is not modelled. */
  function SanitizeErrorMessage(msg: string, context: Option<Dict>): (r: string)
    ensures r == RedactPhi(msg) || r == RedactPhi(msg) + ContextSuffix
    ensures context.None? || context.value == [] ==> r == RedactPhi(msg)
  {
    var sanitized := RedactPhi(msg);
    if context.Some? && context.value != [] && ContextMentionsPhi(context.value)
    then sanitized + ContextSuffix
    else sanitized
  }

  // ---------------------------------------------------------------------
  // log_safely

  /** What `log_safely` hands to `logger.log`. */
  datatype LogCall = LogCall(level: int, message: string, args: seq<Value>, kwargs: Dict)

  /** `key.lower() in [f.lower() for f in PHI_FIELDS]`: equality, not substring. */
  predicate IsPhiKwarg(key: string)
  {
    exists j :: 0 <= j < |PhiFieldList| && LowerStr(key) == LowerStr(PhiFieldList[j])
  }

  function SafeArg(arg: Value): Value
  {
    if arg.VStr? then VStr(RedactPhi(arg.s)) else arg
  }

  function SafeArgs(args: seq<Value>): (r: seq<Value>)
    ensures |r| == |args| && forall i :: 0 <= i < |args| ==> r[i] == SafeArg(args[i])
  {
    if args == [] then [] else [SafeArg(args[0])] + SafeArgs(args[1..])
  }

  function SafeKwarg(e: Entry): Entry
  {
    if IsPhiKwarg(e.key) then Entry(e.key, VStr(Marker))
    else match e.val
      case VStr(s) => Entry(e.key, VStr(RedactPhi(s)))
      case VDict(d) => Entry(e.key, VDict(RedactDict(d, {})))
      case _ => e
  }

  function SafeKwargs(kwargs: Dict): (r: Dict)
    ensures |r| == |kwargs| && forall i :: 0 <= i < |kwargs| ==> r[i] == SafeKwarg(kwargs[i])
  {
    if kwargs == [] then [] else [SafeKwarg(kwargs[0])] + SafeKwargs(kwargs[1..])
  }

  /** The sanitised call `log_safely(logger, level, message, *args, **kwargs)` makes.
      `exc_info` is popped first and put back, last, only when truthy. */
  function LogSafely(level: int, message: string, args: seq<Value>, kwargs: Dict): (r: LogCall)
    ensures r.level == level && r.message == RedactPhi(message) && |r.args| == |args|
  {
    var excInfo := match Get(kwargs, "exc_info") case Some(v) => v case None => VBool(false);
    var safe := SafeKwargs(Without(kwargs, "exc_info"));
    LogCall(level, RedactPhi(message), SafeArgs(args),
            if Truthy(excInfo) then safe + [Entry("exc_info", excInfo)] else safe)
  }

  /** The loop of `log_safely` over the remaining keyword arguments. */
  method LogSafelyLoop(level: int, message: string, args: seq<Value>, kwargs: Dict)
    returns (call: LogCall)
    ensures call == LogSafely(level, message, args, kwargs)
  {
    var excInfo := match Get(kwargs, "exc_info") case Some(v) => v case None => VBool(false);
    var rest := Without(kwargs, "exc_info");
    var safeMessage := RedactPhiLoop(message);
    var safeKwargs := SafeKwargsLoop(rest);
    if Truthy(excInfo) {
      safeKwargs := safeKwargs + [Entry("exc_info", excInfo)];
    }
    call := LogCall(level, safeMessage, SafeArgs(args), safeKwargs);
  }

  /** The keyword-argument loop of `log_safely`. */
  method SafeKwargsLoop(kwargs: Dict) returns (safeKwargs: Dict)
    ensures safeKwargs == SafeKwargs(kwargs)
  {
    safeKwargs := [];
    var i := 0;
    while i < |kwargs|
      invariant 0 <= i <= |kwargs|
      invariant SafeKwargs(kwargs) == safeKwargs + SafeKwargs(kwargs[i..])
    {
      var safe := SanitizeKwarg(kwargs[i]);
      ghost var rest := SafeKwargs(kwargs[i + 1..]);
      assert kwargs[i..][1..] == kwargs[i + 1..];
      assert SafeKwargs(kwargs[i..]) == [safe] + rest;
      assert safeKwargs + ([safe] + rest) == (safeKwargs + [safe]) + rest;
      safeKwargs := safeKwargs + [safe];
      i := i + 1;
    }
  }

  /** One step of the keyword-argument loop of `log_safely`. */
  method SanitizeKwarg(e: Entry) returns (safe: Entry)
    ensures safe == SafeKwarg(e)
  {
    var key, value := e.key, e.val;
    if IsPhiKwarg(key) {
      safe := Entry(key, VStr(Marker));
    } else if value.VStr? {
      var r := RedactPhiLoop(value.s);
      safe := Entry(key, VStr(r));
    } else if value.VDict? {
      var d := RedactDictLoop(value.entries, {});
      safe := Entry(key, VDict(d));
    } else {
      safe := e;
    }
  }

  // ---------------------------------------------------------------------
  // PHIRedactingFormatter

  /** `PHIRedactingFormatter.format`: the record as the base formatter renders it,
      passed through `redact_phi`. The base rendering is an input. */
  function FormatRecord(rendered: string): string
  {
    RedactPhi(rendered)
  }
}
