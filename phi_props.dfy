/**
 * What the dictionary redactor, the error-message sanitiser, the logging
 * sanitiser and the formatter promise, proved about their models.
 */
module PhiRedactionProps {
  import opened Wrappers
  import opened PyText
  import opened PyValue
  import opened PhiRedaction
  import opened PhiPatternProps

  // ---------------------------------------------------------------------
  // redact_dict

  /** Which keys count as PHI: some field of PHI_FIELDS or of the extras, lower-cased,
      occurs in the lower-cased key. */
  lemma {:induction false} IsPhiFieldIff(key: string, extras: set<string>)
    ensures IsPhiField(key, extras) <==>
      exists f :: f in PhiFields + extras && Contains(LowerStr(key), LowerStr(f))
  {
    if IsPhiField(key, extras) {
      var f := PhiFieldWitness(key, extras);
    }
    if exists f :: f in PhiFields + extras && Contains(LowerStr(key), LowerStr(f)) {
      var f :| f in PhiFields + extras && Contains(LowerStr(key), LowerStr(f));
      FieldWitnessIsPhi(key, extras, f);
    }
  }

  lemma {:induction false} PhiFieldWitness(key: string, extras: set<string>) returns (f: string)
    requires IsPhiField(key, extras)
    ensures f in PhiFields + extras && Contains(LowerStr(key), LowerStr(f))
  {
    if AnyFieldIn(LowerStr(key), PhiFieldList) {
      var j := AnyFieldWitness(LowerStr(key), PhiFieldList);
      f := PhiFieldList[j];
    } else {
      f :| f in extras && Contains(LowerStr(key), LowerStr(f));
    }
  }

  lemma {:induction false} AnyFieldWitness(keyLower: string, fields: seq<string>) returns (j: nat)
    requires AnyFieldIn(keyLower, fields)
    ensures j < |fields| && Contains(keyLower, LowerStr(fields[j]))
  {
    j :| 0 <= j < |fields| && Contains(keyLower, LowerStr(fields[j]));
  }

  lemma {:induction false} FieldWitnessIsPhi(key: string, extras: set<string>, f: string)
    requires f in PhiFields + extras && Contains(LowerStr(key), LowerStr(f))
    ensures IsPhiField(key, extras)
  {
    if f in PhiFields {
      var j :| 0 <= j < |PhiFieldList| && PhiFieldList[j] == f;
      FieldInKeyIsPhi(key, extras, j);
    }
  }

  /** The redactor keeps every key, in order, and adds none. */
  lemma {:induction false} RedactDictKeys(d: Dict, extras: set<string>)
    ensures Keys(RedactDict(d, extras)) == Keys(d)
    decreases d
  {
    if d != [] {
      RedactDictKeys(d[1..], extras);
    }
  }

  /** Entry `i` of the result is entry `i` of the input, redacted. */
  lemma {:induction false} RedactDictAt(d: Dict, extras: set<string>, i: nat)
    requires i < |d|
    ensures |RedactDict(d, extras)| == |d| && RedactDict(d, extras)[i] == RedactEntry(d[i], extras)
    decreases i
  {
    if i > 0 {
      RedactDictAt(d[1..], extras, i - 1);
    } else {
      RedactDictKeys(d, extras);
    }
  }

  lemma {:induction false} RedactItemsAt(items: seq<Value>, extras: set<string>, phi: bool, k: nat)
    requires k < |items|
    ensures |RedactItems(items, extras, phi)| == |items|
    ensures RedactItems(items, extras, phi)[k] ==
      if items[k].VDict? then VDict(RedactDict(items[k].entries, extras))
      else if phi then VStr(Marker) else items[k]
    decreases k
  {
    if k > 0 {
      RedactItemsAt(items[1..], extras, phi, k - 1);
    } else {
      RedactItemsLength(items, extras, phi);
    }
  }

  lemma {:induction false} RedactItemsLength(items: seq<Value>, extras: set<string>, phi: bool)
    ensures |RedactItems(items, extras, phi)| == |items|
    decreases items
  {
    if items != [] {
      RedactItemsLength(items[1..], extras, phi);
    }
  }

  /**
   * What becomes of the value under each key: a PHI key's value is replaced by
   * the marker unless it is None; under any other key a dict is redacted with the
   * same extras, a list has its dict elements redacted and every other element
   * kept, and any other value, strings included, is kept verbatim.
   */
  lemma {:induction false} RedactDictValue(d: Dict, extras: set<string>, i: nat)
    requires i < |d|
    ensures |RedactDict(d, extras)| == |d|
    ensures RedactDict(d, extras)[i].key == d[i].key
    ensures IsPhiField(d[i].key, extras) && d[i].val != VNone ==>
      RedactDict(d, extras)[i].val == VStr(Marker)
    ensures d[i].val == VNone ==> RedactDict(d, extras)[i].val == VNone
    ensures !IsPhiField(d[i].key, extras) && d[i].val.VDict? ==>
      RedactDict(d, extras)[i].val == VDict(RedactDict(d[i].val.entries, extras))
    ensures !IsPhiField(d[i].key, extras) && d[i].val.VList? ==>
      var items := d[i].val.items;
      && RedactDict(d, extras)[i].val.VList?
      && |RedactDict(d, extras)[i].val.items| == |items|
      && forall k :: 0 <= k < |items| ==>
           RedactDict(d, extras)[i].val.items[k] ==
             if items[k].VDict? then VDict(RedactDict(items[k].entries, extras)) else items[k]
    ensures !IsPhiField(d[i].key, extras) && !d[i].val.VDict? && !d[i].val.VList? ==>
      RedactDict(d, extras)[i].val == d[i].val
  {
    RedactDictAt(d, extras, i);
    var v := d[i].val;
    if !IsPhiField(d[i].key, extras) && v.VList? {
      RedactItemsLength(v.items, extras, false);
      forall k | 0 <= k < |v.items| ensures RedactItems(v.items, extras, false)[k] ==
        if v.items[k].VDict? then VDict(RedactDict(v.items[k].entries, extras)) else v.items[k]
      {
        RedactItemsAt(v.items, extras, false, k);
      }
    }
  }

  // No PHI value is left, at any depth the redactor walks.

  predicate CleanDict(d: Dict, extras: set<string>)
    decreases d
  {
    d == [] || (CleanEntry(d[0], extras) && CleanDict(d[1..], extras))
  }

  /** Under a PHI key only None or the marker; below, the nested dicts are clean too. */
  predicate CleanEntry(e: Entry, extras: set<string>)
    decreases e
  {
    && (IsPhiField(e.key, extras) ==> e.val == VNone || e.val == VStr(Marker))
    && match e.val
       case VDict(inner) => CleanDict(inner, extras)
       case VList(items) => CleanItems(items, extras)
       case _ => true
  }

  /** The dicts directly inside a list are clean; other elements are not walked. */
  predicate CleanItems(items: seq<Value>, extras: set<string>)
    decreases items
  {
    items == [] ||
    ((items[0].VDict? ==> CleanDict(items[0].entries, extras)) && CleanItems(items[1..], extras))
  }

  lemma {:induction false} RedactDictClean(d: Dict, extras: set<string>)
    ensures CleanDict(RedactDict(d, extras), extras)
    decreases d
  {
    if d != [] {
      RedactEntryClean(d[0], extras);
      RedactDictClean(d[1..], extras);
    }
  }

  lemma {:induction false} RedactEntryClean(e: Entry, extras: set<string>)
    ensures CleanEntry(RedactEntry(e, extras), extras)
    decreases e
  {
    var phi := IsPhiField(e.key, extras);
    if !(phi && e.val != VNone) {
      match e.val
      case VDict(inner) => RedactDictClean(inner, extras);
      case VList(items) => RedactItemsClean(items, extras, phi);
      case _ =>
    }
  }

  lemma {:induction false} RedactItemsClean(items: seq<Value>, extras: set<string>, phi: bool)
    ensures CleanItems(RedactItems(items, extras, phi), extras)
    decreases items
  {
    if items != [] {
      if items[0].VDict? { RedactDictClean(items[0].entries, extras); }
      RedactItemsClean(items[1..], extras, phi);
    }
  }

  /** Redacting twice is redacting once. */
  lemma {:induction false} RedactDictIdempotent(d: Dict, extras: set<string>)
    ensures RedactDict(RedactDict(d, extras), extras) == RedactDict(d, extras)
    decreases d
  {
    if d != [] {
      RedactEntryIdempotent(d[0], extras);
      RedactDictIdempotent(d[1..], extras);
      assert RedactDict(d, extras)[1..] == RedactDict(d[1..], extras);
    }
  }

  lemma {:induction false} RedactEntryIdempotent(e: Entry, extras: set<string>)
    ensures RedactEntry(RedactEntry(e, extras), extras) == RedactEntry(e, extras)
    decreases e
  {
    var phi := IsPhiField(e.key, extras);
    if !(phi && e.val != VNone) {
      match e.val
      case VDict(inner) => RedactDictIdempotent(inner, extras);
      case VList(items) => RedactItemsIdempotent(items, extras, phi);
      case _ =>
    }
  }

  lemma {:induction false} RedactItemsIdempotent(items: seq<Value>, extras: set<string>, phi: bool)
    ensures RedactItems(RedactItems(items, extras, phi), extras, phi) == RedactItems(items, extras, phi)
    decreases items
  {
    if items != [] {
      if items[0].VDict? { RedactDictIdempotent(items[0].entries, extras); }
      RedactItemsIdempotent(items[1..], extras, phi);
      assert RedactItems(items, extras, phi)[1..] == RedactItems(items[1..], extras, phi);
    }
  }

  /** A list nested directly in a list is copied as it is, PHI keys and all. */
  lemma {:induction false} NestedListNotWalked()
    ensures var d := [Entry("info", VList([VList([VDict([Entry("ssn", VStr("123-45-6789"))])])]))];
      RedactDict(d, {}) == d
  {
    var inner := VList([VDict([Entry("ssn", VStr("123-45-6789"))])]);
    NoPhiWithoutABS("info");
    assert RedactItems([inner], {}, false) == [inner];
    assert RedactEntry(Entry("info", VList([inner])), {}) == Entry("info", VList([inner]));
  }

  /** A field name holding a character the key lacks does not occur in it. */
  lemma {:induction false} MissingChar(hay: string, needle: string, c: char)
    requires c in needle && c !in hay
    ensures !Contains(hay, needle)
  {
    var k :| 0 <= k < |needle| && needle[k] == c;
    forall i: nat ensures !OccursAt(hay, needle, i) {
      if i + |needle| <= |hay| {
        assert hay[i..i + |needle|][k] == hay[i + k];
      }
    }
    ContainsIff(hay, needle);
  }

  /** Every PHI field name holds an `a`, an `s` or a `b`. */
  lemma {:induction false} FieldsHaveABS(j: nat)
    requires j < |PhiFieldList|
    ensures 'a' in PhiFieldList[j] || 's' in PhiFieldList[j] || 'b' in PhiFieldList[j]
  {
  }

  lemma {:induction false} AbsentLetter(key: string, f: string, k: nat)
    requires forall i :: 0 <= i < |key| ==> key[i] !in "aAsSbB"
    requires k < |f| && f[k] in "asb"
    ensures !Contains(LowerStr(key), LowerStr(f))
  {
    var c := f[k];
    var hay := LowerStr(key);
    assert LowerStr(f)[k] == c;
    forall i | 0 <= i < |hay| ensures hay[i] != c {
      assert key[i] !in "aAsSbB";
    }
    MissingChar(hay, LowerStr(f), c);
  }

  /** So a key with none of those letters, in either case, is not a PHI key. */
  lemma {:induction false} NoPhiWithoutABS(key: string)
    requires forall i :: 0 <= i < |key| ==> key[i] !in "aAsSbB"
    ensures !IsPhiField(key, {})
  {
    var hay := LowerStr(key);
    forall j | 0 <= j < |PhiFieldList| ensures !Contains(hay, LowerStr(PhiFieldList[j])) {
      var f := PhiFieldList[j];
      FieldsHaveABS(j);
      var k :| 0 <= k < |f| && f[k] in "asb";
      AbsentLetter(key, f, k);
    }
  }

  const TestRecord: Dict := [Entry("patient_id", VStr("pat_123")), Entry("encounter_id", VStr("enc_456")),
                             Entry("provider_id", VStr("prov_789"))]

  const TestRecordRedacted: Dict := [Entry("patient_id", VStr(Marker)), Entry("encounter_id", VStr("enc_456")),
                                     Entry("provider_id", VStr("prov_789"))]

  lemma {:induction false} TestRecordPatient()
    ensures |RedactDict(TestRecord, {})| == 3 && RedactDict(TestRecord, {})[0] == TestRecordRedacted[0]
  {
    PatientIdIsPhi();
    RedactDictValue(TestRecord, {}, 0);
  }

  lemma {:induction false} TestRecordEncounter()
    ensures |RedactDict(TestRecord, {})| == 3 && RedactDict(TestRecord, {})[1] == TestRecordRedacted[1]
  {
    EncounterIdNotPhi();
    RedactDictValue(TestRecord, {}, 1);
  }

  lemma {:induction false} TestRecordProvider()
    ensures |RedactDict(TestRecord, {})| == 3 && RedactDict(TestRecord, {})[2] == TestRecordRedacted[2]
  {
    ProviderIdNotPhi();
    RedactDictValue(TestRecord, {}, 2);
  }

  /** The test's record: `patient_id` is replaced, the encounter and provider ids
      are kept. */
  lemma {:induction false} TestRecordExample()
    ensures RedactDict(TestRecord, {}) == TestRecordRedacted
  {
    TestRecordPatient();
    TestRecordEncounter();
    TestRecordProvider();
  }

  lemma {:induction false} EncounterIdNotPhi()
    ensures !IsPhiField("encounter_id", {})
  {
    var key := "encounter_id";
    assert forall i :: 0 <= i < |key| ==> key[i] !in "aAsSbB";
    NoPhiWithoutABS(key);
  }

  lemma {:induction false} ProviderIdNotPhi()
    ensures !IsPhiField("provider_id", {})
  {
    var key := "provider_id";
    assert forall i :: 0 <= i < |key| ==> key[i] !in "aAsSbB";
    NoPhiWithoutABS(key);
  }

  lemma {:induction false} PatientIdIsPhi()
    ensures IsPhiField("patient_id", {})
  {
    LowerStrNoUpper("patient_id");
    assert PhiFieldList[0] == "patient_id";
    assert "patient_id" <= "patient_id";
  }

  lemma {:induction false} LowerStrNoUpper(s: string)
    requires forall i :: 0 <= i < |s| ==> !IsUpper(s[i])
    ensures LowerStr(s) == s
  {
  }

  /** `ip_address` is a PHI key, through `address`. */
  lemma {:induction false} IpAddressIsPhi(extras: set<string>)
    ensures IsPhiField("ip_address", extras)
  {
    var f := PhiFieldList[13];
    assert f == "address";
    var key := "ip_" + f;
    assert key == "ip_address";
    LowerStrNoUpper(f);
    LowerStrNoUpper("ip_");
    LowerStrAppend("ip_", f);
    ContainsMiddle("ip_", f, "");
    assert "ip_" + f + "" == LowerStr(key);
    FieldInKeyIsPhi(key, extras, 13);
  }

  lemma {:induction false} FieldInKeyIsPhi(key: string, extras: set<string>, j: nat)
    requires j < |PhiFieldList| && Contains(LowerStr(key), LowerStr(PhiFieldList[j]))
    ensures IsPhiField(key, extras)
  {
  }

  // ---------------------------------------------------------------------
  // sanitize_error_message

  /** The context only ever decides whether a fixed note is appended: no part of
      it reaches the output. Without a context, or with an empty one, the output
      is the redacted message. */
  lemma {:induction false} SanitizeOutcome(msg: string, context: Option<Dict>)
    ensures var out := SanitizeErrorMessage(msg, context);
      && (out == RedactPhi(msg) || out == RedactPhi(msg) + ContextSuffix)
      && (out == RedactPhi(msg) + ContextSuffix <==>
           context.Some? && context.value != [] && ContextMentionsPhi(context.value))
      && (context.None? || context == Some([]) ==> out == RedactPhi(msg))
  {
    assert |ContextSuffix| > 0;
    var r := RedactPhi(msg);
    assert r + ContextSuffix != r by { assert |r + ContextSuffix| != |r|; }
  }

  /** A field name with an upper-case letter, used as written, never occurs in a
      lower-cased text: the camelCase PHI fields never trigger the note. */
  lemma {:induction false} CamelCaseNeverTriggers(text: string, j: nat)
    requires j < |PhiFieldList| && LowerStr(PhiFieldList[j]) != PhiFieldList[j]
    ensures !Contains(LowerStr(text), PhiFieldList[j])
  {
    var f := PhiFieldList[j];
    var k :| 0 <= k < |f| && LowerStr(f)[k] != f[k];
    NoUpperInLowered(text, f, k);
  }

  lemma {:induction false} ContainsSuffix(a: string, b: string, needle: string)
    requires Contains(b, needle)
    ensures Contains(a + b, needle)
  {
    ContainsMiddle(a, b, "");
    assert a + b + "" == a + b;
    ContainsTrans(a + b, b, needle);
  }

  /** Every key of a dict appears, quoted, in its `repr`. */
  lemma {:induction false} KeyInReprEntries(entries: seq<Entry>, i: nat)
    requires i < |entries|
    ensures Contains(ReprEntries(entries), StrRepr(entries[i].key))
    decreases i
  {
    var e := entries[0];
    var first := StrRepr(e.key) + ": " + Repr(e.val);
    if i == 0 {
      var tail := if |entries| == 1 then "" else ", " + ReprEntries(entries[1..]);
      assert ReprEntries(entries) == "" + StrRepr(e.key) + (": " + Repr(e.val) + tail);
      ContainsMiddle("", StrRepr(e.key), ": " + Repr(e.val) + tail);
    } else {
      KeyInReprEntries(entries[1..], i - 1);
      assert ReprEntries(entries) == (first + ", ") + ReprEntries(entries[1..]);
      ContainsSuffix(first + ", ", ReprEntries(entries[1..]), StrRepr(entries[i].key));
    }
  }

  /** A key made of letters, digits and underscores is written unescaped. */
  lemma {:induction false} PlainKeyInDictStr(d: Dict, i: nat)
    requires i < |d| && forall k :: 0 <= k < |d[i].key| ==> Plain(d[i].key[k])
    ensures Contains(DictStr(d), d[i].key)
  {
    var key := d[i].key;
    var q := if '\'' in key && '"' !in key then '"' else '\'';
    EscapePlain(key, q);
    assert StrRepr(key) == [q] + key + [q];
    ContainsMiddle([q], key, [q]);
    KeyInReprEntries(d, i);
    ContainsTrans(ReprEntries(d), StrRepr(key), key);
    assert DictStr(d) == "{" + ReprEntries(d) + "}";
    ContainsMiddle("{", ReprEntries(d), "}");
    ContainsTrans(DictStr(d), ReprEntries(d), key);
  }

  /** A context with a plainly spelled key whose lower-cased name holds a
      snake_case PHI field gets the note. */
  lemma {:induction false} ContextKeyTriggers(msg: string, context: Dict, i: nat, j: nat)
    requires i < |context| && forall k :: 0 <= k < |context[i].key| ==> Plain(context[i].key[k])
    requires j < |PhiFieldList| && Contains(LowerStr(context[i].key), PhiFieldList[j])
    ensures SanitizeErrorMessage(msg, Some(context)) == RedactPhi(msg) + ContextSuffix
  {
    PlainKeyInDictStr(context, i);
    ContainsLower(DictStr(context), context[i].key);
    ContainsTrans(LowerStr(DictStr(context)), LowerStr(context[i].key), PhiFieldList[j]);
  }

  lemma {:induction false} PatientIdContextTriggers(msg: string, v: Value)
    ensures SanitizeErrorMessage(msg, Some([Entry("patient_id", v)])) == RedactPhi(msg) + ContextSuffix
  {
    var key := PhiFieldList[0];
    assert key == "patient_id";
    PatientIdPlain();
    LowerStrNoUpper(key);
    assert Contains(LowerStr(key), key) by { assert key <= key; }
    var ctx := [Entry(key, v)];
    assert ctx[0].key == key;
    ContextKeyTriggers(msg, ctx, 0, 0);
  }

  lemma {:induction false} PatientIdPlain()
    ensures forall k :: 0 <= k < |PhiFieldList[0]| ==> Plain(PhiFieldList[0][k])
  {
    var key := "patient_id";
    assert PhiFieldList[0] == key;
    assert forall k :: 0 <= k < |key| ==> Plain(key[k]);
  }

  /** `sanitize_error_message("Error occurred", {"patient_id": ...})`. */
  lemma {:induction false} SanitizeExample(v: Value)
    ensures SanitizeErrorMessage("Error occurred", Some([Entry("patient_id", v)])) ==
      "Error occurred" + ContextSuffix
  {
    PatientIdContextTriggers("Error occurred", v);
    ErrorOccurredInert();
  }

  lemma {:induction false} ErrorOccurredInert()
    ensures RedactPhi("Error occurred") == "Error occurred"
  {
    var m := "Error occurred";
    assert forall k :: 0 <= k < |m| ==> !IsDigit(m[k]) && m[k] != '@';
    InertUnchanged(m);
  }

  // ---------------------------------------------------------------------
  // log_safely

  /** The message and every string argument are redacted; other arguments are
      passed on as they are, in order. */
  lemma {:induction false} LogSafelyArgs(level: int, message: string, args: seq<Value>, kwargs: Dict)
    ensures var call := LogSafely(level, message, args, kwargs);
      && call.level == level
      && call.message == RedactPhi(message)
      && |call.args| == |args|
      && forall i :: 0 <= i < |args| ==>
           call.args[i] == (if args[i].VStr? then VStr(RedactPhi(args[i].s)) else args[i])
  {
  }

  /** `exc_info` leaves the keyword arguments and comes back, last and unchanged,
      only when truthy (a missing one counts as False). */
  lemma {:induction false} LogSafelyExcInfo(level: int, message: string, args: seq<Value>, kwargs: Dict)
    ensures var call := LogSafely(level, message, args, kwargs);
      var rest := Without(kwargs, "exc_info");
      match Get(kwargs, "exc_info")
      case Some(v) =>
        if Truthy(v) then call.kwargs == SafeKwargs(rest) + [Entry("exc_info", v)]
        else call.kwargs == SafeKwargs(rest)
      case None => call.kwargs == SafeKwargs(rest)
    ensures "exc_info" in Keys(LogSafely(level, message, args, kwargs).kwargs) <==>
      Get(kwargs, "exc_info").Some? && Truthy(Get(kwargs, "exc_info").value)
  {
    var rest := Without(kwargs, "exc_info");
    SafeKwargsKeys(rest);
    var call := LogSafely(level, message, args, kwargs);
    if Get(kwargs, "exc_info").Some? && Truthy(Get(kwargs, "exc_info").value) {
      assert Keys(call.kwargs)[|call.kwargs| - 1] == "exc_info";
    }
  }

  lemma {:induction false} SafeKwargsKeys(kwargs: Dict)
    ensures Keys(SafeKwargs(kwargs)) == Keys(kwargs)
    decreases kwargs
  {
    if kwargs != [] {
      SafeKwargsKeys(kwargs[1..]);
    }
  }

  /** Each remaining keyword argument keeps its name; its value becomes the marker
      when the lower-cased name equals a lower-cased PHI field, is redacted when a
      string, goes through `redact_dict` with no extra fields when a dict, and is
      kept otherwise. */
  lemma {:induction false} SafeKwargsValues(kwargs: Dict, i: nat)
    requires i < |kwargs|
    ensures var r := SafeKwargs(kwargs)[i];
      var k := kwargs[i];
      && r.key == k.key
      && (IsPhiKwarg(k.key) ==> r.val == VStr(Marker))
      && (!IsPhiKwarg(k.key) && k.val.VStr? ==> r.val == VStr(RedactPhi(k.val.s)))
      && (!IsPhiKwarg(k.key) && k.val.VDict? ==> r.val == VDict(RedactDict(k.val.entries, {})))
      && (!IsPhiKwarg(k.key) && !k.val.VStr? && !k.val.VDict? ==> r == k)
  {
    SafeKwargCases(kwargs[i]);
  }

  lemma {:induction false} SafeKwargCases(e: Entry)
    ensures var r := SafeKwarg(e);
      && r.key == e.key
      && (IsPhiKwarg(e.key) ==> r.val == VStr(Marker))
      && (!IsPhiKwarg(e.key) && e.val.VStr? ==> r.val == VStr(RedactPhi(e.val.s)))
      && (!IsPhiKwarg(e.key) && e.val.VDict? ==> r.val == VDict(RedactDict(e.val.entries, {})))
      && (!IsPhiKwarg(e.key) && !e.val.VStr? && !e.val.VDict? ==> r == e)
  {
  }

  /** Keyword names are compared whole, not by substring: `patient_id_hash` is a
      PHI key for `redact_dict` but not for `log_safely`. */
  lemma {:induction false} KwargNameMustEqual()
    ensures IsPhiField("patient_id_hash", {}) && !IsPhiKwarg("patient_id_hash")
  {
    HashKeyIsPhiField();
    HashKeyNotPhiKwarg();
  }

  lemma {:induction false} HashKeyIsPhiField()
    ensures IsPhiField("patient_id_hash", {})
  {
    var f := PhiFieldList[0];
    assert f == "patient_id";
    var key := f + "_hash";
    assert key == "patient_id_hash";
    LowerStrNoUpper(f);
    LowerStrAppend(f, "_hash");
    assert LowerStr(f) <= LowerStr(key);
    assert Contains(LowerStr(key), LowerStr(f));
    FieldInKeyIsPhi(key, {}, 0);
  }

  lemma {:induction false} HashKeyNotPhiKwarg()
    ensures !IsPhiKwarg("patient_id_hash")
  {
    assert forall j :: 0 <= j < |PhiFieldList| ==> |PhiFieldList[j]| != 15;
    forall j | 0 <= j < |PhiFieldList|
      ensures LowerStr("patient_id_hash") != LowerStr(PhiFieldList[j])
    {
      assert |LowerStr(PhiFieldList[j])| != 15;
    }
  }

  // ---------------------------------------------------------------------
  // PHIRedactingFormatter.format

  /** A rendered record with neither a digit nor an `@` is emitted as it is, and
      the formatter never undoes its own marker. */
  lemma {:induction false} FormatterPassesInert(rendered: string)
    requires Inert(rendered)
    ensures FormatRecord(rendered) == rendered
    ensures FormatRecord(Marker) == Marker
  {
    InertUnchanged(rendered);
    MarkerFixed();
  }
}
