/**
 * The two encounter endpoints as transitions of the store: creating an
 * encounter (and the audit event that records it) and reading one back, with
 * the optional filter check and the audit event of the access. Each handler
 * gets what the framework would supply (the validated payload, the request,
 * the current user's dictionary) and, as parameters, what the runtime would
 * generate: the new ids, the clock readings and the text of pydantic's
 * validation report.
 */
module EncounterRoutes {
  import opened Wrappers
  import opened PyText
  import opened PyValue
  import opened PhiRedaction
  import opened PhiPatternProps
  import opened PhiRedactionProps
  import opened EncounterModel
  import opened AuditModel
  import opened Storage
  import opened Deps

  /** What a handler answers: the response model with its status code, or the
      `HTTPException` it raises. */
  datatype Reply<T> = Success(status: int, body: T) | Failure(status: int, detail: string)

  const CreateFailedMessage: string := "An error occurred while creating the encounter"

  const RetrieveFailedMessage: string := "An error occurred while retrieving the encounter"

  const NoMatchMessage: string := "Encounter does not match filter criteria"

  /** `{"error_type": type(e).__name__}`. */
  function ErrorTypeContext(name: string): Dict
  {
    [Entry("error_type", VStr(name))]
  }

  /** The audit event a handler records for `req`, before the store stamps it
      with its id and the time. */
  function RequestEvent(eventId: string, eventType: string, resourceId: string, userId: string,
                        timestamp: int, req: Request, data: Dict): AuditEvent
  {
    AuditEvent(eventId, eventType, "encounter", resourceId, userId, timestamp,
               GetClientIp(req), HeaderGet(req.headers, "User-Agent"), Some(data))
  }

  /** `any([patient_id, provider_id, encounter_type, start_date, end_date])`:
      an empty id is falsy; an enumeration member and a date never are. */
  predicate AnyFilter(f: EncounterFilter)
  {
    Given(f.patientId) || Given(f.providerId) || f.encounterType.Some? || f.startDate.Some? || f.endDate.Some?
  }

  /** With no truthy filter value every encounter matches, so skipping the
      check refuses nothing the listing would have kept. */
  lemma {:induction false} NoFilterMatchesAll(f: EncounterFilter, e: Encounter)
    requires !AnyFilter(f)
    ensures MatchesEncounter(e, f)
    ensures SelectEncounters([e], f) == [e]
  {
    SelectEncountersUnfiltered([e], f);
  }

  /** The `filters_applied` record of an access: which parameters were
      passed at all (`is not None`), whatever their truthiness. */
  function FiltersApplied(patientId: Option<string>, providerId: Option<string>,
                          encounterType: Option<EncounterType>,
                          startDate: Option<int>, endDate: Option<int>): (d: Dict)
    ensures Keys(d) == ["filters_applied"]
  {
    [Entry("filters_applied", VDict([
      Entry("patient_id", VBool(patientId.Some?)),
      Entry("provider_id", VBool(providerId.Some?)),
      Entry("encounter_type", VBool(encounterType.Some?)),
      Entry("date_range", VBool(startDate.Some? || endDate.Some?))]))]
  }

  /** `POST /encounters`. A user dictionary without `user_id` fails with 500
      and a user id that is not a string fails pydantic's check of
      `created_by` (422); neither changes the store. Otherwise the encounter
      is stored last, then one `encounter_created` event naming its type is
      appended to the audit trail, and the record is answered with 201. */
  method CreateEncounterRoute(store: InMemoryStorage, data: EncounterCreate, req: Request, user: Dict,
                              encounterId: string, now: int, hex: string, auditNow: int, userReport: string)
    returns (reply: Reply<Encounter>)
    requires store.Valid()
    requires Validated(data) && encounterId !in store.encounters
    requires |hex| == 32 && "audit_" + hex[..12] !in store.auditEvents
    modifies store
    ensures store.Valid()
    ensures Get(user, "user_id").None? ==>
              reply == Failure(500, SanitizeErrorMessage(CreateFailedMessage, Some(ErrorTypeContext("KeyError"))))
    ensures Get(user, "user_id").Some? && !Get(user, "user_id").value.VStr? ==>
              reply == Failure(422, SanitizeErrorMessage("Validation error: " + userReport, None))
    ensures reply.Failure? ==> unchanged(store)
    ensures reply.Success? <==> Get(user, "user_id").Some? && Get(user, "user_id").value.VStr?
    ensures reply.Success? ==>
              var e := NewEncounter(encounterId, data, now, Get(user, "user_id").value.s);
              && reply == Success(201, e)
              && store.Encounters() == old(store.Encounters()) + [e]
              && store.AuditEvents() == old(store.AuditEvents()) + [
                   RequestEvent("audit_" + hex[..12], "encounter_created", encounterId, e.createdBy, auditNow, req,
                                [Entry("encounter_type", VStr(TypeValue(e.encounterType)))])]
  {
    var userId := Get(user, "user_id");
    if userId.None? {
      return Failure(500, SanitizeErrorMessage(CreateFailedMessage, Some(ErrorTypeContext("KeyError"))));
    }
    if !userId.value.VStr? {
      return Failure(422, SanitizeErrorMessage("Validation error: " + userReport, None));
    }
    var uid := userId.value.s;
    var e := store.CreateEncounter(data, encounterId, now, uid);
    var ip := GetClientIp(req);
    var userAgent := HeaderGet(req.headers, "User-Agent");
    var _ := store.CreateAuditEvent("encounter_created", "encounter", e.encounterId, uid, ip, userAgent,
                                    Some([Entry("encounter_type", VStr(TypeValue(e.encounterType)))]), hex, auditNow);
    reply := Success(201, e);
  }

  /** `GET /encounters/{encounter_id}`. In the code's order: a missing
      `user_id` fails with 500, an unknown id with 404, an end date before the
      start date with 422, an encounter the given filters do not match with
      404 and a user id that is not a string with 422 (pydantic's check of the
      audit event); none of these changes the store. Otherwise one
      `encounter_accessed` event recording which filters were passed is
      appended to the audit trail and the stored encounter is answered. */
  method GetEncounterRoute(store: InMemoryStorage, encounterId: string, req: Request, user: Dict,
                           patientId: Option<string>, providerId: Option<string>,
                           encounterType: Option<EncounterType>, startDate: Option<int>, endDate: Option<int>,
                           hex: string, now: int, rangeReport: string, userReport: string)
    returns (reply: Reply<Encounter>)
    requires store.Valid()
    requires |hex| == 32 && "audit_" + hex[..12] !in store.auditEvents
    modifies store
    ensures store.Valid()
    ensures reply.Failure? ==> unchanged(store)
    ensures Get(user, "user_id").None? ==>
              reply == Failure(500, SanitizeErrorMessage(RetrieveFailedMessage, Some(ErrorTypeContext("KeyError"))))
    ensures Get(user, "user_id").Some? && encounterId !in old(store.encounters) ==>
              reply == Failure(404, SanitizeErrorMessage("Encounter not found: " + encounterId, None))
    ensures (&& Get(user, "user_id").Some? && encounterId in old(store.encounters)
             && startDate.Some? && endDate.Some? && endDate.value < startDate.value) ==>
              reply == Failure(422, SanitizeErrorMessage("Invalid filter parameter: " + rangeReport, None))
    ensures (var f := EncounterFilter(patientId, providerId, encounterType, startDate, endDate);
             && Get(user, "user_id").Some? && encounterId in old(store.encounters)
             && ValidateDateRange(startDate, endDate).Ok?
             && AnyFilter(f) && !MatchesEncounter(old(store.encounters)[encounterId], f)) ==>
              reply == Failure(404, SanitizeErrorMessage(NoMatchMessage, None))
    ensures (var f := EncounterFilter(patientId, providerId, encounterType, startDate, endDate);
             && Get(user, "user_id").Some? && !Get(user, "user_id").value.VStr?
             && encounterId in old(store.encounters)
             && ValidateDateRange(startDate, endDate).Ok?
             && (AnyFilter(f) ==> MatchesEncounter(old(store.encounters)[encounterId], f))) ==>
              reply == Failure(422, SanitizeErrorMessage("Invalid filter parameter: " + userReport, None))
    ensures reply.Success? <==>
              var f := EncounterFilter(patientId, providerId, encounterType, startDate, endDate);
              && Get(user, "user_id").Some? && Get(user, "user_id").value.VStr?
              && encounterId in old(store.encounters)
              && ValidateDateRange(startDate, endDate).Ok?
              && (AnyFilter(f) ==> MatchesEncounter(old(store.encounters)[encounterId], f))
    ensures reply.Success? ==>
              && reply == Success(200, old(store.encounters)[encounterId])
              && store.encounters == old(store.encounters)
              && store.Encounters() == old(store.Encounters())
              && store.AuditEvents() == old(store.AuditEvents()) + [
                   RequestEvent("audit_" + hex[..12], "encounter_accessed", encounterId, Get(user, "user_id").value.s,
                                now, req, FiltersApplied(patientId, providerId, encounterType, startDate, endDate))]
  {
    var userId := Get(user, "user_id");
    if userId.None? {
      return Failure(500, SanitizeErrorMessage(RetrieveFailedMessage, Some(ErrorTypeContext("KeyError"))));
    }
    var found := store.GetEncounter(encounterId);
    if found.None? {
      return Failure(404, SanitizeErrorMessage("Encounter not found: " + encounterId, None));
    }
    var encounter := found.value;
    var filters := MakeEncounterFilter(patientId, providerId, encounterType, startDate, endDate);
    if filters.Err? {
      return Failure(422, SanitizeErrorMessage("Invalid filter parameter: " + rangeReport, None));
    }
    if AnyFilter(filters.value) {
      var matching := store.ListEncounters(Some(filters.value));
      store.StoredIsListed(encounterId);
      SelectEncountersMembers(store.Encounters(), filters.value, encounter);
      if encounter !in matching {
        return Failure(404, SanitizeErrorMessage(NoMatchMessage, None));
      }
    }
    if !userId.value.VStr? {
      return Failure(422, SanitizeErrorMessage("Invalid filter parameter: " + userReport, None));
    }
    var uid := userId.value.s;
    var ip := GetClientIp(req);
    var userAgent := HeaderGet(req.headers, "User-Agent");
    var _ := store.CreateAuditEvent("encounter_accessed", "encounter", encounterId, uid, ip, userAgent,
                                    Some(FiltersApplied(patientId, providerId, encounterType, startDate, endDate)),
                                    hex, now);
    reply := Success(200, encounter);
  }

  /** The fixed refusals reach the client as written: none holds a digit or
      an `@`, and the error-type context names no PHI field. */
  lemma {:induction false} FixedDetailsKept()
    ensures SanitizeErrorMessage(NoMatchMessage, None) == NoMatchMessage
    ensures SanitizeErrorMessage(CreateFailedMessage, Some(ErrorTypeContext("KeyError"))) == CreateFailedMessage
    ensures SanitizeErrorMessage(RetrieveFailedMessage, Some(ErrorTypeContext("KeyError"))) == RetrieveFailedMessage
  {
    NoMatchInert();
    CreateFailedInert();
    RetrieveFailedInert();
    InertUnchanged(NoMatchMessage);
    InertUnchanged(CreateFailedMessage);
    InertUnchanged(RetrieveFailedMessage);
    KeyErrorContextClean();
  }

  lemma {:induction false} NoMatchInert()
    ensures Inert(NoMatchMessage)
  {
    var a := NoMatchMessage;
    assert forall k :: 0 <= k < |a| ==> !IsDigit(a[k]) && a[k] != '@';
  }

  lemma {:induction false} CreateFailedInert()
    ensures Inert(CreateFailedMessage)
  {
    ErrorPrefixInert();
    var b := "creating the encounter";
    assert forall k :: 0 <= k < |b| ==> !IsDigit(b[k]) && b[k] != '@';
    InertAppend("An error occurred while ", b);
  }

  lemma {:induction false} RetrieveFailedInert()
    ensures Inert(RetrieveFailedMessage)
  {
    ErrorPrefixInert();
    var b := "retrieving the encounter";
    assert forall k :: 0 <= k < |b| ==> !IsDigit(b[k]) && b[k] != '@';
    InertAppend("An error occurred while ", b);
  }

  lemma {:induction false} ErrorPrefixInert()
    ensures Inert("An error occurred while ")
  {
    var a := "An error occurred while ";
    assert forall k :: 0 <= k < |a| ==> !IsDigit(a[k]) && a[k] != '@';
  }

  lemma {:induction false} InertAppend(x: string, y: string)
    requires Inert(x) && Inert(y)
    ensures Inert(x + y)
  {
    assert forall k :: 0 <= k < |y| ==> (x + y)[|x| + k] == y[k];
  }

  /** `str({'error_type': 'KeyError'}).lower()` contains no PHI field name. */
  lemma {:induction false} KeyErrorContextClean()
    ensures !ContextMentionsPhi(ErrorTypeContext("KeyError"))
  {
    var k, v := "error_type", "KeyError";
    assert forall i :: 0 <= i < |k| ==> Plain(k[i]);
    assert forall i :: 0 <= i < |v| ==> Plain(v[i]);
    SingleEntryClean(k, v);
  }

  /** A one-entry context of plain text with no `a`, `s` or `d` in either
      case mentions no PHI field: each of those names holds one of the
      three letters. */
  lemma {:induction false} SingleEntryClean(k: string, v: string)
    requires forall i :: 0 <= i < |k| ==> Plain(k[i])
    requires forall i :: 0 <= i < |v| ==> Plain(v[i])
    requires forall x :: x in "asdASD" ==> x !in k && x !in v
    ensures !ContextMentionsPhi([Entry(k, VStr(v))])
  {
    var raw := DictStr([Entry(k, VStr(v))]);
    SingleEntryChars(k, v);
    var text := LowerStr(raw);
    LowerAvoids(raw, 'a');
    LowerAvoids(raw, 's');
    LowerAvoids(raw, 'd');
    forall j | 0 <= j < |PhiFieldList| ensures !Contains(text, PhiFieldList[j]) {
      var c := FieldLetter(j);
      MissingChar(text, PhiFieldList[j], c);
    }
  }

  /** `str({k: v})` for plain `k` and `v` is made of their characters, the
      quotes, the braces, the colon and a space. */
  lemma {:induction false} SingleEntryChars(k: string, v: string)
    requires forall i :: 0 <= i < |k| ==> Plain(k[i])
    requires forall i :: 0 <= i < |v| ==> Plain(v[i])
    ensures forall x :: x in DictStr([Entry(k, VStr(v))]) ==> x in k || x in v || x in "{}': "
  {
    PlainRepr(k);
    PlainRepr(v);
    assert ReprEntries([Entry(k, VStr(v))]) == StrRepr(k) + ": " + Repr(VStr(v));
    assert DictStr([Entry(k, VStr(v))]) == "{" + ("'" + k + "'") + ": " + ("'" + v + "'") + "}";
  }

  /** `repr` of plain text is the text in single quotes. */
  lemma {:induction false} PlainRepr(s: string)
    requires forall i :: 0 <= i < |s| ==> Plain(s[i])
    ensures StrRepr(s) == "'" + s + "'"
  {
    EscapePlain(s, '\'');
    assert '\'' !in s;
  }

  /** Lower-casing brings in a lower-case letter only where the text has it
      in one case or the other. */
  lemma {:induction false} LowerAvoids(s: string, c: char)
    requires IsLower(c) && c !in s && Upper(c) !in s
    ensures c !in LowerStr(s)
  {
    forall i | 0 <= i < |s| ensures LowerStr(s)[i] != c {
      assert s[i] != c && s[i] != Upper(c);
    }
  }

  /** A letter each PHI field name holds. */
  lemma {:induction false} FieldLetter(j: nat) returns (c: char)
    requires j < |PhiFieldList|
    ensures c in "asd" && c in PhiFieldList[j]
  {
    var field := PhiFieldList[j];
    if j == 8 || j == 9 {
      c := 's';
      assert field[0] == c;
    } else if j == 12 {
      c := 'd';
      assert field[0] == c;
    } else if j == 13 {
      c := 'a';
      assert field[0] == c;
    } else if j == 14 || j == 15 {
      c := 'd';
      assert field[2] == c;
    } else {
      c := 'a';
      assert field[1] == c;
    }
  }
}
