/**
 * The encounter records: the encounter type enumeration, the field
 * validators of the create payload, the stored record, and the filter with
 * its date-range check. Field types are taken as already coerced (a date is a
 * point in time, an instant number); only the checks the code itself writes are
 * modelled, plus the `min_length=1` constraint on the two id fields.
 */
module EncounterModel {
  import opened Wrappers
  import opened PyText
  import opened PyValue

  // ---------------------------------------------------------------------
  // EncounterType

  datatype EncounterType =
    | InitialAssessment
    | FollowUp
    | TreatmentSession
    | Consultation
    | Discharge

  /** The enumeration member's string value (`.value`). */
  function TypeValue(t: EncounterType): string
  {
    match t
    case InitialAssessment => "initial_assessment"
    case FollowUp => "follow_up"
    case TreatmentSession => "treatment_session"
    case Consultation => "consultation"
    case Discharge => "discharge"
  }

  /** `EncounterType(s)`: the member whose value is exactly `s`, if any. */
  function ParseType(s: string): Option<EncounterType>
  {
    if s == "initial_assessment" then Some(InitialAssessment)
    else if s == "follow_up" then Some(FollowUp)
    else if s == "treatment_session" then Some(TreatmentSession)
    else if s == "consultation" then Some(Consultation)
    else if s == "discharge" then Some(Discharge)
    else None
  }

  /** Every member parses back from its value. */
  lemma ParseTypeValue(t: EncounterType)
    ensures ParseType(TypeValue(t)) == Some(t)
  {
  }

  /** Only the five values parse, and each names the member that parsed it;
      so the values are distinct and the parse is exact (case matters). */
  lemma TypeValueParse(s: string)
    ensures ParseType(s).Some? <==> s in TypeValues
    ensures ParseType(s).Some? ==> TypeValue(ParseType(s).value) == s
  {
  }

  const TypeValues: seq<string> :=
    ["initial_assessment", "follow_up", "treatment_session", "consultation", "discharge"]

  // ---------------------------------------------------------------------
  // Field validators

  const EmptyIdMessage: string := "ID cannot be empty or whitespace only"

  const DateRangeMessage: string := "end_date must be after start_date"

  /** `validate_ids`: an empty or all-whitespace id is refused; any other id is
      kept without its surrounding whitespace. */
  function ValidateId(v: string): (r: Result<string, string>)
    ensures r.Err? <==> AllSpace(v)
    ensures r.Err? ==> r.error == EmptyIdMessage
    ensures r.Ok? ==> r.value != [] && !IsSpace(r.value[0]) && !IsSpace(r.value[|r.value| - 1])
    ensures r.Ok? ==> exists i :: 0 <= i <= |v| - |r.value| && v[i..i + |r.value|] == r.value
                        && AllSpace(v[..i]) && AllSpace(v[i + |r.value|..])
  {
    StripEmptyIff(v);
    StripSpec(v);
    if v == [] || Strip(v) == [] then Err(EmptyIdMessage) else Ok(Strip(v))
  }

  /** Validating an id a second time keeps it as it is. */
  lemma ValidateIdIdempotent(v: string)
    requires ValidateId(v).Ok?
    ensures ValidateId(ValidateId(v).value) == ValidateId(v)
  {
    StripIdempotent(v);
  }

  /** Why an encounter payload is refused, field by field: a `min_length`
      violation, a field validator's refusal with its message, or a value that
      fails the field's declared type (`dict_type` for a `Dict[str, Any]`). */
  datatype FieldError =
    | TooShort(field: string)
    | Invalid(field: string, msg: string)
    | NotADict(field: string)

  /** One id field: `min_length=1` is checked on the raw text first, then
      `validate_ids` runs on it. */
  function CheckId(field: string, v: string): (r: Result<string, FieldError>)
    ensures r.Ok? <==> !AllSpace(v)
    ensures r.Err? && r.error.TooShort? <==> v == []
    ensures r.Err? ==> r.error.field == field
    ensures r.Err? && r.error.Invalid? ==> r.error.msg == EmptyIdMessage
  {
    if |v| < 1 then Err(TooShort(field))
    else match ValidateId(v)
      case Ok(s) => Ok(s)
      case Err(m) => Err(Invalid(field, m))
  }

  /** `clinical_data`: absent gives the empty dictionary (the default is not
      validated); a given value must pass the `Dict[str, Any]` type check,
      which refuses anything but a dictionary before the field validator runs.
      The validator's own `isinstance` test therefore never refuses. */
  function ValidateClinicalData(v: Option<Value>): (r: Result<Dict, FieldError>)
    ensures r.Ok? <==> v.None? || v.value.VDict?
    ensures r.Ok? && v.None? ==> r.value == []
    ensures r.Ok? && v.Some? ==> v.value == VDict(r.value)
    ensures r.Err? ==> r.error == NotADict("clinical_data")
  {
    match v
    case None => Ok([])
    case Some(VDict(d)) => Ok(d)
    case Some(_) => Err(NotADict("clinical_data"))
  }

  // ---------------------------------------------------------------------
  // EncounterCreate / Encounter

  /** The create payload as the client sends it, once field types are coerced. */
  datatype EncounterInput = EncounterInput(
    patientId: string,
    providerId: string,
    encounterDate: int,
    encounterType: EncounterType,
    clinicalData: Option<Value>)

  /** A validated `EncounterCreate`. */
  datatype EncounterCreate = EncounterCreate(
    patientId: string,
    providerId: string,
    encounterDate: int,
    encounterType: EncounterType,
    clinicalData: Dict)

  /** A stored `Encounter`. */
  datatype Encounter = Encounter(
    encounterId: string,
    patientId: string,
    providerId: string,
    encounterDate: int,
    encounterType: EncounterType,
    clinicalData: Dict,
    createdAt: int,
    updatedAt: int,
    createdBy: string)

  function IdErrors(r: Result<string, FieldError>): seq<FieldError>
  {
    if r.Err? then [r.error] else []
  }

  /** Validation of the create payload: every failing field is reported, in
      field order; the payload is accepted when none fails. */
  function MakeEncounterCreate(input: EncounterInput): (r: Result<EncounterCreate, seq<FieldError>>)
    ensures r.Ok? <==> !AllSpace(input.patientId) && !AllSpace(input.providerId)
                       && ValidateClinicalData(input.clinicalData).Ok?
    ensures r.Ok? ==> (&& r.value.patientId == ValidateId(input.patientId).value
                       && r.value.providerId == ValidateId(input.providerId).value
                       && r.value.encounterDate == input.encounterDate
                       && r.value.encounterType == input.encounterType
                       && r.value.clinicalData == ValidateClinicalData(input.clinicalData).value)
    ensures r.Err? ==> r.error != [] && |r.error| <= 3
    ensures r.Err? && AllSpace(input.patientId) ==> r.error[0].field == "patient_id"
  {
    var p := CheckId("patient_id", input.patientId);
    var q := CheckId("provider_id", input.providerId);
    var c := ValidateClinicalData(input.clinicalData);
    var errors := IdErrors(p) + IdErrors(q)
      + (if c.Err? then [c.error] else []);
    if errors == [] then
      Ok(EncounterCreate(p.value, q.value, input.encounterDate, input.encounterType, c.value))
    else Err(errors)
  }

  /** `model_dump()` of a payload, as fed back into validation. */
  function Dump(c: EncounterCreate): EncounterInput
  {
    EncounterInput(c.patientId, c.providerId, c.encounterDate, c.encounterType, Some(VDict(c.clinicalData)))
  }

  /** A payload as validation leaves it: both ids are as `validate_ids` returns
      them. Only such payloads reach the route handler. */
  predicate Validated(data: EncounterCreate)
  {
    ValidateId(data.patientId) == Ok(data.patientId) && ValidateId(data.providerId) == Ok(data.providerId)
  }

  /** Re-validating a validated payload (as building an `Encounter` from
      `model_dump()` does) accepts it and changes nothing. */
  lemma RevalidateKeeps(input: EncounterInput)
    requires MakeEncounterCreate(input).Ok?
    ensures MakeEncounterCreate(Dump(MakeEncounterCreate(input).value)) == MakeEncounterCreate(input)
    ensures Validated(MakeEncounterCreate(input).value)
  {
    ValidateIdIdempotent(input.patientId);
    ValidateIdIdempotent(input.providerId);
  }

  /** The validated payloads are exactly those that validating their
      `model_dump()` gives back unchanged. */
  lemma ValidatedIffRevalidates(data: EncounterCreate)
    ensures Validated(data) <==> MakeEncounterCreate(Dump(data)) == Ok(data)
  {
  }

  /** The record `create_encounter` stores: the payload's fields, the new id,
      both timestamps set to the same instant, and the creating user. */
  function NewEncounter(id: string, data: EncounterCreate, now: int, createdBy: string): (e: Encounter)
    ensures e.encounterId == id && e.createdBy == createdBy
    ensures e.createdAt == now && e.updatedAt == e.createdAt
    ensures Payload(e) == data
  {
    Encounter(id, data.patientId, data.providerId, data.encounterDate, data.encounterType,
              data.clinicalData, now, now, createdBy)
  }

  /** The `EncounterCreate` fields of a stored record. */
  function Payload(e: Encounter): EncounterCreate
  {
    EncounterCreate(e.patientId, e.providerId, e.encounterDate, e.encounterType, e.clinicalData)
  }

  // ---------------------------------------------------------------------
  // EncounterFilter

  datatype EncounterFilter = EncounterFilter(
    patientId: Option<string>,
    providerId: Option<string>,
    encounterType: Option<EncounterType>,
    startDate: Option<int>,
    endDate: Option<int>)

  /** `validate_date_range`: a date is always truthy, so the check applies
      exactly when both ends are given. It refuses an end before the start and
      accepts an end equal to it; an accepted end is kept. */
  function ValidateDateRange(start: Option<int>, end: Option<int>): (r: Result<Option<int>, string>)
    ensures r.Err? <==> start.Some? && end.Some? && end.value < start.value
    ensures r.Err? ==> r.error == DateRangeMessage
    ensures r.Ok? ==> r.value == end && (start.Some? && end.Some? ==> start.value <= end.value)
  {
    if end.Some? && start.Some? && end.value < start.value then Err(DateRangeMessage)
    else Ok(end)
  }

  function MakeEncounterFilter(patientId: Option<string>, providerId: Option<string>,
                               encounterType: Option<EncounterType>,
                               startDate: Option<int>, endDate: Option<int>): (r: Result<EncounterFilter, string>)
    ensures r.Ok? ==> r.value == EncounterFilter(patientId, providerId, encounterType, startDate, endDate)
    ensures r.Ok? && startDate.Some? && endDate.Some? ==> startDate.value <= endDate.value
    ensures r.Err? <==> ValidateDateRange(startDate, endDate).Err?
  {
    match ValidateDateRange(startDate, endDate)
    case Ok(e) => Ok(EncounterFilter(patientId, providerId, encounterType, startDate, e))
    case Err(m) => Err(m)
  }
}
