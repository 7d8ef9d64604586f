/**
 * The in-memory store: encounters and audit events kept in insertion order,
 * with secondary indexes from patient, provider and audited resource to the
 * ids that carry them. Filtered listings go through the indexes where the
 * code does; the class invariant makes that agree with filtering on the
 * records' own fields.
 */
module Storage {
  import opened Wrappers
  import opened PyValue
  import opened EncounterModel
  import opened AuditModel

  // ---------------------------------------------------------------------
  // Sequences, filters and indexes

  /** `[x for x in xs if keep(x)]`. */
  function Filter<T>(xs: seq<T>, keep: T -> bool): (r: seq<T>)
    ensures |r| <= |xs|
    decreases |xs|
  {
    if xs == [] then []
    else (if keep(xs[0]) then [xs[0]] else []) + Filter(xs[1..], keep)
  }

  /** The list comprehension as the loop it runs. */
  method KeepIf<T>(xs: seq<T>, keep: T -> bool) returns (r: seq<T>)
    ensures r == Filter(xs, keep)
  {
    r := [];
    var i := 0;
    while i < |xs|
      invariant 0 <= i <= |xs|
      invariant Filter(xs, keep) == r + Filter(xs[i..], keep)
    {
      FilterAt(xs, i, keep);
      if keep(xs[i]) {
        assert r + ([xs[i]] + Filter(xs[i + 1..], keep)) == (r + [xs[i]]) + Filter(xs[i + 1..], keep);
        r := r + [xs[i]];
      } else {
        assert [] + Filter(xs[i + 1..], keep) == Filter(xs[i + 1..], keep);
      }
      i := i + 1;
    }
  }

  lemma {:induction false} FilterAt<T>(xs: seq<T>, i: nat, keep: T -> bool)
    requires i < |xs|
    ensures Filter(xs[i..], keep) == (if keep(xs[i]) then [xs[i]] else []) + Filter(xs[i + 1..], keep)
  {
    assert xs[i..][1..] == xs[i + 1..];
  }

  /** What `Filter` keeps: exactly the elements that pass the test. */
  lemma {:induction false} FilterMembers<T>(xs: seq<T>, keep: T -> bool, x: T)
    ensures x in Filter(xs, keep) <==> x in xs && keep(x)
    decreases |xs|
  {
    if xs != [] {
      FilterMembers(xs[1..], keep, x);
      assert xs == [xs[0]] + xs[1..];
    }
  }

  /** Filtering twice keeps what both tests keep: `r` is the combined test. */
  lemma {:induction false} FilterThen<T>(xs: seq<T>, p: T -> bool, keep: T -> bool, r: T -> bool)
    requires forall x :: x in xs ==> r(x) == (p(x) && keep(x))
    ensures Filter(Filter(xs, p), keep) == Filter(xs, r)
    decreases |xs|
  {
    if xs != [] {
      assert forall x :: x in xs[1..] ==> x in xs;
      FilterThen(xs[1..], p, keep, r);
      FilterAppend((if p(xs[0]) then [xs[0]] else []), Filter(xs[1..], p), keep);
    }
  }

  lemma {:induction false} FilterAppend<T>(a: seq<T>, b: seq<T>, keep: T -> bool)
    ensures Filter(a + b, keep) == Filter(a, keep) + Filter(b, keep)
    decreases |a|
  {
    if a != [] {
      assert (a + b)[1..] == a[1..] + b;
      FilterAppend(a[1..], b, keep);
    } else {
      assert a + b == b;
    }
  }

  /** Tests that agree on the elements filter alike. */
  lemma {:induction false} FilterExt<T>(xs: seq<T>, p: T -> bool, q: T -> bool)
    requires forall x :: x in xs ==> p(x) == q(x)
    ensures Filter(xs, p) == Filter(xs, q)
    decreases |xs|
  {
    if xs != [] {
      assert forall x :: x in xs[1..] ==> x in xs;
      FilterExt(xs[1..], p, q);
    }
  }

  /** The values of `m` in the order of `order`, as `list(d.values())`. */
  function Values<V>(order: seq<string>, m: map<string, V>): (r: seq<V>)
    requires forall k :: k in order ==> k in m
    ensures |r| == |order|
    ensures forall i :: 0 <= i < |order| ==> r[i] == m[order[i]]
  {
    if order == [] then [] else [m[order[0]]] + Values(order[1..], m)
  }

  predicate NoDuplicates(s: seq<string>)
  {
    forall i, j :: 0 <= i < j < |s| ==> s[i] != s[j]
  }

  /** `index.get(k, [])`. */
  function Lookup(index: map<string, seq<string>>, k: string): seq<string>
  {
    if k in index then index[k] else []
  }

  /** `index.setdefault(k, []).append(id)`. */
  function Append(index: map<string, seq<string>>, k: string, id: string): map<string, seq<string>>
  {
    index[k := Lookup(index, k) + [id]]
  }

  /** `index` lists under each key exactly the ids of the records of `m` whose
      `key` it is. */
  ghost predicate Indexes<V>(index: map<string, seq<string>>, m: map<string, V>, key: V -> string)
  {
    forall k, id :: id in Lookup(index, k) <==> id in m && key(m[id]) == k
  }

  /** Appending a new record's id under its key keeps the index exact. */
  lemma {:induction false} IndexAdd<V>(index: map<string, seq<string>>, m: map<string, V>, key: V -> string,
                                       id: string, v: V)
    requires Indexes(index, m, key) && id !in m
    ensures Indexes(Append(index, key(v), id), m[id := v], key)
  {
    var index', m' := Append(index, key(v), id), m[id := v];
    forall k, x ensures x in Lookup(index', k) <==> x in m' && key(m'[x]) == k {
      if k == key(v) {
        assert Lookup(index', k) == Lookup(index, k) + [id];
      } else {
        assert Lookup(index', k) == Lookup(index, k);
      }
    }
  }

  // ---------------------------------------------------------------------
  // Filter criteria

  /** The `k`-th test of `list_encounters`, in the order the code applies them;
      a criterion that is not set keeps everything. */
  predicate EncounterCriterion(e: Encounter, f: EncounterFilter, k: nat)
  {
    if k == 0 then Given(f.patientId) ==> e.patientId == f.patientId.value
    else if k == 1 then Given(f.providerId) ==> e.providerId == f.providerId.value
    else if k == 2 then f.encounterType.Some? ==> e.encounterType == f.encounterType.value
    else if k == 3 then f.startDate.Some? ==> e.encounterDate >= f.startDate.value
    else if k == 4 then f.endDate.Some? ==> e.encounterDate <= f.endDate.value
    else true
  }

  /** The first `k` tests. */
  predicate EncounterUpTo(e: Encounter, f: EncounterFilter, k: nat)
  {
    k == 0 || (EncounterUpTo(e, f, k - 1) && EncounterCriterion(e, f, k - 1))
  }

  /** An encounter matches a filter when every criterion the filter sets holds
      of the encounter's own fields: an empty patient or provider id sets none. */
  predicate MatchesEncounter(e: Encounter, f: EncounterFilter)
  {
    && (Given(f.patientId) ==> e.patientId == f.patientId.value)
    && (Given(f.providerId) ==> e.providerId == f.providerId.value)
    && (f.encounterType.Some? ==> e.encounterType == f.encounterType.value)
    && (f.startDate.Some? ==> f.startDate.value <= e.encounterDate)
    && (f.endDate.Some? ==> e.encounterDate <= f.endDate.value)
  }

  function EncounterUpToTest(f: EncounterFilter, k: nat): Encounter -> bool
  {
    e => EncounterUpTo(e, f, k)
  }

  function EncounterTest(f: EncounterFilter): Encounter -> bool
  {
    e => MatchesEncounter(e, f)
  }

  /** `list_encounters` as a specification: the matching encounters, in order. */
  function SelectEncounters(all: seq<Encounter>, f: EncounterFilter): seq<Encounter>
  {
    Filter(all, EncounterTest(f))
  }

  lemma {:induction false} EncounterStep(all: seq<Encounter>, f: EncounterFilter, k: nat, keep: Encounter -> bool)
    requires forall e :: e in all ==> keep(e) == EncounterCriterion(e, f, k)
    ensures Filter(Filter(all, EncounterUpToTest(f, k)), keep) == Filter(all, EncounterUpToTest(f, k + 1))
  {
    FilterThen(all, EncounterUpToTest(f, k), keep, EncounterUpToTest(f, k + 1));
  }

  lemma {:induction false} EncounterSkip(all: seq<Encounter>, f: EncounterFilter, k: nat)
    requires forall e :: e in all ==> EncounterCriterion(e, f, k)
    ensures Filter(all, EncounterUpToTest(f, k)) == Filter(all, EncounterUpToTest(f, k + 1))
  {
    FilterExt(all, EncounterUpToTest(f, k), EncounterUpToTest(f, k + 1));
  }

  /** The five tests in turn are the match. */
  lemma {:induction false} EncounterAllSteps(all: seq<Encounter>, f: EncounterFilter)
    ensures Filter(all, EncounterUpToTest(f, 5)) == SelectEncounters(all, f)
  {
    forall e | e in all ensures EncounterUpToTest(f, 5)(e) == EncounterTest(f)(e) {
      assert EncounterUpTo(e, f, 1) == EncounterCriterion(e, f, 0);
      assert EncounterUpTo(e, f, 3) == (EncounterUpTo(e, f, 1) && EncounterCriterion(e, f, 1) && EncounterCriterion(e, f, 2));
      assert EncounterUpTo(e, f, 5) == (EncounterUpTo(e, f, 3) && EncounterCriterion(e, f, 3) && EncounterCriterion(e, f, 4));
    }
    FilterExt(all, EncounterUpToTest(f, 5), EncounterTest(f));
  }

  /** The listing holds an encounter exactly when it is one of `all` and
      matches the filter. */
  lemma {:induction false} SelectEncountersMembers(all: seq<Encounter>, f: EncounterFilter, e: Encounter)
    ensures e in SelectEncounters(all, f) <==> e in all && MatchesEncounter(e, f)
  {
    FilterMembers(all, EncounterTest(f), e);
  }

  /** A filter that sets nothing keeps every encounter, in order; an empty
      patient or provider id sets nothing either. */
  lemma {:induction false} SelectEncountersUnfiltered(all: seq<Encounter>, f: EncounterFilter)
    requires !Given(f.patientId) && !Given(f.providerId)
    requires f.encounterType.None? && f.startDate.None? && f.endDate.None?
    ensures SelectEncounters(all, f) == all
  {
    FilterExt(all, EncounterTest(f), (e: Encounter) => true);
    FilterTrue(all);
  }

  /** The `k`-th test of `list_audit_events`. */
  predicate AuditCriterion(e: AuditEvent, f: AuditFilter, k: nat)
  {
    if k == 0 then Given(f.resourceType) ==> e.resourceType == f.resourceType.value
    else if k == 1 then Given(f.resourceId) ==> e.resourceId == f.resourceId.value
    else if k == 2 then Given(f.userId) ==> e.userId == f.userId.value
    else if k == 3 then Given(f.eventType) ==> e.eventType == f.eventType.value
    else if k == 4 then f.startDate.Some? ==> e.timestamp >= f.startDate.value
    else if k == 5 then f.endDate.Some? ==> e.timestamp <= f.endDate.value
    else true
  }

  predicate AuditUpTo(e: AuditEvent, f: AuditFilter, k: nat)
  {
    k == 0 || (AuditUpTo(e, f, k - 1) && AuditCriterion(e, f, k - 1))
  }

  /** An audit event matches a filter when every criterion the filter sets
      holds of the event's own fields. */
  predicate MatchesAudit(e: AuditEvent, f: AuditFilter)
  {
    && (Given(f.resourceType) ==> e.resourceType == f.resourceType.value)
    && (Given(f.resourceId) ==> e.resourceId == f.resourceId.value)
    && (Given(f.userId) ==> e.userId == f.userId.value)
    && (Given(f.eventType) ==> e.eventType == f.eventType.value)
    && (f.startDate.Some? ==> f.startDate.value <= e.timestamp)
    && (f.endDate.Some? ==> e.timestamp <= f.endDate.value)
  }

  function AuditUpToTest(f: AuditFilter, k: nat): AuditEvent -> bool
  {
    e => AuditUpTo(e, f, k)
  }

  function AuditTest(f: AuditFilter): AuditEvent -> bool
  {
    e => MatchesAudit(e, f)
  }

  /** `list_audit_events` as a specification: the matching events, in order. */
  function SelectAuditEvents(all: seq<AuditEvent>, f: AuditFilter): seq<AuditEvent>
  {
    Filter(all, AuditTest(f))
  }

  /** The listing holds an event exactly when it is one of `all` and matches
      the filter. */
  lemma {:induction false} SelectAuditEventsMembers(all: seq<AuditEvent>, f: AuditFilter, e: AuditEvent)
    ensures e in SelectAuditEvents(all, f) <==> e in all && MatchesAudit(e, f)
  {
    FilterMembers(all, AuditTest(f), e);
  }

  /** The six tests in turn are the match. */
  lemma {:induction false} AuditAllSteps(all: seq<AuditEvent>, f: AuditFilter)
    ensures Filter(all, AuditUpToTest(f, 6)) == SelectAuditEvents(all, f)
  {
    forall e | e in all ensures AuditUpToTest(f, 6)(e) == AuditTest(f)(e) {
      assert AuditUpTo(e, f, 1) == AuditCriterion(e, f, 0);
      assert AuditUpTo(e, f, 2) == (AuditUpTo(e, f, 1) && AuditCriterion(e, f, 1));
      assert AuditUpTo(e, f, 4) == (AuditUpTo(e, f, 2) && AuditCriterion(e, f, 2) && AuditCriterion(e, f, 3));
      assert AuditUpTo(e, f, 6) == (AuditUpTo(e, f, 4) && AuditCriterion(e, f, 4) && AuditCriterion(e, f, 5));
    }
    FilterExt(all, AuditUpToTest(f, 6), AuditTest(f));
  }

  lemma {:induction false} AuditStep(all: seq<AuditEvent>, f: AuditFilter, k: nat, keep: AuditEvent -> bool)
    requires forall e :: e in all ==> keep(e) == AuditCriterion(e, f, k)
    ensures Filter(Filter(all, AuditUpToTest(f, k)), keep) == Filter(all, AuditUpToTest(f, k + 1))
  {
    FilterThen(all, AuditUpToTest(f, k), keep, AuditUpToTest(f, k + 1));
  }

  lemma {:induction false} AuditSkip(all: seq<AuditEvent>, f: AuditFilter, k: nat)
    requires forall e :: e in all ==> AuditCriterion(e, f, k)
    ensures Filter(all, AuditUpToTest(f, k)) == Filter(all, AuditUpToTest(f, k + 1))
  {
    FilterExt(all, AuditUpToTest(f, k), AuditUpToTest(f, k + 1));
  }

  /** Among `all`, `index` lists under each key exactly the ids of the
      records whose `key` it is. */
  ghost predicate IndexSelects<V>(all: seq<V>, index: map<string, seq<string>>, idOf: V -> string, key: V -> string)
  {
    forall v, k :: v in all ==> (idOf(v) in Lookup(index, k) <==> key(v) == k)
  }

  /** The body of `list_encounters` once a filter is given: the five tests in
      the code's order, the patient and provider ones through the indexes. */
  method FilterEncounters(all: seq<Encounter>, f: EncounterFilter,
                          byPatient: map<string, seq<string>>, byProvider: map<string, seq<string>>)
    returns (r: seq<Encounter>)
    requires IndexSelects(all, byPatient, EncounterIdOf, PatientOf) && IndexSelects(all, byProvider, EncounterIdOf, ProviderOf)
    ensures r == SelectEncounters(all, f)
  {
    FilterExt(all, EncounterUpToTest(f, 0), (e: Encounter) => true);
    FilterTrue(all);
    r := EncountersByPatient(all, all, f, byPatient);
    r := EncountersByProvider(all, r, f, byProvider);
    r := EncountersByType(all, r, f);
    r := EncountersFromDate(all, r, f);
    r := EncountersUntilDate(all, r, f);
    EncounterAllSteps(all, f);
  }

  /** Step 1 of `list_encounters`: the patient test, through the patient index
      when that filter is set. */
  method EncountersByPatient(ghost all: seq<Encounter>, candidates: seq<Encounter>, f: EncounterFilter,
                               byPatient: map<string, seq<string>>)
    returns (r: seq<Encounter>)
    requires candidates == Filter(all, EncounterUpToTest(f, 0))
    requires IndexSelects(all, byPatient, EncounterIdOf, PatientOf)
    ensures r == Filter(all, EncounterUpToTest(f, 1))
  {
    if Given(f.patientId) {
      var ids := Lookup(byPatient, f.patientId.value);
      var keep := (e: Encounter) => e.encounterId in ids;
      r := KeepIf(candidates, keep);
      EncounterStep(all, f, 0, keep);
    } else {
      r := candidates;
      EncounterSkip(all, f, 0);
    }
  }

  /** Step 2 of `list_encounters`: the provider test, through the provider index
      when that filter is set. */
  method EncountersByProvider(ghost all: seq<Encounter>, candidates: seq<Encounter>, f: EncounterFilter,
                                byProvider: map<string, seq<string>>)
    returns (r: seq<Encounter>)
    requires candidates == Filter(all, EncounterUpToTest(f, 1))
    requires IndexSelects(all, byProvider, EncounterIdOf, ProviderOf)
    ensures r == Filter(all, EncounterUpToTest(f, 2))
  {
    if Given(f.providerId) {
      var ids := Lookup(byProvider, f.providerId.value);
      var keep := (e: Encounter) => e.encounterId in ids;
      r := KeepIf(candidates, keep);
      EncounterStep(all, f, 1, keep);
    } else {
      r := candidates;
      EncounterSkip(all, f, 1);
    }
  }

  /** Step 3 of `list_encounters`: the encounter type test
      when that filter is set. */
  method EncountersByType(ghost all: seq<Encounter>, candidates: seq<Encounter>, f: EncounterFilter)
    returns (r: seq<Encounter>)
    requires candidates == Filter(all, EncounterUpToTest(f, 2))
    ensures r == Filter(all, EncounterUpToTest(f, 3))
  {
    if f.encounterType.Some? {
      var keep := (e: Encounter) => e.encounterType == f.encounterType.value;
      r := KeepIf(candidates, keep);
      EncounterStep(all, f, 2, keep);
    } else {
      r := candidates;
      EncounterSkip(all, f, 2);
    }
  }

  /** Step 4 of `list_encounters`: the start date test (inclusive)
      when that filter is set. */
  method EncountersFromDate(ghost all: seq<Encounter>, candidates: seq<Encounter>, f: EncounterFilter)
    returns (r: seq<Encounter>)
    requires candidates == Filter(all, EncounterUpToTest(f, 3))
    ensures r == Filter(all, EncounterUpToTest(f, 4))
  {
    if f.startDate.Some? {
      var keep := (e: Encounter) => e.encounterDate >= f.startDate.value;
      r := KeepIf(candidates, keep);
      EncounterStep(all, f, 3, keep);
    } else {
      r := candidates;
      EncounterSkip(all, f, 3);
    }
  }

  /** Step 5 of `list_encounters`: the end date test (inclusive)
      when that filter is set. */
  method EncountersUntilDate(ghost all: seq<Encounter>, candidates: seq<Encounter>, f: EncounterFilter)
    returns (r: seq<Encounter>)
    requires candidates == Filter(all, EncounterUpToTest(f, 4))
    ensures r == Filter(all, EncounterUpToTest(f, 5))
  {
    if f.endDate.Some? {
      var keep := (e: Encounter) => e.encounterDate <= f.endDate.value;
      r := KeepIf(candidates, keep);
      EncounterStep(all, f, 4, keep);
    } else {
      r := candidates;
      EncounterSkip(all, f, 4);
    }
  }

  /** The body of `list_audit_events` once a filter is given: the six tests
      in the code's order, the resource one through the index. */
  method FilterAuditEvents(all: seq<AuditEvent>, f: AuditFilter, byResource: map<string, seq<string>>)
    returns (r: seq<AuditEvent>)
    requires IndexSelects(all, byResource, EventIdOf, ResourceOf)
    ensures r == SelectAuditEvents(all, f)
  {
    FilterExt(all, AuditUpToTest(f, 0), (e: AuditEvent) => true);
    FilterTrue(all);
    r := AuditByResourceType(all, all, f);
    r := AuditByResource(all, r, f, byResource);
    r := AuditByUser(all, r, f);
    r := AuditByEventType(all, r, f);
    r := AuditFromDate(all, r, f);
    r := AuditUntilDate(all, r, f);
    AuditAllSteps(all, f);
  }

  /** Step 1 of `list_audit_events`: the resource type test,
      when that filter is set. */
  method AuditByResourceType(ghost all: seq<AuditEvent>, candidates: seq<AuditEvent>, f: AuditFilter)
    returns (r: seq<AuditEvent>)
    requires candidates == Filter(all, AuditUpToTest(f, 0))
    ensures r == Filter(all, AuditUpToTest(f, 1))
  {
    if Given(f.resourceType) {
      var keep := (e: AuditEvent) => e.resourceType == f.resourceType.value;
      r := KeepIf(candidates, keep);
      AuditStep(all, f, 0, keep);
    } else {
      r := candidates;
      AuditSkip(all, f, 0);
    }
  }

  /** Step 2 of `list_audit_events`: the resource id test, through the resource index,
      when that filter is set. */
  method AuditByResource(ghost all: seq<AuditEvent>, candidates: seq<AuditEvent>, f: AuditFilter,
                             byResource: map<string, seq<string>>)
    returns (r: seq<AuditEvent>)
    requires candidates == Filter(all, AuditUpToTest(f, 1))
    requires IndexSelects(all, byResource, EventIdOf, ResourceOf)
    ensures r == Filter(all, AuditUpToTest(f, 2))
  {
    if Given(f.resourceId) {
      var ids := Lookup(byResource, f.resourceId.value);
      var keep := (e: AuditEvent) => e.eventId in ids;
      r := KeepIf(candidates, keep);
      AuditStep(all, f, 1, keep);
    } else {
      r := candidates;
      AuditSkip(all, f, 1);
    }
  }

  /** Step 3 of `list_audit_events`: the user test,
      when that filter is set. */
  method AuditByUser(ghost all: seq<AuditEvent>, candidates: seq<AuditEvent>, f: AuditFilter)
    returns (r: seq<AuditEvent>)
    requires candidates == Filter(all, AuditUpToTest(f, 2))
    ensures r == Filter(all, AuditUpToTest(f, 3))
  {
    if Given(f.userId) {
      var keep := (e: AuditEvent) => e.userId == f.userId.value;
      r := KeepIf(candidates, keep);
      AuditStep(all, f, 2, keep);
    } else {
      r := candidates;
      AuditSkip(all, f, 2);
    }
  }

  /** Step 4 of `list_audit_events`: the event type test,
      when that filter is set. */
  method AuditByEventType(ghost all: seq<AuditEvent>, candidates: seq<AuditEvent>, f: AuditFilter)
    returns (r: seq<AuditEvent>)
    requires candidates == Filter(all, AuditUpToTest(f, 3))
    ensures r == Filter(all, AuditUpToTest(f, 4))
  {
    if Given(f.eventType) {
      var keep := (e: AuditEvent) => e.eventType == f.eventType.value;
      r := KeepIf(candidates, keep);
      AuditStep(all, f, 3, keep);
    } else {
      r := candidates;
      AuditSkip(all, f, 3);
    }
  }

  /** Step 5 of `list_audit_events`: the start time test (inclusive),
      when that filter is set. */
  method AuditFromDate(ghost all: seq<AuditEvent>, candidates: seq<AuditEvent>, f: AuditFilter)
    returns (r: seq<AuditEvent>)
    requires candidates == Filter(all, AuditUpToTest(f, 4))
    ensures r == Filter(all, AuditUpToTest(f, 5))
  {
    if f.startDate.Some? {
      var keep := (e: AuditEvent) => e.timestamp >= f.startDate.value;
      r := KeepIf(candidates, keep);
      AuditStep(all, f, 4, keep);
    } else {
      r := candidates;
      AuditSkip(all, f, 4);
    }
  }

  /** Step 6 of `list_audit_events`: the end time test (inclusive),
      when that filter is set. */
  method AuditUntilDate(ghost all: seq<AuditEvent>, candidates: seq<AuditEvent>, f: AuditFilter)
    returns (r: seq<AuditEvent>)
    requires candidates == Filter(all, AuditUpToTest(f, 5))
    ensures r == Filter(all, AuditUpToTest(f, 6))
  {
    if f.endDate.Some? {
      var keep := (e: AuditEvent) => e.timestamp <= f.endDate.value;
      r := KeepIf(candidates, keep);
      AuditStep(all, f, 5, keep);
    } else {
      r := candidates;
      AuditSkip(all, f, 5);
    }
  }

  // ---------------------------------------------------------------------
  // Tables

  /** A Python dict kept as a map and the order its keys were inserted in: the
      order lists every key once, and each record carries its own key. */
  ghost predicate Table<V>(order: seq<string>, m: map<string, V>, idOf: V -> string)
  {
    && (forall id :: id in order <==> id in m)
    && NoDuplicates(order)
    && (forall id :: id in m ==> idOf(m[id]) == id)
  }

  function EncounterIdOf(e: Encounter): string { e.encounterId }

  function PatientOf(e: Encounter): string { e.patientId }

  function ProviderOf(e: Encounter): string { e.providerId }

  function EventIdOf(e: AuditEvent): string { e.eventId }

  function ResourceOf(e: AuditEvent): string { e.resourceId }

  /** Inserting a record under a new key appends it to the table's values. */
  lemma {:induction false} TableAdd<V>(order: seq<string>, m: map<string, V>, idOf: V -> string, id: string, v: V)
    requires Table(order, m, idOf) && id !in m && idOf(v) == id
    ensures Table(order + [id], m[id := v], idOf)
    ensures Values(order + [id], m[id := v]) == Values(order, m) + [v]
  {
    TableKeysAdd(order, m, id, v);
    ValuesAdd(order, m, id, v);
  }

  lemma {:induction false} TableKeysAdd<V>(order: seq<string>, m: map<string, V>, id: string, v: V)
    requires (forall k :: k in order <==> k in m) && NoDuplicates(order) && id !in m
    ensures forall k :: k in order + [id] <==> k in m[id := v]
    ensures NoDuplicates(order + [id])
  {
    assert forall k :: k in order + [id] <==> k in order || k == id;
  }

  lemma {:induction false} ValuesAdd<V>(order: seq<string>, m: map<string, V>, id: string, v: V)
    requires (forall k :: k in order ==> k in m) && id !in m
    ensures forall k :: k in order + [id] ==> k in m[id := v]
    ensures Values(order + [id], m[id := v]) == Values(order, m) + [v]
  {
    var order', m' := order + [id], m[id := v];
    assert forall k :: k in order' ==> k in order || k == id;
    var a, b := Values(order', m'), Values(order, m) + [v];
    forall i | 0 <= i < |a| ensures a[i] == b[i] {
      if i < |order| {
        assert order'[i] == order[i] && order[i] in m;
      }
    }
  }

  /** Every value of a table is the record stored under its own key. */
  lemma {:induction false} TableValues<V>(order: seq<string>, m: map<string, V>, idOf: V -> string, v: V)
    requires Table(order, m, idOf) && v in Values(order, m)
    ensures idOf(v) in m && m[idOf(v)] == v
  {
    var r := Values(order, m);
    var i :| 0 <= i < |r| && r[i] == v;
    assert order[i] in m;
  }

  // ---------------------------------------------------------------------
  // InMemoryStorage

  class InMemoryStorage {
    /** `_encounters`: id to record, with `encounterOrder` its insertion order. */
    var encounters: map<string, Encounter>
    var encounterOrder: seq<string>
    /** `_encounters_by_patient` and `_encounters_by_provider`. */
    var byPatient: map<string, seq<string>>
    var byProvider: map<string, seq<string>>
    /** `_audit_events`, with `auditOrder` its insertion order. */
    var auditEvents: map<string, AuditEvent>
    var auditOrder: seq<string>
    /** `_audit_by_resource`. */
    var byResource: map<string, seq<string>>

    /** Each table's order lists its keys once each, every record is stored
        under its own id, and each index lists exactly the ids of the records
        that carry its key. */
    ghost predicate Valid()
      reads this
    {
      && Table(encounterOrder, encounters, EncounterIdOf)
      && Indexes(byPatient, encounters, PatientOf)
      && Indexes(byProvider, encounters, ProviderOf)
      && Table(auditOrder, auditEvents, EventIdOf)
      && Indexes(byResource, auditEvents, ResourceOf)
    }

    /** The stored encounters, oldest first. */
    function Encounters(): seq<Encounter>
      reads this
      requires Valid()
    {
      Values(encounterOrder, encounters)
    }

    /** The stored audit events, oldest first. */
    function AuditEvents(): seq<AuditEvent>
      reads this
      requires Valid()
    {
      Values(auditOrder, auditEvents)
    }

    constructor ()
      ensures Valid()
      ensures encounters == map[] && encounterOrder == [] && byPatient == map[] && byProvider == map[]
      ensures auditEvents == map[] && auditOrder == [] && byResource == map[]
    {
      encounters, encounterOrder := map[], [];
      byPatient, byProvider := map[], map[];
      auditEvents, auditOrder := map[], [];
      byResource := map[];
    }

    /** `create_encounter`, given the fresh id and the current time: the new
        record is stored last and listed under its patient and its provider;
        the audit tables are untouched. */
    method CreateEncounter(data: EncounterCreate, id: string, now: int, createdBy: string) returns (e: Encounter)
      requires Valid()
      requires Validated(data) && id !in encounters
      modifies this
      ensures Valid()
      ensures e == NewEncounter(id, data, now, createdBy)
      ensures encounters == old(encounters)[id := e]
      ensures Encounters() == old(Encounters()) + [e]
      ensures auditEvents == old(auditEvents) && auditOrder == old(auditOrder) && byResource == old(byResource)
    {
      e := NewEncounter(id, data, now, createdBy);
      TableAdd(encounterOrder, encounters, EncounterIdOf, id, e);
      IndexAdd(byPatient, encounters, PatientOf, id, e);
      IndexAdd(byProvider, encounters, ProviderOf, id, e);
      encounters := encounters[id := e];
      encounterOrder := encounterOrder + [id];
      byPatient := Append(byPatient, e.patientId, id);
      byProvider := Append(byProvider, e.providerId, id);
    }

    /** `get_encounter`. */
    method GetEncounter(id: string) returns (r: Option<Encounter>)
      ensures r.Some? <==> id in encounters
      ensures r.Some? ==> r.value == encounters[id]
    {
      if id in encounters {
        r := Some(encounters[id]);
      } else {
        r := None;
      }
    }

    /** Every stored encounter is in the listing of all encounters. */
    lemma {:induction false} StoredIsListed(id: string)
      requires Valid() && id in encounters
      ensures encounters[id] in Encounters()
    {
      var i :| 0 <= i < |encounterOrder| && encounterOrder[i] == id;
      assert Encounters()[i] == encounters[id];
    }

    /** The patient index selects, among stored encounters, exactly those of
        the patient (and likewise for providers). */
    lemma {:induction false} EncounterIndexesAgree(all: seq<Encounter>)
      requires Valid() && all == Encounters()
      ensures IndexSelects(all, byPatient, EncounterIdOf, PatientOf)
      ensures IndexSelects(all, byProvider, EncounterIdOf, ProviderOf)
    {
      forall e, k | e in all
        ensures e.encounterId in Lookup(byPatient, k) <==> e.patientId == k
        ensures e.encounterId in Lookup(byProvider, k) <==> e.providerId == k
      {
        TableValues(encounterOrder, encounters, EncounterIdOf, e);
      }
    }

    /** `list_encounters`: no filter lists everything in insertion order; a
        filter keeps, in that order, the encounters that match it. The patient
        and provider tests go through the indexes. */
    method ListEncounters(filters: Option<EncounterFilter>) returns (r: seq<Encounter>)
      requires Valid()
      ensures filters.None? ==> r == Encounters()
      ensures filters.Some? ==> r == SelectEncounters(Encounters(), filters.value)
    {
      if filters.None? {
        return Encounters();
      }
      EncounterIndexesAgree(Encounters());
      r := FilterEncounters(Encounters(), filters.value, byPatient, byProvider);
    }

    /** `create_audit_event`, given the random hex text the event id is cut
        from and the current time: the event is stored last and listed under
        its resource; missing or empty additional data becomes the empty
        dictionary; the encounter tables are untouched. */
    method CreateAuditEvent(eventType: string, resourceType: string, resourceId: string, userId: string,
                            ipAddress: Option<string>, userAgent: Option<string>, additionalData: Option<Dict>,
                            hex: string, now: int) returns (e: AuditEvent)
      requires Valid()
      requires |hex| == 32 && "audit_" + hex[..12] !in auditEvents
      modifies this
      ensures Valid()
      ensures e.eventId == "audit_" + hex[..12]
      ensures e == AuditEvent(e.eventId, eventType, resourceType, resourceId, userId, now, ipAddress, userAgent,
                              Some(if additionalData.Some? then additionalData.value else []))
      ensures auditEvents == old(auditEvents)[e.eventId := e]
      ensures AuditEvents() == old(AuditEvents()) + [e]
      ensures encounters == old(encounters) && encounterOrder == old(encounterOrder)
      ensures byPatient == old(byPatient) && byProvider == old(byProvider)
    {
      var eventId := "audit_" + hex[..12];
      var data := if additionalData.Some? && additionalData.value != [] then additionalData.value else [];
      e := AuditEvent(eventId, eventType, resourceType, resourceId, userId, now, ipAddress, userAgent, Some(data));
      TableAdd(auditOrder, auditEvents, EventIdOf, eventId, e);
      IndexAdd(byResource, auditEvents, ResourceOf, eventId, e);
      auditEvents := auditEvents[eventId := e];
      auditOrder := auditOrder + [eventId];
      byResource := Append(byResource, resourceId, eventId);
    }

    lemma {:induction false} AuditIndexAgrees(all: seq<AuditEvent>)
      requires Valid() && all == AuditEvents()
      ensures IndexSelects(all, byResource, EventIdOf, ResourceOf)
    {
      forall e, k | e in all ensures e.eventId in Lookup(byResource, k) <==> e.resourceId == k {
        TableValues(auditOrder, auditEvents, EventIdOf, e);
      }
    }

    /** `list_audit_events`: no filter lists everything in insertion order; a
        filter keeps, in that order, the events that match it. The resource
        test goes through the index. */
    method ListAuditEvents(filters: Option<AuditFilter>) returns (r: seq<AuditEvent>)
      requires Valid()
      ensures filters.None? ==> r == AuditEvents()
      ensures filters.Some? ==> r == SelectAuditEvents(AuditEvents(), filters.value)
    {
      if filters.None? {
        return AuditEvents();
      }
      AuditIndexAgrees(AuditEvents());
      r := FilterAuditEvents(AuditEvents(), filters.value, byResource);
    }

    /** `clear`: every table and index is emptied. */
    method Clear()
      modifies this
      ensures Valid()
      ensures encounters == map[] && encounterOrder == [] && byPatient == map[] && byProvider == map[]
      ensures auditEvents == map[] && auditOrder == [] && byResource == map[]
    {
      encounters, encounterOrder := map[], [];
      byPatient, byProvider := map[], map[];
      auditEvents, auditOrder := map[], [];
      byResource := map[];
    }
  }

  /** Keeping everything keeps the sequence. */
  lemma {:induction false} FilterTrue<T>(xs: seq<T>)
    ensures Filter(xs, (x: T) => true) == xs
    decreases |xs|
  {
    if xs != [] {
      FilterTrue(xs[1..]);
      assert xs == [xs[0]] + xs[1..];
    }
  }
}
