/**
 * The hard-coded tables of known patients and providers and the checks that
 * an id names one of them. Only the ids of the tables are modelled; the
 * name, specialty and status attached to each id are not read by the core.
 */
module KnownIds {
  import opened PyText

  const KnownPatients: seq<string> := [
    "550e8400-e29b-41d4-a716-446655440000",
    "550e8400-e29b-41d4-a716-446655440001",
    "550e8400-e29b-41d4-a716-446655440002",
    "550e8400-e29b-41d4-a716-446655440003",
    "550e8400-e29b-41d4-a716-446655440004"
  ]

  const KnownProviders: seq<string> := [
    "750e8400-e29b-41d4-a716-446655440000",
    "750e8400-e29b-41d4-a716-446655440001",
    "750e8400-e29b-41d4-a716-446655440002",
    "750e8400-e29b-41d4-a716-446655440003"
  ]

  predicate AllHex(g: string) { forall k :: 0 <= k < |g| ==> IsHexDigit(g[k]) }

  /** The canonical text form of a UUID: 32 hex digits in groups of 8, 4, 4, 4
      and 12 joined by hyphens. */
  predicate UuidShaped(s: string)
  {
    && |s| == 36
    && s[8] == '-' && s[13] == '-' && s[18] == '-' && s[23] == '-'
    && AllHex(s[..8]) && AllHex(s[9..13]) && AllHex(s[14..18]) && AllHex(s[19..23]) && AllHex(s[24..])
  }

  /** `is_valid_patient_id`: the id must parse as a UUID and be a key of the
      known-patient table. */
  predicate IsValidPatientId(id: string)
  {
    UuidShaped(id) && id in KnownPatients
  }

  /** `is_valid_provider_id`, the same check against the known-provider table. */
  predicate IsValidProviderId(id: string)
  {
    UuidShaped(id) && id in KnownProviders
  }

  /** `get_patient_ids`: the table's keys in their written order. */
  function GetPatientIds(): (ids: seq<string>)
    ensures |ids| == 5
    ensures forall i :: 0 <= i < |ids| ==> IsValidPatientId(ids[i])
    ensures forall i, j :: 0 <= i < j < |ids| ==> ids[i] != ids[j]
  {
    PatientKeysShaped();
    KnownPatients
  }

  /** `get_provider_ids`: the table's keys in their written order. */
  function GetProviderIds(): (ids: seq<string>)
    ensures |ids| == 4
    ensures forall i :: 0 <= i < |ids| ==> IsValidProviderId(ids[i])
    ensures forall i, j :: 0 <= i < j < |ids| ==> ids[i] != ids[j]
  {
    ProviderKeysShaped();
    KnownProviders
  }

  /** A patient id is valid exactly when it is one of the listed ids: every key
      parses, so the UUID check never refuses a known id. */
  lemma {:induction false} IsValidPatientIdIff(id: string)
    ensures IsValidPatientId(id) <==> id in GetPatientIds()
  {
    var ids := GetPatientIds();
    if id in ids {
      var i :| 0 <= i < |ids| && ids[i] == id;
      assert IsValidPatientId(ids[i]);
    }
  }

  lemma {:induction false} IsValidProviderIdIff(id: string)
    ensures IsValidProviderId(id) <==> id in GetProviderIds()
  {
    var ids := GetProviderIds();
    if id in ids {
      var i :| 0 <= i < |ids| && ids[i] == id;
      assert IsValidProviderId(ids[i]);
    }
  }

  /** No id is both a known patient and a known provider. */
  lemma {:induction false} PatientsAndProvidersDisjoint(id: string)
    ensures !(IsValidPatientId(id) && IsValidProviderId(id))
  {
    forall i, j | 0 <= i < |KnownPatients| && 0 <= j < |KnownProviders|
      ensures KnownPatients[i] != KnownProviders[j]
    {
      PatientKeyForm(i);
      ProviderKeyForm(j);
      assert KnownPatients[i][0] != KnownProviders[j][0];
    }
  }

  /** A well-formed UUID that is not in the table is refused. */
  lemma {:induction false} UnknownUuidRefused()
    ensures UuidShaped("550e8400-e29b-41d4-a716-446655449999")
    ensures !IsValidPatientId("550e8400-e29b-41d4-a716-446655449999")
  {
    var s := "550e8400-e29b-41d4-a716-446655449999";
    UnknownUuidShaped();
    forall i | 0 <= i < |KnownPatients| ensures KnownPatients[i] != s {
      PatientKeyForm(i);
      assert KnownPatients[i][35] != s[35];
    }
  }

  lemma {:induction false} UnknownUuidShaped()
    ensures UuidShaped("550e8400-e29b-41d4-a716-446655449999")
  {
    StemGroups();
    var t := "446655449999";
    assert AllHex(t) by {
      forall k | 0 <= k < |t| ensures IsHexDigit(t[k]) { }
    }
    assert "550e8400-e29b-41d4-a716-446655449999"
      == "550e8400" + "-" + "e29b" + "-" + "41d4" + "-" + "a716" + "-" + t;
    Groups("550e8400-e29b-41d4-a716-446655449999", "550e8400", "e29b", "41d4", "a716", t);
  }

  // ---------------------------------------------------------------------
  // The keys are UUID-shaped

  lemma {:induction false} Groups(s: string, a: string, b: string, c: string, d: string, e: string)
    requires s == a + "-" + b + "-" + c + "-" + d + "-" + e
    requires |a| == 8 && |b| == 4 && |c| == 4 && |d| == 4 && |e| == 12
    requires AllHex(a) && AllHex(b) && AllHex(c) && AllHex(d) && AllHex(e)
    ensures UuidShaped(s)
  {
    assert s[..8] == a;
    assert s[9..13] == b;
    assert s[14..18] == c;
    assert s[19..23] == d;
    assert s[24..] == e;
  }

  lemma {:induction false} StemGroups()
    ensures AllHex("550e8400") && AllHex("750e8400") && AllHex("e29b") && AllHex("41d4") && AllHex("a716")
  {
  }

  lemma {:induction false} LastGroup(d: char)
    requires IsDigit(d)
    ensures AllHex("44665544000" + [d])
  {
    var t := "44665544000" + [d];
    forall k | 0 <= k < |t| ensures IsHexDigit(t[k]) {
      if k < 11 { assert t[k] == "44665544000"[k]; }
    }
  }

  const PatientStem: string := "550e8400-e29b-41d4-a716-44665544000"

  const ProviderStem: string := "750e8400-e29b-41d4-a716-44665544000"

  /** The groups every known key shares after its first one, less the final digit. */
  const SharedGroups: string := "-e29b-41d4-a716-44665544000"

  function Digit(i: nat): char
    requires i < 10
  {
    ('0' as int + i) as char
  }

  /** Each patient id is the common stem followed by its position as a digit. */
  lemma {:induction false} PatientKeyForm(i: nat)
    requires i < |KnownPatients|
    ensures KnownPatients[i] == PatientStem + [Digit(i)]
  {
    if i == 0 {
      assert KnownPatients[0] == PatientStem + ['0'];
    } else if i == 1 {
      assert KnownPatients[1] == PatientStem + ['1'];
    } else if i == 2 {
      assert KnownPatients[2] == PatientStem + ['2'];
    } else if i == 3 {
      assert KnownPatients[3] == PatientStem + ['3'];
    } else {
      assert KnownPatients[4] == PatientStem + ['4'];
    }
  }

  lemma {:induction false} ProviderKeyForm(i: nat)
    requires i < |KnownProviders|
    ensures KnownProviders[i] == ProviderStem + [Digit(i)]
  {
    if i == 0 {
      assert KnownProviders[0] == ProviderStem + ['0'];
    } else if i == 1 {
      assert KnownProviders[1] == ProviderStem + ['1'];
    } else if i == 2 {
      assert KnownProviders[2] == ProviderStem + ['2'];
    } else {
      assert KnownProviders[3] == ProviderStem + ['3'];
    }
  }

  /** A table key: a first group, the shared middle groups, and a last group
      ending in one digit. */
  lemma {:induction false} PatientStemSplit()
    ensures PatientStem == "550e8400" + SharedGroups
  {
  }

  lemma {:induction false} ProviderStemSplit()
    ensures ProviderStem == "750e8400" + SharedGroups
  {
  }

  lemma {:induction false} KeyShaped(head: string, d: char)
    requires |head| == 8 && AllHex(head) && IsDigit(d)
    ensures UuidShaped(head + SharedGroups + [d])
  {
    StemGroups();
    LastGroup(d);
    var key := head + SharedGroups + [d];
    assert key == head + "-" + "e29b" + "-" + "41d4" + "-" + "a716" + "-" + ("44665544000" + [d]);
    Groups(key, head, "e29b", "41d4", "a716", "44665544000" + [d]);
  }

  lemma {:induction false} PatientKeysShaped()
    ensures forall i :: 0 <= i < |KnownPatients| ==> UuidShaped(KnownPatients[i])
    ensures forall i, j :: 0 <= i < j < |KnownPatients| ==> KnownPatients[i] != KnownPatients[j]
  {
    StemGroups();
    forall i | 0 <= i < |KnownPatients| ensures UuidShaped(KnownPatients[i]) {
      PatientKeyForm(i);
      PatientStemSplit();
      KeyShaped("550e8400", Digit(i));
    }
    forall i, j | 0 <= i < j < |KnownPatients| ensures KnownPatients[i] != KnownPatients[j] {
      PatientKeyForm(i);
      PatientKeyForm(j);
      assert KnownPatients[i][35] != KnownPatients[j][35];
    }
  }

  lemma {:induction false} ProviderKeysShaped()
    ensures forall i :: 0 <= i < |KnownProviders| ==> UuidShaped(KnownProviders[i])
    ensures forall i, j :: 0 <= i < j < |KnownProviders| ==> KnownProviders[i] != KnownProviders[j]
  {
    StemGroups();
    forall i | 0 <= i < |KnownProviders| ensures UuidShaped(KnownProviders[i]) {
      ProviderKeyForm(i);
      ProviderStemSplit();
      KeyShaped("750e8400", Digit(i));
    }
    forall i, j | 0 <= i < j < |KnownProviders| ensures KnownProviders[i] != KnownProviders[j] {
      ProviderKeyForm(i);
      ProviderKeyForm(j);
      assert KnownProviders[i][35] != KnownProviders[j][35];
    }
  }
}
