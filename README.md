# HIPAA encounter API — a Dafny model of its core

This is a model of the sequential core of a small FastAPI service. The service
stores behavioural-health encounters and keeps an audit trail of every access.
The model covers six parts:

- **PHI redaction** (`app/core/phi_redaction.py`):
  - the six `PHI_PATTERNS` regexes, run by a backtracking matcher with the same
    semantics as Python's `re.sub` with `re.IGNORECASE`;
  - `redact_phi`;
  - the recursive `redact_dict` with its `PHI_FIELDS` substring test;
  - `sanitize_error_message`, including the `str(context).lower()` test for
    which `str` of a dictionary is modelled;
  - the argument sanitising of `log_safely`;
  - `PHIRedactingFormatter.format`.
- **The in-memory store** (`app/storage/in_memory.py`). It is a class with:
  - the encounter table and the audit table, each kept with its insertion order;
  - the patient, provider and resource indexes.

  Its methods create, get, list with filters and clear. The filtered listings
  keep the source's per-criterion loop, one step per filter. Each step is proved
  against a declarative selection that the index invariant justifies.
- **The two encounter handlers** (`app/api/routes/encounters.py`). They are
  modelled as methods over the store that return either a success body with its
  status or the `HTTPException` status and detail they raise.
- **The records and validators** (`app/models/encounter.py`, `app/models/audit.py`):
  - the `EncounterType` enumeration;
  - `validate_ids` with `min_length=1`;
  - `validate_clinical_data`;
  - both date-range validators;
  - the `AuditEvent` defaults.
- **The known-id tables** (`app/core/constants.py`): the patient and provider
  UUID tables and their membership predicates.
- **The request dependencies** (`app/api/deps.py`):
  - client-IP precedence, with case-insensitive header lookup;
  - `get_current_user` on a payload that has already been decoded.

Text is ASCII. Python values (`str`, `int`, `bool`, `None`, `list`, `dict`) are
one datatype. A dictionary is an ordered sequence of entries, so insertion order
is visible the way `repr` and iteration see it. Datetimes are integers. Generated
ids, clock readings and random hex text are parameters, with freshness
preconditions where the store needs them.

Modules, one per source file plus three supporting ones:

- `Wrappers`: Option and Result;
- `PyText`: characters, `lower`, `strip`, substring search;
- `PyValue`: Python values, dictionary operations, `repr`/`str`;
- `Regex`: the `re` fragment the patterns use.

The rest are `PhiRedaction`, `PhiPatternProps`, `PhiRedactionProps`,
`PhiExamples`, `EncounterModel`, `AuditModel`, `KnownIds`, `Storage`, `Deps` and
`EncounterRoutes`.

## Model

| member | source | states |
|---|---|---|
| `Regex.IgnoreCaseNoOp` | app/core/phi_redaction.py:61 | For a character class closed under case, matching with `re.IGNORECASE` accepts exactly the characters the class holds. |
| `Regex.FirstEnd` | app/core/phi_redaction.py:61 | A match the backtracking matcher reports from position `i` ends at or after `i` and within the text; what it matches is pinned down by `FirstEndSound` and `FirstEndComplete`. |
| `Regex.TryEndsSpec` | app/core/phi_redaction.py:61 | Greedy backtracking tries the candidate run ends from the longest down. It reports the rest of the pattern's match from the LAST candidate end whose continuation matches, every longer candidate having failed, and fails exactly when every candidate fails. |
| `Regex.RepeatPick` | app/core/phi_redaction.py:61 | In a reported match, a repetition's run ends at the largest admissible end from which the rest of the pattern can still match: the run is as long as the rest allows. |
| `Regex.FirstEndSound` | app/core/phi_redaction.py:61 | Every match the backtracking matcher reports is a span the pattern describes declaratively, cut into one run per atom. |
| `Regex.FirstEndComplete` | app/core/phi_redaction.py:61 | Wherever the pattern describes some span from a position, the matcher reports a match there. |
| `Regex.ConsumingEnd` | app/core/phi_redaction.py:10-17 | A pattern with no empty match reports only matches that consume at least one character. |
| `Regex.SubFromMatch` | app/core/phi_redaction.py:61 | `re.sub` (`Sub`, scanning with `SubFrom`) replaces a match at the scan position and resumes where the match ended. |
| `Regex.SubSkip` | app/core/phi_redaction.py:61 | `re.sub` copies a stretch where the pattern matches nowhere. |
| `Regex.SubNoMatch` | app/core/phi_redaction.py:61 | A text the pattern matches nowhere comes back unchanged from `re.sub`. |
| `PhiRedaction.PatternsConsuming` | app/core/phi_redaction.py:10-17 | None of the six patterns matches the empty string, so the `re.sub` scan always advances. |
| `PhiRedaction.RedactPhiLoop` | app/core/phi_redaction.py:49-63 | The loop over the patterns, each `re.sub` rewriting the previous result, yields `RedactPhi`: the patterns applied in list order. |
| `PhiRedaction.RedactPhiValue` | app/core/phi_redaction.py:49-63 | A string argument is redacted as itself; any other value is first rendered with `str`. |
| `PhiPatternProps.SsnDashMatches` | app/core/phi_redaction.py:11 | The SSN pattern matches at `i` exactly when 3, 2 and 4 digits joined by `-` start there with no word character on either side; the match is 11 characters. |
| `PhiPatternProps.SsnDotMatches` | app/core/phi_redaction.py:12 | The same holds for the dotted SSN form. |
| `PhiPatternProps.EmailMatches` | app/core/phi_redaction.py:13 | The e-mail pattern matches at `i` exactly when an address starts there (local part, `@`, domain, `.`, two or more letters or `\|`, word boundaries at both ends). A reported match is the address greedy backtracking prefers among all addresses at `i`: its local part is the longest local-part run from `i`; its `.` is the last one after which an address can end; its end is the furthest such end after that `.`. So `a@b.cc.dd` is matched whole, not as `a@b.cc`. |
| `PhiPatternProps.LocalPartMaximal` | app/core/phi_redaction.py:13 | In any address the pattern describes, the local part ends where the greedy run of local-part characters ends. |
| `PhiPatternProps.DomainWalk` | app/core/phi_redaction.py:13 | After the `@`, the reported domain ends at the last `.` from which a top-level part can follow, and the reported end is the furthest one after it. |
| `PhiPatternProps.TopLevelWalk` | app/core/phi_redaction.py:13 | The reported top-level part is at least two characters and is the longest run of letters or `\|` after the `.` that ends at a word boundary. |
| `PhiPatternProps.EmailBlocked` | app/core/phi_redaction.py:13 | No address starts at `j` when a character that is neither a local-part character nor `@` comes before any `@`. |
| `PhiPatternProps.PhoneDashMatches` | app/core/phi_redaction.py:14 | The dashed phone pattern matches exactly 3-3-4 digit groups with no word character on either side; the match is 12 characters. |
| `PhiPatternProps.PhoneParenMatches` | app/core/phi_redaction.py:15 | The parenthesised phone pattern matches exactly as `ParenPhoneEnd` describes: a word character right before `(`, three digits, `)`, an optional whitespace character, then `ddd-dddd` and a word end. |
| `PhiPatternProps.ParenPhoneNeedsWordBefore` | app/core/phi_redaction.py:15 | Because `\b` sits before `(`, the pattern never matches at the start of the text or after a non-word character. |
| `PhiPatternProps.TenDigitsMatches` | app/core/phi_redaction.py:16 | The ten-digit pattern matches exactly ten digits with no word character on either side. |
| `PhiPatternProps.InertUnchanged` | app/core/phi_redaction.py:49-63 | A text with no digit and no `@` is returned unchanged by `redact_phi`, because every pattern needs one or the other. |
| `PhiPatternProps.MarkerFixed` | app/core/phi_redaction.py:59-63 | `[REDACTED]` itself is never rewritten. |
| `PhiExamples.SsnExample` | tests/test_phi_redaction.py:7-12 | `"Patient SSN: 123-45-6789"` becomes exactly `"Patient SSN: [REDACTED]"`. |
| `PhiExamples.EmailExample` | tests/test_phi_redaction.py:15-20 | `"Contact: patient@example.com"` becomes exactly `"Contact: [REDACTED]"`. |
| `PhiRedaction.RedactDict` | app/core/phi_redaction.py:66-98 | The output has one entry per input entry; `RedactDictKeys` and `RedactDictValue` state its keys and values. |
| `PhiRedaction.RedactDictLoop` | app/core/phi_redaction.py:66-98 | The loop over the entries builds `RedactDict`, entry by entry and in order. |
| `PhiRedaction.RedactEntryStep` | app/core/phi_redaction.py:83-96 | One loop iteration computes `RedactEntry` for its key and value. |
| `PhiRedaction.RedactListLoop` | app/core/phi_redaction.py:93-94 | The list comprehension over a list value builds `RedactItems`. |
| `PhiRedaction.RedactItemStep` | app/core/phi_redaction.py:93-94 | One element is redacted recursively when it is a dictionary, becomes `[REDACTED]` under a PHI key, and is otherwise kept. |
| `PhiRedactionProps.IsPhiFieldIff` | app/core/phi_redaction.py:80-86 | A key is PHI (`IsPhiField`) exactly when some field of `PHI_FIELDS` or of the extras, lower-cased, occurs in the lower-cased key. |
| `PhiRedactionProps.RedactDictKeys` | app/core/phi_redaction.py:81-98 | `redact_dict` keeps exactly the input's keys, in order; it never drops or adds one. |
| `PhiRedactionProps.RedactDictValue` | app/core/phi_redaction.py:83-96 | For each entry: <br>• a PHI key's non-None value becomes `[REDACTED]`; <br>• None is kept; <br>• a non-PHI dictionary is redacted with the same extras; <br>• in a non-PHI list, dictionary elements are redacted and other elements kept; <br>• every other value is kept verbatim. |
| `PhiRedactionProps.RedactDictClean` | app/core/phi_redaction.py:83-96 | In the output, every PHI key holds `[REDACTED]` or None, at every depth the function walks. |
| `PhiRedactionProps.RedactDictIdempotent` | app/core/phi_redaction.py:66-98 | Redacting an already redacted dictionary changes nothing. |
| `PhiRedactionProps.NestedListNotWalked` | app/core/phi_redaction.py:92-94 | A list directly inside a list is not walked, so an SSN field in a dictionary inside it survives. |
| `PhiRedactionProps.NoPhiWithoutABS` | app/core/phi_redaction.py:20-37 | Every PHI field holds an `a`, `s` or `b`, so a key without any of those letters, in either case, is not PHI. |
| `PhiRedactionProps.TestRecordExample` | tests/test_phi_redaction.py:23-33 | `{"patient_id": "pat_123", "encounter_id": "enc_456", "provider_id": "prov_789"}` redacts to the expected dictionary: `patient_id` is a PHI key and becomes `[REDACTED]`; `encounter_id` and `provider_id` are not and are kept. |
| `PhiRedactionProps.IpAddressIsPhi` | app/core/phi_redaction.py:34 | `ip_address` is a PHI key, with any extras, because it contains `address`. |
| `PhiRedaction.SanitizeErrorMessage` | app/core/phi_redaction.py:101-122 | The result is `redact_phi(msg)`, possibly followed once by the context suffix. Without a context, or with an empty one, it is exactly `redact_phi(msg)`. |
| `PhiRedactionProps.SanitizeOutcome` | app/core/phi_redaction.py:101-122 | `sanitize_error_message` is `redact_phi(msg)`, with the context suffix appended once exactly when the context is non-empty and its lower-cased `str` contains a PHI field as written. Without a context, or with an empty one, nothing is appended. |
| `PhiRedactionProps.CamelCaseNeverTriggers` | app/core/phi_redaction.py:119 | A camel-case field such as `patientId` never occurs in a lower-cased text, so it never triggers the suffix. |
| `PhiRedactionProps.ContextKeyTriggers` | app/core/phi_redaction.py:116-120 | A context key made of letters, digits and `_` that contains a lower-case PHI field triggers the suffix. |
| `PhiRedactionProps.SanitizeExample` | app/core/phi_redaction.py:113-122 | `"Error occurred"` with a `patient_id` context, whatever its value, becomes `"Error occurred [Context contains PHI - redacted]"`. |
| `PhiRedaction.LogSafely` | app/core/phi_redaction.py:134-154 | The call handed to `logger.log` keeps the level, carries `redact_phi` of the message, and has as many positional arguments as were given. |
| `PhiRedaction.LogSafelyLoop` | app/core/phi_redaction.py:134-154 | The argument sanitising of `log_safely`, loops included, yields `LogSafely`: the level, message, arguments and keyword arguments handed to `logger.log`. |
| `PhiRedaction.SafeKwargsLoop` | app/core/phi_redaction.py:141-150 | The keyword loop builds `SafeKwargs`, entry by entry and in order. |
| `PhiRedaction.SanitizeKwarg` | app/core/phi_redaction.py:143-150 | One keyword iteration computes `SafeKwarg`. |
| `PhiRedactionProps.LogSafelyArgs` | app/core/phi_redaction.py:137-138 | The message is redacted. String positional arguments are redacted. Every other argument is passed on unchanged, in order. |
| `PhiRedactionProps.LogSafelyExcInfo` | app/core/phi_redaction.py:134-154 | `exc_info` is removed before the keywords are sanitised. It is appended again, last and unchanged, exactly when it was given and truthy. |
| `PhiRedactionProps.SafeKwargsValues` | app/core/phi_redaction.py:141-150 | A keyword named exactly like a PHI field (ignoring case) becomes `[REDACTED]`. Otherwise a string is redacted, a dictionary goes through `redact_dict`, and anything else is kept. Names never change. |
| `PhiRedactionProps.KwargNameMustEqual` | app/core/phi_redaction.py:143 | `patient_id_hash` is a PHI key for `redact_dict` but not a PHI keyword, because keywords need equality and not containment. |
| `PhiRedactionProps.FormatterPassesInert` | app/core/phi_redaction.py:43-46 | The formatter (`FormatRecord`) returns `redact_phi` of the rendered record. So a rendered record with no digit and no `@`, and the marker itself, pass through unchanged. |
| `EncounterModel.ParseTypeValue` | app/models/encounter.py:9-16 | Every encounter type parses back from its string value. |
| `EncounterModel.TypeValueParse` | app/models/encounter.py:9-16 | Exactly the five values parse, case-sensitively, each to the member carrying it. |
| `EncounterModel.ValidateId` | app/models/encounter.py:33-37 | An empty or all-whitespace id is refused with `ID cannot be empty or whitespace only`. Any other id is kept stripped: non-empty, not starting or ending with whitespace, and obtained from the input by dropping only surrounding whitespace. |
| `EncounterModel.ValidateIdIdempotent` | app/models/encounter.py:37 | Validating an accepted id again gives the same id. |
| `EncounterModel.CheckId` | app/models/encounter.py:22-37 | An id field passes exactly when it is not all whitespace. The empty string fails `min_length=1`; a non-empty blank string fails `validate_ids`. |
| `EncounterModel.ValidateClinicalData` | app/models/encounter.py:26-45 | An absent `clinical_data` is `{}`. A given value is accepted exactly when it is a dictionary, and is kept. Anything else is refused by pydantic's `dict_type` check on `clinical_data`, the `NotADict("clinical_data")` error, before the custom validator runs. |
| `EncounterModel.MakeEncounterCreate` | app/models/encounter.py:19-45 | The payload is accepted exactly when both ids and the clinical data pass. It then holds the stripped ids and the other fields unchanged. A refusal lists one to three field errors, the patient id first when it failed. |
| `EncounterModel.RevalidateKeeps` | app/storage/in_memory.py:49-55 | Building the `Encounter` from `model_dump()` of a validated payload validates again without changing anything, and an accepted payload is `Validated`: its ids are as `validate_ids` leaves them. |
| `EncounterModel.NewEncounter` | app/storage/in_memory.py:49-55 | The stored record carries the given id and creator, the creation time as both `created_at` and `updated_at`, and exactly the payload's fields. |
| `EncounterModel.ValidateDateRange` | app/models/encounter.py:88-95 | The range is refused exactly when both dates are given and the end is before the start. Equal dates pass. An accepted end is kept. |
| `EncounterModel.MakeEncounterFilter` | app/models/encounter.py:79-95 | The filter is built with its fields as given. It fails exactly when the date range is refused, and an accepted filter has start ≤ end when both are given. |
| `AuditModel.DefaultAuditEvent` | app/models/audit.py:8-22 | An event built without the optional fields has no IP address, no user agent and `{}` as additional data. |
| `AuditModel.MakeAuditFilter` | app/models/audit.py:37-54 | The filter fails, with `end_date must be after start_date`, exactly when both dates are given and the end is before the start. Equal dates pass. |
| `KnownIds.GetPatientIds` | app/core/constants.py:75-77 | There are five distinct patient ids, in declaration order, each a valid patient id. |
| `KnownIds.GetProviderIds` | app/core/constants.py:80-82 | There are four distinct provider ids, in declaration order, each a valid provider id. |
| `KnownIds.IsValidPatientIdIff` | app/core/constants.py:55-62 | A string is a valid patient id (`IsValidPatientId`) exactly when it is one of the table's keys. |
| `KnownIds.IsValidProviderIdIff` | app/core/constants.py:65-72 | A string is a valid provider id (`IsValidProviderId`) exactly when it is one of the table's keys. |
| `KnownIds.PatientsAndProvidersDisjoint` | app/core/constants.py:7-52 | No id is both a valid patient and a valid provider. |
| `KnownIds.UnknownUuidRefused` | app/core/constants.py:55-62 | A well-formed UUID outside the table, `550e8400-e29b-41d4-a716-446655449999`, is refused. |
| `KnownIds.PatientKeysShaped` | app/core/constants.py:7-28 | Every patient key is a canonical UUID and the keys are distinct, so the UUID parse never refuses a key. |
| `KnownIds.ProviderKeysShaped` | app/core/constants.py:31-52 | Every provider key is a canonical UUID and the keys are distinct. |
| `Deps.HeaderGet` | app/api/deps.py:55 | Header lookup ignores case. It answers the first matching header's value, and None exactly when no header matches. |
| `Deps.GetClientIp` | app/api/deps.py:52-68 | The IP is taken from the first of these that applies: <br>• a non-empty `X-Forwarded-For`; <br>• else a non-empty `X-Real-IP`, verbatim; <br>• else the client host, or None. |
| `Deps.ForwardedFirstHop` | app/api/deps.py:55-57 | With `X-Forwarded-For` given, the IP is the text before its first comma, stripped of surrounding whitespace. |
| `Deps.ForwardedOverridesClient` | app/api/deps.py:55-57 | With `X-Forwarded-For` given, the client host plays no part. |
| `Deps.GetCurrentUser` | app/api/deps.py:30-49 | These give 401 with `WWW-Authenticate: Bearer`: <br>• no payload, with `Could not validate credentials`; <br>• a payload whose `sub` is missing or None, with `Token missing user identifier`. <br>Any other payload is accepted. |
| `Deps.Unauthorized` | app/api/deps.py:30-47 | The refusal is a 401 with `WWW-Authenticate: Bearer`, and a message with no digit and no `@` reaches the client unchanged. |
| `Deps.UnauthorizedDetails` | app/api/deps.py:30-47 | Both 401 messages pass sanitising unchanged. |
| `Deps.CurrentUserShape` | app/api/deps.py:49 | The user is `user_id` first, then every other payload entry. A payload `user_id` overrides `sub`. |
| `Deps.MergeFromSubject` | app/api/deps.py:49 | `{"user_id": sub, **payload}` equals `user_id` (the payload's own if it has one, else `sub`) followed by the payload without `user_id`. |
| `Storage.SelectEncountersMembers` | app/storage/in_memory.py:99-120 | An encounter is in the filtered listing exactly when it is stored and meets every truthy criterion: patient, provider, type, date ≥ start, date ≤ end. |
| `Storage.SelectEncountersUnfiltered` | app/storage/in_memory.py:99-120 | A filter with no truthy criterion lists everything. |
| `Storage.SelectAuditEventsMembers` | app/storage/in_memory.py:188-211 | An event is in the filtered listing exactly when it is stored and meets every truthy criterion: resource type, resource id, user, event type, time ≥ start, time ≤ end. |
| `Storage.FilterEncounters` | app/storage/in_memory.py:99-120 | The step-by-step narrowing, with patient and provider going through their indexes, yields the declarative selection in insertion order, provided each index selects exactly the encounters with that key. |
| `Storage.EncountersByPatient` | app/storage/in_memory.py:103-105 | Narrowing by the patient index is the same as keeping the encounters whose `patient_id` is the filter's. |
| `Storage.EncountersByProvider` | app/storage/in_memory.py:107-109 | Narrowing by the provider index is the same as keeping the encounters whose `provider_id` is the filter's. |
| `Storage.EncountersByType` | app/storage/in_memory.py:111-112 | The type step applies the type criterion. |
| `Storage.EncountersFromDate` | app/storage/in_memory.py:114-115 | The start-date step applies `date >= start`. |
| `Storage.EncountersUntilDate` | app/storage/in_memory.py:117-118 | The end-date step applies `date <= end`. |
| `Storage.FilterAuditEvents` | app/storage/in_memory.py:188-211 | The step-by-step narrowing, with the resource id going through its index, yields the declarative audit selection in insertion order. |
| `Storage.AuditByResourceType` | app/storage/in_memory.py:192-193 | The resource-type step applies its criterion. |
| `Storage.AuditByResource` | app/storage/in_memory.py:195-197 | Narrowing by the resource index is the same as keeping the events whose `resource_id` is the filter's. |
| `Storage.AuditByUser` | app/storage/in_memory.py:199-200 | The user step applies its criterion. |
| `Storage.AuditByEventType` | app/storage/in_memory.py:202-203 | The event-type step applies its criterion. |
| `Storage.AuditFromDate` | app/storage/in_memory.py:205-206 | The start step applies `timestamp >= start`. |
| `Storage.AuditUntilDate` | app/storage/in_memory.py:208-209 | The end step applies `timestamp <= end`. |
| `Storage.InMemoryStorage.constructor` | app/storage/in_memory.py:20-31 | All five tables start empty and the store invariant holds. |
| `Storage.InMemoryStorage.CreateEncounter` | app/storage/in_memory.py:33-72 | Given a payload already validated (`Validated`: its ids as `validate_ids` leaves them, so the rebuild at lines 49-55 accepts it unchanged) and a fresh id, the new record is stored under it and appended to the listing. Earlier records are unchanged. The audit tables are untouched. The invariant, indexes included, is kept. |
| `Storage.InMemoryStorage.GetEncounter` | app/storage/in_memory.py:74-84 | The stored record is answered, or None exactly when the id is absent. |
| `Storage.InMemoryStorage.StoredIsListed` | app/storage/in_memory.py:96-97 | Every stored encounter appears in the unfiltered listing. |
| `Storage.InMemoryStorage.EncounterIndexesAgree` | app/storage/in_memory.py:61-70 | Under the invariant, the patient and provider indexes list exactly the stored encounters with that patient or provider. |
| `Storage.InMemoryStorage.ListEncounters` | app/storage/in_memory.py:86-120 | No filter lists every encounter in insertion order. A filter lists exactly the stored encounters meeting it, in insertion order. |
| `Storage.InMemoryStorage.CreateAuditEvent` | app/storage/in_memory.py:122-173 | The event id is `audit_` plus the first 12 hex characters. A missing or empty `additional_data` becomes `{}`. The event is stored and appended to the listing. The encounter tables are untouched. The invariant is kept. |
| `Storage.InMemoryStorage.AuditIndexAgrees` | app/storage/in_memory.py:168-171 | Under the invariant, the resource index lists exactly the stored events of that resource. |
| `Storage.InMemoryStorage.ListAuditEvents` | app/storage/in_memory.py:175-211 | No filter lists every event in insertion order. A filter lists exactly the stored events meeting it, in insertion order. |
| `Storage.InMemoryStorage.Clear` | app/storage/in_memory.py:213-219 | All five tables are empty afterwards and the invariant holds. |
| `EncounterRoutes.NoFilterMatchesAll` | app/api/routes/encounters.py:126 | Without a truthy filter every encounter matches, so skipping the check refuses nothing the listing would keep. |
| `EncounterRoutes.FiltersApplied` | app/api/routes/encounters.py:146-153 | The access record holds exactly one key, `filters_applied`. |
| `EncounterRoutes.CreateEncounterRoute` | app/api/routes/encounters.py:16-75 | The payload is one FastAPI has already validated. It answers success exactly when the user has a string `user_id`: <br>• the encounter is stored last; <br>• exactly one `encounter_created` event, naming the type, is appended; <br>• the answer is 201. <br>A missing `user_id` gives 500 with the fixed message. A non-string one gives 422. Neither changes the store. |
| `EncounterRoutes.GetEncounterRoute` | app/api/routes/encounters.py:78-186 | The checks run in the code's order: <br>• 500 for a missing `user_id`; <br>• 404 `Encounter not found: <id>` (sanitised); <br>• 422 for a reversed date range; <br>• 404 when a given filter does not match; <br>• 422 for a non-string user. <br>No failure changes the store. A success answers the stored encounter with 200 and appends exactly one `encounter_accessed` event recording which filters were passed. |
| `EncounterRoutes.FixedDetailsKept` | app/api/routes/encounters.py:129-134 | The three fixed refusal messages reach the client exactly as written, including with the `error_type` context. |
| `EncounterRoutes.KeyErrorContextClean` | app/api/routes/encounters.py:70 | `{"error_type": "KeyError"}` mentions no PHI field, so no suffix is added. |
| `EncounterRoutes.SingleEntryClean` | app/core/phi_redaction.py:119 | A one-entry context of plain text with no `a`, `s` or `d`, in either case, mentions no PHI field. |

## Left out

- Text is ASCII only. Unicode case mapping, Unicode `\d`, `\b` and `\s`, and Unicode `str.strip` are not modelled. Whitespace is the ASCII set Python's `\s` and `strip` use (9–13 and 28–32).
- The regex engine covers only what the six patterns use: word boundaries, literal characters, and bounded or unbounded greedy repetition of a character class. It is not a general `re`.
- Logging I/O is left out:
  - `logger.log`, the handler wiring and the `log_safely` calls inside the handlers;
  - `LogSafely` is the sanitised call that would be handed to `logging`.

  The standard library's refusal of unknown keyword names is not modelled.
- `PhiRedaction.RedactPhi`: idempotence, `redact_phi(redact_phi(s)) == redact_phi(s)`, is not proved. Only the marker itself and texts with no digit and no `@` are proved fixed points (`MarkerFixed`, `InertUnchanged`); the general case needs a proof that no pattern can match across the seam between a marker and its neighbours.
- `EncounterModel.ValidateClinicalData`: the custom `validate_clinical_data` refusal, `clinical_data must be a dictionary`, is dead code. The `Dict[str, Any]` type check refuses a non-dictionary first, so the model refuses with pydantic's `dict_type` error instead. The wording of that pydantic report is not modelled.
- `redact_phi` turns a non-string argument into text first. `RedactPhiValue` does this through the modelled `str`, which has no contract beyond its definition. Floats and other Python types are not values of the model.
- The sanitised-but-unused `str(redact_dict(context))` in `sanitize_error_message` has no effect on the result and is omitted.
- Authentication is left out: JWT decoding and password checking happen in `app/core/security`, which is not part of this model. `GetCurrentUser` takes the decoded payload, or None, as input.
- Pydantic itself is left out:
  - type coercion;
  - aggregation of its error text;
  - the wording of its validation reports.

  Field types are taken as already coerced. The text a `ValidationError` would carry is a parameter of the handlers (`userReport`, `rangeReport`).
- `EncounterRoutes.CreateEncounterRoute` models two failure paths:
  - a missing `user_id`, which is a `KeyError` and gives 500;
  - a non-string `user_id`, which fails pydantic's check of `created_by` and gives 422.

  Other exceptions of the runtime, such as memory errors, are not modelled.
- `EncounterRoutes.GetEncounterRoute` models the same two failure paths. A malformed date or encounter type in the query is refused by FastAPI before the handler runs, and is outside the model.
- Ids are strings throughout. The source keys encounters by `uuid.UUID` but the route looks them up by the `str` path parameter; the model follows the string keys. As written, that lookup compares a `str` with `UUID` keys (app/storage/in_memory.py:57, 84), and so do the patient and provider index filters (lines 103-109); the model's successful GET and its index filtering rely on the string-key choice. How pydantic treats a `UUID` passed to a `str` field is not modelled.
- UUID parsing in `is_valid_patient_id` is modelled as the canonical 8-4-4-4-12 hex form. Python's `UUID()` also accepts braces, a `urn:uuid:` prefix and undashed text; this does not change the result, because a key must also be in the table.
- The remaining record fields of the known-id tables are not modelled: names, specialties and status.
- Timezone-naive and timezone-aware datetimes that Python refuses to compare (a `TypeError`) are outside the model, because dates are integers.
- Id generation (`uuid4`), the clock (`utcnow`) and random hex text are parameters. The store requires fresh encounter and audit ids; a collision is not modelled.
- The FastAPI wiring is left out: `app/main.py`, the audit route, configuration and scripts.
- Some test expectations are not modelled because the code does not back them:
  - `pat_123` disappearing from a sanitised message;
  - 400/422 for unknown patient or provider ids on create;
  - a 403 for non-admin users.
- A redaction pass for UUIDs, key dropping and an allow-list of approved identifiers are not modelled: the redaction code does not have them. The model follows the code.
