/**
 * Request dependencies of the API: the caller's address as the handlers record
 * it, and the current user built from a token payload that has already been
 * decoded (token decoding itself is not part of this model).
 */
module Deps {
  import opened Wrappers
  import opened PyText
  import opened PyValue
  import opened PhiRedaction
  import opened PhiPatternProps

  datatype Header = Header(name: string, value: string)

  /** What the handlers read from a request: its headers, in order, and the
      host of the connected client when there is one. */
  datatype Request = Request(headers: seq<Header>, clientHost: Option<string>)

  /** `headers.get(name)`: header names compare without regard to case and the
      first header of that name wins. */
  function HeaderGet(headers: seq<Header>, name: string): (r: Option<string>)
    ensures r.None? <==> forall i :: 0 <= i < |headers| ==> LowerStr(headers[i].name) != LowerStr(name)
    ensures r.Some? ==> exists i :: 0 <= i < |headers| && headers[i].value == r.value
                          && LowerStr(headers[i].name) == LowerStr(name)
                          && forall j :: 0 <= j < i ==> LowerStr(headers[j].name) != LowerStr(name)
  {
    if headers == [] then None
    else if LowerStr(headers[0].name) == LowerStr(name) then Some(headers[0].value)
    else
      var r := HeaderGet(headers[1..], name);
      assert forall i :: 0 < i < |headers| ==> headers[i] == headers[1..][i - 1];
      r
  }

  /** `get_client_ip`: the first hop of `X-Forwarded-For`, else `X-Real-IP`, else
      the connected client's host. */
  function GetClientIp(req: Request): (r: Option<string>)
    ensures Given(HeaderGet(req.headers, "X-Forwarded-For")) ==> r.Some?
    ensures (!Given(HeaderGet(req.headers, "X-Forwarded-For")) && Given(HeaderGet(req.headers, "X-Real-IP")))
              ==> r == HeaderGet(req.headers, "X-Real-IP")
    ensures (!Given(HeaderGet(req.headers, "X-Forwarded-For")) && !Given(HeaderGet(req.headers, "X-Real-IP")))
              ==> r == req.clientHost
  {
    var forwarded := HeaderGet(req.headers, "X-Forwarded-For");
    if Given(forwarded) then Some(Strip(BeforeFirst(forwarded.value, ',')))
    else
      var realIp := HeaderGet(req.headers, "X-Real-IP");
      if Given(realIp) then realIp
      else req.clientHost
  }

  /** When `X-Forwarded-For` is given, the address is its first comma-separated
      element with surrounding whitespace removed. */
  lemma {:induction false} ForwardedFirstHop(req: Request)
    requires Given(HeaderGet(req.headers, "X-Forwarded-For"))
    ensures GetClientIp(req) == Some(Strip(BeforeFirst(HeaderGet(req.headers, "X-Forwarded-For").value, ',')))
    ensures FirstHop(HeaderGet(req.headers, "X-Forwarded-For").value, GetClientIp(req).value)
  {
    FirstHopOfList(HeaderGet(req.headers, "X-Forwarded-For").value);
  }

  /** `ip` is the first element of the comma-separated list `f`, trimmed: a
      text with no comma and no outer whitespace that sits, with only
      whitespace around it, before the first comma of `f` (or before its end). */
  predicate FirstHop(f: string, ip: string)
  {
    && ',' !in ip
    && (ip == [] || (!IsSpace(ip[0]) && !IsSpace(ip[|ip| - 1])))
    && exists i, e :: 0 <= i <= i + |ip| <= e <= |f| && f[i..i + |ip|] == ip
         && AllSpace(f[..i]) && AllSpace(f[i + |ip|..e]) && (e == |f| || f[e] == ',')
         && ',' !in f[..e]
  }

  lemma {:induction false} FirstHopOfList(f: string)
    ensures FirstHop(f, Strip(BeforeFirst(f, ',')))
  {
    var head := BeforeFirst(f, ',');
    var ip := Strip(head);
    StripSpec(head);
    var i :| 0 <= i <= |head| - |ip| && head[i..i + |ip|] == ip && AllSpace(head[..i]) && AllSpace(head[i + |ip|..]);
    var e := |head|;
    SliceWitness(f, head, ip, i);
  }

  lemma {:induction false} SliceWitness(f: string, head: string, ip: string, i: nat)
    requires head <= f && ',' !in head && (|head| < |f| ==> f[|head|] == ',')
    requires i + |ip| <= |head| && head[i..i + |ip|] == ip
    requires AllSpace(head[..i]) && AllSpace(head[i + |ip|..])
    requires ip == [] || (!IsSpace(ip[0]) && !IsSpace(ip[|ip| - 1]))
    ensures FirstHop(f, ip)
  {
    var e := |head|;
    assert head == f[..e];
    assert f[i..i + |ip|] == ip by {
      assert f[i..i + |ip|] == head[i..i + |ip|];
    }
    assert f[..i] == head[..i];
    assert f[i + |ip|..e] == head[i + |ip|..];
    assert ',' !in ip by {
      forall k | 0 <= k < |ip| ensures ip[k] != ',' {
        assert ip[k] == head[i + k];
      }
    }
  }

  /** A non-empty `X-Forwarded-For` decides the address whatever the client's
      own host: the header, which the caller controls, wins. */
  lemma {:induction false} ForwardedOverridesClient(req: Request, host: Option<string>)
    requires Given(HeaderGet(req.headers, "X-Forwarded-For"))
    ensures GetClientIp(Request(req.headers, host)) == GetClientIp(req)
  {
  }

  // ---------------------------------------------------------------------
  // get_current_user

  const CredentialsMessage: string := "Could not validate credentials"

  const MissingSubjectMessage: string := "Token missing user identifier"

  /** The `HTTPException` a dependency raises. */
  datatype HttpError = HttpError(status: int, detail: string, headers: seq<Header>)

  /** The 401 refusal, with its sanitised detail and the `Bearer` challenge. */
  function Unauthorized(msg: string): (r: HttpError)
    ensures r.status == 401 && r.headers == [Header("WWW-Authenticate", "Bearer")]
    ensures Inert(msg) ==> r.detail == msg
  {
    InertDetail(msg);
    HttpError(401, SanitizeErrorMessage(msg, None), [Header("WWW-Authenticate", "Bearer")])
  }

  lemma {:induction false} InertDetail(msg: string)
    ensures Inert(msg) ==> SanitizeErrorMessage(msg, None) == msg
  {
    if Inert(msg) {
      InertUnchanged(msg);
    }
  }

  /** `get_current_user` given the decoded payload (None when the token did not
      decode). A `sub` that is missing or null is refused; otherwise the user is
      `{"user_id": sub, **payload}`. */
  function GetCurrentUser(payload: Option<Dict>): (r: Result<Dict, HttpError>)
    ensures payload.None? ==> r == Err(Unauthorized(CredentialsMessage))
    ensures payload.Some? ==> (r.Err? <==> Get(payload.value, "sub") in {None, Some(VNone)})
    ensures payload.Some? && Get(payload.value, "sub") in {None, Some(VNone)} ==>
              r == Err(Unauthorized(MissingSubjectMessage))
    ensures r.Err? ==> r.error.status == 401 && r.error.headers == [Header("WWW-Authenticate", "Bearer")]
  {
    match payload
    case None => Err(Unauthorized(CredentialsMessage))
    case Some(p) =>
      match Get(p, "sub")
      case None => Err(Unauthorized(MissingSubjectMessage))
      case Some(VNone) => Err(Unauthorized(MissingSubjectMessage))
      case Some(sub) => Ok(Update([Entry("user_id", sub)], p))
  }

  /** The two refusals carry their messages unchanged: neither holds anything the
      redaction rewrites. */
  lemma {:induction false} UnauthorizedDetails()
    ensures Unauthorized(CredentialsMessage).detail == CredentialsMessage
    ensures Unauthorized(MissingSubjectMessage).detail == MissingSubjectMessage
  {
    CredentialsInert();
    MissingSubjectInert();
    InertUnchanged(CredentialsMessage);
    InertUnchanged(MissingSubjectMessage);
  }

  lemma {:induction false} CredentialsInert()
    ensures Inert(CredentialsMessage)
  {
    var a := CredentialsMessage;
    assert forall k :: 0 <= k < |a| ==> !IsDigit(a[k]) && a[k] != '@';
  }

  lemma {:induction false} MissingSubjectInert()
    ensures Inert(MissingSubjectMessage)
  {
    var a := MissingSubjectMessage;
    assert forall k :: 0 <= k < |a| ==> !IsDigit(a[k]) && a[k] != '@';
  }

  /** The value the user dictionary ends up holding under `user_id`: the
      payload's own `user_id` when it has one, else the subject. */
  function UserIdOr(p: Dict, sub: Value): Value
  {
    match Get(p, "user_id")
    case Some(v) => v
    case None => sub
  }

  /** The merged user: `user_id` first, holding the payload's own `user_id` when
      there is one (it overrides the subject) and the subject otherwise; then
      every other payload entry, in the payload's order. */
  lemma {:induction false} CurrentUserShape(p: Dict)
    requires UniqueKeys(p)
    requires Get(p, "sub").Some? && Get(p, "sub") != Some(VNone)
    ensures GetCurrentUser(Some(p)) == Ok([Entry("user_id", UserIdOr(p, Get(p, "sub").value))] + Without(p, "user_id"))
  {
    var sub := Get(p, "sub").value;
    assert GetCurrentUser(Some(p)) == Ok(Update([Entry("user_id", sub)], p));
    MergeFromSubject(sub, p);
  }

  lemma {:induction false} MergeFromSubject(sub: Value, p: Dict)
    requires UniqueKeys(p)
    ensures Update([Entry("user_id", sub)], p) == [Entry("user_id", UserIdOr(p, sub))] + Without(p, "user_id")
  {
    var none: Dict := [];
    var before, after := [Entry("user_id", sub)], [Entry("user_id", UserIdOr(p, sub))];
    assert Keys(none) == [];
    MergeShape(sub, none, p);
    assert before + none == before;
    assert after + none + Without(p, "user_id") == after + Without(p, "user_id");
  }

  /** The induction behind `CurrentUserShape`: putting the entries of `rest` into a
      dictionary that starts with `user_id` and otherwise shares no key with
      `rest` replaces the `user_id` value in place and appends the other
      entries. */
  lemma {:induction false} MergeShape(v: Value, w: Dict, rest: Dict)
    requires "user_id" !in Keys(w)
    requires UniqueKeys(rest)
    requires forall e :: e in rest ==> e.key !in Keys(w)
    ensures Update([Entry("user_id", v)] + w, rest)
         == [Entry("user_id", UserIdOr(rest, v))] + w + Without(rest, "user_id")
    decreases |rest|
  {
    var d := [Entry("user_id", v)] + w;
    if rest == [] {
      assert Without(rest, "user_id") == [];
      assert Get(rest, "user_id") == None;
    } else {
      var e, tail := rest[0], rest[1..];
      TailFacts(rest);
      assert Update(d, rest) == Update(Put(d, e.key, e.val), tail);
      if e.key == "user_id" {
        PutHead(v, w, e.val);
        MergeShape(e.val, w, tail);
        assert UserIdOr(tail, e.val) == e.val;
        assert Without(rest, "user_id") == Without(tail, "user_id");
        assert UserIdOr(rest, v) == e.val;
      } else {
        assert e in rest;
        PutAbsent(d, e.key, e.val);
        KeysAppend(w, e);
        assert d + [e] == [Entry("user_id", v)] + (w + [e]);
        forall x | x in tail ensures x.key !in Keys(w + [e]) {
          assert x in rest;
        }
        MergeShape(v, w + [e], tail);
        assert Without(rest, "user_id") == [e] + Without(tail, "user_id");
        assert UserIdOr(rest, v) == UserIdOr(tail, v);
        Regroup([Entry("user_id", UserIdOr(rest, v))], w, e, Without(tail, "user_id"));
      }
    }
  }

  /** The tail of a dictionary keeps distinct keys, none equal to the head's. */
  lemma {:induction false} TailFacts(rest: Dict)
    requires rest != [] && UniqueKeys(rest)
    ensures UniqueKeys(rest[1..])
    ensures rest[0].key == "user_id" ==> Get(rest[1..], "user_id").None?
    ensures forall x :: x in rest[1..] ==> x in rest
  {
    var tail := rest[1..];
    forall i, j | 0 <= i < j < |tail| ensures tail[i].key != tail[j].key {
      assert tail[i] == rest[i + 1] && tail[j] == rest[j + 1];
    }
  }

  lemma {:induction false} PutHead(v: Value, w: Dict, x: Value)
    ensures Put([Entry("user_id", v)] + w, "user_id", x) == [Entry("user_id", x)] + w
  {
    assert ([Entry("user_id", v)] + w)[1..] == w;
  }

  lemma {:induction false} Regroup(a: Dict, w: Dict, e: Entry, b: Dict)
    ensures a + (w + [e]) + b == a + w + ([e] + b)
  {
  }

  lemma {:induction false} KeysAppend(w: Dict, e: Entry)
    ensures Keys(w + [e]) == Keys(w) + [e.key]
  {
  }

  lemma {:induction false} PutAbsent(d: Dict, k: string, v: Value)
    requires k !in Keys(d)
    ensures Put(d, k, v) == d + [Entry(k, v)]
    decreases |d|
  {
    if d != [] {
      assert Keys(d)[0] == d[0].key;
      assert Keys(d[1..]) == Keys(d)[1..];
      assert Put(d, k, v) == [d[0]] + Put(d[1..], k, v);
      PutAbsent(d[1..], k, v);
      assert [d[0]] + (d[1..] + [Entry(k, v)]) == d + [Entry(k, v)];
    }
  }
}
