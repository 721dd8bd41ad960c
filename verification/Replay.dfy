/** Replay (internal/replay/replay.go): the header merge, re-signing on the way, the rows left. */
module Replay {
  import opened Text
  import opened Verify
  import opened Resign
  import Encoding
  import opened Headers
  import opened Names

  /** A request row joined with its endpoint's provider and secret. */
  datatype Stored = Stored(verb: string, contentType: string, headers: Fields, body: string,
                           provider: string, secret: string, verifiedBy: string)
  datatype Options = Options(headers: map<string, string>, body: Option<string>, resign: bool)
  datatype Message = Message(verb: string, target: string, headers: Fields, body: string)
  datatype Answer = Answered(status: int, latencyMs: int, body: string) | Failed(latencyMs: int, error: string)
  datatype Row = Row(requestID: string, target: string, status: int, latencyMs: int, error: string)

  predicate IsTransport(k: string) { EqualFold(k, "host") || EqualFold(k, "content-length") }

  predicate Skipped(k: string, skipContentType: bool)
  {
    IsTransport(k) || (skipContentType && EqualFold(k, "content-type"))
  }

  // ---------------------------------------------------------------- the header merge

  /** The stored fields that are sent again. */
  function Kept(stored: Fields, skipContentType: bool): Fields
  {
    map k | k in stored && stored[k] != [] && !Skipped(k, skipContentType) :: stored[k]
  }

  function ContentType(value: string): Fields
  {
    if value == "" then map[] else map["Content-Type" := [value]]
  }

  function Markers(requestID: string): Fields
  {
    map["X-Omnihook-Replay" := ["true"], "X-Omnihook-Request-Id" := [requestID]]
  }

  function Overrides(merged: map<string, string>): Fields
  {
    map k | k in merged && !IsTransport(k) :: [merged[k]]
  }

  /** Stored fields, then markers, then overrides, the later winning. */
  function Composed(stored: Fields, contentType: string, requestID: string, merged: map<string, string>): Fields
  {
    ContentType(contentType) + Kept(stored, true) + Markers(requestID) + Overrides(merged)
  }

  function Outgoing(stored: Fields, contentType: string, requestID: string, merged: map<string, string>): Fields
  {
    Strip(Composed(stored, contentType, requestID, merged))
  }

  ghost predicate CanonDistinct(m: map<string, string>)
  {
    forall a, b | a in m && b in m && Canon(a) == Canon(b) :: a == b
  }

  /** The same entries under canonical names. */
  ghost function Canonized(m: map<string, string>): (c: map<string, string>)
    ensures Canonical(c.Keys)
  {
    var names := set k | k in m :: Canon(k);
    forall k ensures Canon(Canon(k)) == Canon(k) { CanonIdempotent(k); }
    map c | c in names :: (var k :| k in m && Canon(k) == c; m[k])
  }

  lemma CanonizedEntry(m: map<string, string>, k: string)
    requires CanonDistinct(m) && k in m
    ensures Canon(k) in Canonized(m) && Canonized(m)[Canon(k)] == m[k]
  {
  }

  lemma CanonizedStep(m: map<string, string>, todo: set<string>, k: string)
    requires CanonDistinct(m) && k in m && k !in todo
    ensures Canonized(m - todo) == Canonized(m - (todo + {k}))[Canon(k) := m[k]]
  {
    var more, less := m - todo, m - (todo + {k});
    forall j | j in more ensures Canon(j) in Canonized(more) && Canonized(more)[Canon(j)] == m[j] {
      CanonizedEntry(more, j);
    }
    forall j | j in less ensures Canon(j) in Canonized(less) && Canonized(less)[Canon(j)] == m[j] {
      CanonizedEntry(less, j);
    }
    var c1, c2 := Canonized(more), Canonized(less)[Canon(k) := m[k]];
    forall c ensures c in c1 <==> c in c2 {
      if c in c1 {
        var j :| j in more && Canon(j) == c;
        assert j == k || j in less;
      }
    }
    forall c | c in c1 ensures c1[c] == c2[c] {
      var j :| j in more && Canon(j) == c;
      assert j == k || j in less;
    }
  }

  lemma PlusUpdate<V>(b: map<string, V>, m: map<string, V>, k: string, v: V)
    ensures (b + m)[k := v] == b + m[k := v]
  {
  }

  lemma CanonIntoStep(base: map<string, string>, r: map<string, string>, m: map<string, string>,
                      todo: set<string>, k: string)
    requires CanonDistinct(m) && k in todo && k in m && r == base + Canonized(m - todo)
    ensures r[Canon(k) := m[k]] == base + Canonized(m - (todo - {k}))
  {
    assert (todo - {k}) + {k} == todo;
    CanonizedStep(m, todo - {k}, k);
    PlusUpdate(base, Canonized(m - todo), Canon(k), m[k]);
  }

  lemma CanonizedNothing(m: map<string, string>)
    ensures Canonized(m - m.Keys) == map[] && m - {} == m
  {
    assert m - m.Keys == map[];
  }

  method CanonInto(base: map<string, string>, m: map<string, string>) returns (r: map<string, string>)
    requires Canonical(base.Keys)
    ensures Canonical(r.Keys)
    ensures CanonDistinct(m) ==> r == base + Canonized(m)
  {
    r := base;
    var todo := m.Keys;
    CanonizedNothing(m);
    while todo != {}
      invariant todo <= m.Keys && Canonical(r.Keys)
      invariant CanonDistinct(m) ==> r == base + Canonized(m - todo)
      decreases |todo|
    {
      var k :| k in todo;
      CanonIdempotent(k);
      if CanonDistinct(m) {
        CanonIntoStep(base, r, m, todo, k);
      }
      r := r[Canon(k) := m[k]];
      todo := todo - {k};
    }
  }

  // ---------------------------------------------------------------- building the request header

  method AddAll(h: Header, k: string, vv: seq<string>)
    modifies h
    ensures h.fields == if vv == [] then old(h.fields)
                        else old(h.fields)[Canon(k) := Values(old(h.fields), Canon(k)) + vv]
  {
    ghost var before := h.fields;
    for i := 0 to |vv|
      invariant Values(h.fields, Canon(k)) == Values(before, Canon(k)) + vv[..i]
      invariant h.fields == if i == 0 then before else before[Canon(k) := Values(h.fields, Canon(k))]
    {
      ghost var mid := h.fields;
      h.Add(k, vv[i]);
      assert vv[..i + 1] == vv[..i] + [vv[i]];
      assert Values(h.fields, Canon(k)) == Values(mid, Canon(k)) + [vv[i]];
      assert h.fields == before[Canon(k) := Values(h.fields, Canon(k))];
    }
    assert vv[..|vv|] == vv;
  }

  /** Restoring into a header that holds none of these names. */
  ghost predicate Restorable(before: Fields, stored: Fields, skipContentType: bool)
  {
    Canonical(stored.Keys) && before.Keys !! Kept(stored, skipContentType).Keys
  }

  lemma RestoreStep(before: Fields, h: Fields, stored: Fields, todo: set<string>, k: string, skipContentType: bool)
    requires Restorable(before, stored, skipContentType) && k in todo && k in stored
    requires h == before + Kept(stored - todo, skipContentType)
    ensures (if Skipped(k, skipContentType) || stored[k] == [] then h
             else h[Canon(k) := Values(h, Canon(k)) + stored[k]])
            == before + Kept(stored - (todo - {k}), skipContentType)
  {
    assert (todo - {k}) + {k} == todo;
    KeptStep(stored, todo - {k}, k, skipContentType);
    PlusUpdate(before, Kept(stored - todo, skipContentType), k, stored[k]);
    if !Skipped(k, skipContentType) && stored[k] != [] {
      assert k in Kept(stored, skipContentType);
      assert k !in h;
      assert [] + stored[k] == stored[k];
    }
  }

  lemma KeptNothing(stored: Fields, skipContentType: bool)
    ensures Kept(stored - stored.Keys, skipContentType) == map[] && stored - {} == stored
  {
    assert stored - stored.Keys == map[];
  }

  /** Adds back the stored fields, name by name in any order and value by value in theirs. */
  method Restore(h: Header, stored: Fields, skipContentType: bool)
    modifies h
    ensures Restorable(old(h.fields), stored, skipContentType)
            ==> h.fields == old(h.fields) + Kept(stored, skipContentType)
  {
    ghost var before := h.fields;
    var todo := stored.Keys;
    KeptNothing(stored, skipContentType);
    while todo != {}
      invariant todo <= stored.Keys
      invariant Restorable(before, stored, skipContentType)
                ==> h.fields == before + Kept(stored - todo, skipContentType)
      decreases |todo|
    {
      var k :| k in todo;
      if Restorable(before, stored, skipContentType) {
        RestoreStep(before, h.fields, stored, todo, k, skipContentType);
      }
      if !Skipped(k, skipContentType) {
        AddAll(h, k, stored[k]);
      }
      todo := todo - {k};
    }
  }

  lemma KeptStep(stored: Fields, todo: set<string>, k: string, skipContentType: bool)
    requires k in stored && k !in todo
    ensures Kept(stored - todo, skipContentType)
            == if Skipped(k, skipContentType) || stored[k] == [] then Kept(stored - (todo + {k}), skipContentType)
               else Kept(stored - (todo + {k}), skipContentType)[k := stored[k]]
  {
  }

  method Override(h: Header, merged: map<string, string>)
    requires Canonical(merged.Keys)
    modifies h
    ensures h.fields == old(h.fields) + Overrides(merged)
  {
    ghost var before := h.fields;
    var todo := merged.Keys;
    assert merged - todo == map[];
    while todo != {}
      invariant todo <= merged.Keys
      invariant h.fields == before + Overrides(merged - todo)
      decreases |todo|
    {
      var k :| k in todo;
      ghost var was := todo;
      todo := todo - {k};
      OverridesStep(merged, todo, k);
      assert todo + {k} == was;
      PlusUpdate(before, Overrides(merged - was), k, [merged[k]]);
      if !IsTransport(k) {
        h.Set(k, merged[k]);
      }
    }
    assert merged - {} == merged;
  }

  lemma OverridesStep(merged: map<string, string>, todo: set<string>, k: string)
    requires k in merged && k !in todo
    ensures Overrides(merged - todo)
            == if IsTransport(k) then Overrides(merged - (todo + {k}))
               else Overrides(merged - (todo + {k}))[k := [merged[k]]]
  {
  }

  // ---------------------------------------------------------------- one replay

  /** The provider detected at capture, or the endpoint's when none was. */
  function Effective(s: Stored): string
  {
    if s.verifiedBy in {"", "generic"} then s.provider else s.verifiedBy
  }

  function Body(s: Stored, opts: Options): string
  {
    if opts.body.Some? then opts.body.value else s.body
  }

  ghost function Signatures(mac: Mac, s: Stored, opts: Options, now: int): Refresh
  {
    if opts.resign
    then RefreshSignatures(mac, Effective(s), s.secret, Flatten(s.headers), Body(s, opts), now)
    else Signed(map[])
  }

  datatype Plan = NotFound | SsrfBlocked | ResignFailed(why: Refusal) | Unsendable | Send(message: Message)

  /** What a replay will do. `blocked` is the SSRF guard's answer for the target and
      `sendable` whether http.NewRequest accepts method and target. */
  ghost function PlanFor(mac: Mac, found: Option<Stored>, requestID: string, target: string, opts: Options,
                         blocked: bool, sendable: bool, now: int): Plan
  {
    if found.None? then NotFound else if blocked then SsrfBlocked else
    var s := found.value;
    match Signatures(mac, s, opts, now)
    case Refused(why) => ResignFailed(why)
    case Signed(signed) =>
      if !sendable then Unsendable else
      var merged := signed + Canonized(opts.headers);
      Send(Message(s.verb, target, Outgoing(s.headers, s.contentType, requestID, merged), Body(s, opts)))
  }

  const GUARDED: string := "blocked: SSRF guard (metadata host)"

  /** The text of each re-signing error, as the program words it. */
  type Wording = Refusal -> string

  function Unavailable(why: Refusal, say: Wording): string { "resign unavailable: " + say(why) }

  /** The replay row a plan leaves, once the answer is in. */
  function RowsFor(plan: Plan, requestID: string, target: string, answer: Answer, say: Wording): seq<Row>
  {
    match plan
    case NotFound => []
    case SsrfBlocked => [Row(requestID, target, 0, 0, GUARDED)]
    case ResignFailed(why) => [Row(requestID, target, 0, 0, Unavailable(why, say))]
    case Unsendable => []
    case Send(_) =>
      match answer
      case Answered(code, l, _) => [Row(requestID, target, code, l, "")]
      case Failed(l, e) => [Row(requestID, target, 0, l, e)]
  }

  /** Status, latency and message or body as the caller gets them. */
  datatype Reply = Reply(status: int, latencyMs: int, text: string)

  /** io.ReadAll(io.LimitReader(body, 64*1024)). */
  function Clip(body: string): string { if |body| <= 65536 then body else body[..65536] }

  /** `cause` is the error of http.NewRequest, where it refuses. */
  function ReplyFor(plan: Plan, requestID: string, answer: Answer, say: Wording, cause: string): Reply
  {
    match plan
    case NotFound => Reply(0, 0, "request not found: " + requestID)
    case SsrfBlocked => Reply(0, 0, GUARDED)
    case ResignFailed(why) => Reply(0, 0, Unavailable(why, say))
    case Unsendable => Reply(0, 0, cause)
    case Send(_) =>
      match answer
      case Answered(code, l, body) => Reply(code, l, Clip(body))
      case Failed(l, e) => Reply(0, l, e)
  }

  /** Rows captured by the server have canonical token names; an override names each
      header once. Otherwise the winner depends on map iteration order. */
  ghost predicate Orderly(found: Option<Stored>, opts: Options)
  {
    && (found.Some? ==> Canonical(found.value.headers.Keys) && forall k | k in found.value.headers :: IsToken(k))
    && CanonDistinct(opts.headers)
  }

  lemma OwnNamesCanonical()
    ensures Canon("Content-Type") == "Content-Type" && Lower("Content-Type") == "content-type"
    ensures Lower("content-type") == "content-type"
    ensures Canon("X-Omnihook-Replay") == "X-Omnihook-Replay"
    ensures Canon("X-Omnihook-Request-Id") == "X-Omnihook-Request-Id"
  {
    ContentTypeName();
    TypeLowered();
    XOmnihookReplayName();
    XOmnihookRequestIdName();
  }

  lemma TypeLowered()
    ensures Lower("Content-Type") == "content-type" && Lower("content-type") == "content-type"
  {
    assert Lower("Content") == "content" && Lower("-Type") == "-type";
    LowerConcat("Content", "-Type");
    assert "Content" + "-Type" == "Content-Type" && "content" + "-type" == "content-type";
    LowerTwice("Content-Type");
  }

  lemma LowerConcat(a: string, b: string)
    ensures Lower(a + b) == Lower(a) + Lower(b)
  {
  }

  lemma LowerTwice(a: string)
    ensures Lower(Lower(a)) == Lower(a)
  {
  }

  /** The replay table and the network, as one replay sees them. */
  class Replayer {
    var rows: seq<Row>
    var sent: seq<Message>

    method BuildHeader(stored: Fields, contentType: string, requestID: string, merged: map<string, string>)
      returns (fields: Fields)
      requires Canonical(merged.Keys)
      ensures Canonical(stored.Keys) ==> fields == Outgoing(stored, contentType, requestID, merged)
    {
      OwnNamesCanonical();
      var h := new Header();
      if contentType != "" {
        h.Set("Content-Type", contentType);
      }
      assert h.fields == ContentType(contentType);
      Restore(h, stored, true);
      ghost var restored := h.fields;
      h.Set("X-Omnihook-Replay", "true");
      h.Set("X-Omnihook-Request-Id", requestID);
      assert h.fields == restored + Markers(requestID);
      Override(h, merged);
      h.StripHopByHop();
      fields := h.fields;
    }

    /** Re-signed and explicit headers under canonical names, or why re-signing failed. */
    method Merge(mac: Mac, s: Stored, opts: Options, body: string, now: int)
      returns (why: Option<Refusal>, merged: map<string, string>)
      requires body == Body(s, opts)
      ensures Canonical(merged.Keys)
      ensures Orderly(Some(s), opts) ==>
                match Signatures(mac, s, opts, now)
                case Refused(w) => why == Some(w)
                case Signed(signed) => why == None && merged == signed + Canonized(opts.headers)
    {
      why, merged := None, map[];
      if opts.resign {
        var flat := LowerHeaders(s.headers);
        if Orderly(Some(s), opts) { CanonicalIsFoldUnique(flat); }
        var refreshed := Resign.Resign(mac, Effective(s), s.secret, flat, body, now);
        if refreshed.Refused? {
          why := Some(refreshed.why);
          return;
        }
        merged := CanonInto(map[], refreshed.headers);
        if Orderly(Some(s), opts) {
          SignedNames(mac, s, opts, now);
          assert merged == refreshed.headers;
        }
      }
      merged := CanonInto(merged, opts.headers);
    }

    /** One client.Do and the row that records how it ended. */
    method Transmit(requestID: string, m: Message, answer: Answer, say: Wording) returns (reply: Reply)
      modifies this
      ensures sent == old(sent) + [m]
      ensures rows == old(rows) + RowsFor(Send(m), requestID, m.target, answer, say)
      ensures reply == ReplyFor(Send(m), requestID, answer, say, "")
    {
      sent := sent + [m];
      match answer {
        case Failed(l, e) =>
          rows := rows + [Row(requestID, m.target, 0, l, e)];
          reply := Reply(0, l, e);
        case Answered(code, l, body) =>
          rows := rows + [Row(requestID, m.target, code, l, "")];
          reply := Reply(code, l, Clip(body));
      }
    }

    method SendWithOptions(mac: Mac, found: Option<Stored>, requestID: string, target: string, opts: Options,
                           blocked: bool, sendable: bool, cause: string, now: int, answer: Answer, say: Wording)
      returns (reply: Reply)
      modifies this
      ensures Orderly(found, opts) ==>
                var plan := PlanFor(mac, found, requestID, target, opts, blocked, sendable, now);
                && rows == old(rows) + RowsFor(plan, requestID, target, answer, say)
                && sent == old(sent) + (if plan.Send? then [plan.message] else [])
                && reply == ReplyFor(plan, requestID, answer, say, cause)
    {
      if found.None? { return Reply(0, 0, "request not found: " + requestID); }
      var s := found.value;
      if blocked {
        rows := rows + [Row(requestID, target, 0, 0, GUARDED)];
        return Reply(0, 0, GUARDED);
      }
      var body := if opts.body.Some? then opts.body.value else s.body;
      var why, merged := Merge(mac, s, opts, body, now);
      if why.Some? {
        rows := rows + [Row(requestID, target, 0, 0, Unavailable(why.value, say))];
        return Reply(0, 0, Unavailable(why.value, say));
      }
      if !sendable { return Reply(0, 0, cause); }
      var fields := BuildHeader(s.headers, s.contentType, requestID, merged);
      reply := Transmit(requestID, Message(s.verb, target, fields, body), answer, say);
    }
  }

  // ---------------------------------------------------------------- signature names

  const SIGNATURE_NAMES: set<string> :=
    {"Stripe-Signature", "X-Hub-Signature-256", "X-Hub-Signature", "Webhook-Id", "Svix-Id",
     "Webhook-Timestamp", "Svix-Timestamp", "Webhook-Signature", "Svix-Signature",
     "X-Razorpay-Signature", "X-Shopify-Hmac-Sha256", "X-Shopify-Topic"}

  lemma PlainName(n: string)
    requires n != "" && n[0] in {'S', 'W', 'X'}
    ensures !IsTransport(n) && !EqualFold(n, "content-type") && n != "Content-Type"
  {
    NamesDiffer(n, "host", 0);
    NamesDiffer(n, "content-length", 0);
    NamesDiffer(n, "content-type", 0);
  }

  lemma SignatureNamesAreNames(n: string)
    requires n in SIGNATURE_NAMES
    ensures IsName(n) && n[0] in {'S', 'W', 'X'}
  {
    StripeSignatureName();
    XHubSignatureName();
    XHubSignature256Name();
    WebhookIdName();
    WebhookTimestampName();
    WebhookSignatureName();
    SvixIdName();
    SvixTimestampName();
    SvixSignatureName();
    XRazorpaySignatureName();
    XShopifyHmacSha256Name();
    XShopifyTopicName();
  }

  lemma SignatureNamesAreForeign(n: string)
    requires n in SIGNATURE_NAMES
    ensures n !in {"X-Omnihook-Replay", "X-Omnihook-Request-Id"}
  {
    assert |n| > 2 && (n[0] != 'X' || n[2] != 'O');
  }

  lemma SignatureName(n: string)
    requires n in SIGNATURE_NAMES
    ensures IsName(n) && !IsTransport(n) && !EqualFold(n, "content-type")
    ensures n !in {"Content-Type", "X-Omnihook-Replay", "X-Omnihook-Request-Id"}
  {
    SignatureNamesAreNames(n);
    SignatureNamesAreForeign(n);
    PlainName(n);
  }

  lemma CanonizedNames(m: Flat)
    requires forall k | k in m :: IsName(k)
    ensures CanonDistinct(m) && Canonized(m) == m
  {
    forall k | k in m ensures Canon(k) in Canonized(m) && Canonized(m)[Canon(k)] == m[k] {
      CanonizedEntry(m, k);
    }
    assert forall c | c in Canonized(m) :: exists k :: k in m && Canon(k) == c;
  }

  lemma SignedNames(mac: Mac, s: Stored, opts: Options, now: int)
    requires Signatures(mac, s, opts, now).Signed?
    ensures var signed := Signatures(mac, s, opts, now).headers;
            signed.Keys <= SIGNATURE_NAMES && CanonDistinct(signed) && Canonized(signed) == signed
  {
    var signed := Signatures(mac, s, opts, now).headers;
    forall k | k in signed ensures IsName(k) { SignatureName(k); }
    CanonizedNames(signed);
  }

  // ---------------------------------------------------------------- re-signing survives the path

  /** What the receiver looks up under a signature name. */
  lemma NameSurvives(stored: Fields, contentType: string, requestID: string, merged: map<string, string>, n: string)
    requires Canonical(stored.Keys) && Canonical(merged.Keys) && n in SIGNATURE_NAMES
    requires Lower(n) !in HopNames(Composed(stored, contentType, requestID, merged))
    ensures Lookup(Flatten(Outgoing(stored, contentType, requestID, merged)), n)
            == if n in merged then merged[n] else Lookup(Flatten(stored), n)
  {
    SignatureName(n);
    OutgoingField(stored, contentType, requestID, merged, n);
    LookupSignature(Outgoing(stored, contentType, requestID, merged), n);
    LookupSignature(stored, n);
    JoinOne(if n in merged then merged[n] else "");
  }

  lemma JoinOne(v: string)
    ensures Join([v], ", ") == v
  {
  }

  lemma LookupSignature(h: Fields, n: string)
    requires Canonical(h.Keys) && n in SIGNATURE_NAMES
    ensures Lookup(Flatten(h), n) == Join(Values(h, n), ", ")
  {
    SignatureName(n);
    LookupCanonical(Flatten(h), n);
  }

  /** The names a provider's check reads. */
  function NamesFor(provider: string): set<string>
  {
    match provider
    case "stripe" => {"Stripe-Signature"}
    case "github" => {"X-Hub-Signature-256", "X-Hub-Signature"}
    case "standard" => {"Webhook-Id", "Svix-Id", "Webhook-Timestamp", "Svix-Timestamp",
                        "Webhook-Signature", "Svix-Signature"}
    case "razorpay" => {"X-Razorpay-Signature"}
    case "shopify" => {"X-Shopify-Hmac-Sha256", "X-Shopify-Topic"}
    case _ => {}
  }

  ghost predicate SameFor(provider: string, a: Flat, b: Flat)
  {
    forall n | n in NamesFor(provider) :: Lookup(a, n) == Lookup(b, n)
  }

  lemma StandardReadsOnly(mac: Mac, secret: string, a: Flat, b: Flat, raw: string, now: int)
    requires SameFor("standard", a, b)
    ensures Detect("standard", a) == Detect("standard", b)
    ensures StandardVerify(mac, secret, a, raw, now) == StandardVerify(mac, secret, b, raw, now)
  {
    assert Either(a, "Webhook-Id", "Svix-Id") == Either(b, "Webhook-Id", "Svix-Id");
    assert Either(a, "Webhook-Timestamp", "Svix-Timestamp") == Either(b, "Webhook-Timestamp", "Svix-Timestamp");
    assert Either(a, "Webhook-Signature", "Svix-Signature") == Either(b, "Webhook-Signature", "Svix-Signature");
  }

  lemma CarrierReadsOnly(mac: Mac, p: string, secret: string, a: Flat, b: Flat, raw: string, now: int)
    requires p in PROVIDERS && p != "standard" && SameFor(p, a, b)
    ensures Detect(p, a) == Detect(p, b)
    ensures VerifyAs(mac, p, secret, a, raw, now) == VerifyAs(mac, p, secret, b, raw, now)
  {
  }

  lemma ChainReadsOnly(mac: Mac, secret: string, provider: string, a: Flat, b: Flat, raw: string, now: int)
    requires Normal(provider) in PROVIDERS && SameFor(Normal(provider), a, b)
    ensures Chain(mac, secret, provider, a, raw, now) == Chain(mac, secret, provider, b, raw, now)
  {
    if Normal(provider) == "standard" {
      StandardReadsOnly(mac, secret, a, b, raw, now);
    } else {
      CarrierReadsOnly(mac, Normal(provider), secret, a, b, raw, now);
    }
  }

  /** The provider a row is re-signed as: the one detected at capture, unless none was. */
  predicate ResignsAs(s: Stored, p: string)
  {
    if s.verifiedBy == "" || s.verifiedBy == "generic" then p == s.provider else p == s.verifiedBy
  }

  lemma MergedPasses(mac: Mac, s: Stored, p: string, body: string, signed: Flat, now: int, later: int)
    requires Canonical(s.headers.Keys) && (forall k | k in s.headers :: IsToken(k)) && Within300(now, later)
    requires Signed(signed) == RefreshSignatures(mac, p, s.secret, Flatten(s.headers), body, now)
    requires signed.Keys <= SIGNATURE_NAMES && (Normal(p) == "standard" ==> !Shadowed(Flatten(s.headers)))
    ensures Chain(mac, s.secret, p, Flatten(s.headers) + signed, body, later) == Pass(Normal(p))
  {
    SignedFoldUnique(Flatten(s.headers), signed);
    ResignRoundTrip(mac, p, s.secret, Flatten(s.headers), body, now, later);
  }

  lemma SignedHeadersPass(mac: Mac, s: Stored, p: string, requestID: string, body: string, signed: Flat,
                          explicit: map<string, string>, now: int, later: int)
    requires Canonical(s.headers.Keys) && (forall k | k in s.headers :: IsToken(k)) && Within300(now, later)
    requires Signed(signed) == RefreshSignatures(mac, p, s.secret, Flatten(s.headers), body, now)
    requires signed.Keys <= SIGNATURE_NAMES && Normal(p) in PROVIDERS
    requires Canonical(explicit.Keys) && NamesFor(Normal(p)) !! explicit.Keys
    requires Normal(p) == "standard" ==> !Shadowed(Flatten(s.headers))
    requires forall n | n in NamesFor(Normal(p)) ::
               Lower(n) !in HopNames(Composed(s.headers, s.contentType, requestID, signed + explicit))
    ensures Chain(mac, s.secret, p,
                  Flatten(Outgoing(s.headers, s.contentType, requestID, signed + explicit)), body, later)
            == Pass(Normal(p))
  {
    var h := Flatten(s.headers);
    var sent := Flatten(Outgoing(s.headers, s.contentType, requestID, signed + explicit));
    MergedPasses(mac, s, p, body, signed, now, later);
    forall n | n in NamesFor(Normal(p)) ensures Lookup(sent, n) == Lookup(h + signed, n) {
      SentLookup(s.headers, s.contentType, requestID, signed, explicit, n);
    }
    ChainReadsOnly(mac, s.secret, p, sent, h + signed, body, later);
  }

  lemma SignedCanonical(signed: Flat)
    requires signed.Keys <= SIGNATURE_NAMES
    ensures Canonical(signed.Keys)
  {
    forall k | k in signed ensures IsName(k) { SignatureName(k); }
  }

  lemma SignedFoldUnique(h: Flat, signed: Flat)
    requires Canonical(h.Keys) && (forall k | k in h :: IsToken(k)) && signed.Keys <= SIGNATURE_NAMES
    ensures FoldUnique(h + signed)
  {
    forall k | k in signed ensures IsName(k) { SignatureName(k); }
    CanonicalIsFoldUnique(h + signed);
  }

  /** A name the caller did not override reads as if the signed headers had been merged. */
  lemma SentLookup(stored: Fields, contentType: string, requestID: string, signed: Flat,
                   explicit: map<string, string>, n: string)
    requires Canonical(stored.Keys) && Canonical(explicit.Keys) && signed.Keys <= SIGNATURE_NAMES
    requires n in SIGNATURE_NAMES && n !in explicit
    requires Lower(n) !in HopNames(Composed(stored, contentType, requestID, signed + explicit))
    ensures Lookup(Flatten(Outgoing(stored, contentType, requestID, signed + explicit)), n)
            == Lookup(Flatten(stored) + signed, n)
  {
    forall k | k in signed ensures IsName(k) { SignatureName(k); }
    NameSurvives(stored, contentType, requestID, signed + explicit, n);
    SignatureName(n);
    LookupCanonical(Flatten(stored) + signed, n);
    LookupCanonical(Flatten(stored), n);
  }

  /** What re-signing as `p` needs: a known provider and a secret, and for standard a stored
      event id and a secret that is base64. */
  ghost predicate CanResign(s: Stored, p: string)
  {
    && Normal(p) in {"stripe", "github", "standard", "razorpay", "shopify"} && s.secret != ""
    && (Normal(p) == "standard" ==>
          && (Lookup(Flatten(s.headers), "Webhook-Id") != "" || Lookup(Flatten(s.headers), "Svix-Id") != "")
          && Encoding.DecodeB64(TrimPrefix(s.secret, "whsec_")).Some?)
  }

  lemma CanResignIff(mac: Mac, s: Stored, p: string, opts: Options, now: int)
    requires ResignsAs(s, p) && opts.resign
    ensures Signatures(mac, s, opts, now).Signed? <==> CanResign(s, p)
    ensures Signatures(mac, s, opts, now)
            == RefreshSignatures(mac, p, s.secret, Flatten(s.headers),
                                 if opts.body.Some? then opts.body.value else s.body, now)
  {
    RefreshIff(mac, p, s.secret, Flatten(s.headers), Body(s, opts), now);
  }

  /** A failed re-sign reaches nobody and leaves exactly one row, which tells why. */
  lemma FailedResignSendsNothing(mac: Mac, s: Stored, p: string, requestID: string, target: string, opts: Options,
                                 sendable: bool, now: int, answer: Answer, say: Wording, cause: string)
    requires ResignsAs(s, p) && opts.resign
    ensures var plan := PlanFor(mac, Some(s), requestID, target, opts, false, sendable, now);
            && (plan.ResignFailed? <==> !CanResign(s, p))
            && (plan.ResignFailed? ==>
                  var text := "resign unavailable: " + say(plan.why);
                  && RowsFor(plan, requestID, target, answer, say) == [Row(requestID, target, 0, 0, text)]
                  && ReplyFor(plan, requestID, answer, say, cause) == Reply(0, 0, text))
  {
    CanResignIff(mac, s, p, opts, now);
  }

  /** What is sent, and when: the stored method to the given target with the given body, or
      the stored one where none is given. */
  lemma SentMessage(mac: Mac, s: Stored, p: string, requestID: string, target: string, opts: Options,
                    blocked: bool, sendable: bool, now: int)
    requires ResignsAs(s, p)
    ensures var plan := PlanFor(mac, Some(s), requestID, target, opts, blocked, sendable, now);
            && (plan.Send? <==> !blocked && sendable && (opts.resign ==> CanResign(s, p)))
            && (plan.Send? ==>
                  && plan.message.verb == s.verb && plan.message.target == target
                  && plan.message.body == (if opts.body.Some? then opts.body.value else s.body))
  {
    if opts.resign { CanResignIff(mac, s, p, opts, now); }
  }

  /** One header of what is sent: the caller's value beats the re-signed one, that beats the
      markers, those beat what was stored; what a connection or the transport owns is gone. */
  lemma SentField(mac: Mac, s: Stored, p: string, requestID: string, target: string, opts: Options, now: int, k: string)
    requires Orderly(Some(s), opts) && ResignsAs(s, p)
    requires PlanFor(mac, Some(s), requestID, target, opts, false, true, now).Send?
    ensures var body := if opts.body.Some? then opts.body.value else s.body;
            var renewed: Flat :=
              if opts.resign then RefreshSignatures(mac, p, s.secret, Flatten(s.headers), body, now).headers else map[];
            var explicit := Canonized(opts.headers);
            var composed := Composed(s.headers, s.contentType, requestID, renewed + explicit);
            Values(PlanFor(mac, Some(s), requestID, target, opts, false, true, now).message.headers, k)
            == if Lower(k) in HopNames(composed) || EqualFold(k, "host") || EqualFold(k, "content-length") then []
               else if k in explicit then [explicit[k]]
               else if k in renewed then [renewed[k]]
               else if k == "X-Omnihook-Replay" then ["true"]
               else if k == "X-Omnihook-Request-Id" then [requestID]
               else if EqualFold(k, "content-type") then
                 (if k == "Content-Type" && s.contentType != "" then [s.contentType] else [])
               else if k in s.headers then s.headers[k] else []
  {
    if opts.resign { CanResignIff(mac, s, p, opts, now); }
    SignedNames(mac, s, opts, now);
    var renewed := Signatures(mac, s, opts, now).headers;
    SignedCanonical(renewed);
    OutgoingField(s.headers, s.contentType, requestID, renewed + Canonized(opts.headers), k);
    OwnNames(k);
  }

  /** The caller's headers under canonical names. */
  lemma CanonizedIff(m: map<string, string>, c: string)
    requires CanonDistinct(m)
    ensures c in Canonized(m) <==> exists k :: k in m && Canon(k) == c
    ensures forall k | k in m && Canon(k) == c :: Canonized(m)[c] == m[k]
  {
    forall k | k in m && Canon(k) == c ensures c in Canonized(m) && Canonized(m)[c] == m[k] { CanonizedEntry(m, k); }
  }

  /** The row and the reply of what was not re-signed in vain: of the answer, at most the first
      65536 bytes of its body. */
  lemma AnswerTold(plan: Plan, requestID: string, target: string, answer: Answer, say: Wording, cause: string)
    ensures var rows, reply := RowsFor(plan, requestID, target, answer, say), ReplyFor(plan, requestID, answer, say, cause);
            match plan
            case NotFound => rows == [] && reply == Reply(0, 0, "request not found: " + requestID)
            case SsrfBlocked =>
              && rows == [Row(requestID, target, 0, 0, "blocked: SSRF guard (metadata host)")]
              && reply == Reply(0, 0, "blocked: SSRF guard (metadata host)")
            case Unsendable => rows == [] && reply == Reply(0, 0, cause)
            case ResignFailed(_) => |rows| == 1 && reply.text == rows[0].error
            case Send(_) =>
              && |rows| == 1 && rows[0].requestID == requestID && rows[0].target == target
              && rows[0].status == reply.status && rows[0].latencyMs == reply.latencyMs == answer.latencyMs
              && (answer.Failed? ==> rows[0].error == reply.text == answer.error && reply.status == 0)
              && (answer.Answered? ==>
                    && rows[0].error == "" && reply.status == answer.status && reply.text <= answer.body
                    && |reply.text| == if |answer.body| < 65536 then |answer.body| else 65536)
  {
  }

  // ---------------------------------------------------------------- every replay is recorded

  /** What url.Parse yields for a target; `metadata` says whether the host is an IP address in
      a metadata range. */
  datatype Target = Target(scheme: string, host: string, hostname: string, metadata: bool)

  const BLOCKED_HOSTS: set<string> :=
    {"169.254.169.254", "100.100.100.200", "metadata.google.internal", "metadata.google", "instance-data"}

  function TrimDot(s: string): string { if s != "" && s[|s| - 1] == '.' then s[..|s| - 1] else s }

  /** outbound.Blocked; None is a target url.Parse refuses. */
  predicate Blocked(url: Option<Target>)
  {
    || url.None? || url.value.scheme !in {"http", "https"} || url.value.host == ""
    || Lower(TrimDot(url.value.hostname)) in BLOCKED_HOSTS || url.value.metadata
  }

  /** Text without capitals has itself as lower case. */
  lemma SmallText(host: string, name: string)
    requires forall i | 0 <= i < |name| :: !('A' <= name[i] <= 'Z')
    ensures Lower(host) == name <==> EqualFold(host, name)
  {
    assert |Lower(name)| == |name| && forall i | 0 <= i < |name| :: Lower(name)[i] == LowerChar(name[i]) == name[i];
    assert Lower(name) == name;
  }

  /** The final dot of a host name does not matter, nor does the case of its letters. */
  lemma TrimDotMeans(s: string)
    ensures (forall t | s == t + "." :: TrimDot(s) == t) && ((forall t :: s != t + ".") ==> TrimDot(s) == s)
  {
    if s != "" && s[|s| - 1] == '.' {
      assert s == s[..|s| - 1] + ".";
      forall t | s == t + "." ensures TrimDot(s) == t { assert s[..|s| - 1] == t; }
    }
  }

  lemma NumberHosts(host: string)
    ensures Lower(host) == "169.254.169.254" <==> EqualFold(host, "169.254.169.254")
    ensures Lower(host) == "100.100.100.200" <==> EqualFold(host, "100.100.100.200")
  {
    SmallText(host, "169.254.169.254");
    SmallText(host, "100.100.100.200");
  }

  lemma NameHosts(host: string)
    ensures Lower(host) == "metadata.google.internal" <==> EqualFold(host, "metadata.google.internal")
    ensures Lower(host) == "metadata.google" <==> EqualFold(host, "metadata.google")
    ensures Lower(host) == "instance-data" <==> EqualFold(host, "instance-data")
  {
    SmallText(host, "metadata.google.internal");
    SmallText(host, "metadata.google");
    SmallText(host, "instance-data");
  }

  /** The guard stops what is no http(s) URL with a host, metadata addresses, and five names. */
  lemma BlockedIff(url: Option<Target>)
    ensures Blocked(url) <==>
              || url.None?
              || (url.value.scheme != "http" && url.value.scheme != "https")
              || url.value.host == "" || url.value.metadata
              || var h := TrimDot(url.value.hostname);
                 || EqualFold(h, "169.254.169.254") || EqualFold(h, "100.100.100.200")
                 || EqualFold(h, "metadata.google.internal") || EqualFold(h, "metadata.google")
                 || EqualFold(h, "instance-data")
  {
    if url.Some? {
      NumberHosts(TrimDot(url.value.hostname));
      NameHosts(TrimDot(url.value.hostname));
    }
  }

  /** Whether http.NewRequest accepts method and target: an empty method means GET. */
  predicate Sendable(verb: string, url: Option<Target>) { IsToken(verb) && url.Some? }

  lemma RowsOf(plan: Plan, requestID: string, target: string, answer: Answer, say: Wording)
    ensures |RowsFor(plan, requestID, target, answer, say)| == if plan.NotFound? || plan.Unsendable? then 0 else 1
  {
  }

  lemma OneRowIff(mac: Mac, s: Stored, requestID: string, target: string, opts: Options, blocked: bool,
                  sendable: bool, now: int, answer: Answer, say: Wording)
    ensures var plan := PlanFor(mac, Some(s), requestID, target, opts, blocked, sendable, now);
            |RowsFor(plan, requestID, target, answer, say)|
            == if blocked || Signatures(mac, s, opts, now).Refused? || sendable then 1 else 0
  {
    RowsOf(PlanFor(mac, Some(s), requestID, target, opts, blocked, sendable, now), requestID, target, answer, say);
  }

  /** A replay of a stored request leaves exactly one row, whatever the target, the options and
      the answer, unless its method is no token and everything else is in order. */
  lemma RecordedIff(mac: Mac, s: Stored, requestID: string, target: string, url: Option<Target>,
                    opts: Options, now: int, answer: Answer, say: Wording)
    ensures var plan := PlanFor(mac, Some(s), requestID, target, opts, Blocked(url), Sendable(s.verb, url), now);
            |RowsFor(plan, requestID, target, answer, say)| == 1
            <==> Blocked(url) || Signatures(mac, s, opts, now).Refused? || IsToken(s.verb)
  {
    OneRowIff(mac, s, requestID, target, opts, Blocked(url), Sendable(s.verb, url), now, answer, say);
    UnparsedBlocked(url);
  }

  /** The guard blocks every target url.Parse refuses. */
  lemma UnparsedBlocked(url: Option<Target>)
    ensures url.None? ==> Blocked(url)
  {
  }

  // ---------------------------------------------------------------- the header algebra

  /** The merge before stripping, name by name. */
  lemma ComposedField(stored: Fields, contentType: string, requestID: string, merged: map<string, string>, k: string)
    requires Canonical(stored.Keys) && Canonical(merged.Keys)
    ensures Values(Composed(stored, contentType, requestID, merged), k) ==
              if IsTransport(k) then []
              else if k in merged then [merged[k]]
              else if k == "X-Omnihook-Replay" then ["true"]
              else if k == "X-Omnihook-Request-Id" then [requestID]
              else if k == "Content-Type" then (if contentType == "" then [] else [contentType])
              else if EqualFold(k, "content-type") then []
              else Values(stored, k)
  {
    ValuesPlus(ContentType(contentType), Kept(stored, true), k);
    ValuesPlus(ContentType(contentType) + Kept(stored, true), Markers(requestID), k);
    ValuesPlus(ContentType(contentType) + Kept(stored, true) + Markers(requestID), Overrides(merged), k);
    OwnNames(k);
  }

  lemma ValuesPlus(a: Fields, b: Fields, k: string)
    ensures Values(a + b, k) == if k in b then b[k] else Values(a, k)
  {
  }

  lemma OwnNames(k: string)
    ensures k in {"X-Omnihook-Replay", "X-Omnihook-Request-Id", "Content-Type"} ==> !IsTransport(k)
    ensures k in {"X-Omnihook-Replay", "X-Omnihook-Request-Id"} ==> !EqualFold(k, "content-type")
    ensures k == "Content-Type" ==> EqualFold(k, "content-type")
  {
    if k in {"X-Omnihook-Replay", "X-Omnihook-Request-Id"} { PlainName(k); }
    NamesDiffer("Content-Type", "host", 0);
    NamesDiffer("Content-Type", "content-length", 0);
    OwnNamesCanonical();
  }

  lemma ComposedCanonical(stored: Fields, contentType: string, requestID: string, merged: map<string, string>)
    requires Canonical(stored.Keys) && Canonical(merged.Keys)
    ensures Canonical(Composed(stored, contentType, requestID, merged).Keys)
  {
    OwnNamesCanonical();
  }

  /** The sent header, name by name: explicit and re-signed overrides beat markers, markers
      beat stored fields, and transport and hop-by-hop names are gone. */
  lemma OutgoingField(stored: Fields, contentType: string, requestID: string, merged: map<string, string>, k: string)
    requires Canonical(stored.Keys) && Canonical(merged.Keys)
    ensures var out := Outgoing(stored, contentType, requestID, merged);
            var hop := Lower(k) in HopNames(Composed(stored, contentType, requestID, merged));
            Values(out, k) ==
              if hop || IsTransport(k) then []
              else if k in merged then [merged[k]]
              else if k == "X-Omnihook-Replay" then ["true"]
              else if k == "X-Omnihook-Request-Id" then [requestID]
              else if k == "Content-Type" then (if contentType == "" then [] else [contentType])
              else if EqualFold(k, "content-type") then []
              else Values(stored, k)
    ensures Canonical(Outgoing(stored, contentType, requestID, merged).Keys)
  {
    ComposedCanonical(stored, contentType, requestID, merged);
    ComposedField(stored, contentType, requestID, merged, k);
    StripExact(Composed(stored, contentType, requestID, merged));
  }
}
