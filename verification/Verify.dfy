/** Signature checks (internal/verify). HMAC-SHA256 is an arbitrary function of key and
    message to 32 bytes; `now` is Unix seconds. Error texts become reasons. */
module Verify {
  import opened Text
  import opened Encoding

  type Mac = f: (string, string) -> seq<byte> | forall k, m :: |f(k, m)| == 32
    witness ((k: string, m: string) => seq(32, _ => 0))

  /** Header name to value, one entry per name as lowerHeaders builds it. */
  type Flat = map<string, string>

  datatype Status = PASS | FAIL | SKIPPED
  datatype Reason =
    | NoReason | MissingSecret | Malformed | BadTimestamp | OutsideTolerance
    | BadSecret | Mismatch | UnknownProvider | NotSigned
  datatype Result = Result(status: Status, provider: string, reason: Reason)

  function Pass(provider: string): Result { Result(PASS, provider, NoReason) }
  function Fail(provider: string, why: Reason): Result { Result(FAIL, provider, why) }

  // ---------------------------------------------------------------- header lookup

  /** headerLookup ranges over a Go map: any entry whose name matches may win. */
  ghost predicate MayLookup(h: Flat, name: string, v: string)
  {
    if exists k :: k in h && EqualFold(k, name)
    then exists k :: k in h && EqualFold(k, name) && v == h[k]
    else v == ""
  }

  ghost function Lookup(h: Flat, name: string): (v: string)
    ensures MayLookup(h, name, v)
  {
    if exists k :: k in h && EqualFold(k, name)
    then var k :| k in h && EqualFold(k, name); h[k]
    else ""
  }

  method HeaderLookup(h: Flat, name: string) returns (v: string)
    ensures MayLookup(h, name, v)
  {
    var todo := h.Keys;
    while todo != {}
      invariant todo <= h.Keys
      invariant forall k | k in h.Keys - todo :: !EqualFold(k, name)
      decreases |todo|
    {
      var k :| k in todo;
      if EqualFold(k, name) {
        return h[k];
      }
      todo := todo - {k};
    }
    v := "";
  }

  /** No two names differ only in case: true of any map flattened from an http.Header. */
  ghost predicate FoldUnique(h: Flat)
  {
    forall a, b | a in h && b in h && EqualFold(a, b) :: a == b
  }

  lemma LookupIs(h: Flat, k: string, name: string)
    requires FoldUnique(h) && k in h && EqualFold(k, name)
    ensures Lookup(h, name) == h[k]
    ensures forall v :: MayLookup(h, name, v) <==> v == h[k]
  {
    assert forall j | j in h && EqualFold(j, name) :: EqualFold(j, k);
  }

  lemma MayLookupUnique(h: Flat, name: string, v: string)
    requires MayLookup(h, name, v)
    ensures FoldUnique(h) ==> v == Lookup(h, name)
  {
    if FoldUnique(h) {
      if k :| k in h && EqualFold(k, name) { LookupIs(h, k, name); }
    }
  }

  lemma LookupKept(h: Flat, signed: Flat, name: string)
    requires FoldUnique(h + signed) && forall k | k in signed :: !EqualFold(k, name)
    ensures Lookup(h + signed, name) == Lookup(h, name)
  {
    if k :| k in h && EqualFold(k, name) {
      assert k in h + signed && (h + signed)[k] == h[k];
      LookupIs(h + signed, k, name);
      assert FoldUnique(h) by {
        assert forall a | a in h :: a in h + signed;
      }
      LookupIs(h, k, name);
    }
  }

  lemma NamesDiffer(a: string, b: string, i: nat)
    requires |a| != |b| || (i < |a| && LowerChar(a[i]) != LowerChar(b[i]))
    ensures !EqualFold(a, b)
  {
    if |a| == |b| {
      assert Lower(a)[i] != Lower(b)[i];
    }
  }

  // ---------------------------------------------------------------- timestamps

  /** Both subtractions wrap to 64 bits, as Go's do. */
  predicate Tolerated(now: int, ts: int)
  {
    !(Wrap64(now - ts) > 300 || Wrap64(ts - now) > 300)
  }

  /** The test is the 5-minute window, plus the one difference that negates to itself. */
  lemma ToleranceExact(now: int, ts: int)
    requires 0 <= now < INT64_MAX - 299 && IsInt64(ts)
    ensures Tolerated(now, ts) <==> -300 <= now - ts <= 300 || now - ts == INT64_MAX + 1
  {
  }

  // ---------------------------------------------------------------- stripe

  function Field(part: string): Option<(string, string)> { Cut(TrimSpace(part), '=') }

  datatype StripeScan = StripeScan(t: string, candidates: seq<string>)

  function ScanStripe(parts: seq<string>): StripeScan
  {
    if parts == [] then StripeScan("", []) else
    var s := ScanStripe(parts[..|parts| - 1]);
    match Field(parts[|parts| - 1])
    case None => s
    case Some((k, v)) =>
      if k == "t" then s.(t := v)
      else if k == "v1" then s.(candidates := s.candidates + [v]) else s
  }

  method ParseStripe(sig: string) returns (t: string, candidates: seq<string>)
    ensures StripeScan(t, candidates) == ScanStripe(Split(sig, ','))
  {
    var parts := Split(sig, ',');
    t, candidates := "", [];
    for i := 0 to |parts|
      invariant StripeScan(t, candidates) == ScanStripe(parts[..i])
    {
      assert parts[..i + 1][..i] == parts[..i];
      var kv := Cut(TrimSpace(parts[i]), '=');
      if kv.None? { continue; }
      if kv.value.0 == "t" {
        t := kv.value.1;
      }
      if kv.value.0 == "v1" {
        candidates := candidates + [kv.value.1];
      }
    }
    assert parts[..|parts|] == parts;
  }

  method AnyCandidate(want: string, candidates: seq<string>) returns (ok: bool)
    ensures ok <==> exists v | v in candidates :: EqualFold(want, v)
  {
    for i := 0 to |candidates|
      invariant forall v | v in candidates[..i] :: !EqualFold(want, v)
    {
      if EqualFold(want, candidates[i]) {
        return true;
      }
    }
    assert candidates[..|candidates|] == candidates;
    ok := false;
  }

  function StripeMessage(ts: int, raw: string): string { PrintInt(ts) + "." + raw }

  function StripeVerify(mac: Mac, secret: string, sig: string, raw: string, now: int): Result
  {
    if secret == "" then Fail("stripe", MissingSecret) else
    var scan := ScanStripe(Split(sig, ','));
    if scan.t == "" || scan.candidates == [] then Fail("stripe", Malformed) else
    match ParseInt(TrimSpace(scan.t))
    case None => Fail("stripe", BadTimestamp)
    case Some(ts) =>
      if !Tolerated(now, ts) then Fail("stripe", OutsideTolerance) else
      var want := HexEncode(mac(secret, StripeMessage(ts, raw)));
      if exists v | v in scan.candidates :: EqualFold(want, v)
      then Pass("stripe") else Fail("stripe", Mismatch)
  }

  /** Stripe.Verify, over its own loops. */
  method VerifyStripe(mac: Mac, secret: string, h: Flat, raw: string, now: int) returns (r: Result)
    ensures FoldUnique(h) ==> r == StripeVerify(mac, secret, Lookup(h, "Stripe-Signature"), raw, now)
  {
    if secret == "" { return Fail("stripe", MissingSecret); }
    var sig := HeaderLookup(h, "Stripe-Signature");
    MayLookupUnique(h, "Stripe-Signature", sig);
    var t, candidates := ParseStripe(sig);
    if t == "" || candidates == [] { return Fail("stripe", Malformed); }
    var ts := ParseInt(TrimSpace(t));
    if ts.None? { return Fail("stripe", BadTimestamp); }
    if !Tolerated(now, ts.value) { return Fail("stripe", OutsideTolerance); }
    var ok := AnyCandidate(HexEncode(mac(secret, StripeMessage(ts.value, raw))), candidates);
    r := if ok then Pass("stripe") else Fail("stripe", Mismatch);
  }

  /** Part i holds the last well-formed t value. */
  predicate LastT(parts: seq<string>, i: int, v: string)
  {
    && 0 <= i < |parts| && Field(parts[i]) == Some(("t", v))
    && forall j | i < j < |parts| :: Field(parts[j]).Some? ==> Field(parts[j]).value.0 != "t"
  }

  predicate V1At(parts: seq<string>, j: int, v: string)
  {
    0 <= j < |parts| && Field(parts[j]) == Some(("v1", v))
  }

  lemma {:induction false} ScanFindsLastT(parts: seq<string>)
    ensures ScanStripe(parts).t != "" ==> exists i :: LastT(parts, i, ScanStripe(parts).t)
  {
    var t := ScanStripe(parts).t;
    if t != "" {
      var n := |parts| - 1;
      if Field(parts[n]) == Some(("t", t)) {
        assert LastT(parts, n, t);
      } else {
        ScanFindsLastT(parts[..n]);
        var i :| LastT(parts[..n], i, t);
        assert LastT(parts, i, t);
      }
    }
  }

  lemma {:induction false} LastTIsScanned(parts: seq<string>, i: int, v: string)
    requires LastT(parts, i, v)
    ensures ScanStripe(parts).t == v
  {
    var n := |parts| - 1;
    if i < n {
      assert parts[..n][i] == parts[i];
      LastTIsScanned(parts[..n], i, v);
    }
  }

  lemma {:induction false} CandidateIsV1(parts: seq<string>, v: string)
    requires v in ScanStripe(parts).candidates
    ensures exists j :: V1At(parts, j, v)
  {
    var n := |parts| - 1;
    if v in ScanStripe(parts[..n]).candidates {
      CandidateIsV1(parts[..n], v);
      var j :| V1At(parts[..n], j, v);
      assert V1At(parts, j, v);
    } else {
      assert V1At(parts, n, v);
    }
  }

  lemma {:induction false} V1IsCandidate(parts: seq<string>, j: int, v: string)
    requires V1At(parts, j, v)
    ensures v in ScanStripe(parts).candidates
  {
    var n := |parts| - 1;
    if j < n {
      assert parts[..n][j] == parts[j];
      V1IsCandidate(parts[..n], j, v);
    }
  }

  /** What a Stripe-Signature must contain to be accepted, in any order of its parts. */
  ghost predicate StripeAccepts(mac: Mac, secret: string, sig: string, raw: string, now: int, ts: int)
  {
    var parts := Split(sig, ',');
    && secret != "" && Tolerated(now, ts)
    && (exists i, t :: LastT(parts, i, t) && ParseInt(TrimSpace(t)) == Some(ts))
    && (exists j, v :: V1At(parts, j, v) && EqualFold(HexEncode(mac(secret, StripeMessage(ts, raw))), v))
  }

  lemma StripePassOnlyIf(mac: Mac, secret: string, sig: string, raw: string, now: int)
    requires StripeVerify(mac, secret, sig, raw, now).status == PASS
    ensures exists ts :: StripeAccepts(mac, secret, sig, raw, now, ts)
  {
    var parts := Split(sig, ',');
    var scan := ScanStripe(parts);
    ScanFindsLastT(parts);
    var ts := ParseInt(TrimSpace(scan.t)).value;
    var i :| LastT(parts, i, scan.t);
    var v :| v in scan.candidates && EqualFold(HexEncode(mac(secret, StripeMessage(ts, raw))), v);
    CandidateIsV1(parts, v);
    assert StripeAccepts(mac, secret, sig, raw, now, ts);
  }

  lemma EmptyDoesNotParse(t: string)
    requires ParseInt(TrimSpace(t)).Some?
    ensures t != ""
  {
  }

  lemma ScanAccepted(mac: Mac, secret: string, sig: string, raw: string, now: int, ts: int, v: string)
    requires var scan := ScanStripe(Split(sig, ','));
             ParseInt(TrimSpace(scan.t)) == Some(ts) && v in scan.candidates
    requires secret != "" && Tolerated(now, ts)
    requires EqualFold(HexEncode(mac(secret, StripeMessage(ts, raw))), v)
    ensures StripeVerify(mac, secret, sig, raw, now).status == PASS
  {
    EmptyDoesNotParse(ScanStripe(Split(sig, ',')).t);
  }

  lemma StripePassIf(mac: Mac, secret: string, sig: string, raw: string, now: int, ts: int)
    requires StripeAccepts(mac, secret, sig, raw, now, ts)
    ensures StripeVerify(mac, secret, sig, raw, now).status == PASS
  {
    var parts := Split(sig, ',');
    var i, t :| LastT(parts, i, t) && ParseInt(TrimSpace(t)) == Some(ts);
    var j, v :| V1At(parts, j, v) && EqualFold(HexEncode(mac(secret, StripeMessage(ts, raw))), v);
    LastTIsScanned(parts, i, t);
    V1IsCandidate(parts, j, v);
    ScanAccepted(mac, secret, sig, raw, now, ts, v);
  }

  /** Exactness of the Stripe check. */
  lemma StripePassIff(mac: Mac, secret: string, sig: string, raw: string, now: int)
    ensures StripeVerify(mac, secret, sig, raw, now).status == PASS
            <==> exists ts :: StripeAccepts(mac, secret, sig, raw, now, ts)
  {
    if StripeVerify(mac, secret, sig, raw, now).status == PASS {
      StripePassOnlyIf(mac, secret, sig, raw, now);
    }
    if ts :| StripeAccepts(mac, secret, sig, raw, now, ts) {
      StripePassIf(mac, secret, sig, raw, now, ts);
    }
  }

  // ---------------------------------------------------------------- github, razorpay, shopify

  ghost function GitHubVerify(mac: Mac, secret: string, h: Flat, raw: string): Result
  {
    if secret == "" then Fail("github", MissingSecret) else
    var got := Lookup(h, "X-Hub-Signature-256");
    if got == "" then Fail("github", Malformed)
    else if EqualFold(HexEncode(mac(secret, raw)), TrimPrefix(got, "sha256="))
    then Pass("github") else Fail("github", Mismatch)
  }

  ghost function RazorpayVerify(mac: Mac, secret: string, h: Flat, raw: string): Result
  {
    if secret == "" then Fail("razorpay", MissingSecret)
    else if EqualFold(HexEncode(mac(secret, raw)), TrimSpace(Lookup(h, "X-Razorpay-Signature")))
    then Pass("razorpay") else Fail("razorpay", Mismatch)
  }

  ghost function ShopifyVerify(mac: Mac, secret: string, h: Flat, raw: string): Result
  {
    if secret == "" then Fail("shopify", MissingSecret) else
    var got := TrimSpace(Lookup(h, "X-Shopify-Hmac-Sha256"));
    if got == "" then Fail("shopify", Malformed)
    else if EncodeB64(mac(secret, raw)) == got then Pass("shopify") else Fail("shopify", Mismatch)
  }

  // ---------------------------------------------------------------- standard webhooks

  function StandardMessage(id: string, ts: string, raw: string): string
  {
    id + "." + ts + "." + raw
  }

  function SignatureOf(part: string): string { TrimPrefix(TrimSpace(part), "v1,") }

  /** The signature loop of Standard.Verify. */
  method AnySignature(sigH: string, want: string) returns (ok: bool)
    ensures ok <==> exists part | part in Fields(sigH) :: SignatureOf(part) == want
  {
    var parts := Fields(sigH);
    for i := 0 to |parts|
      invariant forall part | part in parts[..i] :: SignatureOf(part) != want
    {
      var sig := TrimPrefix(TrimSpace(parts[i]), "v1,");
      if sig == want {
        assert parts[i] in parts && SignatureOf(parts[i]) == want;
        return true;
      }
    }
    assert parts[..|parts|] == parts;
    ok := false;
  }

  function CheckStandard(mac: Mac, secret: string, id: string, tsStr: string, sigH: string,
                         raw: string, now: int): Result
  {
    if secret == "" then Fail("standard", MissingSecret)
    else if id == "" || tsStr == "" || sigH == "" then Fail("standard", Malformed) else
    match ParseInt(TrimSpace(tsStr))
    case None => Fail("standard", BadTimestamp)
    case Some(ts) =>
      if !Tolerated(now, ts) then Fail("standard", OutsideTolerance) else
      match DecodeB64(TrimPrefix(secret, "whsec_"))
      case None => Fail("standard", BadSecret)
      case Some(key) =>
        var want := EncodeB64(mac(Chars(key), StandardMessage(id, TrimSpace(tsStr), raw)));
        if exists part | part in Fields(sigH) :: SignatureOf(part) == want
        then Pass("standard") else Fail("standard", Mismatch)
  }

  /** The Webhook-* name, or the Svix-* name when that one is absent or empty. */
  ghost function Either(h: Flat, webhook: string, svix: string): string
  {
    if Lookup(h, webhook) != "" then Lookup(h, webhook) else Lookup(h, svix)
  }

  ghost function StandardVerify(mac: Mac, secret: string, h: Flat, raw: string, now: int): Result
  {
    CheckStandard(mac, secret, Either(h, "Webhook-Id", "Svix-Id"),
                  Either(h, "Webhook-Timestamp", "Svix-Timestamp"),
                  Either(h, "Webhook-Signature", "Svix-Signature"), raw, now)
  }

  /** The value under the Webhook-* name, else the one under the Svix-* name. */
  method Fallback(h: Flat, webhook: string, svix: string) returns (v: string)
    ensures FoldUnique(h) ==> v == Either(h, webhook, svix)
  {
    v := HeaderLookup(h, webhook);
    MayLookupUnique(h, webhook, v);
    if v == "" {
      v := HeaderLookup(h, svix);
      MayLookupUnique(h, svix, v);
    }
  }

  /** Standard.Verify, over its own loop. */
  method VerifyStandard(mac: Mac, secret: string, h: Flat, raw: string, now: int) returns (r: Result)
    ensures FoldUnique(h) ==> r == StandardVerify(mac, secret, h, raw, now)
  {
    if secret == "" { return Fail("standard", MissingSecret); }
    var id := Fallback(h, "Webhook-Id", "Svix-Id");
    var tsStr := Fallback(h, "Webhook-Timestamp", "Svix-Timestamp");
    var sigH := Fallback(h, "Webhook-Signature", "Svix-Signature");
    if id == "" || tsStr == "" || sigH == "" { return Fail("standard", Malformed); }
    var ts := ParseInt(TrimSpace(tsStr));
    if ts.None? { return Fail("standard", BadTimestamp); }
    if !Tolerated(now, ts.value) { return Fail("standard", OutsideTolerance); }
    var key := DecodeB64(TrimPrefix(secret, "whsec_"));
    if key.None? { return Fail("standard", BadSecret); }
    var want := EncodeB64(mac(Chars(key.value), StandardMessage(id, TrimSpace(tsStr), raw)));
    var ok := AnySignature(sigH, want);
    r := if ok then Pass("standard") else Fail("standard", Mismatch);
  }

  // ---------------------------------------------------------------- the chain

  const PROVIDERS: seq<string> := ["stripe", "github", "standard", "razorpay", "shopify"]

  ghost predicate Detect(provider: string, h: Flat)
  {
    match provider
    case "stripe" => Lookup(h, "Stripe-Signature") != ""
    case "github" => Lookup(h, "X-Hub-Signature-256") != "" || Lookup(h, "X-Hub-Signature") != ""
    case "standard" => Lookup(h, "Webhook-Signature") != "" || Lookup(h, "Svix-Signature") != ""
    case "razorpay" => Lookup(h, "X-Razorpay-Signature") != ""
    case "shopify" => Lookup(h, "X-Shopify-Hmac-Sha256") != "" || Lookup(h, "X-Shopify-Topic") != ""
    case _ => false
  }

  ghost function VerifyAs(mac: Mac, provider: string, secret: string, h: Flat, raw: string, now: int): Result
    requires provider in PROVIDERS
  {
    match provider
    case "stripe" => StripeVerify(mac, secret, Lookup(h, "Stripe-Signature"), raw, now)
    case "github" => GitHubVerify(mac, secret, h, raw)
    case "standard" => StandardVerify(mac, secret, h, raw, now)
    case "razorpay" => RazorpayVerify(mac, secret, h, raw)
    case _ => ShopifyVerify(mac, secret, h, raw)
  }

  function Normal(provider: string): string { Lower(TrimSpace(provider)) }

  ghost function Chain(mac: Mac, secret: string, providerHint: string, h: Flat, raw: string, now: int): Result
  {
    var hint := Normal(providerHint);
    if hint !in {"", "generic", "auto"} then
      if hint !in PROVIDERS then Fail(hint, UnknownProvider)
      else if !Detect(hint, h) then Result(SKIPPED, hint, NotSigned)
      else VerifyAs(mac, hint, secret, h, raw, now)
    else if Detect("stripe", h) then VerifyAs(mac, "stripe", secret, h, raw, now)
    else if Detect("github", h) then VerifyAs(mac, "github", secret, h, raw, now)
    else if Detect("standard", h) then VerifyAs(mac, "standard", secret, h, raw, now)
    else if Detect("razorpay", h) then VerifyAs(mac, "razorpay", secret, h, raw, now)
    else if Detect("shopify", h) then VerifyAs(mac, "shopify", secret, h, raw, now)
    else Result(SKIPPED, "generic", NoReason)
  }

  method Has(h: Flat, name: string) returns (b: bool)
    ensures FoldUnique(h) ==> b == (Lookup(h, name) != "")
  {
    var v := HeaderLookup(h, name);
    MayLookupUnique(h, name, v);
    b := v != "";
  }

  method Detects(provider: string, h: Flat) returns (b: bool)
    requires provider in PROVIDERS
    ensures FoldUnique(h) ==> b == Detect(provider, h)
  {
    match provider {
      case "stripe" => b := Has(h, "Stripe-Signature");
      case "github" =>
        b := Has(h, "X-Hub-Signature-256");
        if !b { b := Has(h, "X-Hub-Signature"); }
      case "standard" =>
        b := Has(h, "Webhook-Signature");
        if !b { b := Has(h, "Svix-Signature"); }
      case "razorpay" => b := Has(h, "X-Razorpay-Signature");
      case _ =>
        b := Has(h, "X-Shopify-Hmac-Sha256");
        if !b { b := Has(h, "X-Shopify-Topic"); }
    }
  }

  method VerifyPlain(mac: Mac, provider: string, secret: string, h: Flat, raw: string) returns (r: Result)
    requires provider in {"github", "razorpay", "shopify"}
    ensures FoldUnique(h) ==> r == VerifyAs(mac, provider, secret, h, raw, 0)
  {
    if secret == "" { return Fail(provider, MissingSecret); }
    match provider {
      case "github" =>
        var got := HeaderLookup(h, "X-Hub-Signature-256");
        MayLookupUnique(h, "X-Hub-Signature-256", got);
        if got == "" { return Fail("github", Malformed); }
        var ok := EqualFold(HexEncode(mac(secret, raw)), TrimPrefix(got, "sha256="));
        r := if ok then Pass("github") else Fail("github", Mismatch);
      case "razorpay" =>
        var got := HeaderLookup(h, "X-Razorpay-Signature");
        MayLookupUnique(h, "X-Razorpay-Signature", got);
        var ok := EqualFold(HexEncode(mac(secret, raw)), TrimSpace(got));
        r := if ok then Pass("razorpay") else Fail("razorpay", Mismatch);
      case _ =>
        var got := HeaderLookup(h, "X-Shopify-Hmac-Sha256");
        MayLookupUnique(h, "X-Shopify-Hmac-Sha256", got);
        if TrimSpace(got) == "" { return Fail("shopify", Malformed); }
        var ok := EncodeB64(mac(secret, raw)) == TrimSpace(got);
        r := if ok then Pass("shopify") else Fail("shopify", Mismatch);
    }
  }

  method Run(mac: Mac, provider: string, secret: string, h: Flat, raw: string, now: int) returns (r: Result)
    requires provider in PROVIDERS
    ensures FoldUnique(h) ==> r == VerifyAs(mac, provider, secret, h, raw, now)
  {
    if provider == "stripe" {
      r := VerifyStripe(mac, secret, h, raw, now);
    } else if provider == "standard" {
      r := VerifyStandard(mac, secret, h, raw, now);
    } else {
      r := VerifyPlain(mac, provider, secret, h, raw);
    }
  }

  /** The chain over its own loop: the first provider that detects its headers verifies. */
  method RunChain(mac: Mac, secret: string, providerHint: string, h: Flat, raw: string, now: int)
    returns (r: Result)
    ensures FoldUnique(h) ==> r == Chain(mac, secret, providerHint, h, raw, now)
  {
    var hint := Normal(providerHint);
    if hint !in {"", "generic", "auto"} {
      if hint !in PROVIDERS { return Fail(hint, UnknownProvider); }
      var present := Detects(hint, h);
      if !present { return Result(SKIPPED, hint, NotSigned); }
      r := Run(mac, hint, secret, h, raw, now);
      return;
    }
    for i := 0 to |PROVIDERS|
      invariant FoldUnique(h) ==> forall j | 0 <= j < i :: !Detect(PROVIDERS[j], h)
    {
      var found := Detects(PROVIDERS[i], h);
      if found {
        r := Run(mac, PROVIDERS[i], secret, h, raw, now);
        if FoldUnique(h) { FirstDetected(mac, secret, providerHint, h, raw, now, i); }
        return;
      }
    }
    if FoldUnique(h) { NoneDetected(mac, secret, providerHint, h, raw, now); }
    r := Result(SKIPPED, "generic", NoReason);
  }

  /** An unpinned chain answers with the first provider whose headers are there. */
  lemma FirstDetected(mac: Mac, secret: string, providerHint: string, h: Flat, raw: string, now: int, i: nat)
    requires Normal(providerHint) in {"", "generic", "auto"}
    requires i < |PROVIDERS| && Detect(PROVIDERS[i], h) && forall j | 0 <= j < i :: !Detect(PROVIDERS[j], h)
    ensures Chain(mac, secret, providerHint, h, raw, now) == VerifyAs(mac, PROVIDERS[i], secret, h, raw, now)
  {
    assert i > 0 ==> !Detect(PROVIDERS[0], h);
    assert i > 1 ==> !Detect(PROVIDERS[1], h);
    assert i > 2 ==> !Detect(PROVIDERS[2], h);
    assert i > 3 ==> !Detect(PROVIDERS[3], h);
  }

  lemma NoneDetected(mac: Mac, secret: string, providerHint: string, h: Flat, raw: string, now: int)
    requires Normal(providerHint) in {"", "generic", "auto"}
    requires forall j | 0 <= j < |PROVIDERS| :: !Detect(PROVIDERS[j], h)
    ensures Chain(mac, secret, providerHint, h, raw, now) == Result(SKIPPED, "generic", NoReason)
  {
    assert !Detect(PROVIDERS[0], h) && !Detect(PROVIDERS[1], h) && !Detect(PROVIDERS[2], h);
    assert !Detect(PROVIDERS[3], h) && !Detect(PROVIDERS[4], h);
  }

  // ---------------------------------------------------------------- every answer of the chain

  /** The header names whose presence makes a provider's check run. */
  const SIGNS_WITH: map<string, set<string>> :=
    map["stripe" := {"Stripe-Signature"},
        "github" := {"X-Hub-Signature-256", "X-Hub-Signature"},
        "standard" := {"Webhook-Signature", "Svix-Signature"},
        "razorpay" := {"X-Razorpay-Signature"},
        "shopify" := {"X-Shopify-Hmac-Sha256", "X-Shopify-Topic"}]

  const ORDER: seq<string> := ["stripe", "github", "standard", "razorpay", "shopify"]

  /** None of the provider's headers is there, or all are empty. */
  ghost predicate Silent(provider: string, h: Flat)
    requires provider in SIGNS_WITH
  {
    forall n | n in SIGNS_WITH[provider] :: Lookup(h, n) == ""
  }

  lemma DetectIff(p: string, h: Flat)
    requires p in SIGNS_WITH
    ensures p in PROVIDERS && (Detect(p, h) <==> !Silent(p, h))
  {
    match p
    case "stripe" => assert "Stripe-Signature" in SIGNS_WITH[p];
    case "github" => assert "X-Hub-Signature-256" in SIGNS_WITH[p] && "X-Hub-Signature" in SIGNS_WITH[p];
    case "standard" => assert "Webhook-Signature" in SIGNS_WITH[p] && "Svix-Signature" in SIGNS_WITH[p];
    case "razorpay" => assert "X-Razorpay-Signature" in SIGNS_WITH[p];
    case _ => assert "X-Shopify-Hmac-Sha256" in SIGNS_WITH[p] && "X-Shopify-Topic" in SIGNS_WITH[p];
  }

  lemma KnownIff(p: string)
    ensures p in PROVIDERS <==> p in SIGNS_WITH
  {
  }

  /** A pinned provider is SKIPPED exactly when its headers are silent, and otherwise answers
      PASS or FAIL under its own name. A hint nobody knows is a FAIL. */
  lemma PinnedAnswer(mac: Mac, secret: string, providerHint: string, h: Flat, raw: string, now: int)
    requires Lower(TrimSpace(providerHint)) !in {"", "generic", "auto"}
    ensures var hint := Lower(TrimSpace(providerHint));
            var r := Chain(mac, secret, providerHint, h, raw, now);
            if hint !in SIGNS_WITH then r == Result(FAIL, hint, UnknownProvider)
            else if Silent(hint, h) then r == Result(SKIPPED, hint, NotSigned)
            else r.provider == hint && r.status in {PASS, FAIL} && r == VerifyAs(mac, hint, secret, h, raw, now)
  {
    var hint := Lower(TrimSpace(providerHint));
    KnownIff(hint);
    if hint in SIGNS_WITH {
      DetectIff(hint, h);
      PassNeedsSecret(mac, hint, secret, h, raw, now);
    }
  }

  /** Without a pin the first provider in order with a header answers, PASS or FAIL; SKIPPED
      means that all five are silent. */
  lemma UnpinnedAnswer(mac: Mac, secret: string, providerHint: string, h: Flat, raw: string, now: int)
    requires Lower(TrimSpace(providerHint)) in {"", "generic", "auto"}
    ensures var r := Chain(mac, secret, providerHint, h, raw, now);
            && (r.status == SKIPPED <==> forall p | p in SIGNS_WITH :: Silent(p, h))
            && (r.status == SKIPPED ==> r == Result(SKIPPED, "generic", NoReason))
            && (r.status != SKIPPED ==>
                  exists i | 0 <= i < |ORDER| ::
                    && r.provider == ORDER[i] && !Silent(ORDER[i], h) && r == VerifyAs(mac, ORDER[i], secret, h, raw, now)
                    && forall j | 0 <= j < i :: Silent(ORDER[j], h))
  {
    forall p | p in SIGNS_WITH ensures Detect(p, h) <==> !Silent(p, h) { DetectIff(p, h); }
    if i :| 0 <= i < |PROVIDERS| && Detect(PROVIDERS[i], h) {
      var k := FirstProvider(h, i);
      assert PROVIDERS == ORDER && ORDER[k] in SIGNS_WITH;
      FirstDetected(mac, secret, providerHint, h, raw, now, k);
      PassNeedsSecret(mac, ORDER[k], secret, h, raw, now);
      assert !Silent(ORDER[k], h);
    } else {
      NoneDetected(mac, secret, providerHint, h, raw, now);
      forall p | p in SIGNS_WITH ensures Silent(p, h) {
        InOrder(p);
        var j :| 0 <= j < |ORDER| && ORDER[j] == p;
        assert PROVIDERS[j] == p;
      }
    }
  }

  lemma InOrder(p: string)
    requires p in SIGNS_WITH
    ensures exists j :: 0 <= j < |ORDER| && ORDER[j] == p
  {
    assert p in {"stripe", "github", "standard", "razorpay", "shopify"};
    assert ORDER[0] == "stripe" && ORDER[1] == "github" && ORDER[2] == "standard";
    assert ORDER[3] == "razorpay" && ORDER[4] == "shopify";
  }

  // ---------------------------------------------------------------- what each check accepts

  /** The digest of github and razorpay: hexadecimal of either case. */
  lemma GitHubPassIff(mac: Mac, secret: string, h: Flat, raw: string)
    ensures var got := Lookup(h, "X-Hub-Signature-256");
            VerifyAs(mac, "github", secret, h, raw, 0).status == PASS
            <==> && secret != "" && got != ""
                 && exists digest :: EqualFold(HexEncode(mac(secret, raw)), digest)
                                     && (got == "sha256=" + digest || (got == digest && !("sha256=" <= got)))
  {
    var got := Lookup(h, "X-Hub-Signature-256");
    var digest := TrimPrefix(got, "sha256=");
    assert got == "sha256=" + digest || got == digest;
    forall d | got == "sha256=" + d || (got == d && !("sha256=" <= got)) ensures d == digest {
      if got == "sha256=" + d { assert got[7..] == d; }
    }
  }

  lemma RazorpayPassIff(mac: Mac, secret: string, h: Flat, raw: string)
    ensures VerifyAs(mac, "razorpay", secret, h, raw, 0).status == PASS
            <==> secret != ""
                 && EqualFold(HexEncode(mac(secret, raw)), TrimSpace(Lookup(h, "X-Razorpay-Signature")))
  {
  }

  /** Shopify sends base64, compared as it stands. */
  lemma ShopifyPassIff(mac: Mac, secret: string, h: Flat, raw: string)
    ensures VerifyAs(mac, "shopify", secret, h, raw, 0).status == PASS
            <==> secret != "" && TrimSpace(Lookup(h, "X-Shopify-Hmac-Sha256")) == EncodeB64(mac(secret, raw))
  {
  }

  /** Why github, razorpay or shopify fails, in the order of the checks. */
  lemma PlainAnswer(mac: Mac, p: string, secret: string, h: Flat, raw: string, now: int)
    requires p in {"github", "razorpay", "shopify"}
    ensures var r := VerifyAs(mac, p, secret, h, raw, now);
            var absent := (p == "github" && Lookup(h, "X-Hub-Signature-256") == "")
                          || (p == "shopify" && TrimSpace(Lookup(h, "X-Shopify-Hmac-Sha256")) == "");
            && r.provider == p && r.status in {PASS, FAIL}
            && (r.reason == MissingSecret <==> secret == "")
            && (r.reason == Malformed <==> secret != "" && absent)
            && (r.status == FAIL ==> r.reason in {MissingSecret, Malformed, Mismatch})
  {
  }

  /** What is signed: the decimal seconds, a dot, the body. */
  lemma StripeSigns(d: string, raw: string)
    requires d != "" && DecimalDigits(d) && (|d| == 1 || d[0] != '0')
    ensures StripeMessage(PlaceValue(d), raw) == d + "." + raw
  {
    PrintNatIs(d);
  }

  /** One part of a Stripe-Signature: blanks around it do not matter, its first '=' splits it. */
  lemma StripePart(lead: string, k: string, v: string, trail: string)
    requires forall c | c in lead || c in trail :: Blank(c)
    requires '=' !in k && (k == "" || !Blank(k[0])) && (v == "" || !Blank(v[|v| - 1]))
    ensures Field(lead + (k + "=" + v) + trail) == Some((k, v))
  {
    TrimSpaceMeans(lead, k + "=" + v, trail);
    assert k + "=" + v == k + ['='] + v;
    CutAt(k, '=', v);
  }

  lemma NoPart(part: string)
    requires '=' !in TrimSpace(part)
    ensures Field(part).None?
  {
    FindNone(TrimSpace(part), '=');
  }

  /** Which answer a Stripe-Signature gets, in the order of the checks. */
  lemma StripeAnswer(mac: Mac, secret: string, sig: string, raw: string, now: int)
    ensures var r, parts := StripeVerify(mac, secret, sig, raw, now), Split(sig, ',');
            && r.provider == "stripe"
            && (secret == "" ==> r == Result(FAIL, "stripe", MissingSecret))
            && (secret != "" ==>
                  (r == Result(FAIL, "stripe", Malformed)
                   <==> (forall i, t | LastT(parts, i, t) :: t == "") || forall j, v :: !V1At(parts, j, v)))
  {
    var parts := Split(sig, ',');
    var scan := ScanStripe(parts);
    ScanFindsLastT(parts);
    forall i, t | LastT(parts, i, t) ensures scan.t == t { LastTIsScanned(parts, i, t); }
    forall j, v | V1At(parts, j, v) ensures v in scan.candidates { V1IsCandidate(parts, j, v); }
    if scan.candidates != [] {
      CandidateIsV1(parts, scan.candidates[0]);
    }
  }

  lemma StripeLateAnswer(mac: Mac, secret: string, sig: string, raw: string, now: int, i: int, t: string, j: int, v: string)
    requires var parts := Split(sig, ','); LastT(parts, i, t) && t != "" && V1At(parts, j, v)
    requires secret != ""
    ensures var r := StripeVerify(mac, secret, sig, raw, now);
            match ParseInt(TrimSpace(t))
            case None => r == Result(FAIL, "stripe", BadTimestamp)
            case Some(ts) =>
              if !Tolerated(now, ts) then r == Result(FAIL, "stripe", OutsideTolerance)
              else r.status == PASS || r == Result(FAIL, "stripe", Mismatch)
  {
    LastTIsScanned(Split(sig, ','), i, t);
    V1IsCandidate(Split(sig, ','), j, v);
  }

  /** The whole words of a header. */
  ghost predicate ListsWord(sigH: string, w: string) { w in Fields(sigH) }

  /** A Standard Webhooks message passes iff its timestamp is in tolerance and the header lists
      the signature, with or without the version prefix, anywhere among its words. */
  lemma StandardPassIff(mac: Mac, secret: string, id: string, tsStr: string, sigH: string, raw: string, now: int)
    ensures CheckStandard(mac, secret, id, tsStr, sigH, raw, now).status == PASS
            <==> && secret != "" && id != "" && tsStr != "" && sigH != ""
                 && ParseInt(TrimSpace(tsStr)).Some? && Tolerated(now, ParseInt(TrimSpace(tsStr)).value)
                 && DecodeB64(TrimPrefix(secret, "whsec_")).Some?
                 && var key := Chars(DecodeB64(TrimPrefix(secret, "whsec_")).value);
                    var want := EncodeB64(mac(key, id + "." + TrimSpace(tsStr) + "." + raw));
                    ListsWord(sigH, want) || ListsWord(sigH, "v1," + want)
  {
    if DecodeB64(TrimPrefix(secret, "whsec_")).Some? {
      var key := Chars(DecodeB64(TrimPrefix(secret, "whsec_")).value);
      ListedSignature(sigH, mac(key, StandardMessage(id, TrimSpace(tsStr), raw)));
    }
  }

  lemma ListedSignature(sigH: string, w: seq<byte>)
    requires |w| == 32
    ensures (exists part | part in Fields(sigH) :: SignatureOf(part) == EncodeB64(w))
            <==> ListsWord(sigH, EncodeB64(w)) || ListsWord(sigH, "v1," + EncodeB64(w))
  {
    forall part | part in Fields(sigH)
      ensures SignatureOf(part) == EncodeB64(w) <==> part == EncodeB64(w) || part == "v1," + EncodeB64(w)
    {
      WordsArePlain(sigH, part);
      TrimNothing(part);
      PrefixedOrNot(part, w);
    }
  }

  lemma PrefixedOrNot(part: string, w: seq<byte>)
    requires |w| == 32
    ensures TrimPrefix(part, "v1,") == EncodeB64(w) <==> part == EncodeB64(w) || part == "v1," + EncodeB64(w)
  {
    B64Alphabet(w);
    if "v1," <= part {
      assert part == "v1," + part[3..] && part[2] == ',' && part[2] in part;
    }
  }

  lemma {:induction false} WordsArePlain(s: string, part: string)
    requires part in Fields(s)
    ensures NoSpace(part)
    decreases |s|
  {
    if IsSpace(s[0]) {
      WordsArePlain(s[1..], part);
    } else {
      var n := WordLength(s);
      WordIsPlain(s);
      if part != s[..n] {
        WordsArePlain(s[n..], part);
      }
    }
  }

  lemma {:induction false} WordIsPlain(s: string)
    ensures NoSpace(s[..WordLength(s)])
  {
    if s != "" && !IsSpace(s[0]) {
      WordIsPlain(s[1..]);
      assert s[..WordLength(s)] == [s[0]] + s[1..][..WordLength(s[1..])];
    }
  }

  /** Which answer it gets otherwise, in the order of the checks. */
  lemma StandardAnswer(mac: Mac, secret: string, id: string, tsStr: string, sigH: string, raw: string, now: int)
    ensures var r := CheckStandard(mac, secret, id, tsStr, sigH, raw, now);
            && r.provider == "standard" && r.status in {PASS, FAIL}
            && (r.reason == MissingSecret <==> secret == "")
            && (r.reason == Malformed <==> secret != "" && (id == "" || tsStr == "" || sigH == ""))
            && (r.reason == BadTimestamp <==>
                  secret != "" && id != "" && tsStr != "" && sigH != "" && ParseInt(TrimSpace(tsStr)).None?)
            && (r.reason == BadSecret ==> DecodeB64(TrimPrefix(secret, "whsec_")).None?)
            && (r.reason == Mismatch ==> DecodeB64(TrimPrefix(secret, "whsec_")).Some?)
  {
  }

  // ---------------------------------------------------------------- binding

  /** Two messages with one MAC: what HMAC-SHA256 is trusted never to exhibit. */
  ghost predicate Collision(mac: Mac, key: string, m: string, m': string)
  {
    m != m' && mac(key, m) == mac(key, m')
  }

  /** "<t>.<body>" determines t and body. */
  lemma StripeMessageInjective(ts: int, raw: string, ts': int, raw': string)
    requires IsInt64(ts) && IsInt64(ts') && StripeMessage(ts, raw) == StripeMessage(ts', raw')
    ensures ts == ts' && raw == raw'
  {
    PrintIntAlphabet(ts);
    PrintIntAlphabet(ts');
    CutAt(PrintInt(ts), '.', raw);
    CutAt(PrintInt(ts'), '.', raw');
    ParsePrintInt(ts);
    ParsePrintInt(ts');
  }

  /** "<id>.<ts>.<body>" determines all three, unless one id extends the other by a dot. */
  lemma StandardMessageBinding(id: string, ts: string, raw: string, id': string, ts': string, raw': string)
    requires '.' !in ts && '.' !in ts'
    requires StandardMessage(id, ts, raw) == StandardMessage(id', ts', raw')
    ensures (id == id' && ts == ts' && raw == raw') || id + "." <= id' || id' + "." <= id
  {
    var m := StandardMessage(id, ts, raw);
    var rest, rest' := ts + "." + raw, ts' + "." + raw';
    assert m == id + "." + rest && m == id' + "." + rest';
    assert m[..|id| + 1] == id + ".";
    assert m[..|id'| + 1] == id' + ".";
    if |id| == |id'| {
      assert m[..|id|] == id && m[..|id'|] == id';
      assert rest == m[|id| + 1..] && rest' == m[|id'| + 1..];
      CutAt(ts, '.', raw);
      CutAt(ts', '.', raw');
    } else if |id| < |id'| {
      assert id' == m[..|id'|];
      assert id'[..|id| + 1] == m[..|id| + 1];
    } else {
      assert id == m[..|id|];
      assert id[..|id'| + 1] == m[..|id'| + 1];
    }
  }

  /** Everything before the first dot. */
  function Segment(s: string): string { s[..Find(s, '.')] }

  /** id' extends id by a dot and what could be a timestamp. */
  predicate Confusable(id: string, id': string)
  {
    id + "." <= id' && ParseInt(Segment(id'[|id| + 1..])).Some?
  }

  ghost predicate Separated(id: string, id': string)
  {
    forall ts, raw, ts', raw' | ParseInt(ts).Some? && ParseInt(ts').Some?
                                && StandardMessage(id, ts, raw) == StandardMessage(id', ts', raw') ::
      id == id' && ts == ts' && raw == raw'
  }

  lemma SegmentOf(a: string, rest: string, b: string, rest': string)
    requires '.' !in a && a + "." + rest == b + "." + rest'
    ensures Segment(b) == a
  {
    var m := a + ['.'] + rest;
    assert m == b + ['.'] + rest';
    FindAt(a, '.', rest);
    if '.' in b {
      var i := Find(b, '.');
      assert b == b[..i] + ['.'] + b[i + 1..] by { FindInside(b); }
      assert m == b[..i] + ['.'] + (b[i + 1..] + ['.'] + rest');
      FindAt(b[..i], '.', b[i + 1..] + ['.'] + rest');
      assert m[..|a|] == a && m[..i] == b[..i];
    } else {
      FindNone(b, '.');
      FindAt(b, '.', rest');
      assert m[..|a|] == a && m[..|b|] == b;
    }
  }

  lemma FindInside(b: string)
    requires '.' in b
    ensures Find(b, '.') < |b| && b[Find(b, '.')] == '.' && '.' !in b[..Find(b, '.')]
  {
    assert b[..|b|] == b;
  }

  /** Equal messages under different ids need one id to be confusable with the other. */
  lemma EqualMessages(id: string, ts: string, raw: string, id': string, ts': string, raw': string)
    requires ParseInt(ts).Some? && ParseInt(ts').Some?
    requires StandardMessage(id, ts, raw) == StandardMessage(id', ts', raw')
    ensures (id == id' && ts == ts' && raw == raw') || Confusable(id, id') || Confusable(id', id)
  {
    ParsedHasNoDot(ts);
    ParsedHasNoDot(ts');
    StandardMessageBinding(id, ts, raw, id', ts', raw');
    if id + "." <= id' {
      Extended(id, ts, raw, id', ts', raw');
    } else if id' + "." <= id {
      Extended(id', ts', raw', id, ts, raw);
    }
  }

  lemma Extended(id: string, ts: string, raw: string, id': string, ts': string, raw': string)
    requires '.' !in ts && id + "." <= id'
    requires StandardMessage(id, ts, raw) == StandardMessage(id', ts', raw')
    ensures Segment(id'[|id| + 1..]) == ts
  {
    var m, q := StandardMessage(id, ts, raw), id'[|id| + 1..];
    assert m[|id| + 1..] == ts + "." + raw;
    assert m[|id| + 1..] == q + "." + (ts' + "." + raw');
    SegmentOf(ts, raw, q, ts' + "." + raw');
  }

  /** Two tuples with one message, the same timestamp on both sides. */
  lemma ConfusedTuples(id: string, id': string) returns (ts: string, raw: string)
    requires Confusable(id, id')
    ensures ParseInt(ts).Some? && ts == Segment(id'[|id| + 1..])
    ensures StandardMessage(id, ts, raw) == StandardMessage(id', ts, "")
  {
    var q := id'[|id| + 1..];
    ts := Segment(q);
    var more := q[|ts|..] + "." + ts + ".";
    assert more[0] == '.';
    raw := more[1..];
    assert "." + raw == more && id' == id + "." + q;
    SameText(id, q, ts, raw);
  }

  lemma SameText(id: string, q: string, ts: string, raw: string)
    requires ts <= q && "." + raw == q[|ts|..] + "." + ts + "."
    ensures StandardMessage(id, ts, raw) == StandardMessage(id + "." + q, ts, "")
  {
    assert id + "." + ts + "." + raw == id + "." + ts + ("." + raw);
    assert q == ts + q[|ts|..];
  }

  /** Main result: the message separates ids under parseable timestamps if and only if neither
      id is the other one extended by a dot and a number. */
  lemma SeparatedIff(id: string, id': string)
    ensures Separated(id, id') <==> !Confusable(id, id') && !Confusable(id', id)
  {
    if !Confusable(id, id') && !Confusable(id', id) {
      forall ts, raw, ts', raw' | ParseInt(ts).Some? && ParseInt(ts').Some?
                                  && StandardMessage(id, ts, raw) == StandardMessage(id', ts', raw')
        ensures id == id' && ts == ts' && raw == raw'
      {
        EqualMessages(id, ts, raw, id', ts', raw');
      }
    } else if Confusable(id, id') {
      var ts, raw := ConfusedTuples(id, id');
    } else {
      var ts, raw := ConfusedTuples(id', id);
      assert StandardMessage(id, ts, "") == StandardMessage(id', ts, raw);
    }
  }

  /** And then one Webhook-Signature is accepted under both ids: for every MAC and secret, at
      the time the ambiguous segment reads as. */
  lemma ConfusedAccepted(mac: Mac, secret: string, id: string, id': string)
    returns (ts: string, raw: string, sigH: string, now: int)
    requires Confusable(id, id') && id != ""
    requires secret != "" && DecodeB64(TrimPrefix(secret, "whsec_")).Some?
    ensures CheckStandard(mac, secret, id, ts, sigH, raw, now) == Pass("standard")
    ensures CheckStandard(mac, secret, id', ts, sigH, "", now) == Pass("standard")
  {
    ts, raw := ConfusedTuples(id, id');
    now := ParseInt(ts).value;
    ParsedIsTrimmed(ts);
    var key := Chars(DecodeB64(TrimPrefix(secret, "whsec_")).value);
    sigH := EncodeB64(mac(key, StandardMessage(id, ts, raw)));
    ListsItself(mac(key, StandardMessage(id, ts, raw)));
    Accepted(mac, secret, id, ts, sigH, raw, now);
    Accepted(mac, secret, id', ts, sigH, "", now);
  }

  lemma ParsedIsTrimmed(ts: string)
    requires ParseInt(ts).Some?
    ensures TrimSpace(ts) == ts && ts != ""
  {
    var neg := ts[0] == '-' || ts[0] == '+';
    assert neg ==> ts == [ts[0]] + ts[1..];
    TrimNothing(ts);
  }

  /** A MAC text is a signature header that lists it, with or without the version prefix. */
  lemma ListsItself(w: seq<byte>)
    requires |w| == 32
    ensures Fields(EncodeB64(w)) == [EncodeB64(w)] && SignatureOf(EncodeB64(w)) == EncodeB64(w)
  {
    B64Alphabet(w);
    TrimNothing(EncodeB64(w));
    OneField(EncodeB64(w));
    assert ',' == "v1,"[2];
  }

  lemma Accepted(mac: Mac, secret: string, id: string, ts: string, sigH: string, raw: string, now: int)
    requires id != "" && sigH != "" && secret != "" && DecodeB64(TrimPrefix(secret, "whsec_")).Some?
    requires TrimSpace(ts) == ts && ParseInt(ts) == Some(now)
    requires Fields(sigH) == [sigH]
    requires SignatureOf(sigH)
             == EncodeB64(mac(Chars(DecodeB64(TrimPrefix(secret, "whsec_")).value), StandardMessage(id, ts, raw)))
    ensures CheckStandard(mac, secret, id, ts, sigH, raw, now) == Pass("standard")
  {
    assert ts != "" && sigH in Fields(sigH);
  }

  /** Such ids: under any MAC, "a" at time 1 and "a.1" at time 2 share an accepted signature. */
  lemma DottedIdsCollide(mac: Mac, secret: string) returns (sigH: string)
    requires secret != "" && DecodeB64(TrimPrefix(secret, "whsec_")).Some?
    ensures CheckStandard(mac, secret, "a", "1", sigH, "2.x", 1) == Pass("standard")
    ensures CheckStandard(mac, secret, "a.1", "2", sigH, "x", 1) == Pass("standard")
  {
    var key := Chars(DecodeB64(TrimPrefix(secret, "whsec_")).value);
    var m := StandardMessage("a", "1", "2.x");
    assert m == "a.1.2.x" && StandardMessage("a.1", "2", "x") == "a.1.2.x";
    sigH := EncodeB64(mac(key, m));
    ListsItself(mac(key, m));
    OneDigit();
    ParsedIsTrimmed("1");
    ParsedIsTrimmed("2");
    assert sigH in Fields(sigH) && Tolerated(1, 1) && Tolerated(1, 2);
  }

  lemma OneDigit()
    ensures ParseInt("1") == Some(1) && ParseInt("2") == Some(2)
  {
    assert AllDigits("1") && AllDigits("2");
    assert "1"[..0] == "" && "2"[..0] == "";
    assert ParseNat("1") == 1 && ParseNat("2") == 2;
  }

  lemma CandidateBinding(mac: Mac, secret: string, v: string, ts: int, raw: string, ts': int, raw': string)
    requires IsInt64(ts) && IsInt64(ts')
    requires EqualFold(HexEncode(mac(secret, StripeMessage(ts, raw))), v)
    requires EqualFold(HexEncode(mac(secret, StripeMessage(ts', raw'))), v)
    ensures (ts == ts' && raw == raw') || Collision(mac, secret, StripeMessage(ts, raw), StripeMessage(ts', raw'))
  {
    var a, b := mac(secret, StripeMessage(ts, raw)), mac(secret, StripeMessage(ts', raw'));
    HexIsLower(a);
    HexIsLower(b);
    HexInjective(a, b);
    if StripeMessage(ts, raw) == StripeMessage(ts', raw') {
      StripeMessageInjective(ts, raw, ts', raw');
    }
  }

  /** The timestamp a Stripe-Signature header states. */
  function StatedTime(sig: string): Option<int> { ParseInt(TrimSpace(ScanStripe(Split(sig, ',')).t)) }

  function Candidates(sig: string): seq<string> { ScanStripe(Split(sig, ',')).candidates }

  /** Two Stripe-Signature headers accepted under one secret state the same time for the same
      body, or list different v1 values that match each its own message, or exhibit a
      collision. */
  lemma StripeBinding(mac: Mac, secret: string, sig: string, raw: string, now: int,
                      sig': string, raw': string, now': int)
    requires StripeVerify(mac, secret, sig, raw, now).status == PASS
    requires StripeVerify(mac, secret, sig', raw', now').status == PASS
    ensures StatedTime(sig).Some? && StatedTime(sig').Some?
    ensures var ts, ts' := StatedTime(sig).value, StatedTime(sig').value;
            || (ts == ts' && raw == raw')
            || (exists v, v' | v in Candidates(sig) && v' in Candidates(sig') ::
                  && !EqualFold(v, v')
                  && EqualFold(HexEncode(mac(secret, StripeMessage(ts, raw))), v)
                  && EqualFold(HexEncode(mac(secret, StripeMessage(ts', raw'))), v'))
            || Collision(mac, secret, StripeMessage(ts, raw), StripeMessage(ts', raw'))
  {
    var v := MatchedCandidate(mac, secret, sig, raw, now);
    var v' := MatchedCandidate(mac, secret, sig', raw', now');
    if EqualFold(v, v') {
      CandidateBinding(mac, secret, v, StatedTime(sig).value, raw, StatedTime(sig').value, raw');
    }
  }

  lemma MatchedCandidate(mac: Mac, secret: string, sig: string, raw: string, now: int) returns (v: string)
    requires StripeVerify(mac, secret, sig, raw, now).status == PASS
    ensures StatedTime(sig).Some? && IsInt64(StatedTime(sig).value) && v in Candidates(sig)
    ensures EqualFold(HexEncode(mac(secret, StripeMessage(StatedTime(sig).value, raw))), v)
  {
    var ts := StatedTime(sig).value;
    v :| v in Candidates(sig) && EqualFold(HexEncode(mac(secret, StripeMessage(ts, raw))), v);
  }

  lemma {:induction false} ParsedHasNoDot(s: string)
    requires ParseInt(s).Some?
    ensures '.' !in s
  {
    var hasSign := s != "" && (s[0] == '-' || s[0] == '+');
    if hasSign { assert s == [s[0]] + s[1..]; }
  }

  lemma ListedBinding(mac: Mac, key: string, part: string, m: string, m': string)
    requires SignatureOf(part) == EncodeB64(mac(key, m)) && SignatureOf(part) == EncodeB64(mac(key, m'))
    ensures m == m' || Collision(mac, key, m, m')
  {
    B64Injective(mac(key, m), mac(key, m'));
  }

  /** A Webhook-Signature accepted twice under one secret was accepted for the same id,
      timestamp text and body, or under confusable ids, or it lists two different signatures
      made each for its own message, or it exhibits a collision. */
  lemma StandardBinding(mac: Mac, secret: string, sigH: string,
                        id: string, tsStr: string, raw: string, now: int,
                        id': string, tsStr': string, raw': string, now': int)
    requires CheckStandard(mac, secret, id, tsStr, sigH, raw, now).status == PASS
    requires CheckStandard(mac, secret, id', tsStr', sigH, raw', now').status == PASS
    ensures var key := Chars(DecodeB64(TrimPrefix(secret, "whsec_")).value);
            var ts, ts' := TrimSpace(tsStr), TrimSpace(tsStr');
            || (id == id' && ts == ts' && raw == raw')
            || Confusable(id, id') || Confusable(id', id)
            || (exists p, p' | p in Fields(sigH) && p' in Fields(sigH) ::
                  && SignatureOf(p) != SignatureOf(p')
                  && SignatureOf(p) == EncodeB64(mac(key, StandardMessage(id, ts, raw)))
                  && SignatureOf(p') == EncodeB64(mac(key, StandardMessage(id', ts', raw'))))
            || Collision(mac, key, StandardMessage(id, ts, raw), StandardMessage(id', ts', raw'))
  {
    var key := Chars(DecodeB64(TrimPrefix(secret, "whsec_")).value);
    var ts, ts' := TrimSpace(tsStr), TrimSpace(tsStr');
    var m, m' := StandardMessage(id, ts, raw), StandardMessage(id', ts', raw');
    var p :| p in Fields(sigH) && SignatureOf(p) == EncodeB64(mac(key, m));
    var p' :| p' in Fields(sigH) && SignatureOf(p') == EncodeB64(mac(key, m'));
    if SignatureOf(p) == SignatureOf(p') {
      ListedBinding(mac, key, p, m, m');
      if m == m' { EqualMessages(id, ts, raw, id', ts', raw'); }
    }
  }

  lemma HexBinding(mac: Mac, secret: string, got: string, raw: string, raw': string)
    requires EqualFold(HexEncode(mac(secret, raw)), got) && EqualFold(HexEncode(mac(secret, raw')), got)
    ensures raw == raw' || Collision(mac, secret, raw, raw')
  {
    HexIsLower(mac(secret, raw));
    HexIsLower(mac(secret, raw'));
    HexInjective(mac(secret, raw), mac(secret, raw'));
  }

  /** github, razorpay and shopify: headers accepted for two bodies under one secret exhibit
      a collision. */
  lemma PlainBinding(mac: Mac, provider: string, secret: string, h: Flat, raw: string, raw': string)
    requires provider in {"github", "razorpay", "shopify"}
    requires VerifyAs(mac, provider, secret, h, raw, 0).status == PASS
    requires VerifyAs(mac, provider, secret, h, raw', 0).status == PASS
    ensures raw == raw' || Collision(mac, secret, raw, raw')
  {
    match provider
    case "github" => HexBinding(mac, secret, TrimPrefix(Lookup(h, "X-Hub-Signature-256"), "sha256="), raw, raw');
    case "razorpay" => HexBinding(mac, secret, TrimSpace(Lookup(h, "X-Razorpay-Signature")), raw, raw');
    case _ => B64Injective(mac(secret, raw), mac(secret, raw'));
  }

  /** A PASS names a known provider, the pinned one if any, whose headers are there and whose
      own check passed under a non-empty secret. */
  lemma PassIsEarned(mac: Mac, secret: string, providerHint: string, h: Flat, raw: string, now: int)
    requires Chain(mac, secret, providerHint, h, raw, now).status == PASS
    ensures var p := Chain(mac, secret, providerHint, h, raw, now).provider;
            && p in PROVIDERS && secret != "" && Detect(p, h)
            && VerifyAs(mac, p, secret, h, raw, now) == Pass(p)
            && (Normal(providerHint) !in {"", "generic", "auto"} ==> p == Normal(providerHint))
  {
    var hint := Normal(providerHint);
    if hint in {"", "generic", "auto"} {
      if i :| 0 <= i < |PROVIDERS| && Detect(PROVIDERS[i], h) {
        var k := FirstProvider(h, i);
        FirstDetected(mac, secret, providerHint, h, raw, now, k);
        PassNeedsSecret(mac, PROVIDERS[k], secret, h, raw, now);
      } else {
        NoneDetected(mac, secret, providerHint, h, raw, now);
      }
    } else {
      PassNeedsSecret(mac, hint, secret, h, raw, now);
    }
  }

  lemma {:induction false} FirstProvider(h: Flat, i: nat) returns (k: nat)
    requires i < |PROVIDERS| && Detect(PROVIDERS[i], h)
    ensures k <= i && Detect(PROVIDERS[k], h) && forall j | 0 <= j < k :: !Detect(PROVIDERS[j], h)
  {
    k := i;
    if j :| 0 <= j < i && Detect(PROVIDERS[j], h) {
      k := FirstProvider(h, j);
    }
  }

  lemma StripeOwnResult(mac: Mac, secret: string, sig: string, raw: string, now: int)
    ensures var r := StripeVerify(mac, secret, sig, raw, now);
            r.provider == "stripe" && r.status != SKIPPED && (r.status == PASS ==> secret != "" && r == Pass("stripe"))
  {
  }

  lemma StandardOwnResult(mac: Mac, secret: string, id: string, tsStr: string, sigH: string, raw: string, now: int)
    ensures var r := CheckStandard(mac, secret, id, tsStr, sigH, raw, now);
            && r.provider == "standard" && r.status != SKIPPED
            && (r.status == PASS ==> secret != "" && r == Pass("standard"))
  {
  }

  lemma PassNeedsSecret(mac: Mac, p: string, secret: string, h: Flat, raw: string, now: int)
    requires p in PROVIDERS
    ensures var r := VerifyAs(mac, p, secret, h, raw, now);
            r.provider == p && r.status != SKIPPED && (r.status == PASS ==> secret != "" && r == Pass(p))
  {
    if p == "stripe" {
      StripeOwnResult(mac, secret, Lookup(h, "Stripe-Signature"), raw, now);
    } else if p == "standard" {
      StandardOwnResult(mac, secret, Either(h, "Webhook-Id", "Svix-Id"),
                        Either(h, "Webhook-Timestamp", "Svix-Timestamp"),
                        Either(h, "Webhook-Signature", "Svix-Signature"), raw, now);
    }
  }
}
