/** Re-signing (internal/verify/resign.go) and its round trip through the chain. */
module Resign {
  import opened Text
  import opened Encoding
  import opened Verify

  datatype Refusal =
    | NeedsProvider | NeedsSecret | NeedsId | BadKey | UnknownProvider
  datatype Refresh = Signed(headers: Flat) | Refused(why: Refusal)

  function StripeHeader(mac: Mac, secret: string, body: string, now: int): string
  {
    "t=" + PrintInt(now) + ",v1=" + HexEncode(mac(secret, StripeMessage(now, body)))
  }

  ghost function EventId(h: Flat): string
  {
    Either(h, "Webhook-Id", "Svix-Id")
  }

  function StandardSignature(mac: Mac, key: seq<byte>, id: string, ts: string, body: string): string
  {
    "v1," + EncodeB64(mac(Chars(key), StandardMessage(id, ts, body)))
  }

  /** `svix` says which header shape was stored. */
  function RefreshShape(mac: Mac, secret: string, id: string, svix: bool, body: string, now: int): Refresh
  {
    if id == "" then Refused(NeedsId) else
    match DecodeB64(TrimPrefix(secret, "whsec_"))
    case None => Refused(BadKey)
    case Some(key) =>
      var ts := PrintInt(now);
      var sig := StandardSignature(mac, key, id, ts, body);
      if svix then Signed(map["Svix-Timestamp" := ts, "Svix-Signature" := sig])
      else Signed(map["Webhook-Timestamp" := ts, "Webhook-Signature" := sig])
  }

  ghost function RefreshStandard(mac: Mac, secret: string, h: Flat, body: string, now: int): Refresh
  {
    RefreshShape(mac, secret, EventId(h), Lookup(h, "Svix-Signature") != "", body, now)
  }

  /** The providers whose signature depends on the body alone, and the refusals. */
  function RefreshPlain(mac: Mac, providerText: string, secret: string, body: string, now: int): Refresh
  {
    var provider := Normal(providerText);
    if provider in {"", "generic", "auto"} then Refused(NeedsProvider)
    else if secret == "" then Refused(NeedsSecret) else
    match provider
    case "stripe" => Signed(map["Stripe-Signature" := StripeHeader(mac, secret, body, now)])
    case "github" => Signed(map["X-Hub-Signature-256" := "sha256=" + HexEncode(mac(secret, body))])
    case "razorpay" => Signed(map["X-Razorpay-Signature" := HexEncode(mac(secret, body))])
    case "shopify" => Signed(map["X-Shopify-Hmac-Sha256" := EncodeB64(mac(secret, body))])
    case _ => Refused(Refusal.UnknownProvider)
  }

  ghost function RefreshSignatures(mac: Mac, providerText: string, secret: string, h: Flat,
                                   body: string, now: int): Refresh
  {
    if Normal(providerText) == "standard" && secret != "" then RefreshStandard(mac, secret, h, body, now)
    else RefreshPlain(mac, providerText, secret, body, now)
  }

  /** The program's own lookups: they agree with the function when names are unique. */
  method Resign(mac: Mac, providerText: string, secret: string, h: Flat, body: string, now: int)
    returns (r: Refresh)
    ensures FoldUnique(h) ==> r == RefreshSignatures(mac, providerText, secret, h, body, now)
  {
    if Normal(providerText) == "standard" && secret != "" {
      r := ResignStandard(mac, secret, h, body, now);
    } else {
      r := RefreshPlain(mac, providerText, secret, body, now);
    }
  }

  method ResignStandard(mac: Mac, secret: string, h: Flat, body: string, now: int) returns (r: Refresh)
    ensures FoldUnique(h) ==> r == RefreshStandard(mac, secret, h, body, now)
  {
    var id := Fallback(h, "Webhook-Id", "Svix-Id");
    var svix := Has(h, "Svix-Signature");
    r := RefreshShape(mac, secret, id, svix, body, now);
  }

  /** Re-signing succeeds for exactly these inputs. */
  lemma RefreshIff(mac: Mac, providerText: string, secret: string, h: Flat, body: string, now: int)
    ensures RefreshSignatures(mac, providerText, secret, h, body, now).Signed?
            <==> && Normal(providerText) in PROVIDERS && secret != ""
                 && (Normal(providerText) == "standard" ==>
                       EventId(h) != "" && DecodeB64(TrimPrefix(secret, "whsec_")).Some?)
  {
    var p := Normal(providerText);
    assert p in PROVIDERS <==> p in {"stripe", "github", "standard", "razorpay", "shopify"};
  }

  /** Why re-signing is refused, in the order of the checks. */
  lemma RefusalIs(mac: Mac, providerText: string, secret: string, h: Flat, body: string, now: int)
    ensures var p, r := Lower(TrimSpace(providerText)), RefreshSignatures(mac, providerText, secret, h, body, now);
            && (r == Refused(NeedsProvider) <==> p in {"", "generic", "auto"})
            && (r == Refused(NeedsSecret) <==> p !in {"", "generic", "auto"} && secret == "")
            && (r == Refused(Refusal.UnknownProvider) <==>
                  secret != "" && p !in {"", "generic", "auto", "stripe", "github", "standard", "razorpay", "shopify"})
            && (r == Refused(NeedsId) <==>
                  secret != "" && p == "standard" && Lookup(h, "Webhook-Id") == "" && Lookup(h, "Svix-Id") == "")
            && (r == Refused(BadKey) <==>
                  secret != "" && p == "standard" && !(Lookup(h, "Webhook-Id") == "" && Lookup(h, "Svix-Id") == "")
                  && DecodeB64(TrimPrefix(secret, "whsec_")).None?)
  {
  }

  /** The header a plain provider's re-signing yields, and nothing beside it. */
  lemma PlainHeaders(mac: Mac, p: string, secret: string, h: Flat, body: string, now: int)
    requires secret != "" && Normal(p) in {"stripe", "github", "razorpay", "shopify"}
    ensures RefreshSignatures(mac, p, secret, h, body, now)
            == Signed(match Normal(p)
                      case "stripe" =>
                        map["Stripe-Signature" :=
                              "t=" + PrintInt(now) + ",v1=" + HexEncode(mac(secret, PrintInt(now) + "." + body))]
                      case "github" => map["X-Hub-Signature-256" := "sha256=" + HexEncode(mac(secret, body))]
                      case "razorpay" => map["X-Razorpay-Signature" := HexEncode(mac(secret, body))]
                      case _ => map["X-Shopify-Hmac-Sha256" := EncodeB64(mac(secret, body))])
  {
  }

  /** The two headers standard yields: under the Svix names if a Svix signature was stored. */
  lemma StandardHeaders(mac: Mac, p: string, secret: string, h: Flat, body: string, now: int)
    requires secret != "" && Normal(p) == "standard" && RefreshSignatures(mac, p, secret, h, body, now).Signed?
    ensures var id := if Lookup(h, "Webhook-Id") != "" then Lookup(h, "Webhook-Id") else Lookup(h, "Svix-Id");
            var key := Chars(DecodeB64(TrimPrefix(secret, "whsec_")).value);
            var sig := "v1," + EncodeB64(mac(key, id + "." + PrintInt(now) + "." + body));
            RefreshSignatures(mac, p, secret, h, body, now)
            == Signed(if Lookup(h, "Svix-Signature") != ""
                      then map["Svix-Timestamp" := PrintInt(now), "Svix-Signature" := sig]
                      else map["Webhook-Timestamp" := PrintInt(now), "Webhook-Signature" := sig])
  {
  }

  // ---------------------------------------------------------------- printed headers parse back

  lemma HexIsPlain(bs: seq<byte>)
    ensures NoSpace(HexEncode(bs)) && ',' !in HexEncode(bs)
  {
  }

  lemma TrimKeeps(p: string, s: string)
    requires NoSpace(p) && NoSpace(s)
    ensures TrimSpace(p + s) == p + s
  {
    TrimNothing(p + s);
  }

  lemma FieldOf(k: string, v: string)
    requires NoSpace(k) && NoSpace(v) && '=' !in k
    ensures Field(k + "=" + v) == Some((k, v))
  {
    TrimKeeps(k + "=", v);
    assert k + "=" + v == k + ['='] + v;
    CutAt(k, '=', v);
  }

  lemma ScansTwoFields(a: string, b: string, t: string, v1: string)
    requires ',' !in a && ',' !in b && Field(a) == Some(("t", t)) && Field(b) == Some(("v1", v1))
    ensures ScanStripe(Split(a + "," + b, ',')) == StripeScan(t, [v1])
  {
    assert a + "," + b == a + [','] + b;
    SplitFirst(a, ',', b);
    SplitNone(b, ',');
    assert [a] + [b] == [a, b] && [a, b][..1] == [a] && [a][..0] == [];
    assert ScanStripe([a]) == StripeScan(t, []);
  }

  lemma HeaderShape(t: string, v1: string)
    ensures "t=" + t + ",v1=" + v1 == ("t" + "=" + t) + "," + ("v1" + "=" + v1)
  {
    assert "t=" == "t" + "=" && ",v1=" == "," + "v1" + "=";
  }

  lemma HeaderScans(t: string, v1: string)
    requires NoSpace(t) && NoSpace(v1) && ',' !in t && ',' !in v1
    ensures ScanStripe(Split("t=" + t + ",v1=" + v1, ',')) == StripeScan(t, [v1])
  {
    HeaderShape(t, v1);
    FieldOf("t", t);
    FieldOf("v1", v1);
    ScansTwoFields("t" + "=" + t, "v1" + "=" + v1, t, v1);
  }

  lemma StripeHeaderScans(mac: Mac, secret: string, body: string, now: int)
    ensures ScanStripe(Split(StripeHeader(mac, secret, body, now), ','))
            == StripeScan(PrintInt(now), [HexEncode(mac(secret, StripeMessage(now, body)))])
  {
    PrintIntAlphabet(now);
    HexIsPlain(mac(secret, StripeMessage(now, body)));
    HeaderScans(PrintInt(now), HexEncode(mac(secret, StripeMessage(now, body))));
  }

  predicate Within300(now: int, later: int) { IsInt64(now) && IsInt64(later) && -300 <= later - now <= 300 }

  lemma NowTolerated(now: int, later: int)
    requires Within300(now, later)
    ensures Tolerated(later, now)
  {
  }

  lemma PrintedTimeParses(now: int)
    requires IsInt64(now)
    ensures TrimSpace(PrintInt(now)) == PrintInt(now)
    ensures ParseInt(TrimSpace(PrintInt(now))) == Some(now)
  {
    PrintIntAlphabet(now);
    TrimNothing(PrintInt(now));
    ParsePrintInt(now);
  }

  lemma StripeRoundTrip(mac: Mac, secret: string, body: string, now: int, later: int)
    requires secret != "" && Within300(now, later)
    ensures StripeVerify(mac, secret, StripeHeader(mac, secret, body, now), body, later) == Pass("stripe")
    ensures StripeHeader(mac, secret, body, now) != ""
  {
    StripeHeaderScans(mac, secret, body, now);
    PrintIntAlphabet(now);
    PrintedTimeParses(now);
    NowTolerated(now, later);
    var want := HexEncode(mac(secret, StripeMessage(now, body)));
    assert want in [want];
  }

  /** A signature header of one part lists exactly the MAC text. */
  lemma OnePartSignature(w: seq<byte>)
    ensures Fields("v1," + EncodeB64(w)) == ["v1," + EncodeB64(w)]
    ensures SignatureOf("v1," + EncodeB64(w)) == EncodeB64(w)
  {
    B64Alphabet(w);
    TrimKeeps("v1,", EncodeB64(w));
    OneField("v1," + EncodeB64(w));
  }

  lemma StandardRoundTrip(mac: Mac, secret: string, id: string, body: string, now: int, later: int)
    requires secret != "" && id != "" && Within300(now, later)
    requires DecodeB64(TrimPrefix(secret, "whsec_")).Some?
    ensures var key := DecodeB64(TrimPrefix(secret, "whsec_")).value;
            CheckStandard(mac, secret, id, PrintInt(now), StandardSignature(mac, key, id, PrintInt(now), body),
                          body, later) == Pass("standard")
  {
    var key := DecodeB64(TrimPrefix(secret, "whsec_")).value;
    var sig := StandardSignature(mac, key, id, PrintInt(now), body);
    PrintedTimeParses(now);
    PrintIntAlphabet(now);
    NowTolerated(now, later);
    OnePartSignature(mac(Chars(key), StandardMessage(id, PrintInt(now), body)));
    assert sig in Fields(sig);
  }

  // ---------------------------------------------------------------- through the merged headers

  /** Names of different length or differing at a known place never match. */
  lemma StandardNames()
    ensures !EqualFold("Svix-Timestamp", "Webhook-Id") && !EqualFold("Svix-Timestamp", "Svix-Id")
    ensures !EqualFold("Svix-Signature", "Webhook-Id") && !EqualFold("Svix-Signature", "Svix-Id")
    ensures !EqualFold("Webhook-Timestamp", "Webhook-Id") && !EqualFold("Webhook-Timestamp", "Svix-Id")
    ensures !EqualFold("Webhook-Signature", "Webhook-Id") && !EqualFold("Webhook-Signature", "Svix-Id")
    ensures !EqualFold("Svix-Timestamp", "Webhook-Timestamp") && !EqualFold("Svix-Timestamp", "Webhook-Signature")
    ensures !EqualFold("Svix-Signature", "Webhook-Timestamp") && !EqualFold("Svix-Signature", "Webhook-Signature")
  {
    NamesDiffer("Svix-Timestamp", "Webhook-Id", 0);
    NamesDiffer("Svix-Timestamp", "Svix-Id", 0);
    NamesDiffer("Svix-Signature", "Webhook-Id", 0);
    NamesDiffer("Svix-Signature", "Svix-Id", 0);
    NamesDiffer("Webhook-Timestamp", "Webhook-Id", 0);
    NamesDiffer("Webhook-Timestamp", "Svix-Id", 0);
    NamesDiffer("Webhook-Signature", "Webhook-Id", 0);
    NamesDiffer("Webhook-Signature", "Svix-Id", 0);
    NamesDiffer("Svix-Timestamp", "Webhook-Timestamp", 0);
    NamesDiffer("Svix-Timestamp", "Webhook-Signature", 0);
    NamesDiffer("Svix-Signature", "Webhook-Timestamp", 0);
    NamesDiffer("Svix-Signature", "Webhook-Signature", 0);
  }

  /** Stale Webhook-* headers that Standard.Verify prefers to the re-signed Svix-* ones. */
  ghost predicate Shadowed(h: Flat)
  {
    && Lookup(h, "Svix-Signature") != ""
    && (Lookup(h, "Webhook-Timestamp") != "" || Lookup(h, "Webhook-Signature") != "")
  }

  /** The six values the check and the re-signing read, empty where a header is absent. */
  datatype Seen = Seen(wid: string, sid: string, wts: string, sts: string, wsig: string, ssig: string)

  ghost function SeenIn(h: Flat): Seen
  {
    Seen(Lookup(h, "Webhook-Id"), Lookup(h, "Svix-Id"), Lookup(h, "Webhook-Timestamp"),
         Lookup(h, "Svix-Timestamp"), Lookup(h, "Webhook-Signature"), Lookup(h, "Svix-Signature"))
  }

  function Or(a: string, b: string): string { if a != "" then a else b }

  function IdOf(x: Seen): string { Or(x.wid, x.sid) }

  function Check(mac: Mac, secret: string, x: Seen, raw: string, now: int): Result
  {
    CheckStandard(mac, secret, IdOf(x), Or(x.wts, x.sts), Or(x.wsig, x.ssig), raw, now)
  }

  lemma CheckIsVerify(mac: Mac, secret: string, h: Flat, raw: string, now: int)
    ensures StandardVerify(mac, secret, h, raw, now) == Check(mac, secret, SeenIn(h), raw, now)
    ensures Detect("standard", h) <==> Or(SeenIn(h).wsig, SeenIn(h).ssig) != ""
  {
  }

  /** The values re-signing leaves behind. */
  function Fresh(mac: Mac, key: seq<byte>, x: Seen, body: string, now: int): Seen
  {
    var ts := PrintInt(now);
    var sig := StandardSignature(mac, key, IdOf(x), ts, body);
    if x.ssig != "" then x.(sts := ts, ssig := sig) else x.(wts := ts, wsig := sig)
  }

  lemma FreshSvix(h: Flat, s: Flat)
    requires s.Keys == {"Svix-Timestamp", "Svix-Signature"} && FoldUnique(h + s)
    ensures SeenIn(h + s) == SeenIn(h).(sts := s["Svix-Timestamp"], ssig := s["Svix-Signature"])
  {
    StandardNames();
    LookupIs(h + s, "Svix-Timestamp", "Svix-Timestamp");
    LookupIs(h + s, "Svix-Signature", "Svix-Signature");
    LookupKept(h, s, "Webhook-Id");
    LookupKept(h, s, "Svix-Id");
    LookupKept(h, s, "Webhook-Timestamp");
    LookupKept(h, s, "Webhook-Signature");
  }

  lemma FreshWebhook(h: Flat, s: Flat)
    requires s.Keys == {"Webhook-Timestamp", "Webhook-Signature"} && FoldUnique(h + s)
    ensures SeenIn(h + s) == SeenIn(h).(wts := s["Webhook-Timestamp"], wsig := s["Webhook-Signature"])
  {
    StandardNames();
    LookupIs(h + s, "Webhook-Timestamp", "Webhook-Timestamp");
    LookupIs(h + s, "Webhook-Signature", "Webhook-Signature");
    LookupKept(h, s, "Webhook-Id");
    LookupKept(h, s, "Svix-Id");
    LookupKept(h, s, "Svix-Timestamp");
    LookupKept(h, s, "Svix-Signature");
  }

  /** What is read after the merge. */
  lemma FreshSeen(mac: Mac, secret: string, h: Flat, body: string, now: int)
    requires RefreshStandard(mac, secret, h, body, now).Signed?
    requires FoldUnique(h + RefreshStandard(mac, secret, h, body, now).headers)
    ensures var key := DecodeB64(TrimPrefix(secret, "whsec_")).value;
            SeenIn(h + RefreshStandard(mac, secret, h, body, now).headers)
            == Fresh(mac, key, SeenIn(h), body, now)
  {
    var s := RefreshStandard(mac, secret, h, body, now).headers;
    if Lookup(h, "Svix-Signature") != "" {
      FreshSvix(h, s);
    } else {
      FreshWebhook(h, s);
    }
  }

  lemma MergedStandard(mac: Mac, secret: string, h: Flat, body: string, now: int, later: int)
    requires secret != "" && Within300(now, later) && !Shadowed(h)
    requires RefreshStandard(mac, secret, h, body, now).Signed?
    requires FoldUnique(h + RefreshStandard(mac, secret, h, body, now).headers)
    ensures var m := h + RefreshStandard(mac, secret, h, body, now).headers;
            StandardVerify(mac, secret, m, body, later) == Pass("standard") && Detect("standard", m)
  {
    var m := h + RefreshStandard(mac, secret, h, body, now).headers;
    PrintIntAlphabet(now);
    FreshSeen(mac, secret, h, body, now);
    CheckIsVerify(mac, secret, m, body, later);
    StandardRoundTrip(mac, secret, EventId(h), body, now, later);
  }

  lemma MergedGitHub(mac: Mac, secret: string, h: Flat, body: string)
    requires secret != "" && FoldUnique(h)
    requires "X-Hub-Signature-256" in h
    requires h["X-Hub-Signature-256"] == "sha256=" + HexEncode(mac(secret, body))
    ensures GitHubVerify(mac, secret, h, body) == Pass("github") && Detect("github", h)
  {
    LookupIs(h, "X-Hub-Signature-256", "X-Hub-Signature-256");
    PrefixTrimmed("sha256=", HexEncode(mac(secret, body)));
  }

  lemma PrefixTrimmed(p: string, s: string)
    ensures TrimPrefix(p + s, p) == s
  {
  }

  lemma MergedRazorpay(mac: Mac, secret: string, h: Flat, body: string)
    requires secret != "" && FoldUnique(h)
    requires "X-Razorpay-Signature" in h && h["X-Razorpay-Signature"] == HexEncode(mac(secret, body))
    ensures RazorpayVerify(mac, secret, h, body) == Pass("razorpay") && Detect("razorpay", h)
  {
    LookupIs(h, "X-Razorpay-Signature", "X-Razorpay-Signature");
    HexIsPlain(mac(secret, body));
    TrimNothing(HexEncode(mac(secret, body)));
  }

  lemma MergedShopify(mac: Mac, secret: string, h: Flat, body: string)
    requires secret != "" && FoldUnique(h)
    requires "X-Shopify-Hmac-Sha256" in h && h["X-Shopify-Hmac-Sha256"] == EncodeB64(mac(secret, body))
    ensures ShopifyVerify(mac, secret, h, body) == Pass("shopify") && Detect("shopify", h)
  {
    LookupIs(h, "X-Shopify-Hmac-Sha256", "X-Shopify-Hmac-Sha256");
    B64Alphabet(mac(secret, body));
    TrimNothing(EncodeB64(mac(secret, body)));
  }

  lemma MergedStripe(mac: Mac, secret: string, h: Flat, body: string, now: int, later: int)
    requires secret != "" && Within300(now, later) && FoldUnique(h)
    requires "Stripe-Signature" in h && h["Stripe-Signature"] == StripeHeader(mac, secret, body, now)
    ensures StripeVerify(mac, secret, Lookup(h, "Stripe-Signature"), body, later) == Pass("stripe")
    ensures Detect("stripe", h)
  {
    LookupIs(h, "Stripe-Signature", "Stripe-Signature");
    StripeRoundTrip(mac, secret, body, now, later);
  }

  /** Main result: whatever re-signing returns, merged over the old headers, passes the
      pinned chain for the same body up to 300 seconds away, for all five providers. */
  lemma ResignRoundTrip(mac: Mac, provider: string, secret: string, h: Flat, body: string, now: int, later: int)
    requires Within300(now, later)
    requires RefreshSignatures(mac, provider, secret, h, body, now).Signed?
    requires FoldUnique(h + RefreshSignatures(mac, provider, secret, h, body, now).headers)
    requires Normal(provider) == "standard" ==> !Shadowed(h)
    ensures var m := h + RefreshSignatures(mac, provider, secret, h, body, now).headers;
            Chain(mac, secret, provider, m, body, later) == Pass(Normal(provider))
  {
    RefreshIff(mac, provider, secret, h, body, now);
    var m := h + RefreshSignatures(mac, provider, secret, h, body, now).headers;
    match Normal(provider) {
      case "stripe" => MergedStripe(mac, secret, m, body, now, later);
      case "standard" => MergedStandard(mac, secret, h, body, now, later);
      case "github" => MergedGitHub(mac, secret, m, body);
      case "razorpay" => MergedRazorpay(mac, secret, m, body);
      case _ => MergedShopify(mac, secret, m, body);
    }
  }

  // ---------------------------------------------------------------- the shadowed case

  /** With Svix-* and a stale Webhook-Timestamp both stored, re-signing cannot pass. */
  lemma StaleTimestampDefeatsResign(mac: Mac, secret: string, h: Flat, body: string, now: int, later: int, ts: int)
    requires RefreshStandard(mac, secret, h, body, now).Signed?
    requires FoldUnique(h + RefreshStandard(mac, secret, h, body, now).headers)
    requires Lookup(h, "Svix-Signature") != "" && Lookup(h, "Webhook-Timestamp") != ""
    requires ParseInt(TrimSpace(Lookup(h, "Webhook-Timestamp"))) == Some(ts) && !Tolerated(later, ts)
    ensures var m := h + RefreshStandard(mac, secret, h, body, now).headers;
            StandardVerify(mac, secret, m, body, later).status == FAIL
  {
    FreshSeen(mac, secret, h, body, now);
    CheckIsVerify(mac, secret, h + RefreshStandard(mac, secret, h, body, now).headers, body, later);
  }

  /** With a Webhook-Signature stored beside Svix-Signature, the verdict does not depend on
      the signature that was just made. */
  lemma OldSignatureShadowsNew(mac: Mac, secret: string, h: Flat, body: string, now: int, later: int, other: string)
    requires RefreshStandard(mac, secret, h, body, now).Signed?
    requires FoldUnique(h + RefreshStandard(mac, secret, h, body, now).headers)
    requires Lookup(h, "Svix-Signature") != "" && Lookup(h, "Webhook-Signature") != ""
    ensures var m := h + RefreshStandard(mac, secret, h, body, now).headers;
            StandardVerify(mac, secret, m["Svix-Signature" := other], body, later)
            == StandardVerify(mac, secret, m, body, later)
  {
    var m := h + RefreshStandard(mac, secret, h, body, now).headers;
    FreshSeen(mac, secret, h, body, now);
    OneValueChanged(m, other);
    CheckIsVerify(mac, secret, m, body, later);
    CheckIsVerify(mac, secret, m["Svix-Signature" := other], body, later);
  }

  lemma OneValueChanged(m: Flat, other: string)
    requires FoldUnique(m) && "Svix-Signature" in m
    ensures SeenIn(m["Svix-Signature" := other]) == SeenIn(m).(ssig := other)
  {
    var signed := map["Svix-Signature" := other];
    assert m["Svix-Signature" := other] == m + signed;
    UniqueByKeys(m, m + signed);
    StandardNames();
    NamesDiffer("Svix-Signature", "Svix-Timestamp", 5);
    LookupIs(m + signed, "Svix-Signature", "Svix-Signature");
    LookupKept(m, signed, "Webhook-Signature");
    LookupKept(m, signed, "Webhook-Id");
    LookupKept(m, signed, "Svix-Id");
    LookupKept(m, signed, "Webhook-Timestamp");
    LookupKept(m, signed, "Svix-Timestamp");
  }

  lemma UniqueByKeys(a: Flat, b: Flat)
    requires FoldUnique(a) && a.Keys == b.Keys
    ensures FoldUnique(b)
  {
    assert forall k :: k in b <==> k in a;
  }
}
