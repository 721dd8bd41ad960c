/** Exactly when a re-signed replay (internal/replay/replay.go) passes at the receiver. */
module ReplayExact {
  import opened Text
  import opened Verify
  import Encoding
  import opened Resign
  import opened StandardExact
  import opened Headers
  import opened Replay

  // ---------------------------------------------------------------- one signature header

  /** The one header that carries the signature of each provider but standard. */
  const CARRIER: map<string, string> :=
    map["stripe" := "Stripe-Signature", "github" := "X-Hub-Signature-256",
        "razorpay" := "X-Razorpay-Signature", "shopify" := "X-Shopify-Hmac-Sha256"]

  lemma CarrierIsSignature(p: string)
    requires p in CARRIER
    ensures CARRIER[p] in SIGNATURE_NAMES && p in PROVIDERS && CARRIER[p] in NamesFor(p)
  {
  }

  lemma PassReadsCarrier(mac: Mac, secret: string, provider: string, a: Flat, b: Flat, raw: string, now: int)
    requires Normal(provider) in CARRIER
    requires Lookup(a, CARRIER[Normal(provider)]) == Lookup(b, CARRIER[Normal(provider)])
    requires Chain(mac, secret, provider, a, raw, now).status == PASS
    ensures Lookup(a, CARRIER[Normal(provider)]) != ""
    ensures Chain(mac, secret, provider, b, raw, now) == Chain(mac, secret, provider, a, raw, now)
  {
  }

  lemma NoCarrierNoPass(mac: Mac, secret: string, provider: string, a: Flat, raw: string, now: int)
    requires Normal(provider) in CARRIER && Lookup(a, CARRIER[Normal(provider)]) == ""
    ensures Chain(mac, secret, provider, a, raw, now).status != PASS
  {
  }

  lemma CarrierStripped(stored: Fields, contentType: string, requestID: string, merged: map<string, string>, n: string)
    requires Canonical(stored.Keys) && Canonical(merged.Keys) && n in SIGNATURE_NAMES
    requires Lower(n) in HopNames(Composed(stored, contentType, requestID, merged))
    ensures Lookup(Flatten(Outgoing(stored, contentType, requestID, merged)), n) == ""
  {
    OutgoingField(stored, contentType, requestID, merged, n);
    LookupSignature(Outgoing(stored, contentType, requestID, merged), n);
  }

  lemma CarrierPasses(mac: Mac, s: Stored, p: string, requestID: string, body: string, signed: Flat,
                      explicit: map<string, string>, now: int, later: int)
    requires Canonical(s.headers.Keys) && (forall k | k in s.headers :: IsToken(k)) && Within300(now, later)
    requires Signed(signed) == RefreshSignatures(mac, p, s.secret, Flatten(s.headers), body, now)
    requires signed.Keys <= SIGNATURE_NAMES && Canonical(explicit.Keys)
    requires Normal(p) in CARRIER && CARRIER[Normal(p)] !in explicit
    requires Lower(CARRIER[Normal(p)])
               !in HopNames(Composed(s.headers, s.contentType, requestID, signed + explicit))
    ensures Chain(mac, s.secret, p,
                  Flatten(Outgoing(s.headers, s.contentType, requestID, signed + explicit)), body, later).status == PASS
  {
    var h := Flatten(s.headers);
    var sent := Flatten(Outgoing(s.headers, s.contentType, requestID, signed + explicit));
    CarrierIsSignature(Normal(p));
    MergedPasses(mac, s, p, body, signed, now, later);
    SentLookup(s.headers, s.contentType, requestID, signed, explicit, CARRIER[Normal(p)]);
    PassReadsCarrier(mac, s.secret, p, h + signed, sent, body, later);
  }

  lemma CarrierLost(mac: Mac, s: Stored, p: string, requestID: string, body: string, merged: Flat, later: int)
    requires Canonical(s.headers.Keys) && Canonical(merged.Keys) && Normal(p) in CARRIER
    requires Lower(CARRIER[Normal(p)])
               in HopNames(Composed(s.headers, s.contentType, requestID, merged))
    ensures Chain(mac, s.secret, p,
                  Flatten(Outgoing(s.headers, s.contentType, requestID, merged)), body, later).status != PASS
  {
    CarrierIsSignature(Normal(p));
    CarrierStripped(s.headers, s.contentType, requestID, merged, CARRIER[Normal(p)]);
    NoCarrierNoPass(mac, s.secret, p, Flatten(Outgoing(s.headers, s.contentType, requestID, merged)),
                    body, later);
  }

  // ---------------------------------------------------------------- what Connection names

  /** The Connection value a replay is composed with: the caller's, else the stored one. */
  function ConnectionOf(stored: Fields, explicit: map<string, string>): string
  {
    if "Connection" in explicit then explicit["Connection"]
    else if "Connection" in stored && stored["Connection"] != [] then stored["Connection"][0] else ""
  }

  lemma SignatureIsNoHop(n: string)
    requires n in SIGNATURE_NAMES
    ensures Lower(n) !in FIXED_HOPS
  {
    SignatureNamesAreNames(n);
    assert Lower(n)[0] in {'s', 'w', 'x'};
  }

  lemma ConnectionUnsigned(signed: Flat)
    requires signed.Keys <= SIGNATURE_NAMES
    ensures "Connection" !in signed
  {
    assert forall n | n in SIGNATURE_NAMES :: n[0] in {'S', 'W', 'X'};
  }

  /** Re-signed headers do not decide what is hop-by-hop. */
  lemma SignedAddNoHops(stored: Fields, contentType: string, requestID: string, signed: Flat,
                        explicit: map<string, string>)
    requires Canonical(stored.Keys) && Canonical(explicit.Keys) && signed.Keys <= SIGNATURE_NAMES
    ensures HopNames(Composed(stored, contentType, requestID, signed + explicit))
            == HopNames(Composed(stored, contentType, requestID, explicit))
  {
    SignedCanonical(signed);
    ConnectionUnsigned(signed);
    ConnectionName();
    ComposedField(stored, contentType, requestID, signed + explicit, "Connection");
    ComposedField(stored, contentType, requestID, explicit, "Connection");
  }

  /** A signature header is stripped exactly when that value names it. */
  lemma HopIff(stored: Fields, contentType: string, requestID: string, signed: Flat,
               explicit: map<string, string>, n: string)
    requires Canonical(stored.Keys) && Canonical(explicit.Keys) && signed.Keys <= SIGNATURE_NAMES
    requires n in SIGNATURE_NAMES
    ensures Lower(n) in HopNames(Composed(stored, contentType, requestID, signed + explicit))
            <==> Nominates(ConnectionOf(stored, explicit), n)
  {
    SignedAddNoHops(stored, contentType, requestID, signed, explicit);
    SignatureIsNoHop(n);
    ConnectionName();
    ConnectionComposed(stored, contentType, requestID, explicit);
    TokensIff(ConnectionOf(stored, explicit), n);
  }

  lemma ConnectionComposed(stored: Fields, contentType: string, requestID: string, explicit: map<string, string>)
    requires Canonical(stored.Keys) && Canonical(explicit.Keys)
    ensures GetField(Composed(stored, contentType, requestID, explicit), "Connection") == ConnectionOf(stored, explicit)
  {
    ConnectionName();
    ComposedField(stored, contentType, requestID, explicit, "Connection");
    NamesDiffer("Connection", "host", 0);
    NamesDiffer("Connection", "content-length", 2);
    NamesDiffer("Connection", "content-type", 2);
  }

  // ---------------------------------------------------------------- re-signing survives the path

  /** The replay is sent and passes the receiver's chain. */
  ghost predicate ReplayPasses(mac: Mac, s: Stored, p: string, requestID: string, target: string, opts: Options,
                               now: int, later: int)
  {
    var plan := PlanFor(mac, Some(s), requestID, target, opts, false, true, now);
    plan.Send? && Chain(mac, s.secret, p, Flatten(plan.message.headers), plan.message.body, later).status == PASS
  }

  /** A re-signed replay of a row that can be re-signed. */
  lemma ResignedPlan(mac: Mac, s: Stored, p: string, requestID: string, target: string, opts: Options, now: int)
    returns (signed: Flat)
    requires Orderly(Some(s), opts) && opts.resign && ResignsAs(s, p) && CanResign(s, p)
    ensures signed.Keys <= SIGNATURE_NAMES && Canonical(signed.Keys)
    ensures var body := if opts.body.Some? then opts.body.value else s.body;
            && Signed(signed) == RefreshSignatures(mac, p, s.secret, Flatten(s.headers), body, now)
            && PlanFor(mac, Some(s), requestID, target, opts, false, true, now)
               == Send(Message(s.verb, target,
                               Outgoing(s.headers, s.contentType, requestID, signed + Canonized(opts.headers)), body))
  {
    CanResignIff(mac, s, p, opts, now);
    SignedNames(mac, s, opts, now);
    signed := Signatures(mac, s, opts, now).headers;
    SignedCanonical(signed);
  }

  lemma CarrierIff(mac: Mac, s: Stored, p: string, requestID: string, body: string, signed: Flat,
                   explicit: map<string, string>, now: int, later: int)
    requires Canonical(s.headers.Keys) && (forall k | k in s.headers :: IsToken(k)) && Within300(now, later)
    requires Signed(signed) == RefreshSignatures(mac, p, s.secret, Flatten(s.headers), body, now)
    requires signed.Keys <= SIGNATURE_NAMES && Canonical(signed.Keys) && Canonical(explicit.Keys)
    requires Normal(p) in CARRIER && CARRIER[Normal(p)] !in explicit
    ensures Chain(mac, s.secret, p,
                  Flatten(Outgoing(s.headers, s.contentType, requestID, signed + explicit)), body, later).status == PASS
            <==> !Nominates(ConnectionOf(s.headers, explicit), CARRIER[Normal(p)])
  {
    CarrierIsSignature(Normal(p));
    HopIff(s.headers, s.contentType, requestID, signed, explicit, CARRIER[Normal(p)]);
    if Nominates(ConnectionOf(s.headers, explicit), CARRIER[Normal(p)]) {
      CarrierLost(mac, s, p, requestID, body, signed + explicit, later);
    } else {
      CarrierPasses(mac, s, p, requestID, body, signed, explicit, now, later);
    }
  }

  /** Main result: for stripe, github, razorpay and shopify a re-signed replay whose signature
      header the caller leaves alone is sent and passes on receipt if and only if the
      Connection value it is composed with does not name that header. */
  lemma ReplayPassesIff(mac: Mac, s: Stored, p: string, requestID: string, target: string, opts: Options,
                        now: int, later: int)
    requires Orderly(Some(s), opts) && opts.resign && ResignsAs(s, p) && CanResign(s, p) && Within300(now, later)
    requires Normal(p) in CARRIER && CARRIER[Normal(p)] !in Canonized(opts.headers)
    ensures ReplayPasses(mac, s, p, requestID, target, opts, now, later)
            <==> !Nominates(ConnectionOf(s.headers, Canonized(opts.headers)), CARRIER[Normal(p)])
  {
    var explicit, body := Canonized(opts.headers), if opts.body.Some? then opts.body.value else s.body;
    var signed := ResignedPlan(mac, s, p, requestID, target, opts, now);
    CarrierIff(mac, s, p, requestID, body, signed, explicit, now, later);
  }

  lemma OnlyStandardLeft(p: string)
    requires p in PROVIDERS && p !in CARRIER
    ensures p == "standard"
  {
  }

  /** Main result: a row that can be re-signed as the provider its columns give is sent, and on
      receipt passes the chain pinned to that provider for the very body sent, unless the
      caller overrides a header that check reads, the Connection value names one, or stale
      Webhook-* headers shadow the Svix-* ones. */
  lemma ResignSurvivesReplay(mac: Mac, s: Stored, p: string, requestID: string, target: string, opts: Options,
                             now: int, later: int)
    requires Orderly(Some(s), opts) && opts.resign && ResignsAs(s, p) && CanResign(s, p) && Within300(now, later)
    requires Normal(p) == "standard" ==> !Shadowed(Flatten(s.headers))
    requires forall n | n in NamesFor(Normal(p)) ::
               n !in Canonized(opts.headers) && !Nominates(ConnectionOf(s.headers, Canonized(opts.headers)), n)
    ensures var plan := PlanFor(mac, Some(s), requestID, target, opts, false, true, now);
            && plan.Send? && plan.message.verb == s.verb && plan.message.target == target
            && plan.message.body == (if opts.body.Some? then opts.body.value else s.body)
            && Chain(mac, s.secret, p, Flatten(plan.message.headers), plan.message.body, later)
               == Result(PASS, Normal(p), NoReason)
  {
    var explicit, body := Canonized(opts.headers), if opts.body.Some? then opts.body.value else s.body;
    var signed := ResignedPlan(mac, s, p, requestID, target, opts, now);
    forall n | n in NamesFor(Normal(p))
      ensures Lower(n) !in HopNames(Composed(s.headers, s.contentType, requestID, signed + explicit))
    {
      ReadNamesSign(Normal(p), n);
      HopIff(s.headers, s.contentType, requestID, signed, explicit, n);
    }
    SignedHeadersPass(mac, s, p, requestID, body, signed, explicit, now, later);
  }

  lemma ReadNamesSign(provider: string, n: string)
    requires n in NamesFor(provider)
    ensures n in SIGNATURE_NAMES
  {
  }

  lemma NothingNominated(n: string)
    requires n in SIGNATURE_NAMES
    ensures !Nominates("", n)
  {
    NoConnectionTokens();
    TokensIff("", n);
  }

  /** The caller overrides no header that carries the signature. */
  predicate LeavesAlone(provider: string, explicit: set<string>)
  {
    if provider in CARRIER then CARRIER[provider] !in explicit else NamesFor(provider) !! explicit
  }

  /** So a caller who can see that no Connection header is stored or given, and that the
      request can be re-signed and shadows nothing, is sure to pass. */
  lemma ReplayWithoutConnectionPasses(mac: Mac, s: Stored, p: string, requestID: string, target: string, opts: Options,
                                      now: int, later: int)
    requires Orderly(Some(s), opts) && opts.resign && ResignsAs(s, p) && CanResign(s, p) && Within300(now, later)
    requires Normal(p) == "standard" ==> !Shadowed(Flatten(s.headers))
    requires LeavesAlone(Normal(p), Canonized(opts.headers).Keys)
    requires "Connection" !in s.headers && "Connection" !in Canonized(opts.headers)
    ensures ReplayPasses(mac, s, p, requestID, target, opts, now, later)
  {
    assert ConnectionOf(s.headers, Canonized(opts.headers)) == "";
    if Normal(p) in CARRIER {
      CarrierIsSignature(Normal(p));
      NothingNominated(CARRIER[Normal(p)]);
      ReplayPassesIff(mac, s, p, requestID, target, opts, now, later);
    } else {
      OnlyStandardLeft(Normal(p));
      forall n | n in NamesFor("standard") ensures !Nominates("", n) {
        StandardNamesSign(n);
        NothingNominated(n);
      }
      ResignSurvivesReplay(mac, s, p, requestID, target, opts, now, later);
    }
  }

  // ---------------------------------------------------------------- standard webhooks

  /** Stripping comes last, so it removes overridden headers too. */
  ghost function FateOf(conn: string, explicit: map<string, string>, n: string): Fate
  {
    if Nominates(conn, n) then Gone else if n in explicit then Replaced(explicit[n]) else AsMerged
  }

  /** What becomes of the six Standard Webhooks headers. */
  ghost function FatesOf(conn: string, explicit: map<string, string>): Fates
  {
    Fates(FateOf(conn, explicit, "Webhook-Id"), FateOf(conn, explicit, "Svix-Id"),
          FateOf(conn, explicit, "Webhook-Timestamp"), FateOf(conn, explicit, "Svix-Timestamp"),
          FateOf(conn, explicit, "Webhook-Signature"), FateOf(conn, explicit, "Svix-Signature"))
  }

  /** One header on arrival: stripped, overridden, or as merged. */
  lemma ArrivedLookup(stored: Fields, contentType: string, requestID: string, signed: Flat,
                      explicit: map<string, string>, n: string)
    requires Canonical(stored.Keys) && Canonical(explicit.Keys) && signed.Keys <= SIGNATURE_NAMES
    requires n in SIGNATURE_NAMES
    ensures var conn := ConnectionOf(stored, explicit);
            Lookup(Flatten(Outgoing(stored, contentType, requestID, signed + explicit)), n)
            == After(FateOf(conn, explicit, n), Lookup(Flatten(stored) + signed, n))
  {
    HopIff(stored, contentType, requestID, signed, explicit, n);
    SignedCanonical(signed);
    if Nominates(ConnectionOf(stored, explicit), n) {
      CarrierStripped(stored, contentType, requestID, signed + explicit, n);
    } else if n in explicit {
      NameSurvives(stored, contentType, requestID, signed + explicit, n);
    } else {
      SentLookup(stored, contentType, requestID, signed, explicit, n);
    }
  }

  lemma StandardNamesSign(n: string)
    requires n in NamesFor("standard")
    ensures n in SIGNATURE_NAMES
  {
  }

  lemma SeenByName(a: Flat, b: Flat, conn: string, explicit: map<string, string>)
    requires forall n | n in NamesFor("standard") :: Lookup(a, n) == After(FateOf(conn, explicit, n), Lookup(b, n))
    ensures SeenIn(a) == Arrived(SeenIn(b), FatesOf(conn, explicit))
  {
    assert "Webhook-Id" in NamesFor("standard") && "Svix-Id" in NamesFor("standard");
    assert "Webhook-Timestamp" in NamesFor("standard") && "Svix-Timestamp" in NamesFor("standard");
    assert "Webhook-Signature" in NamesFor("standard") && "Svix-Signature" in NamesFor("standard");
  }

  lemma ArrivedSeen(stored: Fields, contentType: string, requestID: string, signed: Flat,
                    explicit: map<string, string>)
    requires Canonical(stored.Keys) && Canonical(explicit.Keys) && signed.Keys <= SIGNATURE_NAMES
    ensures var conn := ConnectionOf(stored, explicit);
            SeenIn(Flatten(Outgoing(stored, contentType, requestID, signed + explicit)))
            == Arrived(SeenIn(Flatten(stored) + signed), FatesOf(conn, explicit))
  {
    var a := Flatten(Outgoing(stored, contentType, requestID, signed + explicit));
    var b := Flatten(stored) + signed;
    var conn := ConnectionOf(stored, explicit);
    forall n | n in NamesFor("standard") ensures Lookup(a, n) == After(FateOf(conn, explicit, n), Lookup(b, n)) {
      StandardNamesSign(n);
      ArrivedLookup(stored, contentType, requestID, signed, explicit, n);
    }
    SeenByName(a, b, conn, explicit);
  }

  lemma PinnedStandard(mac: Mac, secret: string, provider: string, h: Flat, raw: string, now: int)
    requires Normal(provider) == "standard"
    ensures Chain(mac, secret, provider, h, raw, now).status == PASS
            <==> Check(mac, secret, SeenIn(h), raw, now).status == PASS
  {
    CheckIsVerify(mac, secret, h, raw, now);
    if !Detect("standard", h) {
      var x := SeenIn(h);
      MissingFails(mac, secret, IdOf(x), Or(x.wts, x.sts), Or(x.wsig, x.ssig), raw, now);
    }
  }

  lemma StandardArrives(mac: Mac, s: Stored, p: string, requestID: string, body: string, signed: Flat,
                        explicit: map<string, string>, now: int, later: int)
    requires Canonical(s.headers.Keys) && (forall k | k in s.headers :: IsToken(k))
    requires Normal(p) == "standard" && Resignable(s.secret, SeenIn(Flatten(s.headers)))
    requires Signed(signed) == RefreshStandard(mac, s.secret, Flatten(s.headers), body, now)
    requires signed.Keys <= SIGNATURE_NAMES && Canonical(explicit.Keys)
    ensures var conn := ConnectionOf(s.headers, explicit);
            Chain(mac, s.secret, p,
                  Flatten(Outgoing(s.headers, s.contentType, requestID, signed + explicit)), body, later).status == PASS
            <==> Passes(mac, s.secret, SeenIn(Flatten(s.headers)), FatesOf(conn, explicit), body, now, later)
  {
    var h := Flatten(s.headers);
    SignedFoldUnique(h, signed);
    FreshSeen(mac, s.secret, h, body, now);
    ArrivedSeen(s.headers, s.contentType, requestID, signed, explicit);
    PinnedStandard(mac, s.secret, p,
                   Flatten(Outgoing(s.headers, s.contentType, requestID, signed + explicit)), body, later);
  }

  lemma StandardIsSent(mac: Mac, s: Stored, p: string, requestID: string, target: string, opts: Options,
                       now: int, later: int)
    requires opts.resign && ResignsAs(s, p) && Normal(p) == "standard" && Resignable(s.secret, SeenIn(Flatten(s.headers)))
    ensures Signatures(mac, s, opts, now).Signed?
    ensures Signatures(mac, s, opts, now) == RefreshStandard(mac, s.secret, Flatten(s.headers), Body(s, opts), now)
    ensures var signed, explicit := Signatures(mac, s, opts, now).headers, Canonized(opts.headers);
            ReplayPasses(mac, s, p, requestID, target, opts, now, later)
            <==> Chain(mac, s.secret, p,
                       Flatten(Outgoing(s.headers, s.contentType, requestID, signed + explicit)),
                       Body(s, opts), later).status == PASS
  {
    RefreshIff(mac, p, s.secret, Flatten(s.headers), Body(s, opts), now);
  }

  /** What becomes of the six headers of a replay. */
  ghost function ReplayFates(s: Stored, opts: Options): Fates
  {
    var explicit := Canonized(opts.headers);
    FatesOf(ConnectionOf(s.headers, explicit), explicit)
  }

  lemma StandardReplayIs(mac: Mac, s: Stored, p: string, requestID: string, target: string, opts: Options,
                         now: int, later: int)
    requires Orderly(Some(s), opts) && opts.resign && ResignsAs(s, p) && Normal(p) == "standard"
    requires Resignable(s.secret, SeenIn(Flatten(s.headers)))
    ensures ReplayPasses(mac, s, p, requestID, target, opts, now, later)
            <==> Passes(mac, s.secret, SeenIn(Flatten(s.headers)), ReplayFates(s, opts),
                        Body(s, opts), now, later)
  {
    StandardIsSent(mac, s, p, requestID, target, opts, now, later);
    SignedNames(mac, s, opts, now);
    StandardArrives(mac, s, p, requestID, Body(s, opts), Signatures(mac, s, opts, now).headers,
                    Canonized(opts.headers), now, later);
  }

  /** Main result: a re-signed standard replay passes for every MAC and clock pair if and only
      if, after the caller's overrides and after stripping what Connection names, the fresh
      timestamp, the fresh signature and the signed id are the ones read. */
  lemma StandardReplayPassesIff(s: Stored, p: string, requestID: string, target: string, opts: Options)
    requires Orderly(Some(s), opts) && opts.resign && ResignsAs(s, p) && Normal(p) == "standard"
    requires Resignable(s.secret, SeenIn(Flatten(s.headers)))
    requires Sized(SeenIn(Flatten(s.headers)), ReplayFates(s, opts))
    ensures (forall mac: Mac, now: int, later: int | Within300(now, later) ::
               ReplayPasses(mac, s, p, requestID, target, opts, now, later))
            <==> Survives(SeenIn(Flatten(s.headers)), ReplayFates(s, opts))
  {
    var x, fates := SeenIn(Flatten(s.headers)), ReplayFates(s, opts);
    forall mac: Mac, now: int, later: int
      ensures ReplayPasses(mac, s, p, requestID, target, opts, now, later)
              <==> Passes(mac, s.secret, x, fates, Body(s, opts), now, later)
    {
      StandardReplayIs(mac, s, p, requestID, target, opts, now, later);
    }
    AlwaysPassesIff(s.secret, x, fates, Body(s, opts));
  }

  /** Sending another id than the one that was signed defeats re-signing. */
  lemma OtherIdDefeatsResign(s: Stored, p: string, requestID: string, target: string, opts: Options)
    requires Orderly(Some(s), opts) && opts.resign && ResignsAs(s, p) && Normal(p) == "standard"
    requires Resignable(s.secret, SeenIn(Flatten(s.headers)))
    requires Sized(SeenIn(Flatten(s.headers)), ReplayFates(s, opts))
    requires ReplayFates(s, opts).wid.Replaced?
    requires ReplayFates(s, opts).wid.value !in {"", EventId(Flatten(s.headers))}
    ensures !(forall mac: Mac, now: int, later: int | Within300(now, later) ::
                ReplayPasses(mac, s, p, requestID, target, opts, now, later))
  {
    StandardReplayPassesIff(s, p, requestID, target, opts);
  }
}
