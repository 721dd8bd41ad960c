/** Exactly when a re-signed Standard Webhooks message passes (internal/verify/resign.go read
    against internal/verify/standard.go), whichever of the six headers are lost or replaced on
    the way. */
module StandardExact {
  import opened Text
  import opened Encoding
  import opened Verify
  import opened Resign

  /** What becomes of one header: sent as merged, stripped, or overridden by the caller. */
  datatype Fate = AsMerged | Gone | Replaced(value: string)

  datatype Fates = Fates(wid: Fate, sid: Fate, wts: Fate, sts: Fate, wsig: Fate, ssig: Fate)

  const UNTOUCHED: Fates := Fates(AsMerged, AsMerged, AsMerged, AsMerged, AsMerged, AsMerged)

  function After(f: Fate, v: string): string
  {
    match f
    case AsMerged => v
    case Gone => ""
    case Replaced(w) => w
  }

  function Arrived(x: Seen, l: Fates): Seen
  {
    Seen(After(l.wid, x.wid), After(l.sid, x.sid), After(l.wts, x.wts), After(l.sts, x.sts),
         After(l.wsig, x.wsig), After(l.ssig, x.ssig))
  }

  function Key(secret: string): seq<byte>
    requires DecodeB64(TrimPrefix(secret, "whsec_")).Some?
  {
    DecodeB64(TrimPrefix(secret, "whsec_")).value
  }

  predicate Resignable(secret: string, x: Seen)
  {
    secret != "" && DecodeB64(TrimPrefix(secret, "whsec_")).Some? && IdOf(x) != ""
  }

  /** No signature header is longer than a Go string can be. */
  predicate Sized(x: Seen, l: Fates)
  {
    |x.wsig| <= INT64_MAX && |After(l.wsig, "")| <= INT64_MAX && |After(l.ssig, "")| <= INT64_MAX
  }

  ghost predicate Passes(mac: Mac, secret: string, x: Seen, l: Fates, body: string, now: int, later: int)
    requires Resignable(secret, x)
  {
    Check(mac, secret, Arrived(Fresh(mac, Key(secret), x, body, now), l), body, later).status == PASS
  }

  /** For every MAC and every two clocks at most 300 s apart. */
  ghost predicate AlwaysPasses(secret: string, x: Seen, l: Fates, body: string)
    requires Resignable(secret, x)
  {
    forall mac: Mac, now: int, later: int | Within300(now, later) :: Passes(mac, secret, x, l, body, now, later)
  }

  /** The fresh timestamp is the one read. */
  predicate TimeSurvives(x: Seen, l: Fates)
  {
    if x.ssig != "" then l.sts.AsMerged? && After(l.wts, x.wts) == "" else l.wts.AsMerged?
  }

  predicate SignatureSurvives(x: Seen, l: Fates)
  {
    if x.ssig != "" then l.ssig.AsMerged? && After(l.wsig, x.wsig) == "" else l.wsig.AsMerged?
  }

  predicate IdSurvives(x: Seen, l: Fates) { IdOf(Arrived(x, l)) == IdOf(x) }

  predicate Survives(x: Seen, l: Fates) { TimeSurvives(x, l) && SignatureSurvives(x, l) && IdSurvives(x, l) }

  // ---------------------------------------------------------------- a MAC value nobody listed

  function Pow256(n: nat): nat { if n == 0 then 1 else 256 * Pow256(n - 1) }

  /** i in base 256, least digit first. */
  function Digits(i: nat, n: nat): (bs: seq<byte>)
    ensures |bs| == n
  {
    if n == 0 then [] else [i % 256] + Digits(i / 256, n - 1)
  }

  lemma {:induction false} DigitsInjective(i: nat, j: nat, n: nat)
    requires i < Pow256(n) && j < Pow256(n) && Digits(i, n) == Digits(j, n)
    ensures i == j
  {
    if n > 0 {
      assert Digits(i, n)[0] == i % 256 && Digits(j, n)[0] == j % 256;
      assert Digits(i, n)[1..] == Digits(i / 256, n - 1) && Digits(j, n)[1..] == Digits(j / 256, n - 1);
      DigitsInjective(i / 256, j / 256, n - 1);
    }
  }

  lemma {:induction false} PowGrows(n: nat)
    requires n >= 8
    ensures Pow256(n) >= TWO64
  {
    if n > 8 {
      PowGrows(n - 1);
    } else {
      assert Pow256(4) == 256 * 256 * 256 * 256;
    }
  }

  function FirstMacs(k: nat, n: nat): set<string> { set i | 0 <= i < k :: EncodeB64(Digits(i, n)) }

  lemma NextMac(k: nat, n: nat)
    requires k < Pow256(n)
    ensures EncodeB64(Digits(k, n)) !in FirstMacs(k, n)
  {
    forall i | 0 <= i < k ensures EncodeB64(Digits(i, n)) != EncodeB64(Digits(k, n)) {
      if EncodeB64(Digits(i, n)) == EncodeB64(Digits(k, n)) {
        B64Injective(Digits(i, n), Digits(k, n));
        DigitsInjective(i, k, n);
      }
    }
  }

  lemma FirstMacsStep(k: nat, n: nat)
    ensures FirstMacs(k + 1, n) == FirstMacs(k, n) + {EncodeB64(Digits(k, n))}
  {
    forall v | v in FirstMacs(k + 1, n) ensures v in FirstMacs(k, n) || v == EncodeB64(Digits(k, n)) {
      var i :| 0 <= i < k + 1 && EncodeB64(Digits(i, n)) == v;
      assert i == k || v in FirstMacs(k, n);
    }
  }

  lemma {:induction false} FirstMacsCount(k: nat, n: nat)
    requires k <= Pow256(n)
    ensures |FirstMacs(k, n)| == k
  {
    if k > 0 {
      FirstMacsCount(k - 1, n);
      NextMac(k - 1, n);
      FirstMacsStep(k - 1, n);
    }
  }

  function Listed(parts: seq<string>): set<string> { set part | part in parts :: SignatureOf(part) }

  lemma {:induction false} ListedCount(parts: seq<string>)
    ensures |Listed(parts)| <= |parts|
  {
    if parts != [] {
      ListedCount(parts[1..]);
      assert parts == [parts[0]] + parts[1..];
      assert Listed(parts) == {SignatureOf(parts[0])} + Listed(parts[1..]);
    }
  }

  lemma {:induction false} FieldsCount(s: string)
    ensures |Fields(s)| <= |s|
    decreases |s|
  {
    if s != "" {
      FieldsCount(if IsSpace(s[0]) then s[1..] else s[WordLength(s)..]);
    }
  }

  lemma SubsetCount(a: set<string>, b: set<string>)
    requires a <= b
    ensures |a| <= |b|
  {
    assert b == a + (b - a);
  }

  /** No header is long enough to list every MAC value. */
  lemma Unlisted(sigH: string) returns (w: seq<byte>)
    requires |sigH| <= INT64_MAX
    ensures |w| == 32 && forall part | part in Fields(sigH) :: SignatureOf(part) != EncodeB64(w)
  {
    var listed, k := Listed(Fields(sigH)), |Fields(sigH)| + 1;
    FieldsCount(sigH);
    ListedCount(Fields(sigH));
    PowGrows(32);
    FirstMacsCount(k, 32);
    if FirstMacs(k, 32) <= listed {
      SubsetCount(FirstMacs(k, 32), listed);
    }
    var v :| v in FirstMacs(k, 32) && v !in listed;
    var i :| 0 <= i < k && EncodeB64(Digits(i, 32)) == v;
    w := Digits(i, 32);
  }

  // ---------------------------------------------------------------- ways to fail

  lemma MissingFails(mac: Mac, secret: string, id: string, tsStr: string, sigH: string, raw: string, now: int)
    requires id == "" || tsStr == "" || sigH == ""
    ensures CheckStandard(mac, secret, id, tsStr, sigH, raw, now).status != PASS
  {
  }

  lemma UnlistedFails(mac: Mac, w: seq<byte>, secret: string, id: string, tsStr: string, sigH: string,
                      raw: string, now: int)
    requires |w| == 32 && forall k, m :: mac(k, m) == w
    requires forall part | part in Fields(sigH) :: SignatureOf(part) != EncodeB64(w)
    ensures CheckStandard(mac, secret, id, tsStr, sigH, raw, now).status != PASS
  {
  }

  /** Any text fails as a timestamp at some time. */
  lemma StaleFails(tsStr: string) returns (now: int)
    ensures IsInt64(now)
    ensures forall mac: Mac, secret, id, sigH, raw ::
              CheckStandard(mac, secret, id, tsStr, sigH, raw, now).status != PASS
  {
    match ParseInt(TrimSpace(tsStr)) {
      case None => now := 0;
      case Some(ts) =>
        now := if ts > 0 then ts - 301 else ts + 301;
        assert !Tolerated(now, ts);
    }
  }

  /** A signature made for another id fails under some MAC. */
  lemma OtherIdFails(secret: string, id: string, id': string, body: string) returns (mac: Mac)
    requires id != id' && DecodeB64(TrimPrefix(secret, "whsec_")).Some?
    ensures var sig := StandardSignature(mac, Key(secret), id, PrintInt(0), body);
            CheckStandard(mac, secret, id', PrintInt(0), sig, body, 0).status != PASS
  {
    var good, bad := StandardMessage(id, PrintInt(0), body), StandardMessage(id', PrintInt(0), body);
    OtherMessage(id, id', "." + PrintInt(0) + "." + body);
    assert good == id + ("." + PrintInt(0) + "." + body) && bad == id' + ("." + PrintInt(0) + "." + body);
    var w, w' := Repeated(0), Repeated(1);
    mac := (k: string, m: string) => if m == good then w else w';
    assert w[0] != w'[0];
    if EncodeB64(w) == EncodeB64(w') { B64Injective(w, w'); }
    OnePartSignature(w);
    PrintedTimeParses(0);
    MismatchFails(mac, secret, id', PrintInt(0), "v1," + EncodeB64(w), body);
  }

  function Repeated(b: byte): (bs: seq<byte>)
    ensures |bs| == 32
  {
    seq(32, _ => b)
  }

  lemma OtherMessage(id: string, id': string, rest: string)
    requires id != id'
    ensures id + rest != id' + rest
  {
    if |id| == |id'| {
      var i :| 0 <= i < |id| && id[i] != id'[i];
      assert (id + rest)[i] != (id' + rest)[i];
    }
  }

  lemma MismatchFails(mac: Mac, secret: string, id: string, tsStr: string, sigH: string, raw: string)
    requires TrimSpace(tsStr) == tsStr && DecodeB64(TrimPrefix(secret, "whsec_")).Some?
    requires forall part | part in Fields(sigH) ::
               SignatureOf(part) != EncodeB64(mac(Chars(Key(secret)), StandardMessage(id, tsStr, raw)))
    ensures CheckStandard(mac, secret, id, tsStr, sigH, raw, 0).status != PASS
  {
  }

  // ---------------------------------------------------------------- the two directions

  lemma SurvivorPasses(mac: Mac, secret: string, x: Seen, l: Fates, body: string, now: int, later: int)
    requires Resignable(secret, x) && Survives(x, l) && Within300(now, later)
    ensures Passes(mac, secret, x, l, body, now, later)
  {
    PrintIntAlphabet(now);
    StandardRoundTrip(mac, secret, IdOf(x), body, now, later);
  }

  /** The timestamp read when the fresh one is not. */
  function OldTime(x: Seen, l: Fates): string
  {
    if x.ssig != "" then Or(After(l.wts, x.wts), After(l.sts, "")) else Or(After(l.wts, ""), After(l.sts, x.sts))
  }

  lemma OldTimeRead(mac: Mac, key: seq<byte>, x: Seen, l: Fates, body: string, now: int)
    requires !TimeSurvives(x, l)
    ensures var y := Arrived(Fresh(mac, key, x, body, now), l); Or(y.wts, y.sts) == OldTime(x, l)
  {
  }

  lemma LostTimeFails(secret: string, x: Seen, l: Fates, body: string)
    requires Resignable(secret, x) && !TimeSurvives(x, l)
    ensures !AlwaysPasses(secret, x, l, body)
  {
    var mac: Mac := (k: string, m: string) => Repeated(0);
    var now := StaleFails(OldTime(x, l));
    OldTimeRead(mac, Key(secret), x, l, body, now);
    assert !Passes(mac, secret, x, l, body, now, now) && Within300(now, now);
  }

  function OldSignature(x: Seen, l: Fates): string
  {
    if x.ssig != "" then Or(After(l.wsig, x.wsig), After(l.ssig, "")) else Or(After(l.wsig, ""), After(l.ssig, ""))
  }

  lemma OldSignatureRead(mac: Mac, key: seq<byte>, x: Seen, l: Fates, body: string, now: int)
    requires !SignatureSurvives(x, l)
    ensures var y := Arrived(Fresh(mac, key, x, body, now), l); Or(y.wsig, y.ssig) == OldSignature(x, l)
  {
  }

  lemma LostSignatureFails(secret: string, x: Seen, l: Fates, body: string)
    requires Resignable(secret, x) && Sized(x, l) && !SignatureSurvives(x, l)
    ensures !AlwaysPasses(secret, x, l, body)
  {
    var w := Unlisted(OldSignature(x, l));
    var mac: Mac := (k: string, m: string) => w;
    OldSignatureRead(mac, Key(secret), x, l, body, 0);
    var y := Arrived(Fresh(mac, Key(secret), x, body, 0), l);
    UnlistedFails(mac, w, secret, IdOf(y), Or(y.wts, y.sts), OldSignature(x, l), body, 0);
    assert !Passes(mac, secret, x, l, body, 0, 0) && Within300(0, 0);
  }

  lemma LostIdFails(secret: string, x: Seen, l: Fates, body: string)
    requires Resignable(secret, x) && TimeSurvives(x, l) && SignatureSurvives(x, l) && !IdSurvives(x, l)
    ensures !AlwaysPasses(secret, x, l, body)
  {
    var mac := OtherIdFails(secret, IdOf(x), IdOf(Arrived(x, l)), body);
    FreshRead(mac, secret, x, l, body);
    assert !Passes(mac, secret, x, l, body, 0, 0) && Within300(0, 0);
  }

  lemma FreshRead(mac: Mac, secret: string, x: Seen, l: Fates, body: string)
    requires Resignable(secret, x) && TimeSurvives(x, l) && SignatureSurvives(x, l)
    ensures var y := Arrived(Fresh(mac, Key(secret), x, body, 0), l);
            && IdOf(y) == IdOf(Arrived(x, l)) && Or(y.wts, y.sts) == PrintInt(0)
            && Or(y.wsig, y.ssig) == StandardSignature(mac, Key(secret), IdOf(x), PrintInt(0), body)
  {
    PrintIntAlphabet(0);
  }

  /** Main result: a re-signed message passes for every MAC and clock pair if and only if the
      fresh timestamp, the fresh signature and the signed id are the ones read on arrival. */
  lemma AlwaysPassesIff(secret: string, x: Seen, l: Fates, body: string)
    requires Resignable(secret, x) && Sized(x, l)
    ensures AlwaysPasses(secret, x, l, body) <==> Survives(x, l)
  {
    if Survives(x, l) {
      forall mac: Mac, now: int, later: int | Within300(now, later)
        ensures Passes(mac, secret, x, l, body, now, later)
      {
        SurvivorPasses(mac, secret, x, l, body, now, later);
      }
    } else if !TimeSurvives(x, l) {
      LostTimeFails(secret, x, l, body);
    } else if !SignatureSurvives(x, l) {
      LostSignatureFails(secret, x, l, body);
    } else {
      LostIdFails(secret, x, l, body);
    }
  }

  // ---------------------------------------------------------------- nothing touched: the merge alone

  /** The names re-signing adds clash with no stored name that differs only in case. */
  ghost predicate Mergeable(h: Flat)
  {
    && FoldUnique(h + map["Svix-Timestamp" := "", "Svix-Signature" := ""])
    && FoldUnique(h + map["Webhook-Timestamp" := "", "Webhook-Signature" := ""])
  }

  lemma MergedUnique(mac: Mac, secret: string, h: Flat, body: string, now: int)
    requires Mergeable(h) && RefreshStandard(mac, secret, h, body, now).Signed?
    ensures FoldUnique(h + RefreshStandard(mac, secret, h, body, now).headers)
  {
    var s := RefreshStandard(mac, secret, h, body, now).headers;
    if Lookup(h, "Svix-Signature") != "" {
      UniqueByKeys(h + map["Svix-Timestamp" := "", "Svix-Signature" := ""], h + s);
    } else {
      UniqueByKeys(h + map["Webhook-Timestamp" := "", "Webhook-Signature" := ""], h + s);
    }
  }

  ghost predicate MergePasses(mac: Mac, secret: string, h: Flat, body: string, now: int, later: int)
  {
    && RefreshStandard(mac, secret, h, body, now).Signed?
    && StandardVerify(mac, secret, h + RefreshStandard(mac, secret, h, body, now).headers, body, later).status == PASS
  }

  lemma MergePassesAre(mac: Mac, secret: string, h: Flat, body: string, now: int, later: int)
    requires Resignable(secret, SeenIn(h)) && Mergeable(h)
    ensures MergePasses(mac, secret, h, body, now, later)
            <==> Passes(mac, secret, SeenIn(h), UNTOUCHED, body, now, later)
  {
    MergedUnique(mac, secret, h, body, now);
    FreshSeen(mac, secret, h, body, now);
    CheckIsVerify(mac, secret, h + RefreshStandard(mac, secret, h, body, now).headers, body, later);
  }

  /** Main result: merged over the old headers, standard re-signing always passes if and only
      if no stale Webhook-* header shadows the Svix-* ones. */
  lemma MergePassesIff(secret: string, h: Flat, body: string)
    requires Resignable(secret, SeenIn(h)) && Mergeable(h) && |Lookup(h, "Webhook-Signature")| <= INT64_MAX
    ensures (forall mac: Mac, now: int, later: int | Within300(now, later) ::
               MergePasses(mac, secret, h, body, now, later))
            <==> !Shadowed(h)
  {
    forall mac: Mac, now: int, later: int
      ensures MergePasses(mac, secret, h, body, now, later)
              <==> Passes(mac, secret, SeenIn(h), UNTOUCHED, body, now, later)
    {
      MergePassesAre(mac, secret, h, body, now, later);
    }
    AlwaysPassesIff(secret, SeenIn(h), UNTOUCHED, body);
    assert Survives(SeenIn(h), UNTOUCHED) <==> !Shadowed(h);
  }
}
