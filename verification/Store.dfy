/** The three tables with their cascading foreign keys (migrations/001_init.sql), the
    statements that change them, and retention cleanup (internal/gc/gc.go). */
module Store {
  import opened Text
  import opened Timestamps
  import Headers
  import Verify

  datatype Endpoint = Endpoint(provider: string, secret: string, target: string, status: int,
                               body: string, contentType: string, expires: Option<string>)
  datatype Request = Request(slug: string, verb: string, headers: Headers.Fields, body: string,
                             verdict: Verify.Result, receivedAt: string)

  /** Tables by primary key; a replay row is reduced to the request it belongs to. */
  datatype Db = Db(endpoints: map<string, Endpoint>, requests: map<string, Request>, replays: map<string, string>)

  /** What the FOREIGN KEY clauses demand. */
  ghost predicate Sound(db: Db)
  {
    && (forall id | id in db.requests :: db.requests[id].slug in db.endpoints)
    && (forall r | r in db.replays :: db.replays[r] in db.requests)
  }

  // ---------------------------------------------------------------- statements

  function DropRequests(db: Db, ids: set<string>): Db
  {
    db.(requests := db.requests - ids,
        replays := map r | r in db.replays && db.replays[r] !in ids :: db.replays[r])
  }

  function RequestsOf(db: Db, slugs: set<string>): set<string>
  {
    set id | id in db.requests && db.requests[id].slug in slugs
  }

  function DropEndpoints(db: Db, slugs: set<string>): Db
  {
    DropRequests(db, RequestsOf(db, slugs)).(endpoints := db.endpoints - slugs)
  }

  /** INSERT OR IGNORE INTO endpoints(slug). */
  const FRESH: Endpoint := Endpoint("generic", "", "", 200, "{\"ok\":true}", "application/json", None)

  function CreateEndpoint(db: Db, slug: string): Db
  {
    if slug in db.endpoints then db else db.(endpoints := db.endpoints[slug := FRESH])
  }

  function PutEndpoint(db: Db, slug: string, e: Endpoint): Db { db.(endpoints := db.endpoints[slug := e]) }

  /** None: the insert fails on its primary or foreign key. */
  function InsertRequest(db: Db, id: string, r: Request): Option<Db>
  {
    if id in db.requests || r.slug !in db.endpoints then None
    else Some(db.(requests := db.requests[id := r]))
  }

  /** The error of a failing replay insert is ignored by every caller. */
  function InsertReplay(db: Db, id: string, requestID: string): Db
  {
    if id in db.replays || requestID !in db.requests then db
    else db.(replays := db.replays[id := requestID])
  }

  /** An insert under a used id or below no parent row changes nothing; any other adds one row. */
  lemma InsertsAre(db: Db, id: string, r: Request, requestID: string)
    ensures InsertRequest(db, id, r).None? <==> id in db.requests || r.slug !in db.endpoints
    ensures InsertRequest(db, id, r).Some? ==>
              var t := InsertRequest(db, id, r).value;
              && t.endpoints == db.endpoints && t.replays == db.replays
              && t.requests.Keys == db.requests.Keys + {id} && t.requests[id] == r
              && forall k | k in db.requests :: t.requests[k] == db.requests[k]
    ensures var t := InsertReplay(db, id, requestID);
            && t.endpoints == db.endpoints && t.requests == db.requests
            && t.replays == if id !in db.replays && requestID in db.requests then db.replays[id := requestID] else db.replays
  {
  }

  // ---------------------------------------------------------------- garbage collection

  function Expired(db: Db, cut: string): set<string>
  {
    set id | id in db.requests && Less(db.requests[id].receivedAt, cut)
  }

  /** Expired endpoints without a request. */
  function Idle(db: Db, nowText: string): set<string>
  {
    set slug | slug in db.endpoints
            && db.endpoints[slug].expires.Some? && Less(db.endpoints[slug].expires.value, nowText)
            && slug !in (set id | id in db.requests :: db.requests[id].slug)
  }

  function Gc(db: Db, cut: string, nowText: string): Db
  {
    var kept := DropRequests(db, Expired(db, cut));
    DropEndpoints(kept, Idle(kept, nowText))
  }

  /** The open database. */
  class Database {
    var endpoints: map<string, Endpoint>
    var requests: map<string, Request>
    var replays: map<string, string>

    function View(): Db
      reads this
    {
      Db(endpoints, requests, replays)
    }

    method DeleteRequests(ids: set<string>)
      modifies this
      ensures View() == DropRequests(old(View()), ids)
      ensures endpoints == old(endpoints)
      ensures forall id :: id in requests <==> id in old(requests) && id !in ids
      ensures forall id | id in requests :: requests[id] == old(requests[id])
      ensures forall r :: r in replays <==> r in old(replays) && old(replays[r]) !in ids
      ensures forall r | r in replays :: replays[r] == old(replays[r])
    {
      var after := DropRequests(View(), ids);
      requests, replays := after.requests, after.replays;
    }

    method DeleteEndpoints(slugs: set<string>)
      modifies this
      ensures View() == DropEndpoints(old(View()), slugs)
      ensures endpoints == old(endpoints) - slugs
      ensures forall id :: id in requests <==> id in old(requests) && old(requests)[id].slug !in slugs
      ensures forall id | id in requests :: requests[id] == old(requests)[id]
    {
      DeleteRequests(RequestsOf(View(), slugs));
      endpoints := endpoints - slugs;
    }

    /** runAt: two statements, each cascading, and the rows each reports deleted. */
    method Collect(cut: string, nowText: string) returns (reqs: nat, idle: nat)
      modifies this
      ensures View() == Gc(old(View()), cut, nowText)
      ensures reqs == |old(requests)| - |requests|
      ensures idle == |old(endpoints)| - |endpoints|
    {
      var expired := Expired(View(), cut);
      CountDropped(requests, expired);
      DeleteRequests(expired);
      reqs := |expired|;
      var slugs := Idle(View(), nowText);
      idle := |slugs|;
      CountDropped(endpoints, slugs);
      IdleHoldNothing(View(), nowText);
      DeleteEndpoints(slugs);
    }
  }

  lemma IdleHoldNothing(db: Db, nowText: string)
    ensures DropEndpoints(db, Idle(db, nowText)).requests == db.requests
  {
    assert RequestsOf(db, Idle(db, nowText)) == {};
  }

  lemma CountDropped<V>(m: map<string, V>, gone: set<string>)
    requires gone <= m.Keys
    ensures |m - gone| == |m| - |gone|
  {
    assert (m - gone).Keys == m.Keys - gone;
    assert |(m - gone).Keys| == |m.Keys| - |gone|;
    assert |m - gone| == |(m - gone).Keys| && |m| == |m.Keys|;
  }

  /** The endpoint pass and its cascade take no request that survived the first pass, and
      an endpoint goes only when it expired and none of its requests survived. */
  lemma GcExact(db: Db, cut: string, nowText: string)
    requires Sound(db)
    ensures var after := Gc(db, cut, nowText);
            && Sound(after)
            && after.requests == (map id | id in db.requests && !Less(db.requests[id].receivedAt, cut) :: db.requests[id])
            && after.replays == (map r | r in db.replays && !Less(db.requests[db.replays[r]].receivedAt, cut) :: db.replays[r])
            && (forall slug | slug in db.endpoints ::
                  slug !in after.endpoints <==>
                    && db.endpoints[slug].expires.Some? && Less(db.endpoints[slug].expires.value, nowText)
                    && forall id | id in after.requests :: after.requests[id].slug != slug)
            && forall slug | slug in after.endpoints ::
                 slug in db.endpoints && after.endpoints[slug] == db.endpoints[slug]
  {
    var kept := DropRequests(db, Expired(db, cut));
    assert RequestsOf(kept, Idle(kept, nowText)) == {};
    assert kept.requests - {} == kept.requests;
    var after := Gc(db, cut, nowText);
    assert after.requests == kept.requests;
    assert after.replays == kept.replays;
    forall slug | slug in db.endpoints
      ensures slug !in after.endpoints <==> slug in Idle(kept, nowText)
    {
    }
  }

  // ---------------------------------------------------------------- the retention boundary

  const HOUR_NS: int := 3_600_000_000_000
  const MS: int := 1_000_000
  /** The most hours an int64 count of nanoseconds holds. */
  const MAX_HOURS: int := 2_562_047

  /** -time.Duration(retentionHrs) * time.Hour in int64 nanoseconds. */
  function Duration(retentionHrs: int): int { Wrap64(Wrap64(-retentionHrs) * HOUR_NS) }

  function CutoffMs(nowNs: int, retentionHrs: int): int { (nowNs + Duration(retentionHrs)) / MS }

  function Cutoff(nowNs: int, retentionHrs: int): string
    requires Representable(CutoffMs(nowNs, retentionHrs))
  {
    Render(CutoffMs(nowNs, retentionHrs))
  }

  /** The duration is the one meant exactly from -MAX_HOURS to MAX_HOURS. */
  lemma DurationExactIff(retentionHrs: int)
    requires IsInt64(retentionHrs)
    ensures Duration(retentionHrs) == -retentionHrs * HOUR_NS <==> -MAX_HOURS <= retentionHrs <= MAX_HOURS
  {
    if -MAX_HOURS <= retentionHrs <= MAX_HOURS {
      WrapExactIff(-retentionHrs);
      WrapExactIff(-retentionHrs * HOUR_NS);
    } else {
      OverlongDuration(retentionHrs);
    }
  }

  lemma WithinHours(retentionHrs: int)
    requires 0 <= retentionHrs
    ensures IsInt64(-retentionHrs * HOUR_NS) <==> retentionHrs <= MAX_HOURS
    ensures retentionHrs <= 2 * MAX_HOURS ==> TWO64 - retentionHrs * HOUR_NS > MS
  {
  }

  predicate Deletes(nowNs: int, retentionHrs: int, receivedMs: int)
    requires Representable(CutoffMs(nowNs, retentionHrs)) && Representable(receivedMs)
  {
    Less(Render(receivedMs), Cutoff(nowNs, retentionHrs))
  }

  /** The clock, the cutoff and the request all lie in the years 0000 to 9999. */
  predicate Comparable(nowNs: int, retentionHrs: int, receivedMs: int)
  {
    Representable(nowNs / MS) && Representable(CutoffMs(nowNs, retentionHrs)) && Representable(receivedMs)
  }

  /** The middle of that span. */
  const MID_MS: int := 157_784_760_000_000

  /** The whole millisecond lies before `now - retentionHrs`. */
  predicate Older(nowNs: int, retentionHrs: int, receivedMs: int)
  {
    (receivedMs + 1) * MS <= nowNs - retentionHrs * HOUR_NS
  }

  /** Main result: string comparison against the cutoff deletes exactly the older requests. */
  lemma RetentionMeansTime(nowNs: int, retentionHrs: int, receivedMs: int)
    requires -MAX_HOURS <= retentionHrs <= MAX_HOURS
    requires Representable(CutoffMs(nowNs, retentionHrs)) && Representable(receivedMs)
    ensures Deletes(nowNs, retentionHrs, receivedMs) <==> Older(nowNs, retentionHrs, receivedMs)
  {
    DurationExactIff(retentionHrs);
    RenderOrder(receivedMs, CutoffMs(nowNs, retentionHrs));
  }

  /** Wrapping moves by a whole multiple of 2^64. */
  lemma WrapAway(i: int)
    requires !IsInt64(i)
    ensures i < INT64_MIN ==> Wrap64(i) - i >= TWO64
    ensures i > INT64_MAX ==> Wrap64(i) - i <= -TWO64
  {
    var q := i / TWO64;
    assert i % TWO64 == i - q * TWO64;
  }

  /** Past either bound the duration is off by at least 2^64 nanoseconds. */
  lemma OverlongDuration(retentionHrs: int)
    requires IsInt64(retentionHrs) && !(-MAX_HOURS <= retentionHrs <= MAX_HOURS)
    ensures retentionHrs > 0 ==> Duration(retentionHrs) + retentionHrs * HOUR_NS >= TWO64
    ensures retentionHrs < 0 ==> Duration(retentionHrs) + retentionHrs * HOUR_NS <= -TWO64
    ensures IsInt64(Duration(retentionHrs))
  {
    if retentionHrs == INT64_MIN {
      assert Wrap64(-retentionHrs) == INT64_MIN;
      assert INT64_MIN * HOUR_NS == -(HOUR_NS / 2) * TWO64;
    } else {
      WrapExactIff(-retentionHrs);
      WrapAway(-retentionHrs * HOUR_NS);
    }
  }

  /** Main result: the comparison means time for every clock and every request if and only
      if the retention, of either sign, fits an int64 count of nanoseconds. */
  lemma RetentionMeansTimeIff(retentionHrs: int)
    requires IsInt64(retentionHrs)
    ensures (forall nowNs, receivedMs | Comparable(nowNs, retentionHrs, receivedMs) ::
               Deletes(nowNs, retentionHrs, receivedMs) <==> Older(nowNs, retentionHrs, receivedMs))
            <==> -MAX_HOURS <= retentionHrs <= MAX_HOURS
  {
    if -MAX_HOURS <= retentionHrs <= MAX_HOURS {
      forall nowNs, receivedMs | Comparable(nowNs, retentionHrs, receivedMs)
        ensures Deletes(nowNs, retentionHrs, receivedMs) <==> Older(nowNs, retentionHrs, receivedMs)
      {
        RetentionMeansTime(nowNs, retentionHrs, receivedMs);
      }
    } else {
      OverlongDuration(retentionHrs);
      var nowNs := MID_MS * MS - Duration(retentionHrs);
      var receivedMs := if retentionHrs > 0 then MID_MS - 1 else MID_MS;
      assert CutoffMs(nowNs, retentionHrs) == MID_MS;
      RenderOrder(receivedMs, MID_MS);
      assert Comparable(nowNs, retentionHrs, receivedMs);
      assert Deletes(nowNs, retentionHrs, receivedMs) != Older(nowNs, retentionHrs, receivedMs);
    }
  }

  /** One hour more and the duration wraps round: the cutoff lies in the future and every
      request received so far is deleted. */
  lemma OverlongRetentionDeletesAll(nowNs: int, retentionHrs: int, receivedMs: int)
    requires MAX_HOURS < retentionHrs <= 2 * MAX_HOURS
    requires Representable(CutoffMs(nowNs, retentionHrs)) && Representable(receivedMs)
    requires receivedMs * MS <= nowNs
    ensures Deletes(nowNs, retentionHrs, receivedMs)
  {
    WrapExactIff(-retentionHrs);
    WrapExactIff(-retentionHrs * HOUR_NS);
    WithinHours(retentionHrs);
    assert Duration(retentionHrs) > MS;
    RenderOrder(receivedMs, CutoffMs(nowNs, retentionHrs));
  }

  // ---------------------------------------------------------------- referential integrity

  lemma DropsKeepSound(db: Db, ids: set<string>, slugs: set<string>)
    requires Sound(db)
    ensures Sound(DropRequests(db, ids)) && Sound(DropEndpoints(db, slugs))
  {
  }

  lemma InsertsKeepSound(db: Db, slug: string, e: Endpoint, id: string, r: Request, requestID: string)
    requires Sound(db)
    ensures Sound(CreateEndpoint(db, slug)) && Sound(PutEndpoint(db, slug, e))
    ensures InsertRequest(db, id, r).Some? ==> Sound(InsertRequest(db, id, r).value)
    ensures Sound(InsertReplay(db, id, requestID))
  {
  }
}
