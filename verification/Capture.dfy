/** Capturing one request (ServeHook in internal/capture/capture.go) and the evidence kept
    over whole runs of the server. */
module Capture {
  import opened Text
  import opened Store
  import LoopBreaker
  import Headers
  import Verify

  // ---------------------------------------------------------------- reading the body

  /** io.ReadAll(io.LimitReader(body, limit+1)), the limit being an int64. */
  function LimitedRead(body: string, limit: int): string
  {
    var n := Wrap64(limit + 1);
    if n <= 0 then "" else if |body| <= n then body else body[..n]
  }

  predicate TooLarge(body: string, limit: int) { |LimitedRead(body, limit)| > limit }

  lemma WholeBody(body: string, limit: int)
    requires IsInt64(limit) && limit < INT64_MAX
    ensures TooLarge(body, limit) <==> |body| > limit
    ensures !TooLarge(body, limit) ==> LimitedRead(body, limit) == body
  {
    WrapExactIff(limit + 1);
  }

  /** A body is kept whole or refused, never cut, at every limit but the greatest int64,
      where limit+1 wraps and every body reads as empty. */
  lemma WholeBodyIff(limit: int)
    requires IsInt64(limit)
    ensures limit < INT64_MAX <==>
              forall body: string | |body| <= INT64_MAX ::
                && (TooLarge(body, limit) <==> |body| > limit)
                && (!TooLarge(body, limit) ==> LimitedRead(body, limit) == body)
  {
    if limit < INT64_MAX {
      forall body: string ensures TooLarge(body, limit) <==> |body| > limit
        ensures !TooLarge(body, limit) ==> LimitedRead(body, limit) == body
      {
        WholeBody(body, limit);
      }
    } else {
      WrapExactIff(limit + 1);
      assert Wrap64(limit + 1) == INT64_MIN;
      var body := "x";
      assert LimitedRead(body, limit) == "" && !TooLarge(body, limit);
    }
  }

  // ---------------------------------------------------------------- one capture

  /** A request as it arrives, and the outcomes of the calls the handler makes. */
  datatype Arrival = Arrival(
    slug: string, slugValid: bool, verb: string, headers: Headers.Fields, body: string,
    id: string, receivedAt: string, now: int,
    lookupFails: bool, createFails: bool, readFails: bool, insertFails: bool, admitted: bool)

  datatype Response =
    | BadRequest | TooLargeResponse | Unavailable | RateLimited
    | Configured(status: int, body: string, contentType: string)

  predicate Failure(r: Response) { r in {BadRequest, TooLargeResponse, Unavailable} }

  datatype Notice = Notice(slug: string, id: string)
  datatype Handoff = Handoff(id: string, target: string)

  /** The tables, every notification broadcast and every job handed to the forwarder.
      `stored` records each request ever inserted. */
  datatype Site = Site(db: Db, notices: seq<Notice>, handoffs: seq<Handoff>, stored: map<string, Request>)

  datatype Served = Served(site: Site, response: Response)

  /** The row a capture inserts at an endpoint: the chain's verdict is on the body read. */
  ghost function Stored(mac: Verify.Mac, e: Endpoint, a: Arrival, limit: int): Request
  {
    var raw := LimitedRead(a.body, limit);
    Request(a.slug, a.verb, a.headers, raw,
            Verify.Chain(mac, e.secret, e.provider, Headers.Flatten(a.headers), raw, a.now), a.receivedAt)
  }

  ghost function Serve(mac: Verify.Mac, s: Site, a: Arrival, limit: int): Served
  {
    if a.slug == "" || !a.slugValid then Served(s, BadRequest)
    else if a.lookupFails || (a.slug !in s.db.endpoints && a.createFails) then Served(s, Unavailable) else
    var db := CreateEndpoint(s.db, a.slug);
    var e := db.endpoints[a.slug];
    var s1 := s.(db := db);
    if a.readFails then Served(s1, BadRequest)
    else if TooLarge(a.body, limit) then Served(s1, TooLargeResponse) else
    match if a.insertFails then None else InsertRequest(db, a.id, Stored(mac, e, a, limit))
    case None => Served(s1, Unavailable)
    case Some(db2) =>
      var forwarded := e.target != "" && !LoopBreaker.Marked(a.headers);
      Served(Site(db2, s.notices + [Notice(a.slug, a.id)],
                  if forwarded then s.handoffs + [Handoff(a.id, e.target)] else s.handoffs,
                  s.stored[a.id := Stored(mac, e, a, limit)]),
             if a.admitted then Configured(e.status, e.body, e.contentType) else RateLimited)
  }

  /** The handler: store, then notify, then hand over, then answer. */
  class Handler {
    var db: Db
    var notices: seq<Notice>
    var handoffs: seq<Handoff>
    ghost var stored: map<string, Request>

    ghost function View(): Site
      reads this
    {
      Site(db, notices, handoffs, stored)
    }

    method ServeHook(mac: Verify.Mac, a: Arrival, limit: int) returns (response: Response)
      modifies this
      ensures Verify.FoldUnique(Headers.Flatten(a.headers)) ==>
                Served(View(), response) == Serve(mac, old(View()), a, limit)
    {
      if a.slug == "" { return BadRequest; }
      if !a.slugValid { return BadRequest; }
      if a.lookupFails { return Unavailable; }
      var provider, secret, target := "generic", "", "";
      var status, body, contentType := 200, "{\"ok\":true}", "application/json";
      if a.slug in db.endpoints {
        var e := db.endpoints[a.slug];
        provider, secret, target := e.provider, e.secret, e.target;
        status, body, contentType := e.status, e.body, e.contentType;
      } else {
        if a.createFails { return Unavailable; }
        db := CreateEndpoint(db, a.slug);
      }
      var raw := LimitedRead(a.body, limit);
      if a.readFails { return BadRequest; }
      if |raw| > limit { return TooLargeResponse; }
      var flat := Headers.LowerHeaders(a.headers);
      var verdict := Verify.RunChain(mac, secret, provider, flat, raw, a.now);
      if a.insertFails { return Unavailable; }
      var row := Request(a.slug, a.verb, a.headers, raw, verdict, a.receivedAt);
      var inserted := InsertRequest(db, a.id, row);
      if inserted.None? { return Unavailable; }
      db := inserted.value;
      stored := stored[a.id := row];
      notices := notices + [Notice(a.slug, a.id)];
      if target != "" && !LoopBreaker.Marked(a.headers) {
        handoffs := handoffs + [Handoff(a.id, target)];
      }
      if !a.admitted { return RateLimited; }
      response := Configured(status, body, contentType);
    }
  }

  /** What the provider may conclude from the answer: the configured reply or a 429 means
      the whole body was stored once, under the verdict on that very body and the secret
      then configured; any failure means nothing was stored, announced or forwarded. */
  lemma AnswerIsEvidence(mac: Verify.Mac, s: Site, a: Arrival, limit: int)
    requires IsInt64(limit) && limit < INT64_MAX
    ensures var r := Serve(mac, s, a, limit);
            var e := CreateEndpoint(s.db, a.slug).endpoints[a.slug];
            && (!Failure(r.response) ==>
                  && a.id !in s.db.requests
                  && r.site.db.requests == s.db.requests[a.id := Stored(mac, e, a, limit)]
                  && Stored(mac, e, a, limit).body == a.body
                  && Stored(mac, e, a, limit).verdict
                     == Verify.Chain(mac, e.secret, e.provider, Headers.Flatten(a.headers), a.body, a.now)
                  && r.site.notices == s.notices + [Notice(a.slug, a.id)])
            && (Failure(r.response) ==>
                  && r.site.db.requests == s.db.requests && r.site.db.replays == s.db.replays
                  && r.site.notices == s.notices && r.site.handoffs == s.handoffs)
            && (r.response == RateLimited ==> !a.admitted)
  {
    WholeBody(a.body, limit);
  }

  // ---------------------------------------------------------------- every answer by its cause

  /** The handler gets past the slug and has an endpoint row: one was there or could be made. */
  predicate Opens(s: Site, a: Arrival)
  {
    && a.slug != "" && a.slugValid && !a.lookupFails
    && (a.slug in s.db.endpoints || !a.createFails)
  }

  /** The body arrives complete and within the limit. */
  predicate Arrives(a: Arrival, limit: int) { !a.readFails && |a.body| <= limit }

  /** The row goes in: the statement succeeds and the id is new. */
  predicate Stores(s: Site, a: Arrival, limit: int)
  {
    Opens(s, a) && Arrives(a, limit) && !a.insertFails && a.id !in s.db.requests
  }

  /** Main result: which answer a capture gets, each by its own cause. A stored capture is
      rate limited exactly when the limiter does not admit the client; otherwise it gets the
      endpoint's configured reply, or the built-in one where there was no endpoint row. */
  lemma ServeAnswers(mac: Verify.Mac, s: Site, a: Arrival, limit: int)
    requires IsInt64(limit) && limit < INT64_MAX
    ensures var r := Serve(mac, s, a, limit).response;
            && (r == BadRequest <==> a.slug == "" || !a.slugValid || (Opens(s, a) && a.readFails))
            && (r == TooLargeResponse <==> Opens(s, a) && !a.readFails && |a.body| > limit)
            && (r == Unavailable <==> a.slug != "" && a.slugValid
                                      && (!Opens(s, a) || (Arrives(a, limit) && !Stores(s, a, limit))))
            && (r == RateLimited <==> Stores(s, a, limit) && !a.admitted)
            && (r.Configured? <==> Stores(s, a, limit) && a.admitted)
            && (r.Configured? ==>
                  r == if a.slug in s.db.endpoints
                       then var row := s.db.endpoints[a.slug]; Configured(row.status, row.body, row.contentType)
                       else Configured(200, "{\"ok\":true}", "application/json"))
  {
    WholeBody(a.body, limit);
  }

  /** The target and the secret in force: those of the row, or none. */
  lemma ServeRow(mac: Verify.Mac, s: Site, a: Arrival, limit: int)
    requires IsInt64(limit) && limit < INT64_MAX
    ensures var t, known := Serve(mac, s, a, limit).site, a.slug in s.db.endpoints;
            var secret := if known then s.db.endpoints[a.slug].secret else "";
            var provider := if known then s.db.endpoints[a.slug].provider else "generic";
            var verdict := Verify.Chain(mac, secret, provider, Headers.Flatten(a.headers), a.body, a.now);
            var row := Request(a.slug, a.verb, a.headers, a.body, verdict, a.receivedAt);
            && t.db.requests == (if Stores(s, a, limit) then s.db.requests[a.id := row] else s.db.requests)
            && t.stored == (if Stores(s, a, limit) then s.stored[a.id := row] else s.stored)
            && t.notices == (if Stores(s, a, limit) then s.notices + [Notice(a.slug, a.id)] else s.notices)
            && t.db.replays == s.db.replays
  {
    WholeBody(a.body, limit);
  }

  /** An endpoint row appears exactly when the slug opens and had none, with the defaults. */
  lemma ServeEndpoint(mac: Verify.Mac, s: Site, a: Arrival, limit: int)
    ensures Serve(mac, s, a, limit).site.db.endpoints
            == if Opens(s, a) && a.slug !in s.db.endpoints
               then s.db.endpoints[a.slug := Endpoint("generic", "", "", 200, "{\"ok\":true}", "application/json", None)]
               else s.db.endpoints
  {
  }

  function FirstOf(h: Headers.Fields, name: string): string
  {
    if name in h && h[name] != [] then h[name][0] else ""
  }

  lemma MarkedIff(h: Headers.Fields)
    ensures LoopBreaker.Marked(h) <==>
              FirstOf(h, "X-Omnihook-Forward") != "" || FirstOf(h, "X-Omnihook-Replay") != ""
  {
    LoopBreaker.MarkerNames();
  }

  /** Handed to the forwarder: stored captures whose endpoint has a target and which carry
      neither marker header. */
  lemma ServeHandsOver(mac: Verify.Mac, s: Site, a: Arrival, limit: int)
    requires IsInt64(limit) && limit < INT64_MAX
    ensures var target := if a.slug in s.db.endpoints then s.db.endpoints[a.slug].target else "";
            Serve(mac, s, a, limit).site.handoffs
            == if && Stores(s, a, limit) && target != ""
                  && FirstOf(a.headers, "X-Omnihook-Forward") == "" && FirstOf(a.headers, "X-Omnihook-Replay") == ""
               then s.handoffs + [Handoff(a.id, target)] else s.handoffs
  {
    WholeBody(a.body, limit);
    MarkedIff(a.headers);
  }

  // ---------------------------------------------------------------- captures in flight

  /** Where one capture is: no endpoint row found, endpoint row read, request stored, viewers
      notified, answered, or over. The row read is kept: later edits do not reach it. */
  datatype Stage =
    | Missing
    | Looked(endpoint: Endpoint)
    | Kept(target: string)
    | Notified(target: string)
    | Answered
    | Over

  datatype Flight = Flight(arrival: Arrival, stage: Stage)

  /** The site and the captures under way; `lost` are ids stored by a capture that died before
      it could announce them. */
  datatype Floor = Floor(site: Site, flights: seq<Flight>, lost: set<string>)

  datatype Event =
    | Lookup(arrival: Arrival)
    | Create(k: nat)
    | Insert(k: nat)
    | Notify(k: nat)
    | HandOver(k: nat)
    | Die(k: nat)
    | PutEndpoint(slug: string, endpoint: Endpoint)
    | DeleteEndpoint(slug: string)
    | DeleteRequestsOf(slug: string)
    | DeleteRequest(id: string)
    | Collect(cut: string, nowText: string)
    | RecordReplay(id: string, requestID: string)

  function At(f: Floor, k: nat, stage: Stage): Floor
    requires k < |f.flights|
  {
    f.(flights := f.flights[k := f.flights[k].(stage := stage)])
  }

  /** The endpoint is known; the body is read and may end the capture. */
  function BodyRead(a: Arrival, e: Endpoint, limit: int): Stage
  {
    if a.readFails || TooLarge(a.body, limit) then Over else Looked(e)
  }

  /** Ids come from uuid.NewString, so a used one is never inserted again. */
  ghost function Inserted(mac: Verify.Mac, f: Floor, k: nat, limit: int): Floor
    requires k < |f.flights| && f.flights[k].stage.Looked?
  {
    var a, e := f.flights[k].arrival, f.flights[k].stage.endpoint;
    var row := Stored(mac, e, a, limit);
    if a.id in f.site.stored then f else
    match if a.insertFails then None else InsertRequest(f.site.db, a.id, row)
    case None => At(f, k, Over)
    case Some(db) => At(f, k, Kept(e.target)).(site := f.site.(db := db, stored := f.site.stored[a.id := row]))
  }

  function Announce(f: Floor, k: nat): Floor
    requires k < |f.flights| && f.flights[k].stage.Kept?
  {
    var a := f.flights[k].arrival;
    At(f, k, Notified(f.flights[k].stage.target))
      .(site := f.site.(notices := f.site.notices + [Notice(a.slug, a.id)]))
  }

  function HandedOver(f: Floor, k: nat): Floor
    requires k < |f.flights| && f.flights[k].stage.Notified?
  {
    var a, target := f.flights[k].arrival, f.flights[k].stage.target;
    var forwarded := target != "" && !LoopBreaker.Marked(a.headers);
    At(f, k, Answered)
      .(site := if forwarded then f.site.(handoffs := f.site.handoffs + [Handoff(a.id, target)]) else f.site)
  }

  function Died(f: Floor, k: nat): Floor
    requires k < |f.flights|
  {
    At(f, k, Over).(lost := if f.flights[k].stage.Kept? then f.lost + {f.flights[k].arrival.id} else f.lost)
  }

  /** What the statements of everything but captures do to the tables. */
  function TableStep(db: Db, e: Event): Db
  {
    match e
    case PutEndpoint(slug, ep) => Store.PutEndpoint(db, slug, ep)
    case DeleteEndpoint(slug) => DropEndpoints(db, {slug})
    case DeleteRequestsOf(slug) => DropRequests(db, RequestsOf(db, {slug}))
    case DeleteRequest(id) => DropRequests(db, {id})
    case Collect(cut, nowText) => Gc(db, cut, nowText)
    case RecordReplay(id, requestID) => InsertReplay(db, id, requestID)
    case _ => db
  }

  /** One atomic step; an event that does not apply changes nothing. */
  ghost function Step(mac: Verify.Mac, f: Floor, e: Event, limit: int): Floor
  {
    match e
    case Lookup(a) =>
      if a.slug == "" || !a.slugValid || a.lookupFails then f
      else f.(flights := f.flights + [Flight(a, if a.slug in f.site.db.endpoints
                                                then BodyRead(a, f.site.db.endpoints[a.slug], limit) else Missing)])
    case Create(k) =>
      if k >= |f.flights| || !f.flights[k].stage.Missing? then f
      else if f.flights[k].arrival.createFails then At(f, k, Over)
      else At(f, k, BodyRead(f.flights[k].arrival, FRESH, limit))
             .(site := f.site.(db := CreateEndpoint(f.site.db, f.flights[k].arrival.slug)))
    case Insert(k) => if k >= |f.flights| || !f.flights[k].stage.Looked? then f else Inserted(mac, f, k, limit)
    case Notify(k) => if k >= |f.flights| || !f.flights[k].stage.Kept? then f else Announce(f, k)
    case HandOver(k) => if k >= |f.flights| || !f.flights[k].stage.Notified? then f else HandedOver(f, k)
    case Die(k) => if k >= |f.flights| || f.flights[k].stage.Answered? then f else Died(f, k)
    case _ => f.(site := f.site.(db := TableStep(f.site.db, e)))
  }

  ghost function Run(mac: Verify.Mac, f: Floor, es: seq<Event>, limit: int): Floor
    decreases |es|
  {
    if es == [] then f else Run(mac, Step(mac, f, es[0], limit), es[1..], limit)
  }

  const EMPTY: Floor := Floor(Site(Db(map[], map[], map[]), [], [], map[]), [], {})

  // ---------------------------------------------------------------- the evidence invariant

  /** Foreign keys hold and a row is the request stored under its id. */
  ghost predicate RowsTrue(s: Site)
  {
    && Sound(s.db)
    && forall id | id in s.db.requests :: id in s.stored && s.stored[id] == s.db.requests[id]
  }

  function NoticeIds(s: Site): set<string> { set n | n in s.notices :: n.id }

  function HandoffIds(s: Site): set<string> { set h | h in s.handoffs :: h.id }

  /** Notifications name requests stored first, each once. */
  ghost predicate NoticesTrue(s: Site)
  {
    && (forall n | n in s.notices :: n.id in s.stored && s.stored[n.id].slug == n.slug)
    && (forall i, j | 0 <= i < j < |s.notices| :: s.notices[i].id != s.notices[j].id)
  }

  /** Jobs handed to the forwarder name unmarked requests announced first, each once. */
  ghost predicate HandoffsTrue(s: Site)
  {
    && (forall h | h in s.handoffs ::
          h.target != "" && h.id in NoticeIds(s) && h.id in s.stored && !LoopBreaker.Marked(s.stored[h.id].headers))
    && (forall i, j | 0 <= i < j < |s.handoffs| :: s.handoffs[i].id != s.handoffs[j].id)
  }

  predicate Holds(x: Flight) { x.stage.Kept? || x.stage.Notified? }

  /** A capture past its insert stands for the whole request it stored, announced once it
      got that far and handed over last. */
  ghost predicate FlightTrue(s: Site, x: Flight, limit: int)
  {
    && (Holds(x) || x.stage.Answered? ==> Keeps(s, x.arrival, limit))
    && (Holds(x) ==> x.arrival.id !in HandoffIds(s) && (x.stage.Notified? <==> x.arrival.id in NoticeIds(s)))
    && (x.stage.Answered? ==> x.arrival.id in NoticeIds(s))
    && (x.stage.Looked? ==> !TooLarge(x.arrival.body, limit))
  }

  ghost predicate Keeps(s: Site, a: Arrival, limit: int)
  {
    && a.id in s.stored && s.stored[a.id].slug == a.slug && s.stored[a.id].headers == a.headers
    && s.stored[a.id].body == LimitedRead(a.body, limit) && !TooLarge(a.body, limit)
  }

  ghost predicate FlightsTrue(f: Floor, limit: int)
  {
    && (forall k | 0 <= k < |f.flights| :: FlightTrue(f.site, f.flights[k], limit))
    && (forall j, k | 0 <= j < k < |f.flights| && Holds(f.flights[j]) && Holds(f.flights[k]) ::
          f.flights[j].arrival.id != f.flights[k].arrival.id)
  }

  /** Every request ever stored was announced, is about to be, or lost its capture. */
  ghost predicate Announced(f: Floor)
  {
    forall id | id in f.site.stored ::
      || id in NoticeIds(f.site) || id in f.lost
      || exists k | 0 <= k < |f.flights| :: f.flights[k].stage.Kept? && f.flights[k].arrival.id == id
  }

  ghost predicate Evidence(f: Floor, limit: int)
  {
    RowsTrue(f.site) && NoticesTrue(f.site) && HandoffsTrue(f.site) && FlightsTrue(f, limit) && Announced(f)
  }

  lemma NoticeAdded(s: Site, n: Notice)
    ensures NoticeIds(s.(notices := s.notices + [n])) == NoticeIds(s) + {n.id}
  {
    var t := s.(notices := s.notices + [n]);
    assert forall m :: m in t.notices <==> m in s.notices || m == n;
  }

  lemma HandoffAdded(s: Site, h: Handoff)
    ensures HandoffIds(s.(handoffs := s.handoffs + [h])) == HandoffIds(s) + {h.id}
  {
    var t := s.(handoffs := s.handoffs + [h]);
    assert forall g :: g in t.handoffs <==> g in s.handoffs || g == h;
  }

  lemma TablesEvidence(mac: Verify.Mac, f: Floor, e: Event, limit: int)
    requires Evidence(f, limit) && !(e.Lookup? || e.Create? || e.Insert? || e.Notify? || e.HandOver? || e.Die?)
    ensures Evidence(Step(mac, f, e, limit), limit)
  {
    TableRows(f.site, e);
    var g := Step(mac, f, e, limit);
    assert NoticeIds(g.site) == NoticeIds(f.site) && HandoffIds(g.site) == HandoffIds(f.site);
  }

  lemma TableRows(s: Site, e: Event)
    requires RowsTrue(s)
    ensures RowsTrue(s.(db := TableStep(s.db, e)))
  {
    match e
    case DeleteEndpoint(slug) => DropsKeepSound(s.db, {}, {slug});
    case DeleteRequestsOf(slug) => DropsKeepSound(s.db, RequestsOf(s.db, {slug}), {});
    case DeleteRequest(id) => DropsKeepSound(s.db, {id}, {});
    case Collect(cut, nowText) => GcExact(s.db, cut, nowText);
    case _ =>
  }

  /** Steps that move one flight and leave notices, hand-overs and stored ids alone. */
  lemma MovedEvidence(f: Floor, g: Floor, k: nat, limit: int)
    requires Evidence(f, limit) && k < |f.flights| == |g.flights|
    requires g.site.notices == f.site.notices && g.site.handoffs == f.site.handoffs
    requires g.site.stored == f.site.stored && RowsTrue(g.site)
    requires forall j | 0 <= j < |f.flights| && j != k :: g.flights[j] == f.flights[j]
    requires g.flights[k].arrival == f.flights[k].arrival && !Holds(g.flights[k])
    requires FlightTrue(g.site, g.flights[k], limit)
    requires f.lost <= g.lost && (f.flights[k].stage.Kept? ==> f.flights[k].arrival.id in g.lost)
    ensures Evidence(g, limit)
  {
    assert NoticeIds(g.site) == NoticeIds(f.site) && HandoffIds(g.site) == HandoffIds(f.site);
    forall id | id in g.site.stored && id !in NoticeIds(g.site) && id !in g.lost
      ensures exists j | 0 <= j < |g.flights| :: g.flights[j].stage.Kept? && g.flights[j].arrival.id == id
    {
      var j :| 0 <= j < |f.flights| && f.flights[j].stage.Kept? && f.flights[j].arrival.id == id;
      assert j != k && g.flights[j] == f.flights[j];
    }
  }

  lemma LookupEvidence(mac: Verify.Mac, f: Floor, a: Arrival, limit: int)
    requires Evidence(f, limit)
    ensures Evidence(Step(mac, f, Lookup(a), limit), limit)
  {
    var g := Step(mac, f, Lookup(a), limit);
    forall id | id in g.site.stored && id !in NoticeIds(g.site) && id !in g.lost
      ensures exists j | 0 <= j < |g.flights| :: g.flights[j].stage.Kept? && g.flights[j].arrival.id == id
    {
      var j :| 0 <= j < |f.flights| && f.flights[j].stage.Kept? && f.flights[j].arrival.id == id;
      assert g.flights[j] == f.flights[j];
    }
  }

  lemma CreateEvidence(mac: Verify.Mac, f: Floor, k: nat, limit: int)
    requires Evidence(f, limit)
    ensures Evidence(Step(mac, f, Create(k), limit), limit)
  {
    if k < |f.flights| && f.flights[k].stage.Missing? {
      MovedEvidence(f, Step(mac, f, Create(k), limit), k, limit);
    }
  }

  lemma InsertedRows(s: Site, id: string, row: Request)
    requires RowsTrue(s) && id !in s.stored && InsertRequest(s.db, id, row).Some?
    ensures RowsTrue(s.(db := InsertRequest(s.db, id, row).value, stored := s.stored[id := row]))
  {
  }

  /** Storing under a fresh id leaves what is known of all other ids. */
  lemma StoredEvidence(f: Floor, k: nat, db: Db, row: Request, target: string, limit: int)
    requires Evidence(f, limit) && k < |f.flights| && f.flights[k].stage.Looked?
    requires var a := f.flights[k].arrival;
             && a.id !in f.site.stored && row.slug == a.slug && row.headers == a.headers && row.body == LimitedRead(a.body, limit)
             && InsertRequest(f.site.db, a.id, row) == Some(db)
    ensures var id := f.flights[k].arrival.id;
            Evidence(At(f, k, Kept(target)).(site := f.site.(db := db, stored := f.site.stored[id := row])), limit)
  {
    var id := f.flights[k].arrival.id;
    var g := At(f, k, Kept(target)).(site := f.site.(db := db, stored := f.site.stored[id := row]));
    InsertedRows(f.site, id, row);
    assert NoticeIds(g.site) == NoticeIds(f.site) && HandoffIds(g.site) == HandoffIds(f.site);
    assert id !in NoticeIds(f.site) && id !in HandoffIds(f.site);
    assert forall j | 0 <= j < |f.flights| && j != k :: g.flights[j] == f.flights[j];
    forall other | other in g.site.stored && other !in NoticeIds(g.site) && other !in g.lost
      ensures exists j | 0 <= j < |g.flights| :: g.flights[j].stage.Kept? && g.flights[j].arrival.id == other
    {
      if other == id {
        assert g.flights[k].stage.Kept? && g.flights[k].arrival.id == other;
      } else {
        var j :| 0 <= j < |f.flights| && f.flights[j].stage.Kept? && f.flights[j].arrival.id == other;
        assert g.flights[j] == f.flights[j];
      }
    }
  }

  lemma InsertEvidence(mac: Verify.Mac, f: Floor, k: nat, limit: int)
    requires Evidence(f, limit)
    ensures Evidence(Step(mac, f, Insert(k), limit), limit)
  {
    if k < |f.flights| && f.flights[k].stage.Looked? && f.flights[k].arrival.id !in f.site.stored {
      var a, e := f.flights[k].arrival, f.flights[k].stage.endpoint;
      var row := Stored(mac, e, a, limit);
      if a.insertFails || InsertRequest(f.site.db, a.id, row).None? {
        MovedEvidence(f, At(f, k, Over), k, limit);
      } else {
        StoredEvidence(f, k, InsertRequest(f.site.db, a.id, row).value, row, e.target, limit);
      }
    }
  }

  lemma NotifyEvidence(mac: Verify.Mac, f: Floor, k: nat, limit: int)
    requires Evidence(f, limit)
    ensures Evidence(Step(mac, f, Notify(k), limit), limit)
  {
    if k < |f.flights| && f.flights[k].stage.Kept? {
      var a := f.flights[k].arrival;
      var g := Announce(f, k);
      assert FlightTrue(f.site, f.flights[k], limit);
      NoticeAdded(f.site, Notice(a.slug, a.id));
      NoticesGrow(f.site, Notice(a.slug, a.id));
      assert HandoffIds(g.site) == HandoffIds(f.site);
      forall j | 0 <= j < |f.flights| && j != k ensures g.flights[j] == f.flights[j] && FlightTrue(g.site, g.flights[j], limit) {
        assert FlightTrue(f.site, f.flights[j], limit);
      }
      assert FlightsTrue(g, limit);
      forall id | id in g.site.stored && id !in NoticeIds(g.site) && id !in g.lost
        ensures exists j | 0 <= j < |g.flights| :: g.flights[j].stage.Kept? && g.flights[j].arrival.id == id
      {
        var j :| 0 <= j < |f.flights| && f.flights[j].stage.Kept? && f.flights[j].arrival.id == id;
        assert j != k && g.flights[j] == f.flights[j];
      }
    }
  }

  lemma NoticesGrow(s: Site, n: Notice)
    requires NoticesTrue(s) && HandoffsTrue(s) && n.id !in NoticeIds(s)
    requires n.id in s.stored && s.stored[n.id].slug == n.slug
    ensures NoticesTrue(s.(notices := s.notices + [n])) && HandoffsTrue(s.(notices := s.notices + [n]))
  {
    NoticeAdded(s, n);
    assert forall i | 0 <= i < |s.notices| :: s.notices[i] in s.notices && s.notices[i].id in NoticeIds(s);
  }

  lemma HandoffsGrow(s: Site, h: Handoff)
    requires HandoffsTrue(s) && h.id !in HandoffIds(s) && h.target != "" && h.id in NoticeIds(s)
    requires h.id in s.stored && !LoopBreaker.Marked(s.stored[h.id].headers)
    ensures HandoffsTrue(s.(handoffs := s.handoffs + [h]))
  {
    var t := s.(handoffs := s.handoffs + [h]);
    assert NoticeIds(t) == NoticeIds(s);
    assert forall i | 0 <= i < |s.handoffs| :: s.handoffs[i] in s.handoffs && s.handoffs[i].id in HandoffIds(s);
  }

  lemma HandOverEvidence(mac: Verify.Mac, f: Floor, k: nat, limit: int)
    requires Evidence(f, limit)
    ensures Evidence(Step(mac, f, HandOver(k), limit), limit)
  {
    if k < |f.flights| && f.flights[k].stage.Notified? {
      var a, target := f.flights[k].arrival, f.flights[k].stage.target;
      var over := At(f, k, Answered);
      assert FlightTrue(f.site, f.flights[k], limit);
      MovedEvidence(f, over, k, limit);
      if target != "" && !LoopBreaker.Marked(a.headers) {
        HandoffAdded(f.site, Handoff(a.id, target));
        HandoffsGrow(f.site, Handoff(a.id, target));
        OthersKeepOut(f, over, HandedOver(f, k), k, limit);
      }
    }
  }

  /** Handing over one id does not touch the other captures. */
  lemma OthersKeepOut(f: Floor, over: Floor, g: Floor, k: nat, limit: int)
    requires FlightsTrue(f, limit) && Evidence(over, limit) && k < |f.flights| && Holds(f.flights[k])
    requires over == At(f, k, Answered) && g == over.(site := g.site)
    requires g.site == f.site.(handoffs := g.site.handoffs)
    requires HandoffIds(g.site) == HandoffIds(f.site) + {f.flights[k].arrival.id}
    requires HandoffsTrue(g.site)
    ensures Evidence(g, limit)
  {
    assert NoticeIds(g.site) == NoticeIds(f.site);
    forall j | 0 <= j < |g.flights| ensures FlightTrue(g.site, g.flights[j], limit) {
      assert FlightTrue(over.site, over.flights[j], limit);
    }
  }

  lemma DieEvidence(mac: Verify.Mac, f: Floor, k: nat, limit: int)
    requires Evidence(f, limit)
    ensures Evidence(Step(mac, f, Die(k), limit), limit)
  {
    if k < |f.flights| && !f.flights[k].stage.Answered? {
      MovedEvidence(f, Died(f, k), k, limit);
    }
  }

  lemma EvidenceStep(mac: Verify.Mac, f: Floor, e: Event, limit: int)
    requires Evidence(f, limit)
    ensures Evidence(Step(mac, f, e, limit), limit)
  {
    match e
    case Lookup(a) => LookupEvidence(mac, f, a, limit);
    case Create(k) => CreateEvidence(mac, f, k, limit);
    case Insert(k) => InsertEvidence(mac, f, k, limit);
    case Notify(k) => NotifyEvidence(mac, f, k, limit);
    case HandOver(k) => HandOverEvidence(mac, f, k, limit);
    case Die(k) => DieEvidence(mac, f, k, limit);
    case _ => TablesEvidence(mac, f, e, limit);
  }

  lemma {:induction false} EvidenceRun(mac: Verify.Mac, f: Floor, es: seq<Event>, limit: int)
    requires Evidence(f, limit)
    ensures Evidence(Run(mac, f, es, limit), limit)
    decreases |es|
  {
    if es != [] {
      EvidenceStep(mac, f, es[0], limit);
      EvidenceRun(mac, Step(mac, f, es[0], limit), es[1..], limit);
    }
  }

  /** Main result: the evidence invariant over every interleaving of the single statements of
      any number of captures, which may die anywhere, with edits, deletes, collections and
      delivery records. */
  lemma EvidenceAlways(mac: Verify.Mac, es: seq<Event>, limit: int)
    ensures Evidence(Run(mac, EMPTY, es, limit), limit)
  {
    EvidenceRun(mac, EMPTY, es, limit);
  }

  /** The statements that take a stored request out of the table. */
  predicate Removes(e: Event, id: string, row: Request)
  {
    || e == DeleteRequest(id) || e == DeleteRequestsOf(row.slug) || e == DeleteEndpoint(row.slug)
    || (e.Collect? && Less(row.receivedAt, e.cut))
  }

  /** A request once stored leaves the table by a delete, a collection or the loss of its
      endpoint, by those always, and is never changed in place. */
  lemma StoredRequestsAreImmutable(mac: Verify.Mac, f: Floor, e: Event, limit: int, id: string)
    requires Evidence(f, limit) && id in f.site.db.requests
    ensures var t := Step(mac, f, e, limit).site;
            && (id in t.db.requests <==> !Removes(e, id, f.site.db.requests[id]))
            && (id in t.db.requests ==> t.db.requests[id] == f.site.db.requests[id])
  {
    if e.Insert? {
      InsertKeeps(mac, f, e.k, limit);
    } else {
      TablesKeep(f.site.db, e, id);
    }
  }

  lemma InsertKeeps(mac: Verify.Mac, f: Floor, k: nat, limit: int)
    ensures var t := Step(mac, f, Insert(k), limit).site;
            forall id | id in f.site.db.requests :: id in t.db.requests && t.db.requests[id] == f.site.db.requests[id]
  {
  }

  lemma TablesKeep(db: Db, e: Event, id: string)
    requires Sound(db) && id in db.requests
    ensures var t := TableStep(db, e);
            && (id in t.requests <==> !Removes(e, id, db.requests[id]))
            && (id in t.requests ==> t.requests[id] == db.requests[id])
  {
    if e.Collect? { GcExact(db, e.cut, e.nowText); }
  }

  /** What else those statements do: an edit sets one endpoint row, a delete removes one, and a
      delivery row goes in below its request. */
  lemma OtherStatements(db: Db, slug: string, ep: Endpoint, id: string, requestID: string)
    ensures TableStep(db, PutEndpoint(slug, ep)) == Db(db.endpoints[slug := ep], db.requests, db.replays)
    ensures TableStep(db, DeleteEndpoint(slug)).endpoints == db.endpoints - {slug}
    ensures TableStep(db, DeleteRequestsOf(slug)).endpoints == TableStep(db, DeleteRequest(id)).endpoints == db.endpoints
    ensures TableStep(db, RecordReplay(id, requestID)).replays
            == if id !in db.replays && requestID in db.requests then db.replays[id := requestID] else db.replays
  {
  }

  // ---------------------------------------------------------------- one capture undisturbed

  lemma RunCons(mac: Verify.Mac, f: Floor, e: Event, es: seq<Event>, limit: int)
    ensures Run(mac, f, [e] + es, limit) == Run(mac, Step(mac, f, e, limit), es, limit)
  {
    assert ([e] + es)[1..] == es;
  }

  const STATEMENTS: seq<Event> := [Create(0)] + ([Insert(0)] + ([Notify(0)] + ([HandOver(0)] + [])))

  ghost function AfterStatements(mac: Verify.Mac, f: Floor, limit: int): Floor
  {
    Step(mac, Step(mac, Step(mac, Step(mac, f, Create(0), limit), Insert(0), limit), Notify(0), limit), HandOver(0), limit)
  }

  lemma RunStatements(mac: Verify.Mac, f: Floor, limit: int)
    ensures Run(mac, f, STATEMENTS, limit) == AfterStatements(mac, f, limit)
  {
    var f1 := Step(mac, f, Create(0), limit);
    var f2 := Step(mac, f1, Insert(0), limit);
    var f3 := Step(mac, f2, Notify(0), limit);
    RunCons(mac, f, Create(0), [Insert(0)] + ([Notify(0)] + ([HandOver(0)] + [])), limit);
    RunCons(mac, f1, Insert(0), [Notify(0)] + ([HandOver(0)] + []), limit);
    RunCons(mac, f2, Notify(0), [HandOver(0)] + [], limit);
    RunCons(mac, f3, HandOver(0), [], limit);
  }

  /** The handler run without interruption is its statements one after the other. */
  lemma HookIsItsSteps(mac: Verify.Mac, s: Site, a: Arrival, limit: int)
    requires a.id !in s.stored
    ensures Run(mac, Floor(s, [], {}), [Lookup(a)] + STATEMENTS, limit).site == Serve(mac, s, a, limit).site
  {
    var f := Floor(s, [], {});
    var f0 := Step(mac, f, Lookup(a), limit);
    RunCons(mac, f, Lookup(a), STATEMENTS, limit);
    RunStatements(mac, f0, limit);
    if a.slug == "" || !a.slugValid || a.lookupFails {
      assert f0 == f;
    } else {
      assert f0.flights == [f0.flights[0]];
      var f1 := Step(mac, f0, Create(0), limit);
      assert f1.flights == [f1.flights[0]];
      if f1.flights[0].stage.Looked? {
        LookedToTheEnd(mac, f1, limit);
      }
    }
  }

  lemma LookedToTheEnd(mac: Verify.Mac, f: Floor, limit: int)
    requires |f.flights| == 1 && f.flights[0].stage.Looked? && f.flights[0].arrival.id !in f.site.stored
    ensures var a, e, s := f.flights[0].arrival, f.flights[0].stage.endpoint, f.site;
            var row := Stored(mac, e, a, limit);
            var t := Step(mac, Step(mac, Step(mac, f, Insert(0), limit), Notify(0), limit), HandOver(0), limit).site;
            t == match if a.insertFails then None else InsertRequest(s.db, a.id, row)
                 case None => s
                 case Some(db) =>
                   Site(db, s.notices + [Notice(a.slug, a.id)],
                        if e.target != "" && !LoopBreaker.Marked(a.headers) then s.handoffs + [Handoff(a.id, e.target)]
                        else s.handoffs,
                        s.stored[a.id := row])
  {
  }
}
