/** Automatic delivery's header (internal/forward/forward.go) and the loop breaker
    (internal/forward/service.go, internal/capture/capture.go) over a whole network of
    OmniHook endpoints that may target each other in any way. */
module LoopBreaker {
  import opened Text
  import opened Headers
  import opened Names
  import opened Replay
  import Verify

  // ---------------------------------------------------------------- one delivery

  /** Stored fields, a content type if they have none, then the markers. */
  function Dressed(stored: Fields, contentType: string, requestID: string): Fields
  {
    var kept := Kept(stored, false);
    var typed := if contentType != "" && GetField(kept, "Content-Type") == ""
                 then SetField(kept, "Content-Type", contentType) else kept;
    SetField(SetField(typed, "X-Omnihook-Forward", "true"), "X-Omnihook-Request-Id", requestID)
  }

  function Delivered(stored: Fields, contentType: string, requestID: string): Fields
  {
    Strip(Dressed(stored, contentType, requestID))
  }

  /** The header Deliver sends. */
  method DeliveryHeader(stored: Fields, contentType: string, requestID: string) returns (fields: Fields)
    ensures Canonical(stored.Keys) ==> fields == Delivered(stored, contentType, requestID)
  {
    var h := new Header();
    Restore(h, stored, false);
    assert Canonical(stored.Keys) ==> h.fields == Kept(stored, false);
    if contentType != "" && GetField(h.fields, "Content-Type") == "" {
      h.Set("Content-Type", contentType);
    }
    h.Set("X-Omnihook-Forward", "true");
    h.Set("X-Omnihook-Request-Id", requestID);
    h.StripHopByHop();
    fields := h.fields;
  }

  const FORWARD: string := "X-Omnihook-Forward"
  const REPLAY: string := "X-Omnihook-Replay"

  predicate Marked(h: Fields) { GetField(h, FORWARD) != "" || GetField(h, REPLAY) != "" }

  /** The Connection header asks for the marker itself to be dropped. */
  predicate NamesMarker(h: Fields) { Lower(FORWARD) in Tokens(GetField(h, "Connection")) }

  lemma MarkerNames()
    ensures IsName(FORWARD) && IsName(REPLAY) && Canon("X-Omnihook-Request-Id") == "X-Omnihook-Request-Id"
    ensures Canon("Content-Type") == "Content-Type" && Canon("Connection") == "Connection"
  {
    XOmnihookForwardName();
    OwnNamesCanonical();
    XOmnihookReplayName();
    ConnectionName();
  }

  lemma MarkerIsNoHop()
    ensures Lower(FORWARD) !in FIXED_HOPS
  {
    assert |Lower(FORWARD)| == 18 && Lower(FORWARD)[0] == 'x';
  }

  lemma ConnectionIsKept()
    ensures !Skipped("Connection", false)
  {
    Verify.NamesDiffer("Connection", "host", 0);
    Verify.NamesDiffer("Connection", "content-length", 2);
  }

  lemma DressedMarks(stored: Fields, contentType: string, requestID: string)
    requires Canonical(stored.Keys)
    ensures var d := Dressed(stored, contentType, requestID);
            && Canonical(d.Keys)
            && FORWARD in d && d[FORWARD] == ["true"]
            && Values(d, REPLAY) == Values(Kept(stored, false), REPLAY)
            && GetField(d, "Connection") == GetField(stored, "Connection")
  {
    MarkerNames();
    ConnectionIsKept();
  }

  lemma DressedField(stored: Fields, contentType: string, requestID: string, k: string)
    requires Canonical(stored.Keys)
    ensures Headers.Values(Dressed(stored, contentType, requestID), k)
            == if k == "X-Omnihook-Forward" then ["true"]
               else if k == "X-Omnihook-Request-Id" then [requestID]
               else if EqualFold(k, "host") || EqualFold(k, "content-length") then []
               else if k == "Content-Type" && contentType != "" && GetField(stored, "Content-Type") == "" then [contentType]
               else Headers.Values(stored, k)
  {
    MarkerNames();
    Verify.NamesDiffer("Content-Type", "host", 0);
    Verify.NamesDiffer("Content-Type", "content-length", 0);
  }

  /** What a delivery sends, name by name: the markers, a content type where the request had
      none, the stored fields; not what belongs to a connection or to the transport. */
  lemma DeliveredField(stored: Fields, contentType: string, requestID: string, k: string)
    requires Canonical(stored.Keys)
    ensures var hop :=
              || Lower(k) in {"connection", "keep-alive", "proxy-authenticate", "proxy-authorization",
                              "te", "trailer", "transfer-encoding", "upgrade"}
              || Nominates(GetField(stored, "Connection"), k);
            Headers.Values(Delivered(stored, contentType, requestID), k)
            == if hop then []
               else if k == "X-Omnihook-Forward" then ["true"]
               else if k == "X-Omnihook-Request-Id" then [requestID]
               else if EqualFold(k, "host") || EqualFold(k, "content-length") then []
               else if k == "Content-Type" && contentType != "" && GetField(stored, "Content-Type") == "" then [contentType]
               else Headers.Values(stored, k)
  {
    var d := Dressed(stored, contentType, requestID);
    DressedMarks(stored, contentType, requestID);
    DressedField(stored, contentType, requestID, k);
    StripExact(d);
    TokensIff(GetField(stored, "Connection"), k);
  }

  /** A delivery arrives marked unless the stored Connection names the marker. */
  lemma DeliveredMarkedIff(stored: Fields, contentType: string, requestID: string)
    requires Canonical(stored.Keys) && !Marked(stored)
    ensures Marked(Delivered(stored, contentType, requestID)) <==> !NamesMarker(stored)
    ensures GetField(Delivered(stored, contentType, requestID), "Connection") == ""
  {
    var d := Dressed(stored, contentType, requestID);
    MarkerNames();
    DressedMarks(stored, contentType, requestID);
    StripExact(d);
    MarkerIsNoHop();
    ConnectionGone(d);
    assert FORWARD in Strip(d) <==> !NamesMarker(stored);
    assert GetField(Strip(d), REPLAY) == "";
  }

  /** A replay arrives marked unless what it finally sends names the replay marker in
      Connection: a stored or an explicit Connection header alike. */
  lemma ReplayMarkedIff(stored: Fields, contentType: string, requestID: string, merged: map<string, string>)
    requires Canonical(stored.Keys) && Canonical(merged.Keys) && FORWARD !in merged && REPLAY !in merged
    requires GetField(stored, FORWARD) == ""
    ensures Marked(Outgoing(stored, contentType, requestID, merged))
            <==> Lower(REPLAY) !in HopNames(Composed(stored, contentType, requestID, merged))
  {
    MarkerNames();
    PlainName(FORWARD);
    PlainName(REPLAY);
    OutgoingField(stored, contentType, requestID, merged, FORWARD);
    OutgoingField(stored, contentType, requestID, merged, REPLAY);
    var out := Outgoing(stored, contentType, requestID, merged);
    FirstValue(out, FORWARD);
    FirstValue(out, REPLAY);
    FirstValue(stored, FORWARD);
    assert |FORWARD| == 18 && |REPLAY| == 17 && |"X-Omnihook-Request-Id"| == 21;
  }

  lemma FirstValue(h: Fields, n: string)
    requires IsName(n)
    ensures GetField(h, n) == (if Headers.Values(h, n) == [] then "" else Headers.Values(h, n)[0])
  {
  }

  // ---------------------------------------------------------------- the network

  /** How many automatic deliveries a request can still cause. */
  function Potential(h: Fields): nat
  {
    if Marked(h) then 0 else if NamesMarker(h) then 2 else 1
  }

  /** What reaches the next endpoint keeps the markers and adds no Connection header. */
  predicate Carries(sent: Fields, received: Fields)
  {
    && GetField(received, FORWARD) == GetField(sent, FORWARD)
    && GetField(received, REPLAY) == GetField(sent, REPLAY)
    && GetField(received, "Connection") == GetField(sent, "Connection")
  }

  lemma PotentialDrops(stored: Fields, contentType: string, requestID: string, received: Fields)
    requires Canonical(stored.Keys) && !Marked(stored)
    requires Carries(Delivered(stored, contentType, requestID), received)
    ensures Potential(received) < Potential(stored)
  {
    DeliveredMarkedIff(stored, contentType, requestID);
    NoConnectionTokens();
  }

  /** Requests in flight towards endpoints, accepted forwarding jobs, and counts.
      `arrived` lists the requests that came from outside. */
  datatype Net = Net(inbox: seq<Fields>, jobs: seq<Fields>, stored: nat, deliveries: nat, arrived: seq<Fields>)

  const QUIET: Net := Net([], [], 0, 0, [])

  datatype Event =
    | Arrive(h: Fields)
    | Lose(i: nat)
    | Capture(i: nat, accepted: bool)
    | Deliver(j: nat, contentType: string, requestID: string, reached: Option<Fields>)

  ghost predicate Enabled(n: Net, e: Event)
  {
    match e
    case Arrive(h) => Canonical(h.Keys)
    case Lose(i) => i < |n.inbox|
    case Capture(i, _) => i < |n.inbox|
    case Deliver(j, ct, id, reached) =>
      && j < |n.jobs|
      && (reached.Some? ==> Canonical(reached.value.Keys) && Carries(Delivered(n.jobs[j], ct, id), reached.value))
  }

  function Without(s: seq<Fields>, i: nat): seq<Fields>
    requires i < |s|
  {
    s[..i] + s[i + 1..]
  }

  /** A capture stores the request and forwards it when the endpoint has a target, the
      queue accepts it and the request is not marked. */
  ghost function Step(n: Net, e: Event): Net
    requires Enabled(n, e)
  {
    match e
    case Arrive(h) => n.(inbox := n.inbox + [h], arrived := n.arrived + [h])
    case Lose(i) => n.(inbox := Without(n.inbox, i))
    case Capture(i, accepted) =>
      n.(inbox := Without(n.inbox, i), stored := n.stored + 1,
         jobs := if accepted && !Marked(n.inbox[i]) then n.jobs + [n.inbox[i]] else n.jobs)
    case Deliver(j, _, _, reached) =>
      n.(jobs := Without(n.jobs, j), deliveries := n.deliveries + 1,
         inbox := if reached.Some? then n.inbox + [reached.value] else n.inbox)
  }

  ghost predicate IsRun(n: Net, es: seq<Event>)
    decreases |es|
  {
    es == [] || (Enabled(n, es[0]) && IsRun(Step(n, es[0]), es[1..]))
  }

  ghost function End(n: Net, es: seq<Event>): Net
    requires IsRun(n, es)
    decreases |es|
  {
    if es == [] then n else End(Step(n, es[0]), es[1..])
  }

  // ---------------------------------------------------------------- the potential argument

  function Total(s: seq<Fields>): nat
  {
    if s == [] then 0 else Potential(s[0]) + Total(s[1..])
  }

  lemma {:induction false} TotalConcat(a: seq<Fields>, b: seq<Fields>)
    ensures Total(a + b) == Total(a) + Total(b)
  {
    if a == [] {
      assert a + b == b;
    } else {
      assert (a + b)[1..] == a[1..] + b;
      TotalConcat(a[1..], b);
    }
  }

  lemma TotalAppend(s: seq<Fields>, h: Fields)
    ensures Total(s + [h]) == Total(s) + Potential(h)
  {
    TotalConcat(s, [h]);
  }

  lemma SplitAt(s: seq<Fields>, i: nat)
    requires i < |s|
    ensures s[..i] + ([s[i]] + s[i + 1..]) == s
  {
  }

  lemma TotalCons(h: Fields, s: seq<Fields>)
    ensures Total([h] + s) == Potential(h) + Total(s)
  {
    assert ([h] + s)[1..] == s;
  }

  lemma TotalWithout(s: seq<Fields>, i: nat)
    requires i < |s|
    ensures Total(Without(s, i)) + Potential(s[i]) == Total(s)
  {
    var a, b := s[..i], s[i + 1..];
    TotalConcat(a, b);
    TotalConcat(a, [s[i]] + b);
    TotalCons(s[i], b);
    SplitAt(s, i);
  }

  lemma {:induction false} TotalBounds(s: seq<Fields>)
    ensures Total(s) <= 2 * |s|
    ensures (forall h | h in s :: !NamesMarker(h)) ==> Total(s) <= |s|
  {
    if s != [] {
      TotalBounds(s[1..]);
      if forall h | h in s :: !NamesMarker(h) {
        assert s[0] in s;
        assert forall h | h in s[1..] :: h in s;
      }
    }
  }

  /** Nothing is delivered or stored that the arrivals have not paid for. */
  ghost predicate Paid(n: Net)
  {
    && n.deliveries + Total(n.inbox) + Total(n.jobs) <= Total(n.arrived)
    && n.stored + Total(n.inbox) + |n.inbox| + Total(n.jobs) <= Total(n.arrived) + |n.arrived|
    && Unmarked(n.jobs) && AllCanonical(n.inbox)
  }

  ghost predicate AllCanonical(s: seq<Fields>) { forall i | 0 <= i < |s| :: Canonical(s[i].Keys) }

  ghost predicate Unmarked(s: seq<Fields>)
  {
    AllCanonical(s) && forall i | 0 <= i < |s| :: !Marked(s[i])
  }

  lemma PaidArrive(n: Net, h: Fields)
    requires Paid(n) && Canonical(h.Keys)
    ensures Paid(Step(n, Arrive(h)))
  {
    TotalAppend(n.inbox, h);
    TotalAppend(n.arrived, h);
  }

  lemma PaidCapture(n: Net, i: nat, accepted: bool)
    requires Paid(n) && i < |n.inbox|
    ensures Paid(Step(n, Capture(i, accepted)))
  {
    TotalWithout(n.inbox, i);
    WithoutCanonical(n.inbox, i);
    TotalAppend(n.jobs, n.inbox[i]);
  }

  lemma WithoutCanonical(s: seq<Fields>, i: nat)
    requires i < |s| && AllCanonical(s)
    ensures AllCanonical(Without(s, i))
  {
  }

  lemma PaidDeliver(n: Net, e: Event)
    requires Paid(n) && e.Deliver? && Enabled(n, e)
    ensures Paid(Step(n, e))
  {
    TotalWithout(n.jobs, e.j);
    WithoutUnmarked(n.jobs, e.j);
    if e.reached.Some? {
      PotentialDrops(n.jobs[e.j], e.contentType, e.requestID, e.reached.value);
      TotalAppend(n.inbox, e.reached.value);
    }
  }

  lemma WithoutUnmarked(s: seq<Fields>, i: nat)
    requires i < |s| && Unmarked(s)
    ensures Unmarked(Without(s, i))
  {
  }

  lemma PaidStep(n: Net, e: Event)
    requires Paid(n) && Enabled(n, e)
    ensures Paid(Step(n, e))
  {
    match e
    case Arrive(h) => PaidArrive(n, h);
    case Lose(i) => TotalWithout(n.inbox, i);
    case Capture(i, accepted) => PaidCapture(n, i, accepted);
    case Deliver(_, _, _, _) => PaidDeliver(n, e);
  }

  lemma {:induction false} PaidAlways(n: Net, es: seq<Event>)
    requires Paid(n) && IsRun(n, es)
    ensures Paid(End(n, es))
    decreases |es|
  {
    if es != [] {
      PaidStep(n, es[0]);
      PaidAlways(Step(n, es[0]), es[1..]);
    }
  }

  /** Main result: whatever the graph of targets, k outside requests cause at most 2k
      automatic deliveries and 3k stored requests; at most k and 2k when no Connection
      header they carry names the marker. */
  lemma LoopsAreBounded(es: seq<Event>)
    requires IsRun(QUIET, es)
    ensures var n := End(QUIET, es);
            && n.deliveries <= 2 * |n.arrived| && n.stored <= 3 * |n.arrived|
            && ((forall h | h in n.arrived :: !NamesMarker(h)) ==>
                  n.deliveries <= |n.arrived| && n.stored <= 2 * |n.arrived|)
  {
    PaidAlways(QUIET, es);
    TotalBounds(End(QUIET, es).arrived);
  }

  // ---------------------------------------------------------------- quiescence

  /** Steps left in the network. */
  function Measure(n: Net): nat { 2 * Total(n.inbox) + |n.inbox| + 2 * Total(n.jobs) }

  lemma MeasureDrops(n: Net, e: Event)
    requires Paid(n) && Enabled(n, e) && !e.Arrive?
    ensures Measure(Step(n, e)) < Measure(n)
  {
    match e
    case Lose(i) => TotalWithout(n.inbox, i);
    case Capture(i, accepted) =>
      TotalWithout(n.inbox, i);
      TotalAppend(n.jobs, n.inbox[i]);
    case Deliver(j, ct, id, reached) =>
      TotalWithout(n.jobs, j);
      if reached.Some? {
        PotentialDrops(n.jobs[j], ct, id, reached.value);
        TotalAppend(n.inbox, reached.value);
      }
  }

  /** With no new arrivals the network goes quiet within `Measure` steps. */
  lemma {:induction false} Quiescence(n: Net, es: seq<Event>)
    requires Paid(n) && IsRun(n, es) && forall e | e in es :: !e.Arrive?
    ensures |es| <= Measure(n)
    decreases |es|
  {
    if es != [] {
      assert es[0] in es;
      assert forall e | e in es[1..] :: e in es;
      MeasureDrops(n, es[0]);
      PaidStep(n, es[0]);
      Quiescence(Step(n, es[0]), es[1..]);
    }
  }

  // ---------------------------------------------------------------- the bound is met

  const SELFISH: Fields := map["Connection" := ["X-Omnihook-Forward"]]

  lemma OneToken(v: string)
    requires v != "" && IsToken(v)
    ensures Lower(v) in Tokens(v)
  {
    assert forall c | c in v :: IsTokenChar(c);
    assert ',' !in v && NoSpace(v);
    SplitNone(v, ',');
    TrimNothing(v);
    assert v in Split(v, ',') && TrimSpace(v) != "";
  }

  lemma SelfishUnmarked()
    ensures Canonical(SELFISH.Keys) && !Marked(SELFISH)
  {
    MarkerNames();
    assert |FORWARD| == 18 && |REPLAY| == 17 && |"Connection"| == 10;
    assert FORWARD !in SELFISH && REPLAY !in SELFISH;
  }

  lemma SelfishNamesMarker()
    ensures NamesMarker(SELFISH)
  {
    ConnectionName();
    XOmnihookForwardName();
    assert SELFISH["Connection"] == [FORWARD];
    OneToken(FORWARD);
  }

  /** es leads from n to m. */
  ghost predicate Leads(n: Net, es: seq<Event>, m: Net) { IsRun(n, es) && End(n, es) == m }

  lemma {:induction false} LeadsConcat(n: Net, a: seq<Event>, mid: Net, b: seq<Event>, m: Net)
    requires Leads(n, a, mid) && Leads(mid, b, m)
    ensures Leads(n, a + b, m)
    decreases |a|
  {
    if a == [] {
      assert a + b == b;
    } else {
      assert (a + b)[1..] == a[1..] + b;
      LeadsConcat(Step(n, a[0]), a[1..], mid, b, m);
    }
  }

  /** A lone unmarked request is captured and delivered, becoming `d`. */
  lemma Hop(h: Fields, id: string, d: Fields, stored: nat, deliveries: nat, arrived: seq<Fields>)
    returns (es: seq<Event>)
    requires Canonical(d.Keys) && !Marked(h) && Carries(Delivered(h, "", id), d)
    ensures Leads(Net([h], [], stored, deliveries, arrived), es,
                  Net([d], [], stored + 1, deliveries + 1, arrived))
  {
    CaptureOne(h, stored, deliveries, arrived, true);
    DeliverOne(h, id, d, stored + 1, deliveries, arrived);
    RunCons(Net([], [h], stored + 1, deliveries, arrived), Deliver(0, "", id, Some(d)), []);
    es := [Deliver(0, "", id, Some(d))] + [];
    RunCons(Net([h], [], stored, deliveries, arrived), Capture(0, true), es);
    es := [Capture(0, true)] + es;
  }

  lemma DeliveredCanonical(h: Fields, id: string)
    requires Canonical(h.Keys)
    ensures Canonical(Delivered(h, "", id).Keys)
  {
    DressedMarks(h, "", id);
    StripExact(Dressed(h, "", id));
  }

  /** A delivery leaves one delivery less to come. */
  lemma PotentialIsSpent(h: Fields, id: string)
    requires Canonical(h.Keys) && !Marked(h)
    ensures Potential(Delivered(h, "", id)) == Potential(h) - 1
  {
    DeliveredMarkedIff(h, "", id);
    NoConnectionTokens();
  }

  /** One request in an otherwise quiet network can use up all its potential. */
  lemma {:induction false} SpendAll(h: Fields, stored: nat, deliveries: nat, arrived: seq<Fields>)
    returns (es: seq<Event>)
    requires Canonical(h.Keys)
    ensures Leads(Net([h], [], stored, deliveries, arrived), es,
                  Net([], [], stored + 1 + Potential(h), deliveries + Potential(h), arrived))
    decreases Potential(h)
  {
    if Marked(h) {
      CaptureOne(h, stored, deliveries, arrived, false);
      RunCons(Net([h], [], stored, deliveries, arrived), Capture(0, false), []);
      es := [Capture(0, false)] + [];
    } else {
      var d := Delivered(h, "", "1");
      DeliveredCanonical(h, "1");
      PotentialIsSpent(h, "1");
      var first := Hop(h, "1", d, stored, deliveries, arrived);
      var rest := SpendAll(d, stored + 1, deliveries + 1, arrived);
      LeadsConcat(Net([h], [], stored, deliveries, arrived), first, Net([d], [], stored + 1, deliveries + 1, arrived),
                  rest, Net([], [], stored + 1 + Potential(h), deliveries + Potential(h), arrived));
      es := first + rest;
    }
  }

  /** Some run with these arrivals makes every delivery they can pay for. */
  lemma {:induction false} MostDeliveries(hs: seq<Fields>) returns (es: seq<Event>)
    requires forall i | 0 <= i < |hs| :: Canonical(hs[i].Keys)
    ensures Leads(QUIET, es, Net([], [], Total(hs) + |hs|, Total(hs), hs))
  {
    if hs == [] {
      es := [];
    } else {
      var n := |hs| - 1;
      var prev, h := hs[..n], hs[n];
      assert hs == prev + [h];
      TotalAppend(prev, h);
      var before := MostDeliveries(prev);
      var quiet := Net([], [], Total(prev) + n, Total(prev), prev);
      var spent := ArriveAndSpend(quiet, h);
      LeadsConcat(QUIET, before, quiet, spent, Net([], [], Total(hs) + |hs|, Total(hs), hs));
      es := before + spent;
    }
  }

  lemma ArriveAndSpend(n: Net, h: Fields) returns (es: seq<Event>)
    requires Canonical(h.Keys) && n.inbox == [] && n.jobs == []
    ensures Leads(n, es, Net([], [], n.stored + 1 + Potential(h), n.deliveries + Potential(h), n.arrived + [h]))
  {
    ArriveNext(n, h);
    var spent := SpendAll(h, n.stored, n.deliveries, n.arrived + [h]);
    RunCons(n, Arrive(h), spent);
    es := [Arrive(h)] + spent;
  }

  /** Main result: over all runs with the arrivals `hs` the deliveries are bounded by n exactly
      when their potentials sum to at most n: 2 for an unmarked request whose Connection names
      the marker, 1 for another unmarked one, 0 for a marked one. */
  lemma DeliveriesBoundIff(hs: seq<Fields>, n: nat)
    requires forall i | 0 <= i < |hs| :: Canonical(hs[i].Keys)
    ensures (forall es | IsRun(QUIET, es) && End(QUIET, es).arrived == hs :: End(QUIET, es).deliveries <= n)
            <==> Total(hs) <= n
  {
    if Total(hs) <= n {
      forall es | IsRun(QUIET, es) && End(QUIET, es).arrived == hs ensures End(QUIET, es).deliveries <= n {
        PaidAlways(QUIET, es);
      }
    } else {
      var es := MostDeliveries(hs);
      assert IsRun(QUIET, es) && End(QUIET, es).deliveries == Total(hs);
    }
  }

  lemma TotalOne(h: Fields)
    ensures Total([h]) == Potential(h)
  {
    assert [h][1..] == [];
  }

  /** One request whose Connection names the marker is delivered twice, stored thrice. */
  lemma NamingRequestLoopsOnce(h: Fields) returns (es: seq<Event>)
    requires Canonical(h.Keys) && !Marked(h) && NamesMarker(h)
    ensures Leads(QUIET, es, Net([], [], 3, 2, [h]))
  {
    TotalOne(h);
    es := MostDeliveries([h]);
  }

  /** And there is such a request. */
  lemma SelfishRequestLoopsOnce() returns (es: seq<Event>)
    ensures Leads(QUIET, es, Net([], [], 3, 2, [SELFISH]))
  {
    SelfishUnmarked();
    SelfishNamesMarker();
    es := NamingRequestLoopsOnce(SELFISH);
  }

  lemma ArriveNext(n: Net, h: Fields)
    requires Canonical(h.Keys) && n.inbox == []
    ensures Enabled(n, Arrive(h)) && Step(n, Arrive(h)) == n.(inbox := [h], arrived := n.arrived + [h])
  {
  }

  lemma Singletons(h: Fields, d: Fields)
    ensures Without([h], 0) == [] && [] + [d] == [d]
  {
  }

  lemma CaptureOne(h: Fields, stored: nat, deliveries: nat, arrived: seq<Fields>, accepted: bool)
    ensures var n := Net([h], [], stored, deliveries, arrived);
            && Enabled(n, Capture(0, accepted))
            && Step(n, Capture(0, accepted))
               == Net([], if accepted && !Marked(h) then [h] else [], stored + 1, deliveries, arrived)
  {
    Singletons(h, h);
  }

  lemma DeliverOne(h: Fields, id: string, d: Fields, stored: nat, deliveries: nat, arrived: seq<Fields>)
    requires Canonical(d.Keys) && Carries(Delivered(h, "", id), d)
    ensures var n := Net([], [h], stored, deliveries, arrived);
            var e := Deliver(0, "", id, Some(d));
            Enabled(n, e) && Step(n, e) == Net([d], [], stored, deliveries + 1, arrived)
  {
    Singletons(h, d);
    DeliverEnabled(h, id, d, stored, deliveries, arrived);
  }

  lemma DeliverEnabled(h: Fields, id: string, d: Fields, stored: nat, deliveries: nat, arrived: seq<Fields>)
    requires Canonical(d.Keys) && Carries(Delivered(h, "", id), d)
    ensures Enabled(Net([], [h], stored, deliveries, arrived), Deliver(0, "", id, Some(d)))
  {
  }

  lemma RunCons(n: Net, e: Event, es: seq<Event>)
    requires Enabled(n, e) && IsRun(Step(n, e), es)
    ensures IsRun(n, [e] + es) && End(n, [e] + es) == End(Step(n, e), es)
  {
    assert ([e] + es)[1..] == es;
  }
}
