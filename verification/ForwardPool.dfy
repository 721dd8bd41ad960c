/** The bounded forwarding pool (internal/forward/service.go) as a state machine.

    Captures call Enqueue, workers race on quit and queue, and any number of callers call
    Stop; a run is any interleaving of their atomic steps. The fields after `callers` are
    history: no step reads them. */
module ForwardPool {
  import opened Text

  datatype Job = Job(requestID: string, target: string)

  // ---------------------------------------------------------------- self targets

  /** What url.Parse yields for a target. */
  datatype Url = Url(scheme: string, host: string, port: string, path: string)

  /** Whether a parsed target (None: unparsable) is this server's own capture surface. */
  predicate SelfTarget(ownPort: string, url: Option<Url>)
  {
    && url.Some?
    && "/hook/" <= url.value.path
    && Lower(url.value.host) in {"localhost", "127.0.0.1", "::1"}
    && ownPort == (if url.value.port != "" then url.value.port
                   else if EqualFold(url.value.scheme, "https") then "443" else "80")
  }

  /** A target that would be captured here and forwarded again: path under /hook/, a loopback
      host, and this server's port, written out or by the scheme's default. */
  predicate LoopsBack(ownPort: string, u: Url)
  {
    && |u.path| >= 6 && u.path[..6] == "/hook/"
    && (EqualFold(u.host, "localhost") || u.host == "127.0.0.1" || u.host == "::1")
    && (if u.port != "" then u.port == ownPort
        else if EqualFold(u.scheme, "https") then ownPort == "443" else ownPort == "80")
  }

  /** Text without letters has no other case. */
  lemma Uncased(host: string, name: string)
    requires forall i | 0 <= i < |name| :: !('A' <= name[i] <= 'Z' || 'a' <= name[i] <= 'z')
    ensures Lower(host) == name <==> host == name
  {
    assert |Lower(host)| == |host| && forall i | 0 <= i < |host| :: Lower(host)[i] == LowerChar(host[i]);
    assert forall i | 0 <= i < |name| :: LowerChar(name[i]) == name[i];
    assert Lower(host) == name ==> forall i | 0 <= i < |host| :: host[i] == name[i];
    assert host == name ==> Lower(host) == name;
  }

  lemma LocalhostLowered()
    ensures Lower("localhost") == "localhost"
  {
  }

  /** The guard refuses exactly the targets that loop back; an unparsable one is let through. */
  lemma SelfTargetIff(ownPort: string, url: Option<Url>)
    ensures SelfTarget(ownPort, url) <==> url.Some? && LoopsBack(ownPort, url.value)
  {
    if url.Some? {
      Uncased(url.value.host, "127.0.0.1");
      Uncased(url.value.host, "::1");
      LocalhostLowered();
    }
  }

  // ---------------------------------------------------------------- delivery records

  datatype Note = RefusedSelf | DroppedFull | Attempt(status: int, latencyMs: int, error: string)
  datatype Record = Record(job: Job, note: Note)

  /** How one Deliver call ends. */
  datatype Outcome =
    | SsrfBlocked
    | RequestMissing
    | BadRequest(error: string)
    | TransportError(latencyMs: int, error: string)
    | Answered(status: int, latencyMs: int)

  /** The replay row Deliver inserts: none when the request row is gone. */
  function DeliverRecord(job: Job, o: Outcome): seq<Record>
  {
    match o
    case SsrfBlocked => [Record(job, Attempt(0, 0, "blocked: SSRF guard (metadata host)"))]
    case RequestMissing => []
    case BadRequest(e) => [Record(job, Attempt(0, 0, e))]
    case TransportError(l, e) => [Record(job, Attempt(0, l, e))]
    case Answered(code, l) => [Record(job, Attempt(code, l, ""))]
  }

  // ---------------------------------------------------------------- state

  datatype Worker = Idle | Busy(job: Job) | Exited

  /** The body of stopOnce.Do: waiting for the queue, about to close quit, over. */
  datatype StopPhase = NotCalled | Draining | Closing | Done

  /** One Stop call: running the once body, blocked on it, waiting for workers, returned. */
  datatype Caller = RunsOnce | WaitsOnce | WaitsWorkers | Returned

  datatype State = State(
    ownPort: string, capacity: nat,
    queue: seq<Job>, quit: bool, workers: seq<Worker>,
    dropped: nat, pendingDrops: multiset<Job>, records: seq<Record>,
    phase: StopPhase, callers: seq<Caller>,
    attempts: nat, refused: nat, accepted: seq<Job>, taken: seq<Job>,
    finished: multiset<Job>, closes: nat)

  function NewService(ownPort: string, workers: int, queueLen: int): State
  {
    State(ownPort, if queueLen <= 0 then 128 else queueLen,
          [], false, seq(if workers <= 0 then 8 else workers, _ => Idle),
          0, multiset{}, [], NotCalled, [], 0, 0, [], [], multiset{}, 0)
  }

  datatype Event =
    | Enqueue(job: Job, url: Option<Url>)
    | RecordDrop(job: Job)
    | Take(w: nat)
    | Finish(w: nat, outcome: Outcome)
    | Exit(w: nat)
    | StopCall
    | DrainLoopExit(timedOut: bool)
    | CloseQuit(caller: nat)
    | OnceReleased(caller: nat)
    | StopReturn(caller: nat, timedOut: bool)

  predicate AllExited(ws: seq<Worker>)
  {
    forall i | 0 <= i < |ws| :: ws[i] == Exited
  }

  predicate Enabled(s: State, e: Event)
  {
    match e
    case Enqueue(_, _) => true
    case RecordDrop(job) => job in s.pendingDrops
    case Take(w) => w < |s.workers| && s.workers[w] == Idle && s.queue != []
    case Finish(w, _) => w < |s.workers| && s.workers[w].Busy?
    case Exit(w) => w < |s.workers| && s.workers[w] == Idle && s.quit
    case StopCall => true
    case DrainLoopExit(timedOut) => s.phase == Draining && (s.queue == [] || timedOut)
    case CloseQuit(c) => s.phase == Closing && c < |s.callers| && s.callers[c] == RunsOnce
    case OnceReleased(c) => s.phase == Done && c < |s.callers| && s.callers[c] == WaitsOnce
    case StopReturn(c, timedOut) =>
      c < |s.callers| && s.callers[c] == WaitsWorkers && (AllExited(s.workers) || timedOut)
  }

  function Step(s: State, e: Event): State
    requires Enabled(s, e)
  {
    match e
    case Enqueue(job, url) =>
      var s := s.(attempts := s.attempts + 1);
      if SelfTarget(s.ownPort, url) then
        s.(records := s.records + [Record(job, RefusedSelf)], refused := s.refused + 1)
      else if |s.queue| < s.capacity then
        s.(queue := s.queue + [job], accepted := s.accepted + [job])
      else
        s.(dropped := s.dropped + 1, pendingDrops := s.pendingDrops + multiset{job})
    case RecordDrop(job) =>
      s.(pendingDrops := s.pendingDrops - multiset{job},
         records := s.records + [Record(job, DroppedFull)])
    case Take(w) =>
      s.(queue := s.queue[1..], workers := s.workers[w := Busy(s.queue[0])],
         taken := s.taken + [s.queue[0]])
    case Finish(w, o) =>
      var job := s.workers[w].job;
      s.(workers := s.workers[w := Idle], records := s.records + DeliverRecord(job, o),
         finished := s.finished + multiset{job})
    case Exit(w) => s.(workers := s.workers[w := Exited])
    case StopCall =>
      if s.phase == NotCalled then s.(phase := Draining, callers := s.callers + [RunsOnce])
      else s.(callers := s.callers + [if s.phase == Done then WaitsWorkers else WaitsOnce])
    case DrainLoopExit(_) => s.(phase := Closing)
    case CloseQuit(c) =>
      s.(phase := Done, quit := true, closes := s.closes + 1, callers := s.callers[c := WaitsWorkers])
    case OnceReleased(c) => s.(callers := s.callers[c := WaitsWorkers])
    case StopReturn(c, _) => s.(callers := s.callers[c := Returned])
  }

  // ---------------------------------------------------------------- the service object

  /** One Enqueue event and, when the queue was full, the row for the drop. */
  function Enqueued(s: State, job: Job, url: Option<Url>): State
  {
    var t := Step(s, Enqueue(job, url));
    if t.dropped == s.dropped then t else
    assert job in t.pendingDrops;
    Step(t, RecordDrop(job))
  }

  lemma EnqueuedView(s: State, job: Job, url: Option<Url>)
    ensures var t, own := Enqueued(s, job, url), SelfTarget(s.ownPort, url);
            var fits := !own && |s.queue| < s.capacity;
            && t.ownPort == s.ownPort && t.capacity == s.capacity && t.workers == s.workers
            && t.queue == (if fits then s.queue + [job] else s.queue)
            && t.dropped == (if own || fits then s.dropped else s.dropped + 1)
            && t.records == (if own then s.records + [Record(job, RefusedSelf)]
                             else if fits then s.records else s.records + [Record(job, DroppedFull)])
            && |t.accepted| == |s.accepted| + (if fits then 1 else 0)
  {
  }

  /** What a capture can reach of the service: the queue channel, the drop counter and the
      replay rows. Workers and Stop run beside it as the events above. */
  class Service {
    const ownPort: string
    const capacity: nat
    const workers: nat
    var queue: seq<Job>
    var dropped: nat
    var records: seq<Record>

    ghost predicate Shows(s: State)
      reads this
    {
      && ownPort == s.ownPort && capacity == s.capacity && workers == |s.workers| && queue == s.queue
      && dropped == s.dropped && records == s.records
    }

    constructor (ownPort: string, workers: int, queueLen: int)
      ensures Shows(NewService(ownPort, workers, queueLen))
      ensures this.ownPort == ownPort && capacity == (if queueLen > 0 then queueLen else 128)
      ensures this.workers == (if workers > 0 then workers else 8)
      ensures queue == [] && dropped == 0 && records == []
    {
      this.ownPort := ownPort;
      capacity := if queueLen <= 0 then 128 else queueLen;
      this.workers := if workers <= 0 then 8 else workers;
      queue, dropped, records := [], 0, [];
    }

    method Enqueue(job: Job, url: Option<Url>) returns (ok: bool)
      modifies this
      ensures forall s: State | old(Shows(s)) :: Shows(Enqueued(s, job, url))
      ensures forall s: State | old(Shows(s)) :: ok == (|Enqueued(s, job, url).accepted| > |s.accepted|)
      ensures var loops := url.Some? && LoopsBack(ownPort, url.value);
              && ok == (!loops && |old(queue)| < capacity)
              && queue == (if ok then old(queue) + [job] else old(queue))
              && dropped == (if loops || ok then old(dropped) else old(dropped) + 1)
              && records == (if loops then old(records) + [Record(job, RefusedSelf)]
                             else if ok then old(records) else old(records) + [Record(job, DroppedFull)])
    {
      SelfTargetIff(ownPort, url);
      if SelfTarget(ownPort, url) {
        records := records + [Record(job, RefusedSelf)];
        ok := false;
      } else if |queue| < capacity {
        queue := queue + [job];
        ok := true;
      } else {
        dropped := dropped + 1;
        records := records + [Record(job, DroppedFull)];
        ok := false;
      }
      forall s: State | old(Shows(s))
        ensures Shows(Enqueued(s, job, url)) && ok == (|Enqueued(s, job, url).accepted| > |s.accepted|)
      {
        EnqueuedView(s, job, url);
      }
    }
  }

  predicate IsRun(s: State, es: seq<Event>)
    decreases |es|
  {
    es == [] || (Enabled(s, es[0]) && IsRun(Step(s, es[0]), es[1..]))
  }

  function End(s: State, es: seq<Event>): State
    requires IsRun(s, es)
    decreases |es|
  {
    if es == [] then s else End(Step(s, es[0]), es[1..])
  }

  // ---------------------------------------------------------------- counting

  function Held(w: Worker): multiset<Job> { if w.Busy? then multiset{w.job} else multiset{} }

  function InFlight(ws: seq<Worker>): multiset<Job>
  {
    if ws == [] then multiset{} else Held(ws[0]) + InFlight(ws[1..])
  }

  lemma {:induction false} InFlightUpdate(ws: seq<Worker>, i: nat, w: Worker)
    requires i < |ws|
    ensures InFlight(ws[i := w]) + Held(ws[i]) == InFlight(ws) + Held(w)
  {
    if i > 0 {
      InFlightUpdate(ws[1..], i - 1, w);
      assert ws[i := w][1..] == ws[1..][i - 1 := w];
      var rest, before := InFlight(ws[1..][i - 1 := w]), InFlight(ws[1..]);
      assert rest + Held(ws[i]) == before + Held(w);
      assert InFlight(ws[i := w]) + Held(ws[i]) == Held(ws[0]) + (rest + Held(ws[i]));
      assert InFlight(ws) + Held(w) == Held(ws[0]) + (before + Held(w));
    } else {
      assert ws[i := w][1..] == ws[1..];
    }
  }

  lemma {:induction false} InFlightBound(ws: seq<Worker>)
    ensures |InFlight(ws)| <= |ws|
    ensures AllExited(ws) ==> InFlight(ws) == multiset{}
  {
    if ws != [] {
      InFlightBound(ws[1..]);
    }
  }

  function Count(rs: seq<Record>, note: Note): nat
  {
    if rs == [] then 0 else (if rs[0].note == note then 1 else 0) + Count(rs[1..], note)
  }

  lemma {:induction false} CountConcat(a: seq<Record>, b: seq<Record>, note: Note)
    ensures Count(a + b, note) == Count(a, note) + Count(b, note)
  {
    if a == [] {
      assert a + b == b;
    } else {
      assert (a + b)[1..] == a[1..] + b;
      CountConcat(a[1..], b, note);
    }
  }

  function OnceRunners(cs: seq<Caller>): nat
  {
    if cs == [] then 0 else (if cs[0] == RunsOnce then 1 else 0) + OnceRunners(cs[1..])
  }

  lemma {:induction false} OnceRunnersUpdate(cs: seq<Caller>, i: nat, c: Caller)
    requires i < |cs|
    ensures OnceRunners(cs[i := c]) + (if cs[i] == RunsOnce then 1 else 0)
            == OnceRunners(cs) + (if c == RunsOnce then 1 else 0)
  {
    if i > 0 {
      OnceRunnersUpdate(cs[1..], i - 1, c);
      assert cs[i := c][1..] == cs[1..][i - 1 := c];
    } else {
      assert cs[i := c][1..] == cs[1..];
    }
  }

  lemma {:induction false} OnceRunnersAppend(cs: seq<Caller>, c: Caller)
    ensures OnceRunners(cs + [c]) == OnceRunners(cs) + (if c == RunsOnce then 1 else 0)
  {
    if cs == [] {
      assert cs + [c] == [c];
    } else {
      assert (cs + [c])[1..] == cs[1..] + [c];
      OnceRunnersAppend(cs[1..], c);
    }
  }

  // ---------------------------------------------------------------- the invariant

  /** Every capture handed to the pool is in exactly one place. */
  predicate Conserved(s: State)
  {
    && s.attempts == s.refused + s.dropped + |s.accepted|
    && s.accepted == s.taken + s.queue
    && multiset(s.taken) == InFlight(s.workers) + s.finished
    && |s.queue| <= s.capacity
  }

  /** The drop and refusal counters agree with the rows attempted. */
  predicate Accounted(s: State)
  {
    && s.dropped == Count(s.records, DroppedFull) + |s.pendingDrops|
    && s.refused == Count(s.records, RefusedSelf)
  }

  /** quit is closed once, by the one caller inside stopOnce; nobody leaves before it. */
  predicate StopsOnce(s: State)
  {
    && s.quit == (s.phase == Done)
    && s.closes == (if s.quit then 1 else 0)
    && OnceRunners(s.callers) == (if s.phase in {Draining, Closing} then 1 else 0)
    && (s.phase != Done ==> forall c | c in s.callers :: c in {RunsOnce, WaitsOnce})
    && (!s.quit ==> Exited !in s.workers)
  }

  predicate Inv(s: State) { Conserved(s) && Accounted(s) && StopsOnce(s) }

  lemma InitialInv(ownPort: string, workers: int, queueLen: int)
    ensures var s := NewService(ownPort, workers, queueLen);
            Inv(s) && s.capacity >= 1 && |s.workers| >= 1
  {
    var s := NewService(ownPort, workers, queueLen);
    AllIdle(|s.workers|);
    assert [] + s.queue == [];
  }

  lemma {:induction false} AllIdle(n: nat)
    ensures InFlight(seq(n, _ => Idle)) == multiset{}
  {
    if n > 0 {
      AllIdle(n - 1);
      assert seq(n, _ => Idle)[1..] == seq(n - 1, _ => Idle);
    }
  }

  lemma ConservedTake(s: State, w: nat)
    requires Conserved(s) && Enabled(s, Take(w))
    ensures Conserved(Step(s, Take(w)))
  {
    var job, rest := s.queue[0], s.queue[1..];
    PickedUp(s.workers, w, job);
    MoveOne(s.taken, job, rest);
    assert s.queue == [job] + rest;
  }

  lemma MoveOne(taken: seq<Job>, job: Job, rest: seq<Job>)
    ensures (taken + [job]) + rest == taken + ([job] + rest)
    ensures multiset(taken + [job]) == multiset(taken) + multiset{job}
  {
  }

  lemma PickedUp(ws: seq<Worker>, w: nat, job: Job)
    requires w < |ws| && ws[w] == Idle
    ensures InFlight(ws[w := Busy(job)]) == InFlight(ws) + multiset{job}
  {
    InFlightUpdate(ws, w, Busy(job));
    assert InFlight(ws[w := Busy(job)]) + multiset{} == InFlight(ws[w := Busy(job)]);
  }

  lemma ConservedFinish(s: State, w: nat, o: Outcome)
    requires Conserved(s) && Enabled(s, Finish(w, o))
    ensures Conserved(Step(s, Finish(w, o)))
  {
    InFlightUpdate(s.workers, w, Idle);
    assert InFlight(s.workers[w := Idle]) + multiset{s.workers[w].job} == InFlight(s.workers);
  }

  lemma ConservedExit(s: State, w: nat)
    requires Conserved(s) && Enabled(s, Exit(w))
    ensures Conserved(Step(s, Exit(w)))
  {
    InFlightUpdate(s.workers, w, Exited);
    var nobody: multiset<Job> := multiset{};
    assert InFlight(s.workers[w := Exited]) == InFlight(s.workers[w := Exited]) + nobody;
    assert InFlight(s.workers) == InFlight(s.workers) + nobody;
  }

  lemma ConservedStep(s: State, e: Event)
    requires Conserved(s) && Enabled(s, e)
    ensures Conserved(Step(s, e))
  {
    match e
    case Enqueue(job, _) => assert s.taken + s.queue + [job] == s.taken + (s.queue + [job]);
    case Take(w) => ConservedTake(s, w);
    case Finish(w, o) => ConservedFinish(s, w, o);
    case Exit(w) => ConservedExit(s, w);
    case _ =>
  }

  /** The replay rows a step attempts. */
  function NewRecords(s: State, e: Event): seq<Record>
    requires Enabled(s, e)
  {
    match e
    case Enqueue(job, url) => if SelfTarget(s.ownPort, url) then [Record(job, RefusedSelf)] else []
    case RecordDrop(job) => [Record(job, DroppedFull)]
    case Finish(w, o) => DeliverRecord(s.workers[w].job, o)
    case _ => []
  }

  lemma AccountedStep(s: State, e: Event)
    requires Accounted(s) && Enabled(s, e)
    ensures Accounted(Step(s, e))
  {
    var added := NewRecords(s, e);
    assert s.records + [] == s.records;
    assert Step(s, e).records == s.records + added;
    CountConcat(s.records, added, DroppedFull);
    CountConcat(s.records, added, RefusedSelf);
    OneRecord(s, e);
  }

  lemma OneRecord(s: State, e: Event)
    requires Enabled(s, e)
    ensures Count(NewRecords(s, e), DroppedFull) == (if e.RecordDrop? then 1 else 0)
    ensures Count(NewRecords(s, e), RefusedSelf)
            == (if e.Enqueue? && SelfTarget(s.ownPort, e.url) then 1 else 0)
  {
    var added := NewRecords(s, e);
    if added != [] {
      assert added == [added[0]] && added[1..] == [];
    }
  }

  lemma StopsOnceStep(s: State, e: Event)
    requires StopsOnce(s) && Enabled(s, e)
    ensures StopsOnce(Step(s, e))
  {
    match e
    case StopCall => OnceRunnersAppend(s.callers, Step(s, e).callers[|s.callers|]);
    case CloseQuit(c) => OnceRunnersUpdate(s.callers, c, WaitsWorkers);
    case OnceReleased(c) => OnceRunnersUpdate(s.callers, c, WaitsWorkers);
    case StopReturn(c, _) =>
      OnceRunnersUpdate(s.callers, c, Returned);
      assert s.callers[c] in s.callers;
    case _ =>
  }

  lemma {:induction false} InvAlways(s: State, es: seq<Event>)
    requires Inv(s) && IsRun(s, es)
    ensures Inv(End(s, es))
    decreases |es|
  {
    if es != [] {
      ConservedStep(s, es[0]);
      AccountedStep(s, es[0]);
      StopsOnceStep(s, es[0]);
      InvAlways(Step(s, es[0]), es[1..]);
    }
  }

  /** Main result: conservation over every interleaving. `taken` being a prefix of
      `accepted` says no job is taken twice and takes follow acceptance order. */
  lemma ForwardingConserved(ownPort: string, workers: int, queueLen: int, es: seq<Event>)
    requires IsRun(NewService(ownPort, workers, queueLen), es)
    ensures var s := End(NewService(ownPort, workers, queueLen), es);
            && s.attempts == s.refused + s.dropped + |s.accepted|
            && |s.accepted| == |s.queue| + |InFlight(s.workers)| + |s.finished|
            && s.taken <= s.accepted
            && multiset(s.accepted) == multiset(s.queue) + InFlight(s.workers) + s.finished
            && |s.queue| <= s.capacity && |InFlight(s.workers)| <= |s.workers|
            && s.dropped == Count(s.records, DroppedFull) + |s.pendingDrops|
            && s.closes <= 1
  {
    InitialInv(ownPort, workers, queueLen);
    InvAlways(NewService(ownPort, workers, queueLen), es);
    InFlightBound(End(NewService(ownPort, workers, queueLen), es).workers);
  }

  // ---------------------------------------------------------------- what is accepted

  /** The jobs a run accepts, read off its events alone: `held` jobs wait at the start. */
  function AcceptedJobs(ownPort: string, capacity: nat, held: int, es: seq<Event>): seq<Job>
    decreases |es|
  {
    if es == [] then [] else
    match es[0]
    case Enqueue(job, url) =>
      if (url.Some? && LoopsBack(ownPort, url.value)) || held >= capacity
      then AcceptedJobs(ownPort, capacity, held, es[1..])
      else [job] + AcceptedJobs(ownPort, capacity, held + 1, es[1..])
    case Take(_) => AcceptedJobs(ownPort, capacity, held - 1, es[1..])
    case _ => AcceptedJobs(ownPort, capacity, held, es[1..])
  }

  /** The captures whose target loops back. */
  function Looping(ownPort: string, es: seq<Event>): nat
  {
    if es == [] then 0 else
    (if es[0].Enqueue? && es[0].url.Some? && LoopsBack(ownPort, es[0].url.value) then 1 else 0)
    + Looping(ownPort, es[1..])
  }

  function Captures(es: seq<Event>): nat
  {
    if es == [] then 0 else (if es[0].Enqueue? then 1 else 0) + Captures(es[1..])
  }

  lemma StepAccepts(s: State, e: Event)
    requires Enabled(s, e)
    ensures var t := Step(s, e);
            var loops := e.Enqueue? && e.url.Some? && LoopsBack(s.ownPort, e.url.value);
            var fits := e.Enqueue? && !loops && |s.queue| < s.capacity;
            && t.ownPort == s.ownPort && t.capacity == s.capacity
            && t.accepted == (if fits then s.accepted + [e.job] else s.accepted)
            && |t.queue| == |s.queue| + (if fits then 1 else if e.Take? then -1 else 0)
            && t.refused == s.refused + (if loops then 1 else 0)
            && t.attempts == s.attempts + (if e.Enqueue? then 1 else 0)
  {
    if e.Enqueue? { SelfTargetIff(s.ownPort, e.url); }
  }

  /** Main result: over every run what the pool accepts, refuses and drops is told by the
      events: a job gets in exactly when its target does not loop back and fewer than
      `capacity` accepted jobs wait. */
  lemma {:induction false} AcceptedExactly(s: State, es: seq<Event>)
    requires IsRun(s, es)
    ensures var t := End(s, es);
            && t.accepted == s.accepted + AcceptedJobs(s.ownPort, s.capacity, |s.queue|, es)
            && t.refused == s.refused + Looping(s.ownPort, es)
            && t.attempts == s.attempts + Captures(es)
    decreases |es|
  {
    if es == [] {
      assert s.accepted + [] == s.accepted;
    } else {
      var t := Step(s, es[0]);
      StepAccepts(s, es[0]);
      AcceptedExactly(t, es[1..]);
      var rest := AcceptedJobs(t.ownPort, t.capacity, |t.queue|, es[1..]);
      if t.accepted != s.accepted {
        assert s.accepted + [es[0].job] + rest == s.accepted + ([es[0].job] + rest);
      }
    }
  }

  lemma {:induction false} AcceptedCame(ownPort: string, capacity: nat, held: int, es: seq<Event>, job: Job)
    returns (i: nat)
    requires job in AcceptedJobs(ownPort, capacity, held, es)
    ensures i < |es| && es[i].Enqueue? && es[i].job == job
    ensures es[i].url.Some? ==> !LoopsBack(ownPort, es[i].url.value)
    decreases |es|
  {
    var e := es[0];
    var loops := e.Enqueue? && e.url.Some? && LoopsBack(ownPort, e.url.value);
    if e.Enqueue? && !loops && held < capacity && e.job == job {
      i := 0;
    } else {
      var rest := if e.Take? then held - 1 else if e.Enqueue? && !loops && held < capacity then held + 1 else held;
      i := AcceptedCame(ownPort, capacity, rest, es[1..], job);
      i := i + 1;
    }
  }

  /** So no job ever queued, taken or delivered was one whose every capture loops back. */
  lemma NoLoopAccepted(ownPort: string, workers: int, queueLen: int, es: seq<Event>, job: Job) returns (i: nat)
    requires IsRun(NewService(ownPort, workers, queueLen), es)
    requires job in End(NewService(ownPort, workers, queueLen), es).accepted
    ensures i < |es| && es[i].Enqueue? && es[i].job == job
    ensures es[i].url.Some? ==> !LoopsBack(ownPort, es[i].url.value)
  {
    var s := NewService(ownPort, workers, queueLen);
    AcceptedExactly(s, es);
    i := AcceptedCame(ownPort, s.capacity, 0, es, job);
  }

  /** A delivery that ends leaves one row for its job, telling how it ended, and none if the
      request row is gone. */
  lemma FinishLeavesRow(s: State, w: nat, o: Outcome)
    requires Enabled(s, Finish(w, o))
    ensures var t, job := Step(s, Finish(w, o)), s.workers[w].job;
            if o == RequestMissing then t.records == s.records else
              && |t.records| == |s.records| + 1 && t.records[..|s.records|] == s.records
              && var last := t.records[|s.records|];
                 && last.job == job && last.note.Attempt?
                 && last.note.status == (if o.Answered? then o.status else 0)
                 && last.note.latencyMs == (if o.Answered? || o.TransportError? then o.latencyMs else 0)
                 && last.note.error == (if o.Answered? then "" else if o == SsrfBlocked
                                        then "blocked: SSRF guard (metadata host)" else o.error)
  {
  }

  // ---------------------------------------------------------------- draining

  predicate NoEnqueue(es: seq<Event>) { forall e | e in es :: !e.Enqueue? }

  lemma {:induction false} QueueOnlyShrinks(s: State, es: seq<Event>)
    requires IsRun(s, es) && NoEnqueue(es)
    ensures End(s, es).accepted == s.accepted
    ensures |End(s, es).queue| <= |s.queue|
    decreases |es|
  {
    if es != [] {
      assert es[0] in es;
      assert forall e | e in es[1..] :: e in es;
      QueueOnlyShrinks(Step(s, es[0]), es[1..]);
    }
  }

  /** Main result: once every worker has exited, the undelivered jobs are exactly those
      left in the queue; and if the drain loop saw an empty queue and nothing was
      enqueued since, every accepted job was delivered exactly once. */
  lemma DrainOnStop(s: State, drain: Event, es: seq<Event>)
    requires Inv(s) && drain.DrainLoopExit? && Enabled(s, drain)
    requires IsRun(Step(s, drain), es) && AllExited(End(Step(s, drain), es).workers)
    ensures var t := End(Step(s, drain), es);
            && multiset(t.accepted) == t.finished + multiset(t.queue)
            && (s.queue == [] && NoEnqueue(es) ==> multiset(s.accepted) == t.finished)
  {
    InvAlways(s, [drain] + es);
    assert ([drain] + es)[1..] == es;
    var t := End(Step(s, drain), es);
    InFlightBound(t.workers);
    if NoEnqueue(es) {
      QueueOnlyShrinks(Step(s, drain), es);
    }
  }

  /** A timed-out drain loses an accepted job: the bound on `timeout` is not idle. */
  lemma TimedOutDrainLosesJob(job: Job, url: Option<Url>)
    requires !SelfTarget("8080", url)
    ensures exists es: seq<Event> ::
              && IsRun(NewService("8080", 1, 1), es)
              && var t := End(NewService("8080", 1, 1), es);
                 AllExited(t.workers) && t.accepted == [job] && t.finished == multiset{}
  {
    var s0 := NewService("8080", 1, 1);
    var e0, e1, e2, e3, e4 := Enqueue(job, url), StopCall, DrainLoopExit(true), CloseQuit(0), Exit(0);
    var es := [e0, e1, e2, e3, e4];
    assert s0.workers == [Idle];
    var s1 := Step(s0, e0);
    assert s1.queue == [job] && s1.accepted == [job];
    var s2 := Step(s1, e1);
    assert s2.callers == [RunsOnce];
    var s3 := Step(s2, e2);
    var s4 := Step(s3, e3);
    var s5 := Step(s4, e4);
    RunCons(s4, e4, []);
    RunCons(s3, e3, [e4] + []);
    RunCons(s2, e2, [e3] + ([e4] + []));
    RunCons(s1, e1, [e2] + ([e3] + ([e4] + [])));
    RunCons(s0, e0, [e1] + ([e2] + ([e3] + ([e4] + []))));
    assert es == [e0] + ([e1] + ([e2] + ([e3] + ([e4] + []))));
    assert IsRun(s0, es) && End(s0, es) == s5;
  }

  lemma RunCons(s: State, e: Event, es: seq<Event>)
    requires Enabled(s, e) && IsRun(Step(s, e), es)
    ensures IsRun(s, [e] + es) && End(s, [e] + es) == End(Step(s, e), es)
  {
    assert ([e] + es)[1..] == es;
  }

  /** The steps of the workers that leave after quit: busy ones finish first. */
  lemma {:induction false} LeaveAll(s: State) returns (es: seq<Event>)
    requires s.quit
    ensures IsRun(s, es) && NoEnqueue(es)
    ensures AllExited(End(s, es).workers) && End(s, es).queue == s.queue && End(s, es).callers == s.callers
    decreases Load(s.workers)
  {
    if AllExited(s.workers) {
      es := [];
    } else {
      var w :| 0 <= w < |s.workers| && s.workers[w] != Exited;
      var e := if s.workers[w] == Idle then Exit(w) else Finish(w, SsrfBlocked);
      LoadUpdate(s.workers, w, if s.workers[w] == Idle then Exited else Idle);
      var rest := LeaveAll(Step(s, e));
      RunCons(s, e, rest);
      es := [e] + rest;
    }
  }

  lemma {:induction false} SomeRunner(cs: seq<Caller>) returns (c: nat)
    requires OnceRunners(cs) > 0
    ensures c < |cs| && cs[c] == RunsOnce
  {
    if cs[0] == RunsOnce {
      c := 0;
    } else {
      c := SomeRunner(cs[1..]);
      c := c + 1;
    }
  }

  /** From the moment the drain loop gives up, quit can close and the workers leave with the
      queue as it is, and then a Stop call returns. */
  lemma LeaveQueue(s: State) returns (es: seq<Event>, c: nat)
    requires Inv(s) && s.phase == Closing
    ensures IsRun(s, es) && NoEnqueue(es)
    ensures AllExited(End(s, es).workers) && End(s, es).queue == s.queue
    ensures Enabled(End(s, es), StopReturn(c, false))
  {
    c := SomeRunner(s.callers);
    var rest := LeaveAll(Step(s, CloseQuit(c)));
    RunCons(s, CloseQuit(c), rest);
    es := [CloseQuit(c)] + rest;
  }

  /** Every way the pool can come to rest after this step, without further captures, has
      delivered every accepted job exactly once. */
  ghost predicate DeliversAll(s: State, drain: Event)
    requires Enabled(s, drain)
  {
    forall es | IsRun(Step(s, drain), es) && NoEnqueue(es) && AllExited(End(Step(s, drain), es).workers) ::
      multiset(s.accepted) == End(Step(s, drain), es).finished
  }

  /** Once the workers are gone: drained if and only if the queue was empty when the loop gave
      up. Whether they are gone when Stop returns is the question below. */
  lemma DrainDeliversIff(s: State, drain: Event)
    requires Inv(s) && drain.DrainLoopExit? && Enabled(s, drain)
    ensures DeliversAll(s, drain) <==> s.queue == []
  {
    if s.queue == [] {
      forall es | IsRun(Step(s, drain), es) && NoEnqueue(es) && AllExited(End(Step(s, drain), es).workers)
        ensures multiset(s.accepted) == End(Step(s, drain), es).finished
      {
        DrainOnStop(s, drain, es);
      }
    } else {
      var t := Step(s, drain);
      StopsOnceStep(s, drain);
      var es, _ := LeaveQueue(t);
      DrainOnStop(s, drain, es);
      QueueOnlyShrinks(t, es);
      assert |multiset(s.queue)| > 0 && End(t, es).accepted == s.accepted;
    }
  }

  /** Whatever happens after this step, every job accepted before it has been delivered when a
      Stop call returns: because all workers are gone, or because its second wait timed out.
      Without further captures each has been delivered exactly once. */
  ghost predicate DeliversBeforeReturn(s: State, drain: Event, timedOut: bool)
    requires Enabled(s, drain)
  {
    forall es, c | IsRun(Step(s, drain), es) && Enabled(End(Step(s, drain), es), StopReturn(c, timedOut)) ::
      && multiset(s.accepted) <= End(Step(s, drain), es).finished
      && (NoEnqueue(es) ==> multiset(s.accepted) == End(Step(s, drain), es).finished)
  }

  lemma {:induction false} Grows(s: State, es: seq<Event>)
    requires IsRun(s, es)
    ensures s.taken <= End(s, es).taken && s.finished <= End(s, es).finished
    decreases |es|
  {
    if es != [] {
      Grows(Step(s, es[0]), es[1..]);
    }
  }

  lemma PrefixBag(a: seq<Job>, b: seq<Job>)
    requires a <= b
    ensures multiset(a) <= multiset(b)
  {
    assert b == a + b[|a|..];
  }

  /** What was delivered at least once without further captures was delivered exactly once. */
  lemma NoneTwice(s: State, es: seq<Event>)
    requires Inv(s) && IsRun(s, es) && multiset(s.accepted) <= End(s, es).finished
    ensures NoEnqueue(es) ==> multiset(s.accepted) == End(s, es).finished
  {
    InvAlways(s, es);
    if NoEnqueue(es) {
      var t := End(s, es);
      QueueOnlyShrinks(s, es);
      var held := multiset(t.queue) + InFlight(t.workers);
      assert multiset(s.accepted) == held + t.finished;
      assert |held + t.finished| == |held| + |t.finished|;
      SubBag(multiset(s.accepted), t.finished);
    }
  }

  lemma SubBag(a: multiset<Job>, b: multiset<Job>)
    requires a <= b
    ensures |a| == |b| - |b - a| && (|b - a| == 0 ==> a == b)
  {
    assert b == a + (b - a);
  }

  /** An empty queue and no worker left: all that was ever accepted before is delivered. */
  lemma GoneMeansDelivered(s: State, es: seq<Event>)
    requires Inv(s) && s.queue == [] && IsRun(s, es) && AllExited(End(s, es).workers)
    ensures multiset(s.accepted) <= End(s, es).finished
  {
    InvAlways(s, es);
    InFlightBound(End(s, es).workers);
    Grows(s, es);
    PrefixBag(s.taken, End(s, es).taken);
    assert s.taken + [] == s.taken;
  }

  /** Otherwise the workers can leave the queue behind. */
  lemma QueueLeftBehind(s: State) returns (es: seq<Event>, c: nat)
    requires Inv(s) && s.phase == Closing && s.queue != []
    ensures IsRun(s, es) && NoEnqueue(es) && Enabled(End(s, es), StopReturn(c, false))
    ensures multiset(s.accepted) != End(s, es).finished
  {
    es, c := LeaveQueue(s);
    InvAlways(s, es);
    InFlightBound(End(s, es).workers);
    QueueOnlyShrinks(s, es);
    QueueBag(s.queue);
    assert multiset(s.accepted) == multiset(s.queue) + End(s, es).finished;
  }

  /** Main result: a Stop that waits for its workers has drained if and only if the queue was
      empty when its loop gave up. */
  lemma WaitedReturnDeliversIff(s: State, drain: Event)
    requires Inv(s) && drain.DrainLoopExit? && Enabled(s, drain)
    ensures DeliversBeforeReturn(s, drain, false) <==> s.queue == []
  {
    var t := Step(s, drain);
    StopsOnceStep(s, drain);
    if s.queue == [] {
      forall es | IsRun(t, es) && AllExited(End(t, es).workers)
        ensures multiset(s.accepted) <= End(t, es).finished
        ensures NoEnqueue(es) ==> multiset(s.accepted) == End(t, es).finished
      {
        GoneMeansDelivered(t, es);
        NoneTwice(t, es);
      }
    } else {
      var es, c := QueueLeftBehind(t);
    }
  }

  /** So a Stop whose drain loop does not run out of time and that waits for its workers
      delivers everything accepted before. */
  lemma PatientStopDelivers(s: State)
    requires Inv(s) && Enabled(s, DrainLoopExit(false))
    ensures DeliversBeforeReturn(s, DrainLoopExit(false), false)
  {
    WaitedReturnDeliversIff(s, DrainLoopExit(false));
  }

  /** quit closes and the Stop call gives up at once. */
  lemma ReturnAtOnce(s: State) returns (es: seq<Event>, c: nat)
    requires Inv(s) && s.phase == Closing
    ensures IsRun(s, es) && NoEnqueue(es) && Enabled(End(s, es), StopReturn(c, true))
    ensures End(s, es).finished == s.finished
  {
    c := SomeRunner(s.callers);
    RunCons(s, CloseQuit(c), []);
    es := [CloseQuit(c)] + [];
  }

  /** Main result: a Stop whose second wait may time out too has drained, whatever the workers
      do, if and only if its loop gave up with the queue empty and no delivery in flight. */
  lemma TimedReturnDeliversIff(s: State, drain: Event)
    requires Inv(s) && drain.DrainLoopExit? && Enabled(s, drain)
    ensures DeliversBeforeReturn(s, drain, true) <==> s.queue == [] && InFlight(s.workers) == multiset{}
  {
    var t := Step(s, drain);
    StopsOnceStep(s, drain);
    if s.queue == [] && InFlight(s.workers) == multiset{} {
      forall es, c | IsRun(t, es) && Enabled(End(t, es), StopReturn(c, true))
        ensures multiset(s.accepted) <= End(t, es).finished
        ensures NoEnqueue(es) ==> multiset(s.accepted) == End(t, es).finished
      {
        Grows(t, es);
        NoneTwice(t, es);
      }
    } else {
      var es, c := ReturnAtOnce(t);
      assert multiset(s.accepted) == multiset(s.queue) + InFlight(s.workers) + s.finished;
      QueueBag(s.queue);
      if multiset(s.accepted) == End(t, es).finished {
        NothingLeft(multiset(s.queue), InFlight(s.workers), s.finished);
      }
    }
  }

  lemma QueueBag(q: seq<Job>)
    ensures multiset(q) == multiset{} <==> q == []
  {
    assert |multiset(q)| == |q|;
  }

  lemma NothingLeft(a: multiset<Job>, b: multiset<Job>, c: multiset<Job>)
    requires a + b + c == c
    ensures a == multiset{} && b == multiset{}
  {
    assert |a + b + c| == |a| + |b| + |c|;
  }

  /** One pool, its one accepted job taken. */
  function Delivering(job: Job): State
  {
    NewService("8080", 1, 1).(workers := [Busy(job)], attempts := 1, accepted := [job], taken := [job])
  }

  lemma JobTaken(job: Job, url: Option<Url>, es: seq<Event>)
    requires !SelfTarget("8080", url) && IsRun(Delivering(job), es)
    ensures var all := [Enqueue(job, url)] + ([Take(0)] + es);
            IsRun(NewService("8080", 1, 1), all) && End(NewService("8080", 1, 1), all) == End(Delivering(job), es)
  {
    var s0 := NewService("8080", 1, 1);
    assert s0.workers == [Idle];
    var s1 := Step(s0, Enqueue(job, url));
    assert s1.queue == [job] && s1.queue[1..] == [] && [Idle][0 := Busy(job)] == [Busy(job)];
    assert Step(s1, Take(0)) == Delivering(job);
    RunCons(s1, Take(0), es);
    RunCons(s0, Enqueue(job, url), [Take(0)] + es);
  }

  lemma StopWhileDelivering(job: Job) returns (es: seq<Event>)
    ensures IsRun(Delivering(job), es)
    ensures var t := End(Delivering(job), es);
            t.callers == [Returned] && t.accepted == [job] && t.queue == [] && t.finished == multiset{}
  {
    var s0 := Delivering(job);
    var s1 := Step(s0, StopCall);
    assert s1.callers == [RunsOnce];
    var s2 := Step(s1, DrainLoopExit(false));
    var s3 := Step(s2, CloseQuit(0));
    RunCons(s3, StopReturn(0, true), []);
    RunCons(s2, CloseQuit(0), [StopReturn(0, true)] + []);
    RunCons(s1, DrainLoopExit(false), [CloseQuit(0)] + ([StopReturn(0, true)] + []));
    es := [DrainLoopExit(false)] + ([CloseQuit(0)] + ([StopReturn(0, true)] + []));
    RunCons(s0, StopCall, es);
    es := [StopCall] + es;
  }

  /** The drain sees an empty queue, the second wait times out, and Stop returns with the one
      accepted job still in flight. */
  lemma BusyReturnLosesJob(job: Job, url: Option<Url>) returns (es: seq<Event>)
    requires !SelfTarget("8080", url)
    ensures IsRun(NewService("8080", 1, 1), es)
    ensures var t := End(NewService("8080", 1, 1), es);
            t.callers == [Returned] && t.accepted == [job] && t.queue == [] && t.finished == multiset{}
  {
    es := StopWhileDelivering(job);
    JobTaken(job, url, es);
    es := [Enqueue(job, url)] + ([Take(0)] + es);
  }

  // ---------------------------------------------------------------- termination

  function Weight(w: Worker): nat { match w case Idle => 1 case Busy(_) => 2 case Exited => 0 }

  function Load(ws: seq<Worker>): nat
  {
    if ws == [] then 0 else Weight(ws[0]) + Load(ws[1..])
  }

  lemma {:induction false} LoadUpdate(ws: seq<Worker>, i: nat, w: Worker)
    requires i < |ws|
    ensures Load(ws[i := w]) + Weight(ws[i]) == Load(ws) + Weight(w)
  {
    if i > 0 {
      LoadUpdate(ws[1..], i - 1, w);
      assert ws[i := w][1..] == ws[1..][i - 1 := w];
    } else {
      assert ws[i := w][1..] == ws[1..];
    }
  }

  lemma {:induction false} LoadZero(ws: seq<Worker>)
    ensures Load(ws) == 0 <==> AllExited(ws)
  {
    if ws != [] {
      LoadZero(ws[1..]);
      assert AllExited(ws) <==> ws[0] == Exited && AllExited(ws[1..]) by {
        if ws[0] == Exited && AllExited(ws[1..]) {
          forall i | 0 <= i < |ws| ensures ws[i] == Exited {
            assert i > 0 ==> ws[i] == ws[1..][i - 1];
          }
        }
      }
    }
  }

  /** Work left: two steps per queued job, plus the steps each worker still has. */
  function Measure(s: State): nat { 2 * |s.queue| + Load(s.workers) }

  predicate WorkerStep(e: Event) { e.Take? || e.Finish? || e.Exit? }

  function WorkerSteps(es: seq<Event>): nat
  {
    if es == [] then 0 else (if WorkerStep(es[0]) then 1 else 0) + WorkerSteps(es[1..])
  }

  /** Once no capture arrives, the workers take at most `Measure` more steps. */
  lemma {:induction false} WorkersRunOut(s: State, es: seq<Event>)
    requires IsRun(s, es) && NoEnqueue(es)
    ensures WorkerSteps(es) + Measure(End(s, es)) == Measure(s)
    decreases |es|
  {
    if es != [] {
      var e := es[0];
      assert e in es;
      assert forall d | d in es[1..] :: d in es;
      match e {
        case Take(w) => LoadUpdate(s.workers, w, Busy(s.queue[0]));
        case Finish(w, _) => LoadUpdate(s.workers, w, Idle);
        case Exit(w) => LoadUpdate(s.workers, w, Exited);
        case _ =>
      }
      WorkersRunOut(Step(s, e), es[1..]);
    }
  }

  /** After quit the pool is never stuck: some worker can step until all have exited. */
  lemma WorkersNeverStuck(s: State, o: Outcome)
    requires s.quit && !AllExited(s.workers)
    ensures exists w | 0 <= w < |s.workers| :: Enabled(s, Exit(w)) || Enabled(s, Finish(w, o))
  {
    var w :| 0 <= w < |s.workers| && s.workers[w] != Exited;
    assert Enabled(s, Exit(w)) || Enabled(s, Finish(w, o));
  }
}
