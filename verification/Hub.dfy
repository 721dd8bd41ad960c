/** The notification hub (Hub in internal/capture/capture.go): one bounded channel per
    subscriber, non-blocking sends, and a drop counter that wraps at 64 bits. */
module Hub {
  import opened Text

  datatype Note = Note(endpoint: string, id: string)

  const CAPACITY: nat := 16

  /** The uint64 the counter is kept in. */
  function Wrapped(n: nat): (w: nat)
    ensures w <= 0xFFFF_FFFF_FFFF_FFFF
    ensures n <= 0xFFFF_FFFF_FFFF_FFFF ==> w == n
  {
    n % 0x1_0000_0000_0000_0000
  }

  lemma WrappedSum(a: nat, b: nat)
    ensures Wrapped(Wrapped(a) + b) == Wrapped(a + b)
  {
  }

  predicate Wants(filter: string, n: Note) { filter == "" || filter == n.endpoint }

  /** Channels are numbered; `subs` gives each subscribed channel its filter and `buffers`
      what each channel ever made still holds. */
  datatype State = State(subs: map<nat, string>, buffers: map<nat, seq<Note>>, drops: nat)

  ghost predicate Valid(s: State)
  {
    s.subs.Keys <= s.buffers.Keys && s.drops <= 0xFFFF_FFFF_FFFF_FFFF
  }

  predicate Takes(s: State, n: Note, c: nat)
  {
    c in s.subs && Wants(s.subs[c], n) && c in s.buffers && |s.buffers[c]| < CAPACITY
  }

  /** The subscribers whose buffer has no room for a note they want. */
  function Full(s: State, n: Note): set<nat>
  {
    set c | c in s.subs && Wants(s.subs[c], n) && c in s.buffers && |s.buffers[c]| >= CAPACITY
  }

  function Broadcasted(s: State, n: Note): State
  {
    s.(buffers := map c | c in s.buffers :: if Takes(s, n, c) then s.buffers[c] + [n] else s.buffers[c],
       drops := Wrapped(s.drops + |Full(s, n)|))
  }

  function Subscribed(s: State, c: nat, filter: string): State
  {
    s.(subs := s.subs[c := filter], buffers := s.buffers[c := []])
  }

  /** The hub itself; the loop of a broadcast visits the subscribers in any order. */
  class Hub {
    var subs: map<nat, string>
    var buffers: map<nat, seq<Note>>
    var drops: nat
    var next: nat

    ghost predicate Ready()
      reads this
    {
      Valid(View()) && forall c | c in buffers :: c < next
    }

    function View(): State
      reads this
    {
      State(subs, buffers, drops)
    }

    constructor ()
      ensures Ready() && View() == State(map[], map[], 0)
    {
      subs, buffers, drops, next := map[], map[], 0, 0;
    }

    method Broadcast(endpoint: string, id: string)
      requires Ready()
      modifies this
      ensures Ready()
      ensures View() == Broadcasted(old(View()), Note(endpoint, id))
    {
      ghost var before, n := View(), Note(endpoint, id);
      ghost var done: set<nat> := {};
      PartialNone(before, n);
      var todo := subs.Keys;
      while todo != {}
        invariant todo !! done && todo + done == before.subs.Keys
        invariant View() == Partial(before, n, done) && next == old(next)
        decreases todo
      {
        var c :| c in todo;
        PartialStep(before, n, done, c);
        MoveOne(todo, done, c);
        Offer(c, endpoint, id);
        todo, done := todo - {c}, done + {c};
      }
      PartialAll(before, n, done);
    }

    /** The non-blocking send to one subscriber. */
    method Offer(c: nat, endpoint: string, id: string)
      requires c in subs && c in buffers
      modifies this
      ensures View() == Visit(old(View()), Note(endpoint, id), c) && next == old(next)
    {
      if subs[c] != "" && subs[c] != endpoint { return; }
      if |buffers[c]| < CAPACITY {
        buffers := buffers[c := buffers[c] + [Note(endpoint, id)]];
      } else {
        drops := Wrapped(drops + 1);
      }
    }

    method Subscribe(slug: string) returns (ch: nat)
      requires Ready()
      modifies this
      ensures Ready() && ch !in old(buffers)
      ensures View() == Subscribed(old(View()), ch, slug)
    {
      ch := next;
      next := next + 1;
      subs, buffers := subs[ch := slug], buffers[ch := []];
    }

    method Unsubscribe(ch: nat)
      requires Ready()
      modifies this
      ensures Ready() && View() == old(View()).(subs := old(subs) - {ch})
    {
      subs := subs - {ch};
    }
  }

  lemma MoveOne(todo: set<nat>, done: set<nat>, c: nat)
    requires c in todo && todo !! done
    ensures todo - {c} !! done + {c} && (todo - {c}) + (done + {c}) == todo + done
  {
  }

  /** One turn of the loop: the select on subscriber c's channel. */
  function Visit(s: State, n: Note, c: nat): State
    requires c in s.subs && c in s.buffers
  {
    if !Wants(s.subs[c], n) then s
    else if |s.buffers[c]| < CAPACITY then s.(buffers := s.buffers[c := s.buffers[c] + [n]])
    else s.(drops := Wrapped(s.drops + 1))
  }

  /** The state once the subscribers in `done` have been visited. */
  function Partial(s: State, n: Note, done: set<nat>): (p: State)
    ensures p.subs == s.subs && p.buffers.Keys == s.buffers.Keys
  {
    s.(buffers := PartialBuffers(s, n, done), drops := Wrapped(s.drops + |Full(s, n) * done|))
  }

  function PartialBuffers(s: State, n: Note, done: set<nat>): map<nat, seq<Note>>
  {
    map c | c in s.buffers :: if c in done && Takes(s, n, c) then s.buffers[c] + [n] else s.buffers[c]
  }

  lemma PartialNone(s: State, n: Note)
    requires Valid(s)
    ensures Partial(s, n, {}) == s
  {
    BuffersEnds(s, n);
    assert Full(s, n) * {} == {};
  }

  lemma PartialAll(s: State, n: Note, done: set<nat>)
    requires done == s.subs.Keys
    ensures Partial(s, n, done) == Broadcasted(s, n)
  {
    BuffersEnds(s, n);
    assert Full(s, n) * done == Full(s, n);
  }

  lemma BuffersEnds(s: State, n: Note)
    ensures PartialBuffers(s, n, {}) == s.buffers
    ensures PartialBuffers(s, n, s.subs.Keys) == Broadcasted(s, n).buffers
  {
  }

  lemma PartialStep(s: State, n: Note, done: set<nat>, c: nat)
    requires Valid(s) && c in s.subs && c !in done
    ensures Partial(s, n, done + {c}) == Visit(Partial(s, n, done), n, c)
  {
    FullStep(s, n, done, c);
    BuffersStep(s, n, done, c);
    WrappedSum(s.drops + |Full(s, n) * done|, 1);
  }

  lemma FullStep(s: State, n: Note, done: set<nat>, c: nat)
    requires c !in done
    ensures |Full(s, n) * (done + {c})| == |Full(s, n) * done| + (if c in Full(s, n) then 1 else 0)
  {
    assert Full(s, n) * (done + {c}) == Full(s, n) * done + (if c in Full(s, n) then {c} else {});
  }

  lemma BuffersStep(s: State, n: Note, done: set<nat>, c: nat)
    requires Valid(s) && c in s.subs && c !in done
    ensures PartialBuffers(s, n, done)[c] == s.buffers[c]
    ensures PartialBuffers(s, n, done + {c})
            == if Takes(s, n, c) then PartialBuffers(s, n, done)[c := s.buffers[c] + [n]]
               else PartialBuffers(s, n, done)
  {
  }

  /** A broadcast in plain terms: the note goes to every subscriber of its endpoint or of all
      whose channel holds fewer than 16, and the counter counts those whose channel is full. */
  lemma BroadcastMeans(s: State, n: Note)
    requires Valid(s)
    ensures var t := Broadcasted(s, n);
            && t.subs == s.subs && t.buffers.Keys == s.buffers.Keys
            && (forall c | c in s.buffers ::
                  t.buffers[c] == if c in s.subs && s.subs[c] in {"", n.endpoint} && |s.buffers[c]| < 16
                                  then s.buffers[c] + [n] else s.buffers[c])
            && t.drops == (s.drops + |set c | c in s.subs && s.subs[c] in {"", n.endpoint} && |s.buffers[c]| >= 16|)
                          % 18446744073709551616
  {
    assert Full(s, n) == set c | c in s.subs && s.subs[c] in {"", n.endpoint} && |s.buffers[c]| >= 16;
  }

  // ---------------------------------------------------------------- runs

  datatype Event = Send(note: Note) | Join(c: nat, filter: string) | Leave(c: nat) | Read(c: nat)

  predicate Enabled(s: State, e: Event)
  {
    match e
    case Send(_) => true
    case Join(c, _) => c !in s.buffers
    case Leave(c) => c in s.buffers
    case Read(c) => c in s.buffers && s.buffers[c] != []
  }

  function Step(s: State, e: Event): State
    requires Enabled(s, e)
  {
    match e
    case Send(n) => Broadcasted(s, n)
    case Join(c, filter) => Subscribed(s, c, filter)
    case Leave(c) => s.(subs := s.subs - {c})
    case Read(c) => s.(buffers := s.buffers[c := s.buffers[c][1..]])
  }

  predicate IsRun(es: seq<Event>)
    decreases |es|, 0
  {
    es == [] || (IsRun(es[..|es| - 1]) && Enabled(End(es[..|es| - 1]), es[|es| - 1]))
  }

  function End(es: seq<Event>): State
    requires IsRun(es)
    decreases |es|, 1
  {
    if es == [] then State(map[], map[], 0) else Step(End(es[..|es| - 1]), es[|es| - 1])
  }

  // ---------------------------------------------------------------- one subscriber alone

  /** All one subscriber can observe, and the notes it was offered while subscribed. */
  datatype Sub = Sub(filter: string, live: bool, buffer: seq<Note>, read: seq<Note>, offered: seq<Note>, dropped: nat)
  datatype Alone = Nobody | Someone(sub: Sub)

  function SubStep(x: Alone, e: Event, c: nat): Alone
  {
    match e
    case Join(d, filter) => if d == c then Someone(Sub(filter, true, [], [], [], 0)) else x
    case Leave(d) => if d == c && x.Someone? then Someone(x.sub.(live := false)) else x
    case Read(d) =>
      if d == c && x.Someone? && x.sub.buffer != []
      then Someone(x.sub.(buffer := x.sub.buffer[1..], read := x.sub.read + [x.sub.buffer[0]])) else x
    case Send(n) =>
      if x.Nobody? || !x.sub.live || !Wants(x.sub.filter, n) then x
      else if |x.sub.buffer| < CAPACITY
      then Someone(x.sub.(offered := x.sub.offered + [n], buffer := x.sub.buffer + [n]))
      else Someone(x.sub.(offered := x.sub.offered + [n], dropped := x.sub.dropped + 1))
  }

  /** The subscriber's fate computed from its own events and the broadcasts alone. */
  function Solo(es: seq<Event>, c: nat): Alone
  {
    if es == [] then Nobody else SubStep(Solo(es[..|es| - 1], c), es[|es| - 1], c)
  }

  ghost predicate Agrees(s: State, x: Alone, c: nat)
  {
    match x
    case Nobody => c !in s.subs && c !in s.buffers
    case Someone(sub) =>
      && c in s.buffers && s.buffers[c] == sub.buffer
      && (c in s.subs <==> sub.live) && (sub.live ==> s.subs[c] == sub.filter)
  }

  /** Main result: what a subscriber gets does not depend on the others, slow or not. */
  lemma {:induction false} Isolation(es: seq<Event>, c: nat)
    requires IsRun(es)
    ensures Agrees(End(es), Solo(es, c), c)
  {
    if es != [] {
      Isolation(es[..|es| - 1], c);
    }
  }

  ghost predicate Subsequence(a: seq<Note>, b: seq<Note>)
  {
    if a == [] then true
    else if b == [] then false
    else
      var a', b' := a[..|a| - 1], b[..|b| - 1];
      Subsequence(a, b') || (a[|a| - 1] == b[|b| - 1] && Subsequence(a', b'))
  }

  lemma SubsequenceGrows(a: seq<Note>, b: seq<Note>, n: Note)
    requires Subsequence(a, b)
    ensures Subsequence(a, b + [n]) && Subsequence(a + [n], b + [n])
  {
    assert (b + [n])[..|b|] == b && (a + [n])[..|a|] == a;
  }

  /** Everything offered was read, waits in the buffer, or was dropped; what got through is
      in order. */
  ghost predicate Delivered(sub: Sub)
  {
    && Subsequence(sub.read + sub.buffer, sub.offered)
    && |sub.offered| == |sub.read| + |sub.buffer| + sub.dropped
    && |sub.buffer| <= CAPACITY
  }

  lemma DeliveredStep(x: Alone, e: Event, c: nat)
    requires x.Someone? ==> Delivered(x.sub)
    ensures SubStep(x, e, c).Someone? ==> Delivered(SubStep(x, e, c).sub)
  {
    if x.Someone? {
      var s := x.sub;
      match e
      case Send(n) =>
        SubsequenceGrows(s.read + s.buffer, s.offered, n);
        assert s.read + s.buffer + [n] == s.read + (s.buffer + [n]);
      case Read(_) =>
        if s.buffer != [] {
          assert s.read + [s.buffer[0]] + s.buffer[1..] == s.read + s.buffer;
        }
      case _ =>
    }
  }

  /** Main result: fan-out accounting for every subscriber over every run. */
  lemma {:induction false} FanOut(es: seq<Event>, c: nat)
    ensures Solo(es, c).Someone? ==> Delivered(Solo(es, c).sub)
  {
    if es != [] {
      FanOut(es[..|es| - 1], c);
      DeliveredStep(Solo(es[..|es| - 1], c), es[|es| - 1], c);
    }
  }

  /** After leaving, a channel only drains. */
  lemma {:induction false} SilentAfterLeave(es: seq<Event>, later: seq<Event>, c: nat)
    requires IsRun(es + later) && Solo(es, c).Someone? && !Solo(es, c).sub.live
    ensures var x, y := Solo(es, c), Solo(es + later, c);
            && y.Someone? && !y.sub.live && y.sub.offered == x.sub.offered
            && y.sub.read + y.sub.buffer == x.sub.read + x.sub.buffer
    decreases |later|
  {
    if later == [] {
      assert es + later == es;
    } else {
      var n := |later| - 1;
      assert (es + later)[..|es + later| - 1] == es + later[..n];
      SilentAfterLeave(es, later[..n], c);
      Isolation(es + later[..n], c);
      var s := Solo(es + later[..n], c).sub;
      if s.buffer != [] {
        assert s.read + [s.buffer[0]] + s.buffer[1..] == s.read + s.buffer;
      }
    }
  }

  // ---------------------------------------------------------------- who is sent what

  /** The filter of a channel's subscription, read off the events: none before it joins and
      after it leaves. */
  function Listening(es: seq<Event>, c: nat): Option<string>
  {
    if es == [] then None else
    match es[|es| - 1]
    case Join(d, filter) => if d == c then Some(filter) else Listening(es[..|es| - 1], c)
    case Leave(d) => if d == c then None else Listening(es[..|es| - 1], c)
    case _ => Listening(es[..|es| - 1], c)
  }

  /** The notes broadcast between a channel's joining and leaving for the endpoint it joined,
      or for any endpoint where it joined with "". */
  function Matching(es: seq<Event>, c: nat): seq<Note>
  {
    if es == [] then [] else
    var prev := es[..|es| - 1];
    match es[|es| - 1]
    case Join(d, _) => if d == c then [] else Matching(prev, c)
    case Send(n) =>
      if Listening(prev, c) == Some("") || Listening(prev, c) == Some(n.endpoint)
      then Matching(prev, c) + [n] else Matching(prev, c)
    case _ => Matching(prev, c)
  }

  /** What a channel's reader took out of it. */
  function Got(es: seq<Event>, c: nat): seq<Note>
    requires IsRun(es)
  {
    if es == [] then [] else
    var prev := es[..|es| - 1];
    match es[|es| - 1]
    case Join(d, _) => if d == c then [] else Got(prev, c)
    case Read(d) => if d == c then Got(prev, c) + [End(prev).buffers[c][0]] else Got(prev, c)
    case _ => Got(prev, c)
  }

  lemma {:induction false} OfferedIsMatching(es: seq<Event>, c: nat)
    ensures match Solo(es, c)
            case Nobody => Listening(es, c) == None && Matching(es, c) == []
            case Someone(sub) =>
              && (Listening(es, c) == if sub.live then Some(sub.filter) else None)
              && sub.offered == Matching(es, c)
  {
    if es != [] {
      OfferedIsMatching(es[..|es| - 1], c);
    }
  }

  lemma {:induction false} ReadIsGot(es: seq<Event>, c: nat)
    requires IsRun(es)
    ensures Got(es, c) == if Solo(es, c).Someone? then Solo(es, c).sub.read else []
  {
    if es != [] {
      Isolation(es[..|es| - 1], c);
      ReadIsGot(es[..|es| - 1], c);
    }
  }

  /** Main result: over every run, what a channel's reader got and what still waits are, in
      order, among the notes it subscribed to; at most 16 wait, and the rest is what it lost. */
  lemma FanOutExact(es: seq<Event>, c: nat)
    requires IsRun(es) && c in End(es).buffers
    ensures var waiting := End(es).buffers[c];
            && Subsequence(Got(es, c) + waiting, Matching(es, c))
            && |waiting| <= 16
            && Dropped(es, c) == |Matching(es, c)| - |Got(es, c)| - |waiting|
    ensures c in End(es).subs <==> Listening(es, c).Some?
    ensures c in End(es).subs ==> Listening(es, c) == Some(End(es).subs[c])
  {
    Isolation(es, c);
    FanOut(es, c);
    OfferedIsMatching(es, c);
    ReadIsGot(es, c);
  }

  lemma SendAgain(es: seq<Event>, n: Note, c: nat)
    requires IsRun(es)
    ensures IsRun(es + [Send(n)]) && End(es + [Send(n)]) == Broadcasted(End(es), n)
  {
    assert (es + [Send(n)])[..|es|] == es;
  }

  /** Every note a channel subscribed to gets in while fewer than 16 wait, and no other note
      ever does. */
  lemma NextNote(es: seq<Event>, n: Note, c: nat)
    requires IsRun(es) && c in End(es).buffers
    ensures var waiting := End(es).buffers[c];
            var wanted := Listening(es, c) == Some("") || Listening(es, c) == Some(n.endpoint);
            && IsRun(es + [Send(n)]) && c in End(es + [Send(n)]).buffers
            && End(es + [Send(n)]).buffers[c] == if wanted && |waiting| < 16 then waiting + [n] else waiting
  {
    SendAgain(es, n, c);
    FanOutExact(es, c);
  }

  /** The filter a channel joined with, kept after it leaves. */
  function JoinedFor(es: seq<Event>, c: nat): Option<string>
  {
    if es == [] then None else
    var e := es[|es| - 1];
    if e.Join? && e.c == c then Some(e.filter) else JoinedFor(es[..|es| - 1], c)
  }

  lemma {:induction false} ListeningFor(es: seq<Event>, c: nat)
    ensures Listening(es, c).Some? ==> Listening(es, c) == JoinedFor(es, c)
  {
    if es != [] {
      ListeningFor(es[..|es| - 1], c);
    }
  }

  lemma {:induction false} MatchingFor(es: seq<Event>, c: nat, n: Note)
    requires n in Matching(es, c)
    ensures JoinedFor(es, c) == Some("") || JoinedFor(es, c) == Some(n.endpoint)
  {
    var prev := es[..|es| - 1];
    if n in Matching(prev, c) && !(es[|es| - 1].Join? && es[|es| - 1].c == c) {
      MatchingFor(prev, c, n);
    } else {
      ListeningFor(prev, c);
    }
  }

  lemma {:induction false} SubsequenceIn(a: seq<Note>, b: seq<Note>, n: Note)
    requires Subsequence(a, b) && n in a
    ensures n in b
    decreases |b|
  {
    var b' := b[..|b| - 1];
    if Subsequence(a, b') {
      SubsequenceIn(a, b', n);
    } else if n != a[|a| - 1] {
      assert a == a[..|a| - 1] + [a[|a| - 1]];
      SubsequenceIn(a[..|a| - 1], b', n);
    }
  }

  /** A viewer of one endpoint never sees another's notes, neither read nor waiting. */
  lemma OnlyItsEndpoint(es: seq<Event>, c: nat, n: Note)
    requires IsRun(es) && c in End(es).buffers && n in Got(es, c) + End(es).buffers[c]
    ensures JoinedFor(es, c) == Some("") || JoinedFor(es, c) == Some(n.endpoint)
  {
    FanOutExact(es, c);
    SubsequenceIn(Got(es, c) + End(es).buffers[c], Matching(es, c), n);
    MatchingFor(es, c, n);
  }

  // ---------------------------------------------------------------- the drop counter

  function Channels(es: seq<Event>): seq<nat>
  {
    if es == [] then [] else
    var e := es[|es| - 1];
    Channels(es[..|es| - 1]) + (if e.Join? then [e.c] else [])
  }

  function Dropped(es: seq<Event>, c: nat): nat
  {
    if Solo(es, c).Someone? then Solo(es, c).sub.dropped else 0
  }

  function TotalDropped(es: seq<Event>, cs: seq<nat>): nat
  {
    if cs == [] then 0 else Dropped(es, cs[0]) + TotalDropped(es, cs[1..])
  }

  ghost predicate Distinct(cs: seq<nat>) { forall i, j | 0 <= i < j < |cs| :: cs[i] != cs[j] }

  function Among(cs: seq<nat>, s: set<nat>): set<nat> { set c | c in cs && c in s }

  lemma {:induction false} TotalAppend(es: seq<Event>, cs: seq<nat>, c: nat)
    ensures TotalDropped(es, cs + [c]) == TotalDropped(es, cs) + Dropped(es, c)
  {
    if cs == [] {
      assert [] + [c] == [c] && [c][1..] == [];
    } else {
      assert (cs + [c])[1..] == cs[1..] + [c];
      TotalAppend(es, cs[1..], c);
    }
  }

  lemma {:induction false} ChannelsExact(es: seq<Event>)
    requires IsRun(es)
    ensures Distinct(Channels(es)) && forall c :: c in Channels(es) <==> c in End(es).buffers
  {
    if es != [] {
      var prev := es[..|es| - 1];
      ChannelsExact(prev);
      var e := es[|es| - 1];
      if e.Join? {
        assert forall i | 0 <= i < |Channels(prev)| :: Channels(prev)[i] in Channels(prev);
      }
    }
  }

  lemma AmongStep(cs: seq<nat>, full: set<nat>)
    requires cs != [] && cs[0] !in cs[1..]
    ensures |Among(cs, full)| == |Among(cs[1..], full)| + (if cs[0] in full then 1 else 0)
  {
    assert cs == [cs[0]] + cs[1..];
    assert Among(cs, full) == Among(cs[1..], full) + (if cs[0] in full then {cs[0]} else {});
  }

  /** The subscribers an event finds full. */
  function FullAt(es: seq<Event>, e: Event): set<nat>
    requires IsRun(es)
  {
    if e.Send? then Full(End(es), e.note) else {}
  }

  lemma DroppedStep(es: seq<Event>, e: Event, c: nat)
    requires IsRun(es) && (e.Join? ==> e.c != c)
    ensures Dropped(es + [e], c) == Dropped(es, c) + (if c in FullAt(es, e) then 1 else 0)
  {
    assert (es + [e])[..|es|] == es;
    Isolation(es, c);
  }

  /** One event changes the sum by the subscribers it finds full. */
  lemma {:induction false} TotalStep(es: seq<Event>, e: Event, cs: seq<nat>)
    requires IsRun(es) && Distinct(cs) && (e.Join? ==> e.c !in cs)
    ensures TotalDropped(es + [e], cs) == TotalDropped(es, cs) + |Among(cs, FullAt(es, e))|
  {
    if cs == [] {
      assert Among(cs, FullAt(es, e)) == {};
    } else {
      TotalStep(es, e, cs[1..]);
      DroppedStep(es, e, cs[0]);
      AmongStep(cs, FullAt(es, e));
    }
  }

  lemma ChannelsStep(es: seq<Event>, e: Event)
    requires IsRun(es) && Enabled(End(es), e)
    ensures Channels(es + [e]) == Channels(es) + (if e.Join? then [e.c] else [])
    ensures TotalDropped(es + [e], Channels(es + [e])) == TotalDropped(es, Channels(es)) + |FullAt(es, e)|
  {
    assert (es + [e])[..|es|] == es;
    ChannelsExact(es);
    TotalStep(es, e, Channels(es));
    AllFullAreChannels(es, e);
    if e.Join? {
      TotalAppend(es + [e], Channels(es), e.c);
    } else {
      assert Channels(es) + [] == Channels(es);
    }
  }

  /** Main result: the counter is the sum of what each subscriber lost, modulo 2^64. */
  lemma {:induction false} DropsAreTheSum(es: seq<Event>)
    requires IsRun(es)
    ensures End(es).drops == Wrapped(TotalDropped(es, Channels(es)))
  {
    if es != [] {
      var prev, e := es[..|es| - 1], es[|es| - 1];
      assert es == prev + [e];
      DropsAreTheSum(prev);
      ChannelsStep(prev, e);
      DropsStep(prev, e);
      WrappedSum(TotalDropped(prev, Channels(prev)), |FullAt(prev, e)|);
    }
  }

  lemma DropsStep(es: seq<Event>, e: Event)
    requires IsRun(es) && Enabled(End(es), e) && End(es).drops == Wrapped(End(es).drops)
    ensures Step(End(es), e).drops == Wrapped(End(es).drops + |FullAt(es, e)|)
  {
  }

  lemma AllFullAreChannels(es: seq<Event>, e: Event)
    requires IsRun(es)
    ensures Among(Channels(es), FullAt(es, e)) == FullAt(es, e)
  {
    ChannelsExact(es);
  }
}
