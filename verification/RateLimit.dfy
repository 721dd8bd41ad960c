/** The per-IP token bucket of the capture path (internal/ratelimit/ratelimit.go).

    Times are integer nanoseconds and tokens are counted in token-nanoseconds, so one
    token is `SECOND` and the refill `dt.Seconds() * rps` is exactly `dt * rps`. */
module RateLimit {

  const SECOND: int := 1_000_000_000
  /** A bucket unseen for longer than this is swept. */
  const IDLE: int := 60 * SECOND
  /** Twice the largest clock skew under which the sweep cannot be observed. */
  const DOUBLE_SKEW: int := 59 * SECOND

  datatype Bucket = Bucket(tokens: int, last: int, seen: int)
  type Buckets = map<string, Bucket>
  datatype Call = Call(ip: string, at: int)

  function Min(a: int, b: int): int { if a <= b then a else b }

  function Full(rps: int, t: int): Bucket { Bucket(rps * SECOND, t, t) }

  /** The tokens held at time `t`, after refill and cap. */
  function Level(rps: int, b: Bucket, t: int): int
  {
    Min(b.tokens + (t - b.last) * rps, rps * SECOND)
  }

  function Serve(rps: int, b: Bucket, t: int): (Bucket, bool)
  {
    var v := Level(rps, b, t);
    if v < SECOND then (Bucket(v, t, t), false) else (Bucket(v - SECOND, t, t), true)
  }

  function Swept(m: Buckets, t: int): Buckets
  {
    map k | k in m && t - m[k].seen <= IDLE :: m[k]
  }

  function Step(rps: int, m: Buckets, c: Call): (Buckets, bool)
  {
    if rps <= 0 then (m, true) else
    var kept := Swept(m, c.at);
    var (b, ok) := Serve(rps, if c.ip in kept then kept[c.ip] else Full(rps, c.at), c.at);
    (kept[c.ip := b], ok)
  }

  /** The limiter as the server holds it. The sweep visits the buckets in any order. */
  class Limiter {
    const rps: int
    var buckets: Buckets

    constructor (rps: int)
      ensures this.rps == rps && buckets == map[]
    {
      this.rps := rps;
      buckets := map[];
    }

    method Allow(ip: string, t: int) returns (ok: bool)
      modifies this
      ensures (buckets, ok) == Step(rps, old(buckets), Call(ip, t))
      ensures rps > 0 ==> forall k :: k in buckets ==> t - buckets[k].seen <= IDLE
      ensures rps <= 0 ==> ok && buckets == old(buckets)
    {
      if rps <= 0 { return true; }
      ghost var before := buckets;
      var todo := buckets.Keys;
      while todo != {}
        invariant todo <= buckets.Keys
        invariant buckets == map k | k in before && (k in todo || t - before[k].seen <= IDLE) :: before[k]
        decreases |todo|
      {
        var k :| k in todo;
        todo := todo - {k};
        if t - buckets[k].seen > IDLE {
          buckets := buckets - {k};
        }
      }
      assert buckets == Swept(before, t);
      var b := if ip in buckets then buckets[ip] else Bucket(rps * SECOND, t, t);
      var tokens := b.tokens + (t - b.last) * rps;
      if tokens > rps * SECOND {
        tokens := rps * SECOND;
      }
      ok := tokens >= SECOND;
      if ok {
        tokens := tokens - SECOND;
      }
      buckets := buckets[ip := Bucket(tokens, t, t)];
    }
  }

  // ---------------------------------------------------------------- runs

  /** The buckets after a run of calls, from an empty limiter. */
  function After(rps: int, run: seq<Call>): Buckets
  {
    if run == [] then map[] else Step(rps, After(rps, run[..|run| - 1]), run[|run| - 1]).0
  }

  /** The answer to the last call of a run. */
  function Verdict(rps: int, run: seq<Call>): bool
    requires run != []
  {
    Step(rps, After(rps, run[..|run| - 1]), run[|run| - 1]).1
  }

  /** A limit of zero or less turns the limiter off: every call passes and nothing is kept. */
  lemma {:induction false} Disabled(rps: int, run: seq<Call>)
    requires rps <= 0
    ensures After(rps, run) == map[] && (run != [] ==> Verdict(rps, run))
  {
    if run != [] {
      Disabled(rps, run[..|run| - 1]);
    }
  }

  /** The times of one client's calls. */
  function Own(run: seq<Call>, ip: string): seq<int>
  {
    if run == [] then [] else
    var c := run[|run| - 1];
    Own(run[..|run| - 1], ip) + (if c.ip == ip then [c.at] else [])
  }

  /** A bucket nobody else shares and nobody sweeps. */
  function Solo(rps: int, ts: seq<int>): Bucket
    requires ts != []
  {
    var t := ts[|ts| - 1];
    if |ts| == 1 then Serve(rps, Full(rps, t), t).0
    else Serve(rps, Solo(rps, ts[..|ts| - 1]), t).0
  }

  function SoloLevel(rps: int, ts: seq<int>): int
    requires ts != []
  {
    var t := ts[|ts| - 1];
    if |ts| == 1 then rps * SECOND else Level(rps, Solo(rps, ts[..|ts| - 1]), t)
  }

  function SoloVerdict(rps: int, ts: seq<int>): bool
    requires ts != []
  {
    SoloLevel(rps, ts) >= SECOND
  }

  // ---------------------------------------------------------------- exactness of one bucket

  /** How many of the calls i, ..., n-1 were admitted. */
  function Admitted(rps: int, ts: seq<int>, i: nat, n: nat): nat
    requires n <= |ts|
  {
    if n <= i then 0
    else Admitted(rps, ts, i, n - 1) + (if SoloVerdict(rps, ts[..n]) then 1 else 0)
  }

  /** The allowance left for the last call if only the window opened by call i counted. */
  function Allowance(rps: int, ts: seq<int>, i: nat): int
    requires i < |ts|
  {
    var n := |ts| - 1;
    rps * SECOND + (ts[n] - ts[i]) * rps - Admitted(rps, ts, i, n) * SECOND
  }

  lemma {:induction false} AdmittedPrefix(rps: int, ts: seq<int>, i: nat, n: nat)
    requires n < |ts|
    ensures Admitted(rps, ts, i, n) == Admitted(rps, ts[..|ts| - 1], i, n)
  {
    if n > i {
      AdmittedPrefix(rps, ts, i, n - 1);
      assert ts[..|ts| - 1][..n] == ts[..n];
    }
  }

  lemma AllowanceStep(rps: int, ts: seq<int>, i: nat)
    requires i < |ts| - 1
    ensures var prev := ts[..|ts| - 1];
            Allowance(rps, ts, i) == Allowance(rps, prev, i)
                                     - (if SoloVerdict(rps, prev) then SECOND else 0)
                                     + (ts[|ts| - 1] - ts[|ts| - 2]) * rps
  {
    var n := |ts| - 1;
    var prev := ts[..n];
    AdmittedPrefix(rps, ts, i, n);
    AdmittedPrefix(rps, ts, i, n - 1);
    assert prev[..n] == prev;
    assert Admitted(rps, prev, i, n) == Admitted(rps, prev, i, n - 1) + (if SoloVerdict(rps, prev) then 1 else 0);
    assert (ts[n] - ts[i]) * rps == (ts[n - 1] - ts[i]) * rps + (ts[n] - ts[n - 1]) * rps;
  }

  lemma SoloTokens(rps: int, ts: seq<int>)
    requires ts != []
    ensures var b := Solo(rps, ts);
            && b.last == b.seen == ts[|ts| - 1]
            && b.tokens == SoloLevel(rps, ts) - (if SoloVerdict(rps, ts) then SECOND else 0)
  {
    assert (ts[0] - ts[0]) * rps == 0;
  }

  /** The level is the least allowance over all windows: no clock assumption. */
  lemma {:induction false} LevelIsLeastAllowance(rps: int, ts: seq<int>)
    requires ts != []
    ensures forall i | 0 <= i < |ts| :: SoloLevel(rps, ts) <= Allowance(rps, ts, i)
    ensures exists i | 0 <= i < |ts| :: SoloLevel(rps, ts) == Allowance(rps, ts, i)
  {
    var n := |ts| - 1;
    assert Allowance(rps, ts, n) == rps * SECOND by { assert (ts[n] - ts[n]) * rps == 0; }
    if n > 0 {
      var prev := ts[..n];
      LevelIsLeastAllowance(rps, prev);
      SoloTokens(rps, prev);
      forall i | 0 <= i < n
        ensures Allowance(rps, ts, i) - Allowance(rps, prev, i)
                == Solo(rps, prev).tokens - SoloLevel(rps, prev) + (ts[n] - ts[n - 1]) * rps
      {
        AllowanceStep(rps, ts, i);
      }
      var w :| 0 <= w < n && SoloLevel(rps, prev) == Allowance(rps, prev, w);
      assert SoloLevel(rps, ts) == Allowance(rps, ts, w) || SoloLevel(rps, ts) == Allowance(rps, ts, n);
    }
  }

  /** Call i's window denies the last call of `ts`: one more admission would exceed
      a burst of rps plus rps per second elapsed. */
  predicate OverBudget(rps: int, ts: seq<int>, i: nat)
    requires i < |ts|
  {
    var n := |ts| - 1;
    (Admitted(rps, ts, i, n) + 1) * SECOND > rps * SECOND + rps * (ts[n] - ts[i])
  }

  lemma BucketExact(rps: int, ts: seq<int>)
    requires ts != []
    ensures !SoloVerdict(rps, ts) <==> exists i | 0 <= i < |ts| :: OverBudget(rps, ts, i)
  {
    LevelIsLeastAllowance(rps, ts);
    forall i | 0 <= i < |ts|
      ensures OverBudget(rps, ts, i) <==> Allowance(rps, ts, i) < SECOND
    {
      assert rps * (ts[|ts| - 1] - ts[i]) == (ts[|ts| - 1] - ts[i]) * rps;
    }
    if !SoloVerdict(rps, ts) {
      var w :| 0 <= w < |ts| && SoloLevel(rps, ts) == Allowance(rps, ts, w);
      assert OverBudget(rps, ts, w);
    }
  }

  predicate Nondecreasing(ts: seq<int>)
  {
    forall i, j | 0 <= i <= j < |ts| :: ts[i] <= ts[j]
  }

  /** No window admits more than a burst plus the refill over its length. */
  lemma {:induction false} WindowBound(rps: int, ts: seq<int>, i: nat, n: nat)
    requires rps >= 1 && Nondecreasing(ts) && i < n <= |ts|
    ensures Admitted(rps, ts, i, n) * SECOND <= rps * SECOND + rps * (ts[n - 1] - ts[i])
  {
    if SoloVerdict(rps, ts[..n]) {
      WindowEndingInAdmission(rps, ts, i, n);
    } else if n - 1 > i {
      WindowBound(rps, ts, i, n - 1);
      MulMono(rps, ts[n - 2] - ts[i], ts[n - 1] - ts[i]);
    } else {
      assert ts[n - 1] - ts[i] == 0;
      assert rps * (ts[n - 1] - ts[i]) == 0;
    }
  }

  lemma MulMono(a: int, b: int, c: int)
    requires a >= 0 && b <= c
    ensures a * b <= a * c
  {
  }

  lemma WindowEndingInAdmission(rps: int, ts: seq<int>, i: nat, n: nat)
    requires i < n <= |ts| && SoloVerdict(rps, ts[..n])
    ensures Admitted(rps, ts, i, n) * SECOND <= rps * SECOND + rps * (ts[n - 1] - ts[i])
  {
    BucketExact(rps, ts[..n]);
    assert !OverBudget(rps, ts[..n], i);
    AdmittedSlice(rps, ts, i, n - 1, n);
  }

  lemma {:induction false} AdmittedSlice(rps: int, ts: seq<int>, i: nat, m: nat, n: nat)
    requires m <= n <= |ts|
    ensures Admitted(rps, ts[..n], i, m) == Admitted(rps, ts, i, m)
  {
    if m > i {
      AdmittedSlice(rps, ts, i, m - 1, n);
      assert ts[..n][..m] == ts[..m];
    }
  }

  // ---------------------------------------------------------------- the sweep

  /** The clock is read before the lock is taken, so a later call may carry an earlier
      time; `skew` bounds by how much. */
  predicate Skewed(run: seq<Call>, skew: int)
  {
    forall i, j | 0 <= i <= j < |run| :: run[i].at <= run[j].at + skew
  }

  predicate SkewedTimes(ts: seq<int>, skew: int)
  {
    forall i, j | 0 <= i <= j < |ts| :: ts[i] <= ts[j] + skew
  }

  lemma Distribute(a: int, b: int, c: int)
    ensures (a + b) * c == a * c + b * c
  {
  }

  /** However the clock wobbles, refilling up to any earlier-seen time pays all debt. */
  lemma {:induction false} DebtAtPeak(rps: int, ts: seq<int>, peak: int)
    requires rps >= 1 && ts != []
    requires forall i | 0 <= i < |ts| :: ts[i] <= peak
    ensures Solo(rps, ts).tokens + (peak - ts[|ts| - 1]) * rps >= 0
  {
    var n := |ts| - 1;
    SoloTokens(rps, ts);
    assert (peak - ts[n]) * rps >= 0;
    if n > 0 && !SoloVerdict(rps, ts) {
      var prev := ts[..n];
      DebtAtPeak(rps, prev, peak);
      SoloTokens(rps, prev);
      Distribute(peak - ts[n], ts[n] - ts[n - 1], rps);
    }
  }

  lemma NoDebt(rps: int, ts: seq<int>, skew: int)
    requires rps >= 1 && ts != [] && SkewedTimes(ts, skew)
    ensures Solo(rps, ts).tokens >= -(skew * rps)
  {
    var n := |ts| - 1;
    DebtAtPeak(rps, ts, ts[n] + skew);
    assert (ts[n] + skew - ts[n]) * rps == skew * rps;
  }

  lemma {:induction false} OwnMember(run: seq<Call>, ip: string, i: nat) returns (k: nat)
    requires i < |Own(run, ip)|
    ensures k < |run| && run[k] == Call(ip, Own(run, ip)[i])
  {
    var m := |run| - 1;
    var rest := Own(run[..m], ip);
    if i < |rest| {
      k := OwnMember(run[..m], ip, i);
    } else {
      k := m;
    }
  }

  lemma {:induction false} OwnSkewed(run: seq<Call>, ip: string, skew: int)
    requires Skewed(run, skew)
    ensures SkewedTimes(Own(run, ip), skew)
  {
    if run != [] {
      var m := |run| - 1;
      OwnSkewed(run[..m], ip, skew);
      var own := Own(run, ip);
      forall i, j | 0 <= i <= j < |own|
        ensures own[i] <= own[j] + skew
      {
        if i < |Own(run[..m], ip)| {
          var k := OwnMember(run[..m], ip, i);
        }
      }
    }
  }

  /** What the live limiter knows of one client: its solo bucket, or nothing, and then
      some call came more than IDLE after the client was last seen. */
  predicate Tracks(rps: int, run: seq<Call>, ip: string)
  {
    var own, m := Own(run, ip), After(rps, run);
    if own == [] then ip !in m
    else if ip in m then m[ip] == Solo(rps, own)
    else exists k | 0 <= k < |run| :: run[k].at - own[|own| - 1] > IDLE
  }

  lemma {:induction false} AlwaysTracks(rps: int, run: seq<Call>, ip: string, skew: int)
    requires rps >= 1 && Skewed(run, skew) && 2 * skew <= DOUBLE_SKEW
    ensures Tracks(rps, run, ip)
  {
    if run != [] {
      var n := |run| - 1;
      var prev, c := run[..n], run[n];
      assert run == prev + [c];
      AlwaysTracks(rps, prev, ip, skew);
      if c.ip == ip {
        OwnCallTracked(rps, prev, c, skew);
      } else {
        OtherCallTracked(rps, prev, c, ip);
      }
    }
  }

  lemma OtherCallTracked(rps: int, prev: seq<Call>, c: Call, ip: string)
    requires rps >= 1 && c.ip != ip && Tracks(rps, prev, ip)
    ensures Tracks(rps, prev + [c], ip)
  {
    var run := prev + [c];
    assert run[..|prev|] == prev;
    var own, m := Own(prev, ip), After(rps, prev);
    assert Own(run, ip) == own;
    if own != [] && ip !in After(rps, run) {
      SoloTokens(rps, own);
      if ip in m {
        assert run[|prev|].at - own[|own| - 1] > IDLE;
      } else {
        var k :| 0 <= k < |prev| && prev[k].at - own[|own| - 1] > IDLE;
        assert run[k].at - own[|own| - 1] > IDLE;
      }
    }
  }

  /** Whether swept or not, the client's call is served from its solo bucket. */
  lemma OwnCallServed(rps: int, prev: seq<Call>, c: Call, skew: int)
    requires rps >= 1 && Skewed(prev + [c], skew) && 2 * skew <= DOUBLE_SKEW
    requires Tracks(rps, prev, c.ip)
    ensures var own := Own(prev, c.ip) + [c.at];
            && Step(rps, After(rps, prev), c).0[c.ip] == Solo(rps, own)
            && Step(rps, After(rps, prev), c).1 == SoloVerdict(rps, own)
  {
    var before := Own(prev, c.ip);
    var own := before + [c.at];
    assert own[..|before|] == before;
    FreshLevel(rps, c.at);
    if before != [] && c.ip !in Swept(After(rps, prev), c.at) {
      SweptClientIsFull(rps, prev, c, skew);
    }
  }

  lemma FreshLevel(rps: int, t: int)
    ensures Level(rps, Full(rps, t), t) == rps * SECOND
  {
    assert (t - t) * rps == 0;
  }

  lemma OwnCallTracked(rps: int, prev: seq<Call>, c: Call, skew: int)
    requires rps >= 1 && Skewed(prev + [c], skew) && 2 * skew <= DOUBLE_SKEW
    requires Tracks(rps, prev, c.ip)
    ensures Tracks(rps, prev + [c], c.ip)
  {
    OwnCallServed(rps, prev, c, skew);
    assert (prev + [c])[..|prev|] == prev;
  }

  /** A swept client's solo bucket has refilled to the cap by its next call. */
  lemma SweptClientIsFull(rps: int, prev: seq<Call>, c: Call, skew: int)
    requires rps >= 1 && Skewed(prev + [c], skew) && 2 * skew <= DOUBLE_SKEW
    requires Own(prev, c.ip) != [] && Tracks(rps, prev, c.ip)
    requires c.ip !in Swept(After(rps, prev), c.at)
    ensures Level(rps, Solo(rps, Own(prev, c.ip)), c.at) == rps * SECOND
  {
    var own := Own(prev, c.ip);
    IdleAtNextCall(rps, prev, c, skew);
    SkewedPrefix(prev, c, skew);
    OwnSkewed(prev, c.ip, skew);
    NoDebt(rps, own, skew);
    SoloTokens(rps, own);
    FullAfterIdle(rps, Solo(rps, own), c.at, skew);
  }

  lemma FullAfterIdle(rps: int, b: Bucket, t: int, skew: int)
    requires rps >= 1 && b.tokens >= -(skew * rps) && t - b.last >= SECOND + skew
    ensures Level(rps, b, t) == rps * SECOND
  {
    MulMono(rps, SECOND + skew, t - b.last);
    assert rps * (SECOND + skew) == rps * SECOND + skew * rps;
  }

  lemma SkewedPrefix(prev: seq<Call>, c: Call, skew: int)
    requires Skewed(prev + [c], skew)
    ensures Skewed(prev, skew)
  {
    forall i, j | 0 <= i <= j < |prev| ensures prev[i].at <= prev[j].at + skew {
      assert (prev + [c])[i].at <= (prev + [c])[j].at + skew;
    }
  }

  lemma IdleAtNextCall(rps: int, prev: seq<Call>, c: Call, skew: int)
    requires rps >= 1 && Skewed(prev + [c], skew)
    requires Own(prev, c.ip) != [] && Tracks(rps, prev, c.ip)
    requires c.ip !in Swept(After(rps, prev), c.at)
    ensures var own := Own(prev, c.ip); c.at - own[|own| - 1] > IDLE - skew
  {
    var run := prev + [c];
    var own := Own(prev, c.ip);
    SoloTokens(rps, own);
    assert run[|prev|].at <= run[|prev|].at + skew;
    if c.ip !in After(rps, prev) {
      var k :| 0 <= k < |prev| && prev[k].at - own[|own| - 1] > IDLE;
      assert run[k].at <= run[|prev|].at + skew;
    }
  }

  lemma OneMore(rps: int, prev: seq<Call>, c: Call)
    ensures Verdict(rps, prev + [c]) == Step(rps, After(rps, prev), c).1
    ensures Own(prev + [c], c.ip) == Own(prev, c.ip) + [c.at]
  {
    assert (prev + [c])[..|prev|] == prev;
  }

  lemma TransparentAt(rps: int, prev: seq<Call>, c: Call, skew: int)
    requires rps >= 1 && Skewed(prev + [c], skew) && 2 * skew <= DOUBLE_SKEW
    ensures Verdict(rps, prev + [c]) == SoloVerdict(rps, Own(prev + [c], c.ip))
  {
    SkewedPrefix(prev, c, skew);
    AlwaysTracks(rps, prev, c.ip, skew);
    OwnCallServed(rps, prev, c, skew);
    OneMore(rps, prev, c);
  }

  lemma LastOff(run: seq<Call>)
    requires run != []
    ensures run[..|run| - 1] + [run[|run| - 1]] == run
  {
  }

  /** Nobody can tell that other clients exist or that idle buckets are swept. */
  lemma SweepTransparent(rps: int, run: seq<Call>, skew: int)
    requires rps >= 1 && run != [] && Skewed(run, skew) && 2 * skew <= DOUBLE_SKEW
    ensures Verdict(rps, run) == SoloVerdict(rps, Own(run, run[|run| - 1].ip))
  {
    LastOff(run);
    TransparentAt(rps, run[..|run| - 1], run[|run| - 1], skew);
  }

  /** Main result: the limiter denies a call exactly when some window of that client's
      own admitted calls leaves no room for it. */
  lemma AdmissionExact(rps: int, run: seq<Call>, skew: int)
    requires rps >= 1 && run != [] && Skewed(run, skew) && 2 * skew <= DOUBLE_SKEW
    ensures var own := Own(run, run[|run| - 1].ip);
            && own != []
            && (!Verdict(rps, run) <==> exists i | 0 <= i < |own| :: OverBudget(rps, own, i))
  {
    SweepTransparent(rps, run, skew);
    BucketExact(rps, Own(run, run[|run| - 1].ip));
  }

  // ---------------------------------------------------------------- Retry-After

  /** Refilling a bucket up to `peak` pays all its debt. */
  predicate PaidBy(rps: int, b: Bucket, peak: int)
  {
    b.last <= peak && b.tokens + (peak - b.last) * rps >= 0
  }

  lemma PaidStep(rps: int, m: Buckets, c: Call, ip: string, peak: int)
    requires rps >= 1 && c.at <= peak && (ip in m ==> PaidBy(rps, m[ip], peak))
    ensures var m' := Step(rps, m, c).0; ip in m' ==> PaidBy(rps, m'[ip], peak)
  {
    if c.ip == ip {
      var kept := Swept(m, c.at);
      if ip !in kept {
        assert (peak - c.at) * rps >= 0;
      }
      ServedDebt(rps, if ip in kept then kept[ip] else Full(rps, c.at), c.at, peak);
    }
  }

  /** However the clock wobbles, a live bucket's debt is paid at any time not yet passed;
      swept and reopened buckets only start fuller. */
  lemma {:induction false} LiveDebt(rps: int, run: seq<Call>, ip: string, peak: int)
    requires rps >= 1 && forall i | 0 <= i < |run| :: run[i].at <= peak
    ensures var m := After(rps, run); ip in m ==> PaidBy(rps, m[ip], peak)
  {
    if run != [] {
      var n := |run| - 1;
      LiveDebt(rps, run[..n], ip, peak);
      PaidStep(rps, After(rps, run[..n]), run[n], ip, peak);
    }
  }

  lemma ServedDebt(rps: int, b: Bucket, t: int, peak: int)
    requires rps >= 1 && t <= peak && PaidBy(rps, b, peak)
    ensures PaidBy(rps, Serve(rps, b, t).0, peak)
  {
    Distribute(peak - t, t - b.last, rps);
    assert (peak - t) * rps >= 0;
  }

  /** Other clients leave the bucket alone or sweep it. */
  lemma {:induction false} OthersLeave(rps: int, run: seq<Call>, others: seq<Call>, ip: string)
    requires rps >= 1 && Own(others, ip) == []
    ensures var m, m' := After(rps, run), After(rps, run + others);
            ip in m' ==> ip in m && m'[ip] == m[ip]
  {
    if others == [] {
      assert run + others == run;
    } else {
      var n := |others| - 1;
      assert (run + others)[..|run + others| - 1] == run + others[..n];
      OthersLeave(rps, run, others[..n], ip);
    }
  }

  /** A denied client's next call, others having called in between. */
  ghost predicate Returns(rps: int, run: seq<Call>, others: seq<Call>, t: int, skew: int, wait: int)
  {
    && run != [] && !Verdict(rps, run) && t >= run[|run| - 1].at + wait
    && Own(others, run[|run| - 1].ip) == []
    && Skewed(run + others + [Call(run[|run| - 1].ip, t)], skew)
  }

  ghost predicate WaitSuffices(rps: int, skew: int, wait: int)
  {
    forall run: seq<Call>, others: seq<Call>, t: int | Returns(rps, run, others, t, skew, wait) ::
      Verdict(rps, run + others + [Call(run[|run| - 1].ip, t)])
  }

  lemma SkewedStart(a: seq<Call>, b: seq<Call>, skew: int)
    requires Skewed(a + b, skew)
    ensures Skewed(a, skew)
  {
    forall i, j | 0 <= i <= j < |a| ensures a[i].at <= a[j].at + skew {
      assert (a + b)[i] == a[i] && (a + b)[j] == a[j];
    }
  }

  /** What the limiter keeps of a client after its call. */
  lemma OwnBucket(rps: int, run: seq<Call>, skew: int)
    requires rps >= 1 && run != [] && Skewed(run, skew)
    ensures var c := run[|run| - 1]; var m := After(rps, run);
            c.ip in m && m[c.ip].last == m[c.ip].seen == c.at && m[c.ip].tokens >= -(skew * rps)
  {
    var n := |run| - 1;
    forall i | 0 <= i < |run| ensures run[i].at <= run[n].at + skew {
      assert run[i].at <= run[n].at + skew;
    }
    LiveDebt(rps, run, run[n].ip, run[n].at + skew);
    assert (run[n].at + skew - run[n].at) * rps == skew * rps;
  }

  lemma LevelAfterWait(rps: int, b: Bucket, t: int, skew: int, wait: int)
    requires rps >= 1 && b.tokens >= -(skew * rps) && t >= b.last + wait && (wait - skew) * rps >= SECOND
    ensures Level(rps, b, t) >= SECOND
  {
    MulMono(rps, wait, t - b.last);
    Distribute(wait, -skew, rps);
    assert rps * wait == wait * rps && rps * (t - b.last) == (t - b.last) * rps && -skew * rps == -(skew * rps);
    assert SECOND * rps >= SECOND;
  }

  lemma ReturnAdmitted(rps: int, run: seq<Call>, others: seq<Call>, t: int, skew: int, wait: int)
    requires rps >= 1 && ((wait - skew) * rps >= SECOND || wait > IDLE)
    requires Returns(rps, run, others, t, skew, wait)
    ensures Verdict(rps, run + others + [Call(run[|run| - 1].ip, t)])
  {
    var ip := run[|run| - 1].ip;
    SkewedStart(run + others, [Call(ip, t)], skew);
    SkewedStart(run, others, skew);
    OwnBucket(rps, run, skew);
    OthersLeave(rps, run, others, ip);
    OneMore(rps, run + others, Call(ip, t));
    FreshLevel(rps, t);
    assert SECOND * rps >= SECOND;
    var kept := Swept(After(rps, run + others), t);
    if ip in kept {
      LevelAfterWait(rps, kept[ip], t, skew, wait);
    }
  }

  // ---------------------------------------------------------------- a wait that is too short

  /** The client's burst at time `t` empties its bucket. */
  lemma {:induction false} LiveBurst(rps: int, t: int, k: nat)
    requires rps >= 1 && 1 <= k <= rps
    ensures After(rps, Burst(t, k)) == map["a" := Bucket((rps - k) * SECOND, t, t)]
  {
    var run := Burst(t, k);
    assert run[..k - 1] == Burst(t, k - 1);
    FreshLevel(rps, t);
    assert (t - t) * rps == 0;
    if k > 1 {
      LiveBurst(rps, t, k - 1);
    }
  }

  /** A burst at time `skew`, then a call denied when the clock reads 0. */
  function DeniedRun(rps: nat, skew: int): seq<Call> { Burst(skew, rps) + [Call("a", 0)] }

  lemma DeniedLive(rps: nat, skew: int)
    requires rps >= 1 && skew >= 0
    ensures !Verdict(rps, DeniedRun(rps, skew))
    ensures After(rps, DeniedRun(rps, skew)) == map["a" := Bucket(-(skew * rps), 0, 0)]
  {
    LiveBurst(rps, skew, rps);
    OneMore(rps, Burst(skew, rps), Call("a", 0));
    assert DeniedRun(rps, skew)[..rps] == Burst(skew, rps);
    assert (0 - skew) * rps == -(skew * rps) <= 0;
  }

  lemma DeniedSkew(rps: nat, skew: int, wait: int)
    requires skew >= 0 && wait >= 0
    ensures Skewed(DeniedRun(rps, skew) + [] + [Call("a", wait)], skew)
  {
    var run := DeniedRun(rps, skew) + [] + [Call("a", wait)];
    forall i, j | 0 <= i <= j < |run| ensures run[i].at <= run[j].at + skew {
      assert run[i].at == (if i < rps then skew else if i == rps then 0 else wait);
      assert run[j].at == (if j < rps then skew else if j == rps then 0 else wait);
    }
  }

  lemma ShortWaitDenied(rps: int, skew: int, wait: int)
    requires rps >= 1 && 0 <= skew && 0 <= wait <= IDLE && (wait - skew) * rps < SECOND
    ensures !WaitSuffices(rps, skew, wait)
  {
    var run, others: seq<Call> := DeniedRun(rps, skew), [];
    assert run + others == run;
    DeniedSkew(rps, skew, wait);
    DeniedLive(rps, skew);
    OneMore(rps, run + others, Call("a", wait));
    Distribute(wait, -skew, rps);
    assert -skew * rps == -(skew * rps);
    assert Returns(rps, run, others, wait, skew, wait) && !Verdict(rps, run + others + [Call("a", wait)]);
  }

  /** Main result: a denied client that waits is sure to be admitted, on the live limiter,
      whatever the others do meanwhile and however the clock wobbles, if and only if the wait
      earns a token beyond the skew, or is so long that the client's bucket is swept. */
  lemma RetryWaitIff(rps: int, skew: int, wait: int)
    requires rps >= 1 && 0 <= skew && 0 <= wait
    ensures WaitSuffices(rps, skew, wait) <==> (wait - skew) * rps >= SECOND || wait > IDLE
  {
    if (wait - skew) * rps >= SECOND || wait > IDLE {
      forall run: seq<Call>, others: seq<Call>, t: int | Returns(rps, run, others, t, skew, wait)
        ensures Verdict(rps, run + others + [Call(run[|run| - 1].ip, t)])
      {
        ReturnAdmitted(rps, run, others, t, skew, wait);
      }
    } else {
      ShortWaitDenied(rps, skew, wait);
    }
  }

  /** So `Retry-After: 1` keeps its promise exactly while the clock runs back by at most one
      second less the time one token takes; one second more than the skew always does. */
  lemma RetryAfterHonest(rps: int, skew: int)
    requires rps >= 1 && 0 <= skew
    ensures WaitSuffices(rps, skew, SECOND) <==> skew * rps <= SECOND * (rps - 1)
    ensures WaitSuffices(rps, skew, SECOND + skew)
  {
    RetryWaitIff(rps, skew, SECOND);
    RetryWaitIff(rps, skew, SECOND + skew);
    Distribute(SECOND, -skew, rps);
  }

  // ---------------------------------------------------------------- the skew bound is tight

  /** The least skew the sweep does not tolerate. */
  const WOBBLE: int := 29_500_000_001
  /** When the client comes back, IDLE + 1 - WOBBLE. */
  const RETURN: int := 30_500_000_000

  function Burst(t: int, k: nat): seq<Call> { seq(k, _ => Call("a", t)) }

  function Repeat(t: int, k: nat): seq<int> { seq(k, _ => t) }

  /** Client "a" spends its burst, is denied once at an earlier reading of the clock, is
      swept by a call of "b", and spends another burst. */
  function WobblyRun(k: nat, n: nat): seq<Call>
  {
    Burst(WOBBLE, k) + [Call("a", 0), Call("b", IDLE + 1)] + Burst(RETURN, n)
  }

  lemma {:induction false} OwnConcat(a: seq<Call>, b: seq<Call>, ip: string)
    ensures Own(a + b, ip) == Own(a, ip) + Own(b, ip)
  {
    if b == [] {
      assert a + b == a;
    } else {
      var n := |b| - 1;
      OwnConcat(a, b[..n], ip);
      assert (a + b)[..|a + b| - 1] == a + b[..n];
    }
  }

  lemma {:induction false} OwnBurst(t: int, k: nat)
    ensures Own(Burst(t, k), "a") == Repeat(t, k)
  {
    if k > 0 {
      OwnBurst(t, k - 1);
      assert Burst(t, k)[..k - 1] == Burst(t, k - 1);
      assert Repeat(t, k) == Repeat(t, k - 1) + [t];
    }
  }

  lemma OwnWobbly(k: nat, n: nat)
    ensures Own(WobblyRun(k, n), "a") == Repeat(WOBBLE, k) + [0] + Repeat(RETURN, n)
  {
    var mid := [Call("a", 0), Call("b", IDLE + 1)];
    OwnBurst(WOBBLE, k);
    OwnBurst(RETURN, n);
    OwnConcat(Burst(WOBBLE, k), mid, "a");
    OwnConcat(Burst(WOBBLE, k) + mid, Burst(RETURN, n), "a");
    assert mid[..1] == [Call("a", 0)];
    assert Own(mid[..1][..0], "a") == [];
    assert Own(mid, "a") == [0];
  }

  lemma WobblySkew(k: nat, n: nat)
    ensures Skewed(WobblyRun(k, n), WOBBLE)
  {
    var run := WobblyRun(k, n);
    forall i, j | 0 <= i <= j < |run| ensures run[i].at <= run[j].at + WOBBLE {
      assert run[i].at in {WOBBLE, 0, IDLE + 1, RETURN};
      assert run[j].at in {WOBBLE, 0, IDLE + 1, RETURN};
      if i > k { assert run[j].at >= RETURN; }
    }
  }

  /** The live limiter serves the second burst in full. */
  lemma {:induction false} SweptBurst(rps: int, k: nat, n: nat)
    requires rps >= 1 && 1 <= n <= rps
    ensures var m := After(rps, WobblyRun(k, n));
            "a" in m && m["a"] == Bucket((rps - n) * SECOND, RETURN, RETURN)
    ensures Verdict(rps, WobblyRun(k, n))
  {
    var run := WobblyRun(k, n);
    assert run[..|run| - 1] == WobblyRun(k, n - 1);
    FreshLevel(rps, RETURN);
    assert (RETURN - RETURN) * rps == 0;
    if n == 1 {
      ClientIsSwept(rps, k);
    } else {
      SweptBurst(rps, k, n - 1);
    }
  }

  lemma ClientIsSwept(rps: int, k: nat)
    requires rps >= 1
    ensures "a" !in After(rps, WobblyRun(k, 0))
  {
    var run := WobblyRun(k, 0);
    var mid := Burst(WOBBLE, k) + [Call("a", 0)];
    assert run[..|run| - 1] == mid;
    assert "a" in After(rps, mid) && After(rps, mid)["a"].seen == 0;
  }

  lemma {:induction false} SoloBurst(rps: int, t: int, k: nat)
    requires rps >= 1 && 1 <= k <= rps
    ensures Solo(rps, Repeat(t, k)).tokens == (rps - k) * SECOND
  {
    var ts := Repeat(t, k);
    SoloTokens(rps, ts);
    if k > 1 {
      SoloBurst(rps, t, k - 1);
      assert ts[..k - 1] == Repeat(t, k - 1);
      SoloTokens(rps, ts[..k - 1]);
      assert (t - t) * rps == 0;
    }
  }

  /** The unswept bucket is still in debt: it runs out one call early. */
  lemma {:induction false} SoloShort(rps: int, n: nat)
    requires rps >= 1 && 1 <= n <= rps
    ensures SoloLevel(rps, Repeat(WOBBLE, rps) + [0] + Repeat(RETURN, n)) < (rps - n + 1) * SECOND
  {
    var ts := Repeat(WOBBLE, rps) + [0] + Repeat(RETURN, n);
    var prev := Repeat(WOBBLE, rps) + [0] + Repeat(RETURN, n - 1);
    assert ts[..|ts| - 1] == prev;
    SoloTokens(rps, prev);
    if n == 1 {
      var first := Repeat(WOBBLE, rps);
      SoloBurst(rps, WOBBLE, rps);
      assert prev == first + [0];
      assert prev[..rps] == first;
      SoloTokens(rps, first);
      assert SoloLevel(rps, prev) == -WOBBLE * rps;
      assert Solo(rps, prev).tokens == -WOBBLE * rps;
      assert RETURN - WOBBLE == SECOND - 1;
    } else {
      SoloShort(rps, n - 1);
      assert (RETURN - RETURN) * rps == 0;
    }
  }

  /** Main result: the sweep is invisible on every run whose clock readings run backwards
      by at most `skew`, if and only if `skew` is at most 29.5 seconds. */
  lemma SweepTransparentIff(rps: int, skew: int)
    requires rps >= 1
    ensures (forall run: seq<Call> | run != [] && Skewed(run, skew) ::
               Verdict(rps, run) == SoloVerdict(rps, Own(run, run[|run| - 1].ip)))
            <==> 2 * skew <= DOUBLE_SKEW
  {
    if 2 * skew <= DOUBLE_SKEW {
      forall run: seq<Call> | run != [] && Skewed(run, skew)
        ensures Verdict(rps, run) == SoloVerdict(rps, Own(run, run[|run| - 1].ip))
      {
        SweepTransparent(rps, run, skew);
      }
    } else {
      var run := WobblyRun(rps, rps);
      WobblySkew(rps, rps);
      assert Skewed(run, skew);
      SweptBurst(rps, rps, rps);
      OwnWobbly(rps, rps);
      SoloShort(rps, rps);
      assert run[|run| - 1] == Call("a", RETURN);
    }
  }
}
