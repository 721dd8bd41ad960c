# OmniHook in Dafny

OmniHook is a webhook inbox written in Go: it captures requests at `/hook/<slug>`, verifies
their signatures, stores them as evidence, announces them to live viewers, forwards them to a
local target and replays them on demand, optionally under a fresh signature. This project
models the parts where something can go wrong in a way no single function shows, and proves
what holds over every input, every run or every interleaving.

Check everything with `dafny verify dfyconfig.toml`.

| file | part of the program | what is proved |
|---|---|---|
| RateLimit.dfy | `internal/ratelimit` | the bucket is exactly a (burst, rate) admission rule, per client; the idle sweep is invisible iff clock readings run back by at most 29.5 s |
| ForwardPool.dfy | `internal/forward/service.go` | exactly what the bounded worker pool accepts, conservation and idempotent stop over all interleavings, and exactly when stopping drains it |
| LoopBreaker.dfy | `internal/forward`, `internal/capture` | any network of endpoints goes quiet; the exact bound on deliveries |
| Text.dfy, Encoding.dfy | the parts of Go's `strings`, `strconv`, `encoding` in use | decimal, hex and base64 round trips, byte order |
| Verify.dfy | `internal/verify` | the status of every chain answer, exactness of each check and of the wrapped tolerance, binding of signatures, exactly which ids a signature confuses |
| Resign.dfy, StandardExact.dfy | `internal/verify/resign.go` | what re-signing prints the chain accepts, for all five providers, and exactly when for Standard Webhooks, whichever headers are lost on the way |
| Headers.dfy, Names.dfy | `internal/outbound`, `net/http` header maps | hop-by-hop stripping, canonical names |
| Replay.dfy, ReplayExact.dfy | `internal/replay` | the outgoing header algebra; a re-signed replay passes at the receiver, with the exact condition for every provider |
| Timestamps.dfy, Store.dfy | `internal/gc`, `migrations` | string order is time order; retention means time iff the duration fits; referential integrity of the cleanup |
| Capture.dfy | `ServeHook` | every answer by its cause; an acknowledged request was stored whole, once and first; the evidence invariant over all interleavings of captures with deletes, cleanup and crashes |
| Hub.dfy | `Hub` | exactly which notes a subscriber gets, fan-out accounting, isolation of subscribers, the drop counter |
| Pages.dfy | `internal/api` list queries | a cursor walk is the sorted table, also while rows change |
| Migrations.dfy | `internal/db` | convergence under crashes, retries and concurrent openers |
| MixedArgs.dfy | `internal/cli` parseMixed | any interleaving of flags and positionals parses alike, exactly which lines do not mean what they say, and what survives of them |

Objects that the program updates in place are classes (`Limiter`, `Service`, `Header`, `Replayer`,
`Database`, `Handler`, `Hub`, `Connection`), each method tied to a function of the old state; the
theorems are about those functions. Maps that Go ranges over in random order are visited in
arbitrary order. Concurrent parts (pool, loop breaker, migrations) are state machines whose
runs are all interleavings of atomic steps. HMAC-SHA256 is an arbitrary function from key and
message to 32 bytes (`Verify.Mac`); where its strength matters the conclusion is "equal, or
here is a collision" (`Verify.Collision`).

## Where the program falls short of what it promises

Each of these is a theorem with the exact condition or a concrete input.

- The limiter reads the clock before it takes the lock. The sweep stays invisible only while
  readings run backwards by at most 29.5 s (`RateLimit.SweepTransparentIff`), and the promised
  `Retry-After: 1` is enough exactly while skew * rps <= (rps - 1) seconds
  (`RateLimit.RetryAfterHonest`).
- A retention beyond 2562047 hours of either sign overflows the int64 duration and the cleanup no
  longer means what it says (`Store.RetentionMeansTimeIff`); above the bound and up to twice it the cutoff lies in the
  future and every request is deleted (`Store.OverlongRetentionDeletesAll`).
- The start cursor is documented as lying beyond any stored timestamp; the last millisecond
  of the year 9999 sorts above it (`Pages.StoredRowListedIff`).
- `MAX_BODY_BYTES` of 2^63-1 wraps in `MaxBodyBytes+1`, and every body is stored as empty
  (`Capture.WholeBodyIff`).
- A request whose `Connection` header names `X-Omnihook-Forward` loses the loop-breaker mark on
  its first hop and is delivered once more (`LoopBreaker.DeliveredMarkedIff`,
  `LoopBreaker.SelfishRequestLoopsOnce`); the second hop carries no `Connection`, so it ends
  there. The deliveries a set of arrivals can cause are exactly the sum of 2 for such a request,
  1 for any other unmarked one and 0 for a marked one (`LoopBreaker.DeliveriesBoundIff`).
- In the same way a `Connection` header naming `X-Omnihook-Replay` lets a replay arrive unmarked
  and be forwarded again (`LoopBreaker.ReplayMarkedIff`).
- A `Connection` header naming the signature header strips the fresh signature too
  (`ReplayExact.ReplayPassesIff`, `ReplayExact.StandardReplayPassesIff`).
- Standard Webhooks re-signing writes `Svix-*` when `Svix-Signature` is stored, but the check
  prefers `Webhook-*`: a stale `Webhook-Timestamp` or `Webhook-Signature` defeats it
  (`StandardExact.MergePassesIff`). An explicit id other than the stored one, which is the one
  signed, defeats it too (`ReplayExact.OtherIdDefeatsResign`).
- "<id>.<timestamp>.<body>" does not separate an id from one that extends it by a dot and a
  segment that reads as a number, and exactly those (`Verify.SeparatedIff`); one signature is
  then accepted for both (`Verify.ConfusedAccepted`, `Verify.DottedIdsCollide`).
- The 300-second test wraps: the one difference 2^63 is accepted (`Verify.ToleranceExact`).
- `Stop` promises that acknowledged captures are not lost. If it returns because its workers are
  gone, that holds exactly when the queue was empty as its first loop gave up
  (`ForwardPool.WaitedReturnDeliversIff`); if its second wait may time out, exactly when no
  delivery was in flight then either (`ForwardPool.TimedReturnDeliversIff`). A delivery may take
  10 s and `Stop` is called with 5 s just before the database closes, so the case is real
  (`ForwardPool.BusyReturnLosesJob`, `ForwardPool.TimedOutDrainLosesJob`).
- An empty `--name=`, or a separate value that reads like a flag lacking its value, in front of
  a positional swallows it, and every later flag is dropped without an error; a separate value
  `-` or `--` is misread. These are all the well-formed lines that go wrong (`MixedArgs.MeantIff`,
  `MixedArgs.SwallowedOutcome`).

## Model

| member | source | states |
|---|---|---|
| RateLimit.Limiter.Allow | internal/ratelimit/ratelimit.go:31-60 | buckets and answer are those of Step, sweeping in any order; every bucket kept was seen within 60 s |
| RateLimit.LevelIsLeastAllowance | internal/ratelimit/ratelimit.go:44-60 | a client's token level is the least allowance over all windows ending at the call, whatever the clock does |
| RateLimit.BucketExact | internal/ratelimit/ratelimit.go:44-60 | a call is denied iff some window of the client's own calls has (admitted + 1) > burst + rate * length |
| RateLimit.WindowBound | internal/ratelimit/ratelimit.go:12-13 | no window admits more than rps + rps * length |
| RateLimit.RetryWaitIff | internal/ratelimit/ratelimit.go:35-60 | on the live limiter, whatever the others do meanwhile, a denied client is sure of admission after a wait iff (wait - skew) * rps earns a token or the wait exceeds 60 s, for every clock skew |
| RateLimit.RetryAfterHonest | internal/capture/capture.go:180-186 | the promised second is enough iff skew * rps <= (rps - 1) s, so always under a steady clock; one second plus the skew always is |
| RateLimit.AlwaysTracks | internal/ratelimit/ratelimit.go:38-48 | the live map holds each client's unswept solo bucket, or the client was swept after 60 s of silence |
| RateLimit.SweptClientIsFull | internal/ratelimit/ratelimit.go:38-52 | a swept client's solo bucket would have refilled to the cap by its next call |
| RateLimit.SweepTransparent | internal/ratelimit/ratelimit.go:38-48 | every answer equals that of a never-swept bucket fed that client's calls alone |
| RateLimit.AdmissionExact | internal/ratelimit/ratelimit.go:31-60 | the whole limiter, all clients interleaved: denied iff some window of the client's own calls is over budget |
| RateLimit.SweepTransparentIff | internal/ratelimit/ratelimit.go:35-43 | the sweep is invisible on all runs with clock skew s iff 2s <= 59 s, for every rps |
| RateLimit.Disabled | internal/ratelimit/ratelimit.go:13-33 | a rate of zero or less admits every call of every run and keeps no bucket |
| ForwardPool.Service.constructor | internal/forward/service.go:34-47 | shows the initial state: 128 places where none are asked for, 8 workers where none are asked for, nothing queued |
| ForwardPool.Service.Enqueue | internal/forward/service.go:63-76 | true iff the target does not loop back and the queue has room, and then exactly this job is queued; a looping target leaves the one refusal row, a full queue the one drop row and a count; it is one Enqueue step of the state machine |
| ForwardPool.SelfTargetIff | internal/forward/service.go:103-123 | refused are exactly the parsed targets with a path under /hook/, a host localhost in any case, 127.0.0.1 or ::1, and the own port, explicit or by scheme |
| ForwardPool.AcceptedExactly | internal/forward/service.go:63-76 | over every run the accepted jobs, in order, are those enqueued with a target that does not loop back while fewer than `capacity` accepted jobs waited; refusals are the looping targets |
| ForwardPool.NoLoopAccepted | internal/forward/service.go:100-102 | no job ever accepted was enqueued only with looping targets |
| ForwardPool.FinishLeavesRow | internal/forward/forward.go:26-78 | a delivery that ends leaves exactly one row with its status, latency and error, and none when the request is gone |
| ForwardPool.ForwardingConserved | internal/forward/service.go:49-79 | over every interleaving: attempts = refused + dropped + accepted; accepted = queued + in flight + finished; takes follow acceptance order with no job twice; capacity and worker bounds; drops = drop rows attempted; quit closed at most once |
| ForwardPool.InvAlways | internal/forward/service.go:16-98 | the pool invariant is kept by every step of capture, worker and stop callers |
| ForwardPool.StopsOnceStep | internal/forward/service.go:84-98 | quit is closed exactly when the once body is over, by its one runner; no Stop returns and no worker leaves before |
| ForwardPool.DrainOnStop | internal/forward/service.go:84-98 | once all workers are gone the undelivered jobs are exactly those queued; if the drain saw an empty queue and nothing was enqueued since, every accepted job was delivered exactly once |
| ForwardPool.DrainDeliversIff | internal/forward/service.go:84-98 | every run without further captures in which the workers leave delivers every accepted job exactly once iff the queue is empty when the drain loop gives up |
| ForwardPool.WaitedReturnDeliversIff | internal/forward/service.go:84-98 | whenever Stop returns because its workers are gone, later captures or not, all jobs accepted before the drain loop gave up are delivered, iff the queue was empty then |
| ForwardPool.PatientStopDelivers | internal/forward/service.go:84-98 | a Stop whose drain loop does not time out and that waits for its workers delivers everything accepted before |
| ForwardPool.TimedReturnDeliversIff | internal/forward/service.go:94-98 | the same for a Stop that may return on its second time-out, iff the queue was empty and nothing in flight |
| ForwardPool.LeaveQueue | internal/forward/service.go:86-98 | after the drain loop quit can close, all workers leave with the queue as it is, and Stop returns |
| ForwardPool.BusyReturnLosesJob | cmd/omnihook/main.go:133-136 | a run where the drain sees an empty queue and Stop returns with the one accepted job in flight |
| ForwardPool.TimedOutDrainLosesJob | internal/forward/service.go:86-91 | such a run from a fresh pool: a timed-out drain leaves an accepted job undelivered |
| ForwardPool.WorkersRunOut | internal/forward/service.go:49-59 | without new captures the workers take exactly as many steps as the measure drops |
| ForwardPool.WorkersNeverStuck | internal/forward/service.go:49-59 | after quit some worker can always step until all have exited |
| LoopBreaker.DeliveryHeader | internal/forward/forward.go:46-65 | the header Deliver sends: stored fields, content type, markers, then stripping |
| LoopBreaker.DeliveredField | internal/forward/forward.go:46-65 | each field of a delivery: markers, the content type where the request had none, the stored fields, without Host, Content-Length, the eight hop-by-hop fields and what the stored Connection names |
| LoopBreaker.DeliveredMarkedIff | internal/forward/forward.go:63-65 | a delivery arrives marked iff the stored Connection does not name the marker, and carries no Connection |
| LoopBreaker.ReplayMarkedIff | internal/replay/replay.go:111-120 | a replay arrives marked iff the Connection finally composed does not name the replay marker |
| LoopBreaker.PotentialDrops | internal/forward/service.go:125-131 | each hop strictly lowers the number of deliveries a request can still cause |
| LoopBreaker.LoopsAreBounded | internal/capture/capture.go:171-176 | any graph of targets: k outside requests cause at most 2k deliveries and 3k stored requests; k and 2k when no Connection names the marker |
| LoopBreaker.MostDeliveries | internal/capture/capture.go:171-176 | for any arrivals some run makes every delivery their potentials allow, and stores one request more per arrival |
| LoopBreaker.DeliveriesBoundIff | internal/capture/capture.go:171-176 | the deliveries over all runs with given arrivals are at most n iff their potentials sum to at most n |
| LoopBreaker.Quiescence | internal/capture/capture.go:171-176 | without arrivals every run is shorter than the measure |
| LoopBreaker.SelfishRequestLoopsOnce | internal/forward/forward.go:63-65 | the larger bound is reached: one request, two deliveries, three stored |
| Text.ParsePrintInt | internal/verify/verify.go:73-73 | parsing a printed int64 gives it back |
| Text.ParseIntMeans | internal/verify/stripe.go:41-44 | an optional sign and decimal digits give the number they write in base ten iff int64 holds it |
| Text.ParseIntRefuses | internal/verify/stripe.go:41-44 | no other text is a number |
| Text.PrintNatIs | internal/verify/resign.go:32-33 | a number prints as its digit string without leading zeros |
| Text.EqualFoldIff | internal/verify/verify.go:64-71 | texts match iff they have one length and differ at most in the case of letters, position by position |
| Text.WrapExactIff | internal/verify/stripe.go:45-45 | 64-bit wrap-around is the identity exactly on int64 |
| Text.LessFields | internal/gc/gc.go:29-29 | byte order compares equally long fields one after the other |
| Text.LessIff | internal/gc/gc.go:29-29 | one text is below another iff it is a proper prefix or smaller at the first difference |
| Encoding.HexInjective | internal/verify/verify.go:46-50 | hex text determines the bytes |
| Encoding.HexAt | internal/verify/verify.go:46-50 | two digits per byte, high half first, 0-9 then a-f |
| Encoding.DecodeEncode | internal/verify/resign.go:10-11 | base64 decoding inverts encoding |
| Encoding.B64At | internal/verify/resign.go:10-11 | each three bytes become the four base64 characters of their 24 bits, most significant first |
| Encoding.DecodableIff | internal/verify/standard.go:44-48 | a text decodes iff, line ends aside, it is base64 characters in fours with at most two padding characters at the end |
| Encoding.B64Alphabet | internal/verify/resign.go:10-11 | base64 text has no space, comma or other foreign character |
| Verify.HeaderLookup | internal/verify/verify.go:64-71 | returns the value of some entry whose name matches, or empty when none does |
| Verify.LookupIs | internal/verify/verify.go:64-71 | without names differing only in case the lookup has one possible answer |
| Verify.ToleranceExact | internal/verify/stripe.go:45-47 | the wrapped two-sided test accepts iff the difference is within 300 or is exactly 2^63 |
| Verify.ParseStripe | internal/verify/stripe.go:24-37 | the header loop yields the last t and all v1 values in order |
| Verify.VerifyStripe | internal/verify/stripe.go:17-56 | the method over its loops computes StripeVerify, error by error |
| Verify.StripePassIff | internal/verify/stripe.go:17-56 | PASS iff the secret is set, the last well-formed t parses and is in tolerance and some v1 matches, in any order of parts |
| Verify.StripeAnswer | internal/verify/stripe.go:17-39 | which refusal comes first: no secret, then no t value or no v1 value in the header |
| Verify.AnySignature | internal/verify/standard.go:51-56 | accepts iff some listed signature equals the wanted one |
| Verify.VerifyStandard | internal/verify/standard.go:18-58 | the method with its Svix fallbacks computes StandardVerify, error by error |
| Verify.StandardPassIff | internal/verify/standard.go:18-58 | PASS iff secret, id, timestamp and signature are there, the time is in tolerance, the key is base64 and the words of the signature header include the base64 MAC of "<id>.<timestamp>.<body>", bare or after "v1," |
| Verify.VerifyPlain | internal/verify/github.go:15-29 | the github, razorpay and shopify checks, error by error |
| Verify.GitHubPassIff | internal/verify/github.go:15-29 | PASS iff the secret is set and the header is the hex MAC in either case, bare or after "sha256=" |
| Verify.RunChain | internal/verify/chain.go:70-96 | the method over its loop computes Chain: pinned, unknown, undetected and first-detected cases |
| Verify.PinnedAnswer | internal/verify/chain.go:70-89 | a pinned provider is SKIPPED under its name iff all its signature headers are absent or empty, else it answers PASS or FAIL by its own check; an unknown hint is a FAIL |
| Verify.UnpinnedAnswer | internal/verify/chain.go:90-96 | unpinned: SKIPPED iff the headers of all five providers are absent or empty, else the first one in order with a header answers PASS or FAIL |
| Verify.FirstDetected | internal/verify/chain.go:90-94 | an unpinned chain answers as the first provider whose headers are present |
| Verify.StripeMessageInjective | internal/verify/stripe.go:48-48 | "<t>.<body>" determines t and body |
| Verify.StandardMessageBinding | internal/verify/standard.go:49-50 | "<id>.<ts>.<body>" determines all three unless one id extends the other by a dot |
| Verify.SeparatedIff | internal/verify/standard.go:49-50 | under parseable timestamps the message separates two ids iff neither is the other extended by a dot and a numeric segment |
| Verify.ConfusedAccepted | internal/verify/standard.go:49-56 | for confusable ids, any MAC and any usable secret, one Webhook-Signature is accepted under both |
| Verify.DottedIdsCollide | internal/verify/standard.go:49-56 | such ids: "a" at time 1 and "a.1" at time 2 share an accepted signature under every MAC |
| Verify.StripeBinding | internal/verify/stripe.go:17-56 | two accepted Stripe-Signature headers state the same time for the same body, or list different v1 values each matching its own message, or exhibit a MAC collision |
| Verify.StandardBinding | internal/verify/standard.go:18-58 | a Webhook-Signature accepted twice is for the same tuple, or confusable ids, or lists two different signatures each made for its own tuple, or exhibits a MAC collision |
| Verify.PlainBinding | internal/verify/github.go:15-29 | github, razorpay, shopify: headers accepted for two bodies exhibit a MAC collision |
| Verify.PassIsEarned | internal/verify/chain.go:70-96 | a PASS names a known provider, the pinned one if any, whose headers are present and whose own check passed under a non-empty secret |
| Resign.Resign | internal/verify/resign.go:22-63 | the method computes RefreshSignatures, refusal by refusal |
| Resign.ResignStandard | internal/verify/resign.go:37-55 | the Standard Webhooks branch with its two id names and two header shapes |
| Resign.RefreshIff | internal/verify/resign.go:22-63 | re-signing succeeds iff the provider is concrete and known, the secret set and, for standard, an id stored and the key valid base64 |
| Resign.RefusalIs | internal/verify/resign.go:22-63 | which refusal: each of the five by the condition on provider, secret, stored id and key |
| Resign.StripeRoundTrip | internal/verify/resign.go:31-34 | the printed Stripe header verifies up to 300 s away |
| Resign.StandardRoundTrip | internal/verify/resign.go:37-55 | the printed Standard values verify up to 300 s away |
| Resign.ResignRoundTrip | internal/verify/resign.go:13-21 | all five providers: whatever re-signing returns, merged over the old headers, makes the pinned chain PASS for that body up to 300 s away |
| Resign.FreshSeen | internal/verify/resign.go:37-55 | which of the six header values the check reads change by the merge, and to what |
| StandardExact.Unlisted | internal/verify/standard.go:51-56 | no header a Go string can hold lists every MAC value |
| StandardExact.AlwaysPassesIff | internal/verify/standard.go:22-33 | whichever of the six headers are lost or replaced, the re-signed message passes for every MAC and clock pair iff the fresh timestamp, the fresh signature and the signed id are the ones read |
| StandardExact.MergePassesIff | internal/verify/resign.go:37-55 | with nothing lost or replaced: iff no stored Webhook-Timestamp or Webhook-Signature shadows the Svix-* headers |
| Resign.StaleTimestampDefeatsResign | internal/verify/standard.go:26-33 | with Svix-Signature and an out-of-window Webhook-Timestamp stored, the re-signed message FAILs |
| Resign.OldSignatureShadowsNew | internal/verify/standard.go:30-33 | with Webhook-Signature stored the fresh Svix signature has no influence |
| Headers.LowerHeaders | internal/capture/capture.go:193-199 | one entry per name, values joined in order |
| Headers.CanonUnique | internal/replay/replay.go:84-90 | names that match up to case get one canonical spelling |
| Headers.CanonAt | internal/replay/replay.go:84-90 | a token name gets a capital at the start and after each hyphen and small letters elsewhere; any other name keeps its spelling |
| Headers.Header.HopHeaders | internal/outbound/outbound.go:132-144 | the fixed names plus the lower-cased tokens of the first Connection value |
| Headers.Header.StripHopByHop | internal/outbound/outbound.go:147-155 | deleting while ranging in any order computes Strip |
| Headers.StripExact | internal/outbound/outbound.go:130-155 | on canonical names exactly the hop-by-hop fields go, all others keep their values |
| Headers.TokensIff | internal/outbound/outbound.go:132-144 | a name is a token of a Connection value iff it is one of the comma-separated parts, white space and case aside |
| Headers.StripMeans | internal/outbound/outbound.go:130-155 | a field is stripped iff it is one of the eight hop-by-hop fields or the first Connection value names it |
| Headers.StripIdempotent | internal/outbound/outbound.go:147-155 | stripping twice is stripping once |
| Headers.LookupCanonical | internal/verify/verify.go:64-71 | on a canonical map the fold lookup finds exactly the canonical entry |
| Replay.CanonInto | internal/replay/replay.go:82-90 | merging under canonical names in any order is the right-biased union |
| Replay.Restore | internal/replay/replay.go:99-110 | restoring stored fields name by name in any order, value by value |
| Replay.Override | internal/replay/replay.go:113-118 | overrides replace fields, except Host and Content-Length |
| Replay.Replayer.BuildHeader | internal/replay/replay.go:96-120 | the header built step by step is Outgoing |
| Replay.Replayer.Merge | internal/replay/replay.go:65-90 | effective provider, re-sign, then explicit headers on top, or the refusal |
| Replay.Replayer.SendWithOptions | internal/replay/replay.go:41-134 | message sent, rows left and status, latency and text returned are those of the plan |
| Replay.SentMessage | internal/replay/replay.go:60-95 | sent iff not blocked, sendable and, if asked, re-signable as the provider its columns give; then with the stored method, the target given, and the body given or else the stored one |
| Replay.SentField | internal/replay/replay.go:71-120 | each field sent: the caller's value over the re-signed one over the markers over the stored one, minus Host, Content-Length and hop-by-hop names |
| Replay.AnswerTold | internal/replay/replay.go:121-134 | the rows and the reply of each outcome agree; a reply holds at most the first 65536 bytes of the answer |
| Replay.BlockedIff | internal/outbound/outbound.go:34-50 | blocked are exactly targets that are no http(s) URL with a host, metadata addresses, and the five metadata names in any case and with or without a final dot |
| Replay.OutgoingField | internal/replay/replay.go:96-120 | every field of the sent header: explicit and re-signed over markers over stored, minus Host, Content-Length and hop-by-hop names, Content-Type once |
| Replay.NameSurvives | internal/replay/replay.go:99-120 | what the receiver looks up under a signature name |
| ReplayExact.ResignSurvivesReplay | internal/replay/replay.go:71-120 | a row that can be re-signed as the provider its columns give (verified_by, else the endpoint's) is sent with the body given or stored, and passes the chain pinned to that provider for that body, all five providers |
| ReplayExact.ReplayPassesIff | internal/replay/replay.go:71-120 | stripe, github, razorpay, shopify, by the provider the columns give: it is sent and passes iff the Connection value, the caller's or else the stored one, does not name the signature header |
| ReplayExact.StandardReplayPassesIff | internal/replay/replay.go:74-120 | standard: it passes for every MAC and clock pair iff, after the caller's overrides and stripping what Connection names, the fresh timestamp, the fresh signature and the signed id are the ones read |
| ReplayExact.OtherIdDefeatsResign | internal/replay/replay.go:65-90 | an explicit Webhook-Id other than the stored id makes re-signing fail |
| ReplayExact.ReplayWithoutConnectionPasses | internal/replay/replay.go:74-120 | any provider: with no Connection stored or given, a request that can be re-signed and shadows nothing is always sent and passes |
| Replay.FailedResignSendsNothing | internal/replay/replay.go:71-83 | re-signing is refused exactly when the provider the columns give is not one of the five, the secret is empty or, for standard, no event id is stored or the key is not base64; then nothing is sent and one row tells why |
| Replay.RecordedIff | internal/outbound/outbound.go:34-50 | over the modelled guard and method check: a replay of a stored request leaves exactly one row iff it is blocked, refused or its method is a token, as every received method is |
| Timestamps.YearStart | internal/gc/gc.go:14-19 | counting calendar years one by one agrees with the closed form |
| Timestamps.RenderOrder | internal/gc/gc.go:10-14 | byte order on rendered timestamps is time order, years 0000 to 9999 |
| Timestamps.DateIs | internal/gc/gc.go:14-19 | the day number of every Gregorian date from 0000 to 9999, by the month table and the leap rule, is rendered as that date |
| Timestamps.RenderIs | internal/gc/gc.go:10-14 | an instant is rendered as year, month and day in four, two and two digits, a T and its time of day |
| Timestamps.TimeIs | internal/gc/gc.go:10-14 | the time of day is hours, minutes, seconds and milliseconds in two, two, two and three digits and a Z |
| Timestamps.LastInstant | internal/api/server.go:114-115 | the rendering of the last representable millisecond |
| Timestamps.BelowSentinelIff | internal/api/server.go:114-115 | every instant but that one sorts below the start cursor |
| Store.Database.DeleteRequests | internal/api/server.go:691-703 | exactly the other requests and the replays of those remain, unchanged |
| Store.Database.DeleteEndpoints | internal/api/server.go:447-458 | deleting endpoints cascades to requests and replays |
| Store.Database.Collect | internal/gc/gc.go:27-43 | the two statements compute Gc and report the rows each deleted |
| Store.GcExact | internal/gc/gc.go:27-43 | exactly the requests before the cutoff and their replays go; an endpoint goes iff expired and left without requests; foreign keys hold |
| Store.DurationExactIff | internal/gc/gc.go:18-18 | the int64 duration is the one meant iff -2562047 <= hours <= 2562047 |
| Store.RetentionMeansTime | internal/gc/gc.go:17-29 | within that bound, string comparison deletes exactly the older requests |
| Store.RetentionMeansTimeIff | internal/gc/gc.go:17-29 | it does so for every clock and request iff -2562047 <= hours <= 2562047, the command line allowing any int |
| Store.OverlongRetentionDeletesAll | internal/gc/gc.go:18-29 | above the bound and up to twice it, everything received so far is deleted |
| Store.DropsKeepSound | migrations/001_init.sql:19-37 | deletes keep both foreign keys |
| Store.InsertsKeepSound | migrations/001_init.sql:19-37 | inserts keep both foreign keys |
| Capture.WholeBodyIff | internal/capture/capture.go:139-146 | a body is kept whole iff it fits and is refused otherwise, at every limit but 2^63-1 |
| Capture.Handler.ServeHook | internal/capture/capture.go:109-191 | tables, notifications, hand-overs and answer are those of Serve, exit by exit |
| Capture.AnswerIsEvidence | internal/capture/capture.go:109-191 | a configured reply or 429 means the whole body was stored once under the chain's verdict on it and then announced; 400, 413 and 503 store, announce and forward nothing |
| Capture.ServeAnswers | internal/capture/capture.go:109-191 | each answer by its own cause: 400, 413, 503, and for stored captures 429 iff the limiter does not admit, else status, body and content type of the endpoint row, or 200, {"ok":true}, application/json where there was none |
| Capture.ServeRow | internal/capture/capture.go:119-169 | the row stored, field by field, with the chain's verdict under the provider and secret of the endpoint row or under none |
| Capture.ServeHandsOver | internal/capture/capture.go:171-176 | handed to the forwarder iff stored, the endpoint has a target and neither marker header has a value |
| Capture.EvidenceAlways | internal/capture/capture.go:119-191 | over all interleavings of the single statements of any number of captures, which may die anywhere, with edits, deletes, cleanup and delivery rows: foreign keys hold, rows are what was stored, an answered capture was stored whole and announced, every stored request is announced once and after storage or lost its capture in between, every hand-over names an announced unmarked request once |
| Capture.EvidenceStep | internal/capture/capture.go:119-191 | each single statement keeps the evidence invariant |
| Capture.HookIsItsSteps | internal/capture/capture.go:109-191 | the handler run undisturbed is its statements one after the other |
| Capture.StoredRequestsAreImmutable | internal/api/server.go:494-503 | a stored request never changes, and leaves exactly by its delete, its endpoint's, or the cleanup |
| Hub.Hub.Broadcast | internal/capture/capture.go:72-85 | visiting subscribers in any order computes Broadcasted |
| Hub.BroadcastMeans | internal/capture/capture.go:72-85 | a note goes to each subscriber of its endpoint or of all whose channel holds fewer than 16, and the counter grows by the number of those whose channel is full |
| Hub.Hub.Subscribe | internal/capture/capture.go:96-100 | a fresh empty channel with the filter |
| Hub.Hub.Unsubscribe | internal/capture/capture.go:101-105 | the subscription goes, the buffer stays readable |
| Hub.Isolation | internal/capture/capture.go:72-85 | what a subscriber sees is a function of its own events and the broadcasts alone |
| Hub.FanOut | internal/capture/capture.go:72-85 | read ++ buffered is an in-order subsequence of what was offered; offered = read + buffered + dropped; at most 16 buffered |
| Hub.FanOutExact | internal/capture/capture.go:72-105 | over every run what a channel's reader got and what waits are, in order, among the notes sent between its joining and leaving for the endpoint it joined, or all; at most 16 wait and the rest is what it lost |
| Hub.NextNote | internal/capture/capture.go:75-84 | a note gets in iff the channel subscribed to it and fewer than 16 wait |
| Hub.OnlyItsEndpoint | internal/capture/capture.go:75-78 | a viewer of one endpoint never gets another's note |
| Hub.SilentAfterLeave | internal/capture/capture.go:101-105 | after unsub nothing is sent, the buffer only drains |
| Hub.DropsAreTheSum | internal/capture/capture.go:79-94 | the drop counter is the sum of what each subscriber lost, modulo 2^64 |
| Pages.CursorRoundTrip | internal/api/server.go:107-112 | a printed cursor parses back to the row, even if the id contains a bar |
| Pages.CursorPrintParse | internal/api/server.go:107-112 | an accepted cursor text prints back to itself |
| Pages.CursorAccepted | internal/api/server.go:107-117 | accepted are exactly the texts of positions with both parts non-empty; no cursor means the start position |
| Pages.PageSizeIs | internal/api/server.go:98-106 | the page size is 50 by default and otherwise the integer given, if 1 to 100 |
| Pages.BeforeIff | internal/api/server.go:204-206 | rows are ordered by the bytes of the time and then of the id |
| Pages.DescendingUnique | internal/api/server.go:204-206 | the sort order is total: one listing per set of rows |
| Pages.List | internal/api/server.go:211-226 | the copying loop and trimming compute NextCursor |
| Pages.PageExact | internal/api/server.go:120-129 | a page is the first eligible rows in order, and everything left out lies after its own cursor |
| Pages.AnswerHolds | internal/api/server.go:199-226 | one request gets the first rows before its cursor, as many as the page size, and is refused iff size or cursor is |
| Pages.WalkWhileChanging | internal/api/server.go:464-492 | while rows come and go: a walk is refused only for its own limit or first cursor, no row comes twice, order is kept, every row present throughout is shown by a finished walk |
| Pages.WalkIsSortedTable | internal/api/server.go:199-226 | on a table at rest the walk ends and is the sorted table, for every accepted limit |
| Pages.StoredRowListedIff | internal/api/server.go:113-115 | a server-stamped row is listed iff it is not in the last millisecond of 9999 |
| Migrations.Connection.ApplyMigrations | internal/db/db.go:80-154 | from any stage the loop reaches the final schema, again a no-op there; a newer schema is refused unchanged |
| Migrations.MigrationConverges | internal/db/db.go:80-154 | any processes, crashes, failures and retries: always at one of four stages, and final once anyone has opened |
| Migrations.FinalIsSafe | migrations/002_verified_by.sql:3-3 | the final schema keeps every row, adds verified_by at most once and records both versions |
| Migrations.EmptyBecomes | migrations/001_init.sql:4-44 | an empty database becomes the three tables, two indexes and fifteen request columns, without rows |
| Migrations.NewerIsUntouched | internal/db/db.go:89-95 | a newer schema is refused by every opener, data untouched |
| Migrations.RaceFailsCleanly | internal/db/db.go:96-152 | of two processes that both found a version missing the second fails and changes nothing |
| MixedArgs.ParseMixed | internal/cli/cli.go:81-114 | the loop computes Sort, then fs.Parse on the flags |
| MixedArgs.MixedExact | internal/cli/cli.go:75-114 | on a line that does not derail the outcome is the flags' assignments in order and the positionals in order, everything after `--` positional, nothing unread |
| MixedArgs.UnknownFlagRefused | internal/cli/cli.go:110-113 | an undeclared flag makes the line fail wherever it stands and whatever follows |
| MixedArgs.MissingValueRefused | internal/cli/cli.go:110-113 | so does a value flag at the end of the flags without its value |
| MixedArgs.SameAsFlagsFirst | internal/cli/cli.go:75-80 | any interleaving parses like the line with all flags first |
| MixedArgs.MeantIff | internal/cli/cli.go:81-114 | with acceptable values the outcome is the one meant iff no item that looks as if it lacked a value stands before a positional and no separate value is `-` or `--` |
| MixedArgs.SwallowedOutcome | internal/cli/cli.go:99-103 | what survives: the assignments up to and with the swallowing flag, no swallowed positional, no later flag |
| MixedArgs.AllReadIff | internal/cli/cli.go:110-113 | with acceptable values other than `-` and `--`, fs.Parse reads its whole list iff the line does not derail |
| MixedArgs.EmptyInlineLosesTheRest | internal/cli/cli.go:99-103 | `--target= id --resign` yields no positional and no resign |

## Left out

- RateLimit.Limiter.Allow: tokens are exact integers (token-nanoseconds); float64 rounding is not modelled.
- StandardExact.AlwaysPassesIff: a signature header is no longer than a Go string can be, 2^63-1 bytes.
- Replay.Replayer.SendWithOptions: says nothing when stored or explicit names collide up to case, because Go then picks a winner by map order; HTTP header maps filled by the server do not collide. The wording of re-signing errors is a parameter.
- ReplayExact.StandardReplayPassesIff: quantifies over all MACs and clocks; for one MAC a stale value may pass by a collision or because it still matches.
- Capture.EvidenceAlways: request ids are assumed fresh, as uuid.NewString makes them.
- Verify.HeaderLookup: may return any of several names that differ only in case, as the Go map range may.
- Capture.Handler.ServeHook: its state is described only for headers without names that differ only in case, which is what net/http delivers.
- Migrations.MigrationConverges: a legacy database is assumed to have the columns the two indexes need; loading and sorting the embedded script files is replaced by the fixed list of two.
- Pages.WalkWhileChanging: rows with an empty id, or a bar in the timestamp, are excluded; the server writes neither.
- HTTP, DNS, dialing (with its own address check), proxies, TLS and redirects: a send is a step with any outcome, and header fields reach the receiver as sent.
- SHA-256 and HMAC internals, and constant-time comparison.
- SQLite itself (WAL, busy timeouts, strftime, files): tables are maps with cascading foreign keys and each statement or transaction is atomic. Rows are taken to carry timestamps in the stored format.
- Real time, tickers, sleeps and time-outs: nondeterministic choices.
- Text is ASCII where case and white space matter; error and hint wording of the signature checks is reduced to reasons.
- url.Parse, IP literal parsing, slug.Valid and uuid: their answers are inputs.
- Client IP extraction and the SSE stream handler.
- The Generic verifier with custom header and prefix: no configuration reaches it.
- Counters of forwarding attempts and drops are unbounded, not int64.
- Login, cookies, web UI, JSON encoding, configuration, endpoint editing beyond replacing a row, `--help` texts.
