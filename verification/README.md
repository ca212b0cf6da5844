# shardVPN control plane and request signing

A Dafny model of the two places where shardVPN can go wrong silently, with proofs over every input,
every fault pattern and every run:

* **The node lifecycle.** The state is the live EC2 instances of every region, with the tags the code
  reads, and the one SSM parameter that names the tracked node. `up`, `down`, `status` and the hourly
  sweep act on it, one at a time (terraform/lambda.tf:35). Any call may fail, a call that changes
  something may also take effect although its caller sees an error, the Lambda may die between two
  effects, and an instance may end at any moment.
* **The signing path.** The phone's own UTF-8, SHA-256 and HMAC, in JavaScript's signed 32-bit
  arithmetic over exact doubles, against FIPS 180-4, RFC 2104 and RFC 3629, and against the verifier
  of lambda/shardvpn/auth.py, the secret cache and the entry point.

## How the model is built

| files | what they hold |
|---|---|
| `Words`, `JsNumber` | 32-bit words bit by bit; JavaScript's int32 operators over integers of at most 2^53 |
| `Fips180`, `Sha256` | the standard's digest; the client's loops over arrays, proved to compute it |
| `Unicode`, `Utf8` | UTF-16 iteration, UTF-8 both ways; the client's encoder |
| `Hmac` | RFC 2104; the client's `hmacSha256Hex` |
| `Decimal`, `Calendar`, `Ttl` | decimal digits, the UTC calendar, timestamps, TTLs, durations |
| `Auth` | the server's check, the client's headers, and the two together |
| `SecretCache`, `Gateway` | the cached secret over runs of reads; the entry point's gates |
| `Fleet` | worlds, effects, replay; what a DescribeInstances call may return |
| `Settings` | the text of the pointer parameter and what it reads as |
| `Handler`, `Watchdog` | what `up`, `down`, `status` and the sweep do: the list of effects of one action |
| `Answers` | when `up`, `down` and `status` answer what and do what, in terms of the request and its calls |
| `Cloud`, `Requests`, `Sweeper`, `Service` | the same actions as code that updates an account and a secret cache call by call, with its loops, early returns and mutable summary, proved to issue exactly those effects, also when the invocation dies half-way; whole runs of events |
| `SweepProperties`, `SweepTheorems` | what a sweep guarantees under every fault pattern |
| `Runs`, `Tracking`, `Retry`, `Ledgers`, `Cadence` | what runs of actions guarantee |
| `Reporting` | what the summary and the answers prove about the fleet |
| `Shortfalls` | inputs at which the control plane falls short, as runs from an empty account |
| `Idle`, `Sending` | idle readings; the phone's retry loop |

An action is specified as a function from the pointer and the outcomes of its calls to a list of
effects. Dying after `n` effects means that a prefix of the list happens. A read returns live nodes of
its region as they are; what it misses is gone before the action ends (`Fleet.Sees`). The methods in
`Requests` and `Sweeper` carry the imperative form and are proved against those functions, so that
theorems about runs (`Runs.Final`) are theorems about them (`Service.Serve`): an invocation goes from its
event through the secret and the signature to its action, and one that is turned away counts as a step
that changes nothing.

## What is not so

Where the code does not keep what one would expect, the model keeps the code. Each of these has a theorem
with the exact condition and a lemma at an input that meets it.

* A `down` that answers "absent" has only emptied one region. Everything is down exactly if no node was
  elsewhere (`Retry.DownLeavesNothingExactly`, `Shortfalls.DownMissesAnOrphan`).
* A retried `up` repairs the pointer exactly if the old pointer leads to no live node, or is right. If it
  names a dead instance beside a live one in the same region, `up` answers with the live node and leaves
  the dead id in place (lambda/shardvpn/handler.py:212-215); only the sweep corrects it
  (`Retry.RetryRepairsExactly`, `Shortfalls.RetryKeepsAStaleId`).
* A sweep whose terminate of an expired node fails clears the pointer all the same, and so loses track
  of a node that is still live (`Tracking.SweepKeepsTrackExactly`, `Shortfalls.SweepForgetsALiveNode`).
* The idle message is sent before the tag is stamped, so a failed stamp repeats it at the next sweep
  (`Cadence.RepeatsExactly`, `Shortfalls.MessageIsRepeated`). The tag holds whole seconds, so "a day
  apart" is counted in whole seconds.
* A sweep that could not read the pointer does not count that as a failure
  (lambda/shardvpn/watchdog.py:193-198). An empty failure list proves that the fleet is in order exactly
  if the pointer could be read or was right anyway (`Reporting.SilentSweepExactly`,
  `Shortfalls.SilentSweepLeavesAnOrphan`).
* Self-stabilisation needs dated nodes: of several unexpired nodes of which one cannot be dated, the
  sweep touches none. At most one node is left exactly if the survivors can be ordered
  (`SweepTheorems.SweepStabilises`, `Shortfalls.UndatedDuplicatesStay`).
* `_describe` means to degrade when Tailscale cannot be asked, but catches `TailscaleError` alone
  (lambda/shardvpn/handler.py:141-152). It fails exactly if one of the two secrets cannot be read, or if
  the lookup raises something else, as it does for a reply that is no JSON object
  (`Handler.DescribeRaisesExactly`, `Shortfalls.StatusFailsForASecret`).

## Model

| member | source | states |
|---|---|---|
| Sha256.Sha256 | docs/ios/shardvpn.js:36-92 | for every byte array of fewer than 2^53 bits the result is the FIPS 180-4 digest |
| Sha256.PadMessage | docs/ios/shardvpn.js:56-61 | the two padding loops produce the padding of section 5.1.1, length bytes included |
| Sha256.FillSchedule | docs/ios/shardvpn.js:64-73 | in-place filling of `w` yields the message schedule of section 6.2.2 as words |
| Sha256.CompressInPlace | docs/ios/shardvpn.js:74-86 | 64 rounds on signed numbers and the update of `h` are one step of the standard's compression |
| Sha256.PushDigest | docs/ios/shardvpn.js:89-91 | the eight numbers leave as their words' big-endian bytes |
| Sha256.RotateRightIsRotr | docs/ios/shardvpn.js:55 | the signed or-of-shifts rotation is the standard's ROTR on the word |
| Sha256.RoundIsStandard | docs/ios/shardvpn.js:75-84 | both signed sums of a round, exact in doubles, and the shuffle are a standard round modulo 2^32 |
| Sha256.AssembleIsBigEndian | docs/ios/shardvpn.js:67 | four bytes joined by signed shifts are the big-endian word, sign bit included |
| Sha256.WordBytesAreBigEndian | docs/ios/shardvpn.js:90 | a possibly negative number splits into the four bytes of its word |
| JsNumber.OrZeroReduces | docs/ios/shardvpn.js:72 | `x \| 0` of any exact integer stands for x modulo 2^32 |
| Utf8.Utf8Bytes | docs/ios/shardvpn.js:15-32 | the encoder's output is the RFC 3629 bit layout of the string's code points |
| Utf8.Utf8BytesInjective | docs/ios/shardvpn.js:15-32 | two JavaScript strings with the same encoding are the same, lone surrogates included |
| Unicode.DecodeIsInverse | docs/ios/shardvpn.js:15-32 | strict RFC 3629 decoding yields `cs` exactly if the bytes encode `cs` and all of `cs` are scalar values |
| Utf8.ClientAndServerAgree | lambda/shardvpn/auth.py:70-72 | the client's bytes of a text are the bytes that Python's `encode` gives |
| ClientHmac.HmacSha256Hex | docs/ios/shardvpn.js:94-102 | the result is the lower-case hex of RFC 2104's HMAC over SHA-256, long keys included |
| Auth.Sign | docs/ios/shardvpn.js:138-148 | the headers the client computes carry the timestamp and the signature that the server recomputes |
| Auth.SignatureShape | lambda/shardvpn/auth.py:15 | every signature has exactly 64 lower-case hex digits |
| Auth.TimestampShape | lambda/shardvpn/auth.py:14 | a printed clock value passes the shape check exactly if 0 <= t < 10^11 |
| Auth.ClientRequestAccepted | lambda/shardvpn/auth.py:37-75 | for every secret, body and clock: a signed request is accepted exactly if 0 <= t < 10^11 and the clocks are within 120 s |
| Auth.AcceptedExactly | lambda/shardvpn/auth.py:37-75 | any request is accepted exactly if all header names are text, the last header of each of the two names, but for case, holds 1 to 11 digits within 120 s and the RFC 2104 signature of those digits, a dot and the body |
| Decimal.ParseIntByPlaces | lambda/shardvpn/auth.py:62 | timestamps with leading zeros count by places like any others |
| Auth.SignedBytesDetermineRequest | lambda/shardvpn/auth.py:70-72 | equal signed bytes mean equal timestamp and equal body: the dot cannot be moved |
| SecretCache.Cache.CachedSecret | lambda/shardvpn/settings.py:60-73 | one cached read; a failed fetch leaves the cache as it was, and other names are untouched |
| SecretCache.AnswersAreRecent | lambda/shardvpn/settings.py:60-73 | over every run of reads, failures and rotations, a value was fetched for that same name less than 300 s before |
| SecretCache.RotationTakesEffect | lambda/shardvpn/settings.py:60-73 | 300 s after a rotation no other value is returned |
| SecretCache.LookupExactly | lambda/shardvpn/settings.py:60-73 | an entry younger than 300 s is returned without SSM; otherwise the answer is SSM's, and is kept with its time |
| SecretCache.FetchedIsReused | lambda/shardvpn/settings.py:67-69 | within 300 s of a fetch the fetched value is returned, even while SSM fails |
| SecretCache.ReadTokenExactly | lambda/shardvpn/handler.py:110-114 | the client id is read first, and the client secret only once the id is there |
| Gateway.LambdaHandler | lambda/shardvpn/handler.py:35-107 | the entry point issues the effects and the reply of the route; the cache ends with the reads of the signing secret and of the two Tailscale secrets that the action makes, in the names and the order of the code, and no others |
| Gateway.RouteExactly | lambda/shardvpn/handler.py:39-95 | the order of the gates: 503 without a usable secret, 403 without a signature, 400 for a body that asks for nothing known, else the effects and the answer of the action, with the token secrets that the cache gives |
| Gateway.OnlySignedRequestsAct | lambda/shardvpn/handler.py:39-94 | nothing changes, and nothing beyond 403 or 503 is answered, except on a schedule or for a signature under a secret that SSM held within 300 s and is not the placeholder; no request runs the sweep |
| Gateway.PhoneIsServedExactly | lambda/shardvpn/handler.py:52-94 | end to end: once SSM has held the phone's secret for 300 s, a phone's request is carried out exactly if the secret can be read and the clocks agree |
| Calendar.ToCivilIsExact | lambda/shardvpn/ttl.py:21-22 | splitting an instant into calendar fields loses nothing up to the year 9999 |
| Ttl.Rfc3339Parses | lambda/shardvpn/ttl.py:21-26 | a printed timestamp parses back to its own whole second |
| Ttl.TtlEndToEnd | lambda/shardvpn/ttl.py:29-70 | an accepted TTL of s seconds, 60 <= s <= one year, is expired exactly from floor(launch) + s on |
| Ttl.ParseTtlExactly | lambda/shardvpn/ttl.py:29-56 | accepted are a missing TTL, `never`, `none`, and up to 4300 digits with m (60 s), h (3600 s) or d (86400 s) that make a minute to a year; the expiry is that much after the launch |
| Ttl.IsExpiredExactly | lambda/shardvpn/ttl.py:59-70 | expired is exactly what is not `never`, parses, and has passed |
| Calendar.ParseExactly | lambda/shardvpn/ttl.py:25-26 | a text parses to a second exactly if it spells a valid date and time that is that second, with or without leading zeros; no other text parses |
| Ttl.FormatDurationReads | lambda/shardvpn/ttl.py:73-82 | a rendered duration reads back as exactly the whole minutes of max(s, 0) |
| Ttl.FormatDurationShape | lambda/shardvpn/ttl.py:73-82 | hours appear exactly from 3600 s on and days from 86400 s on; minutes always come last |
| Retry.ReapedExactly | lambda/shardvpn/watchdog.py:243-256 | a node that a sweep sees is reaped exactly if its TTL has run out since its launch second and the call succeeds |
| Ledgers.ReapedAtItsTime | lambda/shardvpn/handler.py:226-287 | after any run, with the TTL that the node's own launch accepted: reaped exactly if that has run out since the launch second and the call succeeds; then the node is no longer live, and a refused call leaves it live |
| Handler.UpEffects | lambda/shardvpn/handler.py:210-308 | `up` launches only into a listed region in which nothing stays alive, with parseable tags, and otherwise at most points at a live node |
| Handler.DescribeRaisesExactly | lambda/shardvpn/handler.py:117-178 | describing a region that holds a node fails exactly if a secret read raises or the lookup raises something else than TailscaleError; else it names the pointer's own node or the first, says online, absent or unknown as the lookup ended, and gives that node's idle time |
| Handler.IdleIsGivenExactly | lambda/shardvpn/handler.py:154-176 | the idle time is given exactly for a running node whose launch tag is not a timestamp of the last 900 s and for which CloudWatch has data |
| Answers.UpLaunchesAndAnswers | lambda/shardvpn/handler.py:210-308 | with the requested region and TTL, or else the default ones: exactly when `up` launches, the node and tags it launches, the pointer it stores, and that it answers with the new node exactly if both calls succeed |
| Answers.UpNeedsItsInputs | lambda/shardvpn/handler.py:220-234 | without a region or without a TTL nothing is launched |
| Answers.UpAdopts | lambda/shardvpn/handler.py:240-255 | a node found in the region is stored in the pointer and described; if the write fails, so does `up` |
| Answers.UpStopsAtThePointer | lambda/shardvpn/handler.py:211-215 | an unreadable pointer fails, and a region of the pointer that is not seen empty answers by itself, without any effect |
| Answers.UpRefusesExactly | lambda/shardvpn/handler.py:223-234 | 400 is answered exactly for an unlisted region or a TTL that is not accepted, and changes nothing |
| Answers.UpOtherwiseFails | lambda/shardvpn/handler.py:217-272 | every other case fails without an effect |
| Answers.UpNeedsTokenExactly | lambda/shardvpn/handler.py:145-271 | the Tailscale secrets are read exactly if a found node is described or a launch is ready for its key |
| Answers.DownAnswersAbsentExactly | lambda/shardvpn/handler.py:186-207 | `down` answers "absent" exactly if it could look, every node found was terminated, and the pointer, if any, was cleared |
| Answers.DownDoesExactly | lambda/shardvpn/handler.py:186-207 | the nodes found are terminated in order up to the first call that raises; the pointer, if any, is cleared after all have returned |
| Answers.ConsultedExactly | lambda/shardvpn/handler.py:188-202 | `down` looks in the pointer's region, or without a pointer in the default one |
| Answers.StatusExactly | lambda/shardvpn/handler.py:181-183 | `status` says "absent" without a pointer, describes where one leads, and otherwise fails |
| Handler.TerminationsAreKills | lambda/shardvpn/handler.py:198-204 | `down` terminates nodes it found and no others, and all of them if no call raises |
| Requests.HandleUp | lambda/shardvpn/handler.py:210-308 | the running `up` issues the specified effects in order and gives the specified answer, from every account state and for every failure |
| Requests.HandleDown | lambda/shardvpn/handler.py:186-207 | the same for `down`, whose loop ends at the first call that raises |
| Requests.HandleStatus | lambda/shardvpn/handler.py:181-183 | `status` answers as specified, changes nothing in the account, and reads the token secrets exactly if it finds a node |
| Requests.Token | lambda/shardvpn/handler.py:110-114 | two cached reads, the second only if the first succeeds |
| Requests.Select | lambda/shardvpn/handler.py:133-138 | the search picks the pointer's own node if it is there, else the first |
| Sweeper.Scan | lambda/shardvpn/watchdog.py:208-238 | discovered nodes in region order, and one failure for each region that could not be scanned |
| Sweeper.SafeTerminate | lambda/shardvpn/watchdog.py:130-145 | a failed terminate adds exactly one failure and does not raise |
| Sweeper.Reap | lambda/shardvpn/watchdog.py:243-256 | every expired node gets one terminate call, in order; survivors are exactly the unexpired ones, in order |
| Sweeper.OrderSurvivors | lambda/shardvpn/watchdog.py:98-127 | refuses exactly if several survive and one is undated; else the stable newest-first order |
| Sweeper.CheckIdle | lambda/shardvpn/watchdog.py:309-330 | the isolated alert block: stamp, alerted entry, or one failure entry |
| Sweeper.ReconcilePointer | lambda/shardvpn/watchdog.py:351-372 | the pointer write or its absence, as specified, with one failure entry if it fails |
| Sweeper.RunSweep | lambda/shardvpn/watchdog.py:148-377 | the running sweep issues the specified effects in order and returns the specified summary |
| Sweeper.NoRegions | lambda/shardvpn/watchdog.py:200-206 | without a region list a sweep does nothing and reports that, beside an unread threshold |
| Aws.Cloud.RunInstance | lambda/shardvpn/ec2ops.py:92-133 | a launch happens, is refused, or happens unseen; nothing happens once the invocation is dead |
| Aws.Cloud.WritePointer | lambda/shardvpn/settings.py:100-106 | the same for the pointer |
| Aws.Cloud.ReadPointer | lambda/shardvpn/settings.py:76-97 | on the stored text: reads as "no node" exactly if the parameter is missing, empty or `none`; what it returns is what the text means, and a failed read is never that |
| Settings.OnlyAbsenceIsNoNode | lambda/shardvpn/settings.py:76-97 | fails closed: errors, texts that are no JSON, and JSON without both members are unavailable, and nothing else is |
| Settings.WrittenIsRead | lambda/shardvpn/settings.py:100-106 | what is written, a pointer or none, reads back as itself |
| Service.Invoke | lambda/shardvpn/handler.py:35-107 | one invocation of the running code, from its event through the gates to its action, dying anywhere, is one step of the fleet and the cache; a refused one is a step without effects |
| Service.Serve | terraform/lambda.tf:35 | any number of invocations are a run of steps, and keep: pointer region right, one node a region, and one tracked node while writes succeed |
| SweepProperties.NewestFirstIsSorted | lambda/shardvpn/watchdog.py:126-127 | the order is descending by launch time and starts with the first of the newest in scan order |
| SweepProperties.KeptAndExtras | lambda/shardvpn/watchdog.py:277-284 | survivors split exactly into the kept node and the extra ones, none of which is newer |
| SweepTheorems.SweepSpares | lambda/shardvpn/watchdog.py:240-284 | whatever fails, a terminated node carries an expiry tag that is a timestamp and has passed, or a node that carries none such and is at least as new is left alone |
| SweepTheorems.ExpiredExactly | lambda/shardvpn/watchdog.py:246-247 | a missing or empty tag, `never`, and a text that is no timestamp keep a node |
| Retry.SweepReapsExactly | lambda/shardvpn/watchdog.py:243-256 | reaped are exactly the nodes found whose own tag has passed and whose call succeeds |
| Reporting.FoundInOrder | lambda/shardvpn/watchdog.py:221-238 | nodes are found in the order of the regions and of each answer; a region that cannot be scanned adds a failure and no node |
| Reporting.SplitInOrder | lambda/shardvpn/watchdog.py:243-256 | expired and surviving nodes keep that order |
| Reporting.KillsInOrder | lambda/shardvpn/watchdog.py:244-283 | terminate calls follow the list, one for each node, and only returned ones are reported |
| Reporting.SweepWritesLast | lambda/shardvpn/watchdog.py:240-372 | a sweep reaps, then ends duplicates, then stamps, and writes the pointer last |
| SweepTheorems.KeptIsNewest | lambda/shardvpn/watchdog.py:98-127 | the kept node is exactly the newest survivor, the first in scan order of several |
| SweepTheorems.SweepClearsExactly | lambda/shardvpn/watchdog.py:351-369 | the pointer is cleared exactly if it was read, every region was scanned and every node found had expired |
| SweepTheorems.SweepAdoptsExactly | lambda/shardvpn/watchdog.py:351-360 | the pointer is set to a node exactly if that is the chosen survivor and not yet the stored id; never to anything else |
| SweepTheorems.SweepConserves | lambda/shardvpn/watchdog.py:130-284 | discovered nodes are reaped, expired with a failed terminate, duplicates, duplicates with a failed terminate, or left alone, each exactly once, with multiplicity |
| SweepTheorems.SweepLeaves | lambda/shardvpn/watchdog.py:240-284 | the live nodes afterwards are exactly those before minus the reported terminations, when no reply was lost |
| SweepTheorems.SweepStabilises | lambda/shardvpn/watchdog.py:226-372 | from any drift, one undisturbed sweep leaves the newest unexpired node and a pointer to it, or nothing and no pointer; at most one node is left exactly if the survivors could be ordered |
| SweepTheorems.SweepIsFixpoint | lambda/shardvpn/watchdog.py:226-372 | whatever fails, a sweep of a settled fleet terminates nothing and writes no pointer |
| SweepTheorems.SecondSweepRests | lambda/shardvpn/watchdog.py:226-372 | the two together: the sweep after an undisturbed one rests |
| Shortfalls.UndatedDuplicatesStay | lambda/shardvpn/watchdog.py:117-124 | two nodes without launch tags outlast a sweep in which every call succeeds |
| Shortfalls.SilentSweepLeavesAnOrphan | lambda/shardvpn/watchdog.py:193-198 | a run from an empty account, then a sweep that cannot read the pointer, reports no failure and leaves an untracked node |
| Shortfalls.StatusFailsForASecret | lambda/shardvpn/handler.py:141-152 | `status` fails for a Tailscale secret that cannot be read, and answers when the tailnet is down |
| Retry.SweepNeverEmpties | lambda/shardvpn/watchdog.py:240-284 | whatever fails, a fleet with an unexpired node still has one after the sweep |
| Reporting.FailuresExactly | lambda/shardvpn/watchdog.py:186-372 | a problem is in the failure list exactly if it happened, kind by kind and node by node |
| Reporting.OrphansAndAlertsExactly | lambda/shardvpn/watchdog.py:292-330 | a node is listed as orphan exactly if it is the chosen one and the pointer that was read is not at it; as alerted exactly if it was judged idle and stamped |
| Reporting.SilentSweepExactly | lambda/shardvpn/watchdog.py:186-372 | after a sweep with an empty failure list, one tracked node or nothing is left exactly if the pointer could be read or was right anyway |
| Reporting.AnyRunIsRepaired | lambda/shardvpn/watchdog.py:148-377 | from an empty account and after any run, failing and dying anywhere, one sweep whose calls succeed leaves one tracked node or nothing |
| Reporting.UpAnswersTruly | lambda/shardvpn/handler.py:212-308 | when `up` answers with a node, the pointer leads to its region and it is up unless it ended by itself; a launched node is also the stored id |
| Reporting.StatusTellsTruth | lambda/shardvpn/handler.py:117-183 | in a tracked fleet `status` names the live node, and says "absent" exactly if there is none |
| Runs.AnchoredAlways | lambda/shardvpn/watchdog.py:351-360 | over every run and fault pattern, the pointer pairs an instance with the region it was created in, which justifies comparing ids alone |
| Runs.OnePerRegionAlways | lambda/shardvpn/handler.py:236-294 | over every run, death and fault pattern, no region ever holds two nodes launched by `up` |
| Ledgers.TrueTagsAlways | lambda/shardvpn/handler.py:217-287 | in every reachable state each live node is in a listed region, its launch tag parses back to the second of its own launch, and its expiry tag is that of the TTL accepted then |
| Ledgers.KeptWasLaunchedLast | lambda/shardvpn/watchdog.py:98-127 | so after any run the node that a sweep keeps is the one launched last, to the second, of the unexpired nodes it sees |
| Runs.NodesEndAtAnyTime | lambda/shardvpn/ec2ops.py:108-124 | a node that ends by itself during an action may do so between any two of its effects: the world afterwards is the same |
| Runs.QuietStep | lambda/shardvpn/watchdog.py:351-372 | a step that launches nothing loses nodes, keeps their tags but the last-alert one, and points only at live nodes |
| Tracking.TrackedAlways | lambda/shardvpn/handler.py:186-308 | while writes succeed, however reads fail and nodes end, there is at most one live node and the stored id is its own |
| Tracking.TrackedDown | lambda/shardvpn/handler.py:186-207 | and then a `down` that answers "absent" leaves nothing alive anywhere |
| Tracking.SweepKeepsTrackExactly | lambda/shardvpn/watchdog.py:243-372 | without that assumption a sweep keeps track exactly unless an expired node survives its terminate while the pointer is cleared |
| Shortfalls.SweepForgetsALiveNode | lambda/shardvpn/watchdog.py:243-372 | a run from an empty account that loses track of its node |
| Retry.DownLeavesNothingExactly | lambda/shardvpn/handler.py:186-207 | a completed `down` answers "absent" truthfully exactly if every remaining node was in the region it consulted |
| Shortfalls.DownMissesAnOrphan | lambda/shardvpn/handler.py:188-200 | a run from an empty account in which it is not true: an `up` loses its pointer write, a `down` looks elsewhere |
| Retry.UpLaunchesExactly | lambda/shardvpn/handler.py:210-288 | `up` launches, and in the requested region or else the default one, exactly if every earlier call succeeds and neither the pointer's region nor the wanted one holds a node; a failed call is never taken for an empty region |
| Retry.RetriesLaunchOnce | lambda/shardvpn/handler.py:220-294 | any number of retries for one region, requested or by default, failing, dying or being refused anywhere, launch at most one node while it lives |
| Retry.RetryRepairsExactly | lambda/shardvpn/handler.py:210-255 | a retry in which everything works leaves the pointer on the region's node exactly if the old pointer leads to no live node, or is right |
| Shortfalls.RetryKeepsAStaleId | lambda/shardvpn/handler.py:212-215 | a run from an empty account whose last `up` succeeds in every call, answers with the node and keeps the dead id |
| Retry.UpRestsWhenTracked | lambda/shardvpn/handler.py:212-215 | once the pointer leads to a live node, no `up` for any region changes anything |
| Retry.NewestSurvives | lambda/shardvpn/watchdog.py:258-284 | over any run of sweeps, whatever fails, the strictly newest dated unexpired node is never terminated |
| Retry.NeverUnordered | lambda/shardvpn/watchdog.py:262-275 | nodes tagged only by this code never end up as unresolved duplicates |
| Cadence.AlertsWhenDue | lambda/shardvpn/watchdog.py:26-61 | the alert decision is: below the threshold, and a day after both launch and last alert, as far as these parse |
| Cadence.EntriesNeverTooEarly | lambda/shardvpn/watchdog.py:26-61 | over every run, whatever fails and the clock does, a node's `alerted` entries start a day after launch at the earliest and lie a day apart |
| Cadence.NeverTooEarly | lambda/shardvpn/watchdog.py:26-61 | the same for the stamps, of which the entries are a part |
| Cadence.EntryIsAStamp | lambda/shardvpn/watchdog.py:319-330 | a sweep that lives lists an alert exactly if the stamp was written and its reply arrived |
| Cadence.EntriesAreStamps | lambda/shardvpn/watchdog.py:319-330 | over runs whose sweeps live and whose stamp replies arrive, entries and stamps are the same times |
| Cadence.NeverTooLate | lambda/shardvpn/watchdog.py:309-330 | a node that stays idle is stamped at the first sweep after each day: no gap reaches a day plus one sweep interval |
| Cadence.RepeatsExactly | lambda/shardvpn/watchdog.py:319-333 | the next sweep repeats the message exactly if the stamp was not written or a day has passed |
| Shortfalls.MessageIsRepeated | lambda/shardvpn/watchdog.py:319-333 | a run from an empty account whose second message comes an hour after the first |
| Idle.IdleSeconds | lambda/shardvpn/watchdog.py:78-95 | the backward search reads the age of the last point above the floor, else of the first point |
| Idle.IdleReadingIs | lambda/shardvpn/ec2ops.py:168 | whatever order the datapoints came in, that is the newest busy point, or the oldest of all |
| Idle.AgeExactly | lambda/shardvpn/watchdog.py:94-95 | ages are whole seconds rounded down, and zero for a moment ahead |
| Idle.OrderIsIrrelevant | lambda/shardvpn/ec2ops.py:168 | so the reading depends on the multiset of datapoints alone |
| Idle.HigherFloorIsIdler | lambda/shardvpn/watchdog.py:75-95 | raising the floor never shortens the reading |
| Sending.Send | docs/ios/shardvpn.js:129-174 | returns the first answer that is neither thrown, nor 429, nor 500 or more, and the function's own one if that was heard; otherwise gives up after four; 1, 2 and 4 s between attempts, each acting on the account and the cache as the last left them |
| Sending.StatusCodeExactly | lambda/shardvpn/handler.py:58-107 | which code each answer has: 503, 403, 400, 500 or 200 |
| Sending.SendLaunchesOnce | docs/ios/shardvpn.js:129-174 | however the attempts fare, one `send` of an `up`, with a region or without, launches at most one node while it lives |
| Sending.SendAnswersTruly | docs/ios/shardvpn.js:151-160 | if `send` returns a node for an `up`, that node is up, in the region that the pointer then leads to, unless it ended by itself |

## Left out

- EC2, SSM, SNS and CloudWatch themselves: each call is an effect with an outcome. DescribeInstances is taken to be consistent and complete, and instance ids to be fresh.
- The client token of RunInstances: its idempotency rests on a 16-bit random host name and is not used by any theorem.
- Instance states: "running" is an observation of the sweep; pending and running are otherwise alike.
- Launch preparation (image, security group, auth key, user data): one step of `up` that may fail.
- Notifications, their wording and `_notify_failures`; `status` fields beyond the instance, the tailnet and the idle time; the search among Tailscale's devices, which is an outcome.
- The distinction between 503 and 500, and the JSON of answers.
- JSON, base64 and the regular-expression engine: the pointer's JSON is a pair of functions of which only the round trip is assumed, the body is taken as parsed, and the two shapes are character predicates.
- Tags that are edited by hand between two steps of a run; the single-sweep theorems hold for any tags.
- Thread scheduling of the scan: `pool.map` is an ordered map, as its library promises.
- A request that is still running when the phone's next attempt arrives: reserved concurrency answers 429, which is an attempt that starts no invocation.
- The cache of a process that has died: the model lets the next invocation be cold or warm, which includes what happens.
- The float that `time.time()` returns is a real number in the secret cache.
- strptime's acceptance of non-ASCII digits; shorter fields, lower-case letters and a space for a leading zero are modelled.
- Lower-casing of header names beyond ASCII: no other character lower-cases to a letter of the two names looked up.
- JavaScript strings of 2^31 code units or more, and messages of 2^53 bits or more.
- Strength of HMAC: equality with the standard is proved, not unforgeability.
- The phone's prompts, menus, keychain and message texts; Terraform, IAM and user data.
- Aws.Cloud.ReadPointer: does not model JSON values that are not strings as region or id, which the code would pass on unchecked.
