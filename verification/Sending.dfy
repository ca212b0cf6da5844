/** `send` of docs/ios/shardvpn.js: the phone repeats a request until it gets a lasting answer. */
module Sending {
  import opened Wrappers
  import opened Fleet
  import opened Handler
  import opened Answers
  import opened Runs
  import opened Retry
  import opened Reporting
  import opened Aws
  import opened SecretCache
  import opened Gateway
  import opened Service
  import Auth
  import Settings

  const MAX_ATTEMPTS := 4

  // What the phone sees of one attempt: loadJSON throws, or there is a status code.
  datatype Seen = Threw | Code(code: int)

  // An attempt that starts no invocation (the throttle's 429 is one), or one that does. Of the
  // latter the phone hears the answer, or it sees something else, as when the invocation dies.
  datatype Try =
    | NotRun(seen: Seen)
    | Ran(i: Invocation, heard: bool, lost: Seen)

  datatype Result = FromFunction(reply: Reply) | FromElsewhere(code: int) | GaveUp

  predicate Transient(s: Seen) { s.Threw? || s.code == 429 || s.code >= 500 }

  function StatusCode(r: Reply): int {
    match r
    case Swept => 200
    case Unverifiable => 503
    case Forbidden => 403
    case BadAsk => 400
    case Answered(response) => if response.Failed? then 500 else if response.BadRequest? then 400 else 200
  }

  function SeenOf(t: Try, reply: Reply): Seen {
    match t
    case NotRun(seen) => seen
    case Ran(_, heard, lost) => if heard then Code(StatusCode(reply)) else lost
  }

  function ResultOf(t: Try, reply: Reply): Result
    requires !Transient(SeenOf(t, reply))
  {
    if t.Ran? && t.heard then FromFunction(reply) else FromElsewhere(SeenOf(t, reply).code)
  }

  ghost function ReplyTo(h: Host, t: Try): Reply { if t.Ran? then RouteOf(h, t.i).1 else Unverifiable }

  // The host after some attempts, and the steps that they took.
  ghost function HostAfter(h: Host, tries: seq<Try>): Host {
    if tries == [] then h
    else
      var before, last := HostAfter(h, tries[..|tries| - 1]), tries[|tries| - 1];
      if last.Ran? then Forward(before, last.i) else before
  }

  ghost function StepsTaken(h: Host, tries: seq<Try>): seq<Step> {
    if tries == [] then []
    else
      var before, last := tries[..|tries| - 1], tries[|tries| - 1];
      StepsTaken(h, before) + if last.Ran? then [StepOf(HostAfter(h, before), last.i)] else []
  }

  // An answer that is heard comes from an invocation that has lived to give it.
  ghost predicate TryFits(h: Host, t: Try, listed: set<Region>, ssm: History) {
    t.Ran? ==> Arrives(h, t.i, listed, ssm) && t.i.e.Http? && (t.heard ==> t.i.done >= |RouteOf(h, t.i).0|)
  }

  ghost predicate TriesFit(h: Host, tries: seq<Try>, listed: set<Region>, ssm: History) {
    forall k :: 0 <= k < |tries| ==> TryFits(HostAfter(h, tries[..k]), tries[k], listed, ssm)
  }

  lemma OneMoreTry(h: Host, tries: seq<Try>, k: nat)
    requires k < |tries|
    ensures HostAfter(h, tries[..k + 1])
         == if tries[k].Ran? then Forward(HostAfter(h, tries[..k]), tries[k].i) else HostAfter(h, tries[..k])
  {
    hide Forward;
    assert tries[..k + 1][..k] == tries[..k];
  }

  /** The codes that the entry point answers with. */
  lemma StatusCodeExactly(r: Response)
    ensures StatusCode(Unverifiable) == 503 && StatusCode(Forbidden) == 403 && StatusCode(BadAsk) == 400
    ensures r.Failed? ==> StatusCode(Answered(r)) == 500
    ensures r.BadRequest? ==> StatusCode(Answered(r)) == 400
    ensures r.Node? || r.Absent? ==> StatusCode(Answered(r)) == 200
  {
  }

  ghost function ReplyAt(h: Host, tries: seq<Try>, k: nat): Reply
    requires k < |tries|
  {
    ReplyTo(HostAfter(h, tries[..k]), tries[k])
  }

  // Attempt `k` throws, is throttled, or is answered with a server error.
  ghost predicate FailsAt(h: Host, tries: seq<Try>, k: nat)
    requires k < |tries|
  {
    match tries[k]
    case NotRun(seen) => seen == Threw || seen.code == 429 || seen.code >= 500
    case Ran(_, true, _) => StatusCode(ReplyAt(h, tries, k)) == 429 || StatusCode(ReplyAt(h, tries, k)) >= 500
    case Ran(_, false, lost) => lost == Threw || lost.code == 429 || lost.code >= 500
  }

  // What a `send` that used so many attempts returns: the first answer that is no failure, which
  // is the function's own if it was heard, or nothing after four failures.
  ghost predicate Sent(h: Host, tries: seq<Try>, used: nat, result: Result) {
    && 1 <= used <= |tries| && used <= 4
    && (forall k :: 0 <= k < used - 1 ==> FailsAt(h, tries, k))
    && if FailsAt(h, tries, used - 1) then used == 4 && result == GaveUp
       else match tries[used - 1]
         case NotRun(seen) => result == FromElsewhere(seen.code)
         case Ran(_, true, _) => result == FromFunction(ReplyAt(h, tries, used - 1))
         case Ran(_, false, lost) => result == FromElsewhere(lost.code)
  }

  // docs/ios/shardvpn.js:129-174; `waited` counts the milliseconds slept between attempts.
  method Send(cloud: Cloud, cache: Cache, tries: seq<Try>, ghost listed: set<Region>)
    returns (used: nat, result: Result, waited: nat)
    requires Settings.Faithful(cloud.json) && cache.Valid()
    requires |tries| == MAX_ATTEMPTS
    requires TriesFit(Host(cloud.State(), cache.entries), tries, listed, cache.ssm)
    modifies cloud, cache
    ensures Sent(Host(old(cloud.State()), old(cache.entries)), tries, used, result)
    ensures Host(cloud.State(), cache.entries) == HostAfter(Host(old(cloud.State()), old(cache.entries)), tries[..used])
    ensures waited == [0, 1000, 3000, 7000][used - 1]
  {
    hide Forward, RouteOf, Arrives, Cache.Valid, Cloud.State, StatusCode;
    ghost var h := Host(cloud.State(), cache.entries);
    waited := 0;
    var delay := 1000;
    for attempt := 0 to MAX_ATTEMPTS
      invariant cache.Valid()
      invariant Host(cloud.State(), cache.entries) == HostAfter(h, tries[..attempt])
      invariant forall k :: 0 <= k < attempt ==> FailsAt(h, tries, k)
      invariant attempt < 4 ==> delay == [1000, 2000, 4000, 8000][attempt] && waited == [0, 1000, 3000, 7000][attempt]
      invariant attempt == 4 ==> waited == 7000
    {
      var t, reply := tries[attempt], Unverifiable;
      OneMoreTry(h, tries, attempt);
      if t.Ran? {
        reply := Invoke(cloud, cache, t.i, listed);
      }
      if !Transient(SeenOf(t, reply)) {
        return attempt + 1, ResultOf(t, reply), waited;
      }
      if attempt < MAX_ATTEMPTS - 1 {
        waited := waited + delay;
        delay := 2 * delay;
      }
    }
    return MAX_ATTEMPTS, GaveUp, waited;
  }

  // ---- one send launches at most once ----

  lemma {:induction false} RunExtends(w: World, run: seq<Step>, s: Step, listed: set<Region>)
    requires RunFits(w, run, listed) && Fits(Final(w, run), s, listed)
    ensures RunFits(w, run + [s], listed) && Final(w, run + [s]) == Next(Final(w, run), s)
    decreases |run|
  {
    hide Fits, Next;
    if run == [] {
      assert [s][0] == s && [s][1..] == [];
      assert run + [s] == [s];
    } else {
      assert (run + [s])[0] == run[0] && (run + [s])[1..] == run[1..] + [s];
      RunExtends(Next(w, run[0]), run[1..], s, listed);
    }
  }

  lemma {:induction false} TriesAreSteps(h: Host, tries: seq<Try>, listed: set<Region>, ssm: History)
    requires TriesFit(h, tries, listed, ssm)
    ensures RunFits(h.w, StepsTaken(h, tries), listed)
    ensures HostAfter(h, tries).w == Final(h.w, StepsTaken(h, tries))
  {
    hide Fits, Next, StepOf, RouteOf, HonestEvent;
    if tries != [] {
      var before, last := tries[..|tries| - 1], tries[|tries| - 1];
      forall k | 0 <= k < |before|
        ensures TryFits(HostAfter(h, before[..k]), before[k], listed, ssm)
      {
        assert before[..k] == tries[..k];
      }
      TriesAreSteps(h, before, listed, ssm);
      if last.Ran? {
        assert tries[..|tries| - 1] == before;
        assert TryFits(HostAfter(h, before), last, listed, ssm);
        RunExtends(h.w, StepsTaken(h, before), StepOf(HostAfter(h, before), last.i), listed);
      } else {
        assert StepsTaken(h, tries) == StepsTaken(h, before);
      }
    }
  }

  // Every attempt asks for the same `up`, and the default region, if it is needed and can be
  // read, stays the same.
  ghost predicate SendsUp(tries: seq<Try>, req: UpRequest, region: Region) {
    forall t :: t in tries && t.Ran? ==>
      && t.i.e.Http? && t.i.e.ask.AskUp? && t.i.e.ask.req == req
      && forall r :: WantsRegion(req, t.i.e.ask.up, r) ==> r == region
  }

  lemma {:induction false} AttemptsAreRetries(h: Host, tries: seq<Try>, req: UpRequest, region: Region)
    requires SendsUp(tries, req, region)
    ensures forall s :: s in StepsTaken(h, tries) ==> IsFor(s, region) && exists t :: t in tries && t.Ran? && s.gone == t.i.gone
  {
    hide StepOf, Forward;
    if tries != [] {
      var before, last := tries[..|tries| - 1], tries[|tries| - 1];
      AttemptsAreRetries(h, before, req, region);
      assert last in tries;
      if last.Ran? {
        UpIsFor(HostAfter(h, before), last.i, req, region);
      }
    }
  }

  lemma UpIsFor(h: Host, i: Invocation, req: UpRequest, region: Region)
    requires i.e.Http? && i.e.ask.AskUp? && i.e.ask.req == req
    requires forall r :: WantsRegion(req, i.e.ask.up, r) ==> r == region
    ensures IsFor(StepOf(h, i), region) && StepOf(h, i).gone == i.gone
  {
    hide Lookup, ReadToken, Admitted;
    var step := StepOf(h, i);
    if step.UpStep? {
      forall r | WantsRegion(step.req, step.up, r)
        ensures r == region
      {
        assert WantsRegion(req, i.e.ask.up, r);
      }
    }
  }

  /** However the attempts of one `send` fare, with a region or with the default one, they launch
      at most one node, unless it ends. */
  lemma SendLaunchesOnce(h: Host, tries: seq<Try>, listed: set<Region>, ssm: History, req: UpRequest, region: Region)
    requires TriesFit(h, tries, listed, ssm) && SendsUp(tries, req, region)
    requires forall t :: t in tries && t.Ran? ==> t.i.gone !! Launched(h.w, StepsTaken(h, tries))
    ensures |Launched(h.w, StepsTaken(h, tries))| <= 1
  {
    hide StepsTaken, TriesFit, Launched, IsFor;
    TriesAreSteps(h, tries, listed, ssm);
    AttemptsAreRetries(h, tries, req, region);
    RetriesLaunchOnce(h.w, StepsTaken(h, tries), listed, region);
  }

  /** A node that `send` returns for an `up` is up, in the region that the pointer then leads to,
      unless it ended by itself meanwhile. */
  lemma SendAnswersTruly(h: Host, tries: seq<Try>, used: nat, result: Result, listed: set<Region>, ssm: History, id: Id)
    requires TriesFit(h, tries, listed, ssm) && Sent(h, tries, used, result)
    requires tries[used - 1].Ran? ==> tries[used - 1].i.e.ask.AskUp?
    requires result.FromFunction? && result.reply.Answered? && result.reply.response.Node? && result.reply.response.id == id
    ensures var w' := HostAfter(h, tries[..used]).w;
      && w'.slot.Names? && tries[used - 1].Ran?
      && (id !in tries[used - 1].i.gone ==> id in w'.live && w'.live[id].region == w'.slot.region)
  {
    hide Forward, RouteOf, Arrives, StatusCode;
    var t, before := tries[used - 1], HostAfter(h, tries[..used - 1]);
    assert TryFits(before, t, listed, ssm);
    OneMoreTry(h, tries, used - 1);
    HeardIsTrue(before, t, listed, ssm, id);
  }

  lemma HeardIsTrue(h: Host, t: Try, listed: set<Region>, ssm: History, id: Id)
    requires TryFits(h, t, listed, ssm) && t.Ran? && t.heard && t.i.e.ask.AskUp?
    requires RouteOf(h, t.i).1.Answered? && RouteOf(h, t.i).1.response.Node? && RouteOf(h, t.i).1.response.id == id
    ensures var w' := Forward(h, t.i).w;
      w'.slot.Names? && (id !in t.i.gone ==> id in w'.live && w'.live[id].region == w'.slot.region)
  {
    hide Lookup, ReadToken, Up, NeedsToken, Auth.Verify, Next, Sees;
    UpIsAnswered(h, t.i);
    StepEnds(h, t.i);
    EffectsAreRouted(h, t.i, listed);
    UpAnswersTruly(h.w, StepOf(h, t.i), listed, id);
  }

  lemma UpIsAnswered(h: Host, i: Invocation)
    requires i.e.Http? && i.e.ask.AskUp? && RouteOf(h, i).1.Answered?
    ensures var s := StepOf(h, i);
      s.UpStep? && InTime(s.up.now) && RouteOf(h, i).1.response == Up(h.w.slot, s.req, s.up).1
  {
    hide Lookup, ReadToken, Up, NeedsToken, Auth.Verify;
  }
}
