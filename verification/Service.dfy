/** Invocations of the running code, one after another, and what their runs guarantee. */
module Service {
  import opened Wrappers
  import opened Calendar
  import opened Fleet
  import opened Handler
  import opened Watchdog
  import opened Runs
  import opened Tracking
  import opened Aws
  import opened SecretCache
  import opened Gateway
  import Auth
  import Settings

  // An event and what befalls its invocation: whether a new process takes it, after how many
  // effects it dies, and which nodes end meanwhile.
  datatype Invocation = Invocation(e: Event, cold: bool, done: nat, gone: set<Id>)

  // The fleet, and the secrets cached by the process at hand.
  datatype Host = Host(w: World, cache: map<Name, Entry>)

  function Warm(h: Host, i: Invocation): map<Name, Entry> { if i.cold then map[] else h.cache }

  ghost function RouteOf(h: Host, i: Invocation): (seq<Effect>, Reply, map<Name, Entry>) {
    Route(h.w.slot, Warm(h, i), i.e)
  }

  // The step of the fleet that an invocation amounts to; one that is turned away, or that asks
  // for nothing that changes anything, is a status step.
  ghost function StepOf(h: Host, i: Invocation): Step {
    match i.e
    case Scheduled(c) => SweepStep(c, i.done, i.gone)
    case Http(_, _, ask, clock, _, fetched) =>
      var (known, secret) := Lookup(Warm(h, i), SIGNING_SECRET, clock, fetched);
      if !Admitted(i.e, secret) then StatusStep(i.gone)
      else match Supply(ask, known)
        case AskUp(req, c, _) => UpStep(req, c, i.done, i.gone)
        case AskDown(c) => DownStep(c, i.done, i.gone)
        case _ => StatusStep(i.gone)
  }

  ghost function Forward(h: Host, i: Invocation): Host { Host(Next(h.w, StepOf(h, i)), RouteOf(h, i).2) }

  ghost predicate Arrives(h: Host, i: Invocation, listed: set<Region>, ssm: History) {
    HonestEvent(ssm, i.e) && Fits(h.w, StepOf(h, i), listed)
  }

  // ---- runs of invocations ----

  ghost predicate AllArrive(h: Host, run: seq<Invocation>, listed: set<Region>, ssm: History)
    decreases |run|
  {
    |run| > 0 ==> Arrives(h, run[0], listed, ssm) && AllArrive(Forward(h, run[0]), run[1..], listed, ssm)
  }

  ghost function FinalHost(h: Host, run: seq<Invocation>): Host
    decreases |run|
  {
    if |run| == 0 then h else FinalHost(Forward(h, run[0]), run[1..])
  }

  ghost function StepsOf(h: Host, run: seq<Invocation>): seq<Step>
    decreases |run|
  {
    if |run| == 0 then [] else [StepOf(h, run[0])] + StepsOf(Forward(h, run[0]), run[1..])
  }

  /** Invocations are a run of steps. */
  lemma {:induction false} InvocationsAreSteps(h: Host, run: seq<Invocation>, listed: set<Region>, ssm: History)
    requires AllArrive(h, run, listed, ssm)
    ensures RunFits(h.w, StepsOf(h, run), listed)
    ensures FinalHost(h, run).w == Final(h.w, StepsOf(h, run))
    decreases |run|
  {
    hide StepOf, Fits, Next, RouteOf, HonestEvent;
    if |run| > 0 {
      InvocationsAreSteps(Forward(h, run[0]), run[1..], listed, ssm);
      assert StepsOf(h, run)[0] == StepOf(h, run[0]) && StepsOf(h, run)[1..] == StepsOf(Forward(h, run[0]), run[1..]);
    }
  }

  lemma EffectsAreRouted(h: Host, i: Invocation, listed: set<Region>)
    requires Fits(h.w, StepOf(h, i), listed)
    ensures Effects(h.w, StepOf(h, i)) == RouteOf(h, i).0
  {
    hide Up, Down, Sweep, Status, Auth.Verify, Lookup, ReadToken, NeedsToken, END_OF_TIME, Sees;
  }

  lemma StepEnds(h: Host, i: Invocation)
    ensures var s := StepOf(h, i); s.gone == i.gone && (s.StatusStep? || s.done == i.done)
  {
    hide Lookup, Admitted, Supply;
  }

  // One invocation, from its event to its answer or its death.
  method Invoke(cloud: Cloud, cache: Cache, i: Invocation, ghost listed: set<Region>) returns (reply: Reply)
    requires Settings.Faithful(cloud.json) && cache.Valid()
    requires Arrives(Host(cloud.State(), cache.entries), i, listed, cache.ssm)
    modifies cloud, cache
    ensures cache.Valid()
    ensures Host(cloud.State(), cache.entries) == Forward(Host(old(cloud.State()), old(cache.entries)), i)
    ensures reply == RouteOf(Host(old(cloud.State()), old(cache.entries)), i).1
  {
    hide Replay, Route, Cache.Valid, StepOf, HonestEvent, Fits, Effects;
    ghost var h := Host(cloud.State(), cache.entries);
    EffectsAreRouted(h, i, listed);
    StepEnds(h, i);
    StatusHasNoEffectsAt(h, i);
    if i.cold {
      cache.Restart();
    }
    cloud.Begin(i.done);
    reply := LambdaHandler(cloud, cache, i.e);
    assert cloud.issued == RouteOf(h, i).0;
    assert Prefix(cloud.issued, i.done) == Performed(h.w, StepOf(h, i));
    cloud.End(i.gone);
  }

  lemma StatusHasNoEffectsAt(h: Host, i: Invocation)
    ensures StepOf(h, i).StatusStep? ==> Effects(h.w, StepOf(h, i)) == []
  {
    hide StepOf;
  }

  /** Any number of invocations; reserved concurrency 1 keeps them from overlapping. */
  method Serve(cloud: Cloud, cache: Cache, run: seq<Invocation>, ghost listed: set<Region>)
    requires Settings.Faithful(cloud.json) && cache.Valid()
    requires AllArrive(Host(cloud.State(), cache.entries), run, listed, cache.ssm)
    modifies cloud, cache
    ensures var h := Host(old(cloud.State()), old(cache.entries));
      && Host(cloud.State(), cache.entries) == FinalHost(h, run)
      && cloud.State() == Final(h.w, StepsOf(h, run))
      && (Anchored(h.w) ==> Anchored(cloud.State()))
      && (OnePerRegion(h.w) ==> OnePerRegion(cloud.State()))
      && (Tracked(h.w) && WellTagged(h.w, listed) && AllWritesSucceed(h.w, StepsOf(h, run)) ==>
            Tracked(cloud.State()) && |cloud.live| <= 1)
  {
    hide Arrives, Forward, Anchored, OnePerRegion, Tracked, WellTagged, WritesSucceed, Next, Fits, Cache.Valid;
    ghost var h := Host(cloud.State(), cache.entries);
    for k := 0 to |run|
      invariant cache.Valid()
      invariant AllArrive(Host(cloud.State(), cache.entries), run[k..], listed, cache.ssm)
      invariant FinalHost(Host(cloud.State(), cache.entries), run[k..]) == FinalHost(h, run)
    {
      assert run[k..][0] == run[k] && run[k..][1..] == run[k + 1..];
      ArrivesFirst(Host(cloud.State(), cache.entries), run[k..], listed, cache.ssm);
      var _ := Invoke(cloud, cache, run[k], listed);
    }
    assert run[|run|..] == [];
    InvocationsAreSteps(h, run, listed, cache.ssm);
    var steps := StepsOf(h, run);
    if Anchored(h.w) {
      AnchoredAlways(h.w, steps, listed);
    }
    if OnePerRegion(h.w) {
      OnePerRegionAlways(h.w, steps, listed);
    }
    if Tracked(h.w) && WellTagged(h.w, listed) && AllWritesSucceed(h.w, steps) {
      TrackedAlways(h.w, steps, listed);
    }
  }

  lemma ArrivesFirst(h: Host, run: seq<Invocation>, listed: set<Region>, ssm: History)
    requires AllArrive(h, run, listed, ssm) && |run| > 0
    ensures Arrives(h, run[0], listed, ssm) && AllArrive(Forward(h, run[0]), run[1..], listed, ssm)
  {
  }
}
