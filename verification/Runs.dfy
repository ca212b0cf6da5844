/**
  Whole runs of the control plane. Actions never overlap. An action may die after any number of
  its effects, and nodes may end during any action; both are part of the step.
 */
module Runs {
  import opened Wrappers
  import opened Calendar
  import opened Ttl
  import opened Fleet
  import opened Handler
  import opened Watchdog
  import opened SweepProperties
  import opened SweepTheorems

  datatype Step =
    | UpStep(req: UpRequest, up: UpCalls, done: nat, gone: set<Id>)
    | DownStep(down: DownCalls, done: nat, gone: set<Id>)
    | StatusStep(gone: set<Id>)
    | SweepStep(sweep: SweepCalls, done: nat, gone: set<Id>)

  // The calls of the step are truthful; the region list is the same for every call.
  ghost predicate Fits(w: World, s: Step, listed: set<Region>) {
    match s
    case UpStep(req, c, _, gone) =>
      UpFits(w, req, c, gone) && (c.regions.Some? ==> forall r :: r in c.regions.value <==> r in listed)
    case DownStep(c, _, gone) => DownFits(w, c, gone)
    case StatusStep(_) => true
    case SweepStep(c, _, gone) =>
      SweepFits(w, c, gone) && (c.regions.Some? ==> forall r :: r in c.regions.value <==> r in listed)
  }

  ghost function Effects(w: World, s: Step): seq<Effect> {
    match s
    case UpStep(req, c, _, _) => if InTime(c.now) then Up(w.slot, req, c).0 else []
    case DownStep(c, _, _) => Down(w.slot, c).0
    case StatusStep(_) => []
    case SweepStep(c, _, _) => if 0 <= c.now < END_OF_TIME then Sweep(w.slot, c).effects else []
  }

  ghost function Performed(w: World, s: Step): seq<Effect> {
    var es := Effects(w, s);
    if s.StatusStep? || s.done >= |es| then es else es[..s.done]
  }

  ghost function Next(w: World, s: Step): World { Vanish(Replay(w, Performed(w, s)), s.gone) }

  /** The nodes that end during a step may end after any number of its effects: letting them end
      last leads to the same world. */
  lemma NodesEndAtAnyTime(w: World, s: Step, k: nat, early: set<Id>)
    requires k <= |Performed(w, s)| && early <= s.gone
    ensures var es := Performed(w, s);
      Vanish(Replay(Vanish(Replay(w, es[..k]), early), es[k..]), s.gone) == Next(w, s)
  {
    hide Performed, Replay, Vanish;
    var es := Performed(w, s);
    assert es == es[..k] + es[k..];
    ReplayConcat(w, es[..k], es[k..]);
    VanishEarlier(Replay(w, es[..k]), es[k..], early, s.gone);
  }

  ghost predicate RunFits(w: World, run: seq<Step>, listed: set<Region>)
    decreases |run|
  {
    |run| > 0 ==> Fits(w, run[0], listed) && RunFits(Next(w, run[0]), run[1..], listed)
  }

  ghost function Final(w: World, run: seq<Step>): World
    decreases |run|
  {
    if |run| == 0 then w else Final(Next(w, run[0]), run[1..])
  }

  // ---- what a step can do ----

  lemma PerformedIsPrefix(w: World, s: Step)
    ensures forall e :: e in Performed(w, s) ==> e in Effects(w, s)
  {
    hide Effects;
    var es := Effects(w, s);
    if !s.StatusStep? && s.done < |es| {
      assert es == es[..s.done] + es[s.done..];
    }
  }

  /** Only `up` launches; whatever else is stored is about a node that is live and where it is. */
  lemma StepEffects(w: World, s: Step, listed: set<Region>)
    requires Fits(w, s, listed)
    ensures !s.UpStep? ==> Quiet(Effects(w, s))
    ensures !s.UpStep? ==> OnlyPointsAtLive(w, Effects(w, s))
    ensures !s.UpStep? ==> forall e :: e in Effects(w, s) && e.Stamp? ==> e.id in w.live
  {
    hide Up, Sweep, Kept, Survivors, Found, Expired, Rfc3339, WantedSlot, Orderable;
    match s
    case UpStep(_, _, _, _) =>
    case DownStep(c, _, gone) =>
      if c.found.Some? {
        TerminationsAreKills(c.found.value, c.terminate);
      }
    case StatusStep(_) =>
    case SweepStep(c, _, gone) =>
      if c.regions.Some? {
        SweepEffectsAre(w.slot, c);
        SplitFound(w, c, gone);
        KeptInLive(w, c, gone);
        WantedIsLive(w, c, gone);
      } else {
        NoRegionsNothingDone(w.slot, c);
      }
  }


  lemma KeptInLive(w: World, c: SweepCalls, gone: set<Id>)
    requires SweepFits(w, c, gone) && c.regions.Some?
    ensures Kept(Alive(c)) != [] ==>
      var k := Kept(Alive(c))[0]; k in Alive(c) && k.id in w.live && w.live[k.id] == k.node
    ensures Kept(Alive(c)) != [] <==> Orderable(Alive(c)) && Alive(c) != []
  {
    hide Kept, Survivors, Found, Expired, Orderable;
    SplitFound(w, c, gone);
    if Orderable(Alive(c)) && Alive(c) != [] {
      KeptIsSpared(w, c, gone);
    } else {
      NothingKept(Alive(c));
    }
  }

  lemma WantedIsLive(w: World, c: SweepCalls, gone: set<Id>)
    requires SweepFits(w, c, gone) && c.regions.Some?
    ensures var s := WantedSlot(w.slot, c);
      s.Some? ==> s.value.Empty?
                  || (s.value.Names? && s.value.id in w.live && w.live[s.value.id].region == s.value.region)
  {
    hide Kept, Survivors, Found, Expired, Orderable, ScanFailures;
    KeptInLive(w, c, gone);
  }

  // ---- the stored pointer always pairs an instance with its own region ----

  ghost predicate Anchored(w: World) {
    && (forall id :: id in w.live ==> id in w.born && w.born[id] == w.live[id].region)
    && (w.slot.Names? ==> w.slot.id in w.born && w.born[w.slot.id] == w.slot.region)
  }

  ghost predicate OnePerRegion(w: World) {
    forall a, b :: a in w.live && b in w.live && w.live[a].region == w.live[b].region ==> a == b
  }

  // Every stored pointer names a live node, where it is.
  ghost predicate OnlyPointsAtLive(w: World, es: seq<Effect>) {
    forall e :: e in es && e.Put? && !e.slot.Empty? ==>
      e.slot.Names? && e.slot.id in w.live && w.live[e.slot.id].region == e.slot.region
  }

  // An `up` is quiet, or its launch is allowed.
  lemma UpStepCases(w: World, s: Step, listed: set<Region>)
    requires s.UpStep? && Fits(w, s, listed)
    ensures var es := Performed(w, s);
      || (Quiet(es) && OnlyPointsAtLive(w, es) && Put(Empty) !in es)
      || (exists node :: es == [Launch(s.up.id, node)] && LaunchAllowed(w, node, s.up, s.gone))
      || (exists node :: es == [Launch(s.up.id, node), Put(Names(node.region, s.up.id))]
            && LaunchAllowed(w, node, s.up, s.gone))
  {
    hide LaunchAllowed, Up;
    UpEffects(w, s.req, s.up, s.gone);
    var all, es := Effects(w, s), Performed(w, s);
    if |all| == 1 {
      assert es == [] || es == all;
    } else if |all| == 2 {
      assert es == [] || es == all[..1] || es == all;
      var node :| all == [Launch(s.up.id, node), Put(Names(node.region, s.up.id))]
                  && LaunchAllowed(w, node, s.up, s.gone);
      assert all[..1] == [Launch(s.up.id, node)];
    }
  }

  /** A step that launches nothing only loses nodes, and at most points at a live one. */
  lemma QuietStep(w: World, s: Step, listed: set<Region>)
    requires Fits(w, s, listed) && Quiet(Performed(w, s))
    ensures var w' := Next(w, s);
      && w'.born == w.born
      && (forall id :: id in w'.live ==> id in w.live && SameNode(w'.live[id], w.live[id]))
      && OnlyPointsAtLive(w, Performed(w, s))
      && (w'.slot == w.slot || Put(w'.slot) in Performed(w, s))
  {
    hide Performed, Effects;
    QuietReplay(w, Performed(w, s));
    PerformedIsPrefix(w, s);
    if s.UpStep? {
      UpStepCases(w, s, listed);
      QuietStartsQuiet(Performed(w, s));
    } else {
      StepEffects(w, s, listed);
    }
  }

  lemma QuietStartsQuiet(es: seq<Effect>)
    requires Quiet(es)
    ensures es != [] ==> !es[0].Launch?
  {
    if es != [] {
      assert es[0] in es;
    }
  }

  lemma QuietUnlessUp(w: World, s: Step, listed: set<Region>)
    requires Fits(w, s, listed)
    ensures !s.UpStep? ==> Quiet(Performed(w, s))
  {
    hide Performed, Effects;
    PerformedIsPrefix(w, s);
    if !s.UpStep? {
      StepEffects(w, s, listed);
    }
  }

  lemma AnchoredStep(w: World, s: Step, listed: set<Region>)
    requires Fits(w, s, listed) && Anchored(w)
    ensures Anchored(Next(w, s))
  {
    hide Performed, Effects, Next, Fits, LaunchAllowed;
    QuietUnlessUp(w, s, listed);
    if Quiet(Performed(w, s)) {
      QuietStep(w, s, listed);
    } else {
      FreshId(w, s, listed);
      LaunchedWorld(w, s, listed);
    }
  }

  lemma FreshId(w: World, s: Step, listed: set<Region>)
    requires Fits(w, s, listed)
    ensures s.UpStep? ==> s.up.id !in w.born
  {
  }

  // What an `up` that launches leaves, with or without its pointer write.
  ghost predicate Launches(w: World, s: Step, node: Node)
    requires s.UpStep?
  {
    var w' := Next(w, s);
    && LaunchAllowed(w, node, s.up, s.gone)
    && Launch(s.up.id, node) in Performed(w, s)
    && w'.live == w.live[s.up.id := node] - s.gone
    && w'.born == w.born[s.up.id := node.region]
    && (w'.slot == w.slot || w'.slot == Names(node.region, s.up.id))
    && (|Performed(w, s)| == 2 ==> w'.slot == Names(node.region, s.up.id))
  }

  lemma LaunchedWorld(w: World, s: Step, listed: set<Region>)
    requires s.UpStep? && Fits(w, s, listed) && !Quiet(Performed(w, s))
    ensures exists node :: Launches(w, s, node)
  {
    hide LaunchAllowed, Performed;
    UpStepCases(w, s, listed);
    var es := Performed(w, s);
    if |es| == 1 {
      var node :| es == [Launch(s.up.id, node)] && LaunchAllowed(w, node, s.up, s.gone);
      ReplayOne(w, es[0]);
      assert Launches(w, s, node);
    } else {
      var node :| es == [Launch(s.up.id, node), Put(Names(node.region, s.up.id))]
                  && LaunchAllowed(w, node, s.up, s.gone);
      ReplayTwo(w, es[0], es[1]);
      assert Launches(w, s, node);
    }
  }

  lemma ReplayOne(w: World, e: Effect)
    ensures Replay(w, [e]) == Apply(w, e)
  {
    assert [e][..0] == [];
  }

  lemma ReplayTwo(w: World, e: Effect, f: Effect)
    ensures Replay(w, [e, f]) == Apply(Apply(w, e), f)
  {
    ReplayOne(w, e);
    assert [e, f][..1] == [e];
  }

  /** Over every run, with every call failing and every death: the pointer's region is right. */
  lemma {:induction false} AnchoredAlways(w: World, run: seq<Step>, listed: set<Region>)
    requires RunFits(w, run, listed) && Anchored(w)
    ensures Anchored(Final(w, run))
    decreases |run|
  {
    if |run| > 0 {
      AnchoredStep(w, run[0], listed);
      AnchoredAlways(Next(w, run[0]), run[1..], listed);
    }
  }

  // ---- no region ever holds two nodes ----

  lemma OnePerRegionStep(w: World, s: Step, listed: set<Region>)
    requires Fits(w, s, listed) && OnePerRegion(w)
    ensures OnePerRegion(Next(w, s))
  {
    hide Performed, Effects;
    QuietUnlessUp(w, s, listed);
    if Quiet(Performed(w, s)) {
      QuietStep(w, s, listed);
    } else {
      LaunchedWorld(w, s, listed);
    }
  }

  lemma {:induction false} OnePerRegionAlways(w: World, run: seq<Step>, listed: set<Region>)
    requires RunFits(w, run, listed) && OnePerRegion(w)
    ensures OnePerRegion(Final(w, run))
    decreases |run|
  {
    if |run| > 0 {
      OnePerRegionStep(w, run[0], listed);
      OnePerRegionAlways(Next(w, run[0]), run[1..], listed);
    }
  }

  // ---- every node launched by `up` can be found, dated and reaped ----

  ghost predicate WellTagged(w: World, listed: set<Region>) {
    forall id :: id in w.live ==>
      && w.live[id].region in listed
      && LaunchSecond(w.live[id]).Some?
      && (Expiry(w.live[id]) == NEVER || Parse(Expiry(w.live[id])).Some?)
  }

  lemma LaunchedIsWellTagged(w: World, node: Node, c: UpCalls, gone: set<Id>)
    requires LaunchAllowed(w, node, c, gone)
    ensures LaunchSecond(node) == Some(c.now / SECOND)
    ensures Expiry(node) == NEVER || Parse(Expiry(node)).Some?
  {
    Rfc3339Parses(c.now);
    var ttl :| ParseTtl(ttl, c.now).Success? && node.expires == Some(ParseTtl(ttl, c.now).value);
    TtlEndToEnd(ttl, c.now, c.now);
  }

  lemma WellTaggedStep(w: World, s: Step, listed: set<Region>)
    requires Fits(w, s, listed) && WellTagged(w, listed)
    ensures WellTagged(Next(w, s), listed)
  {
    hide Performed, Effects, Parse, ParseTtl, Rfc3339;
    QuietUnlessUp(w, s, listed);
    if Quiet(Performed(w, s)) {
      QuietStep(w, s, listed);
    } else {
      LaunchedWorld(w, s, listed);
      var node :| Launches(w, s, node);
      LaunchedIsWellTagged(w, node, s.up, s.gone);
    }
  }

  lemma {:induction false} WellTaggedAlways(w: World, run: seq<Step>, listed: set<Region>)
    requires RunFits(w, run, listed) && WellTagged(w, listed)
    ensures WellTagged(Final(w, run), listed)
    decreases |run|
  {
    if |run| > 0 {
      WellTaggedStep(w, run[0], listed);
      WellTaggedAlways(Next(w, run[0]), run[1..], listed);
    }
  }
}
