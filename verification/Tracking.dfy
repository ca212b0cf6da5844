/** How many nodes there can be, when the pointer can be trusted, and what a retry does. */
module Tracking {
  import opened Wrappers
  import opened Calendar
  import opened Ttl
  import opened Fleet
  import opened Handler
  import opened Watchdog
  import opened SweepProperties
  import opened SweepTheorems
  import opened Runs

  // Whatever is live is the node in the slot, region and all.
  ghost predicate Tracked(w: World) {
    forall id :: id in w.live ==> w.slot == Names(w.live[id].region, id)
  }

  // Reads may fail, but no action dies, and terminations, launches and pointer writes succeed.
  ghost predicate WritesSucceed(w: World, s: Step) {
    match s
    case UpStep(_, c, done, _) => done >= |Effects(w, s)| && c.run.Done? && c.put.Done?
    case DownStep(c, done, _) => done >= |Effects(w, s)| && c.put.Done? && forall id :: c.terminate(id).Done?
    case StatusStep(_) => true
    case SweepStep(c, done, _) => done >= |Effects(w, s)| && c.put.Done? && forall id :: c.terminate(id).Done?
  }

  ghost predicate AllWritesSucceed(w: World, run: seq<Step>)
    decreases |run|
  {
    |run| > 0 ==> WritesSucceed(w, run[0]) && AllWritesSucceed(Next(w, run[0]), run[1..])
  }

  lemma WritesGoThrough(w: World, s: Step)
    requires WritesSucceed(w, s)
    ensures Performed(w, s) == Effects(w, s)
  {
  }

  lemma TrackedUp(w: World, s: Step, listed: set<Region>)
    requires s.UpStep? && Fits(w, s, listed) && WritesSucceed(w, s) && Tracked(w)
    ensures Tracked(Next(w, s))
  {
    hide Performed, Effects;
    WritesGoThrough(w, s);
    if Quiet(Performed(w, s)) {
      QuietStep(w, s, listed);
      UpNeverClears(w, s, listed);
    } else {
      LaunchedWorld(w, s, listed);
      var node :| Launches(w, s, node);
      UpWritesTwice(w, s, listed);
      LaunchIsAlone(w, s, node);
    }
  }

  lemma UpNeverClears(w: World, s: Step, listed: set<Region>)
    requires s.UpStep? && Fits(w, s, listed) && Quiet(Performed(w, s))
    ensures Put(Empty) !in Performed(w, s)
  {
    hide Performed, Effects;
    UpStepCases(w, s, listed);
    QuietStartsQuiet(Performed(w, s));
  }

  // A launch only happens once the pointed-at region was seen empty.
  lemma UpWritesTwice(w: World, s: Step, listed: set<Region>)
    requires s.UpStep? && Fits(w, s, listed) && WritesSucceed(w, s) && !Quiet(Performed(w, s))
    ensures |Performed(w, s)| == 2
    ensures w.slot.Names? ==> forall id :: id in w.live && w.live[id].region == w.slot.region ==> id in s.gone
    ensures !w.slot.Garbled?
  {
    hide ParseTtl, Rfc3339, NewNode;
  }

  lemma LaunchIsAlone(w: World, s: Step, node: Node)
    requires s.UpStep? && Tracked(w) && Launches(w, s, node)
    requires |Performed(w, s)| == 2
    requires w.slot.Names? ==> forall id :: id in w.live && w.live[id].region == w.slot.region ==> id in s.gone
    ensures Tracked(Next(w, s))
  {
    hide Performed, LaunchAllowed, Next;
    forall id | id in w.live
      ensures id in s.gone
    {
    }
  }

  lemma TrackedSweep(w: World, s: Step, listed: set<Region>)
    requires s.SweepStep? && Fits(w, s, listed) && WritesSucceed(w, s) && Tracked(w)
    requires WellTagged(w, listed)
    ensures Tracked(Next(w, s))
  {
    hide Performed, Effects, Sweep, Expired, Kept, Survivors, Found, WantedSlot, Parse;
    WritesGoThrough(w, s);
    QuietUnlessUp(w, s, listed);
    QuietStep(w, s, listed);
    QuietReplay(w, Performed(w, s));
    var w' := Next(w, s);
    forall id | id in w'.live
      ensures w'.slot == Names(w'.live[id].region, id)
    {
      TrackedNodeKeepsPointer(w, s, listed, id);
    }
  }

  // The sweep rewrites the pointer of a live node only by ending the node.
  lemma TrackedNodeKeepsPointer(w: World, s: Step, listed: set<Region>, id: Id)
    requires s.SweepStep? && Fits(w, s, listed) && WritesSucceed(w, s) && Tracked(w)
    requires WellTagged(w, listed)
    requires id in Next(w, s).live && id in w.live
    ensures forall slot :: Put(slot) !in Performed(w, s)
  {
    hide Performed, Sweep, Expired, Kept, Survivors, Found, WantedSlot, Parse, Doomed;
    WritesGoThrough(w, s);
    var c := s.sweep;
    if c.regions.Some? {
      SweepEffectsAre(w.slot, c);
      SplitFound(w, c, s.gone);
      QuietUnlessUp(w, s, listed);
      QuietReplay(w, Performed(w, s));
      if IsDoomed(c, id) {
        KilledIsDead(w, Performed(w, s), id);
      }
      NothingWantedFor(w, c, s.gone, id);
    } else {
      NoRegionsNothingDone(w.slot, c);
    }
  }

  lemma NothingWantedFor(w: World, c: SweepCalls, gone: set<Id>, id: Id)
    requires SweepFits(w, c, gone) && c.regions.Some? && Tracked(w)
    requires id in w.live && id !in gone && w.live[id].region in c.regions.value
    requires !IsDoomed(c, id)
    ensures WantedSlot(w.slot, c) == None
  {
    hide Expired, Kept, Survivors, Found, Doomed, Orderable;
    AllScanned(c.regions.value, c);
    KeptInLive(w, c, gone);
    NoIds();
    if c.scan(w.live[id].region).Some? {
      Seen(w, c, gone, id);
      OneTrackedIsOrderable(w, c, gone);
    }
  }

  lemma OneTrackedIsOrderable(w: World, c: SweepCalls, gone: set<Id>)
    requires SweepFits(w, c, gone) && c.regions.Some? && Tracked(w)
    ensures Orderable(Alive(c))
  {
    hide Expired, Survivors, Found;
    SplitFound(w, c, gone);
    var s := Alive(c);
    forall id | id in Ids(s)
      ensures id == (if w.slot.Names? then w.slot.id else "")
    {
      var x := OneOf(s, id);
      assert x.id in w.live;
    }
    SubsetSize(Ids(s), {if w.slot.Names? then w.slot.id else ""});
    CountIds(s);
  }

  lemma TrackedDown(w: World, s: Step, listed: set<Region>)
    requires s.DownStep? && Fits(w, s, listed) && WritesSucceed(w, s) && Tracked(w)
    ensures Tracked(Next(w, s))
    ensures Down(w.slot, s.down).1 == Absent ==> Next(w, s).live == map[]
  {
    hide Performed, Terminations;
    WritesGoThrough(w, s);
    QuietUnlessUp(w, s, listed);
    QuietReplay(w, Performed(w, s));
    var c := s.down;
    if c.found.Some? && Consulted(w.slot, c).Some? && Readable(w.slot, c.pointerRead) {
      TerminationsAreKills(c.found.value, c.terminate);
      TerminationsSucceed(c.found.value, c.terminate);
      forall id | id in w.live && id !in s.gone
        ensures id !in Next(w, s).live
      {
        KilledIsDead(w, Performed(w, s), id);
      }
    }
  }

  lemma {:induction false} TerminationsSucceed(found: seq<Instance>, terminate: Id -> Outcome)
    requires forall id :: terminate(id).Done?
    ensures Terminations(found, terminate).1
  {
    if found != [] {
      TerminationsSucceed(found[..|found| - 1], terminate);
    }
  }

  lemma TrackedStep(w: World, s: Step, listed: set<Region>)
    requires Fits(w, s, listed) && WritesSucceed(w, s) && Tracked(w) && WellTagged(w, listed)
    ensures Tracked(Next(w, s))
  {
    hide Performed, Effects;
    match s
    case UpStep(_, _, _, _) => TrackedUp(w, s, listed);
    case DownStep(_, _, _) => TrackedDown(w, s, listed);
    case SweepStep(_, _, _) => TrackedSweep(w, s, listed);
    case StatusStep(_) =>
      QuietUnlessUp(w, s, listed);
      QuietStep(w, s, listed);
      StatusHasNoEffects(w, s);
  }

  lemma StatusHasNoEffects(w: World, s: Step)
    requires s.StatusStep?
    ensures Performed(w, s) == []
  {
  }

  /** From an empty fleet, and as long as writes succeed, there is never more than one live node
      between requests, and it is the one in the slot. */
  lemma {:induction false} TrackedAlways(w: World, run: seq<Step>, listed: set<Region>)
    requires RunFits(w, run, listed) && AllWritesSucceed(w, run)
    requires Tracked(w) && WellTagged(w, listed)
    ensures Tracked(Final(w, run)) && |Final(w, run).live| <= 1
    decreases |run|
  {
    if |run| > 0 {
      TrackedStep(w, run[0], listed);
      WellTaggedStep(w, run[0], listed);
      TrackedAlways(Next(w, run[0]), run[1..], listed);
    } else {
      AtMostOneTracked(w);
    }
  }

  lemma AtMostOneTracked(w: World)
    requires Tracked(w)
    ensures |w.live| <= 1
  {
    if w.slot.Names? {
      SubsetSize(w.live.Keys, {w.slot.id});
    } else {
      assert w.live.Keys == {};
    }
    assert |w.live| == |w.live.Keys|;
  }

  // ---- what a failed write costs ----

  // The one way in which a sweep that lives to its end loses track of a live node: the node has
  // expired, its termination is refused, and nothing stands in the way of clearing the pointer.
  ghost predicate LosesTrack(w: World, c: SweepCalls, gone: set<Id>) {
    && c.pointerRead && c.put != Refused
    && c.regions.Some? && (forall r :: r in c.regions.value ==> c.scan(r).Some?)
    && exists id :: id in w.live && id !in gone && Expired(w.live[id], c.now) && c.terminate(id).Refused?
  }

  /** Without the success of its writes, a sweep keeps track exactly in the other cases. */
  lemma SweepKeepsTrackExactly(w: World, s: Step, listed: set<Region>)
    requires s.SweepStep? && s.done >= |Effects(w, s)| && Fits(w, s, listed)
    requires Tracked(w) && WellTagged(w, listed)
    ensures Tracked(Next(w, s)) <==> !LosesTrack(w, s.sweep, s.gone)
  {
    hide Sweep, Expired, Kept, Survivors, Found, WantedSlot, Parse, Doomed;
    var c, es := s.sweep, Effects(w, s);
    assert Performed(w, s) == es;
    QuietUnlessUp(w, s, listed);
    QuietStep(w, s, listed);
    QuietReplay(w, es);
    if c.regions.Some? {
      SplitFound(w, c, s.gone);
      SweepEffectsAre(w.slot, c);
      forall id | id in w.live && id !in s.gone
        ensures id in Next(w, s).live ==> (w.slot == Next(w, s).slot <==> !LosesTrack(w, c, s.gone))
        ensures id !in Next(w, s).live ==> !LosesTrack(w, c, s.gone)
      {
        StandingNode(w, s, listed, id);
      }
    } else {
      NoRegionsNothingDone(w.slot, c);
    }
  }

  // `id` is the one live node of a tracked fleet.
  lemma StandingNode(w: World, s: Step, listed: set<Region>, id: Id)
    requires s.SweepStep? && s.done >= |Effects(w, s)| && Fits(w, s, listed)
    requires Tracked(w) && WellTagged(w, listed) && s.sweep.regions.Some?
    requires id in w.live && id !in s.gone
    ensures id in Next(w, s).live ==> (w.slot == Next(w, s).slot <==> !LosesTrack(w, s.sweep, s.gone))
    ensures id !in Next(w, s).live ==> !LosesTrack(w, s.sweep, s.gone)
  {
    hide Sweep, Expired, Kept, Survivors, Found, WantedSlot, Parse, Doomed, Orderable;
    var c, es := s.sweep, Effects(w, s);
    assert Performed(w, s) == es;
    QuietUnlessUp(w, s, listed);
    QuietReplay(w, es);
    SweepEffectsAre(w.slot, c);
    SplitFound(w, c, s.gone);
    FoundFacts(w, c, s.gone);
    SweepClearsExactly(w, c, s.gone);
    AllScanned(c.regions.value, c);
    if c.scan(w.live[id].region).Some? {
      Seen(w, c, s.gone, id);
    }
    if IsDoomed(c, id) {
      if c.terminate(id) != Refused {
        KilledIsDead(w, es, id);
      } else {
        ExpiredAlone(w, c, s.gone, id);
      }
    } else {
      NothingWantedFor(w, c, s.gone, id);
    }
  }

  lemma ExpiredAlone(w: World, c: SweepCalls, gone: set<Id>, id: Id)
    requires SweepFits(w, c, gone) && c.regions.Some? && Tracked(w)
    requires id in w.live && Expired(w.live[id], c.now)
    ensures WantedSlot(w.slot, c)
         == if c.pointerRead && ScanFailures(c.regions.value, c) == [] then Some(Empty) else None
  {
    hide Expired, Survivors, Found, ScanFailures;
    SplitFound(w, c, gone);
    forall x | x in AllFound(c)
      ensures Expired(x.node, c.now)
    {
      assert x.id in w.live;
    }
    NoneAlive(c);
    FewHaveNoExtras(Alive(c));
  }
}
