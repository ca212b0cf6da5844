/** What `down` and a retried `up` guarantee, and what newest and lifetime mean over runs. */
module Retry {
  import opened Wrappers
  import opened Calendar
  import opened Ttl
  import opened Fleet
  import opened Handler
  import opened Answers
  import opened Watchdog
  import opened SweepProperties
  import opened SweepTheorems
  import opened Runs

  // ---- down ----

  /** A completed `down` that answers "absent" means that nothing is live, exactly if every node
      that is not ending anyway was in the one region it consulted. */
  lemma DownLeavesNothingExactly(w: World, s: Step, listed: set<Region>)
    requires s.DownStep? && Fits(w, s, listed) && s.done >= |Effects(w, s)|
    requires Down(w.slot, s.down).1 == Absent
    ensures Consulted(w.slot, s.down).Some?
    ensures Next(w, s).live == map[]
       <==> forall id :: id in w.live && id !in s.gone ==> w.live[id].region == Consulted(w.slot, s.down).value
    ensures w.slot.Names? ==> Next(w, s).slot == Empty
  {
    hide Terminations, Replay, Sees;
    var c, es := s.down, Effects(w, s);
    assert Performed(w, s) == es;
    QuietUnlessUp(w, s, listed);
    QuietReplay(w, es);
    TerminationsAreKills(c.found.value, c.terminate);
    forall id | id in w.live && id !in s.gone
      ensures id in Next(w, s).live <==> w.live[id].region != Consulted(w.slot, c).value
    {
      DownSpares(w, s, listed, id);
    }
    DownClears(w, s);
  }

  lemma DownClears(w: World, s: Step)
    requires s.DownStep? && s.done >= |Effects(w, s)| && Down(w.slot, s.down).1 == Absent
    ensures w.slot.Names? ==> Next(w, s).slot == Empty
  {
    hide Terminations, Replay;
    var es := Effects(w, s);
    assert Performed(w, s) == es;
    if w.slot.Names? {
      assert es[|es| - 1] == Put(Empty);
      LastPutWins(w, es, Empty);
    }
  }

  lemma LastPutWins(w: World, es: seq<Effect>, slot: Slot)
    requires es != [] && es[|es| - 1] == Put(slot)
    ensures Replay(w, es).slot == slot
  {
  }

  lemma DownSpares(w: World, s: Step, listed: set<Region>, id: Id)
    requires s.DownStep? && Fits(w, s, listed) && s.done >= |Effects(w, s)|
    requires Down(w.slot, s.down).1 == Absent
    requires id in w.live && id !in s.gone
    ensures id in Next(w, s).live <==> w.live[id].region != Consulted(w.slot, s.down).value
  {
    hide Terminations;
    var c, es := s.down, Effects(w, s);
    assert Performed(w, s) == es;
    QuietUnlessUp(w, s, listed);
    QuietReplay(w, es);
    TerminationsAreKills(c.found.value, c.terminate);
    if w.live[id].region == Consulted(w.slot, c).value {
      KilledIsDead(w, es, id);
    } else {
      NotListed(w, Consulted(w.slot, c).value, c.found.value, s.gone, id);
    }
  }

  lemma NotListed(w: World, region: Region, seen: seq<Instance>, gone: set<Id>, id: Id)
    requires Sees(w, region, seen, gone) && id in w.live && w.live[id].region != region
    ensures id !in Ids(seen)
  {
  }

  // ---- a retried up ----

  ghost function LaunchedBy(w: World, s: Step): set<Id> { set e | e in Performed(w, s) && e.Launch? :: e.id }

  // The ids that the run launches.
  ghost function Launched(w: World, run: seq<Step>): set<Id>
    decreases |run|
  {
    if |run| == 0 then {}
    else LaunchedBy(w, run[0]) + Launched(Next(w, run[0]), run[1..])
  }

  // An `up` that is for `region`, by the request or by the default, or that fails to learn its
  // region; or an invocation that changes nothing.
  ghost predicate IsFor(s: Step, region: Region) {
    s.StatusStep? || (s.UpStep? && forall r :: WantsRegion(s.req, s.up, r) ==> r == region)
  }

  // Every step is such an attempt, and no node of `keep` ends by itself.
  ghost predicate RetriesFor(run: seq<Step>, region: Region, keep: set<Id>) {
    forall s :: s in run ==> IsFor(s, region) && s.gone !! keep
  }

  lemma LaunchMeansEmptyRegion(w: World, s: Step, listed: set<Region>, id: Id)
    requires Fits(w, s, listed)
    requires id in w.live && IsFor(s, w.live[id].region) && id !in s.gone
    ensures Quiet(Performed(w, s))
    ensures id in Next(w, s).live && Next(w, s).live[id].region == w.live[id].region
  {
    hide ParseTtl, Rfc3339, NewNode, Describe;
    if s.UpStep? && Target(s.req, s.up).Some? {
      assert WantsRegion(s.req, s.up, Target(s.req, s.up).value);
    }
    UpKillsNothing(w, s);
    QuietReplay(w, Performed(w, s));
  }

  lemma UpKillsNothing(w: World, s: Step)
    requires s.UpStep? || s.StatusStep?
    ensures forall e :: e in Performed(w, s) ==> !e.Kill? && !e.Stamp?
  {
    hide ParseTtl, Rfc3339, NewNode, Describe;
    PerformedIsPrefix(w, s);
  }

  lemma {:induction false} NoLaunchBesideANode(w: World, run: seq<Step>, listed: set<Region>, region: Region, id: Id)
    requires RunFits(w, run, listed) && RetriesFor(run, region, {id})
    requires id in w.live && w.live[id].region == region
    ensures Launched(w, run) == {}
    decreases |run|
  {
    if |run| > 0 {
      hide Performed;
      LaunchMeansEmptyRegion(w, run[0], listed, id);
      NoLaunchBesideANode(Next(w, run[0]), run[1..], listed, region, id);
    }
  }

  /** However often and however badly the same `up` is retried, it launches at most one node,
      unless the node it launched ends. */
  lemma {:induction false} RetriesLaunchOnce(w: World, run: seq<Step>, listed: set<Region>, region: Region)
    requires RunFits(w, run, listed) && RetriesFor(run, region, Launched(w, run))
    ensures |Launched(w, run)| <= 1
    decreases |run|
  {
    hide Performed, Next, Fits, LaunchedBy;
    if |run| > 0 {
      var s, w' := run[0], Next(w, run[0]);
      if Quiet(Performed(w, s)) {
        QuietLaunchesNothing(w, s);
        assert Launched(w, run) == Launched(w', run[1..]);
        RetriesLaunchOnce(w', run[1..], listed, region);
      } else {
        QuietUnlessUp(w, s, listed);
        OnlyOneId(w, s, listed);
        LaunchedHere(w, s, listed, region);
        NoLaunchBesideANode(w', run[1..], listed, region, s.up.id);
        assert Launched(w, run) == {s.up.id};
      }
    }
  }

  lemma QuietLaunchesNothing(w: World, s: Step)
    requires Quiet(Performed(w, s))
    ensures LaunchedBy(w, s) == {}
  {
  }

  lemma OnlyOneId(w: World, s: Step, listed: set<Region>)
    requires s.UpStep? && Fits(w, s, listed) && !Quiet(Performed(w, s))
    ensures LaunchedBy(w, s) == {s.up.id}
  {
    hide Performed, LaunchAllowed;
    UpStepCases(w, s, listed);
    var e :| e in Performed(w, s) && e.Launch?;
  }

  lemma LaunchedHere(w: World, s: Step, listed: set<Region>, region: Region)
    requires s.UpStep? && Fits(w, s, listed) && !Quiet(Performed(w, s))
    requires IsFor(s, region) && s.up.id !in s.gone
    ensures s.up.id in Next(w, s).live && Next(w, s).live[s.up.id].region == region
  {
    hide ParseTtl, Rfc3339, Describe;
    LaunchedWorld(w, s, listed);
    var node :| Launches(w, s, node);
    PerformedIsPrefix(w, s);
    OnlyOneId(w, s, listed);
    UpLaunchesInTarget(w, s);
    UpStepCases(w, s, listed);
  }

  lemma UpLaunchesInTarget(w: World, s: Step)
    requires s.UpStep?
    ensures forall e :: e in Effects(w, s) && e.Launch? ==> WantsRegion(s.req, s.up, e.node.region)
  {
    hide ParseTtl, Rfc3339, Describe;
  }

  // Every call of this `up` succeeds, its request is well-formed, and nothing ends meanwhile.
  ghost predicate AllGoesWell(s: Step) {
    && s.UpStep? && s.gone == {}
    && var c := s.up;
       && InTime(c.now) && c.pointerRead && AskTailnet(c.look).Some? && Prepared(c) && c.run.Done? && c.put.Done?
       && c.tracked.Some? && c.found.Some? && c.again.Some? && c.defaultTtl.Some?
       && c.regions.Some? && Target(s.req, c).Some? && Target(s.req, c).value in c.regions.value
       && ParseTtl(Lifetime(s.req, c).value, c.now).Success?
  }

  /** The next attempt in which everything works leaves the pointer on the node of the region,
      exactly if the old pointer does not already lead to some live node: `up` then answers with
      that node and repairs nothing, not even a stale id. */
  lemma RetryRepairsExactly(w: World, s: Step, listed: set<Region>, id: Id)
    requires Fits(w, s, listed) && AllGoesWell(s) && s.done >= |Effects(w, s)|
    requires OnePerRegion(w) && !w.slot.Garbled?
    requires id in w.live && w.live[id].region == Target(s.req, s.up).value
    ensures Next(w, s).slot == Names(w.live[id].region, id)
       <==> || w.slot == Names(w.live[id].region, id)
            || !(w.slot.Names? && exists n :: n in w.live && w.live[n].region == w.slot.region)
    ensures Quiet(Performed(w, s))
  {
    hide ParseTtl, Rfc3339, NewNode;
    var c, es := s.up, Effects(w, s);
    assert Performed(w, s) == es;
    var region := w.live[id].region;
    SeenIsId(w, region, c.found.value, id);
    if w.slot.Names? {
      EmptyIffNoneLive(w, w.slot.region, c.tracked.value);
    }
    if es == [] {
    } else {
      assert es == [Put(Names(region, id))];
      ReplayOne(w, es[0]);
    }
  }

  lemma SeenIsId(w: World, region: Region, seen: seq<Instance>, id: Id)
    requires Sees(w, region, seen, {}) && OnePerRegion(w)
    requires id in w.live && w.live[id].region == region
    ensures seen != [] && seen[0].id == id
  {
    var x := OneOf(seen, id);
    assert seen[0] in seen;
  }

  lemma EmptyIffNoneLive(w: World, region: Region, seen: seq<Instance>)
    requires Sees(w, region, seen, {})
    ensures seen == [] <==> forall n :: n in w.live ==> w.live[n].region != region
  {
    if seen != [] {
      assert seen[0] in seen;
    }
    NoIds();
  }

  /** Once the pointer leads to a live node, no `up` changes anything, whatever fails. */
  lemma UpRestsWhenTracked(w: World, s: Step, listed: set<Region>, id: Id)
    requires s.UpStep? && Fits(w, s, listed)
    requires w.slot.Names? && id in w.live && w.live[id].region == w.slot.region && id !in s.gone
    ensures Effects(w, s) == []
  {
    hide ParseTtl, Rfc3339, NewNode;
    NoIds();
  }

  ghost predicate NobodyIn(w: World, region: Region) {
    forall n :: n in w.live ==> w.live[n].region != region
  }

  /** When `up` launches, while no node ends by itself: only on proof that neither the pointer's
      region nor the wanted one holds a node; a call that fails is never read as such a proof. The
      node goes to the requested region, or without one to the default region. */
  lemma UpLaunchesExactly(w: World, s: Step, listed: set<Region>, r: Region, ttl: TtlArg)
    requires s.UpStep? && Fits(w, s, listed) && s.gone == {}
    requires s.req.region == Some(r) || (s.req.region == None && s.up.defaultRegion == Some(r))
    requires (s.req.ttl == ttl && ttl != Missing) || (s.req.ttl == Missing && s.up.defaultTtl == Some(ttl))
    ensures (exists e :: e in Effects(w, s) && e.Launch?)
       <==> var c := s.up;
            && c.pointerRead && !w.slot.Garbled?
            && (w.slot.Names? ==> c.tracked.Some? && NobodyIn(w, w.slot.region))
            && c.regions.Some? && r in c.regions.value && ParseTtl(ttl, c.now).Success?
            && c.found.Some? && NobodyIn(w, r)
            && c.ready && c.look.clientId.Some? && c.look.clientSecret.Some? && c.minted && c.run != Refused
    ensures forall e :: e in Effects(w, s) && e.Launch? ==> e.node.region == r && e.id == s.up.id
  {
    hide ParseTtl, Rfc3339, NewNode, Sees, Up;
    var c := s.up;
    UpLaunchesAndAnswers(w.slot, s.req, c, r, ttl);
    if w.slot.Names? && c.tracked.Some? {
      EmptyIffNoneLive(w, w.slot.region, c.tracked.value);
    }
    if c.found.Some? {
      EmptyIffNoneLive(w, r, c.found.value);
    }
  }

  // ---- the newest node survives every run of sweeps ----

  // `id` is dated, and every other dated node is strictly older.
  ghost predicate StrictlyNewest(w: World, id: Id) {
    && id in w.live && LaunchSecond(w.live[id]).Some?
    && forall k :: k in w.live && k != id && LaunchSecond(w.live[k]).Some? ==>
         LaunchSecond(w.live[k]).value < LaunchSecond(w.live[id]).value
  }

  ghost predicate OnlySweeps(run: seq<Step>, id: Id, node: Node) {
    forall s :: s in run ==> s.SweepStep? && id !in s.gone && !Expired(node, s.sweep.now)
  }

  lemma NewestSurvivesSweep(w: World, s: Step, listed: set<Region>, id: Id)
    requires s.SweepStep? && Fits(w, s, listed) && StrictlyNewest(w, id)
    requires id !in s.gone && !Expired(w.live[id], s.sweep.now)
    ensures StrictlyNewest(Next(w, s), id) && SameNode(Next(w, s).live[id], w.live[id])
  {
    hide Sweep, Expired, Parse, TagHasPassed;
    QuietUnlessUp(w, s, listed);
    QuietReplay(w, Performed(w, s));
    PerformedIsPrefix(w, s);
    if Kill(id) in Performed(w, s) {
      SweepSpares(w, s.sweep, s.gone, id);
      ExpiredExactly(w.live[id], s.sweep.now);
    }
  }

  /** Whatever fails, a sweep never leaves nothing of a fleet that had an unexpired node. */
  lemma SweepNeverEmpties(w: World, c: SweepCalls, gone: set<Id>, id: Id) returns (k: Id)
    requires SweepFits(w, c, gone) && id in w.live && !Expired(w.live[id], c.now)
    ensures k in After(w, c).live && k in w.live && !Expired(After(w, c).live[k], c.now)
  {
    hide Sweep, Expired, Replay, Killed, Found, TagHasPassed;
    var es := Sweep(w.slot, c).effects;
    NoRegionsNothingDone(w.slot, c);
    if c.regions.Some? {
      SweepEffectsAre(w.slot, c);
    }
    QuietReplay(w, es);
    k := id;
    if Kill(id) in es {
      SweepSpares(w, c, gone, id);
      ExpiredExactly(w.live[id], c.now);
      k :| Outlives(w, c, k, id);
      ExpiredExactly(w.live[k], c.now);
    }
    NotKilled(es, k);
    ExpiryIgnoresAlerts(After(w, c).live[k], w.live[k]);
  }

  lemma NotKilled(es: seq<Effect>, id: Id)
    requires Kill(id) !in es
    ensures id !in Killed(es)
  {
  }

  /** Over any run of sweeps, whatever fails, the newest unexpired node is never terminated. */
  lemma {:induction false} NewestSurvives(w: World, run: seq<Step>, listed: set<Region>, id: Id)
    requires RunFits(w, run, listed) && StrictlyNewest(w, id) && OnlySweeps(run, id, w.live[id])
    ensures id in Final(w, run).live
    decreases |run|
  {
    if |run| > 0 {
      hide Next, Expired;
      NewestSurvivesSweep(w, run[0], listed, id);
      assert forall now :: Expired(w.live[id], now) == Expired(Next(w, run[0]).live[id], now) by {
        ExpiryIgnoresAlerts(w.live[id], Next(w, run[0]).live[id]);
      }
      NewestSurvives(Next(w, run[0]), run[1..], listed, id);
    }
  }

  lemma ExpiryIgnoresAlerts(a: Node, b: Node)
    requires SameNode(a, b)
    ensures forall now :: Expired(a, now) == Expired(b, now)
    ensures LaunchSecond(a) == LaunchSecond(b)
  {
  }

  /** Nodes that only `up` and the sweep have tagged are never left as unresolved duplicates. */
  lemma NeverUnordered(w: World, run: seq<Step>, listed: set<Region>, c: SweepCalls, gone: set<Id>)
    requires WellTagged(w, listed) && RunFits(w, run, listed)
    requires SweepFits(Final(w, run), c, gone)
    ensures Unordered !in Sweep(Final(w, run).slot, c).failures
  {
    WellTaggedAlways(w, run, listed);
    if c.regions.Some? {
      DatedIsOrderable(Final(w, run), c, gone, listed);
      OnlyIfUnorderable(Final(w, run).slot, c);
    }
  }

  lemma DatedIsOrderable(w: World, c: SweepCalls, gone: set<Id>, listed: set<Region>)
    requires SweepFits(w, c, gone) && c.regions.Some? && WellTagged(w, listed)
    ensures Orderable(Alive(c))
  {
    hide Expired, Survivors, Found, LaunchSecond;
    SplitFound(w, c, gone);
  }

  lemma OnlyIfUnorderable(slot: Slot, c: SweepCalls)
    requires 0 <= c.now < END_OF_TIME && c.regions.Some? && Orderable(Alive(c))
    ensures Unordered !in Sweep(slot, c).failures
  {
    hide Expired, Found, Orderable, Kept, Extras, Survivors, Doomed, Rfc3339, ShouldAlert, Wanted;
    ScanFailuresAreScans(c.regions.value, c);
    ReasonsAre(Doomed(AllFound(c), c.now), c.terminate, PastExpiry);
    ReasonsAre(Extras(Alive(c)), c.terminate, Duplicate);
  }

  // ---- lifetimes ----

  /** A node that a sweep sees is reaped exactly if its TTL, counted from the launch second, has
      run out and the call succeeds; the earliest such sweep is the one that does it. */
  lemma ReapedExactly(w: World, c: SweepCalls, gone: set<Id>, id: Id, launch: Micros, ttl: TtlArg)
    requires SweepFits(w, c, gone) && c.regions.Some?
    requires InTime(launch) && ParseTtl(ttl, launch).Success?
    requires id in w.live && w.live[id].expires == Some(ParseTtl(ttl, launch).value) && id in Ids(AllFound(c))
    ensures id in Sweep(w.slot, c).reaped
       <==> && c.terminate(id).Done?
            && ParseTtl(ttl, launch).value != NEVER
            && c.now >= (launch / SECOND + TtlSeconds(ttl.s)) * SECOND
  {
    TtlEndToEnd(ttl, launch, c.now);
    ReapedIfExpired(w, c, gone, id);
    ExpiryOf(w.live[id], ttl, launch);
  }

  lemma ExpiryOf(node: Node, ttl: TtlArg, launch: Micros)
    requires InTime(launch) && ParseTtl(ttl, launch).Success?
    requires node.expires == Some(ParseTtl(ttl, launch).value)
    ensures Expiry(node) == ParseTtl(ttl, launch).value
  {
    TtlEndToEnd(ttl, launch, launch);
  }

  lemma ReapedIfExpired(w: World, c: SweepCalls, gone: set<Id>, id: Id)
    requires SweepFits(w, c, gone) && c.regions.Some? && id in w.live && id in Ids(AllFound(c))
    ensures id in Sweep(w.slot, c).reaped <==> c.terminate(id).Done? && Expired(w.live[id], c.now)
  {
    hide Expired, Found, Sweep, Terminated, Survivors;
    ReportFields(w.slot, c);
    TerminatedAre(Doomed(AllFound(c), c.now), c.terminate);
    SplitFound(w, c, gone);
    var x := OneOf(AllFound(c), id);
    if Expired(x.node, c.now) {
      Present(Doomed(AllFound(c), c.now), x);
    }
  }

  /** Reaped are exactly the nodes found whose own expiry tag has passed and whose call succeeds. */
  lemma SweepReapsExactly(w: World, c: SweepCalls, gone: set<Id>, id: Id)
    requires SweepFits(w, c, gone) && c.regions.Some?
    ensures id in Sweep(w.slot, c).reaped
       <==> && c.terminate(id).Done?
            && exists r, x :: r in c.regions.value && c.scan(r).Some? && x in c.scan(r).value
                              && x.id == id && TagHasPassed(x.node, c.now)
  {
    hide Sweep, Found, Expired, TagHasPassed, Doomed;
    ReportFields(w.slot, c);
    TerminatedAre(Doomed(AllFound(c), c.now), c.terminate);
    DoomedAre(c);
    forall x: Instance
      ensures Expired(x.node, c.now) <==> TagHasPassed(x.node, c.now)
    {
      ExpiredExactly(x.node, c.now);
    }
    FoundAre(c.regions.value, c);
    if id in Ids(Doomed(AllFound(c), c.now)) {
      var x := OneOf(Doomed(AllFound(c), c.now), id);
    }
    forall x | x in Doomed(AllFound(c), c.now)
      ensures x.id in Ids(Doomed(AllFound(c), c.now))
    {
      Present(Doomed(AllFound(c), c.now), x);
    }
  }

  lemma DoomedAre(c: SweepCalls)
    requires c.regions.Some?
    ensures forall x :: x in Doomed(AllFound(c), c.now) <==> x in AllFound(c) && Expired(x.node, c.now)
  {
    hide Found, Expired;
  }

  lemma {:induction false} FoundAre(regions: seq<Region>, c: SweepCalls)
    ensures forall x :: x in Found(regions, c) <==> exists r :: r in regions && c.scan(r).Some? && x in c.scan(r).value
  {
    if regions != [] {
      var n := |regions| - 1;
      FoundAre(regions[..n], c);
      assert regions == regions[..n] + [regions[n]];
    }
  }
}
