/** What the sweep's summary, and the answers of `up` and `status`, say about the fleet. */
module Reporting {
  import opened Wrappers
  import opened Calendar
  import opened Ttl
  import opened Fleet
  import opened Handler
  import opened Watchdog
  import opened SweepProperties
  import opened SweepTheorems
  import opened Runs
  import opened Tracking
  import opened Retry

  // ---- the failures that a sweep reports ----

  lemma {:induction false} NotTerminatedAre(s: seq<Instance>, terminate: Id -> Outcome, why: Reason)
    ensures forall p :: p in NotTerminatedOf(s, terminate, why) <==>
              p.NotTerminated? && p.why == why && p.id in Ids(s) && !terminate(p.id).Done?
  {
    if s != [] {
      var n := |s| - 1;
      NotTerminatedAre(s[..n], terminate, why);
      assert s == s[..n] + [s[n]];
      IdsOfConcat(s[..n], [s[n]]);
      OneId([s[n]]);
    }
  }

  lemma {:induction false} ScanFailuresAre(regions: seq<Region>, c: SweepCalls)
    ensures forall p :: p in ScanFailures(regions, c) <==>
              p.ScanFailed? && p.region in regions && c.scan(p.region).None?
  {
    if regions != [] {
      var n := |regions| - 1;
      ScanFailuresAre(regions[..n], c);
      assert regions == regions[..n] + [regions[n]];
    }
  }

  // The sweep tried to judge whether `x` is idle, and a call for that failed.
  ghost predicate IdleCheckFails(c: SweepCalls, x: Instance) {
    && c.running(x.id) && c.threshold.Some?
    && (c.idleBytes(x.id).None? || (AlertsOn(c, x) && !c.stamp.Done?))
  }

  ghost predicate Explained(slot: Slot, c: SweepCalls, p: Problem)
    requires c.regions.Some?
  {
    match p
    case ThresholdUnread => c.threshold.None?
    case RegionsUnread => false
    case ScanFailed(r) => r in c.regions.value && c.scan(r).None?
    case NotTerminated(id, why) =>
      && !c.terminate(id).Done?
      && if why.PastExpiry? then IsDoomed(c, id) else id in Ids(Extras(Alive(c)))
    case Unordered => !Orderable(Alive(c))
    case IdleCheckFailed(id) => exists x :: IsChosen(c, x) && x.id == id && IdleCheckFails(c, x)
    case NotReconciled => WantedSlot(slot, c).Some? && !c.put.Done?
  }

  lemma IdleFailuresAre(c: SweepCalls, x: Instance)
    requires 0 <= c.now < END_OF_TIME
    ensures forall p :: p in IdleCheck(x, c).2 <==> p == IdleCheckFailed(x.id) && IdleCheckFails(c, x)
    ensures forall id :: id in IdleCheck(x, c).1 <==> id == x.id && AlertsOn(c, x) && c.stamp.Done?
  {
    hide ShouldAlert, Rfc3339;
  }

  lemma ReconcileFailuresAre(slot: Slot, c: SweepCalls, all: bool, ps: seq<Problem>)
    requires c.regions.Some? && all == (ScanFailures(c.regions.value, c) == [])
    requires ps == Reconcile(slot, Alive(c), all, c).1
    ensures forall p :: p in ps <==> p == NotReconciled && WantedSlot(slot, c).Some? && !c.put.Done?
  {
    hide Wanted, Kept, Orderable, Survivors, Found, ScanFailures;
  }

  // Whom the sweep settles on, in terms of what the body computes.
  lemma ChosenIsKept(c: SweepCalls, x: Instance)
    requires c.regions.Some?
    ensures IsChosen(c, x) <==> Kept(Alive(c)) != [] && Kept(Alive(c))[0] == x
  {
    hide Kept, Survivors, Found, Orderable, IsChosen;
    if Orderable(Alive(c)) && Alive(c) != [] {
      TheChosenOne(c);
    } else {
      NothingChosen(c);
      NothingKept(Alive(c));
    }
  }

  /** Every failure that happens is reported, and nothing else is. An unreadable pointer is not
      counted as a failure. */
  lemma FailuresExactly(slot: Slot, c: SweepCalls)
    requires 0 <= c.now < END_OF_TIME && c.regions.Some?
    ensures forall p :: p in Sweep(slot, c).failures <==> Explained(slot, c, p)
  {
    hide Found, Orderable, Kept, Extras, Survivors, Doomed, NotTerminatedOf, ScanFailures, IdleCheckFails;
    hide IdleCheck, Reconcile, Sweep, WantedSlot, IsChosen;
    var alive, doomed := Alive(c), Doomed(AllFound(c), c.now);
    FailuresInOrder(slot, c);
    ScanFailuresAre(c.regions.value, c);
    NotTerminatedAre(doomed, c.terminate, PastExpiry);
    NotTerminatedAre(Extras(alive), c.terminate, Duplicate);
    var all := ScanFailures(c.regions.value, c) == [];
    ReconcileFailuresAre(slot, c, all, Reconcile(slot, alive, all, c).1);
    if !Orderable(alive) {
      NoExtras(alive);
      NoIds();
    }
    forall x
      ensures IsChosen(c, x) <==> Kept(alive) != [] && Kept(alive)[0] == x
    {
      ChosenIsKept(c, x);
    }
    if Kept(alive) != [] {
      IdleFailuresAre(c, Kept(alive)[0]);
    }
  }

  /** The other two lists: an untracked node, and a node reported idle. */
  lemma OrphansAndAlertsExactly(slot: Slot, c: SweepCalls, id: Id)
    requires 0 <= c.now < END_OF_TIME && c.regions.Some?
    ensures id in Sweep(slot, c).orphans
       <==> (exists x :: IsChosen(c, x) && x.id == id) && !(c.pointerRead && slot.Names? && slot.id == id)
    ensures id in Sweep(slot, c).alerted
       <==> c.stamp.Done? && exists x :: IsChosen(c, x) && x.id == id && AlertsOn(c, x)
  {
    hide Found, Orderable, Kept, Extras, Survivors, Doomed, NotTerminatedOf, ScanFailures, AlertsOn;
    hide IdleCheck, Reconcile, IsChosen, Kills, Terminated;
    var alive := Alive(c);
    forall x
      ensures IsChosen(c, x) <==> Kept(alive) != [] && Kept(alive)[0] == x
    {
      ChosenIsKept(c, x);
    }
    if Kept(alive) != [] {
      IdleFailuresAre(c, Kept(alive)[0]);
    }
  }

  lemma SilentIsThorough(w: World, c: SweepCalls)
    requires 0 <= c.now < END_OF_TIME && Sweep(w.slot, c).failures == []
    ensures Thorough(c) && Orderable(Alive(c)) && (WantedSlot(w.slot, c).Some? ==> c.put.Done?)
  {
    hide Sweep, Found, Survivors, Extras, Orderable, WantedSlot, IsChosen, Kept, IdleCheckFails;
    var f := Sweep(w.slot, c).failures;
    if c.regions.None? {
      NoRegionsIsReported(w.slot, c);
    }
    FailuresExactly(w.slot, c);
    assert Unordered !in f && NotReconciled !in f;
    forall r | r in c.regions.value
      ensures c.scan(r).Some?
    {
      assert ScanFailed(r) !in f;
    }
    forall id | IsDoomed(c, id) || id in Ids(Extras(Alive(c)))
      ensures c.terminate(id).Done?
    {
      assert NotTerminated(id, PastExpiry) !in f && NotTerminated(id, Duplicate) !in f;
    }
  }

  lemma NoRegionsIsReported(slot: Slot, c: SweepCalls)
    requires 0 <= c.now < END_OF_TIME && c.regions.None?
    ensures RegionsUnread in Sweep(slot, c).failures
  {
  }

  // The slot already holds what the sweep would store.
  ghost predicate SlotIsRight(slot: Slot, c: SweepCalls)
    requires c.regions.Some?
  {
    || (Alive(c) == [] && slot == Empty)
    || exists x :: IsChosen(c, x) && slot == Names(x.node.region, x.id)
  }

  /** What an empty list of failures proves, as long as no node ended meanwhile: exactly one
      tracked node or nothing is left if the pointer could be read, or was right anyway. */
  lemma SilentSweepExactly(w: World, c: SweepCalls)
    requires SweepFits(w, c, {}) && Covered(w, c) && Sweep(w.slot, c).failures == []
    ensures Settled(After(w, c)) <==> Readable(w.slot, c.pointerRead) || SlotIsRight(w.slot, c)
  {
    hide Sweep, Found, Survivors, Extras, Orderable, WantedSlot, IsChosen, After, Kept, Expired;
    SilentIsThorough(w, c);
    if Readable(w.slot, c.pointerRead) {
      SettledWhenCalm(w, c);
    } else {
      UnreadIsUntouched(w, c);
      LiveAfterwards(w, c);
      if Alive(c) == [] {
        NothingKept(Alive(c));
        NothingChosen(c);
        NoIds();
      } else {
        TheChosenOne(c);
        OneKept(Alive(c));
        OneId(Kept(Alive(c)));
        ChosenIsLive(w, c, Kept(Alive(c))[0]);
      }
    }
  }

  lemma UnreadIsUntouched(w: World, c: SweepCalls)
    requires 0 <= c.now < END_OF_TIME && c.regions.Some? && !Readable(w.slot, c.pointerRead)
    ensures After(w, c).slot == w.slot
  {
    hide Sweep, Found, Survivors, Kept, Orderable, Extras;
    SweepEffectsAre(w.slot, c);
    QuietReplay(w, Sweep(w.slot, c).effects);
  }

  lemma SettledWhenCalm(w: World, c: SweepCalls)
    requires SweepFits(w, c, {}) && Calm(w.slot, c) && Covered(w, c) && !w.slot.Garbled? && Orderable(Alive(c))
    ensures Settled(After(w, c))
  {
    hide Expired, Sweep, Found, Survivors, IsChosen, Orderable, After;
    SweepStabilises(w, c);
    if Alive(c) != [] {
      var x :| IsChosen(c, x);
      ChosenIsLive(w, c, x);
      assert After(w, c).live.Keys == {x.id};
    }
  }

  // ---- the order in which a sweep works ----

  lemma {:induction false} FoundConcat(a: seq<Region>, b: seq<Region>, c: SweepCalls)
    ensures Found(a + b, c) == Found(a, c) + Found(b, c)
    ensures ScanFailures(a + b, c) == ScanFailures(a, c) + ScanFailures(b, c)
  {
    if b == [] {
      assert a + b == a;
    } else {
      var n := |b| - 1;
      FoundConcat(a, b[..n], c);
      assert (a + b)[..|a + b| - 1] == a + b[..n];
    }
  }

  /** Nodes are found region by region, in the order of the list, and within a region in the order
      of the answer; a region that could not be scanned adds a failure and no node. */
  lemma FoundInOrder(before: seq<Region>, r: Region, after: seq<Region>, c: SweepCalls)
    ensures Found(before + [r] + after, c)
         == Found(before, c) + (match c.scan(r) case Some(nodes) => nodes case None => []) + Found(after, c)
    ensures ScanFailures(before + [r] + after, c)
         == ScanFailures(before, c) + (if c.scan(r) == None then [ScanFailed(r)] else []) + ScanFailures(after, c)
    ensures Found([], c) == [] && ScanFailures([], c) == []
  {
    FoundConcat(before + [r], after, c);
    FoundConcat(before, [r], c);
    assert [r][..0] == [];
  }

  lemma {:induction false} FilterConcat(a: seq<Instance>, b: seq<Instance>, p: Instance -> bool)
    ensures Filter(a + b, p) == Filter(a, p) + Filter(b, p)
  {
    if b == [] {
      assert a + b == a;
    } else {
      FilterConcat(a, b[..|b| - 1], p);
      assert (a + b)[..|a + b| - 1] == a + b[..|b| - 1];
    }
  }

  /** Expired and surviving nodes keep the order in which they were found. */
  lemma SplitInOrder(before: seq<Instance>, x: Instance, after: seq<Instance>, now: Micros)
    ensures Doomed(before + [x] + after, now)
         == Doomed(before, now) + (if TagHasPassed(x.node, now) then [x] else []) + Doomed(after, now)
    ensures Survivors(before + [x] + after, now)
         == Survivors(before, now) + (if TagHasPassed(x.node, now) then [] else [x]) + Survivors(after, now)
  {
    hide Expired, TagHasPassed;
    ExpiredExactly(x.node, now);
    forall p: Instance -> bool
      ensures Filter(before + [x] + after, p) == Filter(before, p) + (if p(x) then [x] else []) + Filter(after, p)
    {
      FilterConcat(before + [x], after, p);
      FilterConcat(before, [x], p);
      assert [x][..0] == [];
    }
  }

  /** A sweep first reaps, then ends duplicates, then stamps, and writes the pointer last, so that a
      sweep that dies has not yet said what it has not yet done. */
  lemma SweepWritesLast(slot: Slot, c: SweepCalls)
    returns (reaps: seq<Effect>, duplicates: seq<Effect>, stamps: seq<Effect>, puts: seq<Effect>)
    requires 0 <= c.now < END_OF_TIME && c.regions.Some?
    ensures Sweep(slot, c).effects == reaps + duplicates + stamps + puts
    ensures forall e :: e in reaps ==> e.Kill? && IsDoomed(c, e.id)
    ensures forall e :: e in duplicates ==> e.Kill? && e.id in Ids(Extras(Alive(c)))
    ensures |stamps| <= 1 && (forall e :: e in stamps ==> e.Stamp?)
    ensures |puts| <= 1 && (forall e :: e in puts ==> e.Put?)
  {
    hide Found, Doomed, Survivors, Kept, Extras, Orderable, Kills, Terminated, NotTerminatedOf, ShouldAlert, Wanted;
    hide Rfc3339, ScanFailures, Readable;
    var doomed, alive := Doomed(AllFound(c), c.now), Alive(c);
    reaps, duplicates := Kills(doomed, c.terminate), Kills(Extras(alive), c.terminate);
    stamps := if Kept(alive) == [] then [] else IdleCheck(Kept(alive)[0], c).0;
    puts := Reconcile(slot, alive, ScanFailures(c.regions.value, c) == [], c).0;
    KillsAre(doomed, c.terminate);
    KillsAre(Extras(alive), c.terminate);
  }

  /** Terminate calls are made in the order of the list, one for each node. */
  lemma KillsInOrder(s: seq<Instance>, x: Instance, terminate: Id -> Outcome)
    ensures Kills(s + [x], terminate) == Kills(s, terminate) + if terminate(x.id) == Refused then [] else [Kill(x.id)]
    ensures Terminated(s + [x], terminate) == Terminated(s, terminate) + if terminate(x.id) == Done then [x.id] else []
    ensures Kills([], terminate) == [] && Terminated([], terminate) == []
  {
    assert (s + [x])[..|s|] == s;
  }

  // ---- whatever has happened before ----

  lemma NeverGarbledStep(w: World, s: Step, listed: set<Region>)
    requires Fits(w, s, listed) && !w.slot.Garbled?
    ensures !Next(w, s).slot.Garbled?
  {
    hide Performed, Effects, Next;
    QuietUnlessUp(w, s, listed);
    if Quiet(Performed(w, s)) {
      QuietStep(w, s, listed);
    } else {
      LaunchedWorld(w, s, listed);
    }
  }

  lemma {:induction false} NeverGarbled(w: World, run: seq<Step>, listed: set<Region>)
    requires RunFits(w, run, listed) && !w.slot.Garbled?
    ensures !Final(w, run).slot.Garbled?
    decreases |run|
  {
    hide Fits, Next;
    if |run| > 0 {
      NeverGarbledStep(w, run[0], listed);
      NeverGarbled(Next(w, run[0]), run[1..], listed);
    }
  }

  /** From an empty account and after any run, however its calls failed and wherever its actions
      died: one sweep whose calls succeed, and during which nothing ends by itself, leaves one
      tracked node or nothing. */
  lemma AnyRunIsRepaired(run: seq<Step>, listed: set<Region>, c: SweepCalls)
    requires var w := Final(World(map[], map[], Empty), run);
      && RunFits(World(map[], map[], Empty), run, listed)
      && SweepFits(w, c, {}) && Calm(w.slot, c)
      && forall r :: r in c.regions.value <==> r in listed
    ensures Settled(After(Final(World(map[], map[], Empty), run), c))
  {
    hide Final, RunFits, SweepFits, After;
    var start := World(map[], map[], Empty);
    var w := Final(start, run);
    AnchoredAlways(start, run, listed);
    WellTaggedAlways(start, run, listed);
    NeverGarbled(start, run, listed);
    assert Covered(w, c);
    DatedIsOrderable(w, c, {}, listed);
    SettledWhenCalm(w, c);
  }

  // ---- the answers of up and status ----

  /** When an `up` answers with a node, the pointer then leads to that node's region, and the node
      is up unless it ended by itself meanwhile. */
  lemma UpAnswersTruly(w: World, s: Step, listed: set<Region>, id: Id)
    requires s.UpStep? && Fits(w, s, listed) && s.done >= |Effects(w, s)|
    requires Up(w.slot, s.req, s.up).1.Node? && Up(w.slot, s.req, s.up).1.id == id
    ensures var w' := Next(w, s);
      && w'.slot.Names?
      && (id !in s.gone ==> id in w'.live && w'.live[id].region == w'.slot.region)
      && (s.up.id in w'.live && s.up.id !in w.live ==> id == s.up.id && w'.slot.id == id)
  {
    hide ParseTtl, Rfc3339, Selected;
    var es, c := Effects(w, s), s.up;
    assert Performed(w, s) == es;
    if w.slot.Names? && Describe(c.tracked, w.slot.id, c.look) != Absent {
      SelectedIsLive(w, w.slot.region, c.tracked.value, w.slot.id, s.gone);
      assert es == [] && Next(w, s) == Vanish(w, s.gone);
    } else if c.found.value != [] {
      SelectedIsLive(w, Target(s.req, c).value, c.again.value, c.found.value[0].id, s.gone);
      ReplayOne(w, es[0]);
      assert Next(w, s).live == w.live - s.gone;
    } else {
      var region, expires := Target(s.req, c).value, ParseTtl(Lifetime(s.req, c).value, c.now).value;
      assert es == [Launch(c.id, NewNode(region, expires, c.now)), Put(Names(region, c.id))];
      ReplayTwo(w, es[0], es[1]);
    }
  }

  lemma SelectedIsLive(w: World, region: Region, seen: seq<Instance>, id: Id, gone: set<Id>)
    requires Sees(w, region, seen, gone) && seen != []
    ensures Selected(seen, id).id in w.live && w.live[Selected(seen, id).id].region == region
  {
    assert Selected(seen, id) in seen;
  }

  /** In a tracked fleet `status` names the live node, and says "absent" exactly if there is none. */
  lemma StatusTellsTruth(w: World, c: StatusCalls, id: Id)
    requires Tracked(w) && c.pointerRead && AskTailnet(c.look).Some? && !w.slot.Garbled?
    requires w.slot.Names? ==> c.tracked.Some? && Sees(w, w.slot.region, c.tracked.value, {})
    ensures Status(w.slot, c) == Absent <==> w.live == map[]
    ensures Status(w.slot, c).Node? && Status(w.slot, c).id == id <==> id in w.live
  {
    hide Selected;
    NoIds();
    if w.slot.Names? {
      var seen := c.tracked.value;
      if seen != [] {
        SelectedIsLive(w, w.slot.region, seen, w.slot.id, {});
        assert seen[0] in seen;
      }
    }
  }
}
