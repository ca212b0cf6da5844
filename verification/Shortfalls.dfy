/** Inputs at which the control plane falls short of what one would expect of it. All but one are
    runs from an empty account; the exact conditions are theorems elsewhere. */
module Shortfalls {
  import opened Wrappers
  import opened Calendar
  import opened Ttl
  import opened Fleet
  import opened Handler
  import opened Watchdog
  import opened SweepProperties
  import opened SweepTheorems
  import opened Runs
  import opened Tracking
  import opened Retry
  import opened Reporting
  import opened Cadence

  const NOTHING: World := World(map[], map[], Empty)
  const CANADA: Region := "ca-central-1"
  const IRELAND: Region := "eu-west-1"
  const REGIONS: seq<Region> := [CANADA, IRELAND]
  const LISTED: set<Region> := {CANADA, IRELAND}

  function Lookup(): Lookups {
    Lookups(Some("id"), Some("secret"), Listed, 0, (id: Id) => false, (id: Id) => None)
  }

  // An `up` for Ireland that sees `tracked` where the pointer leads and `found` in Ireland.
  function UpAt(now: Micros, ttl: TtlArg, tracked: seq<Instance>, found: seq<Instance>, id: Id, put: Outcome, gone: set<Id>)
    : Step
  {
    UpStep(UpRequest(Some(IRELAND), ttl),
           UpCalls(true, Some(tracked), Lookup(), Some(REGIONS), Some(CANADA), Some(TtlArg.Text("none")), now,
                   Some(found), Some(found), true, true, id, Done, put),
           2, gone)
  }

  function NodeOf(now: Micros, expires: string): Node
    requires InTime(now)
  {
    NewNode(IRELAND, expires, now)
  }

  // A launch in Ireland while Ireland is empty, with or without its pointer write.
  lemma LaunchAt(w: World, now: Micros, ttl: TtlArg, expires: string, id: Id, put: Outcome, gone: set<Id>)
    requires InTime(now) && id !in w.born && !w.slot.Garbled? && (w.slot.Names? ==> w.slot.region == IRELAND)
    requires w.live == map[] && put != Lost
    requires ttl != Missing && ParseTtl(ttl, now) == Success(expires)
    ensures Fits(w, UpAt(now, ttl, [], [], id, put, gone), LISTED)
    ensures Next(w, UpAt(now, ttl, [], [], id, put, gone))
         == World(map[id := NodeOf(now, expires)] - gone, w.born[id := IRELAND],
                  if put.Done? then Names(IRELAND, id) else w.slot)
  {
    hide ParseTtl, NewNode;
    var s := UpAt(now, ttl, [], [], id, put, gone);
    var node := NodeOf(now, expires);
    NoIds();
    NodesAreInIreland(now, expires);
    if put.Done? {
      assert Effects(w, s) == [Launch(id, node), Put(Names(IRELAND, id))];
      ReplayTwo(w, Launch(id, node), Put(Names(IRELAND, id)));
    } else {
      assert Effects(w, s) == [Launch(id, node)];
      ReplayOne(w, Launch(id, node));
    }
    assert w.live[id := node] == map[id := node];
  }

  lemma OneStep(w: World, s: Step)
    requires Fits(w, s, LISTED)
    ensures RunFits(w, [s], LISTED) && Final(w, [s]) == Next(w, s)
  {
    hide Fits, Next;
    assert [s][1..] == [];
  }

  lemma TwoSteps(w: World, s: Step, t: Step)
    requires Fits(w, s, LISTED) && Fits(Next(w, s), t, LISTED)
    ensures RunFits(w, [s, t], LISTED) && Final(w, [s, t]) == Next(Next(w, s), t)
  {
    hide Fits, Next;
    assert [s, t][1..] == [t];
    OneStep(Next(w, s), t);
  }

  lemma ThreeSteps(w: World, s: Step, t: Step, u: Step)
    requires Fits(w, s, LISTED) && Fits(Next(w, s), t, LISTED) && Fits(Next(Next(w, s), t), u, LISTED)
    ensures RunFits(w, [s, t, u], LISTED) && Final(w, [s, t, u]) == Next(Next(Next(w, s), t), u)
  {
    hide Fits, Next;
    assert [s, t, u][1..] == [t, u];
    TwoSteps(Next(w, s), t, u);
  }

  const FOREVER: TtlArg := TtlArg.Text("none")

  // ---- down ----

  /** A `down` that answers "absent" while a node lives on: an `up` for another region than the
      default one has lost its pointer write. */
  lemma DownMissesAnOrphan(now: Micros)
    requires InTime(now)
    ensures var up := UpAt(now, FOREVER, [], [], "i-1", Refused, {});
      var down := DownStep(DownCalls(true, Some(CANADA), Some([]), _ => Done, Done), 1, {});
      && RunFits(NOTHING, [up, down], LISTED)
      && Down(Next(NOTHING, up).slot, down.down).1 == Absent
      && "i-1" in Final(NOTHING, [up, down]).live
  {
    hide NewNode;
    var up := UpAt(now, FOREVER, [], [], "i-1", Refused, {});
    var down := DownStep(DownCalls(true, Some(CANADA), Some([]), _ => Done, Done), 1, {});
    LaunchAt(NOTHING, now, FOREVER, NEVER, "i-1", Refused, {});
    NodesAreInIreland(now, NEVER);
    DownFindsNothing(Next(NOTHING, up), down);
    TwoSteps(NOTHING, up, down);
  }

  lemma NodesAreInIreland(now: Micros, expires: string)
    requires InTime(now)
    ensures NodeOf(now, expires).region == IRELAND && NodeOf(now, expires).expires == Some(expires)
  {
  }

  lemma DownFindsNothing(w: World, s: Step)
    requires s == DownStep(DownCalls(true, Some(CANADA), Some([]), _ => Done, Done), 1, {}) && w.slot == Empty
    requires forall id :: id in w.live ==> w.live[id].region == IRELAND
    ensures Fits(w, s, LISTED) && Down(w.slot, s.down).1 == Absent && Next(w, s).live == w.live
  {
    assert Performed(w, s) == [];
  }

  // ---- a retried up ----

  /** A retry in which every call succeeds leaves the pointer on a dead instance: the node ended,
      its successor's pointer write failed, and the retry finds the successor where the pointer
      leads. */
  lemma RetryKeepsAStaleId(now: Micros)
    requires InTime(now)
    ensures var x := Instance("i-2", NodeOf(now, NEVER));
      var first := UpAt(now, FOREVER, [], [], "i-1", Done, {"i-1"});
      var second := UpAt(now, FOREVER, [], [], "i-2", Refused, {});
      var retry := UpAt(now, FOREVER, [x], [x], "i-3", Done, {});
      var w := Final(NOTHING, [first, second]);
      && RunFits(NOTHING, [first, second, retry], LISTED)
      && AllGoesWell(retry)
      && Up(w.slot, retry.req, retry.up).1.Node? && Up(w.slot, retry.req, retry.up).1.id == "i-2"
      && "i-1" !in Final(NOTHING, [first, second, retry]).live
      && Final(NOTHING, [first, second, retry]).slot == Names(IRELAND, "i-1")
  {
    hide NewNode;
    var x := Instance("i-2", NodeOf(now, NEVER));
    var first := UpAt(now, FOREVER, [], [], "i-1", Done, {"i-1"});
    var second := UpAt(now, FOREVER, [], [], "i-2", Refused, {});
    var retry := UpAt(now, FOREVER, [x], [x], "i-3", Done, {});
    LaunchAt(NOTHING, now, FOREVER, NEVER, "i-1", Done, {"i-1"});
    var w1 := Next(NOTHING, first);
    assert w1 == World(map[], map["i-1" := IRELAND], Names(IRELAND, "i-1"));
    LaunchAt(w1, now, FOREVER, NEVER, "i-2", Refused, {});
    var w2 := Next(w1, second);
    NodesAreInIreland(now, NEVER);
    assert w2.live == map["i-2" := x.node];
    RetryRests(w2, now, x);
    TwoSteps(NOTHING, first, second);
    ThreeSteps(NOTHING, first, second, retry);
  }

  lemma RetryRests(w: World, now: Micros, x: Instance)
    requires InTime(now) && x.node.region == IRELAND && w.live == map[x.id := x.node] && w.slot.Names?
    requires w.slot.region == IRELAND && "i-3" !in w.born
    ensures var s := UpAt(now, FOREVER, [x], [x], "i-3", Done, {});
      && Fits(w, s, LISTED) && AllGoesWell(s) && Next(w, s) == w
      && Up(w.slot, s.req, s.up).1.Node? && Up(w.slot, s.req, s.up).1.id == x.id
  {
    var s := UpAt(now, FOREVER, [x], [x], "i-3", Done, {});
    OneId([x]);
    assert forall y :: y in [x] ==> y == x;
    assert Selected([x], w.slot.id) in [x];
    assert Performed(w, s) == [];
    assert w.live - {} == w.live;
  }

  // ---- sweeps over one node in Ireland ----

  function SweepAt(now: Micros, seen: seq<Instance>, pointerRead: bool, kill: Outcome, stamp: Outcome): SweepCalls {
    SweepCalls(now, Some(1), pointerRead, Some(REGIONS),
               (r: Region) => if r == IRELAND then Some(seen) else Some([]),
               (id: Id) => kill, (id: Id) => true, (id: Id) => Some(0), stamp, Done)
  }

  lemma SeenInIreland(c: SweepCalls, seen: seq<Instance>)
    requires c.regions == Some(REGIONS) && c.scan(CANADA) == Some([]) && c.scan(IRELAND) == Some(seen)
    ensures AllFound(c) == seen
    ensures forall r :: r in REGIONS ==> c.scan(r).Some?
  {
    assert REGIONS[..1] == [CANADA] && REGIONS[..1][..0] == [];
    assert Found([CANADA], c) == [];
  }

  lemma SweepFitsIreland(w: World, now: Micros, seen: seq<Instance>, pointerRead: bool, kill: Outcome, stamp: Outcome)
    requires 0 <= now < END_OF_TIME && Sees(w, IRELAND, seen, {})
    requires forall id :: id in w.live ==> w.live[id].region == IRELAND
    ensures SweepFits(w, SweepAt(now, seen, pointerRead, kill, stamp), {})
    ensures Covered(w, SweepAt(now, seen, pointerRead, kill, stamp)) || (w.slot.Names? && w.slot.id in w.live)
  {
  }

  lemma OneIsSeen(w: World, x: Instance)
    requires w.live == map[x.id := x.node] && x.node.region == IRELAND
    ensures Sees(w, IRELAND, [x], {})
  {
    OneId([x]);
  }

  lemma FilterOne(x: Instance)
    ensures forall p: Instance -> bool :: Filter([x], p) == if p(x) then [x] else []
  {
    assert [x][..0] == [];
  }

  lemma FilterTwo(x: Instance, y: Instance)
    ensures forall p: Instance -> bool :: p(x) && p(y) ==> Filter([x, y], p) == [x, y]
  {
    FilterOne(x);
    forall p: Instance -> bool | p(x) && p(y)
      ensures Filter([x, y], p) == [x, y]
    {
      assert [x, y][..1] == [x];
    }
  }

  lemma OneAlive(c: SweepCalls, x: Instance)
    requires c.regions.Some? && AllFound(c) == [x] && !Expired(x.node, c.now)
    ensures Alive(c) == [x] && Kept(Alive(c)) == [x] && Orderable(Alive(c)) && IsChosen(c, x)
  {
    hide Found, Expired, Time, Filter;
    FilterOne(x);
    assert IsNewest(Alive(c), 0) && Alive(c)[0] == x;
  }

  /** A sweep loses track of a live node: its hour is over, and its termination is refused. */
  lemma SweepForgetsALiveNode(launch: Micros)
    requires InTime(launch)
    ensures var up := UpAt(launch, TtlArg.Text("60m"), [], [], "i-1", Done, {});
      var hour := (launch / SECOND + 3600) * SECOND;
      var node := NodeOf(launch, Rfc3339(launch + 3600 * SECOND));
      var sweep := SweepStep(SweepAt(hour, [Instance("i-1", node)], true, Refused, Done), 9, {});
      && RunFits(NOTHING, [up, sweep], LISTED)
      && Tracked(Next(NOTHING, up))
      && "i-1" in Final(NOTHING, [up, sweep]).live && !Tracked(Final(NOTHING, [up, sweep]))
  {
    hide NewNode, Rfc3339, Parse, Fits, Next, Tracked;
    HourIsAccepted(launch);
    var ttl, expires := TtlArg.Text("60m"), Rfc3339(launch + 3600 * SECOND);
    var x := Instance("i-1", NodeOf(launch, expires));
    var up := UpAt(launch, ttl, [], [], "i-1", Done, {});
    LaunchAt(NOTHING, launch, ttl, expires, "i-1", Done, {});
    NodesAreInIreland(launch, expires);
    var w := Next(NOTHING, up);
    assert w.live == map["i-1" := x.node];
    NothingIsWellTagged();
    OneStep(NOTHING, up);
    WellTaggedAlways(NOTHING, [up], LISTED);
    ExpiresAfterAnHour(launch, x.node);
    ForgetsFrom(w, x, (launch / SECOND + 3600) * SECOND);
    TwoSteps(NOTHING, up, SweepStep(SweepAt((launch / SECOND + 3600) * SECOND, [x], true, Refused, Done), 9, {}));
  }

  lemma ForgetsFrom(w: World, x: Instance, now: Micros)
    requires 0 <= now < END_OF_TIME && w.live == map[x.id := x.node] && w.slot == Names(IRELAND, x.id)
    requires x.node.region == IRELAND && WellTagged(w, LISTED) && Expired(x.node, now)
    ensures var s := SweepStep(SweepAt(now, [x], true, Refused, Done), 9, {});
      Fits(w, s, LISTED) && Tracked(w) && x.id in Next(w, s).live && !Tracked(Next(w, s))
  {
    hide Expired, Sweep, Found, Next, WellTagged;
    var c := SweepAt(now, [x], true, Refused, Done);
    var s := SweepStep(c, 9, {});
    OneIsSeen(w, x);
    SweepFitsIreland(w, now, [x], true, Refused, Done);
    SeenInIreland(c, [x]);
    FewEffects(w, c, x);
    assert x.id in w.live && c.terminate(x.id).Refused?;
    assert LosesTrack(w, c, {});
    SweepKeepsTrackExactly(w, s, LISTED);
    WhoIsNotKilledStays(w, s, x.id);
  }

  lemma NothingIsWellTagged()
    ensures WellTagged(NOTHING, LISTED)
  {
  }

  lemma HourIsAccepted(launch: Micros)
    requires InTime(launch)
    ensures ParseTtl(TtlArg.Text("60m"), launch) == Success(Rfc3339(launch + 3600 * SECOND))
    ensures HasTtlShape("60m") && TtlSeconds("60m") == 3600
  {
    hide Rfc3339;
    assert "60m"[..2] == "60";
    assert "60"[..1] == "6" && "6"[..0] == "";
  }

  lemma ExpiresAfterAnHour(launch: Micros, node: Node)
    requires InTime(launch) && node.expires == Some(Rfc3339(launch + 3600 * SECOND))
    ensures Expired(node, (launch / SECOND + 3600) * SECOND)
  {
    hide Rfc3339, Parse;
    HourIsAccepted(launch);
    TtlEndToEnd(TtlArg.Text("60m"), launch, (launch / SECOND + 3600) * SECOND);
    Rfc3339IsNotNever(launch + 3600 * SECOND);
  }

  // One node, and all calls that change it are made at most once.
  lemma FewEffects(w: World, c: SweepCalls, x: Instance)
    requires 0 <= c.now < END_OF_TIME && c.regions.Some? && AllFound(c) == [x]
    ensures |Sweep(w.slot, c).effects| <= 9
  {
    hide Found, Expired, Rfc3339, ShouldAlert, Wanted, Orderable;
    hide Filter;
    FilterOne(x);
    assert |Doomed([x], c.now)| <= 1 && |Survivors([x], c.now)| <= 1;
    FewKills(Doomed([x], c.now), c.terminate);
    FewKills(Extras(Survivors([x], c.now)), c.terminate);
  }

  lemma FewKills(s: seq<Instance>, terminate: Id -> Outcome)
    requires |s| <= 1
    ensures |Kills(s, terminate)| <= 1
  {
    if s != [] {
      assert s[..0] == [];
    }
  }

  lemma WhoIsNotKilledStays(w: World, s: Step, id: Id)
    requires s.SweepStep? && Fits(w, s, LISTED) && s.sweep.regions.Some?
    requires id in w.live && id !in s.gone && s.sweep.terminate(id) == Refused
    ensures id in Next(w, s).live
  {
    hide Sweep, Found, Expired, Killed;
    QuietUnlessUp(w, s, LISTED);
    QuietReplay(w, Performed(w, s));
    PerformedIsPrefix(w, s);
    SweepEffectsAre(w.slot, s.sweep);
    NotKilled(Performed(w, s), id);
  }

  /** The idle message is repeated an hour later, because its stamp was refused. */
  lemma MessageIsRepeated(launch: Micros)
    requires InTime(launch)
    ensures var up := UpAt(launch, FOREVER, [], [], "i-1", Done, {});
      var x := Instance("i-1", NodeOf(launch, NEVER));
      var one := SweepStep(SweepAt(launch + 25 * 3600 * SECOND, [x], true, Done, Refused), 9, {});
      var two := SweepStep(SweepAt(launch + 26 * 3600 * SECOND, [x], true, Done, Refused), 9, {});
      && RunFits(NOTHING, [up, one, two], LISTED)
      && Warns(one, "i-1") && Warns(two, "i-1")
  {
    hide NewNode, Rfc3339, Parse, Fits, Next, Warns, Due;
    var x := Instance("i-1", NodeOf(launch, NEVER));
    var up := UpAt(launch, FOREVER, [], [], "i-1", Done, {});
    LaunchAt(NOTHING, launch, FOREVER, NEVER, "i-1", Done, {});
    NodesAreInIreland(launch, NEVER);
    var w := Next(NOTHING, up);
    assert w.live == map["i-1" := x.node];
    DueAfterADay(launch);
    NeverExpires(launch, launch + 25 * 3600 * SECOND);
    NeverExpires(launch, launch + 26 * 3600 * SECOND);
    WarnsAt(w, x, launch + 25 * 3600 * SECOND);
    WarnsAt(w, x, launch + 26 * 3600 * SECOND);
    ThreeSteps(NOTHING, up, SweepStep(SweepAt(launch + 25 * 3600 * SECOND, [x], true, Done, Refused), 9, {}),
               SweepStep(SweepAt(launch + 26 * 3600 * SECOND, [x], true, Done, Refused), 9, {}));
  }

  // A sweep of one tracked, idle node whose stamp is refused warns, and changes nothing.
  lemma WarnsAt(w: World, x: Instance, now: Micros)
    requires 0 <= now < END_OF_TIME && w.live == map[x.id := x.node] && w.slot == Names(IRELAND, x.id)
    requires x.node.region == IRELAND && !Expired(x.node, now) && now >= Due(x.node)
    ensures var s := SweepStep(SweepAt(now, [x], true, Done, Refused), 9, {});
      Fits(w, s, LISTED) && Warns(s, x.id) && Next(w, s) == w
  {
    hide Expired, Due, Next, Warns;
    var s := SweepStep(SweepAt(now, [x], true, Done, Refused), 9, {});
    OneIsSeen(w, x);
    SweepFitsIreland(w, now, [x], true, Done, Refused);
    SweepOnlyWarns(w, s, x);
    IdleReads(s, x);
    WarnsWhenDue(w, s, LISTED, x.id);
  }

  lemma NeverExpires(launch: Micros, now: Micros)
    requires InTime(launch)
    ensures !Expired(NodeOf(launch, NEVER), now)
  {
  }

  lemma DueAfterADay(launch: Micros)
    requires InTime(launch)
    ensures Due(NodeOf(launch, NEVER)) == (launch / SECOND + DAY) * SECOND
  {
    hide Rfc3339, Parse;
    Rfc3339Parses(launch);
  }

  lemma IdleReads(s: Step, x: Instance)
    requires s.SweepStep? && s.sweep.stamp == Refused
    requires s.sweep == SweepAt(s.sweep.now, [x], true, Done, Refused) && !Expired(x.node, s.sweep.now)
    ensures ReadsIdle(s, x.id)
  {
    hide Expired;
    SeenInIreland(s.sweep, [x]);
    OneAlive(s.sweep, x);
  }

  // The node is unexpired and in the slot, and its stamp is refused: nothing changes.
  lemma SweepOnlyWarns(w: World, s: Step, x: Instance)
    requires s.SweepStep? && s.gone == {} && s.sweep == SweepAt(s.sweep.now, [x], true, Done, Refused)
    requires SweepFits(w, s.sweep, {}) && w.live == map[x.id := x.node] && w.slot == Names(IRELAND, x.id)
    requires x.node.region == IRELAND && !Expired(x.node, s.sweep.now)
    ensures Next(w, s) == w
  {
    hide Expired, Sweep, Found, Survivors, Extras, Kept, Orderable;
    var c := s.sweep;
    SeenInIreland(c, [x]);
    OneAlive(c, x);
    SweepEffectsAre(w.slot, c);
    assert w.live.Keys == {x.id};
    assert Settled(w);
    SweepIsFixpoint(w, c, {});
    if Sweep(w.slot, c).effects != [] {
      var e := AnElement(Sweep(w.slot, c).effects);
      assert false;
    }
    assert Performed(w, s) == [];
    assert w.live - {} == w.live;
  }

  lemma AnElement<T>(s: seq<T>) returns (e: T)
    requires s != []
    ensures e in s
  {
    e := s[0];
  }

  // ---- what a sweep cannot repair ----

  /** A sweep reports no failure, and yet leaves a live node that no pointer leads to: it could not
      read the pointer. */
  lemma SilentSweepLeavesAnOrphan(now: Micros)
    requires InTime(now)
    ensures var up := UpAt(now, FOREVER, [], [], "i-1", Refused, {});
      var c := SweepAt(now, [Instance("i-1", NodeOf(now, NEVER))], false, Done, Done);
      var w := Final(NOTHING, [up]);
      && RunFits(NOTHING, [up], LISTED) && SweepFits(w, c, {}) && Covered(w, c)
      && Sweep(w.slot, c).failures == [] && !Settled(After(w, c))
  {
    hide NewNode, Rfc3339, Parse;
    var x := Instance("i-1", NodeOf(now, NEVER));
    var up := UpAt(now, FOREVER, [], [], "i-1", Refused, {});
    var c := SweepAt(now, [x], false, Done, Done);
    LaunchAt(NOTHING, now, FOREVER, NEVER, "i-1", Refused, {});
    NodesAreInIreland(now, NEVER);
    OneStep(NOTHING, up);
    var w := Next(NOTHING, up);
    assert w.live == map["i-1" := x.node];
    OneIsSeen(w, x);
    SweepFitsIreland(w, now, [x], false, Done, Done);
    SeenInIreland(c, [x]);
    NeverExpires(now, now);
    OneAlive(c, x);
    NothingFails(w, c, x);
    SilentSweepExactly(w, c);
  }

  lemma NothingFails(w: World, c: SweepCalls, x: Instance)
    requires 0 <= c.now < END_OF_TIME && c == SweepAt(c.now, [x], false, Done, Done)
    requires AllFound(c) == [x] && Alive(c) == [x] && Orderable(Alive(c))
    ensures Sweep(w.slot, c).failures == []
  {
    hide Sweep, Found, Survivors, Extras, Orderable, Kept, IsChosen, AlertsOn;
    FailuresExactly(w.slot, c);
    if Sweep(w.slot, c).failures != [] {
      var p := AnElement(Sweep(w.slot, c).failures);
      assert false;
    }
  }

  // Two unexpired nodes, of which one has lost its launch tag; only a hand can do that.
  function Undated(): World {
    World(map["i-1" := Node.Node(IRELAND, None, None, None), "i-2" := Node.Node(IRELAND, None, None, None)],
          map["i-1" := IRELAND, "i-2" := IRELAND], Names(IRELAND, "i-1"))
  }

  /** A sweep in which everything works leaves two nodes, if it cannot date them. */
  lemma UndatedDuplicatesStay(now: Micros)
    requires 0 <= now < END_OF_TIME
    ensures var w := Undated();
      var c := SweepAt(now, [Instance("i-1", w.live["i-1"]), Instance("i-2", w.live["i-2"])], true, Done, Done);
      && SweepFits(w, c, {}) && Calm(w.slot, c) && Covered(w, c)
      && After(w, c).live.Keys == {"i-1", "i-2"} && After(w, c).slot == w.slot
  {
    hide Sweep, Parse, Found, Survivors, Expired, Covered, Calm, After;
    var w := Undated();
    var x, y := Instance("i-1", w.live["i-1"]), Instance("i-2", w.live["i-2"]);
    var c := SweepAt(now, [x, y], true, Done, Done);
    BothAreSeen(w, x, y);
    SweepFitsIreland(w, now, [x, y], true, Done, Done);
    SeenInIreland(c, [x, y]);
    UntaggedNeverExpires(x.node, now);
    BothSurvive(x, y, now);
    CalmInIreland(w, now, [x, y]);
    assert x in Alive(c) && !Dated(Alive(c));
    SweepStabilises(w, c);
    assert [x, y][0].id == "i-1" && [x, y][1].id == "i-2";
    assert Ids([x, y]) == {"i-1", "i-2"};
  }

  lemma BothAreSeen(w: World, x: Instance, y: Instance)
    requires x.id != y.id && w.live == map[x.id := x.node, y.id := y.node]
    requires x.node.region == IRELAND && y.node.region == IRELAND
    ensures Sees(w, IRELAND, [x, y], {})
  {
    assert [x, y][0].id == x.id && [x, y][1].id == y.id;
  }

  lemma CalmInIreland(w: World, now: Micros, seen: seq<Instance>)
    requires w.slot.Names? && w.slot.region == IRELAND
    requires forall id :: id in w.live ==> w.live[id].region == IRELAND
    ensures var c := SweepAt(now, seen, true, Done, Done); Calm(w.slot, c) && Covered(w, c)
  {
    hide Found, Survivors, Doomed, Extras;
  }

  lemma UntaggedNeverExpires(node: Node, now: Micros)
    requires node.expires == None
    ensures !Expired(node, now)
  {
  }

  lemma BothSurvive(x: Instance, y: Instance, now: Micros)
    requires !Expired(x.node, now) && !Expired(y.node, now)
    ensures Survivors([x, y], now) == [x, y]
  {
    hide Expired, Filter;
    FilterTwo(x, y);
  }

  // ---- describing a node ----

  /** `status` fails over a Tailscale secret that SSM cannot deliver, although EC2 has answered;
      with the tailnet itself down, it answers. */
  lemma StatusFailsForASecret(x: Instance)
    ensures var down := Lookup().(device := TailscaleError);
      var unread := Lookup().(clientSecret := None);
      && Status(Names(x.node.region, x.id), StatusCalls(true, Some([x]), unread)) == Failed
      && Status(Names(x.node.region, x.id), StatusCalls(true, Some([x]), down)) == Response.Node(x.id, Unknown, None)
  {
    assert Selected([x], x.id) in [x];
  }
}
