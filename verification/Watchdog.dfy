/** The hourly sweep of lambda/shardvpn/watchdog.py, as a list of effects and a report. */
module Watchdog {
  import opened Wrappers
  import opened Calendar
  import opened Ttl
  import opened Fleet
  import opened Handler

  const ALERT_INTERVAL: Micros := DAY * SECOND

  // ---- tags ----

  // watchdog.py:246; an empty tag counts as no tag.
  function Expiry(node: Node): string {
    if node.expires.Some? && node.expires.value != "" then node.expires.value else NEVER
  }

  predicate Expired(node: Node, now: Micros) { IsExpired(Expiry(node), now) }

  function LaunchSecond(node: Node): Option<int> {
    match node.launched
    case None => None
    case Some(s) => Parse(s)
  }

  // watchdog.py:26-61
  predicate ShouldAlert(idleBytes: int, threshold: int, lastAlert: Option<string>, now: Micros,
                        launched: Option<string>)
  {
    if idleBytes >= threshold then false
    else if launched.Some? && Parse(launched.value).Some?
         && now - Parse(launched.value).value * SECOND < ALERT_INTERVAL then false
    else match lastAlert
      case None => true
      case Some(s) =>
        match Parse(s)
        case None => true
        case Some(at) => now - at * SECOND >= ALERT_INTERVAL
  }

  // ---- ordering, watchdog.py:98-127 ----

  predicate Dated(s: seq<Instance>) {
    forall x :: x in s ==> LaunchSecond(x.node).Some?
  }

  predicate Orderable(s: seq<Instance>) { |s| <= 1 || Dated(s) }

  function Time(x: Instance): int { LaunchSecond(x.node).GetOr(0) }

  // list.sort(reverse=True) keeps equal elements in their order: a later one goes behind.
  function Insert(sorted: seq<Instance>, x: Instance): (r: seq<Instance>)
    ensures multiset(r) == multiset(sorted) + multiset{x}
  {
    if sorted == [] then [x]
    else
      var n := |sorted| - 1;
      assert sorted == sorted[..n] + [sorted[n]];
      if Time(sorted[n]) < Time(x) then Insert(sorted[..n], x) + [sorted[n]] else sorted + [x]
  }

  function NewestFirst(s: seq<Instance>): (r: seq<Instance>)
    ensures multiset(r) == multiset(s)
  {
    if s == [] then []
    else
      assert s == s[..|s| - 1] + [s[|s| - 1]];
      Insert(NewestFirst(s[..|s| - 1]), s[|s| - 1])
  }

  // ---- one sweep ----

  // How every call of one sweep goes; None is a call that raises.
  datatype SweepCalls = SweepCalls(
    now: Micros,
    threshold: Option<int>,
    pointerRead: bool,
    regions: Option<seq<Region>>,
    scan: Region -> Option<seq<Instance>>,
    terminate: Id -> Outcome,
    running: Id -> bool,
    idleBytes: Id -> Option<int>,
    stamp: Outcome,
    put: Outcome)

  // What a terminate call was for, watchdog.py:248 and 279.
  datatype Reason = PastExpiry | Duplicate

  datatype Problem =
    | ThresholdUnread
    | RegionsUnread
    | ScanFailed(region: Region)
    | NotTerminated(id: Id, why: Reason)
    | Unordered
    | IdleCheckFailed(id: Id)
    | NotReconciled

  datatype Report = Report(
    effects: seq<Effect>,
    nodes: seq<Id>,
    reaped: seq<Id>,
    duplicates: seq<Id>,
    orphans: seq<Id>,
    alerted: seq<Id>,
    failures: seq<Problem>)

  function Scanned(r: Region, c: SweepCalls): seq<Instance> { c.scan(r).GetOr([]) }

  function Found(regions: seq<Region>, c: SweepCalls): seq<Instance> {
    if regions == [] then []
    else Found(regions[..|regions| - 1], c) + Scanned(regions[|regions| - 1], c)
  }

  function ScanFailures(regions: seq<Region>, c: SweepCalls): seq<Problem> {
    if regions == [] then []
    else
      var r := regions[|regions| - 1];
      ScanFailures(regions[..|regions| - 1], c) + if c.scan(r).None? then [ScanFailed(r)] else []
  }

  function Doomed(found: seq<Instance>, now: Micros): seq<Instance> {
    Filter(found, (x: Instance) => Expired(x.node, now))
  }

  function Survivors(found: seq<Instance>, now: Micros): seq<Instance> {
    Filter(found, (x: Instance) => !Expired(x.node, now))
  }

  // The node to keep, if any, and the ones to terminate as duplicates.
  function Ordered(survivors: seq<Instance>): seq<Instance> {
    if |survivors| <= 1 then survivors else NewestFirst(survivors)
  }

  function Kept(survivors: seq<Instance>): seq<Instance> {
    if Orderable(survivors) && survivors != [] then Ordered(survivors)[..1] else []
  }

  function Extras(survivors: seq<Instance>): seq<Instance> {
    if Orderable(survivors) && survivors != [] then Ordered(survivors)[1..] else []
  }

  // Every listed node gets a terminate call; a failure is noted and the next one is tried.
  function Kills(s: seq<Instance>, terminate: Id -> Outcome): seq<Effect> {
    if s == [] then []
    else
      var id := s[|s| - 1].id;
      Kills(s[..|s| - 1], terminate) + Attempt(Kill(id), terminate(id))
  }

  function Terminated(s: seq<Instance>, terminate: Id -> Outcome): seq<Id> {
    if s == [] then []
    else
      var id := s[|s| - 1].id;
      Terminated(s[..|s| - 1], terminate) + if terminate(id).Done? then [id] else []
  }

  function NotTerminatedOf(s: seq<Instance>, terminate: Id -> Outcome, why: Reason): seq<Problem> {
    if s == [] then []
    else
      var id := s[|s| - 1].id;
      NotTerminatedOf(s[..|s| - 1], terminate, why) + if terminate(id).Done? then [] else [NotTerminated(id, why)]
  }

  // watchdog.py:309-333, for the one node that is kept.
  function IdleCheck(x: Instance, c: SweepCalls): (seq<Effect>, seq<Id>, seq<Problem>)
    requires 0 <= c.now < END_OF_TIME
  {
    if !c.running(x.id) || c.threshold.None? then ([], [], [])
    else if c.idleBytes(x.id).None? then ([], [], [IdleCheckFailed(x.id)])
    else if !ShouldAlert(c.idleBytes(x.id).value, c.threshold.value, x.node.alerted, c.now, x.node.launched) then
      ([], [], [])
    else
      (Attempt(Stamp(x.id, Rfc3339(c.now)), c.stamp),
       if c.stamp.Done? then [x.id] else [],
       if c.stamp.Done? then [] else [IdleCheckFailed(x.id)])
  }

  // What the reconciliation wants stored, watchdog.py:351-369; None is no write.
  function Wanted(slot: Slot, kept: seq<Instance>, allScanned: bool): Option<Slot> {
    if kept != [] then
      if slot.Names? && slot.id == kept[0].id then None
      else Some(Names(kept[0].node.region, kept[0].id))
    else if slot.Names? && allScanned then Some(Empty)
    else None
  }

  function Reconcile(slot: Slot, survivors: seq<Instance>, allScanned: bool, c: SweepCalls)
    : (seq<Effect>, seq<Problem>)
  {
    if !Readable(slot, c.pointerRead) || !Orderable(survivors) then ([], [])
    else
      match Wanted(slot, Kept(survivors), allScanned)
      case None => ([], [])
      case Some(s) => (Attempt(Put(s), c.put), if c.put.Done? then [] else [NotReconciled])
  }

  function Sweep(slot: Slot, c: SweepCalls): Report
    requires 0 <= c.now < END_OF_TIME
  {
    var early := if c.threshold.None? then [ThresholdUnread] else [];
    if c.regions.None? then Report([], [], [], [], [], [], early + [RegionsUnread])
    else
      var found := Found(c.regions.value, c);
      var unscanned := ScanFailures(c.regions.value, c);
      var doomed, survivors := Doomed(found, c.now), Survivors(found, c.now);
      var kept, extras := Kept(survivors), Extras(survivors);
      var (stamps, alerted, idleFailures) := if kept == [] then ([], [], []) else IdleCheck(kept[0], c);
      var (puts, putFailures) := Reconcile(slot, survivors, unscanned == [], c);
      Report(
        Kills(doomed, c.terminate) + Kills(extras, c.terminate) + stamps + puts,
        IdSeq(found),
        Terminated(doomed, c.terminate),
        Terminated(extras, c.terminate),
        if kept != [] && !(Readable(slot, c.pointerRead) && slot.Names? && slot.id == kept[0].id)
        then [kept[0].id] else [],
        alerted,
        early + unscanned + NotTerminatedOf(doomed, c.terminate, PastExpiry)
        + (if Orderable(survivors) then NotTerminatedOf(extras, c.terminate, Duplicate) else [Unordered])
        + idleFailures + putFailures)
  }

  function IdSeq(s: seq<Instance>): seq<Id> {
    seq(|s|, i requires 0 <= i < |s| => s[i].id)
  }

  // The scans tell the truth about `w`, of which the nodes `gone` end before the sweep does.
  ghost predicate SweepFits(w: World, c: SweepCalls, gone: set<Id>) {
    && 0 <= c.now < END_OF_TIME
    && (c.regions.Some? ==>
          && (forall i, j :: 0 <= i < j < |c.regions.value| ==> c.regions.value[i] != c.regions.value[j])
          && (forall r :: r in c.regions.value && c.scan(r).Some? ==> Sees(w, r, c.scan(r).value, gone)))
  }
}
