/** The sweep as it runs against the account: loops over mutable lists and a mutable summary. */
module Sweeper {
  import opened Wrappers
  import opened Calendar
  import opened Ttl
  import opened Fleet
  import opened Handler
  import opened Watchdog
  import opened Aws

  // watchdog.py:176-184
  class Summary {
    var regionsScanned: nat
    var nodes: seq<Id>
    var reaped: seq<Id>
    var duplicates: seq<Id>
    var orphans: seq<Id>
    var alerted: seq<Id>
    var failures: seq<Problem>

    constructor ()
      ensures regionsScanned == 0 && AsReport([]) == Report([], [], [], [], [], [], [])
    {
      regionsScanned := 0;
      nodes, reaped, duplicates, orphans, alerted, failures := [], [], [], [], [], [];
    }

    ghost function AsReport(effects: seq<Effect>): Report
      reads this
    {
      Report(effects, nodes, reaped, duplicates, orphans, alerted, failures)
    }
  }

  // watchdog.py:208-238
  method Scan(regions: seq<Region>, c: SweepCalls) returns (found: seq<Instance>, failed: seq<Problem>)
    ensures found == Found(regions, c) && failed == ScanFailures(regions, c)
  {
    found, failed := [], [];
    for i := 0 to |regions|
      invariant found == Found(regions[..i], c) && failed == ScanFailures(regions[..i], c)
    {
      assert regions[..i + 1][..i] == regions[..i];
      match c.scan(regions[i])
      case Some(nodes) => found := found + nodes;
      case None => failed := failed + [ScanFailed(regions[i])];
    }
    assert regions[..|regions|] == regions;
  }

  // watchdog.py:130-145: a failed call is noted, not raised.
  method SafeTerminate(cloud: Cloud, id: Id, o: Outcome, why: Reason, summary: Summary)
    returns (ok: bool)
    requires cloud.Valid()
    modifies cloud, summary`failures
    ensures cloud.Issued(Attempt(Kill(id), o)) && ok == o.Done?
    ensures summary.failures == old(summary.failures) + if ok then [] else [NotTerminated(id, why)]
  {
    ok := cloud.Terminate(id, o);
    if !ok {
      summary.failures := summary.failures + [NotTerminated(id, why)];
    }
  }

  lemma KillsNone(terminate: Id -> Outcome, why: Reason)
    ensures Kills([], terminate) == [] && Terminated([], terminate) == [] && NotTerminatedOf([], terminate, why) == []
  {
  }

  lemma KillsStep(s: seq<Instance>, x: Instance, terminate: Id -> Outcome, why: Reason)
    ensures Kills(s + [x], terminate) == Kills(s, terminate) + Attempt(Kill(x.id), terminate(x.id))
    ensures Terminated(s + [x], terminate)
         == Terminated(s, terminate) + if terminate(x.id).Done? then [x.id] else []
    ensures NotTerminatedOf(s + [x], terminate, why)
         == NotTerminatedOf(s, terminate, why) + if terminate(x.id).Done? then [] else [NotTerminated(x.id, why)]
  {
    assert (s + [x])[..|s|] == s;
  }

  // watchdog.py:243-256
  method Reap(cloud: Cloud, found: seq<Instance>, now: Micros, terminate: Id -> Outcome, summary: Summary)
    returns (survivors: seq<Instance>)
    requires cloud.Valid()
    modifies cloud, summary`failures, summary`reaped
    ensures survivors == Survivors(found, now)
    ensures cloud.Issued(Kills(Doomed(found, now), terminate))
    ensures summary.reaped == old(summary.reaped) + Terminated(Doomed(found, now), terminate)
    ensures summary.failures == old(summary.failures) + NotTerminatedOf(Doomed(found, now), terminate, PastExpiry)
  {
    hide Prefix, Replay, Cloud.Valid, Expired, Kills, Terminated, NotTerminatedOf;
    survivors := [];
    KillsNone(terminate, PastExpiry);
    for i := 0 to |found|
      invariant survivors == Survivors(found[..i], now)
      invariant cloud.Issued(Kills(Doomed(found[..i], now), terminate))
      invariant summary.reaped == old(summary.reaped) + Terminated(Doomed(found[..i], now), terminate)
      invariant summary.failures == old(summary.failures) + NotTerminatedOf(Doomed(found[..i], now), terminate, PastExpiry)
    {
      var x := found[i];
      DoomedStep(found, i, now);
      if Expired(x.node, now) {
        KillsStep(Doomed(found[..i], now), x, terminate, PastExpiry);
        var ok := SafeTerminate(cloud, x.id, terminate(x.id), PastExpiry, summary);
        if ok {
          summary.reaped := summary.reaped + [x.id];
        }
      } else {
        survivors := survivors + [x];
      }
    }
    assert found[..|found|] == found;
  }

  lemma DoomedStep(s: seq<Instance>, i: nat, now: Micros)
    requires i < |s|
    ensures if Expired(s[i].node, now)
      then Doomed(s[..i + 1], now) == Doomed(s[..i], now) + [s[i]] && Survivors(s[..i + 1], now) == Survivors(s[..i], now)
      else Doomed(s[..i + 1], now) == Doomed(s[..i], now) && Survivors(s[..i + 1], now) == Survivors(s[..i], now) + [s[i]]
  {
    hide Expired;
    assert s[..i + 1][..i] == s[..i];
  }

  // ---- ordering, watchdog.py:98-127 ----

  // `parsed` pairs each instance with its launch time.
  ghost predicate Keyed(parsed: seq<(int, Instance)>, s: seq<Instance>) {
    |parsed| == |s| && forall i :: 0 <= i < |s| ==> parsed[i] == (Time(s[i]), s[i])
  }

  lemma InsertStep(s: seq<Instance>, x: Instance)
    ensures s == [] || Time(s[|s| - 1]) >= Time(x) ==> Insert(s, x) == s + [x]
    ensures s != [] && Time(s[|s| - 1]) < Time(x) ==> Insert(s, x) == Insert(s[..|s| - 1], x) + [s[|s| - 1]]
  {
    hide Time;
  }

  lemma Regroup(s: seq<Instance>, x: Instance, j: nat)
    requires j < |s|
    ensures var n := |s| - 1; s[..n][..j] + [x] + s[..n][j..] + [s[n]] == s[..j] + [x] + s[j..]
  {
  }

  lemma {:induction false} InsertAt(s: seq<Instance>, x: Instance, j: nat)
    requires j <= |s|
    requires forall i :: j <= i < |s| ==> Time(s[i]) < Time(x)
    requires j > 0 ==> Time(s[j - 1]) >= Time(x)
    ensures Insert(s, x) == s[..j] + [x] + s[j..]
  {
    hide Time, Insert;
    InsertStep(s, x);
    if j < |s| {
      var n := |s| - 1;
      InsertAt(s[..n], x, j);
      Regroup(s, x, j);
    } else {
      assert s[..j] + [x] + s[j..] == s + [x];
    }
  }

  // One step of the sort: behind every element that is at least as new.
  method InsertNewest(sorted: seq<(int, Instance)>, item: (int, Instance), ghost s: seq<Instance>)
    returns (r: seq<(int, Instance)>)
    requires Keyed(sorted, s) && item.0 == Time(item.1)
    ensures Keyed(r, Insert(s, item.1))
  {
    hide Time, Insert;
    var j := |sorted|;
    while j > 0 && sorted[j - 1].0 < item.0
      invariant 0 <= j <= |sorted|
      invariant forall k :: j <= k < |sorted| ==> sorted[k].0 < item.0
    {
      j := j - 1;
    }
    InsertAt(s, item.1, j);
    r := sorted[..j] + [item] + sorted[j..];
  }

  // parsed.sort(key=…, reverse=True): descending, and stable.
  method SortNewestFirst(parsed: seq<(int, Instance)>, ghost s: seq<Instance>) returns (sorted: seq<(int, Instance)>)
    requires Keyed(parsed, s)
    ensures Keyed(sorted, NewestFirst(s))
  {
    hide Time, Insert;
    sorted := [];
    for i := 0 to |parsed|
      invariant Keyed(sorted, NewestFirst(s[..i]))
    {
      assert s[..i + 1][..i] == s[..i];
      sorted := InsertNewest(sorted, parsed[i], NewestFirst(s[..i]));
    }
    assert s[..|s|] == s;
  }

  // The loop of watchdog.py:116-124; None if some launch tag is missing or malformed.
  method ParseLaunches(survivors: seq<Instance>) returns (parsed: Option<seq<(int, Instance)>>)
    ensures parsed.Some? <==> Dated(survivors)
    ensures parsed.Some? ==> Keyed(parsed.value, survivors)
  {
    hide Parse;
    var pairs: seq<(int, Instance)> := [];
    for i := 0 to |survivors|
      invariant Keyed(pairs, survivors[..i])
      invariant forall j :: 0 <= j < i ==> LaunchSecond(survivors[j].node).Some?
    {
      var x := survivors[i];
      assert x in survivors;
      if x.node.launched.None? {
        return None;
      }
      var time := Parse(x.node.launched.value);
      if time.None? {
        return None;
      }
      pairs := pairs + [(time.value, x)];
    }
    assert survivors[..|survivors|] == survivors;
    return Some(pairs);
  }

  method OrderSurvivors(survivors: seq<Instance>) returns (ordered: seq<Instance>, orderable: bool)
    ensures orderable == Orderable(survivors)
    ensures ordered == if orderable then Ordered(survivors) else survivors
  {
    hide Dated, NewestFirst, Time;
    if |survivors| <= 1 {
      return survivors, true;
    }
    var parsed := ParseLaunches(survivors);
    if parsed.None? {
      return survivors, false;
    }
    var sorted := SortNewestFirst(parsed.value, survivors);
    ordered := seq(|sorted|, i requires 0 <= i < |sorted| => sorted[i].1);
    orderable := true;
  }

  // watchdog.py:277-283
  method Dedupe(cloud: Cloud, extras: seq<Instance>, terminate: Id -> Outcome, summary: Summary)
    requires cloud.Valid()
    modifies cloud, summary`failures, summary`duplicates
    ensures cloud.Issued(Kills(extras, terminate))
    ensures summary.duplicates == old(summary.duplicates) + Terminated(extras, terminate)
    ensures summary.failures == old(summary.failures) + NotTerminatedOf(extras, terminate, Duplicate)
  {
    hide Prefix, Replay, Cloud.Valid, Kills, Terminated, NotTerminatedOf;
    KillsNone(terminate, Duplicate);
    for i := 0 to |extras|
      invariant cloud.Issued(Kills(extras[..i], terminate))
      invariant summary.duplicates == old(summary.duplicates) + Terminated(extras[..i], terminate)
      invariant summary.failures == old(summary.failures) + NotTerminatedOf(extras[..i], terminate, Duplicate)
    {
      var x := extras[i];
      assert extras[..i + 1] == extras[..i] + [x];
      KillsStep(extras[..i], x, terminate, Duplicate);
      var ok := SafeTerminate(cloud, x.id, terminate(x.id), Duplicate, summary);
      if ok {
        summary.duplicates := summary.duplicates + [x.id];
      }
    }
    assert extras[..|extras|] == extras;
  }

  // watchdog.py:262-284
  method Settle(cloud: Cloud, survivors: seq<Instance>, terminate: Id -> Outcome, summary: Summary)
    returns (kept: seq<Instance>, orderable: bool)
    requires cloud.Valid()
    modifies cloud, summary`failures, summary`duplicates
    ensures kept == Kept(survivors) && orderable == Orderable(survivors)
    ensures cloud.Issued(Kills(Extras(survivors), terminate))
    ensures summary.duplicates == old(summary.duplicates) + Terminated(Extras(survivors), terminate)
    ensures summary.failures == old(summary.failures)
                                + if orderable then NotTerminatedOf(Extras(survivors), terminate, Duplicate) else [Unordered]
  {
    hide Prefix, Replay, Cloud.Valid, Kills, Terminated, NotTerminatedOf, NewestFirst, Dated;
    var ordered: seq<Instance>;
    ordered, orderable := OrderSurvivors(survivors);
    KillsNone(terminate, Duplicate);
    kept := [];
    if !orderable {
      summary.failures := summary.failures + [Unordered];
    } else if ordered != [] {
      Dedupe(cloud, ordered[1..], terminate, summary);
      kept := ordered[..1];
    }
  }

  // watchdog.py:309-333; every exception inside ends up in the failures.
  method CheckIdle(cloud: Cloud, x: Instance, c: SweepCalls, summary: Summary)
    requires cloud.Valid() && 0 <= c.now < END_OF_TIME
    modifies cloud, summary`failures, summary`alerted
    ensures cloud.Issued(IdleCheck(x, c).0)
    ensures summary.alerted == old(summary.alerted) + IdleCheck(x, c).1
    ensures summary.failures == old(summary.failures) + IdleCheck(x, c).2
  {
    hide Prefix, Replay, Cloud.Valid, Rfc3339, ShouldAlert;
    if !c.running(x.id) || c.threshold.None? {
      return;
    }
    if c.idleBytes(x.id).None? {
      summary.failures := summary.failures + [IdleCheckFailed(x.id)];
      return;
    }
    if ShouldAlert(c.idleBytes(x.id).value, c.threshold.value, x.node.alerted, c.now, x.node.launched) {
      var ok := cloud.StampAlerted(x.id, Rfc3339(c.now), c.stamp);
      if ok {
        summary.alerted := summary.alerted + [x.id];
      } else {
        summary.failures := summary.failures + [IdleCheckFailed(x.id)];
      }
    }
  }

  // watchdog.py:289-333
  method Inspect(cloud: Cloud, pointer: Option<Slot>, kept: seq<Instance>, c: SweepCalls, summary: Summary)
    requires cloud.Valid() && 0 <= c.now < END_OF_TIME
    modifies cloud, summary`failures, summary`orphans, summary`alerted
    ensures cloud.Issued(if kept == [] then [] else IdleCheck(kept[0], c).0)
    ensures summary.alerted == old(summary.alerted) + if kept == [] then [] else IdleCheck(kept[0], c).1
    ensures summary.failures == old(summary.failures) + if kept == [] then [] else IdleCheck(kept[0], c).2
    ensures summary.orphans == old(summary.orphans) + Untracked(pointer, kept)
  {
    hide Prefix, Replay, Cloud.Valid, IdleCheck;
    if kept != [] {
      if pointer.None? || !pointer.value.Names? || pointer.value.id != kept[0].id {
        summary.orphans := summary.orphans + [kept[0].id];
      }
      CheckIdle(cloud, kept[0], c, summary);
    }
  }

  // The kept node, if the pointer that was read does not name it.
  function Untracked(pointer: Option<Slot>, kept: seq<Instance>): seq<Id> {
    if kept != [] && !(pointer.Some? && pointer.value.Names? && pointer.value.id == kept[0].id) then [kept[0].id] else []
  }

  // watchdog.py:351-372
  method ReconcilePointer(cloud: Cloud, pointer: Option<Slot>, kept: seq<Instance>, orderable: bool, allScanned: bool,
                          c: SweepCalls, summary: Summary, ghost slot: Slot, ghost survivors: seq<Instance>)
    requires cloud.Valid() && pointer == AsRead(slot, c.pointerRead)
    requires kept == Kept(survivors) && orderable == Orderable(survivors)
    modifies cloud, summary`failures
    ensures cloud.Issued(Reconcile(slot, survivors, allScanned, c).0)
    ensures summary.failures == old(summary.failures) + Reconcile(slot, survivors, allScanned, c).1
  {
    hide Prefix, Replay, Cloud.Valid, Kept, Orderable;
    if pointer.Some? && orderable {
      var ok := true;
      if kept != [] {
        if pointer.value.Empty? || pointer.value.id != kept[0].id {
          ok := cloud.WritePointer(Names(kept[0].node.region, kept[0].id), c.put);
        }
      } else if pointer.value.Names? {
        if allScanned {
          ok := cloud.WritePointer(Empty, c.put);
        }
      }
      if !ok {
        summary.failures := summary.failures + [NotReconciled];
      }
    }
  }

  // What steps 1 to 4 do with the nodes found.
  ghost function Outcomes(slot: Slot, found: seq<Instance>, allScanned: bool, c: SweepCalls): Report
    requires 0 <= c.now < END_OF_TIME
  {
    var doomed, survivors := Doomed(found, c.now), Survivors(found, c.now);
    var kept, extras := Kept(survivors), Extras(survivors);
    var idle := if kept == [] then ([], [], []) else IdleCheck(kept[0], c);
    var tidy := Reconcile(slot, survivors, allScanned, c);
    Report(
      Kills(doomed, c.terminate) + Kills(extras, c.terminate) + idle.0 + tidy.0,
      [],
      Terminated(doomed, c.terminate),
      Terminated(extras, c.terminate),
      Untracked(AsRead(slot, c.pointerRead), kept),
      idle.1,
      NotTerminatedOf(doomed, c.terminate, PastExpiry)
      + (if Orderable(survivors) then NotTerminatedOf(extras, c.terminate, Duplicate) else [Unordered])
      + idle.2 + tidy.1)
  }

  lemma SweepParts(slot: Slot, c: SweepCalls)
    requires 0 <= c.now < END_OF_TIME && c.regions.Some?
    ensures var found, failed := Found(c.regions.value, c), ScanFailures(c.regions.value, c);
      var o := Outcomes(slot, found, failed == [], c);
      Sweep(slot, c)
      == o.(nodes := IdSeq(found),
            failures := (if c.threshold.None? then [ThresholdUnread] else []) + failed + o.failures)
  {
    hide Found, ScanFailures, Doomed, Survivors, Kept, Extras, IdleCheck, Reconcile, Kills, Terminated;
    hide NotTerminatedOf, Orderable;
  }

  lemma NoRegions(slot: Slot, c: SweepCalls)
    requires 0 <= c.now < END_OF_TIME && c.regions.None?
    ensures Sweep(slot, c)
         == Report([], [], [], [], [], [], (if c.threshold.None? then [ThresholdUnread] else []) + [RegionsUnread])
  {
  }

  // Steps 1 to 4, watchdog.py:240-372.
  method Act(cloud: Cloud, found: seq<Instance>, pointer: Option<Slot>, allScanned: bool, c: SweepCalls,
             summary: Summary, ghost slot: Slot)
    requires cloud.Valid() && 0 <= c.now < END_OF_TIME && pointer == AsRead(slot, c.pointerRead)
    modifies cloud, summary`failures, summary`reaped, summary`duplicates, summary`orphans, summary`alerted
    ensures var o := Outcomes(slot, found, allScanned, c);
      && cloud.Issued(o.effects)
      && summary.reaped == old(summary.reaped) + o.reaped
      && summary.duplicates == old(summary.duplicates) + o.duplicates
      && summary.orphans == old(summary.orphans) + o.orphans
      && summary.alerted == old(summary.alerted) + o.alerted
      && summary.failures == old(summary.failures) + o.failures
  {
    hide Prefix, Replay, Cloud.Valid, Doomed, Survivors, Orderable, Kills, Terminated, END_OF_TIME;
    hide NotTerminatedOf, IdleCheck, Reconcile, Kept, Extras, Untracked, AsRead;
    var survivors := Reap(cloud, found, c.now, c.terminate, summary);
    var kept, orderable := Settle(cloud, survivors, c.terminate, summary);
    Inspect(cloud, pointer, kept, c, summary);
    ReconcilePointer(cloud, pointer, kept, orderable, allScanned, c, summary, slot, survivors);
  }

  // watchdog.py:223-372, once the regions are known.
  method SweepRegions(cloud: Cloud, regions: seq<Region>, pointer: Option<Slot>, c: SweepCalls, summary: Summary)
    requires cloud.Valid() && 0 <= c.now < END_OF_TIME
    requires c.regions == Some(regions) && pointer == AsRead(cloud.Stored(), c.pointerRead)
    requires summary.AsReport([])
          == Report([], [], [], [], [], [], if c.threshold.None? then [ThresholdUnread] else [])
    modifies cloud, summary
    ensures cloud.Issued(Sweep(old(cloud.Stored()), c).effects)
    ensures summary.AsReport(Sweep(old(cloud.Stored()), c).effects) == Sweep(old(cloud.Stored()), c)
    ensures summary.regionsScanned == |regions|
  {
    hide Prefix, Replay, Cloud.Valid, Found, ScanFailures, Doomed, Survivors, Orderable, Kills, Terminated;
    hide NotTerminatedOf, IdleCheck, Reconcile, Kept, Extras, Sweep, Untracked, AsRead, Outcomes, IdSeq, END_OF_TIME;
    ghost var slot := cloud.Stored();
    var found, unscanned := Scan(regions, c);
    summary.regionsScanned := |regions|;
    summary.nodes := IdSeq(found);
    summary.failures := summary.failures + unscanned;
    Act(cloud, found, pointer, unscanned == [], c, summary, slot);
    SweepParts(slot, c);
  }

  /** watchdog.py:148-377 */
  method RunSweep(cloud: Cloud, c: SweepCalls) returns (summary: Summary)
    requires cloud.Valid() && 0 <= c.now < END_OF_TIME
    modifies cloud
    ensures cloud.Issued(Sweep(old(cloud.Stored()), c).effects)
    ensures summary.AsReport(Sweep(old(cloud.Stored()), c).effects) == Sweep(old(cloud.Stored()), c)
    ensures summary.regionsScanned == |c.regions.GetOr([])|
  {
    hide Prefix, Replay, Cloud.Valid, Sweep, AsRead, END_OF_TIME;
    summary := new Summary();
    if c.threshold.None? {
      summary.failures := summary.failures + [ThresholdUnread];
    }
    var pointer := cloud.ReadPointer(c.pointerRead);
    if c.regions.None? {
      NoRegions(cloud.Stored(), c);
      summary.failures := summary.failures + [RegionsUnread];
    } else {
      SweepRegions(cloud, c.regions.value, pointer, c, summary);
    }
  }
}
