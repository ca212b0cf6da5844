/** How often a node is reported as idle, over whole runs. */
module Cadence {
  import opened Wrappers
  import opened Calendar
  import opened Ttl
  import opened Fleet
  import opened Handler
  import opened Watchdog
  import opened SweepProperties
  import opened SweepTheorems
  import opened Runs
  import opened Retry
  import opened Reporting

  function AlertSecond(node: Node): Option<int> {
    match node.alerted
    case None => None
    case Some(s) => Parse(s)
  }

  // The instant from which an idle node may be reported: a day after its launch and after its
  // last alert. A timestamp that does not parse delays nothing.
  function Due(node: Node): Micros {
    match (LaunchSecond(node), AlertSecond(node))
    case (None, None) => 0
    case (Some(l), None) => (l + DAY) * SECOND
    case (None, Some(a)) => (a + DAY) * SECOND
    case (Some(l), Some(a)) => ((if l > a then l else a) + DAY) * SECOND
  }

  lemma AlertsWhenDue(idleBytes: int, threshold: int, node: Node, now: Micros)
    requires 0 <= now
    ensures ShouldAlert(idleBytes, threshold, node.alerted, now, node.launched)
       <==> idleBytes < threshold && now >= Due(node)
  {
    hide Parse;
  }

  // The step stamps `x` as alerted.
  ghost predicate Stamps(w: World, s: Step, x: Id) {
    exists at :: Stamp(x, at) in Performed(w, s)
  }

  // When the run stamps `x`.
  ghost function Alerts(w: World, run: seq<Step>, x: Id): seq<Micros>
    decreases |run|
  {
    if |run| == 0 then []
    else
      (if Stamps(w, run[0], x) && run[0].SweepStep? then [run[0].sweep.now] else [])
      + Alerts(Next(w, run[0]), run[1..], x)
  }

  lemma {:induction false} StampReplay(w: World, es: seq<Effect>, x: Id, at: string)
    requires Quiet(es) && Stamp(x, at) in es
    requires forall a :: Stamp(x, a) in es ==> a == at
    requires x in Replay(w, es).live
    ensures x in w.live && Replay(w, es).live[x] == w.live[x].(alerted := Some(at))
  {
    var n := |es| - 1;
    var before, e := es[..n], es[n];
    assert es == before + [e];
    assert x in Replay(w, before).live;
    if Stamp(x, at) in before {
      StampReplay(w, before, x, at);
    } else {
      QuietTags(w, before, x);
    }
  }

  lemma SweepStampsAre(w: World, s: Step, listed: set<Region>, x: Id)
    requires s.SweepStep? && Fits(w, s, listed) && Stamps(w, s, x)
    ensures x in w.live && s.sweep.now >= Due(w.live[x])
    ensures forall at :: Stamp(x, at) in Performed(w, s) ==> at == Rfc3339(s.sweep.now)
  {
    hide Sweep, Expired, Kept, Survivors, Found, Due, ShouldAlert, Rfc3339, Performed;
    var c := s.sweep;
    PerformedIsPrefix(w, s);
    if c.regions.Some? {
      SweepEffectsAre(w.slot, c);
      KeptInLive(w, c, s.gone);
      var at :| Stamp(x, at) in Performed(w, s);
      assert Stamp(x, at) in Sweep(w.slot, c).effects;
      var k := Kept(Alive(c))[0];
      AlertsWhenDue(c.idleBytes(x).value, c.threshold.value, k.node, c.now);
    } else {
      NoRegionsNothingDone(w.slot, c);
    }
  }

  // Nothing but a sweep's stamp changes a tag of a live node.
  lemma TagsChangeOnlyByStamps(w: World, s: Step, listed: set<Region>, x: Id)
    requires Fits(w, s, listed) && x in w.born
    ensures Stamps(w, s, x) ==> s.SweepStep?
    ensures x in Next(w, s).live ==>
              && x in w.live
              && Next(w, s).live[x]
                 == if Stamps(w, s, x) then w.live[x].(alerted := Some(Rfc3339(s.sweep.now))) else w.live[x]
    ensures x in Next(w, s).born
  {
    hide Performed, Effects, Rfc3339, Due;
    QuietUnlessUp(w, s, listed);
    OnlySweepsStamp(w, s, listed, x);
    if Quiet(Performed(w, s)) {
      QuietReplay(w, Performed(w, s));
      if Stamps(w, s, x) {
        SweepStampsAre(w, s, listed, x);
        if x in Next(w, s).live {
          StampReplay(w, Performed(w, s), x, Rfc3339(s.sweep.now));
        }
      }
    } else {
      LaunchedWorld(w, s, listed);
      var node :| Launches(w, s, node);
    }
  }

  lemma OnlySweepsStamp(w: World, s: Step, listed: set<Region>, x: Id)
    requires Fits(w, s, listed)
    ensures Stamps(w, s, x) ==> s.SweepStep?
  {
    hide ParseTtl, Rfc3339, NewNode, Describe, Terminations;
    PerformedIsPrefix(w, s);
    if s.DownStep? {
      if s.down.found.Some? {
        TerminationsAreKills(s.down.found.value, s.down.terminate);
      }
    }
  }

  lemma DueAfterStamp(node: Node, now: Micros)
    requires 0 <= now < END_OF_TIME && now >= Due(node)
    ensures Due(node.(alerted := Some(Rfc3339(now)))) == (now / SECOND + DAY) * SECOND
  {
    hide Rfc3339, Parse;
    Rfc3339Parses(now);
  }

  // Alerts of one node are a day apart, counted in whole seconds.
  ghost predicate DayApart(ts: seq<Micros>) {
    forall i :: 0 < i < |ts| ==> ts[i] / SECOND >= ts[i - 1] / SECOND + DAY
  }

  /** Whatever fails, and whatever the clock does, no node is stamped before it is due, nor twice
      within a day. */
  lemma {:induction false} NeverTooEarly(w: World, run: seq<Step>, listed: set<Region>, x: Id)
    requires RunFits(w, run, listed) && x in w.born
    ensures DayApart(Alerts(w, run, x))
    ensures Alerts(w, run, x) != [] ==> x in w.live && Alerts(w, run, x)[0] >= Due(w.live[x])
    decreases |run|
  {
    hide Due, Next, Stamps, Fits, Rfc3339;
    if |run| > 0 {
      var s, w' := run[0], Next(w, run[0]);
      TagsChangeOnlyByStamps(w, s, listed, x);
      NeverTooEarly(w', run[1..], listed, x);
      if Stamps(w, s, x) {
        SweepStampsAre(w, s, listed, x);
        InTimeOf(w, s, listed);
        DueAfterStamp(w.live[x], s.sweep.now);
        var rest := Alerts(w', run[1..], x);
        assert Alerts(w, run, x) == [s.sweep.now] + rest;
        if rest != [] {
          WholeSeconds(rest[0], s.sweep.now);
        }
      } else {
        assert Alerts(w, run, x) == Alerts(w', run[1..], x);
      }
    }
  }

  lemma InTimeOf(w: World, s: Step, listed: set<Region>)
    requires s.SweepStep? && Fits(w, s, listed)
    ensures 0 <= s.sweep.now < END_OF_TIME
  {
  }

  lemma WholeSeconds(later: Micros, earlier: Micros)
    requires later >= (earlier / SECOND + DAY) * SECOND
    ensures later / SECOND >= earlier / SECOND + DAY
  {
  }

  // ---- the entries of the summary ----

  // The sweep lives to return its summary, and that lists `x` as alerted.
  ghost predicate ListsAlert(w: World, s: Step, x: Id) {
    && s.SweepStep? && s.done >= |Effects(w, s)| && 0 <= s.sweep.now < END_OF_TIME
    && x in Sweep(w.slot, s.sweep).alerted
  }

  // When the run's summaries list `x` as alerted.
  ghost function Entries(w: World, run: seq<Step>, x: Id): seq<Micros>
    decreases |run|
  {
    if |run| == 0 then []
    else
      (if ListsAlert(w, run[0], x) then [run[0].sweep.now] else []) + Entries(Next(w, run[0]), run[1..], x)
  }

  /** There is an entry exactly if the sweep lives, and the stamp is written and its reply arrives. */
  lemma EntryIsAStamp(w: World, s: Step, listed: set<Region>, x: Id)
    requires s.SweepStep? && Fits(w, s, listed) && s.done >= |Effects(w, s)|
    ensures ListsAlert(w, s, x) <==> Stamps(w, s, x) && s.sweep.stamp.Done?
  {
    hide Sweep, Kept, Survivors, Found, AlertsOn, Rfc3339, IsChosen;
    var c := s.sweep;
    assert Performed(w, s) == Sweep(w.slot, c).effects;
    if c.regions.Some? {
      SweepEffectsAre(w.slot, c);
      OrphansAndAlertsExactly(w.slot, c, x);
      forall y
        ensures IsChosen(c, y) <==> Kept(Alive(c)) != [] && Kept(Alive(c))[0] == y
      {
        ChosenIsKept(c, y);
      }
      if Kept(Alive(c)) != [] && AlertsOn(c, Kept(Alive(c))[0]) && c.stamp.Done? {
        assert Stamp(Kept(Alive(c))[0].id, Rfc3339(c.now)) in Sweep(w.slot, c).effects;
      }
    } else {
      NoRegionsNothingDone(w.slot, c);
      NoRegionsNoAlert(w.slot, c);
    }
  }

  lemma NoRegionsNoAlert(slot: Slot, c: SweepCalls)
    requires 0 <= c.now < END_OF_TIME && c.regions.None?
    ensures Sweep(slot, c).alerted == []
  {
  }

  /** Over any run, whatever fails: a node's entries in `alerted` start no earlier than it is due,
      so not before a day after its launch, and lie a day apart. */
  lemma {:induction false} EntriesNeverTooEarly(w: World, run: seq<Step>, listed: set<Region>, x: Id)
    requires RunFits(w, run, listed) && x in w.born
    ensures DayApart(Entries(w, run, x))
    ensures Entries(w, run, x) != [] ==> x in w.live && Entries(w, run, x)[0] >= Due(w.live[x])
    decreases |run|
  {
    hide Due, Next, Stamps, Fits, Rfc3339, ListsAlert;
    if |run| > 0 {
      var s, w' := run[0], Next(w, run[0]);
      TagsChangeOnlyByStamps(w, s, listed, x);
      EntriesNeverTooEarly(w', run[1..], listed, x);
      var rest := Entries(w', run[1..], x);
      if ListsAlert(w, s, x) {
        ListedIsStamped(w, s, listed, x);
        assert Entries(w, run, x) == [s.sweep.now] + rest;
      } else {
        assert Entries(w, run, x) == rest;
      }
      if Stamps(w, s, x) {
        SweepStampsAre(w, s, listed, x);
        InTimeOf(w, s, listed);
        DueAfterStamp(w.live[x], s.sweep.now);
        if rest != [] {
          WholeSeconds(rest[0], s.sweep.now);
        }
      }
    }
  }

  lemma ListedIsStamped(w: World, s: Step, listed: set<Region>, x: Id)
    requires Fits(w, s, listed) && ListsAlert(w, s, x)
    ensures s.SweepStep? && Stamps(w, s, x)
  {
    hide Stamps;
    EntryIsAStamp(w, s, listed, x);
  }

  // Every sweep of the run lives to its end, and no reply to a stamp is lost.
  ghost predicate StampsAreHeard(w: World, run: seq<Step>)
    decreases |run|
  {
    |run| > 0 ==>
      && (run[0].SweepStep? ==> run[0].done >= |Effects(w, run[0])| && run[0].sweep.stamp != Lost)
      && StampsAreHeard(Next(w, run[0]), run[1..])
  }

  /** Then the entries are the stamps, so what holds of the one holds of the other. */
  lemma {:induction false} EntriesAreStamps(w: World, run: seq<Step>, listed: set<Region>, x: Id)
    requires RunFits(w, run, listed) && StampsAreHeard(w, run)
    ensures Entries(w, run, x) == Alerts(w, run, x)
    decreases |run|
  {
    hide Next, Stamps, Fits, ListsAlert;
    if |run| > 0 {
      var s := run[0];
      EntriesAreStamps(Next(w, s), run[1..], listed, x);
      if s.SweepStep? {
        EntryIsAStamp(w, s, listed, x);
        if Stamps(w, s, x) {
          StampIsNotRefused(w, s, listed, x);
        }
      } else {
        NoSweepNoEntry(w, s, x);
      }
    }
  }

  lemma NoSweepNoEntry(w: World, s: Step, x: Id)
    requires !s.SweepStep?
    ensures !ListsAlert(w, s, x)
  {
  }

  lemma StampIsNotRefused(w: World, s: Step, listed: set<Region>, x: Id)
    requires s.SweepStep? && Fits(w, s, listed) && Stamps(w, s, x)
    ensures s.sweep.stamp != Refused
  {
    hide Sweep, Kept, Survivors, Found, AlertsOn, Rfc3339;
    var c := s.sweep;
    PerformedIsPrefix(w, s);
    if c.regions.Some? {
      SweepEffectsAre(w.slot, c);
    } else {
      NoRegionsNothingDone(w.slot, c);
    }
  }

  // ---- the message goes out before the stamp ----

  // The sweep settles on `x`, and every reading it needs to judge it succeeds and is low.
  ghost predicate ReadsIdle(s: Step, x: Id) {
    && s.SweepStep?
    && var c := s.sweep;
       && c.regions.Some? && c.running(x)
       && c.threshold.Some? && c.idleBytes(x).Some? && c.idleBytes(x).value < c.threshold.value
       && Kept(Alive(c)) != [] && Kept(Alive(c))[0].id == x
  }

  // The sweep sends the idle message about `x`.
  ghost predicate Warns(s: Step, x: Id) {
    && s.SweepStep? && s.sweep.regions.Some?
    && Kept(Alive(s.sweep)) != [] && Kept(Alive(s.sweep))[0].id == x
    && AlertsOn(s.sweep, Kept(Alive(s.sweep))[0])
  }

  lemma WarnsWhenDue(w: World, s: Step, listed: set<Region>, x: Id)
    requires Fits(w, s, listed) && ReadsIdle(s, x)
    ensures x in w.live && (Warns(s, x) <==> s.sweep.now >= Due(w.live[x]))
  {
    hide Expired, Kept, Survivors, Found, Due, ShouldAlert;
    var c := s.sweep;
    KeptInLive(w, c, s.gone);
    AlertsWhenDue(c.idleBytes(x).value, c.threshold.value, w.live[x], c.now);
  }

  /** The next sweep repeats the message exactly if the stamp was not written, or after a day. */
  lemma RepeatsExactly(w: World, s: Step, t: Step, listed: set<Region>, x: Id)
    requires Fits(w, s, listed) && Fits(Next(w, s), t, listed) && x in w.born
    requires ReadsIdle(s, x) && Warns(s, x) && ReadsIdle(t, x) && t.sweep.now >= s.sweep.now
    ensures Warns(t, x) <==> !Stamps(w, s, x) || t.sweep.now >= (s.sweep.now / SECOND + DAY) * SECOND
  {
    hide Due, Next, Stamps, Fits, Rfc3339, Kept, Survivors, Found, AlertsOn;
    WarnsWhenDue(w, s, listed, x);
    WarnsWhenDue(Next(w, s), t, listed, x);
    TagsChangeOnlyByStamps(w, s, listed, x);
    InTimeOf(w, s, listed);
    DueAfterStamp(w.live[x], s.sweep.now);
  }

  // ---- an idle node ----

  // This sweep runs to its end, settles on `x`, reads it as idle, and manages to stamp it.
  ghost predicate SeesIdle(w: World, s: Step, x: Id) {
    && ReadsIdle(s, x) && s.done >= |Effects(w, s)| && x !in s.gone && s.sweep.stamp != Refused
  }

  // Every sweep of the run sees `x` idle, and follows the one before within `gap`.
  ghost predicate AlwaysIdle(w: World, run: seq<Step>, x: Id, gap: Micros)
    decreases |run|
  {
    |run| > 0 ==>
      && SeesIdle(w, run[0], x)
      && AlwaysIdle(Next(w, run[0]), run[1..], x, gap)
      && (|run| > 1 && run[1].SweepStep? ==> run[0].sweep.now <= run[1].sweep.now <= run[0].sweep.now + gap)
  }

  lemma IdleIsStampedExactly(w: World, s: Step, listed: set<Region>, x: Id)
    requires Fits(w, s, listed) && SeesIdle(w, s, x)
    ensures x in w.live && x in Next(w, s).live
    ensures Stamps(w, s, x) <==> s.sweep.now >= Due(w.live[x])
  {
    hide Sweep, Expired, Kept, Survivors, Found, Due, ShouldAlert, Rfc3339;
    var c := s.sweep;
    assert Performed(w, s) == Sweep(w.slot, c).effects;
    SweepEffectsAre(w.slot, c);
    KeptInLive(w, c, s.gone);
    KeptIsSpared(w, c, s.gone);
    QuietReplay(w, Performed(w, s));
    AlertsWhenDue(c.idleBytes(x).value, c.threshold.value, w.live[x], c.now);
    NotKilled(Performed(w, s), x);
    if s.sweep.now >= Due(w.live[x]) {
      assert Stamp(x, Rfc3339(c.now)) in Performed(w, s);
    }
  }

  // No alert comes `gap` late: the first after `due`, each later one after a day.
  ghost predicate NeverLate(ts: seq<Micros>, due: Micros, gap: Micros) {
    && (ts != [] ==> ts[0] < due + gap)
    && forall i :: 0 < i < |ts| ==> ts[i] < ts[i - 1] + ALERT_INTERVAL + gap
  }

  // At `t` the node is not due yet, or it has been reported within the last day.
  ghost predicate Reported(ts: seq<Micros>, due: Micros, t: Micros) {
    t < due || exists i :: 0 <= i < |ts| && ts[i] <= t < ts[i] + ALERT_INTERVAL
  }

  /** A node that stays idle is reported at the first sweep after each day: no alert is missed,
      and none comes later than one sweep interval after it is due. */
  lemma {:induction false} NeverTooLate(w: World, run: seq<Step>, listed: set<Region>, x: Id, gap: Micros)
    requires RunFits(w, run, listed) && AlwaysIdle(w, run, x, gap) && gap >= 0
    requires x in w.born && x in w.live
    requires |run| > 0 ==> run[0].sweep.now < Due(w.live[x]) + gap
    ensures NeverLate(Alerts(w, run, x), Due(w.live[x]), gap)
    ensures forall s :: s in run ==> s.SweepStep? && Reported(Alerts(w, run, x), Due(w.live[x]), s.sweep.now)
    decreases |run|
  {
    hide Due, Next, Stamps, Fits, Rfc3339, SeesIdle, AlwaysIdle;
    if |run| > 0 {
      HeadOfIdle(w, run, x, gap);
      var s, w', rest := run[0], Next(w, run[0]), run[1..];
      var t, ts, due := s.sweep.now, Alerts(w, run, x), Due(w.live[x]);
      IdleIsStampedExactly(w, s, listed, x);
      TagsChangeOnlyByStamps(w, s, listed, x);
      InTimeOf(w, s, listed);
      if Stamps(w, s, x) {
        DueAfterStamp(w.live[x], t);
      }
      NeverTooLate(w', rest, listed, x, gap);
      LaterSweeps(w, run, x, gap);
      var ts' := Alerts(w', rest, x);
      assert ts == if Stamps(w, s, x) then [t] + ts' else ts';
      forall s' | s' in run
        ensures s'.SweepStep? && Reported(ts, due, s'.sweep.now)
      {
        if s' in rest && Stamps(w, s, x) {
          ReportedLater(t, ts', s'.sweep.now);
        } else if s' == s && Stamps(w, s, x) {
          assert ts[0] == t;
        }
      }
    }
  }

  lemma ReportedLater(t: Micros, ts: seq<Micros>, u: Micros)
    requires t <= u && Reported(ts, (t / SECOND + DAY) * SECOND, u)
    ensures forall due :: Reported([t] + ts, due, u)
  {
    var all := [t] + ts;
    if u < (t / SECOND + DAY) * SECOND {
      assert all[0] <= u < all[0] + ALERT_INTERVAL;
    } else {
      var i :| 0 <= i < |ts| && ts[i] <= u < ts[i] + ALERT_INTERVAL;
      assert all[i + 1] == ts[i];
    }
  }

  lemma HeadOfIdle(w: World, run: seq<Step>, x: Id, gap: Micros)
    requires AlwaysIdle(w, run, x, gap) && |run| > 0
    ensures SeesIdle(w, run[0], x) && run[0].SweepStep? && AlwaysIdle(Next(w, run[0]), run[1..], x, gap)
    ensures |run| > 1 ==>
              run[1].SweepStep? && run[0].sweep.now <= run[1].sweep.now <= run[0].sweep.now + gap
  {
  }

  lemma {:induction false} LaterSweeps(w: World, run: seq<Step>, x: Id, gap: Micros)
    requires AlwaysIdle(w, run, x, gap) && |run| > 0 && run[0].SweepStep?
    ensures forall s :: s in run ==> s.SweepStep? && s.sweep.now >= run[0].sweep.now
    decreases |run|
  {
    hide AlwaysIdle, SeesIdle;
    HeadOfIdle(w, run, x, gap);
    if |run| > 1 {
      LaterSweeps(Next(w, run[0]), run[1..], x, gap);
      assert run == [run[0]] + run[1..];
    }
  }
}
