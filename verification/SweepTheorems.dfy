/** The promises of the sweep, for every fault pattern unless a lemma says otherwise. */
module SweepTheorems {
  import opened Wrappers
  import opened Calendar
  import opened Ttl
  import opened Fleet
  import opened Handler
  import opened Watchdog
  import opened SweepProperties

  function After(w: World, c: SweepCalls): World
    requires 0 <= c.now < END_OF_TIME
  {
    Replay(w, Sweep(w.slot, c).effects)
  }

  // ---- the sweep never kills the wrong node ----

  // The node's own expiry tag is a timestamp that has passed.
  ghost predicate TagHasPassed(node: Node, now: Micros) {
    exists e, s :: && node.expires == Some(e) && e != "never" && Parse(e) == Some(s) && s * 1_000_000 <= now
  }

  /** A node is expired by its tag or not at all: a missing tag, an empty one, "never" and a text
      that is no timestamp keep it. */
  lemma ExpiredExactly(node: Node, now: Micros)
    ensures Expired(node, now) <==> TagHasPassed(node, now)
  {
    hide Parse;
    IsExpiredExactly(Expiry(node), now);
    EmptyIsNoTimestamp();
  }

  // `k` is not past its expiry tag, at least as new as `id` by its own tag, and left alone.
  ghost predicate Outlives(w: World, c: SweepCalls, k: Id, id: Id)
    requires 0 <= c.now < END_OF_TIME && id in w.live
  {
    && k in w.live && k != id && !TagHasPassed(w.live[k], c.now)
    && LaunchSecond(w.live[k]).Some? && LaunchSecond(w.live[id]).Some?
    && LaunchSecond(w.live[k]).value >= LaunchSecond(w.live[id]).value
    && Kill(k) !in Sweep(w.slot, c).effects
  }

  lemma SplitFound(w: World, c: SweepCalls, gone: set<Id>)
    requires SweepFits(w, c, gone) && c.regions.Some?
    ensures DistinctIds(Alive(c))
    ensures multiset(AllFound(c)) == multiset(Doomed(AllFound(c), c.now)) + multiset(Alive(c))
    ensures forall x :: x in Alive(c) <==> x in AllFound(c) && !Expired(x.node, c.now)
    ensures forall x :: x in AllFound(c) ==> x.id in w.live && w.live[x.id] == x.node
    ensures forall id :: IsDoomed(c, id) ==> id in w.live && Expired(w.live[id], c.now)
  {
    hide Expired, Found;
    FoundFacts(w, c, gone);
    var found := AllFound(c);
    var p := (x: Instance) => Expired(x.node, c.now);
    var q := (x: Instance) => !Expired(x.node, c.now);
    FilterDistinct(found, q);
    FilterSplits(found, p);
    SameFilter(found, x => !p(x), q);
    forall id | IsDoomed(c, id)
      ensures id in w.live && Expired(w.live[id], c.now)
    {
      var doomed := Doomed(found, c.now);
      var i :| 0 <= i < |doomed| && doomed[i].id == id;
      assert doomed[i] in doomed;
    }
  }

  lemma KeptIsSpared(w: World, c: SweepCalls, gone: set<Id>)
    requires SweepFits(w, c, gone) && c.regions.Some?
    requires Orderable(Alive(c)) && Alive(c) != []
    ensures Kept(Alive(c)) != [] && Kept(Alive(c))[0] in Alive(c)
    ensures Kill(Kept(Alive(c))[0].id) !in Sweep(w.slot, c).effects
  {
    hide Expired, Time, Orderable, Kept, Extras, Found, Sweep, Survivors, Doomed;
    SplitFound(w, c, gone);
    SweepEffectsAre(w.slot, c);
    var alive := Alive(c);
    KeptAndExtras(alive);
    KeptIsAlive(alive);
    var k := Kept(alive)[0];
    assert !IsDoomed(c, k.id);
    IdAbsent(Extras(alive), k.id);
  }

  lemma {:induction false} SameFilter(s: seq<Instance>, p: Instance -> bool, q: Instance -> bool)
    requires forall x :: p(x) == q(x)
    ensures Filter(s, p) == Filter(s, q)
  {
    if s != [] {
      SameFilter(s[..|s| - 1], p, q);
    }
  }

  lemma KeptIsAlive(s: seq<Instance>)
    requires Orderable(s) && s != [] && DistinctIds(s)
    ensures Kept(s) != [] && Kept(s)[0] in s
  {
    hide Ordered;
    KeptAndExtras(s);
    assert Kept(s)[0] in multiset(Kept(s));
    assert Kept(s)[0] in multiset(s);
  }

  /** A terminated node is past its own expiry, or a node at least as new is left standing. */
  lemma SweepSpares(w: World, c: SweepCalls, gone: set<Id>, id: Id)
    requires SweepFits(w, c, gone)
    requires Kill(id) in Sweep(w.slot, c).effects
    ensures id in w.live
    ensures TagHasPassed(w.live[id], c.now) || exists k :: Outlives(w, c, k, id)
  {
    assert c.regions.Some?;
    hide TagHasPassed, Expired, Time, Orderable, Kept, Extras, Found, Sweep, Survivors, Doomed, LaunchSecond;
    SweepEffectsAre(w.slot, c);
    SplitFound(w, c, gone);
    if !IsDoomed(c, id) {
      var alive := Alive(c);
      ExtrasAreDated(alive, id);
      KeptIsSpared(w, c, gone);
      KeptAndExtras(alive);
      var k := Kept(alive)[0];
      var i :| 0 <= i < |Extras(alive)| && Extras(alive)[i].id == id;
      var x := Extras(alive)[i];
      assert x in Extras(alive) && k in Kept(alive);
      ExpiredExactly(k.node, c.now);
      TimesCompare(k, x);
      assert Outlives(w, c, k.id, id);
    } else {
      ExpiredExactly(w.live[id], c.now);
    }
  }

  lemma ExtrasAreDated(s: seq<Instance>, id: Id)
    requires id in Ids(Extras(s))
    ensures Orderable(s) && s != []
  {
  }

  lemma TimesCompare(x: Instance, y: Instance)
    requires LaunchSecond(x.node).Some? && LaunchSecond(y.node).Some? && Time(x) >= Time(y)
    ensures LaunchSecond(x.node).value >= LaunchSecond(y.node).value
  {
  }

  // ---- the pointer ----

  // `x` is the unexpired node that the sweep settles on: the newest, the first in scan order of
  // several, and never a guess among undated ones.
  ghost predicate IsChosen(c: SweepCalls, x: Instance)
    requires c.regions.Some?
  {
    Orderable(Alive(c)) && exists k: nat :: IsNewest(Alive(c), k) && Alive(c)[k] == x
  }

  lemma KeptIsNewest(s: seq<Instance>, x: Instance)
    requires Orderable(s) && s != []
    ensures Kept(s) == [x] <==> exists k: nat :: IsNewest(s, k) && s[k] == x
  {
    hide Time, Insert, LaunchSecond;
    var k := 0;
    if |s| > 1 {
      k := NewestFirstIsSorted(s);
    }
    assert IsNewest(s, k) && Kept(s) == [s[k]];
    forall j | IsNewest(s, j)
      ensures j == k
    {
      NewestIsUnique(s, j, k);
    }
  }

  lemma NewestIsUnique(s: seq<Instance>, j: nat, k: nat)
    requires IsNewest(s, j) && IsNewest(s, k)
    ensures j == k
  {
    hide Time;
    var x, y := Time(s[j]), Time(s[k]);
    assert j < k ==> x < y && y <= x;
    assert k < j ==> y < x && x <= y;
  }

  /** Exactly when a sweep clears the pointer: only on proof that every tracked node has expired. */
  lemma SweepClearsExactly(w: World, c: SweepCalls, gone: set<Id>)
    requires SweepFits(w, c, gone)
    ensures Put(Empty) in Sweep(w.slot, c).effects
       <==> && c.put != Refused
            && c.pointerRead && w.slot.Names?
            && c.regions.Some?
            && (forall r :: r in c.regions.value ==> c.scan(r).Some?)
            && (forall x :: x in AllFound(c) ==> Expired(x.node, c.now))
  {
    hide Expired, Found, Survivors, WantedSlot;
    if c.regions.Some? {
      SweepEffectsAre(w.slot, c);
      WantedEmpty(w, c, gone);
    }
  }

  lemma WantedEmpty(w: World, c: SweepCalls, gone: set<Id>)
    requires SweepFits(w, c, gone) && c.regions.Some?
    ensures WantedSlot(w.slot, c) == Some(Empty)
       <==> && c.pointerRead && w.slot.Names?
            && (forall r :: r in c.regions.value ==> c.scan(r).Some?)
            && (forall x :: x in AllFound(c) ==> Expired(x.node, c.now))
  {
    hide Expired, Time, Found, Sweep, Kept, Survivors, Orderable;
    SplitFound(w, c, gone);
    AllScanned(c.regions.value, c);
    NoneAlive(c);
    if Orderable(Alive(c)) && Alive(c) != [] {
      KeptIsSpared(w, c, gone);
    } else {
      NothingKept(Alive(c));
    }
  }

  lemma NoneAlive(c: SweepCalls)
    requires c.regions.Some?
    requires forall x :: x in Alive(c) <==> x in AllFound(c) && !Expired(x.node, c.now)
    ensures Alive(c) == [] <==> forall x :: x in AllFound(c) ==> Expired(x.node, c.now)
  {
    hide Expired, Found, Survivors;
    if Alive(c) != [] {
      assert Alive(c)[0] in Alive(c);
    }
  }

  lemma NothingKept(s: seq<Instance>)
    requires !(Orderable(s) && s != [])
    ensures Kept(s) == []
    ensures s == [] ==> Orderable(s)
  {
  }

  lemma {:induction false} AllScanned(regions: seq<Region>, c: SweepCalls)
    ensures ScanFailures(regions, c) == [] <==> forall r :: r in regions ==> c.scan(r).Some?
  {
    if regions != [] {
      var n := |regions| - 1;
      AllScanned(regions[..n], c);
      assert regions == regions[..n] + [regions[n]];
      assert ScanFailures(regions, c)
          == ScanFailures(regions[..n], c) + if c.scan(regions[n]).None? then [ScanFailed(regions[n])] else [];
    }
  }

  /** Exactly when a sweep points at a node: it is the chosen one and not yet the stored one. */
  lemma SweepAdoptsExactly(w: World, c: SweepCalls, gone: set<Id>, region: Region, id: Id)
    requires SweepFits(w, c, gone)
    ensures Put(Names(region, id)) in Sweep(w.slot, c).effects
       <==> && c.put != Refused
            && c.pointerRead && !w.slot.Garbled?
            && !(w.slot.Names? && w.slot.id == id)
            && c.regions.Some?
            && exists x :: IsChosen(c, x) && x.id == id && x.node.region == region
    ensures Put(Garbled) !in Sweep(w.slot, c).effects
  {
    hide Expired, Found, Survivors, WantedSlot, IsChosen;
    if c.regions.Some? {
      SweepEffectsAre(w.slot, c);
      WantedNames(w, c, gone, region, id);
    }
  }

  lemma WantedNames(w: World, c: SweepCalls, gone: set<Id>, region: Region, id: Id)
    requires SweepFits(w, c, gone) && c.regions.Some?
    ensures WantedSlot(w.slot, c) == Some(Names(region, id))
       <==> && c.pointerRead && !w.slot.Garbled?
            && !(w.slot.Names? && w.slot.id == id)
            && exists x :: IsChosen(c, x) && x.id == id && x.node.region == region
    ensures WantedSlot(w.slot, c) != Some(Garbled)
  {
    hide Expired, Time, Found, Sweep, Kept, Survivors, Orderable, ScanFailures, IsChosen;
    var alive := Alive(c);
    if Orderable(alive) && alive != [] {
      TheChosenOne(c);
      assert IsChosen(c, Kept(alive)[0]);
    } else {
      NothingKept(alive);
      NothingChosen(c);
    }
  }

  lemma TheChosenOne(c: SweepCalls)
    requires c.regions.Some? && Orderable(Alive(c)) && Alive(c) != []
    ensures Kept(Alive(c)) != [] && forall x :: IsChosen(c, x) <==> x == Kept(Alive(c))[0]
  {
    hide Time, Found, Survivors, Orderable, Kept, IsNewest;
    var alive := Alive(c);
    OneKept(alive);
    forall x
      ensures IsChosen(c, x) <==> Kept(alive) == [x]
    {
      KeptIsNewest(alive, x);
    }
  }

  lemma OneKept(s: seq<Instance>)
    requires Orderable(s) && s != []
    ensures |Kept(s)| == 1
  {
    hide Insert;
    assert multiset(Ordered(s)) == multiset(s);
    assert s[0] in multiset(s);
  }

  lemma NothingChosen(c: SweepCalls)
    requires c.regions.Some? && !(Orderable(Alive(c)) && Alive(c) != [])
    ensures forall x :: !IsChosen(c, x)
  {
  }

  // ---- conservation ----

  // The ids in the failure list whose terminate call, made for the reason `why`, failed.
  function FailedIds(failures: seq<Problem>, why: Reason): seq<Id> {
    if failures == [] then []
    else
      var last := failures[|failures| - 1];
      FailedIds(failures[..|failures| - 1], why) + if last.NotTerminated? && last.why == why then [last.id] else []
  }

  lemma {:induction false} FailedIdsConcat(a: seq<Problem>, b: seq<Problem>, why: Reason)
    ensures FailedIds(a + b, why) == FailedIds(a, why) + FailedIds(b, why)
  {
    if b == [] {
      assert a + b == a;
    } else {
      FailedIdsConcat(a, b[..|b| - 1], why);
      assert (a + b)[..|a + b| - 1] == a + b[..|b| - 1];
    }
  }

  lemma {:induction false} NoFailedIds(a: seq<Problem>, why: Reason)
    requires forall p :: p in a ==> !(p.NotTerminated? && p.why == why)
    ensures FailedIds(a, why) == []
  {
    if a != [] {
      assert a == a[..|a| - 1] + [a[|a| - 1]];
      NoFailedIds(a[..|a| - 1], why);
    }
  }

  lemma CountsAdd(p: seq<Id>, q: seq<Id>, r: seq<Id>, x: seq<Id>, y: seq<Id>, z: seq<Id>)
    requires multiset(p) == multiset(q) + multiset(r)
    requires multiset(x) == multiset(y) + multiset(z)
    ensures multiset(p + x) == multiset(q + y) + multiset(r + z)
  {
  }

  lemma NoAttempt(terminate: Id -> Outcome, why: Reason)
    ensures IdSeq([]) == [] && Terminated([], terminate) == []
    ensures FailedIds(NotTerminatedOf([], terminate, why), why) == []
  {
  }

  lemma OneAttempt(s: seq<Instance>, terminate: Id -> Outcome, why: Reason) returns (done: seq<Id>, failed: seq<Problem>)
    requires s != []
    ensures Terminated(s, terminate) == Terminated(s[..|s| - 1], terminate) + done
    ensures NotTerminatedOf(s, terminate, why) == NotTerminatedOf(s[..|s| - 1], terminate, why) + failed
    ensures multiset([s[|s| - 1].id]) == multiset(done) + multiset(FailedIds(failed, why))
  {
    var id := s[|s| - 1].id;
    done := if terminate(id).Done? then [id] else [];
    failed := if terminate(id).Done? then [] else [NotTerminated(id, why)];
    assert FailedIds([], why) == [] && FailedIds([NotTerminated(id, why)], why) == [id];
  }

  lemma {:induction false} TerminatedOrNot(s: seq<Instance>, terminate: Id -> Outcome, why: Reason)
    ensures multiset(IdSeq(s))
         == multiset(Terminated(s, terminate)) + multiset(FailedIds(NotTerminatedOf(s, terminate, why), why))
  {
    hide FailedIds, Terminated, NotTerminatedOf, IdSeq;
    if s == [] {
      NoAttempt(terminate, why);
    } else {
      var before, x := s[..|s| - 1], s[|s| - 1];
      TerminatedOrNot(before, terminate, why);
      var done, failed := OneAttempt(s, terminate, why);
      FailedIdsConcat(NotTerminatedOf(before, terminate, why), failed, why);
      assert s == before + [x];
      IdSeqConcat(before, [x]);
      IdSeqOne(x);
      CountsAdd(IdSeq(before), Terminated(before, terminate), FailedIds(NotTerminatedOf(before, terminate, why), why),
                [x.id], done, FailedIds(failed, why));
    }
  }

  lemma IdSeqConcat(a: seq<Instance>, b: seq<Instance>)
    ensures IdSeq(a + b) == IdSeq(a) + IdSeq(b)
  {
  }

  lemma IdSeqOne(x: Instance)
    ensures IdSeq([x]) == [x.id]
  {
  }

  lemma Removed(s: seq<Instance>, x: Instance, a: seq<Instance>, b: seq<Instance>)
    requires multiset(s + [x]) == multiset(a + [x] + b)
    ensures multiset(s) == multiset(a + b)
  {
    assert multiset(s) == multiset(s + [x]) - multiset{x};
    assert multiset(a + b) == multiset(a + [x] + b) - multiset{x};
  }

  lemma {:induction false} PermutedIds(s: seq<Instance>, t: seq<Instance>)
    requires multiset(s) == multiset(t)
    ensures multiset(IdSeq(s)) == multiset(IdSeq(t))
  {
    hide IdSeq;
    assert |s| == |multiset(s)| == |multiset(t)| == |t|;
    if s != [] {
      var n, x := |s| - 1, s[|s| - 1];
      assert s == s[..n] + [x];
      assert x in multiset(t);
      var i :| 0 <= i < |t| && t[i] == x;
      var a, b := t[..i], t[i + 1..];
      assert t == a + [x] + b;
      Removed(s[..n], x, a, b);
      PermutedIds(s[..n], a + b);
      IdSeqConcat(s[..n], [x]);
      IdSeqConcat(a + [x], b);
      IdSeqConcat(a, [x]);
      IdSeqConcat(a, b);
    }
  }

  // Nodes that the sweep leaves alone: the kept one, or all survivors if they cannot be ordered.
  ghost function LeftAlone(c: SweepCalls): seq<Instance>
    requires c.regions.Some?
  {
    if Orderable(Alive(c)) then Kept(Alive(c)) else Alive(c)
  }

  /** Every discovered node is accounted for exactly once: expired ones were reaped or reported as
      not terminated, the others are duplicates, duplicates that were not terminated, or left alone. */
  lemma SweepConserves(w: World, c: SweepCalls, gone: set<Id>)
    requires SweepFits(w, c, gone) && c.regions.Some?
    ensures var r := Sweep(w.slot, c);
      && multiset(IdSeq(Doomed(AllFound(c), c.now)))
         == multiset(r.reaped) + multiset(FailedIds(r.failures, PastExpiry))
      && multiset(IdSeq(Alive(c)))
         == multiset(r.duplicates) + multiset(FailedIds(r.failures, Duplicate)) + multiset(IdSeq(LeftAlone(c)))
      && multiset(r.nodes) == multiset(IdSeq(Doomed(AllFound(c), c.now))) + multiset(IdSeq(Alive(c)))
  {
    hide Found, Orderable, Kept, Extras, Survivors, Doomed, Terminated, NotTerminatedOf, Sweep, FailedIds, IdSeq;
    SplitFound(w, c, gone);
    var doomed, alive := Doomed(AllFound(c), c.now), Alive(c);
    var extras := Extras(alive);
    if Orderable(alive) {
      KeptAndExtras(alive);
    } else {
      NoExtras(alive);
    }
    assert multiset(alive) == multiset(extras + LeftAlone(c));
    PermutedIds(alive, extras + LeftAlone(c));
    IdSeqConcat(extras, LeftAlone(c));
    PermutedIds(AllFound(c), doomed + alive);
    IdSeqConcat(doomed, alive);
    TerminatedOrNot(doomed, c.terminate, PastExpiry);
    TerminatedOrNot(extras, c.terminate, Duplicate);
    SweepFailedIds(w.slot, c);
    ReportFields(w.slot, c);
  }

  lemma ReportFields(slot: Slot, c: SweepCalls)
    requires 0 <= c.now < END_OF_TIME && c.regions.Some?
    ensures var r := Sweep(slot, c);
      && r.nodes == IdSeq(AllFound(c))
      && r.reaped == Terminated(Doomed(AllFound(c), c.now), c.terminate)
      && r.duplicates == Terminated(Extras(Alive(c)), c.terminate)
  {
    hide Found, Orderable, Kept, Extras, Survivors, Doomed, Terminated, NotTerminatedOf, IdleCheck, Reconcile, Kills;
  }

  lemma NoExtras(s: seq<Instance>)
    requires !Orderable(s)
    ensures Extras(s) == []
  {
  }

  lemma FailuresInOrder(slot: Slot, c: SweepCalls)
    requires 0 <= c.now < END_OF_TIME && c.regions.Some?
    ensures var alive, unscanned := Alive(c), ScanFailures(c.regions.value, c);
      Sweep(slot, c).failures
      == (if c.threshold.None? then [ThresholdUnread] else [])
         + unscanned
         + NotTerminatedOf(Doomed(AllFound(c), c.now), c.terminate, PastExpiry)
         + (if Orderable(alive) then NotTerminatedOf(Extras(alive), c.terminate, Duplicate) else [Unordered])
         + (if Kept(alive) == [] then [] else IdleCheck(Kept(alive)[0], c).2)
         + Reconcile(slot, alive, unscanned == [], c).1
  {
    hide Found, Orderable, Kept, Extras, Survivors, Doomed, NotTerminatedOf, ScanFailures;
    hide IdleCheck, Reconcile, Readable, IdSeq, Terminated, Kills;
  }

  lemma SweepFailedIds(slot: Slot, c: SweepCalls)
    requires 0 <= c.now < END_OF_TIME && c.regions.Some?
    ensures FailedIds(Sweep(slot, c).failures, PastExpiry)
         == FailedIds(NotTerminatedOf(Doomed(AllFound(c), c.now), c.terminate, PastExpiry), PastExpiry)
    ensures FailedIds(Sweep(slot, c).failures, Duplicate)
         == FailedIds(NotTerminatedOf(Extras(Alive(c)), c.terminate, Duplicate), Duplicate)
  {
    hide Found, Orderable, Kept, Extras, Survivors, Doomed, NotTerminatedOf, ScanFailures, FailedIds;
    hide IdleCheck, Reconcile, Sweep;
    var alive := Alive(c);
    var early := if c.threshold.None? then [ThresholdUnread] else [];
    var unscanned := ScanFailures(c.regions.value, c);
    var dooms := NotTerminatedOf(Doomed(AllFound(c), c.now), c.terminate, PastExpiry);
    var extras := if Orderable(alive) then NotTerminatedOf(Extras(alive), c.terminate, Duplicate) else [Unordered];
    var idle := if Kept(alive) == [] then [] else IdleCheck(Kept(alive)[0], c).2;
    var puts := Reconcile(slot, alive, unscanned == [], c).1;
    FailuresInOrder(slot, c);
    ScanFailuresAreScans(c.regions.value, c);
    OtherFailures(slot, c);
    ReasonsAre(Doomed(AllFound(c), c.now), c.terminate, PastExpiry);
    ReasonsAre(Extras(alive), c.terminate, Duplicate);
    OneOfSix(early, unscanned, dooms, extras, idle, puts);
    if !Orderable(alive) {
      NoFailedIds(extras, Duplicate);
      NoExtras(alive);
      NoAttempt(c.terminate, Duplicate);
    }
  }

  lemma {:induction false} ReasonsAre(s: seq<Instance>, terminate: Id -> Outcome, why: Reason)
    ensures forall p :: p in NotTerminatedOf(s, terminate, why) ==> p.NotTerminated? && p.why == why
  {
    if s != [] {
      ReasonsAre(s[..|s| - 1], terminate, why);
    }
  }

  // Of the six parts of the failure list, the third holds the failed reaps and the fourth the
  // failed terminates of duplicates.
  lemma OneOfSix(a: seq<Problem>, b: seq<Problem>, dooms: seq<Problem>, extras: seq<Problem>, e: seq<Problem>, f: seq<Problem>)
    requires forall p :: p in a || p in b || p in e || p in f ==> !p.NotTerminated?
    requires forall p :: p in dooms ==> p.NotTerminated? && p.why == PastExpiry
    requires forall p :: p in extras && p.NotTerminated? ==> p.why == Duplicate
    ensures FailedIds(a + b + dooms + extras + e + f, PastExpiry) == FailedIds(dooms, PastExpiry)
    ensures FailedIds(a + b + dooms + extras + e + f, Duplicate) == FailedIds(extras, Duplicate)
  {
    hide FailedIds;
    Silent(a, b, e, f, PastExpiry);
    Silent(a, b, e, f, Duplicate);
    NoFailedIds(dooms, Duplicate);
    NoFailedIds(extras, PastExpiry);
    FailedIdsOfSix(a, b, dooms, extras, e, f, PastExpiry);
    FailedIdsOfSix(a, b, dooms, extras, e, f, Duplicate);
  }

  lemma Silent(a: seq<Problem>, b: seq<Problem>, e: seq<Problem>, f: seq<Problem>, why: Reason)
    requires forall p :: p in a || p in b || p in e || p in f ==> !p.NotTerminated?
    ensures FailedIds(a, why) == FailedIds(b, why) == FailedIds(e, why) == FailedIds(f, why) == []
  {
    hide FailedIds;
    NoFailedIds(a, why);
    NoFailedIds(b, why);
    NoFailedIds(e, why);
    NoFailedIds(f, why);
  }

  lemma FailedIdsOfSix(a: seq<Problem>, b: seq<Problem>, c: seq<Problem>, d: seq<Problem>, e: seq<Problem>,
                       f: seq<Problem>, why: Reason)
    ensures FailedIds(a + b + c + d + e + f, why)
         == FailedIds(a, why) + FailedIds(b, why) + FailedIds(c, why) + FailedIds(d, why) + FailedIds(e, why)
            + FailedIds(f, why)
  {
    hide FailedIds;
    FailedIdsConcat(a, b, why);
    FailedIdsConcat(a + b, c, why);
    FailedIdsConcat(a + b + c, d, why);
    FailedIdsConcat(a + b + c + d, e, why);
    FailedIdsConcat(a + b + c + d + e, f, why);
  }

  lemma OtherFailures(slot: Slot, c: SweepCalls)
    requires 0 <= c.now < END_OF_TIME && c.regions.Some?
    ensures forall x, p :: p in IdleCheck(x, c).2 ==> !p.NotTerminated?
    ensures forall s, all, p :: p in Reconcile(slot, s, all, c).1 ==> !p.NotTerminated?
  {
    hide Rfc3339, ShouldAlert, Wanted, Kept, Orderable;
  }

  lemma {:induction false} ScanFailuresAreScans(regions: seq<Region>, c: SweepCalls)
    ensures forall p :: p in ScanFailures(regions, c) ==> p.ScanFailed?
  {
    if regions != [] {
      ScanFailuresAreScans(regions[..|regions| - 1], c);
    }
  }

  lemma {:induction false} TerminatedAre(s: seq<Instance>, terminate: Id -> Outcome)
    ensures forall id :: id in Terminated(s, terminate) <==> id in Ids(s) && terminate(id).Done?
  {
    if s != [] {
      var n := |s| - 1;
      TerminatedAre(s[..n], terminate);
      assert s == s[..n] + [s[n]];
      IdsOfConcat(s[..n], [s[n]]);
      assert Ids([s[n]]) == {s[n].id};
    }
  }

  /** What is live afterwards: everything but the reported terminations, unless a reply was lost. */
  lemma SweepLeaves(w: World, c: SweepCalls, gone: set<Id>)
    requires SweepFits(w, c, gone)
    requires forall id :: c.terminate(id) != Lost
    ensures var r := Sweep(w.slot, c);
      After(w, c).live.Keys == set id | id in w.live && id !in r.reaped && id !in r.duplicates
    ensures forall id :: id in After(w, c).live ==> SameNode(After(w, c).live[id], w.live[id])
  {
    hide Sweep, Found, Replay, Killed;
    NoRegionsNothingDone(w.slot, c);
    if c.regions.Some? {
      SweepEffectsAre(w.slot, c);
      KilledAre(w, c);
    } else {
      assert Killed([]) == {} by { NothingKilled(); }
    }
    QuietReplay(w, Sweep(w.slot, c).effects);
  }

  lemma NothingKilled()
    ensures Killed([]) == {} && Quiet([])
  {
  }

  lemma NoRegionsNothingDone(slot: Slot, c: SweepCalls)
    requires 0 <= c.now < END_OF_TIME
    ensures c.regions.None? ==>
              var r := Sweep(slot, c); r.effects == [] && r.reaped == [] && r.duplicates == []
  {
  }

  lemma KilledAre(w: World, c: SweepCalls)
    requires 0 <= c.now < END_OF_TIME && c.regions.Some?
    requires forall id :: c.terminate(id) != Lost
    ensures var r := Sweep(w.slot, c);
      forall id :: id in Killed(r.effects) <==> id in r.reaped || id in r.duplicates
  {
    hide Expired, Time, Found, Kept, Survivors, Doomed, Extras, IdleCheck, Reconcile, Kills;
    SweepEffectsAre(w.slot, c);
    TerminatedAre(Doomed(AllFound(c), c.now), c.terminate);
    TerminatedAre(Extras(Alive(c)), c.terminate);
    var r := Sweep(w.slot, c);
    forall id
      ensures id in Killed(r.effects) <==> Kill(id) in r.effects
    {
      if Kill(id) in r.effects {
        assert Kill(id).id in Killed(r.effects);
      }
    }
  }

  // ---- self-stabilisation ----

  // Every scan and every termination that the sweep makes succeeds.
  ghost predicate Thorough(c: SweepCalls) {
    && c.regions.Some?
    && (forall r :: r in c.regions.value ==> c.scan(r).Some?)
    && (forall id :: IsDoomed(c, id) || id in Ids(Extras(Alive(c))) ==> c.terminate(id).Done?)
  }

  // And so do the calls for the pointer; the idle check does not matter.
  ghost predicate Calm(slot: Slot, c: SweepCalls) {
    Thorough(c) && c.pointerRead && (WantedSlot(slot, c).Some? ==> c.put.Done?)
  }

  // The region list covers every live node, and a pointer to a live node has the right region.
  ghost predicate Covered(w: World, c: SweepCalls) {
    && c.regions.Some?
    && (forall id :: id in w.live ==> w.live[id].region in c.regions.value)
    && (w.slot.Names? && w.slot.id in w.live ==> w.slot.region == w.live[w.slot.id].region)
  }

  lemma AliveAreTheUnexpired(w: World, c: SweepCalls)
    requires SweepFits(w, c, {}) && Thorough(c) && Covered(w, c)
    ensures Ids(Alive(c)) == set id | id in w.live && !Expired(w.live[id], c.now)
    ensures Ids(Doomed(AllFound(c), c.now)) == set id | id in w.live && Expired(w.live[id], c.now)
  {
    hide Expired, Found, Survivors, Doomed, Ids;
    SplitFound(w, c, {});
    forall id | id in w.live
      ensures Expired(w.live[id], c.now) ==> IsDoomed(c, id)
      ensures !Expired(w.live[id], c.now) ==> id in Ids(Alive(c))
    {
      Seen(w, c, {}, id);
    }
    forall id | id in Ids(Alive(c))
      ensures id in w.live && !Expired(w.live[id], c.now)
    {
      var x := OneOf(Alive(c), id);
    }
  }

  lemma OneOf(s: seq<Instance>, id: Id) returns (x: Instance)
    requires id in Ids(s)
    ensures x in s && x.id == id
  {
    var i :| 0 <= i < |s| && s[i].id == id;
    x := s[i];
  }

  // A node that stays is seen, once its region is scanned.
  lemma Seen(w: World, c: SweepCalls, gone: set<Id>, id: Id)
    requires SweepFits(w, c, gone) && c.regions.Some?
    requires id in w.live && id !in gone
    requires w.live[id].region in c.regions.value && c.scan(w.live[id].region).Some?
    ensures if Expired(w.live[id], c.now) then IsDoomed(c, id) else id in Ids(Alive(c))
  {
    hide Expired, Found, Survivors, Ids;
    SplitFound(w, c, gone);
    FoundFacts(w, c, gone);
    var x := OneOf(AllFound(c), id);
    if Expired(x.node, c.now) {
      Present(Doomed(AllFound(c), c.now), x);
    } else {
      Present(Alive(c), x);
    }
  }

  lemma Present(s: seq<Instance>, x: Instance)
    requires x in s
    ensures x.id in Ids(s)
  {
  }

  lemma LiveAfterwards(w: World, c: SweepCalls)
    requires SweepFits(w, c, {}) && Thorough(c) && Covered(w, c)
    ensures After(w, c).live.Keys == Ids(if Orderable(Alive(c)) then Kept(Alive(c)) else Alive(c))
  {
    hide Expired, Time, Found, Survivors, Doomed, Kept, Extras, Orderable, Sweep, After, Ids, Covered;
    var alive, dooms := Alive(c), Ids(Doomed(AllFound(c), c.now));
    AliveAreTheUnexpired(w, c);
    AfterKeys(w, c);
    KilledWhenThorough(w, c);
    SplitFound(w, c, {});
    if Orderable(alive) {
      KeptAndExtras(alive);
      IdsSplit(alive, Kept(alive), Extras(alive));
      WhatIsLeft(w.live.Keys, dooms, Ids(alive), Ids(Kept(alive)), Ids(Extras(alive)));
    } else {
      NoExtras(alive);
      assert Ids(Extras(alive)) == {} by { NoIds(); }
      WhatIsLeft(w.live.Keys, dooms, Ids(alive), Ids(alive), {});
    }
  }

  lemma NoIds()
    ensures Ids([]) == {}
  {
  }

  lemma WhatIsLeft(live: set<Id>, dooms: set<Id>, alive: set<Id>, kept: set<Id>, extras: set<Id>)
    requires forall id :: id in live <==> id in dooms || id in alive
    requires forall id :: id in dooms ==> id !in alive
    requires alive == kept + extras && kept !! extras
    ensures live - (dooms + extras) == kept
  {
  }

  lemma AfterKeys(w: World, c: SweepCalls)
    requires 0 <= c.now < END_OF_TIME && c.regions.Some?
    ensures After(w, c).live.Keys == w.live.Keys - Killed(Sweep(w.slot, c).effects)
  {
    hide Sweep, Found;
    SweepEffectsAre(w.slot, c);
    QuietReplay(w, Sweep(w.slot, c).effects);
  }

  lemma KilledWhenThorough(w: World, c: SweepCalls)
    requires 0 <= c.now < END_OF_TIME && Thorough(c)
    ensures Killed(Sweep(w.slot, c).effects) == Ids(Doomed(AllFound(c), c.now)) + Ids(Extras(Alive(c)))
  {
    hide Expired, Found, Survivors, Doomed, Extras, Sweep;
    SweepEffectsAre(w.slot, c);
    var es := Sweep(w.slot, c).effects;
    forall id | IsDoomed(c, id) || id in Ids(Extras(Alive(c)))
      ensures id in Killed(es)
    {
      assert Kill(id) in es;
      assert Kill(id).id == id;
    }
  }

  lemma IdsSplit(s: seq<Instance>, a: seq<Instance>, b: seq<Instance>)
    requires multiset(s) == multiset(a) + multiset(b)
    requires forall x, y :: x in a && y in b ==> x.id != y.id
    ensures Ids(s) == Ids(a) + Ids(b) && Ids(a) !! Ids(b)
  {
    MultisetElements(a + b, s);
    IdsOfConcat(a, b);
    forall id | id in Ids(a)
      ensures id !in Ids(b)
    {
      var i :| 0 <= i < |a| && a[i].id == id;
      assert a[i] in a;
      IdAbsent(b, id);
    }
  }

  lemma SlotAfterCalm(w: World, c: SweepCalls)
    requires SweepFits(w, c, {}) && Calm(w.slot, c) && Covered(w, c) && !w.slot.Garbled?
    ensures var alive := Alive(c);
      After(w, c).slot ==
      if !Orderable(alive) then w.slot
      else if alive == [] then Empty
      else if Kept(alive) != [] then Names(Kept(alive)[0].node.region, Kept(alive)[0].id)
      else After(w, c).slot
  {
    hide Expired, Time, Found, Survivors, Doomed, Kept, Extras, Orderable, Sweep;
    SweepEffectsAre(w.slot, c);
    QuietReplay(w, Sweep(w.slot, c).effects);
    AllScanned(c.regions.value, c);
    SplitFound(w, c, {});
    var alive := Alive(c);
    if Orderable(alive) && alive != [] {
      KeptIsSpared(w, c, {});
    } else {
      NothingKept(alive);
    }
    if WantedSlot(w.slot, c).Some? {
      assert Put(WantedSlot(w.slot, c).value) in Sweep(w.slot, c).effects;
    }
  }

  lemma OneId(s: seq<Instance>)
    requires |s| == 1
    ensures Ids(s) == {s[0].id}
  {
  }

  lemma NoneOrderable()
    ensures Orderable([])
  {
  }

  lemma SeveralAlive(c: SweepCalls)
    requires c.regions.Some? && DistinctIds(Alive(c)) && !Orderable(Alive(c))
    ensures |Ids(Alive(c))| >= 2
  {
    hide Survivors, Found;
    var s := Alive(c);
    assert {s[0].id, s[1].id} <= Ids(s);
    SubsetSize({s[0].id, s[1].id}, Ids(s));
  }

  lemma SubsetSize(a: set<Id>, b: set<Id>)
    requires a <= b
    ensures |a| <= |b|
  {
    assert b == a + (b - a);
    assert |b| == |a| + |b - a|;
  }

  /** One undisturbed sweep leaves the newest unexpired node, tracked, and nothing else;
      unless several unexpired nodes cannot be dated, and then it touches none of them. */
  lemma SweepStabilises(w: World, c: SweepCalls)
    requires SweepFits(w, c, {}) && Calm(w.slot, c) && Covered(w, c) && !w.slot.Garbled?
    ensures Alive(c) == [] ==> After(w, c).live == map[] && After(w, c).slot == Empty
    ensures forall x :: IsChosen(c, x) ==>
              After(w, c).live.Keys == {x.id} && After(w, c).slot == Names(x.node.region, x.id)
    ensures Alive(c) != [] && Orderable(Alive(c)) ==> exists x :: IsChosen(c, x)
    ensures !Orderable(Alive(c)) ==>
              After(w, c).live.Keys == Ids(Alive(c)) && After(w, c).slot == w.slot
    ensures |After(w, c).live| <= 1 <==> Orderable(Alive(c))
  {
    hide Expired, Time, Found, Survivors, Doomed, Kept, Extras, Orderable, Sweep, IsChosen, After, WantedSlot;
    AliveAreTheUnexpired(w, c);
    LiveAfterwards(w, c);
    SlotAfterCalm(w, c);
    var alive := Alive(c);
    NoneOrderable();
    assert |After(w, c).live| == |After(w, c).live.Keys|;
    if alive == [] {
      NothingKept(alive);
      NothingChosen(c);
      assert Ids(Kept(alive)) == {};
    } else if Orderable(alive) {
      TheChosenOne(c);
      OneKept(alive);
      OneId(Kept(alive));
      assert IsChosen(c, Kept(alive)[0]);
    } else {
      NothingChosen(c);
      SplitFound(w, c, {});
      SeveralAlive(c);
    }
  }

  // At most one live node, and the slot holds exactly that node or is empty.
  ghost predicate Settled(w: World) {
    || (w.live == map[] && w.slot == Empty)
    || (exists id :: w.live.Keys == {id} && w.slot == Names(w.live[id].region, id))
  }

  /** Whatever fails, a sweep of a settled fleet terminates nothing and writes no pointer,
      as long as the node has not expired and does not end by itself. */
  lemma SweepIsFixpoint(w: World, c: SweepCalls, gone: set<Id>)
    requires SweepFits(w, c, gone) && Settled(w)
    requires forall id :: id in w.live ==> !Expired(w.live[id], c.now) && id !in gone
    requires c.regions.Some? ==> forall id :: id in w.live ==> w.live[id].region in c.regions.value
    ensures forall e :: e in Sweep(w.slot, c).effects ==> e.Stamp?
  {
    hide Expired, Time, Found, Survivors, Doomed, Kept, Extras, Orderable, WantedSlot;
    if c.regions.Some? {
      SweepEffectsAre(w.slot, c);
      SplitFound(w, c, gone);
      FoundFacts(w, c, gone);
      NothingDoomed(w, c);
      NothingWanted(w, c, gone);
      AtMostOneAlive(w, c);
      FewHaveNoExtras(Alive(c));
    }
  }

  lemma NothingDoomed(w: World, c: SweepCalls)
    requires c.regions.Some?
    requires forall id :: IsDoomed(c, id) ==> id in w.live && Expired(w.live[id], c.now)
    requires forall id :: id in w.live ==> !Expired(w.live[id], c.now)
    ensures forall id :: !IsDoomed(c, id)
  {
  }

  lemma AtMostOneAlive(w: World, c: SweepCalls)
    requires c.regions.Some? && Settled(w) && DistinctIds(Alive(c))
    requires forall x :: x in Alive(c) ==> x.id in w.live
    ensures |Alive(c)| <= 1
  {
    hide Found, Survivors;
    var s := Alive(c);
    forall id | id in Ids(s)
      ensures id in w.live
    {
      var i :| 0 <= i < |s| && s[i].id == id;
      assert s[i] in s;
    }
    SubsetSize(Ids(s), w.live.Keys);
    CountIds(s);
  }

  lemma {:induction false} CountIds(s: seq<Instance>)
    requires DistinctIds(s)
    ensures |Ids(s)| == |s|
  {
    if s != [] {
      var before, x := s[..|s| - 1], s[|s| - 1];
      CountIds(before);
      assert s == before + [x];
      IdsOfConcat(before, [x]);
      OneId([x]);
      IdAbsent(before, x.id);
    }
  }

  lemma FewHaveNoExtras(s: seq<Instance>)
    requires |s| <= 1
    ensures Extras(s) == [] && Kept(s) == s && Orderable(s)
  {
  }

  lemma NothingWanted(w: World, c: SweepCalls, gone: set<Id>)
    requires SweepFits(w, c, gone) && c.regions.Some? && Settled(w)
    requires forall id :: id in w.live ==> !Expired(w.live[id], c.now) && id !in gone
    requires forall id :: id in w.live ==> w.live[id].region in c.regions.value
    ensures WantedSlot(w.slot, c) == None
  {
    hide Expired, Time, Found, Survivors, Doomed, Kept, Extras, Orderable;
    SplitFound(w, c, gone);
    FoundFacts(w, c, gone);
    AtMostOneAlive(w, c);
    FewHaveNoExtras(Alive(c));
    AllScanned(c.regions.value, c);
    var alive := Alive(c);
    if alive != [] {
      assert alive[0] in alive;
    } else if w.live != map[] {
      var id :| w.live.Keys == {id};
      assert id in w.live;
      NoIds();
      if c.scan(w.live[id].region).Some? {
        Seen(w, c, gone, id);
      }
    }
  }

  /** The two together: after one undisturbed sweep of datable nodes, nothing more is done. */
  lemma SecondSweepRests(w: World, c: SweepCalls, c2: SweepCalls, gone: set<Id>)
    requires SweepFits(w, c, {}) && Calm(w.slot, c) && Covered(w, c) && !w.slot.Garbled? && Orderable(Alive(c))
    requires var w' := After(w, c);
      && SweepFits(w', c2, gone)
      && (forall id :: id in w'.live ==> !Expired(w'.live[id], c2.now) && id !in gone)
      && (c2.regions.Some? ==> forall id :: id in w'.live ==> w'.live[id].region in c2.regions.value)
    ensures Settled(After(w, c))
    ensures forall e :: e in Sweep(After(w, c).slot, c2).effects ==> e.Stamp?
  {
    hide Expired, Sweep, Found, Survivors, IsChosen, Orderable;
    SweepStabilises(w, c);
    if Alive(c) != [] {
      var x :| IsChosen(c, x);
      ChosenIsLive(w, c, x);
      assert After(w, c).live.Keys == {x.id};
    }
    SweepIsFixpoint(After(w, c), c2, gone);
  }

  lemma ChosenIsLive(w: World, c: SweepCalls, x: Instance)
    requires SweepFits(w, c, {}) && c.regions.Some? && IsChosen(c, x)
    ensures x.id in After(w, c).live ==> After(w, c).live[x.id].region == x.node.region
  {
    hide Expired, Time, Found, Survivors, Sweep;
    SplitFound(w, c, {});
    SweepEffectsAre(w.slot, c);
    QuietReplay(w, Sweep(w.slot, c).effects);
    assert x in Alive(c);
  }
}
