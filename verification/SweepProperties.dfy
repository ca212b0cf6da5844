/** What one sweep does, for every way in which its calls can fail. */
module SweepProperties {
  import opened Wrappers
  import opened Calendar
  import opened Ttl
  import opened Fleet
  import opened Handler
  import opened Watchdog

  // ---- newest first ----

  ghost predicate NewestFirstOrder(s: seq<Instance>) {
    forall i, j :: 0 <= i < j < |s| ==> Time(s[i]) >= Time(s[j])
  }

  lemma {:induction false} InsertKeepsOrder(sorted: seq<Instance>, x: Instance)
    requires NewestFirstOrder(sorted)
    ensures NewestFirstOrder(Insert(sorted, x))
  {
    hide Time;
    if sorted != [] {
      var n := |sorted| - 1;
      if Time(sorted[n]) < Time(x) {
        InsertKeepsOrder(sorted[..n], x);
        AppendOldest(Insert(sorted[..n], x), sorted, x);
      }
    }
  }

  lemma AppendOldest(r: seq<Instance>, sorted: seq<Instance>, x: Instance)
    requires sorted != [] && NewestFirstOrder(sorted) && NewestFirstOrder(r)
    requires multiset(r) == multiset(sorted[..|sorted| - 1]) + multiset{x}
    requires Time(sorted[|sorted| - 1]) < Time(x)
    ensures NewestFirstOrder(r + [sorted[|sorted| - 1]])
  {
    hide Time;
    var n := |sorted| - 1;
    forall i | 0 <= i < |r|
      ensures Time(r[i]) >= Time(sorted[n])
    {
      assert r[i] in multiset(r);
      assert r[i] == x || r[i] in multiset(sorted[..n]);
    }
  }

  lemma {:induction false} InsertHead(sorted: seq<Instance>, x: Instance)
    requires NewestFirstOrder(sorted)
    ensures Insert(sorted, x) != []
    ensures sorted != [] && Time(sorted[0]) >= Time(x) ==> Insert(sorted, x)[0] == sorted[0]
    ensures sorted == [] || Time(sorted[0]) < Time(x) ==> Insert(sorted, x)[0] == x
  {
    hide Time;
    if sorted != [] {
      InsertHead(sorted[..|sorted| - 1], x);
    }
  }

  // `k` is the position of the newest element, the first one if several are.
  ghost predicate IsNewest(s: seq<Instance>, k: nat) {
    && k < |s|
    && (forall i :: 0 <= i < k ==> Time(s[i]) < Time(s[k]))
    && (forall i :: k < i < |s| ==> Time(s[i]) <= Time(s[k]))
  }

  lemma NewestFirstStep(s: seq<Instance>)
    requires s != []
    ensures |NewestFirst(s[..|s| - 1])| == |s| - 1
    ensures NewestFirst(s) == Insert(NewestFirst(s[..|s| - 1]), s[|s| - 1])
  {
    MultisetElements(NewestFirst(s[..|s| - 1]), s[..|s| - 1]);
  }

  lemma {:induction false} NewestFirstIsSorted(s: seq<Instance>) returns (k: nat)
    requires s != []
    ensures NewestFirstOrder(NewestFirst(s))
    ensures NewestFirst(s) != [] && IsNewest(s, k) && NewestFirst(s)[0] == s[k]
  {
    hide Time, Insert, NewestFirst;
    var n := |s| - 1;
    var before := s[..n];
    NewestFirstStep(s);
    if n == 0 {
      InsertKeepsOrder(NewestFirst(before), s[n]);
      InsertHead(NewestFirst(before), s[n]);
      k := 0;
    } else {
      var k' := NewestFirstIsSorted(before);
      InsertKeepsOrder(NewestFirst(before), s[n]);
      InsertHead(NewestFirst(before), s[n]);
      k := if Time(s[k']) >= Time(s[n]) then k' else n;
      NewestOfMore(s, k');
    }
  }

  lemma NewestOfMore(s: seq<Instance>, k: nat)
    requires |s| >= 2 && IsNewest(s[..|s| - 1], k)
    ensures IsNewest(s, if Time(s[k]) >= Time(s[|s| - 1]) then k else |s| - 1)
  {
    hide Time;
    var before := s[..|s| - 1];
    forall i | 0 <= i < |s| - 1
      ensures s[i] == before[i]
      ensures Time(before[i]) <= Time(before[k])
    {
    }
  }

  lemma MultisetElements(r: seq<Instance>, s: seq<Instance>)
    requires multiset(r) == multiset(s)
    ensures |r| == |s|
    ensures forall x :: x in r <==> x in s
    ensures DistinctIds(s) ==> DistinctIds(r)
    ensures Ids(r) == Ids(s)
  {
    assert |multiset(r)| == |multiset(s)|;
    forall x
      ensures x in r <==> x in s
    {
      assert x in multiset(r) <==> x in multiset(s);
    }
    SameIds(r, s);
    if DistinctIds(s) {
      forall i, j | 0 <= i < j < |r|
        ensures r[i].id != r[j].id
      {
        if r[i].id == r[j].id {
          SameIdSamePlace(s, r[i], r[j]);
          TwicePresent(r, i, j);
          OncePresent(s, r[i]);
        }
      }
    }
  }

  lemma SameIds(r: seq<Instance>, s: seq<Instance>)
    requires forall x :: x in r <==> x in s
    ensures Ids(r) == Ids(s)
  {
    IdsSubset(r, s);
    IdsSubset(s, r);
  }

  lemma IdsSubset(r: seq<Instance>, s: seq<Instance>)
    requires forall x :: x in r ==> x in s
    ensures Ids(r) <= Ids(s)
  {
    forall id | id in Ids(r)
      ensures id in Ids(s)
    {
      var i :| 0 <= i < |r| && r[i].id == id;
      assert r[i] in s;
    }
  }

  lemma SameIdSamePlace(s: seq<Instance>, x: Instance, y: Instance)
    requires DistinctIds(s) && x in s && y in s && x.id == y.id
    ensures x == y
  {
  }

  lemma TwicePresent(r: seq<Instance>, i: nat, j: nat)
    requires i < j < |r| && r[i] == r[j]
    ensures multiset(r)[r[i]] >= 2
  {
    assert r == r[..j] + r[j..];
    assert r[i] in multiset(r[..j]) && r[j..][0] in multiset(r[j..]);
  }

  lemma {:induction false} OncePresent(s: seq<Instance>, x: Instance)
    requires DistinctIds(s)
    ensures multiset(s)[x] <= 1
  {
    if s != [] {
      var n := |s| - 1;
      OncePresent(s[..n], x);
      assert s == s[..n] + [s[n]];
      if x == s[n] {
        assert x !in s[..n];
      }
    }
  }

  // ---- what the scans found ----

  ghost predicate Truthful(w: World, c: SweepCalls, regions: seq<Region>, found: seq<Instance>) {
    && DistinctIds(found)
    && (forall x :: x in found ==>
          x.id in w.live && w.live[x.id] == x.node && x.node.region in regions && c.scan(x.node.region).Some?)
  }

  ghost predicate Complete(w: World, c: SweepCalls, regions: seq<Region>, found: seq<Instance>, gone: set<Id>) {
    forall id :: id in w.live && w.live[id].region in regions && c.scan(w.live[id].region).Some?
      ==> id in Ids(found) || id in gone
  }

  lemma {:induction false} FoundIsTrue(w: World, c: SweepCalls, gone: set<Id>, k: nat)
    requires SweepFits(w, c, gone) && c.regions.Some? && k <= |c.regions.value|
    ensures Truthful(w, c, c.regions.value[..k], Found(c.regions.value[..k], c))
    ensures Complete(w, c, c.regions.value[..k], Found(c.regions.value[..k], c), gone)
  {
    hide Sees, DistinctIds, Truthful, Complete;
    var regions := c.regions.value;
    if k > 0 {
      FoundIsTrue(w, c, gone, k - 1);
      var before, r := regions[..k - 1], regions[k - 1];
      assert regions[..k][..k - 1] == before;
      assert regions[..k] == before + [r];
      assert r !in before && r in regions;
      OneMoreRegion(w, c, gone, before, r, Found(before, c));
    } else {
      NoRegionYet(w, c, gone);
    }
  }

  lemma NoRegionYet(w: World, c: SweepCalls, gone: set<Id>)
    ensures Truthful(w, c, [], []) && Complete(w, c, [], [], gone)
  {
  }

  lemma OneMoreRegion(w: World, c: SweepCalls, gone: set<Id>, before: seq<Region>, r: Region, found: seq<Instance>)
    requires Truthful(w, c, before, found) && Complete(w, c, before, found, gone)
    requires r !in before && (c.scan(r).Some? ==> Sees(w, r, c.scan(r).value, gone))
    ensures Truthful(w, c, before + [r], found + Scanned(r, c))
    ensures Complete(w, c, before + [r], found + Scanned(r, c), gone)
  {
    var seen := Scanned(r, c);
    IdsOfConcat(found, seen);
    hide Ids;
    forall i, j | 0 <= i < |found| && 0 <= j < |seen|
      ensures found[i].id != seen[j].id
    {
      assert found[i] in found && seen[j] in seen;
    }
  }

  lemma IdsOfConcat(a: seq<Instance>, b: seq<Instance>)
    ensures Ids(a + b) == Ids(a) + Ids(b)
  {
    var s := a + b;
    forall id | id in Ids(a) + Ids(b)
      ensures id in Ids(s)
    {
      if id in Ids(a) {
        var i :| 0 <= i < |a| && a[i].id == id;
        assert s[i].id == id;
      } else {
        var i :| 0 <= i < |b| && b[i].id == id;
        assert s[|a| + i].id == id;
      }
    }
  }

  ghost function AllFound(c: SweepCalls): seq<Instance>
    requires c.regions.Some?
  {
    Found(c.regions.value, c)
  }

  lemma FoundFacts(w: World, c: SweepCalls, gone: set<Id>)
    requires SweepFits(w, c, gone) && c.regions.Some?
    ensures Truthful(w, c, c.regions.value, AllFound(c))
    ensures Complete(w, c, c.regions.value, AllFound(c), gone)
  {
    FoundIsTrue(w, c, gone, |c.regions.value|);
    assert c.regions.value[..|c.regions.value|] == c.regions.value;
  }

  lemma {:induction false} FilterDistinct(s: seq<Instance>, p: Instance -> bool)
    requires DistinctIds(s)
    ensures DistinctIds(Filter(s, p))
  {
    if s != [] {
      var n := |s| - 1;
      FilterDistinct(s[..n], p);
      var rest := Filter(s[..n], p);
      forall i | 0 <= i < |rest|
        ensures rest[i].id != s[n].id
      {
        assert rest[i] in s[..n];
      }
    }
  }

  // ---- the kept node and the extra ones ----

  lemma KeptAndExtras(s: seq<Instance>)
    requires Orderable(s) && DistinctIds(s)
    ensures multiset(s) == multiset(Kept(s)) + multiset(Extras(s))
    ensures |Kept(s)| == (if s == [] then 0 else 1)
    ensures forall x :: x in Extras(s) ==> Dated(s) && x in s
    ensures forall k, x :: k in Kept(s) && x in Extras(s) ==> k.id != x.id && Time(k) >= Time(x)
    ensures DistinctIds(Extras(s))
  {
    hide Time, LaunchSecond, Ordered;
    if s != [] {
      var ordered := Ordered(s);
      OrderedFacts(s);
      MultisetElements(ordered, s);
      assert ordered == ordered[..1] + ordered[1..];
      assert ordered[..1] == Kept(s) && ordered[1..] == Extras(s);
      forall k, x | k in Kept(s) && x in Extras(s)
        ensures k.id != x.id && Time(k) >= Time(x)
      {
        var j :| 0 <= j < |Extras(s)| && Extras(s)[j] == x;
        assert ordered[1 + j] == x && k == ordered[0];
      }
    }
  }

  lemma OrderedFacts(s: seq<Instance>)
    ensures multiset(Ordered(s)) == multiset(s) && NewestFirstOrder(Ordered(s))
  {
    hide Time, Insert, NewestFirst;
    if |s| > 1 {
      var _ := NewestFirstIsSorted(s);
    }
  }

  lemma {:induction false} KillsAre(s: seq<Instance>, terminate: Id -> Outcome)
    ensures forall e :: e in Kills(s, terminate) <==>
              e.Kill? && e.id in Ids(s) && terminate(e.id) != Refused
  {
    if s != [] {
      var n := |s| - 1;
      KillsAre(s[..n], terminate);
      assert s == s[..n] + [s[n]];
      IdsOfConcat(s[..n], [s[n]]);
      assert Ids([s[n]]) == {s[n].id};
    }
  }

  // ---- the effects of a sweep, one by one ----

  ghost predicate IsDoomed(c: SweepCalls, id: Id)
    requires c.regions.Some?
  {
    id in Ids(Doomed(AllFound(c), c.now))
  }

  ghost function Alive(c: SweepCalls): seq<Instance>
    requires c.regions.Some?
  {
    Survivors(AllFound(c), c.now)
  }

  ghost predicate AlertsOn(c: SweepCalls, x: Instance) {
    && c.running(x.id) && c.threshold.Some? && c.idleBytes(x.id).Some?
    && ShouldAlert(c.idleBytes(x.id).value, c.threshold.value, x.node.alerted, c.now, x.node.launched)
  }

  ghost function WantedSlot(slot: Slot, c: SweepCalls): Option<Slot>
    requires c.regions.Some?
  {
    if Readable(slot, c.pointerRead) && Orderable(Alive(c)) then
      Wanted(slot, Kept(Alive(c)), ScanFailures(c.regions.value, c) == [])
    else None
  }

  lemma SweepEffectsAre(slot: Slot, c: SweepCalls)
    requires 0 <= c.now < END_OF_TIME && c.regions.Some?
    ensures var es := Sweep(slot, c).effects;
      && (forall e :: e in es && e.Kill? ==>
            (IsDoomed(c, e.id) || e.id in Ids(Extras(Alive(c)))) && c.terminate(e.id) != Refused)
      && (forall id :: (IsDoomed(c, id) || id in Ids(Extras(Alive(c)))) && c.terminate(id) != Refused
            ==> Kill(id) in es)
      && (forall e :: e in es && e.Stamp? <==>
            Kept(Alive(c)) != [] && AlertsOn(c, Kept(Alive(c))[0]) && c.stamp != Refused
            && e == Stamp(Kept(Alive(c))[0].id, Rfc3339(c.now)))
      && (forall e :: e in es && e.Put? <==> c.put != Refused && WantedSlot(slot, c).Some? && e == Put(WantedSlot(slot, c).value))
      && Quiet(es)
  {
    hide Kills, Ordered, Orderable, Kept, Extras, Doomed, Survivors, Found, ShouldAlert, Rfc3339, Wanted, ScanFailures;
    KillsAre(Doomed(AllFound(c), c.now), c.terminate);
    KillsAre(Extras(Alive(c)), c.terminate);
  }
}
