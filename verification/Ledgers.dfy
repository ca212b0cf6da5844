/** When and for how long every node of a run was launched, and what its tags therefore say. */
module Ledgers {
  import opened Wrappers
  import opened Calendar
  import opened Ttl
  import opened Fleet
  import opened Handler
  import opened Watchdog
  import opened SweepProperties
  import opened SweepTheorems
  import opened Runs
  import opened Retry

  // The instant at which `up` read its clock, and the TTL it accepted.
  datatype Launching = Launching(at: Micros, ttl: TtlArg)

  type Ledger = map<Id, Launching>

  ghost function Recorded(w: World, s: Step, ledger: Ledger): Ledger {
    if s.UpStep? && !Quiet(Performed(w, s)) && Lifetime(s.req, s.up).Some? then
      ledger[s.up.id := Launching(s.up.now, Lifetime(s.req, s.up).value)]
    else ledger
  }

  ghost function LedgerAfter(w: World, run: seq<Step>, ledger: Ledger): Ledger
    decreases |run|
  {
    if |run| == 0 then ledger else LedgerAfter(Next(w, run[0]), run[1..], Recorded(w, run[0], ledger))
  }

  ghost predicate Tagged(node: Node, l: Launching) {
    && InTime(l.at) && ParseTtl(l.ttl, l.at).Success?
    && node.launched == Some(Rfc3339(l.at)) && node.expires == Some(ParseTtl(l.ttl, l.at).value)
  }

  // Every live node is in a listed region and carries the tags of its own launch.
  ghost predicate TagsAreTrue(w: World, ledger: Ledger, listed: set<Region>) {
    forall id :: id in w.live ==> w.live[id].region in listed && id in ledger && Tagged(w.live[id], ledger[id])
  }

  lemma UpTagsItsNode(w: World, s: Step, node: Node)
    requires s.UpStep? && InTime(s.up.now) && Launch(s.up.id, node) in Effects(w, s)
    ensures Lifetime(s.req, s.up).Some? && Tagged(node, Launching(s.up.now, Lifetime(s.req, s.up).value))
  {
    hide ParseTtl, Rfc3339, Describe;
  }

  lemma SameTags(a: Node, b: Node, l: Launching)
    requires SameNode(a, b) && Tagged(b, l)
    ensures Tagged(a, l) && a.region == b.region
  {
    hide ParseTtl, Rfc3339;
  }

  lemma TrueTagsStep(w: World, s: Step, ledger: Ledger, listed: set<Region>)
    requires Fits(w, s, listed) && TagsAreTrue(w, ledger, listed)
    ensures TagsAreTrue(Next(w, s), Recorded(w, s, ledger), listed)
  {
    hide Performed, Next, Fits, TagsAreTrue;
    QuietUnlessUp(w, s, listed);
    if Quiet(Performed(w, s)) {
      QuietStep(w, s, listed);
      TrueTagsStay(w, Next(w, s), ledger, listed);
    } else {
      LaunchedWorld(w, s, listed);
      var node :| Launches(w, s, node);
      TrueTagsAdded(w, s, node, ledger, listed);
    }
  }

  lemma TrueTagsStay(w: World, w': World, ledger: Ledger, listed: set<Region>)
    requires TagsAreTrue(w, ledger, listed)
    requires forall id :: id in w'.live ==> id in w.live && SameNode(w'.live[id], w.live[id])
    ensures TagsAreTrue(w', ledger, listed)
  {
    hide Tagged, SameNode;
    forall id | id in w'.live
      ensures w'.live[id].region in listed && id in ledger && Tagged(w'.live[id], ledger[id])
    {
      SameTags(w'.live[id], w.live[id], ledger[id]);
    }
  }

  lemma TrueTagsAdded(w: World, s: Step, node: Node, ledger: Ledger, listed: set<Region>)
    requires s.UpStep? && Fits(w, s, listed) && TagsAreTrue(w, ledger, listed)
    requires !Quiet(Performed(w, s)) && Launches(w, s, node)
    ensures TagsAreTrue(Next(w, s), Recorded(w, s, ledger), listed)
  {
    hide Performed, Effects, Tagged, Next;
    PerformedIsPrefix(w, s);
    UpTagsItsNode(w, s, node);
  }

  lemma TagsTell(node: Node, l: Launching)
    requires Tagged(node, l)
    ensures LaunchSecond(node) == Some(l.at / SECOND)
    ensures Expiry(node) == ParseTtl(l.ttl, l.at).value
  {
    hide ParseTtl;
    Rfc3339Parses(l.at);
    ExpiryOf(node, l.ttl, l.at);
  }

  /** In every reachable state each live node is in a listed region, its launch tag parses back to
      the second of its own launch, and its expiry tag is that of the TTL accepted then. */
  lemma {:induction false} TrueTagsAlways(w: World, run: seq<Step>, ledger: Ledger, listed: set<Region>)
    requires RunFits(w, run, listed) && TagsAreTrue(w, ledger, listed)
    ensures TagsAreTrue(Final(w, run), LedgerAfter(w, run, ledger), listed)
    ensures var w', l := Final(w, run), LedgerAfter(w, run, ledger);
      forall id :: id in w'.live ==> LaunchSecond(w'.live[id]) == Some(l[id].at / SECOND)
    decreases |run|
  {
    hide Next, Fits, Recorded, Tagged, LaunchSecond;
    if |run| > 0 {
      TrueTagsStep(w, run[0], ledger, listed);
      TrueTagsAlways(Next(w, run[0]), run[1..], Recorded(w, run[0], ledger), listed);
    } else {
      forall id | id in w.live
        ensures LaunchSecond(w.live[id]) == Some(ledger[id].at / SECOND)
      {
        TagsTell(w.live[id], ledger[id]);
      }
    }
  }

  /** So the node that a sweep keeps really is the one launched last, to the second, of the
      unexpired nodes it sees, after any run. */
  lemma KeptWasLaunchedLast(w: World, run: seq<Step>, ledger: Ledger, listed: set<Region>, c: SweepCalls,
                            gone: set<Id>, x: Instance, y: Instance)
    requires RunFits(w, run, listed) && TagsAreTrue(w, ledger, listed)
    requires SweepFits(Final(w, run), c, gone) && c.regions.Some? && IsChosen(c, x) && y in Alive(c)
    ensures var l := LedgerAfter(w, run, ledger);
      x.id in l && y.id in l && l[x.id].at / SECOND >= l[y.id].at / SECOND
  {
    hide Final, RunFits, TagsAreTrue, IsChosen, LaunchSecond, SweepFits, Alive;
    var w', l := Final(w, run), LedgerAfter(w, run, ledger);
    TrueTagsAlways(w, run, ledger, listed);
    NewestChosen(c, x, y);
    AliveIsLive(w', c, gone, x);
    AliveIsLive(w', c, gone, y);
    InLedger(w', l, listed, x.id);
    InLedger(w', l, listed, y.id);
  }

  lemma ChosenAt(c: SweepCalls, x: Instance) returns (k: nat)
    requires c.regions.Some? && IsChosen(c, x)
    ensures IsNewest(Alive(c), k) && k < |Alive(c)| && Alive(c)[k] == x
  {
    hide Time, Alive, Orderable;
    k :| IsNewest(Alive(c), k) && Alive(c)[k] == x;
  }

  lemma NewestChosen(c: SweepCalls, x: Instance, y: Instance)
    requires c.regions.Some? && IsChosen(c, x) && y in Alive(c)
    ensures x in Alive(c) && Time(x) >= Time(y)
  {
    hide Time, Alive, IsChosen, IsNewest;
    var k := ChosenAt(c, x);
    NewestOf(Alive(c), k, y);
  }

  lemma NewestOf(s: seq<Instance>, k: nat, y: Instance)
    requires IsNewest(s, k) && y in s
    ensures k < |s| && s[k] in s && Time(s[k]) >= Time(y)
  {
    hide Time;
    var i :| 0 <= i < |s| && s[i] == y;
  }

  lemma AliveIsLive(w: World, c: SweepCalls, gone: set<Id>, x: Instance)
    requires SweepFits(w, c, gone) && c.regions.Some? && x in Alive(c)
    ensures x.id in w.live && w.live[x.id] == x.node
  {
    hide Expired, Survivors, Found;
    SplitFound(w, c, gone);
  }

  lemma InLedger(w: World, l: Ledger, listed: set<Region>, id: Id)
    requires TagsAreTrue(w, l, listed) && id in w.live
    ensures id in l
  {
  }

  // The instant at which a node runs out, if it ever does.
  ghost function Deadline(l: Launching): Option<Micros>
    requires InTime(l.at) && ParseTtl(l.ttl, l.at).Success?
  {
    if ParseTtl(l.ttl, l.at).value == NEVER then None
    else
      TtlEndToEnd(l.ttl, l.at, 0);
      Some((l.at / SECOND + TtlSeconds(l.ttl.s)) * SECOND)
  }

  /** After any run, a sweep that sees a node reaps it exactly if the TTL accepted at its launch,
      counted from its launch second, has run out and the call succeeds; and then it is gone. */
  lemma ReapedAtItsTime(w: World, run: seq<Step>, ledger: Ledger, listed: set<Region>, s: Step, id: Id)
    requires RunFits(w, run, listed) && TagsAreTrue(w, ledger, listed)
    requires s.SweepStep? && Fits(Final(w, run), s, listed) && s.done >= |Effects(Final(w, run), s)|
    requires s.sweep.regions.Some? && id in Final(w, run).live && id in Ids(AllFound(s.sweep))
    ensures var w', l, c := Final(w, run), LedgerAfter(w, run, ledger), s.sweep;
      && id in l && InTime(l[id].at) && ParseTtl(l[id].ttl, l[id].at).Success?
      && (id in Sweep(w'.slot, c).reaped <==>
            c.terminate(id).Done? && Deadline(l[id]).Some? && c.now >= Deadline(l[id]).value)
      && (id in Sweep(w'.slot, c).reaped ==> id !in Next(w', s).live)
      && (Deadline(l[id]).Some? && c.now >= Deadline(l[id]).value && c.terminate(id) == Refused && id !in s.gone ==>
            id in Next(w', s).live)
  {
    hide Final, RunFits, Sweep, Found, Expired, ParseTtl, Fits, Next, Effects, Rfc3339;
    var w', l, c := Final(w, run), LedgerAfter(w, run, ledger), s.sweep;
    TrueTagsAlways(w, run, ledger, listed);
    InSweepTime(w', s, listed);
    TagsTell(w'.live[id], l[id]);
    TtlEndToEnd(l[id].ttl, l[id].at, c.now);
    ReapedIfExpired(w', c, s.gone, id);
    ExpiredBy(w'.live[id], l[id], c.now);
    WhatBecomesOf(w', s, listed, id);
  }

  lemma InSweepTime(w: World, s: Step, listed: set<Region>)
    requires s.SweepStep? && Fits(w, s, listed)
    ensures SweepFits(w, s.sweep, s.gone)
  {
  }

  lemma ExpiredBy(node: Node, l: Launching, now: Micros)
    requires Tagged(node, l)
    ensures Expired(node, now) <==> Deadline(l).Some? && now >= Deadline(l).value
  {
    hide ParseTtl, Rfc3339, IsExpired;
    TagsTell(node, l);
    TtlEndToEnd(l.ttl, l.at, now);
  }

  // What a completed sweep does to a node that it has seen and that is past its expiry.
  lemma WhatBecomesOf(w: World, s: Step, listed: set<Region>, id: Id)
    requires s.SweepStep? && Fits(w, s, listed) && s.done >= |Effects(w, s)|
    requires s.sweep.regions.Some? && id in w.live && id in Ids(AllFound(s.sweep))
    ensures Expired(w.live[id], s.sweep.now) && s.sweep.terminate(id) != Refused ==> id !in Next(w, s).live
    ensures s.sweep.terminate(id) == Refused && id !in s.gone ==> id in Next(w, s).live
  {
    hide Sweep, Found, Expired, Survivors, Doomed, Extras, Killed;
    var c, es := s.sweep, Effects(w, s);
    assert Performed(w, s) == es;
    QuietUnlessUp(w, s, listed);
    QuietReplay(w, es);
    SweepEffectsAre(w.slot, c);
    SplitFound(w, c, s.gone);
    NotKilledIfRefused(es, c, id);
    if Expired(w.live[id], c.now) && c.terminate(id) != Refused {
      var x := OneOf(AllFound(c), id);
      DoomedIfExpired(w, c, s.gone, x);
      KilledIsDead(w, es, id);
    }
  }

  lemma NotKilledIfRefused(es: seq<Effect>, c: SweepCalls, id: Id)
    requires forall e :: e in es && e.Kill? ==> c.terminate(e.id) != Refused
    ensures c.terminate(id) == Refused ==> id !in Killed(es)
  {
  }

  lemma DoomedIfExpired(w: World, c: SweepCalls, gone: set<Id>, x: Instance)
    requires SweepFits(w, c, gone) && c.regions.Some? && x in AllFound(c) && Expired(x.node, c.now)
    ensures IsDoomed(c, x.id)
  {
    hide Found, Expired;
    Present(Doomed(AllFound(c), c.now), x);
  }
}
