/**
  The state the control plane acts on: the live exit nodes of every region, and the SSM slot
  that names the tracked one. Each AWS call that changes it is one effect; an action is a list
  of effects, and an action that dies part-way has done a prefix of its list.
 */
module Fleet {
  import opened Wrappers

  type Region = string
  type Id = string

  // A live instance and the tags that the control plane reads.
  datatype Node = Node(region: Region, launched: Option<string>, expires: Option<string>, alerted: Option<string>)

  // The parameter's text: "none" or missing, a well-formed pointer, or anything else.
  datatype Slot = Empty | Names(region: Region, id: Id) | Garbled

  // `born` remembers where every instance was created, dead ones included; no code reads it.
  datatype World = World(live: map<Id, Node>, born: map<Id, Region>, slot: Slot)

  datatype Effect =
    | Launch(id: Id, node: Node)
    | Kill(id: Id)
    | Stamp(id: Id, at: string)
    | Put(slot: Slot)

  // A call that changes something may also take effect although the caller sees an error.
  datatype Outcome = Done | Refused | Lost

  function Apply(w: World, e: Effect): World {
    match e
    case Launch(id, node) => w.(live := w.live[id := node], born := w.born[id := node.region])
    case Kill(id) => w.(live := w.live - {id})
    case Stamp(id, at) =>
      if id in w.live then w.(live := w.live[id := w.live[id].(alerted := Some(at))]) else w
    case Put(slot) => w.(slot := slot)
  }

  function Replay(w: World, es: seq<Effect>): World {
    if es == [] then w else Apply(Replay(w, es[..|es| - 1]), es[|es| - 1])
  }

  // What the caller's effect amounts to, given how the call went.
  function Attempt(e: Effect, o: Outcome): seq<Effect> { if o.Refused? then [] else [e] }

  // Instances end on their own: a node that shuts itself down terminates.
  function Vanish(w: World, gone: set<Id>): World { w.(live := w.live - gone) }

  lemma {:induction false} ReplayConcat(w: World, a: seq<Effect>, b: seq<Effect>)
    ensures Replay(w, a + b) == Replay(Replay(w, a), b)
  {
    if b == [] {
      assert a + b == a;
    } else {
      ReplayConcat(w, a, b[..|b| - 1]);
      assert (a + b)[..|a + b| - 1] == a + b[..|b| - 1];
    }
  }

  /** Ending early or ending late comes to the same: the effects in between only concern others. */
  lemma {:induction false} VanishEarlier(w: World, es: seq<Effect>, early: set<Id>, gone: set<Id>)
    requires early <= gone
    ensures Vanish(Replay(Vanish(w, early), es), gone) == Vanish(Replay(w, es), gone)
  {
    if es != [] {
      var before, e := es[..|es| - 1], es[|es| - 1];
      VanishEarlier(w, before, early, gone);
      VanishThenApply(Replay(Vanish(w, early), before), Replay(w, before), e, gone);
    }
  }

  lemma VanishThenApply(a: World, b: World, e: Effect, gone: set<Id>)
    requires Vanish(a, gone) == Vanish(b, gone)
    ensures Vanish(Apply(a, e), gone) == Vanish(Apply(b, e), gone)
  {
    forall id | id !in gone
      ensures id in Apply(a, e).live <==> id in Apply(b, e).live
      ensures id in Apply(a, e).live ==> Apply(a, e).live[id] == Apply(b, e).live[id]
    {
      SameElsewhere(a, b, gone, id);
    }
    hide Apply;
    assert Vanish(Apply(a, e), gone).live == Vanish(Apply(b, e), gone).live;
    SameRest(a, b, e, gone);
  }

  lemma SameElsewhere(a: World, b: World, gone: set<Id>, id: Id)
    requires Vanish(a, gone) == Vanish(b, gone) && id !in gone
    ensures id in a.live <==> id in b.live
    ensures id in a.live ==> a.live[id] == b.live[id]
  {
    var x, y := Vanish(a, gone).live, Vanish(b, gone).live;
    assert id in x <==> id in y;
    assert id in x ==> x[id] == y[id];
  }

  lemma SameRest(a: World, b: World, e: Effect, gone: set<Id>)
    requires Vanish(a, gone) == Vanish(b, gone)
    ensures Apply(a, e).born == Apply(b, e).born && Apply(a, e).slot == Apply(b, e).slot
  {
  }

  function Killed(es: seq<Effect>): set<Id> { set e | e in es && e.Kill? :: e.id }

  // ---- what a DescribeInstances call returns ----

  datatype Instance = Instance(id: Id, node: Node)

  function Ids(s: seq<Instance>): set<Id> { set i | 0 <= i < |s| :: s[i].id }

  predicate DistinctIds(s: seq<Instance>) {
    forall i, j :: 0 <= i < j < |s| ==> s[i].id != s[j].id
  }

  lemma IdAbsent(s: seq<Instance>, id: Id)
    requires forall x :: x in s ==> x.id != id
    ensures id !in Ids(s)
  {
  }

  // The call lists live nodes of its region, each once and as they are. What it misses has
  // ended before the call returned, so it is among the `gone`.
  ghost predicate Sees(w: World, region: Region, seen: seq<Instance>, gone: set<Id>) {
    && DistinctIds(seen)
    && (forall x :: x in seen ==> x.id in w.live && w.live[x.id] == x.node && x.node.region == region)
    && (forall id :: id in w.live && w.live[id].region == region ==> id in Ids(seen) || id in gone)
  }

  function Filter(s: seq<Instance>, p: Instance -> bool): (r: seq<Instance>)
    ensures forall x :: x in r <==> x in s && p(x)
  {
    if s == [] then []
    else
      var rest, last := Filter(s[..|s| - 1], p), s[|s| - 1];
      assert s == s[..|s| - 1] + [last];
      if p(last) then rest + [last] else rest
  }

  lemma {:induction false} FilterSplits(s: seq<Instance>, p: Instance -> bool)
    ensures multiset(s) == multiset(Filter(s, p)) + multiset(Filter(s, x => !p(x)))
  {
    if s != [] {
      var n := |s| - 1;
      FilterSplits(s[..n], p);
      assert s == s[..n] + [s[n]];
    }
  }

  // ---- effects that launch nothing ----

  predicate Quiet(es: seq<Effect>) { forall e :: e in es ==> !e.Launch? }

  // The same node up to its last-alert tag.
  predicate SameNode(a: Node, b: Node) { a.(alerted := None) == b.(alerted := None) }

  lemma {:induction false} QuietLive(w: World, es: seq<Effect>)
    requires Quiet(es)
    ensures Replay(w, es).born == w.born
    ensures Replay(w, es).live.Keys == w.live.Keys - Killed(es)
    ensures forall id :: id in Replay(w, es).live ==> SameNode(Replay(w, es).live[id], w.live[id])
  {
    if es != [] {
      var n := |es| - 1;
      var before, e := es[..n], es[n];
      assert es == before + [e];
      QuietLive(w, before);
      assert Killed(es) == Killed(before) + Killed([e]);
      assert Killed([e]) == if e.Kill? then {e.id} else {} by {
        assert forall x :: x in [e] <==> x == e;
      }
    }
  }

  lemma {:induction false} QuietTags(w: World, es: seq<Effect>, id: Id)
    requires Quiet(es) && forall at :: Stamp(id, at) !in es
    ensures id in Replay(w, es).live ==> id in w.live && Replay(w, es).live[id] == w.live[id]
  {
    if es != [] {
      var n := |es| - 1;
      var before, e := es[..n], es[n];
      assert es == before + [e];
      QuietTags(w, before, id);
    }
  }

  lemma {:induction false} LastPut(w: World, es: seq<Effect>)
    ensures Replay(w, es).slot == w.slot || Put(Replay(w, es).slot) in es
    ensures (exists s :: Put(s) in es) ==> Put(Replay(w, es).slot) in es
    ensures (forall s :: Put(s) !in es) ==> Replay(w, es).slot == w.slot
  {
    if es != [] {
      var n := |es| - 1;
      var before, e := es[..n], es[n];
      assert es == before + [e];
      LastPut(w, before);
    }
  }

  /** Without a launch, nodes only disappear, and keep every tag but the last-alert one. */
  lemma QuietReplay(w: World, es: seq<Effect>)
    requires Quiet(es)
    ensures var w' := Replay(w, es);
      && w'.born == w.born
      && w'.live.Keys == w.live.Keys - Killed(es)
      && (forall id :: id in w'.live ==> SameNode(w'.live[id], w.live[id]))
      && (forall id :: id in w'.live && (forall at :: Stamp(id, at) !in es) ==> w'.live[id] == w.live[id])
      && (w'.slot == w.slot || Put(w'.slot) in es)
      && ((exists s :: Put(s) in es) ==> Put(w'.slot) in es)
      && ((forall s :: Put(s) !in es) ==> w'.slot == w.slot)
  {
    hide Replay, Killed;
    QuietLive(w, es);
    LastPut(w, es);
    forall id | id in Replay(w, es).live && (forall at :: Stamp(id, at) !in es)
      ensures Replay(w, es).live[id] == w.live[id]
    {
      QuietTags(w, es, id);
    }
  }

  lemma KilledIsDead(w: World, es: seq<Effect>, id: Id)
    requires Quiet(es) && Kill(id) in es
    ensures id !in Replay(w, es).live
  {
    QuietReplay(w, es);
    assert Kill(id).id in Killed(es);
  }
}
