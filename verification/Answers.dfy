/** When `up`, `down` and `status` answer what, and what they do then, said in terms of the request
    and of how its calls go. */
module Answers {
  import opened Wrappers
  import opened Calendar
  import opened Ttl
  import opened Fleet
  import opened Handler

  // ---- up ----

  // The region that the request names, or else the default one.
  ghost predicate WantsRegion(req: UpRequest, c: UpCalls, r: Region) {
    req.region == Some(r) || (req.region == None && c.defaultRegion == Some(r))
  }

  // The TTL that the request names, or else the default one.
  ghost predicate WantsTtl(req: UpRequest, c: UpCalls, ttl: TtlArg) {
    (req.ttl == ttl && ttl != Missing) || (req.ttl == Missing && c.defaultTtl == Some(ttl))
  }

  // The pointer could be read, and leads to no node.
  ghost predicate NothingTracked(slot: Slot, c: UpCalls) {
    c.pointerRead && (slot == Empty || (slot.Names? && c.tracked == Some([])))
  }

  // The region is listed, the TTL is accepted, and DescribeInstances has answered there.
  ghost predicate Looks(slot: Slot, c: UpCalls, r: Region, ttl: TtlArg)
    requires InTime(c.now)
  {
    && NothingTracked(slot, c) && c.regions.Some? && r in c.regions.value
    && ParseTtl(ttl, c.now).Success? && c.found.Some?
  }

  // Everything that must work before RunInstances is called, and nothing that stands in its way.
  ghost predicate MayLaunch(slot: Slot, c: UpCalls, r: Region, ttl: TtlArg)
    requires InTime(c.now)
  {
    && Looks(slot, c, r, ttl) && c.found == Some([])
    && c.ready && c.look.clientId.Some? && c.look.clientSecret.Some? && c.minted
  }

  ghost function TaggedNode(c: UpCalls, r: Region, ttl: TtlArg): Node
    requires InTime(c.now) && ParseTtl(ttl, c.now).Success?
  {
    Node.Node(r, Some(Rfc3339(c.now)), Some(ParseTtl(ttl, c.now).value), None)
  }

  /** With a region, requested or by default, and a TTL, requested or by default: `up` launches
      exactly if everything before works and nothing is found. Then it stores the pointer, and a
      success all the way is answered with the new node. */
  lemma UpLaunchesAndAnswers(slot: Slot, req: UpRequest, c: UpCalls, r: Region, ttl: TtlArg)
    requires InTime(c.now) && WantsRegion(req, c, r) && WantsTtl(req, c, ttl)
    ensures (exists e :: e in Up(slot, req, c).0 && e.Launch?) <==> MayLaunch(slot, c, r, ttl) && c.run != Refused
    ensures MayLaunch(slot, c, r, ttl) && c.run == Refused ==> Up(slot, req, c) == ([], Failed)
    ensures MayLaunch(slot, c, r, ttl) && c.run == Lost ==>
              Up(slot, req, c) == ([Launch(c.id, TaggedNode(c, r, ttl))], Failed)
    ensures MayLaunch(slot, c, r, ttl) && c.run == Done && c.put == Refused ==>
              Up(slot, req, c) == ([Launch(c.id, TaggedNode(c, r, ttl))], Failed)
    ensures MayLaunch(slot, c, r, ttl) && c.run == Done && c.put == Lost ==>
              Up(slot, req, c) == ([Launch(c.id, TaggedNode(c, r, ttl)), Put(Names(r, c.id))], Failed)
    ensures MayLaunch(slot, c, r, ttl) && c.run == Done && c.put == Done ==>
              Up(slot, req, c)
              == ([Launch(c.id, TaggedNode(c, r, ttl)), Put(Names(r, c.id))], Response.Node(c.id, Unknown, None))
  {
    hide ParseTtl, Rfc3339, Describe, LaunchIn, TaggedNode;
    DescribeEmptyExactly(c.tracked, if slot.Names? then slot.id else "", c.look);
    if Looks(slot, c, r, ttl) && c.found.value == [] {
      assert Up(slot, req, c) == LaunchIn(r, ParseTtl(ttl, c.now).value, c);
      LaunchInExactly(r, c, ttl);
    }
  }

  lemma LaunchInExactly(r: Region, c: UpCalls, ttl: TtlArg)
    requires InTime(c.now) && ParseTtl(ttl, c.now).Success?
    ensures var (es, answer) := LaunchIn(r, ParseTtl(ttl, c.now).value, c);
      var launch, put := Launch(c.id, TaggedNode(c, r, ttl)), Put(Names(r, c.id));
      if !(c.ready && c.look.clientId.Some? && c.look.clientSecret.Some? && c.minted) || c.run == Refused then
        es == [] && answer == Failed
      else
        && es != [] && es[0] in es && es[0] == launch
        && (if c.run == Lost || c.put == Refused then es == [launch] else es == [launch, put])
        && answer == if c.run == Done && c.put == Done then Response.Node(c.id, Unknown, None) else Failed
  {
    hide ParseTtl, Rfc3339;
  }

  /** Without a region or without a TTL nothing is launched. */
  lemma UpNeedsItsInputs(slot: Slot, req: UpRequest, c: UpCalls)
    requires InTime(c.now)
    requires (req.region == None && c.defaultRegion == None) || (req.ttl == Missing && c.defaultTtl == None)
    ensures Up(slot, req, c).0 == []
    ensures NothingTracked(slot, c) && req.region == None && c.defaultRegion == None ==> Up(slot, req, c).1 == Failed
  {
    hide ParseTtl, Rfc3339, Describe;
    DescribeEmptyExactly(c.tracked, if slot.Names? then slot.id else "", c.look);
  }

  /** A node found in the region is adopted: the pointer is stored, and the node described. */
  lemma UpAdopts(slot: Slot, req: UpRequest, c: UpCalls, r: Region, ttl: TtlArg)
    requires InTime(c.now) && WantsRegion(req, c, r) && WantsTtl(req, c, ttl)
    requires Looks(slot, c, r, ttl) && c.found.value != []
    ensures var x := c.found.value[0];
      && (c.put == Done ==> Up(slot, req, c) == ([Put(Names(r, x.id))], Describe(c.again, x.id, c.look)))
      && (c.put == Lost ==> Up(slot, req, c) == ([Put(Names(r, x.id))], Failed))
      && (c.put == Refused ==> Up(slot, req, c) == ([], Failed))
  {
    hide ParseTtl, Rfc3339, Describe;
    DescribeEmptyExactly(c.tracked, if slot.Names? then slot.id else "", c.look);
  }

  /** A tracked node, or a pointer or region that cannot be read, ends `up` before it starts. */
  lemma UpStopsAtThePointer(slot: Slot, req: UpRequest, c: UpCalls)
    requires InTime(c.now)
    ensures !c.pointerRead || slot.Garbled? ==> Up(slot, req, c) == ([], Failed)
    ensures c.pointerRead && slot.Names? && c.tracked != Some([]) ==>
              Up(slot, req, c) == ([], Describe(c.tracked, slot.id, c.look))
  {
    hide Describe, UpUntracked;
    DescribeEmptyExactly(c.tracked, if slot.Names? then slot.id else "", c.look);
  }

  /** `up` is refused as malformed exactly for an unlisted region or a TTL that is not accepted. */
  lemma UpRefusesExactly(slot: Slot, req: UpRequest, c: UpCalls, r: Region)
    requires InTime(c.now) && WantsRegion(req, c, r)
    ensures Up(slot, req, c).1 == BadRequest
       <==> && NothingTracked(slot, c) && c.regions.Some?
            && (r !in c.regions.value || exists ttl :: WantsTtl(req, c, ttl) && ParseTtl(ttl, c.now).Failure?)
    ensures Up(slot, req, c).1 == BadRequest ==> Up(slot, req, c).0 == []
  {
    hide ParseTtl, Rfc3339, IdleFor, Selected;
  }

  /** Everything else fails and changes nothing. */
  lemma UpOtherwiseFails(slot: Slot, req: UpRequest, c: UpCalls, r: Region, ttl: TtlArg)
    requires InTime(c.now) && WantsRegion(req, c, r) && WantsTtl(req, c, ttl) && NothingTracked(slot, c)
    requires c.regions.None? || (r in c.regions.value && ParseTtl(ttl, c.now).Success?)
    requires !MayLaunch(slot, c, r, ttl) && !(Looks(slot, c, r, ttl) && c.found.value != [])
    ensures Up(slot, req, c) == ([], Failed)
  {
    hide ParseTtl, Rfc3339, Describe;
    DescribeEmptyExactly(c.tracked, if slot.Names? then slot.id else "", c.look);
  }

  /** The Tailscale secrets are asked for exactly if a found node is to be described or a launch is
      ready for its key. */
  lemma UpNeedsTokenExactly(slot: Slot, req: UpRequest, c: UpCalls, r: Region, ttl: TtlArg)
    requires InTime(c.now) && WantsRegion(req, c, r) && WantsTtl(req, c, ttl)
    ensures UpNeedsToken(slot, req, c)
       <==> || (c.pointerRead && slot.Names? && c.tracked.Some? && c.tracked.value != [])
            || (Looks(slot, c, r, ttl) && c.found.value == [] && c.ready)
            || (Looks(slot, c, r, ttl) && c.found.value != [] && c.put == Done && c.again.Some? && c.again.value != [])
  {
    hide ParseTtl, Rfc3339;
  }

  // ---- describing ----

  lemma DescribeEmptyExactly(seen: Option<seq<Instance>>, id: Id, l: Lookups)
    ensures Describe(seen, id, l) == Absent <==> seen == Some([])
    ensures seen == None ==> Describe(seen, id, l) == Failed
    ensures Describe(seen, id, l) != BadRequest
  {
    hide IdleFor, Selected;
  }

  /** `status` says "absent" for no pointer, describes where a pointer leads, and fails without
      reading anything else if it cannot tell. */
  lemma StatusExactly(slot: Slot, c: StatusCalls)
    ensures !c.pointerRead || slot.Garbled? ==> Status(slot, c) == Failed
    ensures c.pointerRead && slot == Empty ==> Status(slot, c) == Absent
    ensures c.pointerRead && slot.Names? ==> Status(slot, c) == Describe(c.tracked, slot.id, c.look)
    ensures StatusNeedsToken(slot, c) <==> c.pointerRead && slot.Names? && c.tracked.Some? && c.tracked.value != []
  {
    hide Describe;
  }

  // ---- down ----

  // The pointer could be read, the region is known, and DescribeInstances has answered there.
  ghost predicate DownLooks(slot: Slot, c: DownCalls) {
    && c.pointerRead && c.found.Some?
    && (slot.Names? || (slot == Empty && c.defaultRegion.Some?))
  }

  /** `down` looks where the pointer leads, or else in the default region. */
  lemma ConsultedExactly(slot: Slot, c: DownCalls)
    ensures slot.Names? ==> Consulted(slot, c) == Some(slot.region)
    ensures slot == Empty ==> Consulted(slot, c) == c.defaultRegion
  {
  }

  // `k` is the first node found whose terminate call raises, or the number of nodes found.
  ghost predicate RaisesAt(found: seq<Instance>, terminate: Id -> Outcome, k: nat) {
    && k <= |found| && (forall i :: 0 <= i < k ==> terminate(found[i].id) == Done)
    && (k < |found| ==> terminate(found[k].id) != Done)
  }

  ghost function KillsOf(s: seq<Instance>): seq<Effect> {
    seq(|s|, i requires 0 <= i < |s| => Kill(s[i].id))
  }

  lemma {:induction false} AllTerminate(found: seq<Instance>, terminate: Id -> Outcome)
    requires forall i :: 0 <= i < |found| ==> terminate(found[i].id) == Done
    ensures Terminations(found, terminate) == (KillsOf(found), true)
  {
    if found != [] {
      var n := |found| - 1;
      AllTerminate(found[..n], terminate);
      assert KillsOf(found) == KillsOf(found[..n]) + [Kill(found[n].id)];
    }
  }

  lemma {:induction false} OneRaises(found: seq<Instance>, terminate: Id -> Outcome, k: nat)
    requires RaisesAt(found, terminate, k) && k < |found|
    ensures Terminations(found, terminate)
         == (KillsOf(found[..k]) + if terminate(found[k].id) == Lost then [Kill(found[k].id)] else [], false)
  {
    var n := |found| - 1;
    if k == n {
      AllTerminate(found[..n], terminate);
    } else {
      OneRaises(found[..n], terminate, k);
      assert found[..n][..k] == found[..k];
    }
  }

  /** What `down` does: it terminates the nodes found in order, up to the first call that raises,
      and clears the pointer, if there is one, once all have returned. */
  lemma DownDoesExactly(slot: Slot, c: DownCalls, k: nat)
    requires DownLooks(slot, c) ==> RaisesAt(c.found.value, c.terminate, k)
    ensures !DownLooks(slot, c) ==> Down(slot, c) == ([], Failed)
    ensures DownLooks(slot, c) && k < |c.found.value| ==>
              Down(slot, c)
              == (KillsOf(c.found.value[..k])
                  + (if c.terminate(c.found.value[k].id) == Lost then [Kill(c.found.value[k].id)] else []), Failed)
    ensures DownLooks(slot, c) && k == |c.found.value| && slot == Empty ==>
              Down(slot, c) == (KillsOf(c.found.value), Absent)
    ensures DownLooks(slot, c) && k == |c.found.value| && slot.Names? && c.put == Done ==>
              Down(slot, c) == (KillsOf(c.found.value) + [Put(Empty)], Absent)
    ensures DownLooks(slot, c) && k == |c.found.value| && slot.Names? && c.put == Lost ==>
              Down(slot, c) == (KillsOf(c.found.value) + [Put(Empty)], Failed)
    ensures DownLooks(slot, c) && k == |c.found.value| && slot.Names? && c.put == Refused ==>
              Down(slot, c) == (KillsOf(c.found.value), Failed)
  {
    hide Terminations, KillsOf;
    if DownLooks(slot, c) {
      if k == |c.found.value| {
        AllTerminate(c.found.value, c.terminate);
        assert KillsOf(c.found.value) + [] == KillsOf(c.found.value);
      } else {
        OneRaises(c.found.value, c.terminate, k);
      }
    }
  }

  lemma {:induction false} FirstRaise(found: seq<Instance>, terminate: Id -> Outcome) returns (k: nat)
    ensures RaisesAt(found, terminate, k)
    ensures k == |found| <==> forall x :: x in found ==> terminate(x.id) == Done
  {
    if found == [] {
      k := 0;
    } else {
      var n := |found| - 1;
      k := FirstRaise(found[..n], terminate);
      assert found == found[..n] + [found[n]];
      if k == n && terminate(found[n].id) == Done {
        k := n + 1;
      }
    }
  }

  /** `down` answers "absent" exactly if it could look, every node found was terminated, and the
      pointer, if there is one, was cleared. */
  lemma DownAnswersAbsentExactly(slot: Slot, c: DownCalls)
    ensures Down(slot, c).1 == Absent
       <==> && c.pointerRead && !slot.Garbled?
            && (slot.Names? || c.defaultRegion.Some?)
            && c.found.Some? && (forall x :: x in c.found.value ==> c.terminate(x.id) == Done)
            && (slot.Names? ==> c.put == Done)
    ensures Down(slot, c).1 == Absent || Down(slot, c).1 == Failed
  {
    hide Down, KillsOf;
    var k := 0;
    if DownLooks(slot, c) {
      k := FirstRaise(c.found.value, c.terminate);
    }
    DownDoesExactly(slot, c, k);
  }
}
