/** `_up`, `_down` and the pointer reads of lambda/shardvpn/handler.py, as lists of effects. */
module Handler {
  import opened Wrappers
  import opened Calendar
  import opened Ttl
  import opened Fleet
  import Idle

  // What the tailnet says of the node; Unknown if it could not be asked.
  datatype Tailnet = Unknown | Online | Offline

  datatype Response =
    | Node(id: Id, tailnet: Tailnet, idle: Option<nat>)
    | Absent
    | BadRequest
    | Failed

  // settings.py:76-97: only a missing parameter or "none" means that there is no node.
  predicate Readable(slot: Slot, readOk: bool) { readOk && !slot.Garbled? }

  function Find(nodes: seq<Instance>, id: Id): (r: Option<Instance>)
    ensures if id in Ids(nodes) then r.Some? && r.value in nodes && r.value.id == id else r.None?
  {
    if nodes == [] then None
    else
      assert Ids(nodes) == {nodes[0].id} + Ids(nodes[1..]) by { FirstId(nodes); }
      if nodes[0].id == id then Some(nodes[0]) else Find(nodes[1..], id)
  }

  lemma FirstId(nodes: seq<Instance>)
    requires nodes != []
    ensures Ids(nodes) == {nodes[0].id} + Ids(nodes[1..])
  {
    forall id | id in Ids(nodes)
      ensures id == nodes[0].id || id in Ids(nodes[1..])
    {
      var i :| 0 <= i < |nodes| && nodes[i].id == id;
      assert i > 0 ==> nodes[1..][i - 1].id == id;
    }
  }

  // handler.py:133-138
  function Selected(nodes: seq<Instance>, id: Id): (r: Instance)
    requires nodes != []
    ensures r in nodes
    ensures id in Ids(nodes) && id != "" ==> r.id == id
  {
    if id == "" then nodes[0] else Find(nodes, id).GetOr(nodes[0])
  }

  // ---- what is asked about a node, handler.py:117-178 ----

  const FRESH_NODE_SECONDS := 900

  // How find_device ends. A reply that is no JSON object raises something else than TailscaleError.
  datatype Device = Listed | NotListed | TailscaleError | OtherError

  // The answers of the two cached_secret calls, None if one raises; the tailnet; CloudWatch.
  datatype Lookups = Lookups(
    clientId: Option<string>,
    clientSecret: Option<string>,
    device: Device,
    now: Micros,
    running: Id -> bool,
    points: Id -> Option<seq<Idle.Point>>)

  predicate HasToken(l: Lookups) { l.clientId.Some? && l.clientSecret.Some? }

  // handler.py:141-152; None if the request fails.
  function AskTailnet(l: Lookups): Option<Tailnet> {
    if !HasToken(l) then None
    else match l.device
      case Listed => Some(Online)
      case NotListed => Some(Offline)
      case TailscaleError => Some(Unknown)
      case OtherError => None
  }

  // handler.py:154-161
  predicate Fresh(node: Node, now: Micros) {
    && node.launched.Some? && node.launched.value != "" && Parse(node.launched.value).Some?
    && now - Parse(node.launched.value).value * SECOND < FRESH_NODE_SECONDS * SECOND
  }

  // handler.py:163-176; whatever CloudWatch raises, the reading is merely missing.
  function IdleFor(x: Instance, l: Lookups): Option<nat> {
    if !l.running(x.id) || Fresh(x.node, l.now) then None
    else match l.points(x.id)
      case None => None
      case Some(points) => Idle.IdleReading(points, l.now, Idle.IDLE_BUCKET_FLOOR_BYTES)
  }

  // ---- up, handler.py:210-308 ----

  // The request's fields, with what JavaScript and Python treat as empty already dropped.
  datatype UpRequest = UpRequest(region: Option<Region>, ttl: TtlArg)

  // How every call of one `up` goes; None is a call that raises.
  datatype UpCalls = UpCalls(
    pointerRead: bool,
    tracked: Option<seq<Instance>>,
    look: Lookups,
    regions: Option<seq<Region>>,
    defaultRegion: Option<Region>,
    defaultTtl: Option<TtlArg>,
    now: Micros,
    found: Option<seq<Instance>>,
    again: Option<seq<Instance>>,
    ready: bool,
    minted: bool,
    id: Id,
    run: Outcome,
    put: Outcome)

  predicate InTime(now: Micros) { 0 <= now && now + MAX_TTL_SECONDS * SECOND < END_OF_TIME }

  function Target(req: UpRequest, c: UpCalls): Option<Region> {
    if req.region.Some? then req.region else c.defaultRegion
  }

  function Lifetime(req: UpRequest, c: UpCalls): Option<TtlArg> {
    if req.ttl != Missing then Some(req.ttl) else c.defaultTtl
  }

  function NewNode(region: Region, expires: string, now: Micros): Node
    requires InTime(now)
  {
    Node.Node(region, Some(Rfc3339(now)), Some(expires), None)
  }

  // What _describe finds in a region: the pointer's own node if it is there, else the first.
  function Describe(seen: Option<seq<Instance>>, id: Id, l: Lookups): Response {
    match seen
    case None => Failed
    case Some(nodes) =>
      if nodes == [] then Absent
      else match AskTailnet(l)
        case None => Failed
        case Some(tailnet) => Response.Node(Selected(nodes, id).id, tailnet, IdleFor(Selected(nodes, id), l))
  }

  // handler.py:266-272: image, type and security group, then the token, then the key.
  predicate Prepared(c: UpCalls) { c.ready && HasToken(c.look) && c.minted }

  // handler.py:217-308, once no tracked node stands in the way.
  function UpUntracked(req: UpRequest, c: UpCalls): (seq<Effect>, Response)
    requires InTime(c.now)
  {
    if c.regions.None? || Target(req, c).None? then ([], Failed)
    else if Target(req, c).value !in c.regions.value then ([], BadRequest)
    else if Lifetime(req, c).None? then ([], Failed)
    else
      var region := Target(req, c).value;
      match ParseTtl(Lifetime(req, c).value, c.now)
      case Failure(_) => ([], BadRequest)
      case Success(expires) =>
        if c.found.None? then ([], Failed)
        else if c.found.value != [] then Adopt(region, c)
        else LaunchIn(region, expires, c)
  }

  function Up(slot: Slot, req: UpRequest, c: UpCalls): (seq<Effect>, Response)
    requires InTime(c.now)
  {
    if !Readable(slot, c.pointerRead) then ([], Failed)
    else if slot.Names? && Describe(c.tracked, slot.id, c.look) != Absent then
      ([], Describe(c.tracked, slot.id, c.look))
    else UpUntracked(req, c)
  }

  // Whether `up` gets as far as asking for a Tailscale token: to describe a node that it found,
  // or to mint a key for a launch.
  predicate UpNeedsToken(slot: Slot, req: UpRequest, c: UpCalls)
    requires InTime(c.now)
  {
    if !Readable(slot, c.pointerRead) then false
    else if slot.Names? && c.tracked != Some([]) then c.tracked.Some?
    else UntrackedNeedsToken(req, c)
  }

  predicate UntrackedNeedsToken(req: UpRequest, c: UpCalls)
    requires InTime(c.now)
  {
    && c.regions.Some? && Target(req, c).Some? && Target(req, c).value in c.regions.value
    && Lifetime(req, c).Some? && ParseTtl(Lifetime(req, c).value, c.now).Success?
    && c.found.Some?
    && if c.found.value != [] then c.put.Done? && c.again.Some? && c.again.value != [] else c.ready
  }

  // handler.py:241-255: a node is already up in the target region; repair the pointer.
  function Adopt(region: Region, c: UpCalls): (seq<Effect>, Response)
    requires c.found.Some? && c.found.value != []
  {
    var id := c.found.value[0].id;
    (Attempt(Put(Names(region, id)), c.put),
     if c.put.Done? then Describe(c.again, id, c.look) else Failed)
  }

  // handler.py:257-308: nothing is up there; launch and store the pointer.
  function LaunchIn(region: Region, expires: string, c: UpCalls): (seq<Effect>, Response)
    requires InTime(c.now)
  {
    if !Prepared(c) then ([], Failed)
    else
      var launch := Attempt(Launch(c.id, NewNode(region, expires, c.now)), c.run);
      if !c.run.Done? then (launch, Failed)
      else
        (launch + Attempt(Put(Names(region, c.id)), c.put),
         if c.put.Done? then Response.Node(c.id, Unknown, None) else Failed)
  }

  // The calls tell the truth about `w`, of which the nodes `gone` end before `up` does.
  ghost predicate UpFits(w: World, req: UpRequest, c: UpCalls, gone: set<Id>) {
    && InTime(c.now)
    && c.id !in w.born
    && (w.slot.Names? && c.tracked.Some? ==> Sees(w, w.slot.region, c.tracked.value, gone))
    && (Target(req, c).Some? && c.found.Some? ==> Sees(w, Target(req, c).value, c.found.value, gone))
    && (Target(req, c).Some? && c.again.Some? ==> Sees(w, Target(req, c).value, c.again.value, gone))
  }

  // ---- down, handler.py:186-207 ----

  datatype DownCalls = DownCalls(
    pointerRead: bool,
    defaultRegion: Option<Region>,
    found: Option<seq<Instance>>,
    terminate: Id -> Outcome,
    put: Outcome)

  // Terminates in order; the first call that raises ends the action.
  function Terminations(found: seq<Instance>, terminate: Id -> Outcome): (seq<Effect>, bool) {
    if found == [] then ([], true)
    else
      var (before, ok) := Terminations(found[..|found| - 1], terminate);
      var id := found[|found| - 1].id;
      if !ok then (before, false)
      else (before + Attempt(Kill(id), terminate(id)), terminate(id).Done?)
  }

  // Where `down` looks: the pointer's region, or the default one if there is no pointer.
  function Consulted(slot: Slot, c: DownCalls): Option<Region> {
    if slot.Names? then Some(slot.region) else c.defaultRegion
  }

  function Down(slot: Slot, c: DownCalls): (seq<Effect>, Response) {
    if !Readable(slot, c.pointerRead) || Consulted(slot, c).None? || c.found.None? then ([], Failed)
    else
      var (kills, ok) := Terminations(c.found.value, c.terminate);
      if !ok then (kills, Failed)
      else if slot.Empty? then (kills, Absent)
      else (kills + Attempt(Put(Empty), c.put), if c.put.Done? then Absent else Failed)
  }

  ghost predicate DownFits(w: World, c: DownCalls, gone: set<Id>) {
    Consulted(w.slot, c).Some? && c.found.Some? ==> Sees(w, Consulted(w.slot, c).value, c.found.value, gone)
  }

  // ---- status, handler.py:181-183 ----

  datatype StatusCalls = StatusCalls(pointerRead: bool, tracked: Option<seq<Instance>>, look: Lookups)

  function Status(slot: Slot, c: StatusCalls): Response {
    if !Readable(slot, c.pointerRead) then Failed
    else if slot.Empty? then Absent
    else Describe(c.tracked, slot.id, c.look)
  }

  predicate StatusNeedsToken(slot: Slot, c: StatusCalls) {
    Readable(slot, c.pointerRead) && slot.Names? && c.tracked.Some? && c.tracked.value != []
  }

  /** Once a region holds a node, describing it fails exactly if a secret cannot be read or the
      tailnet lookup raises something else than TailscaleError; CloudWatch, a tailnet that is down
      and a malformed launch tag only leave a field out. Described is the node that the pointer
      names, or else the first. */
  lemma DescribeRaisesExactly(seen: seq<Instance>, id: Id, l: Lookups)
    requires seen != []
    ensures Describe(Some(seen), id, l) == Failed <==> l.clientId.None? || l.clientSecret.None? || l.device.OtherError?
    ensures Describe(Some(seen), id, l) != Failed ==> var r := Describe(Some(seen), id, l);
              && r.Node? && (if id != "" && id in Ids(seen) then r.id == id else r.id == seen[0].id)
              && (r.tailnet == Unknown <==> l.device == TailscaleError)
              && (r.tailnet == Online <==> l.device == Listed)
              && (r.tailnet == Offline <==> l.device == NotListed)
              && (exists x :: x in seen && x.id == r.id && r.idle == IdleFor(x, l))
  {
    hide IdleFor;
    var x := Selected(seen, id);
    var i :| 0 <= i < |seen| && seen[i] == x;
    assert seen[i].id in Ids(seen);
  }

  // Its launch tag is a timestamp less than 900 seconds old.
  ghost predicate LaunchedLately(node: Node, now: Micros) {
    exists launched, s :: node.launched == Some(launched) && Parse(launched) == Some(s) && now - s * 1_000_000 < 900_000_000
  }

  /** The idle time is given exactly for a running node that is not that young and that CloudWatch
      knows; it is the reading above a floor of a million bytes. */
  lemma IdleIsGivenExactly(x: Instance, l: Lookups)
    ensures IdleFor(x, l).Some?
       <==> l.running(x.id) && !LaunchedLately(x.node, l.now) && l.points(x.id).Some? && l.points(x.id).value != []
    ensures IdleFor(x, l).Some? ==> IdleFor(x, l) == Idle.IdleReading(l.points(x.id).value, l.now, 1_000_000.0)
  {
    hide Parse;
    EmptyIsNoTimestamp();
  }

  // ---- what the effects can be ----

  lemma {:induction false} TerminationsAreKills(found: seq<Instance>, terminate: Id -> Outcome)
    ensures var (es, ok) := Terminations(found, terminate);
      && (forall e :: e in es ==> e.Kill? && e.id in Ids(found))
      && (ok ==> forall id :: id in Ids(found) ==> Kill(id) in es)
  {
    if found != [] {
      var n := |found| - 1;
      TerminationsAreKills(found[..n], terminate);
      assert Ids(found) == Ids(found[..n]) + {found[n].id};
    }
  }

  /** `up` launches only into a region where nothing is left alive, and never changes more than that. */
  lemma UpEffects(w: World, req: UpRequest, c: UpCalls, gone: set<Id>)
    requires UpFits(w, req, c, gone)
    ensures var es := Up(w.slot, req, c).0;
      || es == []
      || (exists region, id :: es == [Put(Names(region, id))]
           && id in w.live && w.live[id].region == region)
      || (exists node :: es == [Launch(c.id, node)] && LaunchAllowed(w, node, c, gone))
      || (exists node :: es == [Launch(c.id, node), Put(Names(node.region, c.id))] && LaunchAllowed(w, node, c, gone))
  {
    hide ParseTtl, Rfc3339, Describe;
    var es := Up(w.slot, req, c).0;
    if es != [] {
      var region := Target(req, c).value;
      var expires := ParseTtl(Lifetime(req, c).value, c.now).value;
      if c.found.value != [] {
        assert c.found.value[0] in c.found.value;
      } else {
        assert LaunchAllowed(w, NewNode(region, expires, c.now), c, gone);
      }
    }
  }

  ghost predicate LaunchAllowed(w: World, node: Node, c: UpCalls, gone: set<Id>) {
    && InTime(c.now)
    && node.launched == Some(Rfc3339(c.now))
    && (exists ttl :: ParseTtl(ttl, c.now).Success? && node.expires == Some(ParseTtl(ttl, c.now).value))
    && c.regions.Some? && node.region in c.regions.value
    && (forall id :: id in w.live && w.live[id].region == node.region ==> id in gone)
  }
}
