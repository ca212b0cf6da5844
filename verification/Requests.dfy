/** `_up` and `_down` as they run against the account, call by call. */
module Requests {
  import opened Wrappers
  import opened Calendar
  import opened Ttl
  import opened Fleet
  import opened Handler
  import opened Aws
  import opened SecretCache
  import Idle

  // handler.py:133-138
  method Select(nodes: seq<Instance>, id: Id) returns (r: Instance)
    requires nodes != []
    ensures r == Selected(nodes, id)
  {
    r := nodes[0];
    if id != "" {
      var i := 0;
      while i < |nodes|
        invariant 0 <= i <= |nodes|
        invariant Find(nodes, id) == Find(nodes[i..], id)
        invariant r == nodes[0]
      {
        assert nodes[i..][0] == nodes[i] && nodes[i..][1..] == nodes[i + 1..];
        if nodes[i].id == id {
          r := nodes[i];
          break;
        }
        i := i + 1;
      }
    }
  }

  const TOKEN_SECRETS: set<Name> := {TS_CLIENT_ID, TS_CLIENT_SECRET}

  // The answers that the cache gives, in the place of those in `l`.
  function WithToken(l: Lookups, cache: map<Name, Entry>, f: TokenFetch): Lookups {
    l.(clientId := ReadToken(cache, f).1, clientSecret := ReadToken(cache, f).2)
  }

  // handler.py:110-114, as far as SSM is concerned; None if a read raises.
  method Token(cache: Cache, f: TokenFetch) returns (id: Option<Secret>, secret: Option<Secret>)
    requires cache.Valid() && HonestToken(cache.ssm, f)
    modifies cache
    ensures (cache.entries, id, secret) == ReadToken(old(cache.entries), f)
    ensures cache.ReadOnly(TOKEN_SECRETS)
  {
    hide Lookup, After, Answer;
    id := cache.CachedSecret(TS_CLIENT_ID, f.idAt, f.id);
    if id.None? {
      return None, None;
    }
    secret := cache.CachedSecret(TS_CLIENT_SECRET, f.secretAt, f.secret);
  }

  // handler.py:154-176
  method ReadIdle(x: Instance, l: Lookups) returns (idle: Option<nat>)
    ensures idle == IdleFor(x, l)
  {
    var fresh_ := false;
    if x.node.launched.Some? && x.node.launched.value != "" {
      var launched := Parse(x.node.launched.value);
      if launched.Some? {
        fresh_ := l.now - launched.value * SECOND < FRESH_NODE_SECONDS * SECOND;
      }
    }
    idle := None;
    if l.running(x.id) && !fresh_ {
      var points := l.points(x.id);
      if points.Some? {
        idle := Idle.IdleSeconds(points.value, l.now);
      }
    }
  }

  // handler.py:117-178
  method DescribeNode(cache: Cache, f: TokenFetch, seen: Option<seq<Instance>>, id: Id, l: Lookups)
    returns (r: Response)
    requires cache.Valid() && HonestToken(cache.ssm, f)
    modifies cache
    ensures r == Describe(seen, id, WithToken(l, old(cache.entries), f))
    ensures cache.entries
         == if seen.Some? && seen.value != [] then ReadToken(old(cache.entries), f).0 else old(cache.entries)
    ensures cache.ReadOnly(TOKEN_SECRETS)
  {
    hide ReadToken, IdleFor, Selected, Cache.Valid;
    if seen.None? {
      return Failed;
    }
    if seen.value == [] {
      return Absent;
    }
    var instance := Select(seen.value, id);
    var clientId, clientSecret := Token(cache, f);
    if clientId.None? || clientSecret.None? {
      return Failed;
    }
    var tailnet := Unknown;
    match l.device {
      case Listed => tailnet := Online;
      case NotListed => tailnet := Offline;
      case TailscaleError =>
      case OtherError => return Failed;
    }
    var idle := ReadIdle(instance, l);
    IdleIgnoresToken(instance, l, WithToken(l, old(cache.entries), f));
    return Response.Node(instance.id, tailnet, idle);
  }

  lemma IdleIgnoresToken(x: Instance, l: Lookups, m: Lookups)
    requires m == l.(clientId := m.clientId, clientSecret := m.clientSecret)
    ensures IdleFor(x, l) == IdleFor(x, m)
  {
  }

  // The calls of an `up` whose token secrets come out of this cache.
  function Supplied(c: UpCalls, cache: map<Name, Entry>, f: TokenFetch): UpCalls {
    c.(look := WithToken(c.look, cache, f))
  }

  lemma AbsentMeansEmpty(seen: Option<seq<Instance>>, id: Id, l: Lookups)
    ensures Describe(seen, id, l) == Absent <==> seen == Some([])
  {
  }

  /** handler.py:210-308 */
  method HandleUp(cloud: Cloud, cache: Cache, req: UpRequest, c: UpCalls, f: TokenFetch) returns (r: Response)
    requires cloud.Valid() && InTime(c.now)
    requires cache.Valid() && HonestToken(cache.ssm, f)
    modifies cloud, cache
    ensures cloud.Issued(Up(old(cloud.Stored()), req, Supplied(c, old(cache.entries), f)).0)
    ensures r == Up(old(cloud.Stored()), req, Supplied(c, old(cache.entries), f)).1
    ensures cache.entries == if UpNeedsToken(old(cloud.Stored()), req, c) then ReadToken(old(cache.entries), f).0
                             else old(cache.entries)
    ensures cache.ReadOnly(TOKEN_SECRETS)
  {
    hide UpUntracked, UntrackedNeedsToken, Describe, Prefix, Replay, Cloud.Valid, Cloud.Stored, Cache.Valid, ReadToken;
    var pointer := cloud.ReadPointer(c.pointerRead);
    if pointer.None? {
      return Failed;
    }
    if pointer.value.Names? {
      var existing := DescribeNode(cache, f, c.tracked, pointer.value.id, c.look);
      AbsentMeansEmpty(c.tracked, pointer.value.id, WithToken(c.look, old(cache.entries), f));
      if existing != Absent {
        return existing;
      }
    }
    r := HandleUntracked(cloud, cache, req, c, f);
  }

  // handler.py:217-308
  method HandleUntracked(cloud: Cloud, cache: Cache, req: UpRequest, c: UpCalls, f: TokenFetch) returns (r: Response)
    requires cloud.Valid() && InTime(c.now)
    requires cache.Valid() && HonestToken(cache.ssm, f)
    modifies cloud, cache
    ensures cloud.Issued(UpUntracked(req, Supplied(c, old(cache.entries), f)).0)
    ensures r == UpUntracked(req, Supplied(c, old(cache.entries), f)).1
    ensures cache.entries == if UntrackedNeedsToken(req, c) then ReadToken(old(cache.entries), f).0
                             else old(cache.entries)
    ensures cache.ReadOnly(TOKEN_SECRETS)
  {
    hide ParseTtl, Rfc3339, NewNode, Prefix, Replay, Cloud.Valid, Cloud.Stored, Cache.Valid, ReadToken, Adopt, LaunchIn;
    if c.regions.None? || Target(req, c).None? {
      return Failed;
    }
    var region := Target(req, c).value;
    if region !in c.regions.value {
      return BadRequest;
    }
    if Lifetime(req, c).None? {
      return Failed;
    }
    var expires := ParseTtl(Lifetime(req, c).value, c.now);
    if expires.Failure? {
      return BadRequest;
    }
    if c.found.None? {
      return Failed;
    }
    if c.found.value != [] {
      r := AdoptNode(cloud, cache, region, c, f);
    } else {
      r := LaunchNode(cloud, cache, region, expires.value, c, f);
    }
  }

  // handler.py:241-255
  method AdoptNode(cloud: Cloud, cache: Cache, region: Region, c: UpCalls, f: TokenFetch) returns (r: Response)
    requires cloud.Valid() && c.found.Some? && c.found.value != []
    requires cache.Valid() && HonestToken(cache.ssm, f)
    modifies cloud, cache
    ensures cloud.Issued(Adopt(region, Supplied(c, old(cache.entries), f)).0)
    ensures r == Adopt(region, Supplied(c, old(cache.entries), f)).1
    ensures cache.entries == if c.put.Done? && c.again.Some? && c.again.value != []
                             then ReadToken(old(cache.entries), f).0 else old(cache.entries)
    ensures cache.ReadOnly(TOKEN_SECRETS)
  {
    hide Describe, Prefix, Replay, Cloud.Valid, Cloud.Stored, Cache.Valid, ReadToken;
    var id := c.found.value[0].id;
    var adopted := cloud.WritePointer(Names(region, id), c.put);
    if !adopted {
      return Failed;
    }
    r := DescribeNode(cache, f, c.again, id, c.look);
  }

  // handler.py:257-308
  method LaunchNode(cloud: Cloud, cache: Cache, region: Region, expires: string, c: UpCalls, f: TokenFetch)
    returns (r: Response)
    requires cloud.Valid() && InTime(c.now)
    requires cache.Valid() && HonestToken(cache.ssm, f)
    modifies cloud, cache
    ensures cloud.Issued(LaunchIn(region, expires, Supplied(c, old(cache.entries), f)).0)
    ensures r == LaunchIn(region, expires, Supplied(c, old(cache.entries), f)).1
    ensures cache.entries == if c.ready then ReadToken(old(cache.entries), f).0 else old(cache.entries)
    ensures cache.ReadOnly(TOKEN_SECRETS)
  {
    hide NewNode, Prefix, Replay, Cloud.Valid, Cloud.Stored, Cache.Valid, ReadToken;
    if !c.ready {
      return Failed;
    }
    var clientId, clientSecret := Token(cache, f);
    if clientId.None? || clientSecret.None? || !c.minted {
      return Failed;
    }
    var launched := cloud.RunInstance(c.id, NewNode(region, expires, c.now), c.run);
    if !launched {
      return Failed;
    }
    var stored := cloud.WritePointer(Names(region, c.id), c.put);
    r := if stored then Response.Node(c.id, Unknown, None) else Failed;
  }

  // The loop of handler.py:198-199 and 203-204; a call that raises ends it.
  method TerminateAll(cloud: Cloud, found: seq<Instance>, terminate: Id -> Outcome) returns (ok: bool)
    requires cloud.Valid()
    modifies cloud
    ensures cloud.Issued(Terminations(found, terminate).0)
    ensures ok == Terminations(found, terminate).1
  {
    hide Prefix, Replay, Cloud.Valid;
    for i := 0 to |found|
      invariant cloud.Issued(Terminations(found[..i], terminate).0)
      invariant Terminations(found[..i], terminate).1
    {
      assert found[..i + 1][..i] == found[..i];
      var done := cloud.Terminate(found[i].id, terminate(found[i].id));
      if !done {
        TerminationsStop(found, terminate, i + 1);
        return false;
      }
    }
    assert found[..|found|] == found;
    return true;
  }

  lemma {:induction false} TerminationsStop(found: seq<Instance>, terminate: Id -> Outcome, i: nat)
    requires i <= |found| && !Terminations(found[..i], terminate).1
    ensures Terminations(found, terminate) == Terminations(found[..i], terminate)
  {
    if i < |found| {
      assert found[..|found| - 1][..i] == found[..i];
      TerminationsStop(found[..|found| - 1], terminate, i);
    } else {
      assert found[..i] == found;
    }
  }

  /** handler.py:186-207 */
  method HandleDown(cloud: Cloud, c: DownCalls) returns (r: Response)
    requires cloud.Valid()
    modifies cloud
    ensures cloud.Issued(Down(old(cloud.Stored()), c).0)
    ensures r == Down(old(cloud.Stored()), c).1
  {
    hide Terminations, Prefix, Replay, Cloud.Valid;
    var pointer := cloud.ReadPointer(c.pointerRead);
    if pointer.None? {
      return Failed;
    }
    var region := if pointer.value.Names? then Some(pointer.value.region) else c.defaultRegion;
    if region.None? || c.found.None? {
      return Failed;
    }
    var ok := TerminateAll(cloud, c.found.value, c.terminate);
    if !ok {
      return Failed;
    }
    if pointer.value.Names? {
      var cleared := cloud.WritePointer(Empty, c.put);
      if !cleared {
        return Failed;
      }
    }
    return Absent;
  }

  /** handler.py:181-183 */
  method HandleStatus(cloud: Cloud, cache: Cache, c: StatusCalls, f: TokenFetch) returns (r: Response)
    requires cache.Valid() && HonestToken(cache.ssm, f)
    modifies cache
    ensures r == Status(cloud.Stored(), c.(look := WithToken(c.look, old(cache.entries), f)))
    ensures cache.entries == if StatusNeedsToken(cloud.Stored(), c) then ReadToken(old(cache.entries), f).0
                             else old(cache.entries)
    ensures cache.ReadOnly(TOKEN_SECRETS)
  {
    hide ReadToken, Describe, Cache.Valid, Cloud.Stored;
    var pointer := cloud.ReadPointer(c.pointerRead);
    if pointer.None? {
      return Failed;
    }
    if pointer.value.Empty? {
      return Absent;
    }
    r := DescribeNode(cache, f, c.tracked, pointer.value.id, c.look);
  }
}
