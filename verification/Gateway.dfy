/** The entry point, lambda/shardvpn/handler.py:35-107: who may change the fleet. */
module Gateway {
  import opened Wrappers
  import opened Words
  import opened Calendar
  import opened Ttl
  import opened Unicode
  import opened Fleet
  import opened Handler
  import opened Watchdog
  import opened Aws
  import opened SecretCache
  import Auth
  import Requests
  import Sweeper

  const SIGNING_SECRET: Name := "/shardvpn/signing-secret"
  const PLACEHOLDER: Secret := "PLACEHOLDER-set-with-aws-ssm-put-parameter"
  const SECRETS: set<Name> := {SIGNING_SECRET} + Requests.TOKEN_SECRETS

  // What the body's JSON asks for, and how the calls of that action go.
  datatype Ask =
    | Malformed
    | UnknownAction
    | AskUp(req: UpRequest, up: UpCalls, token: TokenFetch)
    | AskDown(down: DownCalls)
    | AskStatus(status: StatusCalls, token: TokenFetch)

  // A scheduler event has no request context. `body` is None where extract_body raises. The
  // signing secret is asked for at `clock`, the signature is checked at `now`, and `fetched` is
  // what SSM answers if it is asked.
  datatype RawEvent =
    | Scheduled(sweep: SweepCalls)
    | Http(headers: seq<(Auth.Value, Auth.Value)>, body: Option<seq<Byte>>, ask: Ask,
           clock: Clock, now: int, fetched: Option<Secret>)

  predicate Timely(e: RawEvent) {
    match e
    case Scheduled(c) => 0 <= c.now < END_OF_TIME
    case Http(_, _, ask, _, _, _) => ask.AskUp? ==> InTime(ask.up.now)
  }

  type Event = e: RawEvent | Timely(e) witness Http([], None, Malformed, 0.0, 0, None)

  datatype Reply =
    | Swept
    | Unverifiable
    | Forbidden
    | BadAsk
    | Answered(response: Response)

  // What SSM answers during this event is what its parameters hold.
  ghost predicate HonestEvent(ssm: History, e: Event) {
    e.Http? ==>
      && Honest(ssm, SIGNING_SECRET, e.clock, e.fetched)
      && (e.ask.AskUp? || e.ask.AskStatus? ==> HonestToken(ssm, e.ask.token))
  }

  predicate Admitted(e: Event, secret: Option<Secret>)
    requires e.Http?
  {
    && secret.Some? && secret.value != PLACEHOLDER
    && e.body.Some? && Auth.Verify(e.headers, e.body.value, secret.value, e.now) == Auth.Accepted
  }

  // The same ask, with the token secrets that this cache gives.
  function Supply(ask: Ask, cache: map<Name, Entry>): (r: Ask)
    ensures r.AskUp? == ask.AskUp? && (r.AskUp? ==> r.up.now == ask.up.now)
  {
    match ask
    case AskUp(req, c, f) => AskUp(req, Requests.Supplied(c, cache, f), f)
    case AskStatus(c, f) => AskStatus(c.(look := Requests.WithToken(c.look, cache, f)), f)
    case _ => ask
  }

  function Act(slot: Slot, ask: Ask): (seq<Effect>, Reply)
    requires ask.AskUp? ==> InTime(ask.up.now)
  {
    match ask
    case Malformed => ([], BadAsk)
    case UnknownAction => ([], BadAsk)
    case AskUp(req, c, _) => (Up(slot, req, c).0, Answered(Up(slot, req, c).1))
    case AskDown(c) => (Down(slot, c).0, Answered(Down(slot, c).1))
    case AskStatus(c, _) => ([], Answered(Status(slot, c)))
  }

  predicate NeedsToken(slot: Slot, ask: Ask)
    requires ask.AskUp? ==> InTime(ask.up.now)
  {
    (ask.AskUp? && UpNeedsToken(slot, ask.req, ask.up)) || (ask.AskStatus? && StatusNeedsToken(slot, ask.status))
  }

  // What an event does to the fleet, what it answers, and the cache it leaves.
  function Route(slot: Slot, cache: map<Name, Entry>, e: Event): (seq<Effect>, Reply, map<Name, Entry>) {
    match e
    case Scheduled(c) => (Sweep(slot, c).effects, Swept, cache)
    case Http(headers, body, ask, clock, now, fetched) =>
      var (known, secret) := Lookup(cache, SIGNING_SECRET, clock, fetched);
      if secret.None? || secret.value == PLACEHOLDER then ([], Unverifiable, known)
      else if !Admitted(e, secret) then ([], Forbidden, known)
      else
        var (effects, reply) := Act(slot, Supply(ask, known));
        (effects, reply, if NeedsToken(slot, ask) then ReadToken(known, ask.token).0 else known)
  }

  // json.loads has taken the body apart; the action runs.
  method Dispatch(cloud: Cloud, cache: Cache, ask: Ask) returns (reply: Reply)
    requires cloud.Valid() && cache.Valid()
    requires ask.AskUp? ==> InTime(ask.up.now)
    requires ask.AskUp? || ask.AskStatus? ==> HonestToken(cache.ssm, ask.token)
    modifies cloud, cache
    ensures cloud.Issued(Act(old(cloud.Stored()), Supply(ask, old(cache.entries))).0)
    ensures reply == Act(old(cloud.Stored()), Supply(ask, old(cache.entries))).1
    ensures cache.entries == if NeedsToken(old(cloud.Stored()), ask) then ReadToken(old(cache.entries), ask.token).0
                             else old(cache.entries)
    ensures cache.ReadOnly(Requests.TOKEN_SECRETS)
  {
    hide Up, Down, Status, UpNeedsToken, StatusNeedsToken, ReadToken, Cloud.Valid, Cloud.Stored, Cache.Valid;
    hide Prefix, Replay, END_OF_TIME;
    match ask
    case Malformed => reply := BadAsk;
    case UnknownAction => reply := BadAsk;
    case AskUp(req, c, f) =>
      var r := Requests.HandleUp(cloud, cache, req, c, f);
      reply := Answered(r);
    case AskDown(c) =>
      var r := Requests.HandleDown(cloud, c);
      reply := Answered(r);
    case AskStatus(c, f) =>
      var r := Requests.HandleStatus(cloud, cache, c, f);
      reply := Answered(r);
  }

  /** handler.py:35-107 */
  method LambdaHandler(cloud: Cloud, cache: Cache, e: Event) returns (reply: Reply)
    requires cloud.Valid() && cache.Valid() && HonestEvent(cache.ssm, e)
    modifies cloud, cache
    ensures cloud.Issued(Route(old(cloud.Stored()), old(cache.entries), e).0)
    ensures (reply, cache.entries)
         == (Route(old(cloud.Stored()), old(cache.entries), e).1, Route(old(cloud.Stored()), old(cache.entries), e).2)
    ensures cache.ReadOnly(SECRETS)
    ensures e.Scheduled? ==> cache.trace == old(cache.trace)
    ensures e.Http? ==> old(cache.trace) + [Read(SIGNING_SECRET, e.clock, e.fetched.Some?)] <= cache.trace
  {
    hide Act, Supply, NeedsToken, Sweep, Auth.Verify, Lookup, ReadToken, Cloud.Valid, Cloud.Stored, Cache.Valid;
    hide Prefix, Replay, END_OF_TIME, Answer;
    if e.Scheduled? {
      var _ := Sweeper.RunSweep(cloud, e.sweep);
      return Swept;
    }
    var secret := cache.CachedSecret(SIGNING_SECRET, e.clock, e.fetched);
    if secret.None? || secret.value == PLACEHOLDER {
      return Unverifiable;
    }
    if e.body.None? {
      return Forbidden;
    }
    if Auth.Verify(e.headers, e.body.value, secret.value, e.now) != Auth.Accepted {
      return Forbidden;
    }
    reply := Dispatch(cloud, cache, e.ask);
  }

  // The calls of an action with the answers to its reads of the Tailscale secrets.
  ghost function Informed(l: Lookups, id: Option<Secret>, secret: Option<Secret>): Lookups {
    Lookups(id, secret, l.device, l.now, l.running, l.points)
  }

  /** The order of the gates: a schedule sweeps; a request needs a signing secret that is not the
      placeholder, then a signature, and then is dispatched by its action. */
  lemma RouteExactly(slot: Slot, cache: map<Name, Entry>, e: Event)
    ensures var (effects, reply, after) := Route(slot, cache, e);
      match e
      case Scheduled(c) => effects == Sweep(slot, c).effects && reply == Swept && after == cache
      case Http(headers, body, ask, clock, now, fetched) =>
        var (known, secret) := Lookup(cache, "/shardvpn/signing-secret", clock, fetched);
        if secret.None? || secret.value == "PLACEHOLDER-set-with-aws-ssm-put-parameter" then
          effects == [] && reply == Unverifiable && after == known
        else if body.None? || !Auth.IsSigned(headers, body.value, secret.value, now) then
          effects == [] && reply == Forbidden && after == known
        else match ask
          case AskUp(req, c, f) =>
            var (read, id, token) := ReadToken(known, f);
            var d := c.(look := Informed(c.look, id, token));
            && effects == Up(slot, req, d).0 && reply == Answered(Up(slot, req, d).1)
            && after == if UpNeedsToken(slot, req, c) then read else known
          case AskDown(c) => effects == Down(slot, c).0 && reply == Answered(Down(slot, c).1) && after == known
          case AskStatus(c, f) =>
            var (read, id, token) := ReadToken(known, f);
            && effects == [] && reply == Answered(Status(slot, c.(look := Informed(c.look, id, token))))
            && after == if StatusNeedsToken(slot, c) then read else known
          case _ => effects == [] && reply == BadAsk && after == known
  {
    hide Sweep, Up, Down, Status, Lookup, ReadToken, Auth.Verify, Auth.IsSigned, UpNeedsToken, StatusNeedsToken;
    if e.Http? && e.body.Some? {
      var secret := Lookup(cache, SIGNING_SECRET, e.clock, e.fetched).1;
      if secret.Some? {
        Auth.AcceptedExactly(e.headers, e.body.value, secret.value, e.now);
      }
    }
  }

  // The event as it meets a process that has made the reads of `trace`, the last of which is this
  // event's read of the signing secret.
  ghost predicate Meets(e: Event, trace: seq<Read>, ssm: History) {
    e.Http? ==>
      && trace != [] && trace[|trace| - 1] == Read(SIGNING_SECRET, e.clock, e.fetched.Some?)
      && Honest(ssm, SIGNING_SECRET, e.clock, e.fetched)
  }

  ghost function Before(trace: seq<Read>, ssm: History): map<Name, Entry> {
    if trace == [] then map[] else After(trace[..|trace| - 1], ssm)
  }

  lemma SecretIsAnswer(e: Event, trace: seq<Read>, ssm: History)
    requires e.Http? && Meets(e, trace, ssm)
    ensures Lookup(Before(trace, ssm), SIGNING_SECRET, e.clock, e.fetched).1 == Answer(trace, ssm)
  {
    hide Lookup;
    assert Fetch(trace[|trace| - 1], ssm) == e.fetched;
  }

  // The request proves knowledge of a secret that was in SSM less than 300 seconds ago.
  ghost predicate SignedRecently(e: Event, trace: seq<Read>, ssm: History) {
    && e.Http? && e.body.Some? && trace != []
    && exists j :: 0 <= j < |trace| && trace[j].ok && trace[j].name == "/shardvpn/signing-secret"
         && trace[|trace| - 1].now - 300.0 < trace[j].now
         && ssm(SIGNING_SECRET, trace[j].now) != "PLACEHOLDER-set-with-aws-ssm-put-parameter"
         && Auth.IsSigned(e.headers, e.body.value, ssm("/shardvpn/signing-secret", trace[j].now), e.now)
  }

  /** Nothing but a schedule or a recently signed request changes anything, and a request never
      runs the sweep. */
  lemma OnlySignedRequestsAct(slot: Slot, trace: seq<Read>, ssm: History, e: Event)
    requires Meets(e, trace, ssm)
    ensures var (effects, reply, _) := Route(slot, Before(trace, ssm), e);
      && (effects != [] || reply.BadAsk? || reply.Answered? ==> e.Scheduled? || SignedRecently(e, trace, ssm))
      && (reply.Swept? <==> e.Scheduled?)
      && (e.Http? ==> forall x :: x in effects ==> !x.Stamp?)
  {
    hide Sweep, Auth.Verify, Auth.IsSigned, Answer, Act, Supply, Lookup, Before, ReadToken, NeedsToken;
    if e.Http? {
      if e.body.Some? && Answer(trace, ssm).Some? {
        Auth.AcceptedExactly(e.headers, e.body.value, Answer(trace, ssm).value, e.now);
      }
      SecretIsAnswer(e, trace, ssm);
      if Answer(trace, ssm).Some? {
        var j := AnswersAreRecent(trace, ssm);
        assert trace[j].ok && trace[j].name == SIGNING_SECRET;
      }
      var known := Lookup(Before(trace, ssm), SIGNING_SECRET, e.clock, e.fetched).0;
      ActNeverStamps(slot, e.ask, known);
      ActNeverSweeps(slot, Supply(e.ask, known));
    }
  }

  lemma ActNeverSweeps(slot: Slot, ask: Ask)
    requires ask.AskUp? ==> InTime(ask.up.now)
    ensures Act(slot, ask).1.BadAsk? || Act(slot, ask).1.Answered?
  {
  }

  lemma ActNeverStamps(slot: Slot, ask: Ask, cache: map<Name, Entry>)
    requires ask.AskUp? ==> InTime(ask.up.now)
    ensures forall x :: x in Act(slot, Supply(ask, cache)).0 ==> !x.Stamp?
  {
    hide Terminations, ParseTtl, Rfc3339, NewNode, Describe;
    if ask.AskDown? && ask.down.found.Some? {
      TerminationsAreKills(ask.down.found.value, ask.down.terminate);
    }
  }

  // SSM holds this signing secret from `since` on.
  ghost predicate HeldSince(ssm: History, since: Clock, secret: Secret) {
    forall u: Clock :: u >= since ==> ssm(SIGNING_SECRET, u) == secret
  }

  /** A phone's request is carried out exactly if its clock is within the skew and the secret can
      be read, once SSM has held the phone's secret for 300 seconds. */
  lemma PhoneIsServedExactly(slot: Slot, trace: seq<Read>, ssm: History, since: Clock, e: Event,
                             secret: Secret, body: string, t: int)
    requires e.Http? && Meets(e, trace, ssm) && e.body == Some(EncodeString(body)) && secret != PLACEHOLDER
    requires e.clock >= since + SECRET_TTL_SECONDS && HeldSince(ssm, since, secret)
    requires Auth.Delivers(Auth.ClientHeaders(secret, body, t), e.headers)
    ensures var (known, read) := Lookup(Before(trace, ssm), SIGNING_SECRET, e.clock, e.fetched);
      var (effects, reply, _) := Route(slot, Before(trace, ssm), e);
      (effects, reply) == if read.None? then ([], Unverifiable)
                          else if 0 <= t < 100_000_000_000 && e.now - 120 <= t <= e.now + 120
                          then Act(slot, Supply(e.ask, known))
                          else ([], Forbidden)
    ensures e.fetched.Some? ==> Lookup(Before(trace, ssm), SIGNING_SECRET, e.clock, e.fetched).1.Some?
  {
    hide Act, Supply, Answer, Auth.Verify, Auth.ClientHeaders, Auth.Delivers, EncodeString, Before, NeedsToken;
    SecretIsAnswer(e, trace, ssm);
    RotationTakesEffect(trace, ssm, since, secret);
    Auth.ClientRequestAccepted(secret, body, t, e.now, e.headers);
  }
}
