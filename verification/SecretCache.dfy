/** `cached_secret` of lambda/shardvpn/settings.py: a cache whose answers are never old. */
module SecretCache {
  import opened Wrappers

  type Name = string
  type Secret = string

  // time.time(): seconds, with fractions
  type Clock = real

  const SECRET_TTL_SECONDS: Clock := 300.0

  datatype Entry = Entry(at: Clock, value: Secret)

  // The cache and the answer after one read; `fetched` is what SSM would answer, None if it raises.
  function Lookup(cache: map<Name, Entry>, name: Name, now: Clock, fetched: Option<Secret>)
    : (map<Name, Entry>, Option<Secret>)
  {
    if name in cache && now - cache[name].at < SECRET_TTL_SECONDS then (cache, Some(cache[name].value))
    else match fetched
      case None => (cache, None)
      case Some(value) => (cache[name := Entry(now, value)], fetched)
  }

  // ---- runs of reads, against parameters that may be rotated at any time ----

  datatype Read = Read(name: Name, now: Clock, ok: bool)

  // The value that each parameter holds at each instant.
  type History = (Name, Clock) -> Secret

  // What a GetParameter returns is what the parameter holds.
  ghost predicate Honest(ssm: History, name: Name, now: Clock, fetched: Option<Secret>) {
    fetched.Some? ==> fetched.value == ssm(name, now)
  }

  function Fetch(r: Read, ssm: History): Option<Secret> { if r.ok then Some(ssm(r.name, r.now)) else None }

  // The cache after a run of reads of a new process, and the answer to the run's last read.
  function After(trace: seq<Read>, ssm: History): map<Name, Entry> {
    if trace == [] then map[]
    else
      var r := trace[|trace| - 1];
      Lookup(After(trace[..|trace| - 1], ssm), r.name, r.now, Fetch(r, ssm)).0
  }

  function Answer(trace: seq<Read>, ssm: History): Option<Secret>
    requires trace != []
  {
    var r := trace[|trace| - 1];
    Lookup(After(trace[..|trace| - 1], ssm), r.name, r.now, Fetch(r, ssm)).1
  }

  // `e` is what the `j`-th read fetched for `name`.
  predicate FetchedAt(trace: seq<Read>, ssm: History, j: nat, name: Name, e: Entry) {
    j < |trace| && trace[j].ok && trace[j].name == name && e == Entry(trace[j].now, ssm(name, trace[j].now))
  }

  lemma {:induction false} EntriesWereFetched(trace: seq<Read>, ssm: History, name: Name) returns (j: nat)
    requires name in After(trace, ssm)
    ensures FetchedAt(trace, ssm, j, name, After(trace, ssm)[name])
  {
    var before, r := trace[..|trace| - 1], trace[|trace| - 1];
    if name in After(before, ssm) && After(trace, ssm)[name] == After(before, ssm)[name] {
      j := EntriesWereFetched(before, ssm, name);
      assert before[j] == trace[j];
    } else {
      j := |trace| - 1;
    }
  }

  ghost predicate ClockNeverGoesBack(trace: seq<Read>) {
    forall i, j :: 0 <= i <= j < |trace| ==> trace[i].now <= trace[j].now
  }

  /** Whatever fails and whatever is rotated: a returned value was fetched for that very name, less
      than 300 seconds before by the clock, so it was the parameter's value then. */
  lemma AnswersAreRecent(trace: seq<Read>, ssm: History) returns (j: nat)
    requires trace != [] && Answer(trace, ssm).Some?
    ensures var last := trace[|trace| - 1];
      && j < |trace|
      && FetchedAt(trace, ssm, j, last.name, Entry(trace[j].now, Answer(trace, ssm).value))
      && last.now - 300.0 < trace[j].now
      && (ClockNeverGoesBack(trace) ==> trace[j].now <= last.now)
  {
    var before, last := trace[..|trace| - 1], trace[|trace| - 1];
    var cache := After(before, ssm);
    if last.name in cache && last.now - cache[last.name].at < SECRET_TTL_SECONDS {
      j := EntriesWereFetched(before, ssm, last.name);
      assert before[j] == trace[j];
    } else {
      j := |trace| - 1;
    }
  }

  /** So a rotated secret is the only one in use 300 seconds after its rotation. */
  lemma RotationTakesEffect(trace: seq<Read>, ssm: History, rotated: Clock, fresh_: Secret)
    requires trace != []
    requires var last := trace[|trace| - 1];
      && last.now >= rotated + 300.0
      && forall t: Clock :: t >= rotated ==> ssm(last.name, t) == fresh_
    ensures Answer(trace, ssm).Some? ==> Answer(trace, ssm).value == fresh_
    ensures trace[|trace| - 1].ok ==> Answer(trace, ssm).Some?
  {
    if Answer(trace, ssm).Some? {
      var j := AnswersAreRecent(trace, ssm);
    }
  }
  // ---- the cache as the code holds it ----

  class Cache {
    var entries: map<Name, Entry>

    // What SSM holds, and every read that this process has made.
    ghost const ssm: History
    ghost var trace: seq<Read>

    ghost predicate Valid()
      reads this
    {
      entries == After(trace, ssm)
    }

    // Since then, this process has read no names but these.
    twostate predicate ReadOnly(names: set<Name>)
      reads this
    {
      && Valid() && old(trace) <= trace
      && forall i :: |old(trace)| <= i < |trace| ==> trace[i].name in names
    }

    constructor (ghost ssm: History)
      ensures Valid() && entries == map[] && trace == [] && this.ssm == ssm
    {
      entries := map[];
      this.ssm := ssm;
      trace := [];
    }

    // A new process.
    method Restart()
      modifies this
      ensures Valid() && entries == map[] && trace == []
    {
      entries := map[];
      trace := [];
    }

    // settings.py:60-73
    method CachedSecret(name: Name, now: Clock, fetched: Option<Secret>) returns (secret: Option<Secret>)
      requires Valid() && Honest(ssm, name, now, fetched)
      modifies this
      ensures Valid() && trace == old(trace) + [Read(name, now, fetched.Some?)] && secret == Answer(trace, ssm)
      ensures (entries, secret) == Lookup(old(entries), name, now, fetched)
      ensures secret.None? ==> entries == old(entries)
      ensures forall n :: n != name ==> (n in entries <==> n in old(entries))
      ensures forall n :: n in entries && n != name ==> entries[n] == old(entries)[n]
    {
      assert (trace + [Read(name, now, fetched.Some?)])[..|trace|] == trace;
      trace := trace + [Read(name, now, fetched.Some?)];
      if name in entries {
        var cached := entries[name];
        if now - cached.at < SECRET_TTL_SECONDS {
          return Some(cached.value);
        }
      }
      if fetched.None? {
        return None;
      }
      entries := entries[name := Entry(now, fetched.value)];
      return fetched;
    }
  }

  // ---- the two reads behind a Tailscale token, handler.py:110-114 ----

  const TS_CLIENT_ID: Name := "/shardvpn/tailscale-client-id"
  const TS_CLIENT_SECRET: Name := "/shardvpn/tailscale-client-secret"

  // What SSM would answer to either read, and when.
  datatype TokenFetch = TokenFetch(idAt: Clock, id: Option<Secret>, secretAt: Clock, secret: Option<Secret>)

  ghost predicate HonestToken(ssm: History, f: TokenFetch) {
    Honest(ssm, TS_CLIENT_ID, f.idAt, f.id) && Honest(ssm, TS_CLIENT_SECRET, f.secretAt, f.secret)
  }

  // The second read is made only if the first one does not raise.
  function ReadToken(cache: map<Name, Entry>, f: TokenFetch): (map<Name, Entry>, Option<Secret>, Option<Secret>) {
    var (one, id) := Lookup(cache, TS_CLIENT_ID, f.idAt, f.id);
    if id.None? then (one, None, None)
    else
      var (two, secret) := Lookup(one, TS_CLIENT_SECRET, f.secretAt, f.secret);
      (two, id, secret)
  }

  // ---- one read ----

  /** An entry younger than 300 seconds is the answer, whatever SSM would say; an older one, or
      none, leaves the answer to SSM, and an answer of SSM is kept with its time. */
  lemma LookupExactly(cache: map<Name, Entry>, name: Name, now: Clock, fetched: Option<Secret>)
    ensures var (after, secret) := Lookup(cache, name, now, fetched);
      if name in cache && now - cache[name].at < 300.0 then after == cache && secret == Some(cache[name].value)
      else && secret == fetched
           && (fetched.None? ==> after == cache)
           && (fetched.Some? ==> after == cache[name := Entry(now, fetched.value)])
  {
  }

  /** A read within 300 seconds after a fetch gives that same value, even while SSM fails. */
  lemma FetchedIsReused(cache: map<Name, Entry>, name: Name, at: Clock, value: Secret, now: Clock, fetched: Option<Secret>)
    requires !(name in cache && at - cache[name].at < 300.0) && now - at < 300.0
    ensures Lookup(Lookup(cache, name, at, Some(value)).0, name, now, fetched).1 == Some(value)
  {
  }

  /** The token needs the client id first; the secret is asked for only once the id is there. */
  lemma ReadTokenExactly(cache: map<Name, Entry>, f: TokenFetch)
    ensures var (after, id, secret) := ReadToken(cache, f);
      var (one, first) := Lookup(cache, "/shardvpn/tailscale-client-id", f.idAt, f.id);
      && id == first
      && (first.None? ==> after == one && secret.None?)
      && (first.Some? ==> (after, secret) == Lookup(one, "/shardvpn/tailscale-client-secret", f.secretAt, f.secret))
  {
    hide Lookup;
  }
}
