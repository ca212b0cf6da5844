/** The AWS account as the code sees it: state that calls update in place. */
module Aws {
  import opened Wrappers
  import opened Fleet
  import opened Settings

  // What of a list of effects happens if the invocation dies after `n` of them.
  function Prefix(es: seq<Effect>, n: nat): seq<Effect> { if n >= |es| then es else es[..n] }

  function AsRead(slot: Slot, readOk: bool): Option<Slot> {
    if readOk && !slot.Garbled? then Some(slot) else None
  }

  class Cloud {
    var live: map<Id, Node>
    var born: map<Id, Region>
    // The text of the current-node parameter, if it exists.
    var pointer: Option<string>
    const json: Codec
    // How many more effects the running invocation lives to see.
    var left: nat

    // The running invocation: the state it started from, how long it lives, what it has issued.
    ghost var start: World
    ghost var lifetime: nat
    ghost var issued: seq<Effect>

    ghost function Stored(): Slot
      reads this
    {
      SlotOf(pointer, json)
    }

    ghost function State(): World
      reads this
    {
      World(live, born, Stored())
    }

    ghost predicate Valid()
      reads this
    {
      && Faithful(json)
      && State() == Replay(start, Prefix(issued, lifetime))
      && left == if lifetime > |issued| then lifetime - |issued| else 0
    }

    // The same invocation, `es` later.
    twostate predicate Issued(es: seq<Effect>)
      reads this
    {
      Valid() && start == old(start) && lifetime == old(lifetime) && issued == old(issued) + es
    }

    constructor (json: Codec)
      requires Faithful(json)
      ensures Valid() && State() == World(map[], map[], Empty)
    {
      this.json := json;
      live, born, pointer, left := map[], map[], None, 0;
      start, lifetime, issued := World(map[], map[], Empty), 0, [];
    }

    // A new invocation, which dies after `n` effects.
    method Begin(n: nat)
      requires Faithful(json)
      modifies this
      ensures Valid() && State() == old(State()) == start && lifetime == n && issued == []
    {
      left := n;
      start, lifetime, issued := State(), n, [];
    }

    method End(gone: set<Id>)
      modifies this
      ensures State() == Vanish(old(State()), gone)
    {
      live := live - gone;
    }

    // ec2ops.py:92-133
    method RunInstance(id: Id, node: Node, o: Outcome) returns (ok: bool)
      requires Valid()
      modifies this
      ensures Issued(Attempt(Launch(id, node), o)) && ok == o.Done?
    {
      ok := o.Done?;
      if !o.Refused? {
        if left > 0 {
          live, born, left := live[id := node], born[id := node.region], left - 1;
        }
        Happens(start, issued, lifetime, Launch(id, node));
        issued := issued + [Launch(id, node)];
      }
    }

    // ec2ops.py:136-137
    method Terminate(id: Id, o: Outcome) returns (ok: bool)
      requires Valid()
      modifies this
      ensures Issued(Attempt(Kill(id), o)) && ok == o.Done?
    {
      ok := o.Done?;
      if !o.Refused? {
        if left > 0 {
          live, left := live - {id}, left - 1;
        }
        Happens(start, issued, lifetime, Kill(id));
        issued := issued + [Kill(id)];
      }
    }

    // ec2ops.py:140-141, for the last-alert tag
    method StampAlerted(id: Id, at: string, o: Outcome) returns (ok: bool)
      requires Valid()
      modifies this
      ensures Issued(Attempt(Stamp(id, at), o)) && ok == o.Done?
    {
      ok := o.Done?;
      if !o.Refused? {
        if left > 0 {
          if id in live {
            live := live[id := live[id].(alerted := Some(at))];
          }
          left := left - 1;
        }
        Happens(start, issued, lifetime, Stamp(id, at));
        issued := issued + [Stamp(id, at)];
      }
    }

    // settings.py:100-106
    method WritePointer(value: Slot, o: Outcome) returns (ok: bool)
      requires Valid() && !value.Garbled?
      modifies this
      ensures Issued(Attempt(Put(value), o)) && ok == o.Done?
    {
      ok := o.Done?;
      if !o.Refused? {
        if left > 0 {
          pointer, left := Some(if value.Empty? then EMPTY else json.dumps(value.region, value.id)), left - 1;
          WrittenIsRead(value, json);
        }
        Happens(start, issued, lifetime, Put(value));
        issued := issued + [Put(value)];
      }
    }

    // settings.py:53-57; `ok` is false for every error but ParameterNotFound.
    method GetPointer(ok: bool) returns (a: Answer)
      ensures a == if !ok then Unreadable else if pointer.None? then NotFound else Text(pointer.value)
    {
      a := if !ok then Unreadable else if pointer.None? then NotFound else Text(pointer.value);
    }

    // settings.py:76-97; None is PointerUnavailable.
    method ReadPointer(ok: bool) returns (p: Option<Slot>)
      ensures p == AsRead(Stored(), ok)
      ensures p == Some(Empty) <==> ok && (pointer == None || pointer == Some("") || pointer == Some("none"))
    {
      var raw := GetPointer(ok);
      OnlyAbsenceIsNoNode(raw, json);
      match raw {
        case NotFound => return Some(Empty);
        case Unreadable => return None;
        case Text(s) =>
          if s == "" || s == EMPTY {
            return Some(Empty);
          }
          var data := json.loads(s);
          if data.Other? || data.region.None? || data.id.None? {
            return None;
          }
          return Some(Names(data.region.value, data.id.value));
      }
    }
  }

  // One more issued effect happens exactly if the invocation is still alive.
  lemma Happens(start: World, issued: seq<Effect>, lifetime: nat, e: Effect)
    ensures Replay(start, Prefix(issued + [e], lifetime))
         == if lifetime > |issued| then Apply(Replay(start, Prefix(issued, lifetime)), e)
            else Replay(start, Prefix(issued, lifetime))
  {
    assert (issued + [e])[..|issued|] == issued;
    if lifetime <= |issued| {
      assert Prefix(issued + [e], lifetime) == Prefix(issued, lifetime);
    }
  }
}
