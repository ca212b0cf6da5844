/** The text of the current-node parameter, lambda/shardvpn/settings.py:76-106. */
module Settings {
  import opened Wrappers
  import opened Fleet

  const EMPTY := "none"

  // How GetParameter ends: a value, ParameterNotFound, or any other error.
  datatype Answer = Text(s: string) | NotFound | Unreadable

  // What json.loads makes of a text, as far as it is looked at: an object with some of the two
  // members, or anything else, including no JSON at all.
  datatype Json = Members(region: Option<Region>, id: Option<Id>) | Other

  datatype Codec = Codec(dumps: (Region, Id) -> string, loads: string -> Json)

  // What a JSON library promises: an object is written as it can be read.
  ghost predicate Faithful(json: Codec) {
    forall region, id ::
      && json.loads(json.dumps(region, id)) == Members(Some(region), Some(id))
      && json.dumps(region, id) != "" && json.dumps(region, id) != EMPTY
  }

  // settings.py:76-97; None is PointerUnavailable.
  function ReadText(a: Answer, json: Codec): Option<Slot> {
    match a
    case NotFound => Some(Empty)
    case Unreadable => None
    case Text(raw) =>
      if raw == "" || raw == EMPTY then Some(Empty)
      else match json.loads(raw)
        case Members(Some(region), Some(id)) => Some(Names(region, id))
        case _ => None
  }

  // settings.py:100-105
  function TextOf(slot: Slot, json: Codec): string
    requires !slot.Garbled?
  {
    if slot.Empty? then EMPTY else json.dumps(slot.region, slot.id)
  }

  // What a stored text means to a reader; None is a parameter that does not exist.
  function SlotOf(text: Option<string>, json: Codec): Slot {
    ReadText(if text.Some? then Text(text.value) else NotFound, json).GetOr(Garbled)
  }

  /** Fails closed: only a missing parameter, an empty one and "none" read as "no node"; an error,
      no JSON, and JSON without both members read as neither. */
  lemma OnlyAbsenceIsNoNode(a: Answer, json: Codec)
    ensures ReadText(a, json) == Some(Empty) <==> a == NotFound || a == Text("") || a == Text("none")
    ensures ReadText(a, json).None?
       <==> a == Unreadable || (a.Text? && a.s != "" && a.s != "none"
                                && forall region, id :: json.loads(a.s) != Members(Some(region), Some(id)))
    ensures ReadText(a, json) != Some(Garbled)
  {
    if a.Text? && a.s != "" && a.s != "none" {
      match json.loads(a.s)
      case Members(Some(region), Some(id)) =>
      case _ =>
    }
  }

  /** What is written is read back. */
  lemma WrittenIsRead(slot: Slot, json: Codec)
    requires Faithful(json) && !slot.Garbled?
    ensures ReadText(Text(TextOf(slot, json)), json) == Some(slot)
    ensures SlotOf(Some(TextOf(slot, json)), json) == slot
  {
    if slot.Names? {
      assert json.loads(json.dumps(slot.region, slot.id)) == Members(Some(slot.region), Some(slot.id));
    }
  }
}
