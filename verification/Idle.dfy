/** `network_out` and `idle_seconds`: how long a node has carried no user traffic. */
module Idle {
  import opened Wrappers
  import opened Calendar

  // A CloudWatch datapoint: when, and how many bytes left the node.
  type Point = (Micros, real)

  const IDLE_BUCKET_FLOOR_BYTES: real := 1_000_000.0

  // ec2ops.py:168 sorts the datapoints, which CloudWatch returns in any order.
  ghost predicate OldestFirst(points: seq<Point>, datapoints: seq<Point>) {
    && multiset(points) == multiset(datapoints)
    && forall i, j :: 0 <= i < j < |points| ==> points[i].0 <= points[j].0
  }

  // max(int((now - at).total_seconds()), 0): int() truncates, so a moment ahead counts as now.
  function Age(now: Micros, at: Micros): nat { if at >= now then 0 else (now - at) / SECOND }

  // The last point above the floor.
  function LastBusy(points: seq<Point>, floor: real): Option<Micros> {
    if points == [] then None
    else if points[|points| - 1].1 > floor then Some(points[|points| - 1].0)
    else LastBusy(points[..|points| - 1], floor)
  }

  function IdleReading(points: seq<Point>, now: Micros, floor: real): Option<nat> {
    if points == [] then None else Some(Age(now, LastBusy(points, floor).GetOr(points[0].0)))
  }

  // watchdog.py:78-95
  method IdleSeconds(points: seq<Point>, now: Micros, floor: real := IDLE_BUCKET_FLOOR_BYTES) returns (idle: Option<nat>)
    ensures idle == IdleReading(points, now, floor)
  {
    if points == [] {
      return None;
    }
    var i := |points|;
    assert points[..i] == points;
    while i > 0
      invariant 0 <= i <= |points|
      invariant LastBusy(points, floor) == LastBusy(points[..i], floor)
    {
      i := i - 1;
      assert points[..i + 1][..i] == points[..i];
      if points[i].1 > floor {
        return Some(Age(now, points[i].0));
      }
    }
    return Some(Age(now, points[0].0));
  }

  // `at` is the time of the newest point above the floor, or of the oldest point if none is.
  ghost predicate IdleSince(datapoints: multiset<Point>, floor: real, at: Micros) {
    if exists p :: p in datapoints && p.1 > floor then
      && (exists p :: p in datapoints && p.1 > floor && p.0 == at)
      && (forall p :: p in datapoints && p.1 > floor ==> p.0 <= at)
    else
      && (exists p :: p in datapoints && p.0 == at)
      && (forall p :: p in datapoints ==> at <= p.0)
  }

  lemma {:induction false} LastBusyIsNewest(points: seq<Point>, floor: real)
    requires OldestFirst(points, points)
    ensures LastBusy(points, floor).None? <==> forall p :: p in points ==> p.1 <= floor
    ensures LastBusy(points, floor).Some? ==>
              var at := LastBusy(points, floor).value;
              && (exists p :: p in points && p.1 > floor && p.0 == at)
              && (forall p :: p in points && p.1 > floor ==> p.0 <= at)
  {
    if points != [] {
      var n := |points| - 1;
      assert points == points[..n] + [points[n]];
      LastBusyIsNewest(points[..n], floor);
      assert points[n] in points;
    }
  }

  /** The reading depends on the datapoints alone, in whatever order they come. */
  lemma IdleReadingIs(points: seq<Point>, datapoints: seq<Point>, now: Micros, floor: real) returns (at: Micros)
    requires OldestFirst(points, datapoints)
    ensures IdleReading(points, now, floor).None? <==> datapoints == []
    ensures datapoints != [] ==>
              IdleSince(multiset(datapoints), floor, at) && IdleReading(points, now, floor) == Some(Age(now, at))
  {
    SamePoints(points, datapoints);
    LastBusyIsNewest(points, floor);
    at := 0;
    if points != [] {
      at := LastBusy(points, floor).GetOr(points[0].0);
      assert points[0] in points;
    }
  }

  lemma SamePoints(points: seq<Point>, datapoints: seq<Point>)
    requires multiset(points) == multiset(datapoints)
    ensures |points| == |datapoints|
    ensures forall p :: p in points <==> p in multiset(datapoints)
  {
    assert |multiset(points)| == |points| && |multiset(datapoints)| == |datapoints|;
    assert forall p :: p in points <==> p in multiset(points);
  }

  lemma IdleSinceIsUnique(datapoints: multiset<Point>, floor: real, at: Micros, other: Micros)
    requires IdleSince(datapoints, floor, at) && IdleSince(datapoints, floor, other)
    ensures at == other
  {
  }

  lemma OrderIsIrrelevant(points: seq<Point>, others: seq<Point>, datapoints: seq<Point>, now: Micros, floor: real)
    requires OldestFirst(points, datapoints) && OldestFirst(others, datapoints)
    ensures IdleReading(points, now, floor) == IdleReading(others, now, floor)
  {
    var at := IdleReadingIs(points, datapoints, now, floor);
    var other := IdleReadingIs(others, datapoints, now, floor);
    if datapoints != [] {
      IdleSinceIsUnique(multiset(datapoints), floor, at, other);
    }
  }

  /** Raising the floor never makes a node look busier. */
  lemma HigherFloorIsIdler(points: seq<Point>, now: Micros, low: real, high: real)
    requires OldestFirst(points, points) && low <= high && points != []
    ensures IdleReading(points, now, low).value <= IdleReading(points, now, high).value
  {
    LastBusyIsNewest(points, low);
    LastBusyIsNewest(points, high);
    assert points[0] in points;
    var early, late := LastBusy(points, high).GetOr(points[0].0), LastBusy(points, low).GetOr(points[0].0);
    assert early <= late;
    OlderIsLonger(now, early, late);
  }

  lemma OlderIsLonger(now: Micros, early: Micros, late: Micros)
    requires early <= late
    ensures Age(now, late) <= Age(now, early)
  {
  }

  /** Ages are whole seconds, rounded down, and never negative. */
  lemma AgeExactly(now: Micros, at: Micros)
    ensures if at >= now then Age(now, at) == 0
            else Age(now, at) * 1_000_000 <= now - at < (Age(now, at) + 1) * 1_000_000
  {
  }
}
