/**
 Trackfiles: the identity of a contact and its last few observed frames, newest first.
 Lengths are metres, except altitudes, which are feet. Times are nanoseconds, and 0 is the
 zero time of an empty frame.
 */
module Tracks {

  datatype Option<+T> = None | Some(value: T)

  datatype Coalition = Red | Blue | Neutrals {
    function Opposite(): Coalition {
      match this
      case Red => Blue
      case Blue => Red
      case Neutrals => Neutrals
    }
  }

  datatype Point = Point(lon: real, lat: real)

  datatype Labels = Labels(id: nat, name: string, coalition: Coalition, acmiName: string)

  datatype Frame = Frame(time: int, point: Point, altitude: real, heading: real)

  datatype Tag = FixedWingTag | RotaryWingTag | Unarmed | Fighter | Attack

  datatype Aircraft = Aircraft(tags: set<Tag>, threatRadius: real)

  /** What the program takes from libraries and data tables: the geographic distance, the square
      root and the aircraft encyclopedia. */
  datatype World = World(
    distance: (Point, Point) -> real,
    sqrt: real -> real,
    encyclopedia: string -> Option<Aircraft>)
  {
    ghost predicate Symmetric() {
      forall p, q :: distance(p, q) == distance(q, p)
    }

    ghost predicate Lawful() {
      && Symmetric()
      && (forall p, q :: distance(p, q) >= 0.0)
      && (forall x: real :: x >= 0.0 ==> sqrt(x) >= 0.0 && sqrt(x) * sqrt(x) == x)
    }
  }

  const NAUTICAL_MILE := 1852.0
  const FOOT := 0.3048
  const KNOT := 1852.0 / 3600.0
  const ORIGIN := Point(0.0, 0.0)
  const ZERO_FRAME := Frame(0, ORIGIN, 0.0, 0.0)
  const MAX_LENGTH := 4
  const MILLISECOND := 1_000_000

  predicate NewestFirst(frames: seq<Frame>) {
    && |frames| <= MAX_LENGTH
    && forall i, j :: 0 <= i < j < |frames| ==> frames[j].time <= frames[i].time
  }

  datatype TrackData = Track(contact: Labels, frames: seq<Frame>)

  /** The contents of a trackfile at one instant. */
  type Track = t: TrackData | NewestFirst(t.frames) witness Track(Labels(0, "", Red, ""), [])

  function LastKnown(frames: seq<Frame>): Frame {
    if |frames| == 0 then ZERO_FRAME else frames[0]
  }

  function Position(t: Track): Point {
    LastKnown(t.frames).point
  }

  predicate Located(t: Track) {
    Position(t) != ORIGIN
  }

  /** Frames older than the newest one are discarded; the oldest of five is dropped. */
  function Push(frames: seq<Frame>, f: Frame): (r: seq<Frame>)
    requires NewestFirst(frames)
    ensures NewestFirst(r)
  {
    if |frames| > 0 && f.time < frames[0].time then frames
    else if |frames| == MAX_LENGTH then [f] + frames[..MAX_LENGTH - 1]
    else [f] + frames
  }

  class Trackfile {
    const contact: Labels
    var track: seq<Frame>

    ghost predicate Valid()
      reads this
    {
      NewestFirst(track)
    }

    constructor (labels: Labels)
      ensures Valid() && contact == labels && track == []
    {
      contact := labels;
      track := [];
    }

    method Update(f: Frame)
      requires Valid()
      modifies this`track
      ensures Valid()
      ensures track == Push(old(track), f)
    {
      if |track| > 0 && f.time < track[0].time {
        return;
      }
      track := [f] + track;
      while |track| > MAX_LENGTH
        invariant track == ([f] + old(track))[..|track|]
        invariant |track| == |old(track)| + 1 || |track| == MAX_LENGTH
      {
        track := track[..|track| - 1];
      }
    }
  }

  /** The track after every offered frame. */
  function History(offers: seq<Frame>): (r: seq<Frame>)
    ensures NewestFirst(r)
  {
    if |offers| == 0 then [] else Push(History(offers[..|offers| - 1]), offers[|offers| - 1])
  }

  /** A frame at least as recent as everything offered before it. */
  ghost predicate IsRecord(offers: seq<Frame>, i: nat)
    requires i < |offers|
  {
    forall j :: 0 <= j < i ==> offers[j].time <= offers[i].time
  }

  /** The record frames, newest first. */
  ghost function Records(offers: seq<Frame>): seq<Frame> {
    var n := |offers|;
    if n == 0 then []
    else if IsRecord(offers, n - 1) then [offers[n - 1]] + Records(offers[..n - 1])
    else Records(offers[..n - 1])
  }

  ghost function Take(s: seq<Frame>, n: nat): seq<Frame> {
    if |s| <= n then s else s[..n]
  }

  lemma {:induction false} LatestIsMaximum(offers: seq<Frame>)
    requires offers != []
    ensures History(offers) != []
    ensures exists i :: 0 <= i < |offers| && offers[i] == LastKnown(History(offers))
    ensures forall i :: 0 <= i < |offers| ==> offers[i].time <= LastKnown(History(offers)).time
  {
    var n := |offers| - 1;
    var before := offers[..n];
    if before == [] {
      assert offers[0] == LastKnown(History(offers));
    } else {
      LatestIsMaximum(before);
      var k :| 0 <= k < n && before[k] == LastKnown(History(before));
      assert offers[k] == before[k];
      assert forall i :: 0 <= i < n ==> offers[i] == before[i];
      assert offers[n].time < LastKnown(History(before)).time || LastKnown(History(offers)) == offers[n];
    }
  }

  /** A trackfile holds exactly the last four record frames, newest first. */
  lemma {:induction false} HistoryIsRecords(offers: seq<Frame>)
    ensures History(offers) == Take(Records(offers), 4)
  {
    if offers != [] {
      var n := |offers| - 1;
      var before := offers[..n];
      HistoryIsRecords(before);
      assert forall i :: 0 <= i < n ==> offers[i] == before[i];
      if before != [] {
        LatestIsMaximum(before);
      }
      assert IsRecord(offers, n) <==> before == [] || LastKnown(History(before)).time <= offers[n].time by {
        if before != [] {
          var k :| 0 <= k < n && before[k] == LastKnown(History(before));
          assert offers[k] == before[k];
        }
      }
    }
  }

  function Seconds(ns: int): real {
    ns as real / 1_000_000_000.0
  }

  /** Time between the two newest frames, plus a millisecond. */
  function TimeDelta(frames: seq<Frame>): (ns: int)
    requires |frames| >= 2 && NewestFirst(frames)
    ensures ns >= MILLISECOND
    ensures Seconds(ns) >= 0.001
  {
    frames[0].time - frames[1].time + MILLISECOND
  }

  function GroundSpeed(w: World, frames: seq<Frame>): real
    requires NewestFirst(frames)
  {
    if |frames| < 2 then 0.0
    else w.distance(frames[0].point, frames[1].point) / Seconds(TimeDelta(frames))
  }

  function VerticalSpeed(frames: seq<Frame>): real
    requires |frames| >= 2 && NewestFirst(frames)
  {
    var up := frames[0].altitude - frames[1].altitude;
    (if up > 0.0 then up else -up) * FOOT / Seconds(TimeDelta(frames))
  }

  function Speed(w: World, frames: seq<Frame>): real
    requires NewestFirst(frames)
  {
    if |frames| < 2 then 0.0 else
      var ground := GroundSpeed(w, frames);
      var vertical := VerticalSpeed(frames);
      var trueSpeed := w.sqrt(ground * ground + vertical * vertical);
      if ground > trueSpeed then ground else trueSpeed
  }

  lemma PositiveProduct(x: real, y: real)
    requires x > 0.0 && y > 0.0
    ensures x * y > 0.0
  {
  }

  lemma SquareOrder(x: real, y: real)
    requires x >= 0.0 && y >= 0.0
    ensures x * x <= y * y <==> x <= y
  {
    if x <= y {
      assert x * x <= x * y <= y * y;
    } else {
      var gap, sum := x - y, x + y;
      PositiveProduct(gap, sum);
      assert gap * sum == x * x - y * y;
    }
  }

  lemma TrueSpeedDecides(w: World, g: real, v: real)
    requires w.Lawful() && g >= 0.0
    ensures w.sqrt(g * g + v * v) >= g
    ensures w.sqrt(g * g + v * v) * w.sqrt(g * g + v * v) == g * g + v * v
  {
    var square := v * v;
    assert square >= 0.0;
    SquareOrder(g, w.sqrt(g * g + square));
  }

  lemma RatioNonNegative(x: real, y: real)
    requires x >= 0.0 && y > 0.0
    ensures x / y >= 0.0
  {
  }

  /** The ground-speed branch of Speed never decides: the result is always the length of the
      velocity vector, and so never below the ground speed. */
  lemma SpeedIsTrueSpeed(w: World, frames: seq<Frame>)
    requires w.Lawful() && NewestFirst(frames)
    ensures Speed(w, frames) >= GroundSpeed(w, frames) >= 0.0
    ensures |frames| >= 2 ==>
              Speed(w, frames) * Speed(w, frames)
              == GroundSpeed(w, frames) * GroundSpeed(w, frames) + VerticalSpeed(frames) * VerticalSpeed(frames)
  {
    if |frames| >= 2 {
      RatioNonNegative(w.distance(frames[0].point, frames[1].point), Seconds(TimeDelta(frames)));
      TrueSpeedDecides(w, GroundSpeed(w, frames), VerticalSpeed(frames));
    }
  }

  /** Last known position set, and faster than 50 knots. */
  predicate IsValidTrack(w: World, t: Track) {
    Located(t) && Speed(w, t.frames) > 50.0 * KNOT
  }

  /** The seconds between two frames, and a millisecond more. */
  ghost function Elapsed(newer: Frame, older: Frame): real {
    (newer.time - older.time) as real / 1_000_000_000.0 + 0.001
  }

  /** Metres climbed or sunk between two frames. */
  ghost function Climb(newer: Frame, older: Frame): real {
    (newer.altitude - older.altitude) * 0.3048
  }

  /** The distance that the ground speed covers in the time between the two newest frames is the distance
      of their points, and what the speed covers is the distance in space. */
  lemma SpeedIsDistanceOverTime(w: World, frames: seq<Frame>)
    requires w.Lawful() && NewestFirst(frames) && |frames| >= 2
    ensures var dt, d, up := Elapsed(frames[0], frames[1]), w.distance(frames[0].point, frames[1].point),
                             Climb(frames[0], frames[1]);
            && dt >= 0.001
            && GroundSpeed(w, frames) * dt == d
            && (Speed(w, frames) * dt) * (Speed(w, frames) * dt) == d * d + up * up
  {
    var dt, d, up := Elapsed(frames[0], frames[1]), w.distance(frames[0].point, frames[1].point),
                     Climb(frames[0], frames[1]);
    SecondsOfDelta(frames);
    var g, v, s := GroundSpeed(w, frames), VerticalSpeed(frames), Speed(w, frames);
    SpeedIsTrueSpeed(w, frames);
    Quotient(d, dt);
    var rise := if up > 0.0 then up else -up;
    Quotient(rise, dt);
    assert v == rise / dt;
    hide *;
    SquareOfSum(s, g, v, dt, d, rise);
    assert rise * rise == up * up;
  }

  lemma SecondsOfDelta(frames: seq<Frame>)
    requires NewestFirst(frames) && |frames| >= 2
    ensures Seconds(TimeDelta(frames)) == Elapsed(frames[0], frames[1]) >= 0.001
  {
  }

  lemma Quotient(x: real, y: real)
    requires y > 0.0
    ensures x / y * y == x
  {
  }

  lemma SquareOfSum(s: real, g: real, v: real, dt: real, d: real, rise: real)
    requires s * s == g * g + v * v && g * dt == d && v * dt == rise
    ensures (s * dt) * (s * dt) == d * d + rise * rise
  {
    assert (s * dt) * (s * dt) == (s * s) * (dt * dt);
    assert (g * g + v * v) * (dt * dt) == (g * dt) * (g * dt) + (v * dt) * (v * dt);
  }

  /** Farther, in space, than a speed reaches between the two newest frames. */
  ghost predicate Outruns(w: World, newer: Frame, older: Frame, speed: real) {
    var d, up, reach := w.distance(newer.point, older.point), Climb(newer, older), speed * Elapsed(newer, older);
    d * d + up * up > reach * reach
  }

  lemma FasterOutruns(w: World, frames: seq<Frame>, speed: real)
    requires w.Lawful() && NewestFirst(frames) && |frames| >= 2 && speed >= 0.0
    ensures Speed(w, frames) > speed <==> Outruns(w, frames[0], frames[1], speed)
  {
    var dt := Elapsed(frames[0], frames[1]);
    SpeedIsDistanceOverTime(w, frames);
    SpeedIsTrueSpeed(w, frames);
    ScaledOrder(speed, Speed(w, frames), dt);
  }

  /** A valid track is located and has moved farther than 50 knots reach between its two newest frames. */
  lemma ValidIsMoving(w: World, t: Track)
    requires w.Lawful()
    ensures IsValidTrack(w, t) <==>
            Located(t) && |t.frames| >= 2 && Outruns(w, t.frames[0], t.frames[1], 50.0 * 1852.0 / 3600.0)
  {
    hide Outruns;
    if |t.frames| >= 2 {
      FasterOutruns(w, t.frames, 50.0 * 1852.0 / 3600.0);
    }
  }

  lemma ScaledOrder(x: real, y: real, dt: real)
    requires x >= 0.0 && y >= 0.0 && dt > 0.0
    ensures y > x <==> (y * dt) * (y * dt) > (x * dt) * (x * dt)
  {
    SquareOrder(y * dt, x * dt);
    if y > x {
      PositiveProduct(y - x, dt);
    } else {
      NonNegativeProduct(x - y, dt);
    }
  }

  lemma NonNegativeProduct(x: real, y: real)
    requires x >= 0.0 && y >= 0.0
    ensures x * y >= 0.0
  {
  }
}
