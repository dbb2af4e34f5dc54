/**
 Compass bearings in (0, 360] degrees, compass directions and target aspect.
 */
module Bearings {

  function Turns(k: int): real {
    360.0 * k as real
  }

  /** The same direction: a whole number of turns apart. */
  ghost predicate Congruent(a: real, b: real) {
    exists k: int :: b == a + Turns(k)
  }

  predicate InCircle(a: real) {
    0.0 < a <= 360.0
  }

  /** The remainder of a floating-point division, for non-negative angles. */
  function Mod360(a: real): (r: real)
    requires a >= 0.0
    ensures 0.0 <= r < 360.0
  {
    a - 360.0 * (a / 360.0).Floor as real
  }

  /** The angle in (0, 360] with the same direction. */
  function Normal(a: real): (r: real)
    ensures InCircle(r)
  {
    var m := a - 360.0 * (a / 360.0).Floor as real;
    if m == 0.0 then 360.0 else m
  }

  lemma NormalIsCongruent(a: real)
    ensures Congruent(a, Normal(a))
  {
    var f := (a / 360.0).Floor;
    if a - Turns(f) == 0.0 {
      assert Normal(a) == a + Turns(1 - f);
    } else {
      assert Normal(a) == a + Turns(-f);
    }
  }

  /** Two angles in (0, 360] with one direction are equal. */
  lemma CongruentInCircle(a: real, b: real)
    requires InCircle(a) && InCircle(b) && Congruent(a, b)
    ensures a == b
  {
    var k: int :| b == a + Turns(k);
    assert -1 < k < 1;
  }

  lemma CongruentAlgebra(a: real, b: real, c: real)
    requires Congruent(a, b)
    ensures Congruent(b, a)
    ensures Congruent(a + c, b + c)
    ensures Congruent(c - a, c - b)
    ensures Congruent(b, c) ==> Congruent(a, c)
  {
    var k: int :| b == a + Turns(k);
    assert a == b + Turns(-k);
    assert b + c == (a + c) + Turns(k);
    assert c - b == (c - a) + Turns(-k);
    if Congruent(b, c) {
      var m: int :| c == b + Turns(m);
      assert c == a + Turns(k + m);
    }
  }

  /** Normal gives equal results exactly for equal directions. */
  lemma NormalOfCongruent(a: real, b: real)
    ensures Congruent(a, b) <==> Normal(a) == Normal(b)
  {
    NormalIsCongruent(a);
    NormalIsCongruent(b);
    CongruentAlgebra(a, Normal(a), 0.0);
    CongruentAlgebra(b, Normal(b), a);
    hide Congruent, Normal;
    if Congruent(a, b) {
      CongruentAlgebra(Normal(a), a, b);
      CongruentAlgebra(Normal(a), b, Normal(b));
      CongruentInCircle(Normal(a), Normal(b));
    }
    if Normal(a) == Normal(b) {
      CongruentAlgebra(a, Normal(a), b);
    }
  }

  /** The loop adds turns until the angle is not negative. */
  method Normalize(a: real) returns (r: real)
    ensures InCircle(r) && Congruent(a, r)
    ensures r == Normal(a)
  {
    r := a;
    ghost var turns := 0;
    while r < 0.0
      invariant r == a + Turns(turns)
      decreases if r < 0.0 then 1.0 - r else 0.0
    {
      r := r + 360.0;
      turns := turns + 1;
    }
    ghost var f := (r / 360.0).Floor;
    r := Mod360(r);
    assert r == a + Turns(turns - f);
    if r == 0.0 {
      r := 360.0;
      assert r == a + Turns(turns - f + 1);
    }
    NormalIsCongruent(a);
    CongruentAlgebra(a, r, Normal(a));
    CongruentAlgebra(r, a, Normal(a));
    CongruentInCircle(r, Normal(a));
  }

  lemma NormalFixed(a: real)
    requires InCircle(a)
    ensures Normal(a) == a
  {
    NormalIsCongruent(a);
    CongruentInCircle(a, Normal(a));
  }

  /** Normalizing early changes nothing. */
  lemma NormalInside(a: real, c: real)
    ensures Normal(Normal(a) + c) == Normal(a + c)
    ensures Normal(c - Normal(a)) == Normal(c - a)
  {
    hide Normal;
    NormalIsCongruent(a);
    CongruentAlgebra(a, Normal(a), c);
    NormalOfCongruent(a + c, Normal(a) + c);
    NormalOfCongruent(c - a, c - Normal(a));
  }

  // ---------------------------------------------------------------- bearings

  datatype Bearing = True(angle: real) | Magnetic(angle: real) {
    function Value(): real {
      Normal(angle)
    }

    /** Removes the declination from a magnetic bearing. */
    function ToTrue(declination: real): Bearing {
      if True? then this else NewTrue(Value() + declination)
    }

    function ToMagnetic(declination: real): Bearing {
      if Magnetic? then this else NewMagnetic(Value() - declination)
    }

    function Reciprocal(): Bearing {
      if True? then NewTrue(Value() + 180.0) else NewMagnetic(Value() + 180.0)
    }
  }

  function NewTrue(a: real): Bearing {
    True(Normal(a))
  }

  function NewMagnetic(a: real): Bearing {
    Magnetic(Normal(a))
  }

  /** As both constructors leave it. */
  predicate Proper(b: Bearing) {
    InCircle(b.angle)
  }

  /** Turning round twice is turning not at all. */
  lemma ReciprocalIsInvolution(b: Bearing)
    requires Proper(b)
    ensures b.Reciprocal().Reciprocal() == b
    ensures b.Reciprocal() != b
  {
    hide Normal;
    var a := b.angle;
    NormalFixed(a);
    NormalFixed(Normal(a + 180.0));
    NormalInside(a + 180.0, 180.0);
    NormalOfCongruent(a, a + 360.0);
    assert a + 360.0 == a + Turns(1);
    assert Congruent(a, a + 360.0);
    assert a + 180.0 + 180.0 == a + 360.0;
    if Normal(a + 180.0) == a {
      NormalOfCongruent(a, a + 180.0);
      HalfTurn(a);
    }
  }

  lemma HalfTurn(a: real)
    ensures !Congruent(a, a + 180.0)
  {
    forall k: int ensures a + 180.0 != a + Turns(k) {
      assert k <= 0 || k >= 1;
    }
  }

  /** True to magnetic and back, and magnetic to true and back, with one declination. */
  lemma DeclinationRoundTrip(b: Bearing, declination: real)
    requires Proper(b)
    ensures b.True? ==> b.ToMagnetic(declination).ToTrue(declination) == b
    ensures b.Magnetic? ==> b.ToTrue(declination).ToMagnetic(declination) == b
  {
    hide Normal;
    var a := b.angle;
    NormalFixed(a);
    NormalFixed(Normal(a - declination));
    NormalFixed(Normal(a + declination));
    NormalInside(a - declination, declination);
    NormalInside(a + declination, -declination);
    assert Normal(a + declination) - declination == Normal(a + declination) + -declination;
    assert a - declination + declination == a && a + declination + -declination == a;
  }

  /** A magnetic bearing is the true bearing less the declination. */
  lemma DeclinationIsAdded(b: Bearing, declination: real)
    ensures b.ToTrue(declination).True? && b.ToMagnetic(declination).Magnetic?
    ensures b.Magnetic? ==> Congruent(b.angle + declination, b.ToTrue(declination).angle)
    ensures b.True? ==> Congruent(b.angle - declination, b.ToMagnetic(declination).angle)
    ensures b.True? ==> b.ToTrue(declination) == b
    ensures b.Magnetic? ==> b.ToMagnetic(declination) == b
  {
    hide Normal;
    var a := b.angle;
    NormalIsCongruent(a + declination);
    NormalIsCongruent(a - declination);
    NormalInside(a, declination);
    NormalInside(a, -declination);
    assert Normal(a) + -declination == Normal(a) - declination && a + -declination == a - declination;
  }

  // ---------------------------------------------------------------- compass directions

  datatype Direction = UnknownDirection | North | Northeast | East | Southeast | South | Southwest | West | Northwest

  function TrackFromBearing(b: Bearing): Direction {
    var a := b.Value();
    if a >= 337.5 || a < 22.5 then North
    else if a < 67.5 then Northeast
    else if a < 112.5 then East
    else if a < 157.5 then Southeast
    else if a < 202.5 then South
    else if a < 247.5 then Southwest
    else if a < 292.5 then West
    else if a < 337.5 then Northwest
    else UnknownDirection
  }

  function Clockwise(d: Direction): Direction {
    match d
    case North => Northeast
    case Northeast => East
    case East => Southeast
    case Southeast => South
    case South => Southwest
    case Southwest => West
    case West => Northwest
    case Northwest => North
    case UnknownDirection => UnknownDirection
  }

  lemma NormalBeyond(a: real)
    requires 0.0 < a <= 720.0
    ensures Normal(a) == if a <= 360.0 then a else a - 360.0
  {
    if a <= 360.0 {
      NormalFixed(a);
    } else {
      var b := a - 360.0;
      assert b == a + Turns(-1);
      assert Congruent(a, b);
      NormalOfCongruent(a, b);
      NormalFixed(b);
    }
  }

  function Heading(d: Direction): real {
    match d
    case North => 360.0
    case Northeast => 45.0
    case East => 90.0
    case Southeast => 135.0
    case South => 180.0
    case Southwest => 225.0
    case West => 270.0
    case Northwest => 315.0
    case UnknownDirection => 0.0
  }

  /** The bearing is within an eighth of a turn centred on the heading of its direction. */
  lemma DirectionIsNearest(b: Bearing) returns (offset: real)
    ensures -22.5 <= offset < 22.5 && Congruent(Heading(TrackFromBearing(b)) + offset, b.Value())
  {
    var a := b.Value();
    hide Normal;
    var d := TrackFromBearing(b);
    var k := if a < 22.5 then -1 else 0;
    offset := a - Heading(d) - Turns(k);
    assert a == Heading(d) + offset + Turns(k);
    assert Congruent(Heading(d) + offset, a);
  }

  /** Every bearing has a direction, due north is north, and an eighth of a turn clockwise moves on by
      exactly one direction. */
  lemma OctantsTurn(b: Bearing)
    ensures TrackFromBearing(b) != UnknownDirection
    ensures TrackFromBearing(NewMagnetic(b.Value() + 45.0)) == Clockwise(TrackFromBearing(b))
    ensures b.Value() == 360.0 ==> TrackFromBearing(b) == North
  {
    hide Normal;
    var a := b.Value();
    NormalBeyond(a + 45.0);
    NormalFixed(Normal(a + 45.0));
  }

  // ---------------------------------------------------------------- aspect

  datatype Aspect = UnknownAspect | Hot | Flank | Beam | Drag

  function AspectFromAngle(bearing: Bearing, track: Bearing): Aspect {
    var raw := if bearing.Reciprocal().Value() > track.Value()
               then bearing.Reciprocal().Value() - track.Value()
               else track.Reciprocal().Value() - bearing.Value();
    var a := NewMagnetic(raw).Value();
    if 0.0 <= a <= 35.0 then Hot
    else if 35.0 < a <= 75.0 then Flank
    else if 75.0 < a <= 115.0 then Beam
    else if 115.0 < a <= 245.0 then Drag
    else if 245.0 < a <= 285.0 then Beam
    else if 285.0 < a <= 325.0 then Flank
    else if 325.0 < a <= 360.0 then Hot
    else UnknownAspect
  }

  function Distance(x: real, y: real): real {
    if x > y then x - y else y - x
  }

  /** The angle between the target's track and the way back to the fighter, going the short way. */
  function Separation(bearing: Bearing, track: Bearing): real {
    var d := Distance(bearing.Reciprocal().Value(), track.Value());
    if d <= 180.0 then d else 360.0 - d
  }

  /** The aspect of a separation, the boundaries counted to the inner or to the outer side. */
  function AspectOf(separation: real, inner: bool): Aspect {
    if separation < 35.0 || (inner && separation == 35.0) then Hot
    else if separation < 75.0 || (inner && separation == 75.0) then Flank
    else if separation < 115.0 || (inner && separation == 115.0) then Beam
    else Drag
  }

  lemma BackAgain(b: real, r: real)
    requires r == Normal(b + 180.0)
    ensures Normal(b) == Normal(r + 180.0)
  {
    hide Normal;
    NormalInside(b + 180.0, 180.0);
    assert b + 180.0 + 180.0 == b + Turns(1);
    assert Congruent(b, b + 180.0 + 180.0);
    NormalOfCongruent(b, b + 180.0 + 180.0);
  }

  /** Both branches of the angle computation give the plain difference of track and reciprocal. */
  lemma AngleIsDifference(bearing: Bearing, track: Bearing)
    requires bearing.Reciprocal().Value() <= track.Value()
    ensures Normal(track.Reciprocal().Value() - bearing.Value())
            == Normal(track.Value() - bearing.Reciprocal().Value())
  {
    var b, t := bearing.Value(), track.Value();
    hide Normal;
    var r := bearing.Reciprocal().Value();
    NormalFixed(Normal(b + 180.0));
    NormalFixed(Normal(t + 180.0));
    assert r == Normal(b + 180.0) && track.Reciprocal().Value() == Normal(t + 180.0);
    NormalFixed(b);
    BackAgain(b, r);
    NormalInside(t + 180.0, -b);
    assert Normal(t + 180.0) + -b == Normal(t + 180.0) - b;
    NormalInside(r + 180.0, t + 180.0);
    assert b == Normal(r + 180.0);
    assert t + 180.0 + -b == t + 180.0 - b;
    assert t + 180.0 - (r + 180.0) == t - r;
  }

  /** The aspect is always known. It depends only on the separation, except that at exactly 35, 75
      and 115 degrees it also depends on whether the plain difference is at most half a turn. */
  lemma AspectIsSeparation(bearing: Bearing, track: Bearing)
    ensures AspectFromAngle(bearing, track) != UnknownAspect
    ensures AspectFromAngle(bearing, track) ==
            AspectOf(Separation(bearing, track), Distance(bearing.Reciprocal().Value(), track.Value()) <= 180.0)
  {
    var r, t := bearing.Reciprocal().Value(), track.Value();
    if r <= t {
      AngleIsDifference(bearing, track);
    }
    hide Normal;
    var d := Distance(r, t);
    NormalFixed(Normal(d));
    if d == 0.0 {
      assert d == 360.0 + Turns(-1);
      assert Congruent(360.0, d);
      NormalOfCongruent(360.0, d);
      NormalFixed(360.0);
    } else {
      NormalFixed(d);
    }
  }

  /** The two readings of a boundary differ exactly at the boundaries. */
  lemma BoundariesOnly(separation: real)
    ensures AspectOf(separation, true) == AspectOf(separation, false) <==>
            separation != 35.0 && separation != 75.0 && separation != 115.0
  {
  }

  lemma RotatedDistance(x: real, y: real, turn: real)
    requires InCircle(x) && InCircle(y)
    ensures var d, e := Distance(x, y), Distance(Normal(x + turn), Normal(y + turn));
            e == d || e == 360.0 - d
  {
    var p, q := Normal(x + turn), Normal(y + turn);
    NormalIsCongruent(x + turn);
    NormalIsCongruent(y + turn);
    var k: int :| p == x + turn + Turns(k);
    var m: int :| q == y + turn + Turns(m);
    var n := k - m;
    assert p - q == x - y + Turns(n);
    assert -2 < n < 2;
  }

  /** Off the boundaries, turning both the bearing and the track by the same angle keeps the aspect. */
  lemma AspectIsRotationInvariant(bearing: Bearing, track: Bearing, turn: real)
    requires bearing.Magnetic? && track.Magnetic?
    requires Separation(bearing, track) != 35.0 && Separation(bearing, track) != 75.0
             && Separation(bearing, track) != 115.0
    ensures AspectFromAngle(NewMagnetic(bearing.Value() + turn), NewMagnetic(track.Value() + turn))
            == AspectFromAngle(bearing, track)
  {
    hide Normal, AspectFromAngle;
    var b2, t2 := NewMagnetic(bearing.Value() + turn), NewMagnetic(track.Value() + turn);
    var b, t := bearing.Value(), track.Value();
    assert Separation(b2, t2) == Separation(bearing, track) by {
      NormalFixed(Normal(b + turn));
      NormalFixed(Normal(t + turn));
      NormalFixed(Normal(b + 180.0));
      NormalFixed(Normal(Normal(b + turn) + 180.0));
      NormalInside(b + turn, 180.0);
      NormalInside(b + 180.0, turn);
      assert b + turn + 180.0 == b + 180.0 + turn;
      NormalFixed(t);
      RotatedDistance(Normal(b + 180.0), t, turn);
    }
    AspectIsSeparation(bearing, track);
    AspectIsSeparation(b2, t2);
  }

  /** The aspect by how far the target's track is off the way to the fighter: up to 35 degrees it is hot, up
      to 75 flanking, up to 115 beaming, beyond that dragging. */
  lemma AspectByOffset(bearing: Bearing, track: Bearing, offset: real)
    requires -180.0 <= offset <= 180.0 && Congruent(bearing.Value() + 180.0 + offset, track.Value())
    ensures Abs(offset) < 35.0 ==> AspectFromAngle(bearing, track) == Hot
    ensures 35.0 < Abs(offset) < 75.0 ==> AspectFromAngle(bearing, track) == Flank
    ensures 75.0 < Abs(offset) < 115.0 ==> AspectFromAngle(bearing, track) == Beam
    ensures 115.0 < Abs(offset) ==> AspectFromAngle(bearing, track) == Drag
  {
    SeparationIsOffset(bearing, track, offset);
    AspectIsSeparation(bearing, track);
    hide AspectFromAngle, Separation, Normal;
  }

  function Abs(x: real): real {
    if x < 0.0 then -x else x
  }

  lemma SeparationIsOffset(bearing: Bearing, track: Bearing, offset: real)
    requires -180.0 <= offset <= 180.0 && Congruent(bearing.Value() + 180.0 + offset, track.Value())
    ensures Separation(bearing, track) == Abs(offset)
  {
    var b, t := bearing.Value(), track.Value();
    var r := bearing.Reciprocal().Value();
    NormalFixed(Normal(b + 180.0));
    assert r == Normal(b + 180.0);
    NormalIsCongruent(b + 180.0);
    var k: int :| r == b + 180.0 + Turns(k);
    var m: int :| t == b + 180.0 + offset + Turns(m);
    hide Normal;
    assert InCircle(r) && InCircle(t);
    var n := m - k;
    assert t - r == offset + Turns(n);
    assert -2 < n < 2;
  }

  /** Flying straight at the fighter is hot, flying straight away is dragging. */
  lemma HeadOnAndTailOn(bearing: Bearing)
    requires Proper(bearing)
    ensures AspectFromAngle(bearing, bearing.Reciprocal()) == Hot
    ensures AspectFromAngle(bearing, bearing) == Drag
  {
    hide AspectFromAngle, Normal;
    var a := bearing.Value();
    NormalFixed(Normal(a + 180.0));
    NormalIsCongruent(a + 180.0);
    AspectByOffset(bearing, bearing.Reciprocal(), 0.0);
    assert a == a + 180.0 + 180.0 + Turns(-1);
    assert Congruent(a + 180.0 + 180.0, a);
    AspectByOffset(bearing, bearing, 180.0);
  }
}
