/**
 Threat ranking for PICTURE calls. Groups are compared tier by tier; the two distance tiers have a
 3 NM tolerance, so the comparison is not transitive. A coarse rank decides first.
 */
module ThreatRank {
  import opened Tracks
  import opened Altitudes

  /** What the comparison looks at. Lengths are metres, the altitude is feet. */
  datatype Profile = Profile(isHelo: bool, distance: real, threatRadius: real, isFighter: bool, altitude: real)

  datatype Weighted = NaN | Finite(value: real)

  /** Distance scaled by its share of the threat radius. A zero radius divides zero by zero. */
  function WeightedDistance(distance: real, threatRadius: real): Weighted {
    var d := if distance > threatRadius then threatRadius else distance;
    if threatRadius == 0.0 then NaN else Finite(d / threatRadius * d)
  }

  /** More than 3 NM apart. Comparisons with NaN are false. */
  predicate FarApart(a: Weighted, b: Weighted) {
    a.Finite? && b.Finite? && Abs(a.value - b.value) / NAUTICAL_MILE > 3.0
  }

  predicate InRadius(p: Profile) {
    p.distance < p.threatRadius
  }

  /** Negative if `a` is the higher threat, positive if `b` is. */
  function CompareThreat(a: Profile, b: Profile): int {
    if !a.isHelo && b.isHelo then -1
    else if a.isHelo && !b.isHelo then 1
    else if InRadius(a) && !InRadius(b) then -1
    else if !InRadius(a) && InRadius(b) then 1
    else if InRadius(a) && InRadius(b) && a.isFighter && !b.isFighter then -1
    else if InRadius(a) && InRadius(b) && !a.isFighter && b.isFighter then 1
    else
      var wa, wb := WeightedDistance(a.distance, a.threatRadius), WeightedDistance(b.distance, b.threatRadius);
      if FarApart(wa, wb) then (if wa.value < wb.value then -1 else 1)
      else if Abs(a.distance - b.distance) / NAUTICAL_MILE > 3.0 && a.distance < b.distance then -1
      else if Abs(a.distance - b.distance) / NAUTICAL_MILE > 3.0 && a.distance > b.distance then 1
      else if a.altitude > b.altitude then -1
      else if a.altitude < b.altitude then 1
      else 0
  }

  /** Six levels: fixed-wing before helicopters; inside its threat radius before outside; inside it,
      fighters first. */
  function Rank(p: Profile): nat {
    (if p.isHelo then 3 else 0) + (if !InRadius(p) then 2 else if p.isFighter then 0 else 1)
  }

  lemma CompareIsAntisymmetric(a: Profile, b: Profile)
    ensures CompareThreat(a, b) == -CompareThreat(b, a)
    ensures CompareThreat(a, a) == 0
  {
    var wa, wb := WeightedDistance(a.distance, a.threatRadius), WeightedDistance(b.distance, b.threatRadius);
    assert FarApart(wa, wb) == FarApart(wb, wa);
    hide WeightedDistance;
  }

  /** A better rank always wins. */
  lemma CompareRefinesRank(a: Profile, b: Profile)
    ensures Rank(a) < Rank(b) ==> CompareThreat(a, b) < 0
    ensures CompareThreat(a, b) <= 0 ==> Rank(a) <= Rank(b)
  {
    hide WeightedDistance;
  }

  /** Of two groups outside their threat radii, the one with the clearly shorter radius counts as the
      higher threat, however far away it is. */
  lemma OutsidePrefersShortRange(a: Profile, b: Profile)
    requires a.isHelo == b.isHelo && !InRadius(a) && !InRadius(b)
    requires 0.0 < a.threatRadius && a.threatRadius + 3.0 * NAUTICAL_MILE < b.threatRadius
    ensures CompareThreat(a, b) < 0
  {
    assert a.threatRadius / a.threatRadius == 1.0 && b.threatRadius / b.threatRadius == 1.0;
    var wa, wb := WeightedDistance(a.distance, a.threatRadius), WeightedDistance(b.distance, b.threatRadius);
    assert wa == Finite(a.threatRadius) && wb == Finite(b.threatRadius);
    hide WeightedDistance;
    assert FarApart(wa, wb);
  }

  /** Within one rank the comparison can go round in a circle. */
  lemma CompareIsNotTransitive()
    ensures exists a, b, c :: Rank(a) == Rank(b) == Rank(c)
                              && CompareThreat(a, b) < 0 && CompareThreat(b, c) < 0 && CompareThreat(c, a) < 0
  {
    var r, nm := 25.0 * NAUTICAL_MILE, NAUTICAL_MILE;
    var a := Profile(false, 100.0 * nm, r, false, 10000.0);
    var b := Profile(false, 104.0 * nm, r, false, 30000.0);
    var c := Profile(false, 102.0 * nm, r, false, 20000.0);
    assert CompareThreat(a, b) < 0 && CompareThreat(b, c) < 0 && CompareThreat(c, a) < 0;
  }

  // ---------------------------------------------------------------- who wins, tier by tier

  /** One is of a better class: fixed-wing against a helicopter; then inside against outside its threat
      radius; then, inside, a fighter against anything else. */
  ghost predicate Outclasses(a: Profile, b: Profile) {
    || (!a.isHelo && b.isHelo)
    || (a.isHelo == b.isHelo && a.distance < a.threatRadius && b.distance >= b.threatRadius)
    || (a.isHelo == b.isHelo && a.distance < a.threatRadius && b.distance < b.threatRadius
        && a.isFighter && !b.isFighter)
  }

  /** The distance relative to the threat radius: the square over the radius inside it, the radius itself
      outside. */
  ghost predicate Weighs(p: Profile, weight: real) {
    if p.distance < p.threatRadius then weight * p.threatRadius == p.distance * p.distance
    else weight == p.threatRadius
  }

  /** Clearly nearer relative to its threat radius, by more than 3 NM. */
  ghost predicate ClearlyLighter(a: Profile, b: Profile) {
    && a.threatRadius != 0.0 && b.threatRadius != 0.0
    && exists x, y :: Weighs(a, x) && Weighs(b, y) && x + 3.0 * 1852.0 < y
  }

  /** Nearer by more than 3 NM. */
  ghost predicate ClearlyNearer(a: Profile, b: Profile) {
    a.distance + 3.0 * 1852.0 < b.distance
  }

  /** The higher threat: a better class; then clearly nearer relative to the threat radius; then clearly
      nearer; then higher. */
  ghost predicate HigherThreat(a: Profile, b: Profile) {
    || Outclasses(a, b)
    || (!Outclasses(b, a) &&
        (|| ClearlyLighter(a, b)
         || (!ClearlyLighter(b, a) &&
             (|| ClearlyNearer(a, b)
              || (!ClearlyNearer(b, a) && a.altitude > b.altitude)))))
  }

  lemma RankIsClass(a: Profile, b: Profile)
    ensures Rank(a) < Rank(b) <==> Outclasses(a, b)
  {
  }

  lemma WeightOf(p: Profile, weight: real)
    requires p.threatRadius != 0.0
    ensures Weighs(p, weight) <==> WeightedDistance(p.distance, p.threatRadius) == Finite(weight)
  {
    var d, r := p.distance, p.threatRadius;
    if d < r {
      assert d / r * r == d;
      Cancel(weight, d / r * d, r);
      assert (d / r * d) * r == d * d;
    } else {
      assert r / r == 1.0;
    }
  }

  lemma Cancel(x: real, y: real, r: real)
    requires r != 0.0
    ensures x * r == y * r <==> x == y
  {
    if x * r == y * r {
      assert (x - y) * r == 0.0;
    }
  }

  lemma LighterIsFarApart(a: Profile, b: Profile)
    ensures var x, y := WeightedDistance(a.distance, a.threatRadius), WeightedDistance(b.distance, b.threatRadius);
            ClearlyLighter(a, b) <==> FarApart(x, y) && x.value < y.value
  {
    if a.threatRadius != 0.0 && b.threatRadius != 0.0 {
      var x := WeightedDistance(a.distance, a.threatRadius).value;
      var y := WeightedDistance(b.distance, b.threatRadius).value;
      forall u, v | Weighs(a, u) && Weighs(b, v) ensures u == x && v == y {
        WeightOf(a, u);
        WeightOf(b, v);
      }
      WeightOf(a, x);
      WeightOf(b, y);
      hide Weighs, WeightedDistance;
      ByMiles(x, y);
    }
  }

  lemma ByMiles(x: real, y: real)
    ensures Abs(x - y) / NAUTICAL_MILE > 3.0 && x < y <==> x + 3.0 * 1852.0 < y
  {
  }

  /** The comparison finds exactly the higher threat. */
  lemma CompareByTiers(a: Profile, b: Profile)
    ensures CompareThreat(a, b) < 0 <==> HigherThreat(a, b)
  {
    LighterIsFarApart(a, b);
    LighterIsFarApart(b, a);
    ByMiles(a.distance, b.distance);
    ByMiles(b.distance, a.distance);
    hide ClearlyLighter, WeightedDistance;
  }
}
