/**
 PICTURE calls: the number of groups in an area and the three most threatening ones.
 */
module Picture {
  import opened Tracks
  import opened Grouping
  import opened Altitudes
  import opened ThreatRank
  import opened ThreatSort

  // ---------------------------------------------------------------- profiles of groups

  const SAR1_THREAT := 15.0 * NAUTICAL_MILE
  const SAR2_THREAT := 25.0 * NAUTICAL_MILE

  function AircraftThreatRadius(data: Option<Aircraft>): real {
    match data
    case None => SAR2_THREAT
    case Some(a) =>
      if a.threatRadius != 0.0 || Unarmed in a.tags then a.threatRadius
      else if RotaryWingTag in a.tags then 3.0 * NAUTICAL_MILE
      else if Attack in a.tags then SAR1_THREAT
      else SAR2_THREAT
  }

  function RadiusOf(w: World, t: Track): real {
    AircraftThreatRadius(w.encyclopedia(t.contact.acmiName))
  }

  /** The radius of an aircraft by its tags: 25 NM if unknown; its own if it has one or is unarmed; else 3 NM
      for a helicopter, 15 NM for an attack aircraft and 25 NM for any other. */
  lemma RadiusByTags(w: World, t: Track)
    ensures var data, r := w.encyclopedia(t.contact.acmiName), RadiusOf(w, t);
            if data.None? then r == 25.0 * 1852.0
            else
              var tags, own := data.value.tags, data.value.threatRadius;
              && (own != 0.0 ==> r == own)
              && (own == 0.0 && Unarmed in tags ==> r == 0.0)
              && (own == 0.0 && Unarmed !in tags && RotaryWingTag in tags ==> r == 3.0 * 1852.0)
              && (own == 0.0 && tags * {Unarmed, RotaryWingTag, Attack} == {Attack} ==> r == 15.0 * 1852.0)
              && (own == 0.0 && tags * {Unarmed, RotaryWingTag, Attack} == {} ==> r == 25.0 * 1852.0)
  {
    var data := w.encyclopedia(t.contact.acmiName);
    if data.Some? {
      var tags := data.value.tags;
      assert forall x :: x in tags * {Unarmed, RotaryWingTag, Attack} <==>
                           x in tags && (x == Unarmed || x == RotaryWingTag || x == Attack);
    }
  }

  /** The highest threat radius in the group, and at least 0. */
  method ThreatRadius(w: World, cs: seq<Track>) returns (highest: real)
    ensures IsThreatRadius(w, cs, highest)
  {
    highest := 0.0;
    for k := 0 to |cs|
      invariant IsThreatRadius(w, cs[..k], highest)
    {
      var radius := RadiusOf(w, cs[k]);
      if radius > highest {
        highest := radius;
      }
    }
    assert cs[..|cs|] == cs;
  }

  ghost predicate IsThreatRadius(w: World, cs: seq<Track>, radius: real) {
    && radius >= 0.0
    && (forall i :: 0 <= i < |cs| ==> RadiusOf(w, cs[i]) <= radius)
    && (radius == 0.0 || exists i :: 0 <= i < |cs| && RadiusOf(w, cs[i]) == radius)
  }

  method IsFighter(w: World, cs: seq<Track>) returns (r: bool)
    ensures r <==> exists i :: 0 <= i < |cs| && HasTag(w, cs[i], Fighter)
  {
    for k := 0 to |cs|
      invariant forall i :: 0 <= i < k ==> !HasTag(w, cs[i], Fighter)
    {
      if HasTag(w, cs[k], Fighter) {
        return true;
      }
    }
    r := false;
  }

  function LastAltitudes(cs: seq<Track>): (r: seq<real>)
    ensures |r| == |cs| && forall i :: 0 <= i < |cs| ==> r[i] == LastKnown(cs[i].frames).altitude
  {
    seq(|cs|, i requires 0 <= i < |cs| => LastKnown(cs[i].frames).altitude)
  }

  /** The profile of a group as seen from the centre of the picture. */
  ghost predicate Describes(w: World, center: Point, midpoint: (Point, Point) -> Point, cs: seq<Track>, p: Profile) {
    && cs != []
    && (p.isHelo <==> HasTag(w, cs[0], RotaryWingTag) && !HasTag(w, cs[0], FixedWingTag))
    && p.distance == w.distance(center, Centre(midpoint, cs, |cs|))
    && IsThreatRadius(w, cs, p.threatRadius)
    && (p.isFighter <==> exists i :: 0 <= i < |cs| && HasTag(w, cs[i], Fighter))
    && p.altitude == GroupAltitude(LastAltitudes(cs))
  }

  /** A group has one profile. */
  lemma DescribesOnce(w: World, center: Point, midpoint: (Point, Point) -> Point, cs: seq<Track>,
      p: Profile, q: Profile)
    requires Describes(w, center, midpoint, cs, p) && Describes(w, center, midpoint, cs, q)
    ensures p == q
  {
    hide GroupAltitude, RadiusOf, Centre;
  }

  method ProfileOf(w: World, center: Point, midpoint: (Point, Point) -> Point, cs: seq<Track>) returns (p: Profile)
    requires cs != []
    ensures Describes(w, center, midpoint, cs, p)
  {
    var point := GroupPoint(midpoint, cs);
    var radius := ThreatRadius(w, cs);
    var fighter := IsFighter(w, cs);
    var altitude := GroupAltitude(LastAltitudes(cs));
    p := Profile(SeedCategory(w, cs[0]) == RotaryWing, w.distance(center, point), radius, fighter, altitude);
  }

  // ---------------------------------------------------------------- the picture

  ghost predicate AllDescribed(w: World, center: Point, midpoint: (Point, Point) -> Point, entries: seq<Entry>) {
    forall e :: e in entries ==> Describes(w, center, midpoint, e.group, e.profile)
  }

  ghost function GroupsIn(entries: seq<Entry>): (r: seq<seq<Track>>)
    ensures |r| == |entries| && forall i :: 0 <= i < |r| ==> r[i] == entries[i].group
  {
    seq(|entries|, i requires 0 <= i < |entries| => entries[i].group)
  }

  lemma WithoutOne<T>(s: seq<T>, k: nat)
    requires k < |s|
    ensures multiset(s) == multiset(s[..k] + s[k + 1..]) + multiset{s[k]}
  {
    assert s == s[..k] + [s[k]] + s[k + 1..];
  }

  lemma WithoutEntry(s: seq<Entry>, k: nat)
    requires k < |s|
    ensures var rest := s[..k] + s[k + 1..];
            && multiset(rest) == multiset(s) - multiset{s[k]}
            && multiset(GroupsIn(s)) == multiset(GroupsIn(rest)) + multiset{s[k].group}
  {
    var g := GroupsIn(s);
    assert GroupsIn(s[..k] + s[k + 1..]) == g[..k] + g[k + 1..];
    WithoutOne(s, k);
    WithoutOne(g, k);
  }

  lemma {:induction false} SameGroups(s: seq<Entry>, t: seq<Entry>)
    requires multiset(s) == multiset(t)
    ensures multiset(GroupsIn(s)) == multiset(GroupsIn(t))
    decreases |s|
  {
    hide GroupsIn;
    if s == [] {
      assert |multiset(t)| == 0;
    } else {
      assert s[0] in multiset(t);
      var k :| 0 <= k < |t| && t[k] == s[0];
      WithoutEntry(s, 0);
      WithoutEntry(t, k);
      var x, y := s[..0] + s[1..], t[..k] + t[k + 1..];
      SameGroups(x, y);
    }
  }

  /** Of the groups, some order of all of them starts with the result, and no group left out is of a better
      class than one in the result. Among up to twelve groups, none is a higher threat than the one
      before it. */
  ghost predicate IsTop(w: World, center: Point, midpoint: (Point, Point) -> Point, groups: seq<seq<Track>>,
      order: seq<seq<Track>>, top: seq<seq<Track>>) {
    && multiset(order) == multiset(groups)
    && |top| <= |order| && top == order[..|top|]
    && (forall i, j, p, q | 0 <= i < |top| <= j < |order|
                            && Describes(w, center, midpoint, order[i], p)
                            && Describes(w, center, midpoint, order[j], q) :: !Outclasses(q, p))
    && (|order| <= 12 ==>
          forall i, j, p, q | 0 <= i < j < |order| && j == i + 1
                              && Describes(w, center, midpoint, order[i], p)
                              && Describes(w, center, midpoint, order[j], q) :: !HigherThreat(q, p))
  }

  method Profiles(w: World, center: Point, midpoint: (Point, Point) -> Point, groups: seq<seq<Track>>)
    returns (entries: seq<Entry>)
    requires forall i :: 0 <= i < |groups| ==> groups[i] != []
    ensures AllDescribed(w, center, midpoint, entries) && GroupsIn(entries) == groups
  {
    hide Describes;
    entries := [];
    for k := 0 to |groups|
      invariant AllDescribed(w, center, midpoint, entries) && GroupsIn(entries) == groups[..k]
    {
      var p := ProfileOf(w, center, midpoint, groups[k]);
      entries := entries + [Entry(groups[k], p)];
    }
  }

  /** The number of groups and the three most threatening ones. */
  method GetPicture(w: World, center: Point, midpoint: (Point, Point) -> Point, groups: seq<seq<Track>>)
    returns (count: nat, top: seq<seq<Track>>, ghost order: seq<seq<Track>>)
    requires forall i :: 0 <= i < |groups| ==> groups[i] != []
    ensures count == |groups| && |top| == (if count < 3 then count else 3)
    ensures IsTop(w, center, midpoint, groups, order, top)
  {
    hide Rank, CompareThreat, Describes, IsTop;
    var entries := Profiles(w, center, midpoint, groups);
    var data := new Entry[|entries|](i requires 0 <= i < |entries| => entries[i]);
    assert data[..] == entries;
    SortByThreat(data);
    ghost var sorted := data[..];
    SameGroups(sorted, entries);
    order := GroupsIn(sorted);
    count := data.Length;
    var capacity := 3;
    if data.Length < capacity {
      capacity := data.Length;
    }
    top := [];
    for i := 0 to capacity
      invariant data[..] == sorted && top == order[..i]
    {
      top := top + [data[i].group];
    }
    TopOfSorted(w, center, midpoint, groups, entries, sorted, top);
  }

  /** Neighbours in the sorted list are in order. */
  ghost predicate NeighboursInOrder(sorted: seq<Entry>) {
    forall i, j :: 0 <= i && j == i + 1 && j < |sorted| ==> CompareThreat(sorted[i].profile, sorted[j].profile) <= 0
  }

  lemma TopOfSorted(w: World, center: Point, midpoint: (Point, Point) -> Point, groups: seq<seq<Track>>,
      entries: seq<Entry>, sorted: seq<Entry>, top: seq<seq<Track>>)
    requires AllDescribed(w, center, midpoint, entries) && GroupsIn(entries) == groups
    requires multiset(sorted) == multiset(entries) && |top| <= |sorted| && top == GroupsIn(sorted)[..|top|]
    requires forall i, j :: 0 <= i < j < |sorted| ==> Rank(sorted[i].profile) <= Rank(sorted[j].profile)
    requires |sorted| <= 12 ==> NeighboursInOrder(sorted)
    ensures IsTop(w, center, midpoint, groups, GroupsIn(sorted), top)
  {
    hide Rank, Describes, CompareThreat, HigherThreat, Outclasses;
    SameGroups(sorted, entries);
    var order := GroupsIn(sorted);
    forall i, p | 0 <= i < |order| && Describes(w, center, midpoint, order[i], p) ensures p == sorted[i].profile {
      assert sorted[i] in multiset(entries);
      DescribesOnce(w, center, midpoint, order[i], p, sorted[i].profile);
    }
    forall i, j | 0 <= i < |top| <= j < |order| ensures !Outclasses(sorted[j].profile, sorted[i].profile) {
      RankIsClass(sorted[j].profile, sorted[i].profile);
    }
    if |order| <= 12 {
      forall i, j | 0 <= i < j < |order| && j == i + 1 ensures !HigherThreat(sorted[j].profile, sorted[i].profile) {
        CompareIsAntisymmetric(sorted[i].profile, sorted[j].profile);
        CompareByTiers(sorted[j].profile, sorted[i].profile);
      }
    }
  }
}
