/**
 Altitude STACKS: altitudes are rounded, sorted and collected from the top down into layers of less
 than 9900 feet. Altitudes are in feet.
 */
module Altitudes {

  const LAYER := 9900.0

  datatype Stack = Stack(altitude: real, count: nat)

  function Abs(x: real): real {
    if x < 0.0 then -x else x
  }

  /** Rounds half up, as rounding half away from zero does on non-negative numbers. */
  function Round(x: real): int {
    (x + 0.5).Floor
  }

  /** The absolute altitude to the nearest 1000 feet, or 100 feet if below 1000. */
  function NormalizeAltitude(altitude: real): (r: real) {
    var width := if Abs(altitude) < 1000.0 then 100 else 1000;
    (width * Round(Abs(altitude) / width as real)) as real
  }

  lemma RoundNear(x: real)
    requires x >= 0.0
    ensures Round(x) >= 0
    ensures x - 0.5 < Round(x) as real <= x + 0.5
  {
  }

  lemma RoundWhole(n: int)
    ensures Round(n as real) == n
  {
    assert (n as real + 0.5).Floor == n;
  }

  ghost predicate Multiple(x: real, width: int) {
    exists n: int :: x == (width * n) as real
  }

  function BucketWidth(x: real): int {
    if Abs(x) < 1000.0 then 100 else 1000
  }

  /** The nearest multiple of the bucket width, the upper one in the middle. */
  lemma NormalizeIsNearest(x: real)
    ensures -1000.0 < x < 1000.0 ==>
              Multiple(NormalizeAltitude(x), 100) && -50.0 < NormalizeAltitude(x) - Abs(x) <= 50.0
    ensures !(-1000.0 < x < 1000.0) ==>
              Multiple(NormalizeAltitude(x), 1000) && -500.0 < NormalizeAltitude(x) - Abs(x) <= 500.0
    ensures NormalizeAltitude(x) >= 0.0
  {
    var width := BucketWidth(x);
    var q := Abs(x) / width as real;
    RoundNear(q);
    assert NormalizeAltitude(x) == (width * Round(q)) as real;
    assert Abs(x) == q * width as real;
    if width == 100 {
      assert (width * Round(q)) as real == 100.0 * Round(q) as real;
    } else {
      assert (width * Round(q)) as real == 1000.0 * Round(q) as real;
    }
  }

  /** Rounding an altitude twice changes nothing. */
  lemma NormalizeIsIdempotent(x: real)
    ensures NormalizeAltitude(NormalizeAltitude(x)) == NormalizeAltitude(x)
  {
    var a := Abs(x);
    var width := BucketWidth(x);
    var n := Round(a / width as real);
    RoundNear(a / width as real);
    var r := NormalizeAltitude(x);
    if width == 100 {
      assert r == 100.0 * n as real && n <= 10;
      if n < 10 {
        assert r / 100.0 == n as real;
        RoundWhole(n);
      } else {
        assert r / 1000.0 == 1.0;
        RoundWhole(1);
      }
    } else {
      assert r == 1000.0 * n as real && n >= 1;
      assert r / 1000.0 == n as real;
      RoundWhole(n);
    }
  }

  // ---------------------------------------------------------------- sorting

  ghost predicate Ascending(s: seq<real>) {
    forall i, j :: 0 <= i < j < |s| ==> s[i] <= s[j]
  }

  function Insert(x: real, s: seq<real>): (r: seq<real>)
    ensures |r| == |s| + 1
    ensures forall y :: y in r <==> y == x || y in s
  {
    if s == [] then [x]
    else if x <= s[0] then [x] + s
    else
      assert s == [s[0]] + s[1..];
      [s[0]] + Insert(x, s[1..])
  }

  function Sorted(s: seq<real>): (r: seq<real>)
    ensures |r| == |s|
    ensures forall y :: y in r <==> y in s
  {
    if s == [] then []
    else
      var n := |s| - 1;
      assert s == s[..n] + [s[n]];
      Insert(s[n], Sorted(s[..n]))
  }

  lemma {:induction false} InsertAscending(x: real, s: seq<real>)
    requires Ascending(s)
    ensures Ascending(Insert(x, s))
  {
    if s != [] && x > s[0] {
      var tail := Insert(x, s[1..]);
      InsertAscending(x, s[1..]);
      forall k | 0 <= k < |tail| ensures s[0] <= tail[k] {
        assert tail[k] in tail;
      }
    }
  }

  lemma {:induction false} SortedAscending(s: seq<real>)
    ensures Ascending(Sorted(s))
  {
    if s != [] {
      var n := |s| - 1;
      SortedAscending(s[..n]);
      InsertAscending(s[n], Sorted(s[..n]));
    }
  }

  // ---------------------------------------------------------------- stacking

  function Normalized(s: seq<real>): (r: seq<real>)
    ensures |r| == |s| && forall i :: 0 <= i < |s| ==> r[i] == NormalizeAltitude(s[i])
  {
    seq(|s|, i requires 0 <= i < |s| => NormalizeAltitude(s[i]))
  }

  /** One altitude, met on the way down. */
  function Place(stacks: seq<Stack>, x: real): seq<Stack> {
    if x == 0.0 then stacks
    else if stacks == [] then [Stack(x, 1)]
    else
      var j := |stacks| - 1;
      if x <= stacks[j].altitude - LAYER then stacks + [Stack(x, 1)]
      else stacks[j := Stack(stacks[j].altitude, stacks[j].count + 1)]
  }

  /** The stacks of ascending altitudes, built from the last one down. */
  function Greedy(s: seq<real>): seq<Stack> {
    if s == [] then [] else Place(Greedy(s[1..]), s[0])
  }

  function StacksOf(altitudes: seq<real>): seq<Stack> {
    Greedy(Sorted(Normalized(altitudes)))
  }

  /** The altitudes are rounded and sorted in place. */
  method Stacks(a: array<real>) returns (stacks: seq<Stack>)
    modifies a
    ensures a[..] == Sorted(Normalized(old(a[..])))
    ensures stacks == StacksOf(old(a[..]))
  {
    hide NormalizeAltitude, Sorted, Place;
    for i := 0 to a.Length
      invariant forall k :: 0 <= k < i ==> a[k] == NormalizeAltitude(old(a[k]))
      invariant forall k :: i <= k < a.Length ==> a[k] == old(a[k])
    {
      a[i] := NormalizeAltitude(a[i]);
    }
    assert a[..] == Normalized(old(a[..]));
    Sort(a);
    ghost var s := a[..];
    stacks := [];
    var i := a.Length;
    while i > 0
      invariant 0 <= i <= a.Length && a[..] == s
      invariant stacks == Greedy(s[i..])
    {
      i := i - 1;
      assert s[i..][1..] == s[i + 1..];
      if a[i] == 0.0 {
        PlaceZero(stacks);
        continue;
      }
      PlaceOne(stacks, a[i]);
      if |stacks| == 0 {
        stacks := stacks + [Stack(a[i], 1)];
      } else {
        var j := |stacks| - 1;
        var highest := stacks[j].altitude;
        if a[i] <= highest - LAYER {
          stacks := stacks + [Stack(a[i], 1)];
        } else {
          stacks := stacks[j := Stack(highest, stacks[j].count + 1)];
        }
      }
    }
    assert s[0..] == s;
  }

  lemma PlaceZero(stacks: seq<Stack>)
    ensures Place(stacks, 0.0) == stacks
  {
  }

  lemma PlaceOne(stacks: seq<Stack>, x: real)
    requires x != 0.0
    ensures stacks == [] ==> Place(stacks, x) == stacks + [Stack(x, 1)]
    ensures stacks != [] ==>
              var j := |stacks| - 1;
              Place(stacks, x) == if x <= stacks[j].altitude - LAYER then stacks + [Stack(x, 1)]
                                  else stacks[j := Stack(stacks[j].altitude, stacks[j].count + 1)]
  {
  }

  /** The library sort, which has only one possible result here. */
  method Sort(a: array<real>)
    modifies a
    ensures a[..] == Sorted(old(a[..]))
  {
    var s := Sorted(a[..]);
    for i := 0 to a.Length
      invariant a[..i] == s[..i]
    {
      a[i] := s[i];
    }
  }

  // ---------------------------------------------------------------- what the stacks are

  /** A non-zero altitude in the layer below `top`. */
  predicate InLayer(x: real, top: real) {
    x != 0.0 && top - 9900.0 < x <= top
  }

  ghost function CountLayer(s: seq<real>, top: real): nat {
    if s == [] then 0 else CountLayer(s[1..], top) + if InLayer(s[0], top) then 1 else 0
  }

  ghost function CountNonZero(s: seq<real>): nat {
    if s == [] then 0 else CountNonZero(s[1..]) + if s[0] != 0.0 then 1 else 0
  }

  ghost function TotalCount(stacks: seq<Stack>): nat {
    if stacks == [] then 0 else TotalCount(stacks[..|stacks| - 1]) + stacks[|stacks| - 1].count
  }

  /** Tops fall by at least 9900 feet. */
  ghost predicate Spaced(stacks: seq<Stack>) {
    forall i, j :: 0 <= i < j < |stacks| ==> stacks[j].altitude <= stacks[i].altitude - 9900.0
  }

  ghost predicate Covered(stacks: seq<Stack>, x: real) {
    exists i :: 0 <= i < |stacks| && InLayer(x, stacks[i].altitude)
  }

  ghost predicate Counted(stacks: seq<Stack>, s: seq<real>) {
    forall i :: 0 <= i < |stacks| ==> stacks[i].count == CountLayer(s, stacks[i].altitude)
  }

  ghost predicate TopsFrom(stacks: seq<Stack>, s: seq<real>) {
    forall i :: 0 <= i < |stacks| ==> stacks[i].altitude in s && stacks[i].altitude != 0.0
  }

  lemma {:induction false} CountNone(s: seq<real>, top: real)
    requires forall x :: x in s ==> !InLayer(x, top)
    ensures CountLayer(s, top) == 0
  {
    if s != [] {
      assert forall x :: x in s[1..] ==> x in s;
      CountNone(s[1..], top);
    }
  }

  ghost predicate AllCovered(stacks: seq<Stack>, s: seq<real>) {
    forall x | x in s && x != 0.0 :: Covered(stacks, x)
  }

  /** Tops are altitudes, fall by 9900 feet, count their layer exactly, and leave no non-zero altitude
      out. */
  ghost predicate Sound(stacks: seq<Stack>, s: seq<real>) {
    Spaced(stacks) && TopsFrom(stacks, s) && Counted(stacks, s) && AllCovered(stacks, s)
  }

  /** Where the next lower altitude goes. */
  ghost predicate OpensLayer(stacks: seq<Stack>, x: real) {
    stacks == [] || x <= stacks[|stacks| - 1].altitude - LAYER
  }

  lemma PlaceSpaced(stacks: seq<Stack>, x: real)
    requires Spaced(stacks)
    ensures Spaced(Place(stacks, x))
  {
    var after := Place(stacks, x);
    forall i, j | 0 <= i < j < |after| ensures after[j].altitude <= after[i].altitude - LAYER {
      if j == |stacks| && i < |stacks| - 1 {
        assert stacks[|stacks| - 1].altitude <= stacks[i].altitude - LAYER;
      }
    }
  }

  lemma PlaceTops(stacks: seq<Stack>, rest: seq<real>, x: real)
    requires TopsFrom(stacks, rest)
    ensures TopsFrom(Place(stacks, x), [x] + rest)
  {
  }

  lemma PlaceCovered(stacks: seq<Stack>, rest: seq<real>, x: real)
    requires AllCovered(stacks, rest) && (stacks != [] ==> x <= stacks[|stacks| - 1].altitude)
    ensures AllCovered(Place(stacks, x), [x] + rest)
  {
    var after := Place(stacks, x);
    forall y | y in [x] + rest && y != 0.0 ensures Covered(after, y) {
      if y in rest {
        assert Covered(stacks, y);
        var i :| 0 <= i < |stacks| && InLayer(y, stacks[i].altitude);
        assert after[i].altitude == stacks[i].altitude;
      } else {
        assert InLayer(x, after[|after| - 1].altitude);
      }
    }
  }

  /** Altitudes already placed lie above a layer that opens below them. */
  lemma AboveNewLayer(stacks: seq<Stack>, x: real, y: real)
    requires Spaced(stacks) && Covered(stacks, y) && OpensLayer(stacks, x)
    ensures y > x
  {
    var i :| 0 <= i < |stacks| && InLayer(y, stacks[i].altitude);
    assert stacks[|stacks| - 1].altitude <= stacks[i].altitude;
  }

  lemma CountOpened(stacks: seq<Stack>, rest: seq<real>, x: real)
    requires Spaced(stacks) && AllCovered(stacks, rest) && OpensLayer(stacks, x)
    ensures CountLayer(rest, x) == 0
  {
    forall y | y in rest ensures !InLayer(y, x) {
      if y != 0.0 {
        assert Covered(stacks, y);
        AboveNewLayer(stacks, x, y);
      }
    }
    CountNone(rest, x);
  }

  lemma CountMore(rest: seq<real>, x: real, top: real)
    ensures CountLayer([x] + rest, top) == CountLayer(rest, top) + if InLayer(x, top) then 1 else 0
  {
    assert ([x] + rest)[1..] == rest;
  }

  lemma PlaceCounted(stacks: seq<Stack>, rest: seq<real>, x: real)
    requires Spaced(stacks) && Counted(stacks, rest) && AllCovered(stacks, rest)
    requires stacks != [] ==> x <= stacks[|stacks| - 1].altitude
    ensures Counted(Place(stacks, x), [x] + rest)
  {
    hide AllCovered, CountLayer;
    var after := Place(stacks, x);
    if OpensLayer(stacks, x) {
      CountOpened(stacks, rest, x);
    }
    forall i | 0 <= i < |after| ensures after[i].count == CountLayer([x] + rest, after[i].altitude) {
      CountMore(rest, x, after[i].altitude);
      if i < |stacks| - 1 {
        assert stacks[|stacks| - 1].altitude <= stacks[i].altitude - LAYER;
      }
    }
  }

  lemma {:induction false} GreedyIsSound(s: seq<real>)
    requires Ascending(s)
    ensures Sound(Greedy(s), s)
  {
    hide Spaced, Counted, AllCovered, Place;
    if s != [] {
      var rest, x := s[1..], s[0];
      GreedyIsSound(rest);
      var stacks := Greedy(rest);
      assert stacks != [] ==> stacks[|stacks| - 1].altitude in rest;
      PlaceSpaced(stacks, x);
      PlaceTops(stacks, rest, x);
      PlaceCovered(stacks, rest, x);
      PlaceCounted(stacks, rest, x);
      assert [x] + rest == s;
    } else {
      NothingIsSound();
    }
  }

  lemma NothingIsSound()
    ensures Sound([], [])
  {
  }

  lemma TotalAppend(stacks: seq<Stack>, x: Stack)
    ensures TotalCount(stacks + [x]) == TotalCount(stacks) + x.count
  {
    assert (stacks + [x])[..|stacks|] == stacks;
  }

  /** Every non-zero altitude is counted once. */
  lemma {:induction false} GreedyCountsAll(s: seq<real>)
    ensures TotalCount(Greedy(s)) == CountNonZero(s)
  {
    if s != [] {
      GreedyCountsAll(s[1..]);
      var stacks, x := Greedy(s[1..]), s[0];
      if x != 0.0 {
        if stacks == [] || x <= stacks[|stacks| - 1].altitude - LAYER {
          TotalAppend(stacks, Stack(x, 1));
        } else {
          var j := |stacks| - 1;
          assert stacks[j := Stack(stacks[j].altitude, stacks[j].count + 1)][..j] == stacks[..j];
        }
      }
    }
  }

  lemma {:induction false} InsertCounts(x: real, s: seq<real>, top: real)
    ensures CountLayer(Insert(x, s), top) == CountLayer(s, top) + if InLayer(x, top) then 1 else 0
    ensures CountNonZero(Insert(x, s)) == CountNonZero(s) + if x != 0.0 then 1 else 0
  {
    if s == [] || x <= s[0] {
      assert Insert(x, s)[1..] == s;
    } else {
      InsertCounts(x, s[1..], top);
      assert Insert(x, s)[1..] == Insert(x, s[1..]);
    }
  }

  lemma {:induction false} AppendCounts(s: seq<real>, x: real, top: real)
    ensures CountLayer(s + [x], top) == CountLayer(s, top) + if InLayer(x, top) then 1 else 0
    ensures CountNonZero(s + [x]) == CountNonZero(s) + if x != 0.0 then 1 else 0
  {
    if s == [] {
      assert (s + [x])[1..] == [];
    } else {
      assert (s + [x])[1..] == s[1..] + [x];
      AppendCounts(s[1..], x, top);
    }
  }

  lemma {:induction false} SortedCounts(s: seq<real>, top: real)
    ensures CountLayer(Sorted(s), top) == CountLayer(s, top)
    ensures CountNonZero(Sorted(s)) == CountNonZero(s)
  {
    if s != [] {
      var n := |s| - 1;
      SortedCounts(s[..n], top);
      InsertCounts(s[n], Sorted(s[..n]), top);
      AppendCounts(s[..n], s[n], top);
      assert s[..n] + [s[n]] == s;
    }
  }

  /** The stacks of any altitudes: each top is a rounded altitude, tops fall by at least 9900 feet,
      each count is the number of rounded altitudes in the 9900 feet down from its top, and no non-zero
      one is left out or counted twice. */
  lemma StacksAreLayers(altitudes: seq<real>)
    ensures Sound(StacksOf(altitudes), Normalized(altitudes))
    ensures TotalCount(StacksOf(altitudes)) == CountNonZero(Normalized(altitudes))
  {
    hide NormalizeAltitude, Sorted, Greedy, Spaced, Covered;
    var s := Normalized(altitudes);
    SortedAscending(s);
    GreedyIsSound(Sorted(s));
    GreedyCountsAll(Sorted(s));
    SortedCounts(s, 0.0);
    var stacks := StacksOf(altitudes);
    forall i | 0 <= i < |stacks| ensures stacks[i].count == CountLayer(s, stacks[i].altitude) {
      SortedCounts(s, stacks[i].altitude);
    }
  }

  // ---------------------------------------------------------------- optimality

  ghost predicate Covers(tops: seq<real>, x: real) {
    exists k :: 0 <= k < |tops| && InLayer(x, tops[k])
  }

  /** Spaced tops need as many layers as there are tops. */
  lemma {:induction false} SpacedTopsNeedLayers(stacks: seq<Stack>, tops: seq<real>, n: nat) returns (used: set<nat>)
    requires n <= |stacks| && Spaced(stacks)
    requires forall i :: 0 <= i < |stacks| ==> Covers(tops, stacks[i].altitude)
    ensures |used| == n
    ensures forall k :: k in used ==> k < |tops| && exists i :: 0 <= i < n && InLayer(stacks[i].altitude, tops[k])
  {
    if n == 0 {
      used := {};
    } else {
      var before := SpacedTopsNeedLayers(stacks, tops, n - 1);
      assert Covers(tops, stacks[n - 1].altitude);
      var k :| 0 <= k < |tops| && InLayer(stacks[n - 1].altitude, tops[k]);
      forall i | 0 <= i < n - 1 ensures !InLayer(stacks[i].altitude, tops[k]) {
        assert stacks[n - 1].altitude <= stacks[i].altitude - LAYER;
      }
      used := before + {k};
      forall m | m in used ensures m < |tops| && exists i :: 0 <= i < n && InLayer(stacks[i].altitude, tops[m]) {
        if m == k {
          assert InLayer(stacks[n - 1].altitude, tops[m]);
        } else {
          var i :| 0 <= i < n - 1 && InLayer(stacks[i].altitude, tops[m]);
        }
      }
    }
  }

  lemma {:induction false} BoundedSet(s: set<nat>, n: nat)
    requires forall k :: k in s ==> k < n
    ensures |s| <= n
  {
    if n > 0 {
      BoundedSet(s - {n - 1}, n - 1);
    } else {
      assert s == {};
    }
  }

  /** No choice of 9900-foot layers covers the altitudes with fewer layers than there are stacks. */
  lemma StacksAreOptimal(altitudes: seq<real>, tops: seq<real>)
    requires forall x :: x in Normalized(altitudes) && x != 0.0 ==> Covers(tops, x)
    ensures |StacksOf(altitudes)| <= |tops|
  {
    hide StacksOf, NormalizeAltitude;
    StacksAreLayers(altitudes);
    var used := SpacedTopsNeedLayers(StacksOf(altitudes), tops, |StacksOf(altitudes)|);
    BoundedSet(used, |tops|);
  }

  // ---------------------------------------------------------------- stacking the tops again

  function Tops(stacks: seq<Stack>): (r: seq<real>)
    ensures |r| == |stacks| && forall i :: 0 <= i < |stacks| ==> r[i] == stacks[i].altitude
  {
    seq(|stacks|, i requires 0 <= i < |stacks| => stacks[i].altitude)
  }

  function Ones(tops: seq<real>): (r: seq<Stack>)
    ensures |r| == |tops| && forall i :: 0 <= i < |tops| ==> r[i] == Stack(tops[i], 1)
  {
    seq(|tops|, i requires 0 <= i < |tops| => Stack(tops[i], 1))
  }

  ghost predicate Falling(tops: seq<real>) {
    && (forall i, j :: 0 <= i < j < |tops| ==> tops[j] <= tops[i] - LAYER)
    && forall i :: 0 <= i < |tops| ==> tops[i] != 0.0
  }

  lemma {:induction false} RestackFalling(tops: seq<real>)
    requires Falling(tops)
    ensures Greedy(Sorted(tops)) == Ones(tops)
  {
    if tops != [] {
      var n := |tops| - 1;
      var before, x := tops[..n], tops[n];
      RestackFalling(before);
      var s := Sorted(before);
      assert s != [] ==> s[0] in s;
      assert s != [] ==> x <= s[0];
      assert Sorted(tops) == [x] + s && ([x] + s)[1..] == s;
      assert Ones(tops) == Ones(before) + [Stack(x, 1)];
    }
  }

  /** Stacking the tops again gives the same tops, each counted once. */
  lemma RestackKeepsTops(altitudes: seq<real>)
    ensures StacksOf(Tops(StacksOf(altitudes))) == Ones(Tops(StacksOf(altitudes)))
  {
    hide StacksOf, NormalizeAltitude, Greedy, Sorted;
    var tops := Tops(StacksOf(altitudes));
    StacksAreLayers(altitudes);
    forall i | 0 <= i < |tops| ensures NormalizeAltitude(tops[i]) == tops[i] {
      var k :| 0 <= k < |altitudes| && Normalized(altitudes)[k] == tops[i];
      NormalizeIsIdempotent(altitudes[k]);
    }
    RestackIsGreedy(tops);
    RestackFalling(tops);
  }

  lemma RestackIsGreedy(tops: seq<real>)
    requires forall i :: 0 <= i < |tops| ==> NormalizeAltitude(tops[i]) == tops[i]
    ensures StacksOf(tops) == Greedy(Sorted(tops))
  {
    hide NormalizeAltitude, Greedy, Sorted;
    assert Normalized(tops) == tops;
  }

  function GroupAltitude(altitudes: seq<real>): real {
    var stacks := StacksOf(altitudes);
    if stacks == [] then 0.0 else stacks[0].altitude
  }

  /** The altitude of a BRAA built from the given altitudes. */
  function BraaAltitude(altitudes: seq<real>): real {
    var stacks := StacksOf(altitudes);
    if stacks == [] then 0.0 else NormalizeAltitude(stacks[0].altitude)
  }

  /** The highest rounded altitude, or 0 if there is none. */
  ghost predicate IsHighest(altitudes: seq<real>, x: real) {
    && x >= 0.0
    && (forall i :: 0 <= i < |altitudes| ==> NormalizeAltitude(altitudes[i]) <= x)
    && (x == 0.0 || exists i :: 0 <= i < |altitudes| && NormalizeAltitude(altitudes[i]) == x)
  }

  lemma GroupAltitudeIsHighest(altitudes: seq<real>)
    ensures IsHighest(altitudes, GroupAltitude(altitudes)) && IsHighest(altitudes, BraaAltitude(altitudes))
  {
    hide NormalizeAltitude, StacksOf;
    StacksAreLayers(altitudes);
    var stacks, s := StacksOf(altitudes), Normalized(altitudes);
    forall i | 0 <= i < |altitudes| ensures s[i] >= 0.0 {
      NormalizeIsNearest(altitudes[i]);
    }
    if stacks != [] {
      var top := stacks[0].altitude;
      assert top in s;
      var k :| 0 <= k < |altitudes| && s[k] == top;
      NormalizeIsIdempotent(altitudes[k]);
      forall i | 0 <= i < |altitudes| ensures s[i] <= top {
        if s[i] != 0.0 {
          assert s[i] in s;
          var j :| 0 <= j < |stacks| && InLayer(s[i], stacks[j].altitude);
          assert stacks[j].altitude <= top;
        }
      }
    } else {
      forall i | 0 <= i < |altitudes| ensures s[i] == 0.0 {
        assert s[i] in s;
      }
    }
  }

  /** A BRAA call built from a group's stack altitudes gives the group's own altitude. */
  lemma BraaAltitudeIsGroupAltitude(altitudes: seq<real>)
    ensures BraaAltitude(Tops(StacksOf(altitudes))) == GroupAltitude(altitudes)
  {
    hide NormalizeAltitude, StacksOf;
    RestackKeepsTops(altitudes);
    var stacks := StacksOf(altitudes);
    if stacks != [] {
      StacksAreLayers(altitudes);
      assert stacks[0].altitude in Normalized(altitudes);
      var k :| 0 <= k < |altitudes| && Normalized(altitudes)[k] == stacks[0].altitude;
      NormalizeIsIdempotent(altitudes[k]);
    }
  }
}
