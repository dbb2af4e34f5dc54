/**
 The sort behind PICTURE calls: the pattern-defeating quicksort of the standard library, with the
 insertion sort it uses on short ranges and the heap sort it falls back to. The comparison is not
 transitive, so the result need not be sorted by it; it is always sorted by rank. Where the library
 picks a pivot or shuffles at random, the choice is arbitrary here.
 */
module ThreatSort {
  import opened Tracks
  import opened ThreatRank

  /** A group and what the comparison looks at. */
  datatype Entry = Entry(group: seq<Track>, profile: Profile)

  function Key(e: Entry): nat {
    Rank(e.profile)
  }

  /** The one test a sort makes. It decides ties of the rank in any way it likes. */
  predicate Beats(x: Entry, y: Entry)
    ensures Beats(x, y) ==> Key(x) <= Key(y)
    ensures !Beats(x, y) ==> Key(y) <= Key(x)
  {
    CompareRefinesRank(x.profile, y.profile);
    CompareThreat(x.profile, y.profile) < 0
  }

  lemma BeatsOneWay(x: Entry, y: Entry)
    requires Beats(x, y)
    ensures !Beats(y, x)
  {
    CompareIsAntisymmetric(x.profile, y.profile);
  }

  // ---------------------------------------------------------------- ranges

  ghost predicate RankSorted(s: seq<Entry>, a: nat, b: nat) {
    forall i, j :: a <= i < j < b && j < |s| ==> Key(s[i]) <= Key(s[j])
  }

  ghost predicate Within(s: seq<Entry>, a: nat, b: nat, lo: nat, hi: nat) {
    forall i :: a <= i < b && i < |s| ==> lo <= Key(s[i]) <= hi
  }

  ghost predicate Below(s: seq<Entry>, a: nat, lo: nat) {
    forall i :: 0 <= i < a && i < |s| ==> Key(s[i]) <= lo
  }

  /** The entries are permuted. Outside the range, too, entries may have moved, but not ranks. */
  ghost predicate Moved(s: seq<Entry>, t: seq<Entry>, a: nat, b: nat) {
    && |s| == |t| && multiset(s) == multiset(t)
    && forall i :: 0 <= i < |s| && (i < a || b <= i) ==> Key(t[i]) == Key(s[i])
  }

  ghost predicate Kept(s: seq<Entry>, t: seq<Entry>, a: nat, b: nat, lo: nat, hi: nat) {
    Moved(s, t, a, b) && Within(t, a, b, lo, hi)
  }

  ghost function Swapped(s: seq<Entry>, i: nat, j: nat): (t: seq<Entry>)
    requires i < |s| && j < |s|
    ensures |t| == |s| && multiset(t) == multiset(s)
  {
    s[i := s[j]][j := s[i]]
  }

  lemma SwapKeeps(start: seq<Entry>, s: seq<Entry>, i: nat, j: nat, a: nat, b: nat, lo: nat, hi: nat)
    requires Kept(start, s, a, b, lo, hi) && i < |s| && j < |s|
    requires (a <= i < b && a <= j < b) || Key(s[i]) == Key(s[j])
    ensures Kept(start, Swapped(s, i, j), a, b, lo, hi)
  {
  }

  method Swap(data: array<Entry>, i: nat, j: nat)
    requires i < data.Length && j < data.Length
    modifies data
    ensures data[..] == Swapped(old(data[..]), i, j)
  {
    data[i], data[j] := data[j], data[i];
  }

  // ---------------------------------------------------------------- insertion sort

  ghost predicate NoInversion(s: seq<Entry>, a: nat, b: nat) {
    forall i, j :: a <= i && j == i + 1 && j < b && j < |s| ==> !Beats(s[j], s[i])
  }

  /** Without adjacent inversions a range is sorted by rank. */
  lemma {:induction false} NoInversionIsRankSorted(s: seq<Entry>, a: nat, b: nat)
    requires NoInversion(s, a, b)
    ensures RankSorted(s, a, b)
    decreases b
  {
    hide Beats, Key;
    if a + 1 < b && b <= |s| {
      NoInversionIsRankSorted(s, a, b - 1);
      assert !Beats(s[b - 1], s[b - 2]);
    } else if |s| < b {
      NoInversionIsRankSorted(s, a, b - 1);
    }
  }

  /** Entry `j` is on its way down: no other adjacent pair up to `i` is an inversion, nor will its two
      neighbours be. */
  ghost predicate Sinking(s: seq<Entry>, a: nat, i: nat, j: nat)
    requires a <= j <= i < |s|
  {
    && (forall x, y :: a <= x && y == x + 1 && y <= i && y != j ==> !Beats(s[y], s[x]))
    && (a < j < i ==> !Beats(s[j + 1], s[j - 1]))
  }

  lemma Sinks(s: seq<Entry>, a: nat, i: nat, j: nat)
    requires a < j <= i < |s| && Sinking(s, a, i, j) && Beats(s[j], s[j - 1])
    ensures Sinking(Swapped(s, j, j - 1), a, i, j - 1)
  {
    BeatsOneWay(s[j], s[j - 1]);
    hide Beats;
  }

  method InsertionSort(data: array<Entry>, a: nat, b: nat, ghost lo: nat, ghost hi: nat)
    requires a <= b <= data.Length && Within(data[..], a, b, lo, hi)
    modifies data
    ensures Kept(old(data[..]), data[..], a, b, lo, hi)
    ensures NoInversion(data[..], a, b)
  {
    hide Beats, Key, Within, Moved, Swapped;
    ghost var start := data[..];
    assert Kept(start, start, a, b, lo, hi) by { KeptSelf(start, a, b, lo, hi); }
    if a == b {
      return;
    }
    for i := a + 1 to b
      invariant Kept(start, data[..], a, b, lo, hi)
      invariant NoInversion(data[..], a, i)
    {
      var j := i;
      while j > a && Beats(data[j], data[j - 1])
        invariant a <= j <= i && Sinking(data[..], a, i, j)
        invariant Kept(start, data[..], a, b, lo, hi)
      {
        Sinks(data[..], a, i, j);
        SwapKeeps(start, data[..], j, j - 1, a, b, lo, hi);
        Swap(data, j, j - 1);
        j := j - 1;
      }
    }
  }

  lemma KeptSelf(s: seq<Entry>, a: nat, b: nat, lo: nat, hi: nat)
    requires Within(s, a, b, lo, hi)
    ensures Kept(s, s, a, b, lo, hi)
  {
  }

  // ---------------------------------------------------------------- heap sort

  function Up(first: nat, q: nat): nat
    requires first < q
  {
    first + (q - first - 1) / 2
  }

  /** Nodes from `lo` on are not better than what hangs below them. */
  ghost predicate Heap(s: seq<Entry>, first: nat, lo: nat, hi: nat) {
    forall q :: first < q < first + hi && q < |s| && first + lo <= Up(first, q) ==> Key(s[q]) <= Key(s[Up(first, q)])
  }

  /** The same except below `root`, whose children fit under its parent. */
  ghost predicate Sifting(s: seq<Entry>, first: nat, lo: nat, hi: nat, root: nat) {
    && lo <= root && (root == lo || lo <= (root - 1) / 2)
    && (forall q :: first < q < first + hi && q < |s| && first + lo <= Up(first, q) && Up(first, q) != first + root ==>
                      Key(s[q]) <= Key(s[Up(first, q)]))
    && (lo < root < hi ==> forall q :: first < q < first + hi && q < |s| && Up(first, q) == first + root ==>
                                         Key(s[q]) <= Key(s[Up(first, first + root)]))
  }

  lemma SiftStep(s: seq<Entry>, first: nat, lo: nat, hi: nat, root: nat, child: nat)
    requires Sifting(s, first, lo, hi, root) && WorstChild(s, first, hi, root, child)
    requires Key(s[first + root]) <= Key(s[first + child])
    ensures Sifting(Swapped(s, first + root, first + child), first, lo, hi, child)
  {
    hide Key;
    var t := Swapped(s, first + root, first + child);
    forall q | first < q < first + hi && first + lo <= Up(first, q) && Up(first, q) != first + child
      ensures Key(t[q]) <= Key(t[Up(first, q)])
    {
      if q == first + root {
        assert Key(s[first + child]) <= Key(s[Up(first, first + root)]);
      }
    }
  }

  /** The child of `root` that is not better than the other one. */
  ghost predicate WorstChild(s: seq<Entry>, first: nat, hi: nat, root: nat, child: nat) {
    && root < child < hi && first + hi <= |s| && Up(first, first + child) == first + root
    && forall q :: first < q < first + hi && Up(first, q) == first + root ==> Key(s[q]) <= Key(s[first + child])
  }

  method ChooseChild(data: array<Entry>, first: nat, hi: nat, root: nat) returns (child: nat)
    requires 2 * root + 1 < hi && first + hi <= data.Length
    ensures WorstChild(data[..], first, hi, root, child)
  {
    hide Beats, Key;
    child := 2 * root + 1;
    if child + 1 < hi && Beats(data[first + child], data[first + child + 1]) {
      child := child + 1;
    }
    forall q | first < q < first + hi && Up(first, q) == first + root ensures Key(data[q]) <= Key(data[first + child]) {
      assert q == first + 2 * root + 1 || q == first + 2 * root + 2;
    }
  }

  lemma SiftEnds(s: seq<Entry>, first: nat, lo: nat, hi: nat, root: nat)
    requires Sifting(s, first, lo, hi, root) && hi <= 2 * root + 1
    ensures Heap(s, first, lo, hi)
  {
    hide Key;
  }

  lemma SiftStops(s: seq<Entry>, first: nat, lo: nat, hi: nat, root: nat, child: nat)
    requires Sifting(s, first, lo, hi, root) && WorstChild(s, first, hi, root, child)
    requires Key(s[first + child]) <= Key(s[first + root])
    ensures Heap(s, first, lo, hi)
  {
    hide Key;
  }

  lemma SiftStarts(s: seq<Entry>, first: nat, lo: nat, hi: nat)
    requires Heap(s, first, lo + 1, hi)
    ensures Sifting(s, first, lo, hi, lo)
  {
    hide Key;
  }

  method SiftDown(data: array<Entry>, lo: nat, hi: nat, first: nat, ghost least: nat, ghost most: nat)
    requires lo <= hi && first + hi <= data.Length && Within(data[..], first, first + hi, least, most)
    requires Heap(data[..], first, lo + 1, hi)
    modifies data
    ensures Kept(old(data[..]), data[..], first, first + hi, least, most)
    ensures Heap(data[..], first, lo, hi)
  {
    hide Beats, Key, Kept, Swapped, Heap, Sifting;
    ghost var start := data[..];
    KeptSelf(start, first, first + hi, least, most);
    SiftStarts(start, first, lo, hi);
    var root := lo;
    while true
      invariant lo <= root <= hi && Sifting(data[..], first, lo, hi, root)
      invariant Kept(start, data[..], first, first + hi, least, most)
      decreases hi - root
    {
      if 2 * root + 1 >= hi {
        SiftEnds(data[..], first, lo, hi, root);
        return;
      }
      var child := ChooseChild(data, first, hi, root);
      if !Beats(data[first + root], data[first + child]) {
        SiftStops(data[..], first, lo, hi, root, child);
        return;
      }
      SiftStep(data[..], first, lo, hi, root, child);
      SwapKeeps(start, data[..], first + root, first + child, first, first + hi, least, most);
      Swap(data, first + root, first + child);
      root := child;
    }
  }

  lemma {:induction false} HeapTop(s: seq<Entry>, first: nat, hi: nat, q: nat)
    requires Heap(s, first, 0, hi) && first <= q < first + hi <= |s|
    ensures Key(s[q]) <= Key(s[first])
  {
    if first < q {
      HeapTop(s, first, hi, Up(first, q));
    }
  }

  lemma MovedTwice(start: seq<Entry>, s: seq<Entry>, t: seq<Entry>, a: nat, b: nat, lo: nat, hi: nat, x: nat, y: nat,
      least: nat, most: nat)
    requires Kept(start, s, a, b, lo, hi) && Kept(s, t, x, y, least, most)
    requires a <= x <= y <= b && lo <= least && most <= hi
    ensures Kept(start, t, a, b, lo, hi)
  {
    hide Key;
    forall i | a <= i < b && i < |t| ensures lo <= Key(t[i]) <= hi {
      if i < x || y <= i {
        assert Key(t[i]) == Key(s[i]);
      }
    }
  }

  /** The heap in front, the sorted rest behind it, with `cap` between them. */
  ghost predicate Extracted(s: seq<Entry>, a: nat, b: nat, i: nat, lo: nat, cap: nat, hi: nat) {
    && a + i <= b && lo <= cap <= hi
    && Heap(s, a, 0, i) && Within(s, a, a + i, lo, cap)
    && RankSorted(s, a + i, b) && Within(s, a + i, b, cap, hi)
  }

  /** The top of the heap goes to the end of it. */
  lemma Extract(s: seq<Entry>, a: nat, b: nat, i: nat, lo: nat, cap: nat, hi: nat)
    requires b <= |s| && Extracted(s, a, b, i + 1, lo, cap, hi)
    ensures var t, top := Swapped(s, a, a + i), Key(s[a]);
            && Heap(t, a, 1, i) && lo <= top <= cap
            && Within(t, a, a + i, lo, top) && RankSorted(t, a + i, b) && Within(t, a + i, b, top, hi)
  {
    hide Key;
    var t := Swapped(s, a, a + i);
    forall q | a <= q < a + i + 1 ensures Key(s[q]) <= Key(s[a]) {
      HeapTop(s, a, i + 1, q);
    }
  }

  lemma Extraction(s: seq<Entry>, t: seq<Entry>, a: nat, b: nat, i: nat, lo: nat, cap: nat, hi: nat)
    requires a + i <= b <= |s| && lo <= cap <= hi
    requires RankSorted(s, a + i, b) && Within(s, a + i, b, cap, hi)
    requires Kept(s, t, a, a + i, lo, cap) && Heap(t, a, 0, i)
    ensures Extracted(t, a, b, i, lo, cap, hi)
  {
    hide Key, Heap;
  }

  method HeapSort(data: array<Entry>, a: nat, b: nat, ghost lo: nat, ghost hi: nat)
    requires a <= b <= data.Length && Within(data[..], a, b, lo, hi) && lo <= hi
    modifies data
    ensures Kept(old(data[..]), data[..], a, b, lo, hi)
    ensures RankSorted(data[..], a, b)
  {
    hide Beats, Key, Within, Moved, Swapped, Heap, RankSorted, Kept;
    ghost var start := data[..];
    KeptSelf(start, a, b, lo, hi);
    var n := b - a;
    if n == 0 {
      EmptyRange(data[..], a);
      return;
    }
    LeavesAreHeaps(data[..], a, n);
    for i := (n - 1) / 2 + 1 downto 0
      invariant Kept(start, data[..], a, b, lo, hi)
      invariant Heap(data[..], a, i, n)
    {
      KeptIsWithin(start, data[..], a, b, lo, hi);
      ghost var s := data[..];
      SiftDown(data, i, n, a, lo, hi);
      MovedTwice(start, s, data[..], a, b, lo, hi, a, b, lo, hi);
    }
    ghost var cap := hi;
    KeptIsWithin(start, data[..], a, b, lo, hi);
    EmptyRange(data[..], b);
    for i := n downto 0
      invariant Kept(start, data[..], a, b, lo, hi)
      invariant Extracted(data[..], a, b, i, lo, cap, hi)
    {
      Extract(data[..], a, b, i, lo, cap, hi);
      SwapKeeps(start, data[..], a, a + i, a, b, lo, hi);
      cap := Key(data[a]);
      Swap(data, a, a + i);
      ghost var s := data[..];
      SiftDown(data, 0, i, a, lo, cap);
      MovedTwice(start, s, data[..], a, b, lo, hi, a, a + i, lo, cap);
      Extraction(s, data[..], a, b, i, lo, cap, hi);
    }
  }

  lemma KeptIsWithin(start: seq<Entry>, s: seq<Entry>, a: nat, b: nat, lo: nat, hi: nat)
    requires Kept(start, s, a, b, lo, hi)
    ensures Within(s, a, b, lo, hi)
  {
  }

  lemma EmptyRange(s: seq<Entry>, a: nat)
    ensures RankSorted(s, a, a) && forall lo, hi :: Within(s, a, a, lo, hi)
  {
  }

  lemma LeavesAreHeaps(s: seq<Entry>, first: nat, n: nat)
    requires n > 0
    ensures Heap(s, first, (n - 1) / 2 + 1, n)
  {
  }

  // ---------------------------------------------------------------- partitions

  /** What has been looked at from both ends is on its side of the pivot at `a`. */
  ghost predicate Split(s: seq<Entry>, a: nat, b: nat, i: int, j: int) {
    && 0 <= a < i <= j + 1 && j < b <= |s|
    && (forall k :: a < k < i ==> Key(s[k]) <= Key(s[a]))
    && forall k :: j < k < b ==> Key(s[a]) <= Key(s[k])
  }

  /** The pivot ends between what is not worse and what is not better. */
  ghost predicate Partitioned(s: seq<Entry>, a: nat, b: nat, mid: nat) {
    && a <= mid < b <= |s|
    && (forall k :: a <= k < mid ==> Key(s[k]) <= Key(s[mid]))
    && forall k :: mid < k < b ==> Key(s[mid]) <= Key(s[k])
  }

  lemma SwapSplits(s: seq<Entry>, a: nat, b: nat, i: nat, j: nat)
    requires Split(s, a, b, i, j) && i < j && Key(s[j]) <= Key(s[a]) <= Key(s[i])
    ensures Split(Swapped(s, i, j), a, b, i + 1, j - 1)
  {
    hide Key;
  }

  lemma SplitIsPartitioned(s: seq<Entry>, a: nat, b: nat, i: nat, j: nat)
    requires Split(s, a, b, i, j) && i == j + 1
    ensures Partitioned(Swapped(s, j, a), a, b, j)
  {
    hide Key;
  }

  /** Moves both ends inwards as far as the entries there are on the right side. */
  method Narrow(data: array<Entry>, a: nat, b: nat, i0: nat, j0: nat) returns (i: nat, j: nat)
    requires b <= data.Length && Split(data[..], a, b, i0, j0)
    ensures Split(data[..], a, b, i, j) && i0 <= i && j <= j0
    ensures i <= j ==> i < j && Key(data[j]) <= Key(data[a]) <= Key(data[i])
  {
    hide Beats, Key;
    i, j := i0, j0;
    while i <= j && Beats(data[i], data[a])
      invariant Split(data[..], a, b, i, j)
    {
      i := i + 1;
    }
    while i <= j && !Beats(data[j], data[a])
      invariant Split(data[..], a, b, i, j)
      invariant i <= j0 && i <= j ==> !Beats(data[i], data[a])
    {
      j := j - 1;
    }
  }

  method Partition(data: array<Entry>, a: nat, b: nat, pivot: nat, ghost lo: nat, ghost hi: nat)
    returns (mid: nat, alreadyPartitioned: bool)
    requires a <= pivot < b <= data.Length && Within(data[..], a, b, lo, hi)
    modifies data
    ensures Kept(old(data[..]), data[..], a, b, lo, hi)
    ensures a <= mid < b && Partitioned(data[..], a, b, mid)
  {
    hide Beats, Key, Within, Moved, Swapped, Kept, Partitioned;
    ghost var start := data[..];
    KeptSelf(start, a, b, lo, hi);
    SwapKeeps(start, data[..], a, pivot, a, b, lo, hi);
    Swap(data, a, pivot);
    var i, j := Narrow(data, a, b, a + 1, b - 1);
    alreadyPartitioned := i > j;
    while i <= j
      invariant Kept(start, data[..], a, b, lo, hi)
      invariant Split(data[..], a, b, i, j)
      invariant i <= j ==> i < j && Key(data[j]) <= Key(data[a]) <= Key(data[i])
      decreases j + 1 - i
    {
      SwapSplits(data[..], a, b, i, j);
      SwapKeeps(start, data[..], i, j, a, b, lo, hi);
      Swap(data, i, j);
      i, j := Narrow(data, a, b, i + 1, j - 1);
    }
    SplitIsPartitioned(data[..], a, b, i, j);
    SwapKeeps(start, data[..], j, a, a, b, lo, hi);
    Swap(data, j, a);
    mid := j;
  }

  /** Nothing in front of `i` is worse than the pivot at `a`. */
  ghost predicate NotWorse(s: seq<Entry>, a: nat, i: nat) {
    a < i <= |s| && forall k :: a <= k < i ==> Key(s[k]) <= Key(s[a])
  }

  lemma SwapNotWorse(s: seq<Entry>, a: nat, i: nat, j: nat)
    requires NotWorse(s, a, i) && i < j < |s| && Key(s[j]) <= Key(s[a])
    ensures NotWorse(Swapped(s, i, j), a, i + 1) && Swapped(s, i, j)[a] == s[a]
  {
    hide Key;
  }

  method PartitionEqual(data: array<Entry>, a: nat, b: nat, pivot: nat, ghost lo: nat, ghost hi: nat)
    returns (mid: nat)
    requires a <= pivot < b <= data.Length && Within(data[..], a, b, lo, hi)
    modifies data
    ensures Kept(old(data[..]), data[..], a, b, lo, hi)
    ensures a < mid <= b && forall k :: a <= k < mid ==> Key(data[k]) <= old(Key(data[pivot]))
  {
    hide Beats, Key, Within, Moved, Kept;
    ghost var start := data[..];
    ghost var key := Key(data[pivot]);
    KeptSelf(start, a, b, lo, hi);
    SwapKeeps(start, data[..], a, pivot, a, b, lo, hi);
    Swap(data, a, pivot);
    assert data[a] == start[pivot];
    hide Swapped;
    var i, j := a + 1, b - 1;
    while true
      invariant Kept(start, data[..], a, b, lo, hi)
      invariant a < i <= j + 1 <= b && NotWorse(data[..], a, i) && Key(data[a]) == key
      decreases j + 1 - i
    {
      while i <= j && !Beats(data[a], data[i])
        invariant a < i <= j + 1 && NotWorse(data[..], a, i)
      {
        i := i + 1;
      }
      while i <= j && Beats(data[a], data[j])
        invariant a < i <= j + 1 <= b
        invariant i <= j ==> Beats(data[a], data[i])
      {
        j := j - 1;
      }
      if i > j {
        return i;
      }
      SwapNotWorse(data[..], a, i, j);
      SwapKeeps(start, data[..], i, j, a, b, lo, hi);
      Swap(data, i, j);
      i, j := i + 1, j - 1;
    }
  }

  // ---------------------------------------------------------------- patterns

  /** Entry `j` is shifted left into the sorted range before `i`. It may leave the range: then it only
      trades places with entries of its own rank. */
  ghost predicate Shifting(s: seq<Entry>, a: nat, i: nat, j: nat, lo: nat) {
    && j < i <= |s| && lo <= Key(s[j])
    && (forall x, y :: a <= x < y < i && x != j && y != j ==> Key(s[x]) <= Key(s[y]))
    && (forall y :: a <= y < i && j < y ==> Key(s[j]) <= Key(s[y]))
  }

  lemma ShiftStep(s: seq<Entry>, a: nat, i: nat, j: nat, lo: nat)
    requires Shifting(s, a, i, j, lo) && j > 0 && Key(s[j]) <= Key(s[j - 1]) && Below(s, a, lo)
    ensures Shifting(Swapped(s, j, j - 1), a, i, j - 1, lo)
    ensures a < j || Key(s[j]) == Key(s[j - 1])
    ensures Below(Swapped(s, j, j - 1), a, lo)
  {
    hide Key;
  }

  lemma ShiftEnds(s: seq<Entry>, a: nat, i: nat, j: nat, lo: nat)
    requires Shifting(s, a, i, j, lo) && (j == 0 || Key(s[j - 1]) <= Key(s[j]))
    ensures RankSorted(s, a, i)
  {
    hide Key;
  }

  lemma ShiftStarts(s: seq<Entry>, a: nat, b: nat, i: nat, lo: nat, hi: nat)
    requires a < i < b <= |s| && RankSorted(s, a, i) && Within(s, a, b, lo, hi)
    ensures Shifting(Swapped(s, i, i - 1), a, i, i - 1, lo)
  {
    hide Key;
  }

  lemma BelowKept(start: seq<Entry>, s: seq<Entry>, a: nat, b: nat, lo: nat, hi: nat)
    requires Kept(start, s, a, b, lo, hi) && Below(start, a, lo)
    ensures Below(s, a, lo)
  {
  }

  method ShiftLeft(data: array<Entry>, a: nat, b: nat, i: nat, ghost lo: nat, ghost hi: nat)
    requires a < i <= b <= data.Length && Within(data[..], a, b, lo, hi) && Below(data[..], a, lo)
    requires Shifting(data[..], a, i, i - 1, lo)
    modifies data
    ensures Kept(old(data[..]), data[..], a, b, lo, hi)
    ensures RankSorted(data[..], a, i)
  {
    hide Beats, Key, Kept, Within, Below, Swapped, Shifting, RankSorted;
    ghost var start := data[..];
    KeptSelf(start, a, b, lo, hi);
    var j := i - 1;
    while j >= 1 && Beats(data[j], data[j - 1])
      invariant 0 <= j < i && Shifting(data[..], a, i, j, lo)
      invariant Kept(start, data[..], a, b, lo, hi) && Below(data[..], a, lo)
    {
      ShiftStep(data[..], a, i, j, lo);
      SwapKeeps(start, data[..], j, j - 1, a, b, lo, hi);
      Swap(data, j, j - 1);
      j := j - 1;
    }
    ShiftEnds(data[..], a, i, j, lo);
  }

  lemma SwapBehind(s: seq<Entry>, a: nat, i: nat, x: nat, y: nat)
    requires RankSorted(s, a, i) && i <= x < |s| && i <= y < |s|
    ensures RankSorted(Swapped(s, x, y), a, i)
  {
    hide Key;
  }

  method ShiftRight(data: array<Entry>, a: nat, b: nat, i: nat, ghost lo: nat, ghost hi: nat)
    requires a <= i < b <= data.Length && Within(data[..], a, b, lo, hi) && RankSorted(data[..], a, i)
    modifies data
    ensures Kept(old(data[..]), data[..], a, b, lo, hi)
    ensures RankSorted(data[..], a, i)
  {
    hide Beats, Key, Kept, Within, Swapped, RankSorted;
    ghost var start := data[..];
    KeptSelf(start, a, b, lo, hi);
    var j := i + 1;
    while j < b && Beats(data[j], data[j - 1])
      invariant i < j <= b && RankSorted(data[..], a, i)
      invariant Kept(start, data[..], a, b, lo, hi)
    {
      SwapBehind(data[..], a, i, j, j - 1);
      SwapKeeps(start, data[..], j, j - 1, a, b, lo, hi);
      Swap(data, j, j - 1);
      j := j + 1;
    }
  }

  const MAX_STEPS := 5
  const SHORTEST_SHIFTING := 50

  /** Repairs a few inversions, and tells whether none is left. */
  method PartialInsertionSort(data: array<Entry>, a: nat, b: nat, ghost lo: nat, ghost hi: nat)
    returns (done: bool)
    requires a < b <= data.Length && Within(data[..], a, b, lo, hi) && Below(data[..], a, lo)
    modifies data
    ensures Kept(old(data[..]), data[..], a, b, lo, hi)
    ensures done ==> RankSorted(data[..], a, b)
  {
    hide Beats, Key, Kept, Within, Below, Swapped, Shifting, RankSorted;
    ghost var start := data[..];
    KeptSelf(start, a, b, lo, hi);
    OneIsSorted(start, a);
    var i := a + 1;
    for step := 0 to MAX_STEPS
      invariant a < i <= b && RankSorted(data[..], a, i)
      invariant Kept(start, data[..], a, b, lo, hi)
    {
      while i < b && !Beats(data[i], data[i - 1])
        invariant a < i <= b && RankSorted(data[..], a, i)
        invariant Kept(start, data[..], a, b, lo, hi)
      {
        SortedExtends(data[..], a, i);
        i := i + 1;
      }
      if i == b {
        return true;
      }
      if b - a < SHORTEST_SHIFTING {
        return false;
      }
      KeptIsWithin(start, data[..], a, b, lo, hi);
      ShiftStarts(data[..], a, b, i, lo, hi);
      SwapKeeps(start, data[..], i, i - 1, a, b, lo, hi);
      Swap(data, i, i - 1);
      Repair(data, a, b, i, start, lo, hi);
    }
    return false;
  }

  method Repair(data: array<Entry>, a: nat, b: nat, i: nat, ghost start: seq<Entry>, ghost lo: nat, ghost hi: nat)
    requires a < i < b <= data.Length && Kept(start, data[..], a, b, lo, hi) && Below(start, a, lo)
    requires Shifting(data[..], a, i, i - 1, lo)
    modifies data
    ensures Kept(start, data[..], a, b, lo, hi)
    ensures RankSorted(data[..], a, i)
  {
    hide Beats, Key, Kept, Within, Below, Shifting, RankSorted;
    if i - a >= 2 {
      KeptIsWithin(start, data[..], a, b, lo, hi);
      BelowKept(start, data[..], a, b, lo, hi);
      ghost var s := data[..];
      ShiftLeft(data, a, b, i, lo, hi);
      MovedTwice(start, s, data[..], a, b, lo, hi, a, b, lo, hi);
    } else {
      OneIsSorted(data[..], a);
    }
    if b - i >= 2 {
      KeptIsWithin(start, data[..], a, b, lo, hi);
      ghost var s := data[..];
      ShiftRight(data, a, b, i, lo, hi);
      MovedTwice(start, s, data[..], a, b, lo, hi, a, b, lo, hi);
    }
  }

  lemma OneIsSorted(s: seq<Entry>, a: nat)
    ensures RankSorted(s, a, a + 1)
  {
  }

  lemma SortedExtends(s: seq<Entry>, a: nat, i: nat)
    requires a < i < |s| && RankSorted(s, a, i) && Key(s[i - 1]) <= Key(s[i])
    ensures RankSorted(s, a, i + 1)
  {
    hide Key;
  }

  /** Swaps three entries in the middle with arbitrary ones. */
  method BreakPatterns(data: array<Entry>, a: nat, b: nat, ghost lo: nat, ghost hi: nat)
    requires a <= b <= data.Length && Within(data[..], a, b, lo, hi)
    modifies data
    ensures Kept(old(data[..]), data[..], a, b, lo, hi)
  {
    hide Kept, Within, Swapped;
    ghost var start := data[..];
    KeptSelf(start, a, b, lo, hi);
    var length := b - a;
    if length >= 8 {
      var idx := a + length / 4 * 2 - 1;
      for k := 0 to 3
        invariant Kept(start, data[..], a, b, lo, hi)
      {
        var other :| 0 <= other < length;
        SwapKeeps(start, data[..], idx - 1 + k, a + other, a, b, lo, hi);
        Swap(data, idx - 1 + k, a + other);
      }
    }
  }

  method ReverseRange(data: array<Entry>, a: nat, b: nat, ghost lo: nat, ghost hi: nat)
    requires a <= b <= data.Length && Within(data[..], a, b, lo, hi)
    modifies data
    ensures Kept(old(data[..]), data[..], a, b, lo, hi)
  {
    hide Kept, Within, Swapped;
    ghost var start := data[..];
    KeptSelf(start, a, b, lo, hi);
    var i, j := a, b - 1;
    while i < j
      invariant a <= i && j < b && Kept(start, data[..], a, b, lo, hi)
      decreases j - i
    {
      SwapKeeps(start, data[..], i, j, a, b, lo, hi);
      Swap(data, i, j);
      i, j := i + 1, j - 1;
    }
  }

  // ---------------------------------------------------------------- quicksort

  datatype Hint = UnknownHint | IncreasingHint | DecreasingHint

  /** Any pivot, and any opinion about the order of the range. */
  method ChoosePivot(a: nat, b: nat) returns (pivot: nat, hint: Hint)
    requires a < b
    ensures a <= pivot < b
  {
    pivot :| a <= pivot < b;
    hint := *;
  }

  /** The range from `a0` to `b0` during the sort: sorted ends, and between them what is left, with
      ranks from `l` to `h` separating the three. */
  ghost predicate Blocks(s: seq<Entry>, a0: nat, b0: nat, lo: nat, hi: nat, a: nat, b: nat, l: nat, h: nat) {
    && a0 <= a <= b <= b0 <= |s| && lo <= l <= h <= hi
    && Below(s, a0, lo)
    && RankSorted(s, a0, a) && Within(s, a0, a, lo, l)
    && Within(s, a, b, l, h)
    && RankSorted(s, b, b0) && Within(s, b, b0, h, hi)
  }

  lemma BlocksFacts(s: seq<Entry>, a0: nat, b0: nat, lo: nat, hi: nat, a: nat, b: nat, l: nat, h: nat)
    requires Blocks(s, a0, b0, lo, hi, a, b, l, h)
    ensures Within(s, a, b, l, h) && Below(s, a, l) && Within(s, a0, b0, lo, hi)
    ensures RankSorted(s, a, b) ==> RankSorted(s, a0, b0)
  {
    hide Key;
  }

  lemma BlocksKept(s: seq<Entry>, t: seq<Entry>, a0: nat, b0: nat, lo: nat, hi: nat, a: nat, b: nat, l: nat, h: nat)
    requires Blocks(s, a0, b0, lo, hi, a, b, l, h) && Kept(s, t, a, b, l, h)
    ensures Blocks(t, a0, b0, lo, hi, a, b, l, h)
  {
    hide Key;
  }

  lemma EqualBlock(s: seq<Entry>, a0: nat, b0: nat, lo: nat, hi: nat, a: nat, b: nat, l: nat, h: nat, mid: nat)
    requires Blocks(s, a0, b0, lo, hi, a, b, l, h) && a < mid <= b
    requires forall k :: a <= k < mid ==> Key(s[k]) <= l
    ensures Blocks(s, a0, b0, lo, hi, mid, b, l, h)
  {
    hide Key;
  }

  lemma Halves(s: seq<Entry>, a0: nat, b0: nat, lo: nat, hi: nat, a: nat, b: nat, l: nat, h: nat, mid: nat)
    requires Blocks(s, a0, b0, lo, hi, a, b, l, h) && Partitioned(s, a, b, mid)
    ensures a <= mid < b && b <= |s|
    ensures var k := Key(s[mid]);
            && l <= k <= h && Within(s, a, mid, l, k) && Within(s, mid + 1, b, k, h)
            && Below(s, a, l) && Below(s, mid + 1, k)
  {
    hide Key;
  }

  lemma LeftSorted(s: seq<Entry>, t: seq<Entry>, a0: nat, b0: nat, lo: nat, hi: nat, a: nat, b: nat, l: nat, h: nat,
      mid: nat)
    requires Blocks(s, a0, b0, lo, hi, a, b, l, h) && Partitioned(s, a, b, mid)
    requires Kept(s, t, a, mid, l, Key(s[mid])) && RankSorted(t, a, mid)
    ensures Blocks(t, a0, b0, lo, hi, mid + 1, b, Key(s[mid]), h)
  {
    hide Key;
  }

  lemma RightSorted(s: seq<Entry>, t: seq<Entry>, a0: nat, b0: nat, lo: nat, hi: nat, a: nat, b: nat, l: nat, h: nat,
      mid: nat)
    requires Blocks(s, a0, b0, lo, hi, a, b, l, h) && Partitioned(s, a, b, mid)
    requires Kept(s, t, mid + 1, b, Key(s[mid]), h) && RankSorted(t, mid + 1, b)
    ensures Blocks(t, a0, b0, lo, hi, a, mid, l, Key(s[mid]))
  {
    hide Key;
  }

  const MAX_INSERTION := 12

  /** The sort of a range. `Kept` and `Blocks` carry the proof; the flags steer but never decide. */
  method Sort(data: array<Entry>, a0: nat, b0: nat, limit0: nat, ghost lo: nat, ghost hi: nat)
    requires a0 <= b0 <= data.Length && lo <= hi
    requires Within(data[..], a0, b0, lo, hi) && Below(data[..], a0, lo)
    modifies data
    ensures Kept(old(data[..]), data[..], a0, b0, lo, hi)
    ensures RankSorted(data[..], a0, b0)
    ensures b0 - a0 <= MAX_INSERTION ==> NoInversion(data[..], a0, b0)
    decreases b0 - a0
  {
    hide Beats, Key, Kept, Within, Below, RankSorted, Blocks, NoInversion, Partitioned;
    var a, b, limit := a0, b0, limit0;
    ghost var start, l, h := data[..], lo, hi;
    KeptSelf(start, a0, b0, lo, hi);
    WholeBlock(start, a0, b0, lo, hi);
    var wasBalanced, wasPartitioned := true, true;
    while true
      invariant a0 <= a <= b <= b0 && lo <= l <= h <= hi
      invariant Kept(start, data[..], a0, b0, lo, hi)
      invariant Blocks(data[..], a0, b0, lo, hi, a, b, l, h)
      invariant b0 - a0 <= MAX_INSERTION ==> a == a0 && b == b0
      decreases b - a
    {
      var length := b - a;
      BlocksFacts(data[..], a0, b0, lo, hi, a, b, l, h);
      ghost var s := data[..];
      if length <= MAX_INSERTION {
        InsertionSort(data, a, b, l, h);
        NoInversionIsRankSorted(data[..], a, b);
        Finish(start, s, data[..], a0, b0, lo, hi, a, b, l, h);
        return;
      }
      if limit == 0 {
        HeapSort(data, a, b, l, h);
        Finish(start, s, data[..], a0, b0, lo, hi, a, b, l, h);
        return;
      }
      if !wasBalanced {
        BreakPatterns(data, a, b, l, h);
        Rearranged(start, s, data[..], a0, b0, lo, hi, a, b, l, h);
        limit := limit - 1;
      }
      var pivot, hint := ChoosePivot(a, b);
      if hint == DecreasingHint {
        s := data[..];
        ReverseRange(data, a, b, l, h);
        Rearranged(start, s, data[..], a0, b0, lo, hi, a, b, l, h);
        pivot, hint := b - 1 - (pivot - a), IncreasingHint;
      }
      if wasBalanced && wasPartitioned && hint == IncreasingHint {
        s := data[..];
        var done := PartialInsertionSort(data, a, b, l, h);
        Rearranged(start, s, data[..], a0, b0, lo, hi, a, b, l, h);
        if done {
          return;
        }
      }
      s := data[..];
      if a > 0 && !Beats(data[a - 1], data[pivot]) {
        PivotIsLeast(data[..], a, l, pivot);
        var mid := PartitionEqual(data, a, b, pivot, l, h);
        Rearranged(start, s, data[..], a0, b0, lo, hi, a, b, l, h);
        EqualBlock(data[..], a0, b0, lo, hi, a, b, l, h, mid);
        a := mid;
        continue;
      }
      var mid, alreadyPartitioned := Partition(data, a, b, pivot, l, h);
      Rearranged(start, s, data[..], a0, b0, lo, hi, a, b, l, h);
      wasPartitioned := alreadyPartitioned;
      var leftLen, rightLen := mid - a, b - mid;
      var balanceThreshold := length / 8;
      s := data[..];
      Halves(s, a0, b0, lo, hi, a, b, l, h, mid);
      ghost var k := Key(data[mid]);
      if leftLen < rightLen {
        wasBalanced := leftLen >= balanceThreshold;
        Sort(data, a, mid, limit, l, k);
        MovedTwice(start, s, data[..], a0, b0, lo, hi, a, mid, l, k);
        LeftSorted(s, data[..], a0, b0, lo, hi, a, b, l, h, mid);
        a, l := mid + 1, k;
      } else {
        wasBalanced := rightLen >= balanceThreshold;
        Sort(data, mid + 1, b, limit, k, h);
        MovedTwice(start, s, data[..], a0, b0, lo, hi, mid + 1, b, k, h);
        RightSorted(s, data[..], a0, b0, lo, hi, a, b, l, h, mid);
        b, h := mid, k;
      }
    }
  }

  lemma WholeBlock(s: seq<Entry>, a: nat, b: nat, lo: nat, hi: nat)
    requires a <= b <= |s| && lo <= hi && Within(s, a, b, lo, hi) && Below(s, a, lo)
    ensures Blocks(s, a, b, lo, hi, a, b, lo, hi)
  {
    hide Key;
  }

  lemma PivotIsLeast(s: seq<Entry>, a: nat, l: nat, pivot: nat)
    requires 0 < a <= |s| && pivot < |s| && Below(s, a, l) && !Beats(s[a - 1], s[pivot])
    ensures Key(s[pivot]) <= l
  {
    hide Beats, Key;
  }

  /** Rearranging what is left to sort. */
  lemma Rearranged(start: seq<Entry>, s: seq<Entry>, t: seq<Entry>, a0: nat, b0: nat, lo: nat, hi: nat,
      a: nat, b: nat, l: nat, h: nat)
    requires Kept(start, s, a0, b0, lo, hi) && Blocks(s, a0, b0, lo, hi, a, b, l, h) && Kept(s, t, a, b, l, h)
    ensures Kept(start, t, a0, b0, lo, hi) && Blocks(t, a0, b0, lo, hi, a, b, l, h)
    ensures Within(t, a, b, l, h) && Below(t, a, l)
    ensures RankSorted(t, a, b) ==> RankSorted(t, a0, b0)
  {
    BlocksKept(s, t, a0, b0, lo, hi, a, b, l, h);
    BlocksFacts(t, a0, b0, lo, hi, a, b, l, h);
    assert a0 <= a <= b <= b0 && lo <= l <= h <= hi;
    hide Kept, Blocks;
    MovedTwice(start, s, t, a0, b0, lo, hi, a, b, l, h);
  }

  /** Sorting what is left sorts everything. */
  lemma Finish(start: seq<Entry>, s: seq<Entry>, t: seq<Entry>, a0: nat, b0: nat, lo: nat, hi: nat,
      a: nat, b: nat, l: nat, h: nat)
    requires Kept(start, s, a0, b0, lo, hi) && Blocks(s, a0, b0, lo, hi, a, b, l, h) && Kept(s, t, a, b, l, h)
    requires RankSorted(t, a, b)
    ensures Kept(start, t, a0, b0, lo, hi) && RankSorted(t, a0, b0)
  {
    hide Kept, Blocks, RankSorted;
    Rearranged(start, s, t, a0, b0, lo, hi, a, b, l, h);
  }

  function BitLength(n: nat): nat {
    if n == 0 then 0 else 1 + BitLength(n / 2)
  }

  /** Sorted by rank, whatever the pivots; up to twelve entries also without an adjacent inversion. */
  method SortByThreat(data: array<Entry>)
    modifies data
    ensures multiset(data[..]) == old(multiset(data[..]))
    ensures forall i, j :: 0 <= i < j < data.Length ==> Rank(data[i].profile) <= Rank(data[j].profile)
    ensures data.Length <= MAX_INSERTION ==>
              forall i, j :: 0 <= i && j == i + 1 && j < data.Length ==>
                               CompareThreat(data[i].profile, data[j].profile) <= 0
  {
    hide CompareThreat, Rank;
    RanksAreSmall();
    Sort(data, 0, data.Length, BitLength(data.Length), 0, 5);
    ghost var s := data[..];
    forall i, j | 0 <= i < j < data.Length ensures Rank(data[i].profile) <= Rank(data[j].profile) {
      assert Key(s[i]) <= Key(s[j]);
    }
    if data.Length <= MAX_INSERTION {
      forall i, j | 0 <= i && j == i + 1 && j < data.Length
        ensures CompareThreat(data[i].profile, data[j].profile) <= 0
      {
        CompareIsAntisymmetric(data[i].profile, data[j].profile);
        assert !Beats(s[j], s[i]);
      }
    }
  }

  lemma RanksAreSmall()
    ensures forall e :: Key(e) <= 5
  {
  }
}
