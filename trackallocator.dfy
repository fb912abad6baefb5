/**
 * Swim-lane allocation for timeline items (interactive dashboard, timeline card).
 *
 * Items are sorted by start time on a copy (a stable sort), then each item
 * goes to the lowest-indexed lane whose last item has ended by the item's
 * start, or to a new lane when none has. Every allocation finally records the
 * number of lanes used.
 */
module TrackAllocator {

  /** A timeline item: times are seconds from midnight. */
  datatype Item = Item(id: string, start: int, end: int)

  datatype TrackAllocation = TrackAllocation(trackIndex: nat, totalTracks: nat)

  // ---------------------------------------------------------------------
  // The sorted copy: a stable insertion sort by start time

  predicate SortedByStart(s: seq<Item>) {
    forall i, j :: 0 <= i < j < |s| ==> s[i].start <= s[j].start
  }

  /** The first position whose element starts strictly after `x`, or `|s|`. */
  function InsertPos(x: Item, s: seq<Item>): (k: nat)
    ensures k <= |s|
    ensures forall i :: 0 <= i < k ==> s[i].start <= x.start
    ensures k < |s| ==> x.start < s[k].start
  {
    if s == [] || x.start < s[0].start then 0 else 1 + InsertPos(x, s[1..])
  }

  lemma InsertIndex(x: Item, s: seq<Item>, k: nat, i: nat)
    requires k <= |s| && i <= |s|
    ensures (s[..k] + [x] + s[k..])[i] == if i < k then s[i] else if i == k then x else s[i - 1]
  {
  }

  lemma InsertSorted(x: Item, s: seq<Item>, k: nat)
    requires SortedByStart(s) && k == InsertPos(x, s)
    ensures SortedByStart(s[..k] + [x] + s[k..])
  {
    var r := s[..k] + [x] + s[k..];
    forall i, j | 0 <= i < j < |r| ensures r[i].start <= r[j].start {
      InsertIndex(x, s, k, i);
      InsertIndex(x, s, k, j);
    }
  }

  lemma InsertMultiset(x: Item, s: seq<Item>, k: nat)
    requires k <= |s|
    ensures multiset(s[..k] + [x] + s[k..]) == multiset(s) + multiset{x}
  {
    assert s == s[..k] + s[k..];
  }

  /** Inserts `x` after every element that starts no later than it. */
  function InsertByStart(x: Item, s: seq<Item>): (r: seq<Item>)
    requires SortedByStart(s)
    ensures SortedByStart(r)
    ensures multiset(r) == multiset(s) + multiset{x}
    ensures |r| == |s| + 1
  {
    var k := InsertPos(x, s);
    InsertSorted(x, s, k);
    InsertMultiset(x, s, k);
    s[..k] + [x] + s[k..]
  }

  /** `[...items].sort((a, b) => a.start - b.start)`: a sorted permutation of the items. */
  function SortByStart(s: seq<Item>): (r: seq<Item>)
    ensures SortedByStart(r)
    ensures multiset(r) == multiset(s)
    ensures |r| == |s|
    decreases |s|
  {
    if s == [] then []
    else
      assert s == s[..|s| - 1] + [s[|s| - 1]];
      InsertByStart(s[|s| - 1], SortByStart(s[..|s| - 1]))
  }

  /** No two items have the same start time. */
  predicate DistinctStarts(s: seq<Item>) {
    forall i, j :: 0 <= i < j < |s| ==> s[i].start != s[j].start
  }

  /** Among a bag of items, the start time determines the item. */
  predicate StartDetermines(m: multiset<Item>) {
    forall x, y | x in m && y in m && x.start == y.start :: x == y
  }

  lemma DistinctStartsDetermine(s: seq<Item>)
    requires DistinctStarts(s)
    ensures StartDetermines(multiset(s))
  {
    forall x, y | x in multiset(s) && y in multiset(s) && x.start == y.start ensures x == y {
      var i :| 0 <= i < |s| && s[i] == x;
      var j :| 0 <= j < |s| && s[j] == y;
      assert !(i < j) && !(j < i);
    }
  }

  lemma SortedHeadIsMinimal(a: seq<Item>, y: Item)
    requires SortedByStart(a) && y in multiset(a)
    ensures a[0].start <= y.start
  {
    var i :| 0 <= i < |a| && a[i] == y;
    assert i == 0 || a[0].start <= a[i].start;
  }

  lemma SortedTail(a: seq<Item>)
    requires SortedByStart(a) && a != []
    ensures SortedByStart(a[1..])
  {
    forall i, j | 0 <= i < j < |a| - 1 ensures a[1..][i].start <= a[1..][j].start {
      assert a[1..][i] == a[i + 1] && a[1..][j] == a[j + 1];
    }
  }

  lemma StartDeterminesSub(m: multiset<Item>, big: multiset<Item>)
    requires m <= big && StartDetermines(big)
    ensures StartDetermines(m)
  {
  }

  lemma HeadsEqual(a: seq<Item>, b: seq<Item>)
    requires SortedByStart(a) && SortedByStart(b) && a != [] && b != []
    requires multiset(a) == multiset(b) && StartDetermines(multiset(a))
    ensures a[0] == b[0]
  {
    SortedHeadIsMinimal(a, b[0]);
    SortedHeadIsMinimal(b, a[0]);
    assert a[0] in multiset(a) && b[0] in multiset(a);
  }

  /** Removing equal heads from two arrangements of the same items leaves arrangements of the same items. */
  lemma TailsPermutation(a: seq<Item>, b: seq<Item>)
    requires a != [] && b != [] && a[0] == b[0] && multiset(a) == multiset(b)
    ensures multiset(a[1..]) == multiset(b[1..]) && multiset(a[1..]) <= multiset(a)
  {
    assert a == [a[0]] + a[1..] && b == [b[0]] + b[1..];
    assert multiset(a[1..]) == multiset(a) - multiset{a[0]};
    assert multiset(b[1..]) == multiset(b) - multiset{b[0]};
  }

  /** One step of the uniqueness argument: equal heads, and tails that meet the same conditions. */
  lemma UniqueStep(a: seq<Item>, b: seq<Item>)
    requires SortedByStart(a) && SortedByStart(b) && a != [] && b != []
    requires multiset(a) == multiset(b) && StartDetermines(multiset(a))
    ensures a[0] == b[0]
    ensures SortedByStart(a[1..]) && SortedByStart(b[1..])
    ensures multiset(a[1..]) == multiset(b[1..]) && StartDetermines(multiset(a[1..]))
  {
    HeadsEqual(a, b);
    TailsPermutation(a, b);
    StartDeterminesSub(multiset(a[1..]), multiset(a));
    SortedTail(a);
    SortedTail(b);
  }

  lemma ConsEqual(a: seq<Item>, b: seq<Item>)
    requires a != [] && b != [] && a[0] == b[0] && a[1..] == b[1..]
    ensures a == b
  {
    assert a == [a[0]] + a[1..] && b == [b[0]] + b[1..];
  }

  /** Two start-sorted arrangements of the same items are equal when the start determines the item. */
  lemma {:induction false} SortedPermutationUnique(a: seq<Item>, b: seq<Item>)
    requires SortedByStart(a) && SortedByStart(b)
    requires multiset(a) == multiset(b) && StartDetermines(multiset(a))
    ensures a == b
    decreases |a|
  {
    assert |a| == |multiset(a)| == |b|;
    if a != [] {
      UniqueStep(a, b);
      SortedPermutationUnique(a[1..], b[1..]);
      ConsEqual(a, b);
    }
  }

  // ---------------------------------------------------------------------
  // First-fit lane assignment

  /** The lowest lane whose end time is at or before `start`, or `|ends|` when none is. */
  function FirstFit(ends: seq<int>, start: int): (k: nat)
    ensures k <= |ends|
    ensures k < |ends| ==> ends[k] <= start
    ensures forall i :: 0 <= i < k ==> ends[i] > start
  {
    if ends == [] then 0
    else if ends[0] <= start then 0
    else 1 + FirstFit(ends[1..], start)
  }

  /**
   * The lanes after some items: `ends[k]` is when lane k becomes free, and
   * `tracks[i]` is the lane given to the i-th item placed.
   */
  datatype Lanes = Lanes(ends: seq<int>, tracks: seq<nat>)

  /** Places one item: on the first lane that fits, whose end becomes the item's end, or on a new lane. */
  function Place(l: Lanes, x: Item): (r: Lanes)
    ensures |r.tracks| == |l.tracks| + 1 && r.tracks[..|l.tracks|] == l.tracks
    ensures var t := r.tracks[|l.tracks|];
      && t == FirstFit(l.ends, x.start)
      && (t < |l.ends| ==> r.ends == l.ends[t := x.end])
      && (t == |l.ends| ==> r.ends == l.ends + [x.end])
  {
    var k := FirstFit(l.ends, x.start);
    if k < |l.ends| then Lanes(l.ends[k := x.end], l.tracks + [k])
    else Lanes(l.ends + [x.end], l.tracks + [|l.ends|])
  }

  /** Runs the placement over a sequence, in order. */
  function Greedy(s: seq<Item>): (l: Lanes)
    ensures |l.tracks| == |s| && |l.ends| <= |s|
    ensures forall i :: 0 <= i < |s| ==> l.tracks[i] < |l.ends|
    decreases |s|
  {
    if s == [] then Lanes([], [])
    else Place(Greedy(s[..|s| - 1]), s[|s| - 1])
  }

  /** The position of the last item placed on lane k, or -1. */
  function LastOn(tracks: seq<nat>, k: nat): (i: int)
    ensures -1 <= i < |tracks|
    ensures i >= 0 ==> tracks[i] == k
    ensures forall j :: i < j < |tracks| ==> tracks[j] != k
  {
    if tracks == [] then -1
    else if tracks[|tracks| - 1] == k then |tracks| - 1
    else LastOn(tracks[..|tracks| - 1], k)
  }

  /** Every lane holds an item, and its end time is that of the last item placed on it. */
  predicate LaneEndsTrack(s: seq<Item>, l: Lanes)
    requires |l.tracks| == |s|
  {
    forall k :: 0 <= k < |l.ends| ==>
      0 <= LastOn(l.tracks, k) && l.ends[k] == s[LastOn(l.tracks, k)].end
  }

  /** Of two items on one lane, the earlier one ends no later than the later one starts. */
  predicate NoOverlap(s: seq<Item>, tracks: seq<nat>)
    requires |tracks| == |s|
  {
    forall i, j :: 0 <= i < j < |s| && tracks[i] == tracks[j] ==> s[i].end <= s[j].start
  }

  predicate LanesInRange(l: Lanes) {
    forall i :: 0 <= i < |l.tracks| ==> l.tracks[i] < |l.ends|
  }

  lemma GreedyUnfold(p: seq<Item>, x: Item)
    ensures Greedy(p + [x]) == Place(Greedy(p), x)
  {
    assert (p + [x])[..|p|] == p;
  }

  lemma SortedPrefix(p: seq<Item>, x: Item)
    requires SortedByStart(p + [x])
    ensures SortedByStart(p)
    ensures forall i :: 0 <= i < |p| ==> p[i].start <= x.start
  {
    forall i, j | 0 <= i < j < |p| ensures p[i].start <= p[j].start {
      assert (p + [x])[i] == p[i] && (p + [x])[j] == p[j];
    }
    forall i | 0 <= i < |p| ensures p[i].start <= x.start {
      assert (p + [x])[i] == p[i] && (p + [x])[|p|] == x;
    }
  }

  lemma LastOnAppend(tracks: seq<nat>, t: nat, k: nat)
    ensures LastOn(tracks + [t], k) == if k == t then |tracks| else LastOn(tracks, k)
  {
    assert (tracks + [t])[..|tracks|] == tracks;
  }

  /** Placing an item keeps every lane's end equal to the end of its last item. */
  lemma PlaceKeepsLaneEnds(p: seq<Item>, x: Item, l: Lanes)
    requires |l.tracks| == |p| && LanesInRange(l) && LaneEndsTrack(p, l)
    ensures LaneEndsTrack(p + [x], Place(l, x))
  {
    var r := Place(l, x);
    var s := p + [x];
    var t := r.tracks[|p|];
    assert r.tracks == l.tracks + [t];
    forall k | 0 <= k < |r.ends|
      ensures 0 <= LastOn(r.tracks, k) && r.ends[k] == s[LastOn(r.tracks, k)].end
    {
      LastOnAppend(l.tracks, t, k);
      if k != t {
        assert k < |l.ends|;
        var i := LastOn(l.tracks, k);
        assert s[i] == p[i];
      }
    }
  }

  /** Placing an item on a lane whose last item has ended keeps that lane free of overlaps. */
  lemma PlaceKeepsNoOverlap(p: seq<Item>, x: Item, l: Lanes)
    requires SortedByStart(p + [x])
    requires |l.tracks| == |p| && LanesInRange(l) && LaneEndsTrack(p, l) && NoOverlap(p, l.tracks)
    ensures NoOverlap(p + [x], Place(l, x).tracks)
  {
    var r := Place(l, x);
    var s := p + [x];
    var n := |s|;
    var t := r.tracks[|p|];
    assert r.tracks == l.tracks + [t];
    SortedPrefix(p, x);
    forall i, j | 0 <= i < j < n && r.tracks[i] == r.tracks[j]
      ensures s[i].end <= s[j].start
    {
      assert s[i] == p[i] && r.tracks[i] == l.tracks[i];
      if j < n - 1 {
        assert s[j] == p[j] && r.tracks[j] == l.tracks[j];
      } else {
        var last := LastOn(l.tracks, t);
        assert 0 <= last && l.ends[t] == p[last].end && l.ends[t] <= x.start;
        if i < last {
          assert p[i].end <= p[last].start;
        }
      }
    }
  }

  lemma {:induction false} GreedyInvariant(s: seq<Item>)
    requires SortedByStart(s)
    ensures LaneEndsTrack(s, Greedy(s))
    ensures NoOverlap(s, Greedy(s).tracks)
    decreases |s|
  {
    if s != [] {
      var n := |s|;
      var p := s[..n - 1];
      var x := s[n - 1];
      assert s == p + [x];
      GreedyUnfold(p, x);
      SortedPrefix(p, x);
      GreedyInvariant(p);
      PlaceKeepsLaneEnds(p, x, Greedy(p));
      PlaceKeepsNoOverlap(p, x, Greedy(p));
    }
  }

  // ---------------------------------------------------------------------
  // The allocation map

  function Ids(s: seq<Item>): set<string> {
    set x | x in s :: x.id
  }

  predicate DistinctIds(s: seq<Item>) {
    forall i, j :: 0 <= i < j < |s| ==> s[i].id != s[j].id
  }

  /** `allocation.set(item.id, {trackIndex, totalTracks: 0})` for each item in turn. */
  function Assign(s: seq<Item>, tracks: seq<nat>): (m: map<string, TrackAllocation>)
    requires |tracks| == |s|
    ensures m.Keys == Ids(s)
    ensures forall id :: id in m ==> m[id].totalTracks == 0
    decreases |s|
  {
    if s == [] then map[]
    else
      var n := |s|;
      assert s == s[..n - 1] + [s[n - 1]];
      Assign(s[..n - 1], tracks[..n - 1])[s[n - 1].id := TrackAllocation(tracks[n - 1], 0)]
  }

  lemma AssignAppend(s: seq<Item>, tracks: seq<nat>, x: Item, t: nat)
    requires |tracks| == |s|
    ensures Assign(s + [x], tracks + [t]) == Assign(s, tracks)[x.id := TrackAllocation(t, 0)]
  {
    assert (s + [x])[..|s|] == s;
    assert (tracks + [t])[..|s|] == tracks;
  }

  /** The second pass: every entry keeps its lane and records the lane count. */
  function Retotal(m: map<string, TrackAllocation>, total: nat): map<string, TrackAllocation> {
    map id | id in m :: TrackAllocation(m[id].trackIndex, total)
  }

  /** The lanes the allocation uses for these items. */
  function TrackCount(items: seq<Item>): nat {
    |Greedy(SortByStart(items)).ends|
  }

  /** What `allocateTracks(items)` returns. */
  function Allocation(items: seq<Item>): map<string, TrackAllocation> {
    if |items| == 0 then map[]
    else
      var sorted := SortByStart(items);
      var l := Greedy(sorted);
      Retotal(Assign(sorted, l.tracks), |l.ends|)
  }

  /** With distinct ids, the entry of the i-th item holds the lane it was placed on. */
  lemma {:induction false} AssignLookup(s: seq<Item>, tracks: seq<nat>, i: nat)
    requires |tracks| == |s| && DistinctIds(s) && i < |s|
    ensures s[i].id in Assign(s, tracks) && Assign(s, tracks)[s[i].id].trackIndex == tracks[i]
    decreases |s|
  {
    var n := |s|;
    if i < n - 1 {
      assert DistinctIds(s[..n - 1]);
      assert s[..n - 1][i] == s[i];
      AssignLookup(s[..n - 1], tracks[..n - 1], i);
      assert s[n - 1].id != s[i].id;
    }
  }

  lemma IdsOfPermutation(a: seq<Item>, b: seq<Item>)
    requires multiset(a) == multiset(b)
    ensures Ids(a) == Ids(b)
  {
    forall x | x in a ensures x in b { assert x in multiset(a); }
    forall x | x in b ensures x in a { assert x in multiset(b); }
  }

  lemma IdsAppend(p: seq<Item>, x: Item)
    ensures Ids(p + [x]) == Ids(p) + {x.id}
  {
    forall y | y in p ensures y in p + [x] {}
    assert x in p + [x];
  }

  lemma DistinctIdsAppend(p: seq<Item>, x: Item)
    ensures DistinctIds(p + [x]) <==> DistinctIds(p) && x.id !in Ids(p)
  {
    var s := p + [x];
    if DistinctIds(p) && x.id !in Ids(p) {
      forall i, j | 0 <= i < j < |s| ensures s[i].id != s[j].id {
        assert s[i] == p[i] && p[i] in p;
        if j < |p| { assert s[j] == p[j]; }
      }
    }
    if DistinctIds(s) {
      forall i, j | 0 <= i < j < |p| ensures p[i].id != p[j].id {
        assert s[i] == p[i] && s[j] == p[j];
      }
    }
    if x.id in Ids(p) {
      var y :| y in p && y.id == x.id;
      var k :| 0 <= k < |p| && p[k] == y;
      assert s[k] == p[k] && s[|p|] == x;
    }
  }

  /** There are at most as many ids as items, and exactly as many when the ids are distinct. */
  lemma {:induction false} IdsCount(s: seq<Item>)
    ensures |Ids(s)| <= |s|
    ensures |Ids(s)| == |s| <==> DistinctIds(s)
    decreases |s|
  {
    if s != [] {
      var n := |s|;
      var p := s[..n - 1];
      assert s == p + [s[n - 1]];
      IdsCount(p);
      IdsAppend(p, s[n - 1]);
      DistinctIdsAppend(p, s[n - 1]);
    }
  }

  /** Keys, lane bounds and the shared lane count of every allocation. */
  lemma AllocationShape(items: seq<Item>)
    ensures Allocation(items).Keys == Ids(items)
    ensures forall id :: id in Allocation(items) ==>
      Allocation(items)[id].totalTracks == TrackCount(items)
      && Allocation(items)[id].trackIndex < TrackCount(items)
  {
    if |items| > 0 {
      var sorted := SortByStart(items);
      var l := Greedy(sorted);
      IdsOfPermutation(sorted, items);
      forall id | id in Allocation(items)
        ensures Allocation(items)[id].trackIndex < TrackCount(items)
      {
        AssignTrackBound(sorted, l.tracks, |l.ends|, id);
      }
    }
  }

  lemma {:induction false} AssignTrackBound(s: seq<Item>, tracks: seq<nat>, bound: nat, id: string)
    requires |tracks| == |s| && forall i :: 0 <= i < |s| ==> tracks[i] < bound
    requires id in Assign(s, tracks)
    ensures Assign(s, tracks)[id].trackIndex < bound
    decreases |s|
  {
    var n := |s|;
    if s[n - 1].id != id {
      AssignTrackBound(s[..n - 1], tracks[..n - 1], bound, id);
    }
  }

  /** No input means no allocation; distinct ids give one allocation per item. */
  lemma AllocationSize(items: seq<Item>)
    ensures items == [] ==> Allocation(items) == map[]
    ensures DistinctIds(items) ==> |Allocation(items)| == |items|
  {
    AllocationShape(items);
    IdsCount(items);
  }

  /** With distinct ids, the allocation of the i-th sorted item is the lane it was placed on. */
  lemma AllocationLookup(items: seq<Item>, i: nat)
    requires DistinctIds(items) && i < |items|
    ensures var sorted := SortByStart(items);
      sorted[i].id in Allocation(items)
      && Allocation(items)[sorted[i].id].trackIndex == Greedy(sorted).tracks[i]
  {
    var sorted := SortByStart(items);
    IdsCount(items);
    IdsOfPermutation(sorted, items);
    IdsCount(sorted);
    AssignLookup(sorted, Greedy(sorted).tracks, i);
  }

  /** Two items with distinct ids that share a lane do not overlap as half-open intervals [start, end). */
  lemma AllocationNoOverlap(items: seq<Item>, a: Item, b: Item)
    requires DistinctIds(items) && a in items && b in items && a.id != b.id
    ensures a.id in Allocation(items) && b.id in Allocation(items)
    ensures Allocation(items)[a.id].trackIndex == Allocation(items)[b.id].trackIndex
      ==> a.end <= b.start || b.end <= a.start
  {
    var sorted := SortByStart(items);
    assert a in multiset(sorted) && b in multiset(sorted);
    var i :| 0 <= i < |sorted| && sorted[i] == a;
    var j :| 0 <= j < |sorted| && sorted[j] == b;
    AllocationLookup(items, i);
    AllocationLookup(items, j);
    GreedyInvariant(sorted);
    var tracks := Greedy(sorted).tracks;
    if i < j {
      assert tracks[i] == tracks[j] ==> sorted[i].end <= sorted[j].start;
    } else {
      assert i != j;
      assert tracks[i] == tracks[j] ==> sorted[j].end <= sorted[i].start;
    }
  }

  /** With pairwise distinct start times, the allocation does not depend on the input order. */
  lemma AllocationOrderIndependent(a: seq<Item>, b: seq<Item>)
    requires multiset(a) == multiset(b) && DistinctStarts(a)
    ensures Allocation(a) == Allocation(b)
  {
    assert |a| == |multiset(a)| == |b|;
    DistinctStartsDetermine(a);
    SortedPermutationUnique(SortByStart(a), SortByStart(b));
  }

  // ---------------------------------------------------------------------
  // Optimality: the lane count is the largest number of items active at once

  /** Item x is active at time t. */
  predicate Covers(x: Item, t: int) { x.start <= t < x.end }

  /** The number of items active at time t. */
  function Concurrent(s: seq<Item>, t: int): nat {
    if s == [] then 0
    else Concurrent(s[..|s| - 1], t) + (if Covers(s[|s| - 1], t) then 1 else 0)
  }

  /** The positions of the items active at time t. */
  function ActiveAt(s: seq<Item>, t: int): set<nat> {
    set i: nat | i < |s| && Covers(s[i], t)
  }

  /** The lane numbers 0 .. n-1. */
  function Range(n: nat): set<nat> {
    if n == 0 then {} else Range(n - 1) + {n - 1}
  }

  lemma {:induction false} RangeSize(n: nat)
    ensures forall k: nat :: k in Range(n) <==> k < n
    ensures |Range(n)| == n
    decreases n
  {
    if n > 0 {
      RangeSize(n - 1);
      assert n - 1 !in Range(n - 1);
    }
  }

  lemma ConcurrentSnoc(w: seq<Item>, x: Item, t: int)
    ensures Concurrent(w + [x], t) == Concurrent(w, t) + (if Covers(x, t) then 1 else 0)
  {
    assert (w + [x])[..|w|] == w;
  }

  /** The active positions of a sequence are those of its prefix plus possibly the last one. */
  lemma ActiveAtSnoc(s: seq<Item>, t: int)
    requires s != []
    ensures var n := |s|;
      ActiveAt(s, t) == ActiveAt(s[..n - 1], t) + (if Covers(s[n - 1], t) then {n - 1} else {})
  {
    var n := |s|;
    forall i: nat | i < n - 1 ensures s[i] == s[..n - 1][i] {}
  }

  lemma DisjointUnionSize(A: set<nat>, n: nat)
    requires forall i :: i in A ==> i < n
    ensures |A + {n}| == |A| + 1
  {
    assert n !in A;
  }

  lemma {:induction false} ConcurrentIsActiveCount(s: seq<Item>, t: int)
    ensures Concurrent(s, t) == |ActiveAt(s, t)|
    decreases |s|
  {
    if s != [] {
      var n := |s|;
      var p := s[..n - 1];
      ConcurrentIsActiveCount(p, t);
      ActiveAtSnoc(s, t);
      if Covers(s[n - 1], t) {
        DisjointUnionSize(ActiveAt(p, t), n - 1);
      }
    }
  }

  lemma {:induction false} ConcurrentAppend(u: seq<Item>, v: seq<Item>, t: int)
    ensures Concurrent(u + v, t) == Concurrent(u, t) + Concurrent(v, t)
    decreases |v|
  {
    if v == [] {
      assert u + v == u;
    } else {
      var n := |v|;
      var w := v[..n - 1];
      assert v == w + [v[n - 1]];
      assert u + v == (u + w) + [v[n - 1]];
      ConcurrentAppend(u, w, t);
      ConcurrentSnoc(u + w, v[n - 1], t);
      ConcurrentSnoc(w, v[n - 1], t);
    }
  }

  /** Concurrency is a property of the items, whatever their order. */
  lemma {:induction false} ConcurrentPermutation(a: seq<Item>, b: seq<Item>, t: int)
    requires multiset(a) == multiset(b)
    ensures Concurrent(a, t) == Concurrent(b, t)
    decreases |a|
  {
    if a == [] {
      assert |b| == |multiset(b)| == 0;
    } else {
      var n := |a|;
      var x := a[n - 1];
      assert a == a[..n - 1] + [x];
      assert x in multiset(b);
      var k :| 0 <= k < |b| && b[k] == x;
      var rest := b[..k] + b[k + 1..];
      assert b == b[..k] + [x] + b[k + 1..];
      assert multiset(rest) == multiset(b) - multiset{x};
      assert multiset(a[..n - 1]) == multiset(a) - multiset{x};
      ConcurrentPermutation(a[..n - 1], rest, t);
      ConcurrentAppend(b[..k] + [x], b[k + 1..], t);
      ConcurrentSnoc(b[..k], x, t);
      ConcurrentAppend(b[..k], b[k + 1..], t);
      ConcurrentSnoc(a[..n - 1], x, t);
    }
  }

  /** An injection from A into B shows |A| <= |B|. */
  lemma {:induction false} InjectionBound(A: set<nat>, B: set<nat>, f: map<nat, nat>)
    requires forall a :: a in A ==> a in f && f[a] in B
    requires forall a, b :: a in A && b in A && a != b ==> f[a] != f[b]
    ensures |A| <= |B|
    decreases |A|
  {
    if A != {} {
      var a :| a in A;
      InjectionBound(A - {a}, B - {f[a]}, f);
    }
  }

  /** Active items sit on distinct lanes, so no time has more active items than lanes. */
  lemma LanesBoundConcurrency(s: seq<Item>, t: int)
    requires SortedByStart(s)
    ensures Concurrent(s, t) <= |Greedy(s).ends|
  {
    var l := Greedy(s);
    GreedyInvariant(s);
    ConcurrentIsActiveCount(s, t);
    var A := ActiveAt(s, t);
    var f := map i | i in A :: l.tracks[i];
    forall i, j | i in A && j in A && i != j ensures f[i] != f[j] {
      if i < j {
        assert s[j].start <= t < s[i].end;
      } else {
        assert s[i].start <= t < s[j].end;
      }
    }
    RangeSize(|l.ends|);
    InjectionBound(A, Range(|l.ends|), f);
  }

  predicate PositiveDurations(s: seq<Item>) {
    forall i :: 0 <= i < |s| ==> s[i].start < s[i].end
  }

  lemma SortedSlice(s: seq<Item>, n: nat)
    requires SortedByStart(s) && n <= |s|
    ensures SortedByStart(s[..n])
  {
    forall i, j | 0 <= i < j < n ensures s[..n][i].start <= s[..n][j].start {
      assert s[..n][i] == s[i] && s[..n][j] == s[j];
    }
  }

  /** The last item of an older lane is still active when item n-1 opens a new lane. */
  lemma OldLaneActive(s: seq<Item>, n: nat, k: nat)
    requires SortedByStart(s) && 0 < n <= |s|
    requires FirstFit(Greedy(s[..n - 1]).ends, s[n - 1].start) == |Greedy(s[..n - 1]).ends|
    requires k < |Greedy(s[..n - 1]).ends|
    ensures 0 <= LastOn(Greedy(s[..n - 1]).tracks, k) < n - 1
    ensures LastOn(Greedy(s[..n - 1]).tracks, k) as nat in ActiveAt(s, s[n - 1].start)
  {
    var p := s[..n - 1];
    var l := Greedy(p);
    GreedyInvariant(p);
    var i := LastOn(l.tracks, k);
    assert p[i] == s[i];
    assert s[i].end == l.ends[k] > s[n - 1].start;
    assert s[i].start <= s[n - 1].start;
  }

  /** The item chosen for lane k: the last item on an older lane, or item n for the new lane K. */
  function Witness(tracks: seq<nat>, K: nat, n: nat, k: nat): nat {
    if k < K && LastOn(tracks, k) >= 0 then LastOn(tracks, k) as nat else n
  }

  /** The chosen items for lanes 0 .. K, one per lane. */
  function LaneWitnesses(tracks: seq<nat>, K: nat, n: nat): map<nat, nat> {
    map k | k in Range(K + 1) :: Witness(tracks, K, n, k)
  }

  /** The item chosen for a lane is active when item n-1 opens a new lane, and identifies its lane. */
  lemma WitnessFacts(s: seq<Item>, n: nat, k: nat)
    requires SortedByStart(s) && PositiveDurations(s) && 0 < n <= |s|
    requires FirstFit(Greedy(s[..n - 1]).ends, s[n - 1].start) == |Greedy(s[..n - 1]).ends|
    requires k <= |Greedy(s[..n - 1]).ends|
    ensures var l := Greedy(s[..n - 1]);
      var w := Witness(l.tracks, |l.ends|, n - 1, k);
      && w in ActiveAt(s, s[n - 1].start)
      && (k < |l.ends| ==> w < n - 1 && l.tracks[w] == k)
      && (k == |l.ends| ==> w == n - 1)
  {
    if k < |Greedy(s[..n - 1]).ends| {
      OldLaneActive(s, n, k);
    } else {
      assert s[n - 1].start < s[n - 1].end;
    }
  }

  /**
   * When item n-1 opens a new lane, it is active at its own start, and so is
   * the last item of every older lane, since none of those had ended.
   */
  lemma NewLaneWitness(s: seq<Item>, n: nat)
    requires SortedByStart(s) && PositiveDurations(s) && 0 < n <= |s|
    requires FirstFit(Greedy(s[..n - 1]).ends, s[n - 1].start) == |Greedy(s[..n - 1]).ends|
    ensures |ActiveAt(s, s[n - 1].start)| >= |Greedy(s[..n - 1]).ends| + 1
  {
    var l := Greedy(s[..n - 1]);
    var t := s[n - 1].start;
    var K := |l.ends|;
    var f := LaneWitnesses(l.tracks, K, n - 1);
    RangeSize(K + 1);
    forall k | k in Range(K + 1) ensures k in f && f[k] in ActiveAt(s, t) {
      WitnessFacts(s, n, k);
    }
    forall a, b | a in Range(K + 1) && b in Range(K + 1) && a != b ensures f[a] != f[b] {
      WitnessFacts(s, n, a);
      WitnessFacts(s, n, b);
    }
    InjectionBound(Range(K + 1), ActiveAt(s, t), f);
  }

  /** Placing item n-1 adds a lane exactly when no existing lane fits it. */
  lemma LaneCountStep(s: seq<Item>, n: nat)
    requires 0 < n <= |s|
    ensures var l := Greedy(s[..n - 1]);
      |Greedy(s[..n]).ends| == |l.ends| + (if FirstFit(l.ends, s[n - 1].start) == |l.ends| then 1 else 0)
  {
    assert s[..n] == s[..n - 1] + [s[n - 1]];
    GreedyUnfold(s[..n - 1], s[n - 1]);
  }

  /** Whatever the lane count after n items, some time has that many active items. */
  lemma {:induction false} ConcurrencyWitness(s: seq<Item>, n: nat) returns (t: int)
    requires SortedByStart(s) && PositiveDurations(s)
    requires 0 < n <= |s|
    ensures |ActiveAt(s, t)| >= |Greedy(s[..n]).ends|
    decreases n
  {
    var l := Greedy(s[..n - 1]);
    LaneCountStep(s, n);
    if n == 1 || FirstFit(l.ends, s[n - 1].start) == |l.ends| {
      NewLaneWitness(s, n);
      t := s[n - 1].start;
    } else {
      t := ConcurrencyWitness(s, n - 1);
    }
  }

  /** No time has more active items than the allocation has lanes. */
  lemma ConcurrencyBound(items: seq<Item>, t: int)
    ensures Concurrent(items, t) <= TrackCount(items)
  {
    var sorted := SortByStart(items);
    ConcurrentPermutation(items, sorted, t);
    LanesBoundConcurrency(sorted, t);
  }

  /** For items of positive duration the lane count is exactly the largest concurrency. */
  lemma OptimalForPositiveDurations(items: seq<Item>)
    requires items != [] && PositiveDurations(items)
    ensures forall t :: Concurrent(items, t) <= TrackCount(items)
    ensures exists t :: Concurrent(items, t) == TrackCount(items)
  {
    forall t ensures Concurrent(items, t) <= TrackCount(items) {
      ConcurrencyBound(items, t);
    }
    var sorted := SortByStart(items);
    assert PositiveDurations(sorted) by {
      forall i | 0 <= i < |sorted| ensures sorted[i].start < sorted[i].end {
        assert sorted[i] in multiset(items);
      }
    }
    assert sorted[..|sorted|] == sorted;
    var t := ConcurrencyWitness(sorted, |sorted|);
    ConcurrentIsActiveCount(sorted, t);
    ConcurrentPermutation(items, sorted, t);
  }

  /**
   * A zero-duration item inside another item's span still opens a lane: for
   * instance [0, 10) and [5, 5) use two lanes, though no time has two active items.
   */
  lemma ZeroDurationExtraTrack(a: Item, b: Item)
    requires a.start <= b.start == b.end < a.end
    ensures TrackCount([a, b]) == 2
    ensures forall t :: Concurrent([a, b], t) <= 1
  {
    SortTwo(a, b);
    GreedyTwo(a, b);
    forall t ensures Concurrent([a, b], t) <= 1 {
      ConcurrentSnoc([a], b, t);
      ConcurrentSnoc([], a, t);
    }
  }

  lemma SortTwo(a: Item, b: Item)
    requires a.start <= b.start
    ensures SortByStart([a, b]) == [a, b]
  {
    assert [a, b][..1] == [a];
    assert SortByStart([a]) == [a];
  }

  lemma GreedyTwo(a: Item, b: Item)
    requires b.start < a.end
    ensures |Greedy([a, b]).ends| == 2
  {
    assert [a, b][..1] == [a];
    assert Greedy([a]) == Lanes([a.end], [0]);
  }

  // ---------------------------------------------------------------------
  // The imperative allocator

  /** `allocateTracks(items)`; the input sequence is never changed. */
  method AllocateTracks(items: seq<Item>) returns (allocation: map<string, TrackAllocation>)
    ensures allocation == Allocation(items)
    ensures allocation.Keys == Ids(items)
    ensures forall id :: id in allocation ==>
      allocation[id].totalTracks == TrackCount(items)
      && allocation[id].trackIndex < allocation[id].totalTracks
  {
    allocation := map[];
    if |items| == 0 {
      AllocationShape(items);
      return;
    }
    var sorted := SortByStart(items);
    var placed, trackEndTimes := PlaceAll(sorted);
    allocation := RecordTotals(placed, |trackEndTimes|);
    AllocationShape(items);
  }

  /** The placement loop of `allocateTracks`, over the sorted copy. */
  method PlaceAll(sorted: seq<Item>) returns (allocation: map<string, TrackAllocation>, trackEndTimes: seq<int>)
    ensures trackEndTimes == Greedy(sorted).ends
    ensures allocation == Assign(sorted, Greedy(sorted).tracks)
  {
    allocation := map[];
    trackEndTimes := [];
    ghost var tracks: seq<nat> := [];
    var n := 0;
    assert sorted[..n] == [];
    while n < |sorted|
      invariant 0 <= n <= |sorted|
      invariant Greedy(sorted[..n]) == Lanes(trackEndTimes, tracks)
      invariant allocation == Assign(sorted[..n], tracks)
    {
      var item := sorted[n];
      ghost var before := trackEndTimes;
      var assignedTrack;
      assignedTrack, trackEndTimes := FitItem(trackEndTimes, item);
      PlacementStep(sorted, n, before, tracks, assignedTrack, trackEndTimes);
      tracks := tracks + [assignedTrack];
      allocation := allocation[item.id := TrackAllocation(assignedTrack, 0)];
      n := n + 1;
    }
    assert sorted[..n] == sorted;
  }

  /** One turn of the placement loop extends both the lanes and the map by the next item. */
  lemma PlacementStep(s: seq<Item>, n: nat, ends: seq<int>, tracks: seq<nat>, t: nat, newEnds: seq<int>)
    requires n < |s| && Greedy(s[..n]) == Lanes(ends, tracks)
    requires t == FirstFit(ends, s[n].start)
    requires t < |ends| ==> newEnds == ends[t := s[n].end]
    requires t == |ends| ==> newEnds == ends + [s[n].end]
    ensures Greedy(s[..n + 1]) == Lanes(newEnds, tracks + [t])
    ensures Assign(s[..n + 1], tracks + [t]) == Assign(s[..n], tracks)[s[n].id := TrackAllocation(t, 0)]
  {
    assert s[..n + 1] == s[..n] + [s[n]];
    GreedyUnfold(s[..n], s[n]);
    AssignAppend(s[..n], tracks, s[n], t);
  }

  /**
   * The body of the placement loop of `allocateTracks`: the first lane whose
   * end is at most the item's start takes the item's end, else a new lane
   * is pushed.
   */
  method FitItem(ends: seq<int>, item: Item) returns (assignedTrack: nat, trackEndTimes: seq<int>)
    ensures assignedTrack == FirstFit(ends, item.start)
    ensures assignedTrack < |ends| ==> trackEndTimes == ends[assignedTrack := item.end]
    ensures assignedTrack == |ends| ==> trackEndTimes == ends + [item.end]
  {
    trackEndTimes := ends;
    var found := -1;
    var i := 0;
    while i < |trackEndTimes|
      invariant 0 <= i <= |trackEndTimes|
      invariant found == -1 && trackEndTimes == ends
      invariant forall k :: 0 <= k < i ==> trackEndTimes[k] > item.start
    {
      if trackEndTimes[i] <= item.start {
        found := i;
        trackEndTimes := trackEndTimes[i := item.end];
        break;
      }
      i := i + 1;
    }
    if found == -1 {
      found := |trackEndTimes|;
      trackEndTimes := trackEndTimes + [item.end];
    }
    assignedTrack := found;
  }

  /** The second pass of `allocateTracks`: rewrites every entry with the final lane count. */
  method RecordTotals(placed: map<string, TrackAllocation>, totalTracks: nat)
    returns (allocation: map<string, TrackAllocation>)
    ensures allocation == Retotal(placed, totalTracks)
  {
    allocation := placed;
    var pending := allocation.Keys;
    while pending != {}
      invariant pending <= placed.Keys && allocation.Keys == placed.Keys
      invariant forall id :: id in placed ==>
        allocation[id] == (if id in pending then placed[id] else TrackAllocation(placed[id].trackIndex, totalTracks))
      decreases |pending|
    {
      var id :| id in pending;
      allocation := allocation[id := TrackAllocation(allocation[id].trackIndex, totalTracks)];
      pending := pending - {id};
    }
  }
}
