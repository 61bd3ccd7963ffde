/**
  The leveled compactor: which blocks a round picks, what a round leaves, and that rounds end.

  A block covers the times from `min` up to, not including, `max`. Blocks are kept in the order
  of their start times.
*/
module Compaction {

  // A block merged into another one.
  datatype Parent = Parent(id: nat, min: int, max: int)

  datatype Block = Block(id: nat, min: int, max: int, level: nat, sources: set<nat>, parents: seq<Parent>, failed: bool, tombstones: nat,
                         series: nat)

  predicate Proper(bs: seq<Block>)
  {
    forall i :: 0 <= i < |bs| ==> bs[i].min < bs[i].max
  }

  predicate Sorted(bs: seq<Block>)
  {
    forall i, j :: 0 <= i < j < |bs| ==> bs[i].min <= bs[j].min
  }

  predicate Overlap(a: Block, b: Block) { a.min < b.max && b.min < a.max }

  predicate NoOverlap(bs: seq<Block>)
  {
    forall i, j :: 0 <= i < j < |bs| ==> !Overlap(bs[i], bs[j])
  }

  // Each block ends before the next begins.
  predicate Apart(bs: seq<Block>)
  {
    forall i, j :: 0 <= i < j < |bs| ==> bs[i].max <= bs[j].min
  }

  lemma ApartIsNoOverlap(bs: seq<Block>)
    requires Sorted(bs) && Proper(bs)
    ensures Apart(bs) <==> NoOverlap(bs)
  {
    if NoOverlap(bs) {
      forall i, j | 0 <= i < j < |bs| ensures bs[i].max <= bs[j].min { assert !Overlap(bs[i], bs[j]); }
    }
  }

  // Sorting by start time.
  function InsertByMin(x: Block, bs: seq<Block>): seq<Block>
  {
    if bs == [] || x.min <= bs[0].min then [x] + bs else [bs[0]] + InsertByMin(x, bs[1..])
  }

  function SortByMin(bs: seq<Block>): seq<Block>
  {
    if bs == [] then [] else InsertByMin(bs[0], SortByMin(bs[1..]))
  }

  lemma {:induction false} InsertKeeps(x: Block, bs: seq<Block>)
    ensures multiset(InsertByMin(x, bs)) == multiset(bs) + multiset{x}
  {
    if bs != [] && x.min > bs[0].min {
      InsertKeeps(x, bs[1..]);
      assert bs == [bs[0]] + bs[1..];
    }
  }

  lemma SortedHead(x: Block, bs: seq<Block>)
    requires Sorted(bs) && forall b :: b in multiset(bs) ==> x.min <= b.min
    ensures Sorted([x] + bs)
  {
    forall i | 0 <= i < |bs| ensures x.min <= bs[i].min { assert bs[i] in multiset(bs); }
  }

  lemma {:induction false} InsertSorts(x: Block, bs: seq<Block>)
    requires Sorted(bs)
    ensures Sorted(InsertByMin(x, bs))
  {
    if bs == [] {
    } else if x.min <= bs[0].min {
      SortedHead(x, bs);
    } else {
      InsertSorts(x, bs[1..]);
      InsertKeeps(x, bs[1..]);
      SortedHead(bs[0], InsertByMin(x, bs[1..]));
    }
  }

  // The same blocks, in the order of their start times.
  lemma {:induction false} SortSorts(bs: seq<Block>)
    ensures Sorted(SortByMin(bs)) && multiset(SortByMin(bs)) == multiset(bs)
  {
    if bs != [] {
      SortSorts(bs[1..]);
      hide Sorted;
      InsertSorts(bs[0], SortByMin(bs[1..]));
      InsertKeeps(bs[0], SortByMin(bs[1..]));
      assert bs == [bs[0]] + bs[1..];
    }
  }

  lemma SameBlocksProper(bs: seq<Block>, s: seq<Block>)
    requires multiset(s) == multiset(bs) && Proper(bs)
    ensures Proper(s) && (bs != [] ==> s != [])
  {
    forall i | 0 <= i < |s| ensures s[i].min < s[i].max { assert s[i] in multiset(s); }
    assert bs != [] ==> bs[0] in multiset(s);
  }

  // Overlapping blocks //////////////////////////////////////////////////////////////////////

  // Positions a to b - 1 are the first group of blocks that hang together: each but the first
  // overlaps an earlier one of the group, none overlaps a block outside, and before the group
  // nothing overlaps.
  ghost predicate Cluster(bs: seq<Block>, a: nat, b: nat)
  {
    && a + 2 <= b <= |bs|
    && Apart(bs[..a + 1])
    && Linked(bs, a, b)
    && (forall i, k :: 0 <= i < |bs| && a <= k < b && !(a <= i < b) ==> !Overlap(bs[i], bs[k]))
  }

  ghost predicate Linked(bs: seq<Block>, a: nat, b: nat)
  {
    b <= |bs| && forall k :: a < k < b ==> Reached(bs, a, k)
  }

  ghost predicate Reached(bs: seq<Block>, a: nat, k: nat)
    requires k < |bs|
  {
    exists j :: a <= j < k && Overlap(bs[j], bs[k])
  }

  // max is the latest end among positions a to b - 1.
  predicate Latest(bs: seq<Block>, a: nat, b: nat, max: int)
  {
    && a < b <= |bs|
    && (forall i :: a <= i < b ==> bs[i].max <= max)
    && (exists i :: a <= i < b && bs[i].max == max)
  }

  lemma ApartGrows(bs: seq<Block>, i: nat)
    requires 1 <= i < |bs| && Proper(bs) && Apart(bs[..i]) && bs[i].min >= bs[i - 1].max
    ensures Apart(bs[..i + 1])
  {
    forall j, k | 0 <= j < k < i + 1 ensures bs[j].max <= bs[k].min {
      if k < i {
        assert bs[..i][j].max <= bs[..i][k].min;
      } else if j < i - 1 {
        assert bs[..i][j].max <= bs[..i][i - 1].min;
      }
    }
  }

  lemma LinkedGrows(bs: seq<Block>, a: nat, i: nat, max: int)
    requires a < i < |bs| && Sorted(bs) && Proper(bs) && Linked(bs, a, i) && Latest(bs, a, i, max) && bs[i].min < max
    ensures Linked(bs, a, i + 1)
  {
    var j :| a <= j < i && bs[j].max == max;
    assert Overlap(bs[j], bs[i]);
    assert Reached(bs, a, i);
  }

  lemma LinkedOne(bs: seq<Block>, a: nat)
    requires a < |bs|
    ensures Linked(bs, a, a + 1) && Latest(bs, a, a + 1, bs[a].max)
  {
  }

  lemma ClusterDone(bs: seq<Block>, a: nat, b: nat, max: int)
    requires Sorted(bs) && Proper(bs) && a + 2 <= b <= |bs| && Apart(bs[..a + 1]) && Linked(bs, a, b) && Latest(bs, a, b, max)
    requires b < |bs| ==> bs[b].min >= max
    ensures Cluster(bs, a, b)
  {
    forall i, k | 0 <= i < |bs| && a <= k < b && !(a <= i < b) ensures !Overlap(bs[i], bs[k]) {
      if i < a {
        assert bs[..a + 1][i].max <= bs[..a + 1][a].min;
        assert bs[a].min <= bs[k].min;
      } else {
        assert bs[b].min <= bs[i].min;
      }
    }
  }

  lemma NotApart(bs: seq<Block>, a: nat, b: nat)
    requires Cluster(bs, a, b)
    ensures !NoOverlap(bs)
  {
    assert Reached(bs, a, a + 1);
  }

  // All blocks of the first overlapping group, or none when no blocks overlap.
  method OverlappingDirs(bs: seq<Block>) returns (dirs: seq<Block>, a: nat, b: nat)
    requires Sorted(bs) && Proper(bs)
    ensures dirs == [] <==> NoOverlap(bs)
    ensures dirs != [] ==> Cluster(bs, a, b) && dirs == bs[a..b]
  {
    dirs, a, b := [], 0, 0;
    if |bs| < 2 {
      return;
    }
    assert Apart(bs[..1]);
    hide Apart, Linked, Sorted, Proper, NoOverlap, Cluster;
    var max := bs[0].max;
    var i := 1;
    while i < |bs|
      invariant 1 <= i <= |bs|
      invariant dirs == [] ==> Apart(bs[..i]) && max == bs[i - 1].max
      invariant dirs != [] ==> a + 2 <= i && dirs == bs[a..i] && Apart(bs[..a + 1]) && Linked(bs, a, i) && Latest(bs, a, i, max)
    {
      if bs[i].min < max {
        if dirs == [] {
          dirs, a := [bs[i - 1]], i - 1;
          assert bs[..a + 1] == bs[..i];
          LinkedOne(bs, a);
        }
        LinkedGrows(bs, a, i, max);
        dirs := dirs + [bs[i]];
      } else if dirs != [] {
        break;
      } else {
        ApartGrows(bs, i);
      }
      if bs[i].max > max {
        max := bs[i].max;
      }
      i := i + 1;
    }
    if dirs != [] {
      b := i;
      ClusterDone(bs, a, b, max);
      NotApart(bs, a, b);
    } else {
      assert bs[..i] == bs;
      ApartIsNoOverlap(bs);
    }
  }

  // Aligned windows ///////////////////////////////////////////////////////////////////////////

  // Division that drops the fraction.
  function TruncDiv(x: int, y: int): int
    requires y > 0
  {
    if x >= 0 then x / y else -(-x / y)
  }

  // The start of the aligned window that holds time t.
  function WindowStart(t: int, range: int): int
    requires range > 0
  {
    if t >= 0 then range * TruncDiv(t, range) else range * TruncDiv(t - range + 1, range)
  }

  lemma TruncBounds(x: int, y: int)
    requires y > 0
    ensures x >= 0 ==> y * TruncDiv(x, y) <= x < y * TruncDiv(x, y) + y
    ensures x <= 0 ==> y * TruncDiv(x, y) - y < x <= y * TruncDiv(x, y)
  {
  }

  ghost predicate Aligned(x: int, range: int) { exists k :: x == range * k }

  // The window is aligned and holds t, for negative times too.
  lemma WindowHolds(t: int, range: int)
    requires range > 0
    ensures WindowStart(t, range) <= t < WindowStart(t, range) + range && Aligned(WindowStart(t, range), range)
  {
    if t >= 0 {
      TruncBounds(t, range);
    } else {
      TruncBounds(t - range + 1, range);
    }
  }

  // No other aligned window holds it.
  lemma WindowUnique(x: int, u: int, range: int)
    requires range > 0 && Aligned(x, range) && x <= u < x + range
    ensures WindowStart(u, range) == x
  {
    WindowHolds(u, range);
    var y := WindowStart(u, range);
    var i :| x == range * i;
    var j :| y == range * j;
    Squeeze(i - j, range);
    assert range * (i - j) == x - y;
  }

  lemma Squeeze(k: int, range: int)
    requires range > 0
    ensures -range < range * k < range ==> k == 0
  {
    if k >= 1 { assert range * k >= range; }
    if k <= -1 { assert range * k <= -range; }
  }

  predicate InWindow(b: Block, w: int, range: int) { w <= b.min && b.max <= w + range }

  // A block that does not cross the end of the window it starts in.
  predicate Fits(b: Block, range: int)
    requires range > 0
  {
    b.max <= WindowStart(b.min, range) + range
  }

  // A longest stretch of neighbouring blocks inside one aligned window.
  predicate IsPart(bs: seq<Block>, range: int, a: nat, b: nat)
    requires range > 0
  {
    && a < b <= |bs|
    && var w := WindowStart(bs[a].min, range);
       && (forall i :: a <= i < b ==> InWindow(bs[i], w, range))
       && (a > 0 ==> !InWindow(bs[a - 1], w, range))
       && (b < |bs| ==> !InWindow(bs[b], w, range))
  }

  // The cuts are exactly the parts before position n, in order, windows growing.
  ghost predicate Split(bs: seq<Block>, range: int, cuts: seq<(nat, nat)>, n: nat)
    requires range > 0
  {
    && n <= |bs|
    && (forall p :: 0 <= p < |cuts| ==> IsPart(bs, range, cuts[p].0, cuts[p].1) && cuts[p].1 <= n)
    && (forall p, q :: 0 <= p < q < |cuts| ==>
          cuts[p].1 <= cuts[q].0 && WindowStart(bs[cuts[p].0].min, range) < WindowStart(bs[cuts[q].0].min, range))
    && (forall i :: 0 <= i < n ==> (Fits(bs[i], range) <==> InSome(cuts, i)))
  }

  ghost predicate InSome(cuts: seq<(nat, nat)>, i: nat)
  {
    exists p :: 0 <= p < |cuts| && cuts[p].0 <= i < cuts[p].1
  }

  lemma InWindowIsOwn(b: Block, w: int, range: int)
    requires range > 0 && Aligned(w, range) && b.min < b.max
    ensures InWindow(b, w, range) <==> w == WindowStart(b.min, range) && Fits(b, range)
  {
    WindowHolds(b.min, range);
    if InWindow(b, w, range) { WindowUnique(w, b.min, range); }
  }

  lemma SkipSplits(bs: seq<Block>, range: int, cuts: seq<(nat, nat)>, i: nat)
    requires range > 0 && Split(bs, range, cuts, i) && i < |bs| && !Fits(bs[i], range)
    ensures Split(bs, range, cuts, i + 1)
  {
    assert !InSome(cuts, i);
  }

  // A new part starts in a later window than every part before it.
  lemma LaterWindow(bs: seq<Block>, range: int, a: nat, b: nat, i: nat)
    requires range > 0 && Proper(bs) && Apart(bs) && IsPart(bs, range, a, b) && b <= i < |bs| && Fits(bs[i], range)
    ensures WindowStart(bs[a].min, range) < WindowStart(bs[i].min, range)
  {
    var w := WindowStart(bs[a].min, range);
    WindowHolds(bs[a].min, range);
    WindowHolds(bs[i].min, range);
    assert bs[a].max <= bs[b].min;
    assert bs[b].max > w + range;
    InWindowIsOwn(bs[i], w, range);
    assert a < i ==> bs[a].max <= bs[i].min;
    OrderedWindows(bs[a].min, bs[i].min, range);
  }

  lemma OrderedWindows(t: int, u: int, range: int)
    requires range > 0 && t <= u
    ensures WindowStart(t, range) <= WindowStart(u, range)
  {
    WindowHolds(t, range);
    WindowHolds(u, range);
    var x, y := WindowStart(t, range), WindowStart(u, range);
    if y < x {
      WindowUnique(y, t, range);
    }
  }

  lemma StartsPart(bs: seq<Block>, range: int, cuts: seq<(nat, nat)>, a: nat, b: nat)
    requires range > 0 && Proper(bs) && Apart(bs) && Split(bs, range, cuts, a) && a < b <= |bs|
    requires var w := WindowStart(bs[a].min, range);
             && (forall k :: a <= k < b ==> bs[k].max <= w + range)
             && (b < |bs| ==> bs[b].max > w + range)
    ensures IsPart(bs, range, a, b)
  {
    var w := WindowStart(bs[a].min, range);
    WindowHolds(bs[a].min, range);
    forall k | a <= k < b ensures InWindow(bs[k], w, range) {
      assert k > a ==> bs[a].max <= bs[k].min;
    }
    if a > 0 && InWindow(bs[a - 1], w, range) {
      InWindowIsOwn(bs[a - 1], w, range);
      assert InSome(cuts, a - 1);
      var p :| 0 <= p < |cuts| && cuts[p].0 <= a - 1 < cuts[p].1;
      var w' := WindowStart(bs[cuts[p].0].min, range);
      WindowHolds(bs[cuts[p].0].min, range);
      InWindowIsOwn(bs[a - 1], w', range);
      assert InWindow(bs[a], w', range);
    }
  }

  lemma PartSplits(bs: seq<Block>, range: int, cuts: seq<(nat, nat)>, a: nat, b: nat)
    requires range > 0 && Proper(bs) && Apart(bs) && Split(bs, range, cuts, a) && IsPart(bs, range, a, b)
    ensures Split(bs, range, cuts + [(a, b)], b)
  {
    var w := WindowStart(bs[a].min, range);
    var more := cuts + [(a, b)];
    WindowHolds(bs[a].min, range);
    InWindowIsOwn(bs[a], w, range);
    forall p | 0 <= p < |cuts| ensures WindowStart(bs[cuts[p].0].min, range) < w {
      LaterWindow(bs, range, cuts[p].0, cuts[p].1, a);
    }
    forall i | 0 <= i < b ensures Fits(bs[i], range) <==> InSome(more, i) {
      if i < a {
        assert Fits(bs[i], range) <==> InSome(cuts, i);
      } else {
        InWindowIsOwn(bs[i], w, range);
      }
      InSomeMore(cuts, a, b, i);
    }
    assert forall p :: 0 <= p < |cuts| ==> more[p] == cuts[p];
    hide Fits, IsPart, InSome, WindowStart;
  }

  lemma InSomeMore(cuts: seq<(nat, nat)>, a: nat, b: nat, i: nat)
    ensures InSome(cuts + [(a, b)], i) <==> InSome(cuts, i) || a <= i < b
  {
    var more := cuts + [(a, b)];
    if InSome(cuts, i) {
      var p :| 0 <= p < |cuts| && cuts[p].0 <= i < cuts[p].1;
      assert more[p] == cuts[p];
    }
    assert more[|cuts|] == (a, b);
  }

  // The positions split by aligned windows: every part found, in order; a block is in no part
  // exactly when it crosses the end of its own window.
  method SplitByRange(bs: seq<Block>, range: int) returns (cuts: seq<(nat, nat)>)
    requires range > 0 && Proper(bs) && Apart(bs)
    ensures Split(bs, range, cuts, |bs|)
  {
    cuts := [];
    var i := 0;
    while i < |bs|
      invariant i <= |bs| && Split(bs, range, cuts, i)
    {
      var t0 := WindowStart(bs[i].min, range);
      if bs[i].max > t0 + range {
        SkipSplits(bs, range, cuts, i);
        i := i + 1;
        continue;
      }
      var first := i;
      while i < |bs| && bs[i].max <= t0 + range
        invariant first <= i <= |bs|
        invariant forall k :: first <= k < i ==> bs[k].max <= t0 + range
      {
        i := i + 1;
      }
      StartsPart(bs, range, cuts, first, i);
      PartSplits(bs, range, cuts, first, i);
      cuts := cuts + [(first, i)];
    }
  }

  // No part is missed.
  lemma PartsFound(bs: seq<Block>, range: int, cuts: seq<(nat, nat)>, a: nat, b: nat)
    requires range > 0 && Proper(bs) && Split(bs, range, cuts, |bs|) && IsPart(bs, range, a, b)
    ensures (a, b) in cuts
  {
    var w := WindowStart(bs[a].min, range);
    WindowHolds(bs[a].min, range);
    InWindowIsOwn(bs[a], w, range);
    assert InSome(cuts, a);
    var p :| 0 <= p < |cuts| && cuts[p].0 <= a < cuts[p].1;
    var (c, d) := cuts[p];
    WindowHolds(bs[c].min, range);
    InWindowIsOwn(bs[a], WindowStart(bs[c].min, range), range);
    SameStretch(bs, range, w, a, b, c, d);
    assert cuts[p] == (a, b);
  }

  lemma SameStretch(bs: seq<Block>, range: int, w: int, a: nat, b: nat, c: nat, d: nat)
    requires range > 0 && IsPart(bs, range, a, b) && IsPart(bs, range, c, d) && c <= a < d
    requires WindowStart(bs[a].min, range) == w == WindowStart(bs[c].min, range)
    ensures a == c && b == d
  {
    hide WindowStart;
  }

  // Selection //////////////////////////////////////////////////////////////////////////////////

  // A part worth compacting: more than one block, none failed before, and it fills its window or
  // lies before the most recent block.
  ghost predicate Eligible(bs: seq<Block>, ranges: seq<int>, r: nat, a: nat, b: nat)
    requires RangesOk(ranges) && bs != []
  {
    && 1 <= r < |ranges| && IsPart(bs, ranges[r], a, b) && b - a > 1
    && (forall i :: a <= i < b ==> !bs[i].failed)
    && (bs[b - 1].max - bs[a].min == ranges[r] || bs[b - 1].max <= bs[|bs| - 1].min)
  }

  predicate RangesOk(ranges: seq<int>)
  {
    ranges != [] && forall i :: 0 <= i < |ranges| ==> ranges[i] > 0
  }

  // The first eligible part, smaller ranges first.
  ghost predicate Chosen(bs: seq<Block>, ranges: seq<int>, r: nat, a: nat, b: nat)
    requires RangesOk(ranges) && bs != []
  {
    && Eligible(bs, ranges, r, a, b)
    && (forall r': nat, a': nat, b': nat :: Eligible(bs, ranges, r', a', b') ==> r < r' || (r == r' && a <= a'))
  }

  ghost predicate NoneEligible(bs: seq<Block>, ranges: seq<int>)
    requires RangesOk(ranges) && bs != []
  {
    forall r: nat, a: nat, b: nat :: !Eligible(bs, ranges, r, a, b)
  }

  method AnyFailed(bs: seq<Block>, a: nat, b: nat) returns (failed: bool)
    requires a <= b <= |bs|
    ensures failed <==> exists i :: a <= i < b && bs[i].failed
  {
    failed := false;
    var j := a;
    while j < b
      invariant a <= j <= b && (forall i :: a <= i < j ==> !bs[i].failed)
    {
      if bs[j].failed {
        return true;
      }
      j := j + 1;
    }
  }

  // No eligible part in the ranges before r, nor among the first p parts of range r.
  ghost predicate NoneBefore(bs: seq<Block>, ranges: seq<int>, r: nat, cuts: seq<(nat, nat)>, p: nat)
    requires RangesOk(ranges) && bs != [] && p <= |cuts|
  {
    && (forall r': nat, a: nat, b: nat :: Eligible(bs, ranges, r', a, b) ==> r' >= r)
    && (forall q :: 0 <= q < p ==> !Eligible(bs, ranges, r, cuts[q].0, cuts[q].1))
  }

  lemma EligibleFound(bs: seq<Block>, ranges: seq<int>, r: nat, cuts: seq<(nat, nat)>, a: nat, b: nat)
    requires RangesOk(ranges) && bs != [] && 1 <= r < |ranges| && Proper(bs) && Split(bs, ranges[r], cuts, |bs|)
    requires Eligible(bs, ranges, r, a, b)
    ensures exists q :: 0 <= q < |cuts| && cuts[q] == (a, b)
  {
    hide Split, IsPart;
    PartsFound(bs, ranges[r], cuts, a, b);
  }

  lemma RangeDone(bs: seq<Block>, ranges: seq<int>, r: nat, cuts: seq<(nat, nat)>)
    requires RangesOk(ranges) && bs != [] && 1 <= r < |ranges| && Proper(bs) && Split(bs, ranges[r], cuts, |bs|)
    requires NoneBefore(bs, ranges, r, cuts, |cuts|)
    ensures NoneBefore(bs, ranges, r + 1, [], 0)
  {
    hide Split, Eligible, Proper;
    forall r': nat, a: nat, b: nat | Eligible(bs, ranges, r', a, b) ensures r' >= r + 1 {
      if r' == r { EligibleFound(bs, ranges, r, cuts, a, b); }
    }
  }

  lemma OrderedCuts(bs: seq<Block>, range: int, cuts: seq<(nat, nat)>, p: nat, q: nat)
    requires range > 0 && Split(bs, range, cuts, |bs|) && p <= q < |cuts|
    ensures cuts[p].0 <= cuts[q].0
  {
    hide WindowStart;
    assert IsPart(bs, range, cuts[p].0, cuts[p].1);
  }

  lemma FirstEligible(bs: seq<Block>, ranges: seq<int>, r: nat, cuts: seq<(nat, nat)>, p: nat)
    requires RangesOk(ranges) && bs != [] && 1 <= r < |ranges| && Proper(bs) && Split(bs, ranges[r], cuts, |bs|) && p < |cuts|
    requires NoneBefore(bs, ranges, r, cuts, p) && Eligible(bs, ranges, r, cuts[p].0, cuts[p].1)
    ensures Chosen(bs, ranges, r, cuts[p].0, cuts[p].1)
  {
    hide Split, Eligible, Proper;
    var a := cuts[p].0;
    forall r': nat, a': nat, b': nat | Eligible(bs, ranges, r', a', b') ensures r < r' || (r == r' && a <= a') {
      if r' == r {
        EligibleFound(bs, ranges, r, cuts, a', b');
        var q :| 0 <= q < |cuts| && cuts[q] == (a', b');
        OrderedCuts(bs, ranges[r], cuts, p, q);
      }
    }
  }

  lemma NoneBeforeMore(bs: seq<Block>, ranges: seq<int>, r: nat, cuts: seq<(nat, nat)>, p: nat)
    requires RangesOk(ranges) && bs != [] && p < |cuts| && NoneBefore(bs, ranges, r, cuts, p)
    requires !Eligible(bs, ranges, r, cuts[p].0, cuts[p].1)
    ensures NoneBefore(bs, ranges, r, cuts, p + 1)
  {
    hide Eligible;
  }

  lemma NoneBeforeBounds(bs: seq<Block>, ranges: seq<int>, r: nat, cuts: seq<(nat, nat)>)
    requires RangesOk(ranges) && bs != []
    ensures NoneBefore(bs, ranges, 1, [], 0)
    ensures NoneBefore(bs, ranges, r, [], 0) ==> NoneBefore(bs, ranges, r, cuts, 0)
    ensures NoneBefore(bs, ranges, |ranges|, [], 0) ==> NoneEligible(bs, ranges)
  {
    hide IsPart;
  }

  // The first eligible part of one range; a == b when there is none.
  method SelectPart(bs: seq<Block>, ranges: seq<int>, r: nat) returns (a: nat, b: nat)
    requires RangesOk(ranges) && bs != [] && 1 <= r < |ranges| && Proper(bs) && Apart(bs) && NoneBefore(bs, ranges, r, [], 0)
    ensures a <= b <= |bs|
    ensures if a == b then NoneBefore(bs, ranges, r + 1, [], 0) else Chosen(bs, ranges, r, a, b)
  {
    hide Proper, Apart, Split, IsPart, Chosen, NoneBefore;
    var cuts := SplitByRange(bs, ranges[r]);
    CutsInside(bs, ranges[r], cuts);
    NoneBeforeBounds(bs, ranges, r, cuts);
    var p := 0;
    while p < |cuts|
      invariant p <= |cuts| && NoneBefore(bs, ranges, r, cuts, p)
    {
      a, b := cuts[p].0, cuts[p].1;
      var failed := AnyFailed(bs, a, b);
      if !failed && (bs[b - 1].max - bs[a].min == ranges[r] || bs[b - 1].max <= bs[|bs| - 1].min) && b - a > 1 {
        FirstEligible(bs, ranges, r, cuts, p);
        return;
      }
      NoneBeforeMore(bs, ranges, r, cuts, p);
      p := p + 1;
    }
    RangeDone(bs, ranges, r, cuts);
    a, b := 0, 0;
  }

  // The part to compact, smallest range first; a == b when there is none.
  method SelectDirs(bs: seq<Block>, ranges: seq<int>) returns (a: nat, b: nat)
    requires RangesOk(ranges) && Proper(bs) && Apart(bs)
    ensures a <= b <= |bs|
    ensures bs != [] && a == b ==> NoneEligible(bs, ranges)
    ensures bs != [] && a != b ==> exists r: nat :: Chosen(bs, ranges, r, a, b)
  {
    a, b := 0, 0;
    if bs == [] {
      return;
    }
    hide Proper, Apart, Chosen, NoneBefore, NoneEligible, Eligible;
    NoneBeforeBounds(bs, ranges, 1, []);
    var r := 1;
    while r < |ranges|
      invariant 1 <= r <= |ranges| && NoneBefore(bs, ranges, r, [], 0)
    {
      a, b := SelectPart(bs, ranges, r);
      if a != b {
        return;
      }
      r := r + 1;
    }
    a, b := 0, 0;
  }

  lemma CutsInside(bs: seq<Block>, range: int, cuts: seq<(nat, nat)>)
    requires range > 0 && Split(bs, range, cuts, |bs|)
    ensures forall p :: 0 <= p < |cuts| ==> cuts[p].0 < cuts[p].1 <= |bs| && IsPart(bs, range, cuts[p].0, cuts[p].1)
  {
  }

  // Planning //////////////////////////////////////////////////////////////////////////////////

  predicate Big(b: Block, ranges: seq<int>)
    requires ranges != []
  {
    b.max - b.min >= ranges[|ranges| / 2]
  }

  // More than five tombstones per hundred series.
  predicate Worn(b: Block) { 20 * b.tombstones > b.series }

  // The latest worn block behind which every block is big.
  predicate LatestWorn(bs: seq<Block>, ranges: seq<int>, i: nat)
    requires ranges != []
  {
    && i < |bs| && Worn(bs[i])
    && (forall k :: i <= k < |bs| ==> Big(bs[k], ranges))
    && (forall k :: i < k < |bs| ==> !Worn(bs[k]))
  }

  // The blocks but the most recent one.
  function Older(bs: seq<Block>): seq<Block>
    requires bs != []
  {
    bs[..|bs| - 1]
  }

  // What a round picks: the first overlapping group; else, setting the most recent block aside,
  // the first eligible part; else a worn block.
  ghost predicate Planned(bs: seq<Block>, ranges: seq<int>, a: nat, b: nat)
    requires RangesOk(ranges) && bs != []
  {
    var older := Older(bs);
    if !NoOverlap(bs) then Cluster(bs, a, b)
    else if older != [] && !NoneEligible(older, ranges) then exists r: nat :: Chosen(older, ranges, r, a, b)
    else LatestWorn(older, ranges, a) && b == a + 1
  }

  ghost predicate NothingPlanned(bs: seq<Block>, ranges: seq<int>)
    requires RangesOk(ranges) && bs != []
  {
    var older := Older(bs);
    && NoOverlap(bs)
    && (older != [] ==> NoneEligible(older, ranges))
    && (forall i: nat :: !LatestWorn(older, ranges, i))
  }

  method FindWorn(bs: seq<Block>, ranges: seq<int>) returns (found: bool, i: nat)
    requires RangesOk(ranges)
    ensures found ==> LatestWorn(bs, ranges, i)
    ensures !found ==> forall k: nat :: !LatestWorn(bs, ranges, k)
  {
    found, i := false, 0;
    var k := |bs|;
    while k > 0
      invariant 0 <= k <= |bs|
      invariant forall j :: k <= j < |bs| ==> Big(bs[j], ranges) && !Worn(bs[j])
    {
      k := k - 1;
      if bs[k].max - bs[k].min < ranges[|ranges| / 2] {
        return;
      }
      if 20 * bs[k].tombstones > bs[k].series {
        return true, k;
      }
    }
  }

  lemma ClusterSize(bs: seq<Block>, a: nat, b: nat)
    requires Cluster(bs, a, b)
    ensures a + 2 <= b <= |bs|
  {
  }

  lemma OlderKeeps(bs: seq<Block>)
    requires bs != [] && Sorted(bs) && Proper(bs) && NoOverlap(bs)
    ensures Proper(Older(bs)) && Apart(Older(bs))
  {
    ApartIsNoOverlap(bs);
  }

  // The blocks of the next round; none when there is nothing to do.
  method PlanHelper(dms: seq<Block>, ranges: seq<int>) returns (dirs: seq<Block>, a: nat, b: nat)
    requires RangesOk(ranges) && dms != [] && Proper(dms)
    ensures var bs := SortByMin(dms);
            && bs != [] && (dirs == [] <==> NothingPlanned(bs, ranges))
            && (dirs != [] ==> Planned(bs, ranges, a, b) && a <= b <= |bs| && dirs == bs[a..b])
  {
    var bs := SortByMin(dms);
    SortSorts(dms);
    SameBlocksProper(dms, bs);
    hide SortByMin, Sorted, Proper, Planned, NothingPlanned;
    dirs, a, b := PlanSorted(bs, ranges);
  }

  method PlanSorted(bs: seq<Block>, ranges: seq<int>) returns (dirs: seq<Block>, a: nat, b: nat)
    requires RangesOk(ranges) && bs != [] && Sorted(bs) && Proper(bs)
    ensures dirs == [] <==> NothingPlanned(bs, ranges)
    ensures dirs != [] ==> Planned(bs, ranges, a, b) && a <= b <= |bs| && dirs == bs[a..b]
  {
    hide Sorted, Proper, Apart, NoOverlap, NoneEligible, Chosen, LatestWorn, Cluster;
    dirs, a, b := OverlappingDirs(bs);
    if dirs != [] {
      ClusterSize(bs, a, b);
      return;
    }
    OlderKeeps(bs);
    var older := bs[..|bs| - 1];
    var x, y := SelectDirs(older, ranges);
    if x != y {
      ChosenIsEligible(older, ranges, x, y);
      return older[x..y], x, y;
    }
    var found, i := FindWorn(older, ranges);
    if found {
      WornInside(older, ranges, i);
      return [older[i]], i, i + 1;
    }
  }

  lemma ChosenIsEligible(bs: seq<Block>, ranges: seq<int>, a: nat, b: nat)
    requires RangesOk(ranges) && bs != [] && exists r: nat :: Chosen(bs, ranges, r, a, b)
    ensures !NoneEligible(bs, ranges) && a + 2 <= b <= |bs|
  {
    var r: nat :| Chosen(bs, ranges, r, a, b);
    assert Eligible(bs, ranges, r, a, b);
  }

  lemma WornInside(bs: seq<Block>, ranges: seq<int>, i: nat)
    requires ranges != [] && LatestWorn(bs, ranges, i)
    ensures i < |bs| && bs[i].tombstones > 0
  {
  }

  // Rounds ////////////////////////////////////////////////////////////////////////////////////

  // The block that replaces a group of blocks.
  ghost predicate MergeOf(parts: seq<Block>, m: Block)
  {
    && parts != [] && m.min == parts[0].min && Latest(parts, 0, |parts|, m.max)
    && m.tombstones == 0 && !m.failed
    && (forall i :: 0 <= i < |parts| ==> parts[i].level < m.level && parts[i].sources <= m.sources)
    && (exists i :: 0 <= i < |parts| && m.level == parts[i].level + 1)
    && (forall x :: x in m.sources ==> exists i :: 0 <= i < |parts| && x in parts[i].sources)
    && ListsParents(m.parents, parts)
  }

  // The parts, in their order.
  predicate ListsParents(parents: seq<Parent>, parts: seq<Block>)
  {
    |parents| == |parts| && forall i :: 0 <= i < |parts| ==> parents[i] == Parent(parts[i].id, parts[i].min, parts[i].max)
  }

  method CompactBlockMetas(id: nat, series: nat, parts: seq<Block>) returns (m: Block)
    requires parts != []
    ensures MergeOf(parts, m) && m.id == id
  {
    var max, level, sources := parts[0].max, parts[0].level, parts[0].sources;
    var parents := [Parent(parts[0].id, parts[0].min, parts[0].max)];
    var i := 1;
    while i < |parts|
      invariant 1 <= i <= |parts| && Latest(parts, 0, i, max)
      invariant forall k :: 0 <= k < i ==> parts[k].level <= level && parts[k].sources <= sources
      invariant exists k :: 0 <= k < i && level == parts[k].level
      invariant forall x :: x in sources ==> exists k :: 0 <= k < i && x in parts[k].sources
      invariant ListsParents(parents, parts[..i])
    {
      if parts[i].max > max {
        max := parts[i].max;
      }
      if parts[i].level > level {
        level := parts[i].level;
      }
      sources := sources + parts[i].sources;
      parents := parents + [Parent(parts[i].id, parts[i].min, parts[i].max)];
      i := i + 1;
    }
    assert parts[..i] == parts;
    m := Block(id, parts[0].min, max, level + 1, sources, parents, false, 0, series);
  }

  // The blocks after a round: the group gone, and in its place the merged block, unless it would
  // hold no samples.
  function Replaced(bs: seq<Block>, a: nat, b: nat, merged: seq<Block>): seq<Block>
    requires a <= b <= |bs|
  {
    bs[..a] + merged + bs[b..]
  }

  ghost predicate Round(bs: seq<Block>, ranges: seq<int>, bs': seq<Block>)
    requires RangesOk(ranges)
  {
    bs != [] && exists a: nat, b: nat, merged :: Replaces(bs, ranges, a, b, merged) && bs' == Replaced(bs, a, b, merged)
  }

  ghost predicate Replaces(bs: seq<Block>, ranges: seq<int>, a: nat, b: nat, merged: seq<Block>)
    requires RangesOk(ranges) && bs != []
  {
    && Planned(bs, ranges, a, b) && a < b <= |bs|
    && (merged == [] || (|merged| == 1 && MergeOf(bs[a..b], merged[0])))
  }

  // Nothing outside the group reaches into the time between its start and its latest end.
  lemma GroupAlone(bs: seq<Block>, ranges: seq<int>, a: nat, b: nat, i: nat, k: nat)
    requires RangesOk(ranges) && bs != [] && Sorted(bs) && Proper(bs) && Planned(bs, ranges, a, b)
    requires a < b <= |bs| && i < |bs| && a <= k < b && !(a <= i < b)
    ensures i < a ==> bs[i].max <= bs[a].min
    ensures i >= b ==> bs[k].max <= bs[i].min
  {
    if NoOverlap(bs) {
      ApartIsNoOverlap(bs);
    } else {
      assert !Overlap(bs[i], bs[a]) && !Overlap(bs[i], bs[k]);
    }
  }

  // The merged block covers its sources and overlaps no block that was left out.
  lemma MergedAlone(bs: seq<Block>, ranges: seq<int>, a: nat, b: nat, m: Block, i: nat)
    requires RangesOk(ranges) && bs != [] && Sorted(bs) && Proper(bs) && Planned(bs, ranges, a, b)
    requires a < b <= |bs| && MergeOf(bs[a..b], m) && i < |bs|
    ensures a <= i < b ==> m.min <= bs[i].min && bs[i].max <= m.max
    ensures i < a ==> bs[i].max <= m.min
    ensures i >= b ==> m.max <= bs[i].min
    ensures m.min < m.max
  {
    var parts := bs[a..b];
    var k :| 0 <= k < |parts| && parts[k].max == m.max;
    assert parts[k] == bs[a + k] && parts[0] == bs[a];
    assert bs[a].max <= m.max by { assert parts[0].max <= m.max; }
    if a <= i < b {
      assert parts[i - a] == bs[i];
    } else {
      hide Planned, MergeOf, Sorted, Proper;
      GroupAlone(bs, ranges, a, b, i, a + k);
    }
  }

  // The block put in, if any, lies between what is left before it and what is left behind it.
  predicate Between(bs: seq<Block>, a: nat, b: nat, merged: seq<Block>)
  {
    && a <= b <= |bs| && |merged| <= 1
    && (merged != [] ==>
          && merged[0].min < merged[0].max
          && (forall i :: 0 <= i < a ==> bs[i].max <= merged[0].min)
          && (forall i :: b <= i < |bs| ==> merged[0].max <= bs[i].min))
  }

  lemma PairOrdered(bs: seq<Block>, a: nat, b: nat, merged: seq<Block>, i: nat, j: nat)
    requires Sorted(bs) && Proper(bs) && Between(bs, a, b, merged) && i < j < |Replaced(bs, a, b, merged)|
    ensures var bs' := Replaced(bs, a, b, merged);
            bs'[i].min <= bs'[j].min && (Apart(bs) ==> bs'[i].max <= bs'[j].min)
  {
    var n := |merged|;
    var bs' := Replaced(bs, a, b, merged);
    var i', j' := if i < a then i else i - n - a + b, if j < a then j else j - n - a + b;
    assert !(a <= i < a + n) ==> bs'[i] == bs[i'];
    assert !(a <= j < a + n) ==> bs'[j] == bs[j'];
  }

  lemma RoundKeepsOrder(bs: seq<Block>, ranges: seq<int>, a: nat, b: nat, merged: seq<Block>)
    requires RangesOk(ranges) && bs != [] && Sorted(bs) && Proper(bs) && Replaces(bs, ranges, a, b, merged)
    ensures Sorted(Replaced(bs, a, b, merged)) && Proper(Replaced(bs, a, b, merged))
    ensures NoOverlap(bs) ==> NoOverlap(Replaced(bs, a, b, merged))
  {
    var bs' := Replaced(bs, a, b, merged);
    if merged != [] {
      hide Planned, MergeOf;
      forall i | 0 <= i < |bs|
        ensures (i < a ==> bs[i].max <= merged[0].min) && (i >= b ==> merged[0].max <= bs[i].min) && merged[0].min < merged[0].max
      {
        MergedAlone(bs, ranges, a, b, merged[0], i);
      }
    }
    ApartIsNoOverlap(bs);
    assert Between(bs, a, b, merged);
    hide Replaces, NoOverlap, Between;
    forall i, j | 0 <= i < j < |bs'| ensures bs'[i].min <= bs'[j].min && (Apart(bs) ==> bs'[i].max <= bs'[j].min) {
      PairOrdered(bs, a, b, merged, i, j);
    }
    ReplacedProper(bs, a, b, merged);
    ApartIsNoOverlap(bs');
  }

  lemma ReplacedProper(bs: seq<Block>, a: nat, b: nat, merged: seq<Block>)
    requires Proper(bs) && Between(bs, a, b, merged)
    ensures Proper(Replaced(bs, a, b, merged))
  {
  }

  // Blocks that carry tombstones.
  function Marked(bs: seq<Block>): nat
  {
    if bs == [] then 0 else Marked(bs[1..]) + if bs[0].tombstones > 0 then 1 else 0
  }

  lemma {:induction false} MarkedAdds(xs: seq<Block>, ys: seq<Block>)
    ensures Marked(xs + ys) == Marked(xs) + Marked(ys)
  {
    if xs == [] {
      assert xs + ys == ys;
    } else {
      assert (xs + ys)[1..] == xs[1..] + ys;
      MarkedAdds(xs[1..], ys);
    }
  }

  // A group of two or more shrinks the store; a single block loses its tombstones.
  lemma PlanShape(bs: seq<Block>, ranges: seq<int>, a: nat, b: nat)
    requires RangesOk(ranges) && bs != [] && Planned(bs, ranges, a, b)
    ensures a < b <= |bs| && (b - a >= 2 || bs[a].tombstones > 0)
  {
    var older := Older(bs);
    if NoOverlap(bs) {
      if older != [] && !NoneEligible(older, ranges) {
        ChosenIsEligible(older, ranges, a, b);
      } else {
        WornInside(older, ranges, a);
      }
    }
  }

  // Every round lowers the number of blocks plus the number of blocks with tombstones.
  lemma RoundShrinks(bs: seq<Block>, ranges: seq<int>, a: nat, b: nat, merged: seq<Block>)
    requires RangesOk(ranges) && bs != [] && Replaces(bs, ranges, a, b, merged)
    ensures var bs' := Replaced(bs, a, b, merged); |bs'| + Marked(bs') < |bs| + Marked(bs)
  {
    PlanShape(bs, ranges, a, b);
    hide Planned, MergeOf;
    assert bs == bs[..a] + bs[a..b] + bs[b..];
    MarkedAdds(bs[..a] + bs[a..b], bs[b..]);
    MarkedAdds(bs[..a], bs[a..b]);
    MarkedAdds(bs[..a] + merged, bs[b..]);
    MarkedAdds(bs[..a], merged);
    assert Marked(merged) == 0 by { MergedUnmarked(bs[a..b], merged); }
    assert b - a == 1 ==> bs[a..b] == [bs[a]];
  }

  lemma MergedUnmarked(parts: seq<Block>, merged: seq<Block>)
    requires merged == [] || (|merged| == 1 && MergeOf(parts, merged[0]))
    ensures Marked(merged) == 0
  {
    assert |merged| == 1 ==> merged[1..] == [];
  }

  ghost predicate Rounds(states: seq<seq<Block>>, ranges: seq<int>)
    requires RangesOk(ranges)
  {
    states != [] && forall i, j :: 0 <= i < j < |states| && j == i + 1 ==> Round(states[i], ranges, states[j])
  }

  // Rounds of planning and successful compaction come to an end: however they go, there are no
  // more of them than blocks plus blocks with tombstones. Along them blocks stay ordered, and
  // once no blocks overlap none ever do again.
  lemma {:induction false} RoundsEnd(states: seq<seq<Block>>, ranges: seq<int>)
    requires RangesOk(ranges) && Rounds(states, ranges) && Sorted(states[0]) && Proper(states[0])
    ensures var last := states[|states| - 1];
            && |states| - 1 + |last| + Marked(last) <= |states[0]| + Marked(states[0])
            && Sorted(last) && Proper(last)
            && (NoOverlap(states[0]) ==> NoOverlap(last))
    decreases |states|
  {
    var n := |states|;
    if n > 1 {
      var before := states[..n - 1];
      RoundsEnd(before, ranges);
      var bs, bs' := states[n - 2], states[n - 1];
      assert Round(bs, ranges, bs');
      var a: nat, b: nat, merged :| Replaces(bs, ranges, a, b, merged) && bs' == Replaced(bs, a, b, merged);
      hide Planned, MergeOf, Replaces, Marked, Sorted, Proper, NoOverlap;
      RoundShrinks(bs, ranges, a, b, merged);
      RoundKeepsOrder(bs, ranges, a, b, merged);
    }
  }

  lemma RoundIs(bs: seq<Block>, ranges: seq<int>, a: nat, b: nat, merged: seq<Block>)
    requires RangesOk(ranges) && bs != [] && Replaces(bs, ranges, a, b, merged)
    ensures Round(bs, ranges, Replaced(bs, a, b, merged))
  {
  }

  // One round: nothing to do, or the planned group replaced.
  method CompactOnce(bs: seq<Block>, ranges: seq<int>, id: nat, kept: bool, series: nat) returns (done: bool, bs': seq<Block>)
    requires RangesOk(ranges) && bs != [] && Sorted(bs) && Proper(bs)
    ensures done <==> NothingPlanned(bs, ranges)
    ensures !done ==> Round(bs, ranges, bs') && Sorted(bs') && Proper(bs') && |bs'| + Marked(bs') < |bs| + Marked(bs)
  {
    hide Sorted, Proper, Planned, NothingPlanned, MergeOf, Marked, Round, NoOverlap;
    var dirs, a, b := PlanSorted(bs, ranges);
    done, bs' := dirs == [], bs;
    if !done {
      PlanShape(bs, ranges, a, b);
      var m := CompactBlockMetas(id, series, dirs);
      var merged := if kept then [m] else [];
      RoundShrinks(bs, ranges, a, b, merged);
      RoundKeepsOrder(bs, ranges, a, b, merged);
      RoundIs(bs, ranges, a, b, merged);
      bs' := Replaced(bs, a, b, merged);
    }
  }

  // Planning and compacting until there is nothing left to do. Whether round k leaves samples,
  // and how many series, is up to the data.
  method CompactAll(dms: seq<Block>, ranges: seq<int>, kept: nat -> bool, series: nat -> nat) returns (bs: seq<Block>, ghost states: seq<seq<Block>>)
    requires RangesOk(ranges) && Proper(dms)
    ensures Rounds(states, ranges) && states[0] == SortByMin(dms) && states[|states| - 1] == bs
    ensures bs == [] || NothingPlanned(bs, ranges)
  {
    bs := SortByMin(dms);
    SortSorts(dms);
    SameBlocksProper(dms, bs);
    states := [bs];
    var k := 0;
    hide SortByMin, Sorted, Proper, NothingPlanned, Marked, Round;
    while bs != []
      invariant Sorted(bs) && Proper(bs) && Rounds(states, ranges)
      invariant states[0] == SortByMin(dms) && states[|states| - 1] == bs
      decreases |bs| + Marked(bs)
    {
      var done, bs' := CompactOnce(bs, ranges, k, kept(k), series(k));
      if done {
        return;
      }
      bs, k := bs', k + 1;
      states := states + [bs];
    }
  }
}
