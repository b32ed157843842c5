/** Reordering of one line (rules L1.4, L2 and L3 of section 3.4 of UAX #9), 3rd/fribidi/fribidi-bidi.c.

    The code reverses stretches of an array in place, once per level.  The specification
    says where each character ends up; the closed form says which of two characters
    comes first, without mentioning a reversal. */
module Reorder {
  import opened BidiTypes

  // ---------------------------------------------------------------- specification

  /** The levels of a line after its trailing white space was reset to the base level. */
  datatype Line = Line(types: seq<CharType>, levels: seq<int>, off: nat, end: nat, top: int) {
    ghost predicate Valid() {
      && off <= end <= |levels| && |levels| <= |types|
      && (forall x :: off <= x < end ==> 0 <= levels[x] <= top)
      && 0 <= top
    }

    predicate Has(v: int) { off <= v < end }
  }

  /** First index of the maximal stretch of levels >= k that holds i. */
  function StretchStart(line: Line, k: int, i: int): (s: int)
    requires line.Valid() && line.Has(i) && line.levels[i] >= k
    ensures line.off <= s <= i
    ensures forall x :: s <= x <= i ==> line.levels[x] >= k
    ensures s > line.off ==> line.levels[s - 1] < k
    decreases i
  {
    if i > line.off && line.levels[i - 1] >= k then StretchStart(line, k, i - 1) else i
  }

  /** Last index of that stretch. */
  function StretchEnd(line: Line, k: int, i: int): (e: int)
    requires line.Valid() && line.Has(i) && line.levels[i] >= k
    ensures i <= e < line.end
    ensures forall x :: i <= x <= e ==> line.levels[x] >= k
    ensures e + 1 < line.end ==> line.levels[e + 1] < k
    decreases line.end - i
  {
    if i + 1 < line.end && line.levels[i + 1] >= k then StretchEnd(line, k, i + 1) else i
  }

  /** Where the reversal of every stretch of levels >= k sends position v. */
  function Mirror(line: Line, k: int, v: int): int
    requires line.Valid()
  {
    if line.Has(v) && line.levels[v] >= k then StretchStart(line, k, v) + StretchEnd(line, k, v) - v else v
  }

  /** Position of logical index i once the levels top, top - 1, ..., k were reversed. */
  function Place(line: Line, k: int, i: int): int
    requires line.Valid()
    decreases line.top - k
  {
    if k > line.top then i else Mirror(line, k, Place(line, k + 1, i))
  }

  /** Logical index shown at position v once the levels top, ..., k were reversed. */
  function Source(line: Line, k: int, v: int): int
    requires line.Valid()
    decreases line.top - k
  {
    if k > line.top then v else Source(line, k + 1, Mirror(line, k, v))
  }

  /** L3: a right-to-left mark at e closes a cluster with its base and the marks between. */
  predicate ClosesCluster(line: Line, e: int)
    requires line.Valid() && line.Has(e)
  {
    LevelIsRtl(line.levels[e]) && line.types[e] == NSM
  }

  /** First index of the cluster that scanning down from i finds, given the level of its last mark. */
  function ClusterStart(line: Line, level: int, i: int): (s: int)
    requires line.Valid() && line.off - 1 <= i < line.end
    ensures line.off <= s <= i + 1
    ensures forall x :: s <= x <= i ==> line.levels[x] == level
    decreases i
  {
    if i < line.off || line.levels[i] != level then i + 1
    else if line.types[i].IsExplicitOrBnOrNsm() then ClusterStart(line, level, i - 1)
    else i
  }

  /** The cluster of v among those found scanning down from i; a position outside every cluster is its own. */
  function Cluster(line: Line, i: int, v: int): (c: (int, int))
    requires line.Valid() && line.off - 1 <= i < line.end
    ensures c.0 <= v <= c.1
    ensures c.0 < c.1 ==> line.off <= c.0 && c.1 <= i
    decreases i
  {
    if i < line.off then (v, v)
    else if ClosesCluster(line, i) then
      var s := ClusterStart(line, line.levels[i], i - 1);
      if s <= v <= i then (s, i) else Cluster(line, s - 1, v)
    else Cluster(line, i - 1, v)
  }

  /** Where L3 sends position v. */
  function NsmMirror(line: Line, v: int): int
    requires line.Valid()
  {
    var c := Cluster(line, line.end - 1, v);
    c.0 + c.1 - v
  }

  /** Logical index shown at position v of the line. */
  function VisualSource(line: Line, reorderNsm: bool, v: int): int
    requires line.Valid()
  {
    var x := Source(line, 1, v);
    if reorderNsm then NsmMirror(line, x) else x
  }

  /** Position at which logical index i is shown. */
  function VisualPlace(line: Line, reorderNsm: bool, i: int): int
    requires line.Valid()
  {
    Place(line, 1, if reorderNsm then NsmMirror(line, i) else i)
  }

  /** Lowest embedding level over [i..j]. */
  function MinLevel(line: Line, i: int, j: int): int
    requires line.Valid() && line.off <= i <= j < line.end
    decreases j - i
  {
    if i == j then line.levels[i]
    else
      var rest := MinLevel(line, i + 1, j);
      if line.levels[i] < rest then line.levels[i] else rest
  }

  // ---------------------------------------------------------------- proofs

  /** i and p are the same position or lie in one stretch of levels >= k. */
  ghost predicate Linked(line: Line, k: int, i: int, p: int)
    requires line.Valid()
  {
    i == p || (line.Has(i) && line.Has(p) && forall x :: (i <= x <= p || p <= x <= i) ==> line.levels[x] >= k)
  }

  lemma MirrorLinked(line: Line, k: int, v: int)
    requires line.Valid()
    ensures Linked(line, k, v, Mirror(line, k, v))
    ensures line.Has(v) ==> line.Has(Mirror(line, k, v))
  {
  }

  /** Two positions of one stretch share its ends. */
  lemma SameStretch(line: Line, k: int, p: int, q: int)
    requires line.Valid() && line.Has(p) && line.Has(q) && Linked(line, k, p, q) && line.levels[p] >= k
    ensures line.levels[q] >= k
    ensures StretchStart(line, k, p) == StretchStart(line, k, q)
    ensures StretchEnd(line, k, p) == StretchEnd(line, k, q)
  {
  }

  lemma MirrorInvolutive(line: Line, k: int, v: int)
    requires line.Valid()
    ensures Mirror(line, k, Mirror(line, k, v)) == v
  {
    MirrorLinked(line, k, v);
    if line.Has(v) && line.levels[v] >= k {
      SameStretch(line, k, v, Mirror(line, k, v));
    }
  }

  lemma {:induction false} PlaceLinked(line: Line, k: int, i: int)
    requires line.Valid()
    ensures Linked(line, k, i, Place(line, k, i))
    ensures line.Has(i) <==> line.Has(Place(line, k, i))
    decreases line.top - k
  {
    if k <= line.top {
      PlaceLinked(line, k + 1, i);
      MirrorLinked(line, k, Place(line, k + 1, i));
    }
  }

  /** Reading and placing are inverse to each other. */
  lemma {:induction false} SourceOfPlace(line: Line, k: int, i: int)
    requires line.Valid()
    ensures Source(line, k, Place(line, k, i)) == i
    ensures Place(line, k, Source(line, k, i)) == i
    decreases line.top - k
  {
    hide Mirror;
    if k <= line.top {
      MirrorInvolutive(line, k, Place(line, k + 1, i));
      SourceOfPlace(line, k + 1, i);
      MirrorInvolutive(line, k, i);
      SourceOfPlace(line, k + 1, Mirror(line, k, i));
    }
  }

  /** MinLevel is a lower bound and is reached at x. */
  lemma {:induction false} MinLevelReached(line: Line, i: int, j: int) returns (x: int)
    requires line.Valid() && line.off <= i <= j < line.end
    ensures i <= x <= j && line.levels[x] == MinLevel(line, i, j)
    ensures forall y :: i <= y <= j ==> line.levels[x] <= line.levels[y]
    decreases j - i
  {
    x := i;
    if i < j {
      var r := MinLevelReached(line, i + 1, j);
      if line.levels[r] <= line.levels[i] { x := r; }
    }
  }

  lemma MirrorSwaps(line: Line, k: int, p: int, q: int)
    requires line.Valid() && line.Has(p) && line.Has(q) && Linked(line, k, p, q) && line.levels[p] >= k
    ensures Mirror(line, k, p) < Mirror(line, k, q) <==> q < p
    ensures p != q ==> Mirror(line, k, p) != Mirror(line, k, q)
  {
    SameStretch(line, k, p, q);
  }

  /** No stretch of levels >= k crosses a position whose level is lower. */
  lemma MirrorStaysOnSide(line: Line, k: int, p: int, x: int)
    requires line.Valid() && line.Has(p) && line.Has(x) && line.levels[x] < k
    ensures p < x ==> Mirror(line, k, p) < x
    ensures p > x ==> Mirror(line, k, p) > x
    ensures p == x ==> Mirror(line, k, p) == x
  {
    MirrorLinked(line, k, p);
  }

  /** The reversals of levels k and above turn a stretch of level m an even number of times. */
  predicate EvenlyReversed(m: int, k: int) {
    m < k || (m - k) % 2 == 1
  }

  lemma OneMoreReversal(m: int, k: int)
    ensures m >= k ==> (EvenlyReversed(m, k) <==> !EvenlyReversed(m, k + 1))
    ensures m < k ==> EvenlyReversed(m, k) && EvenlyReversed(m, k + 1)
  {
  }

  lemma AllReversals(m: int)
    requires m >= 0
    ensures EvenlyReversed(m, 1) <==> m % 2 == 0
    ensures EvenlyReversed(m, 1) <==> !LevelIsRtl(m)
  {
  }

  /** Each reversal from the lowest level of [i..j] up swaps the order of i and j; no other one does. */
  lemma {:induction false} OrderAfterPasses(line: Line, k: int, i: int, j: int)
    requires line.Valid() && line.off <= i < j < line.end
    ensures Place(line, k, i) != Place(line, k, j)
    ensures Place(line, k, i) < Place(line, k, j) <==> EvenlyReversed(MinLevel(line, i, j), k)
    decreases line.top - k
  {
    hide EvenlyReversed, Mirror, MinLevel;
    var x := MinLevelReached(line, i, j);
    OneMoreReversal(line.levels[x], k);
    if k <= line.top {
      OrderAfterPasses(line, k + 1, i, j);
      PassAcross(line, k, i, j, x);
    }
  }

  /** One more reversal: i and j sit in one stretch, or x keeps them apart. */
  lemma PassAcross(line: Line, k: int, i: int, j: int, x: int)
    requires line.Valid() && line.off <= i < j < line.end && k <= line.top && i <= x <= j
    requires forall y :: i <= y <= j ==> line.levels[x] <= line.levels[y]
    requires Place(line, k + 1, i) != Place(line, k + 1, j)
    requires line.levels[x] < k ==> Place(line, k + 1, i) < Place(line, k + 1, j)
    ensures Place(line, k, i) != Place(line, k, j)
    ensures Place(line, k, i) < Place(line, k, j) <==>
            (line.levels[x] < k || Place(line, k + 1, j) < Place(line, k + 1, i))
  {
    PlaceLinked(line, k + 1, i);
    PlaceLinked(line, k + 1, j);
    var p, q := Place(line, k + 1, i), Place(line, k + 1, j);
    if line.levels[x] >= k {
      MirrorSwaps(line, k, p, q);
    } else {
      MirrorStaysOnSide(line, k, p, x);
      MirrorStaysOnSide(line, k, q, x);
    }
  }

  /** All levels of a cluster are equal and odd. */
  lemma {:induction false} ClusterLevels(line: Line, i: int, v: int)
    requires line.Valid() && line.off - 1 <= i < line.end
    ensures var c := Cluster(line, i, v);
            c.0 < c.1 ==> LevelIsRtl(line.levels[c.1])
                          && forall x :: c.0 <= x <= c.1 ==> line.levels[x] == line.levels[c.1]
    decreases i
  {
    hide ClusterStart;
    if i >= line.off {
      if ClosesCluster(line, i) {
        ClusterLevels(line, ClusterStart(line, line.levels[i], i - 1) - 1, v);
      } else {
        ClusterLevels(line, i - 1, v);
      }
    }
  }

  /** Every position of a cluster has that same cluster. */
  lemma {:induction false} ClusterShared(line: Line, i: int, v: int, w: int)
    requires line.Valid() && line.off - 1 <= i < line.end
    requires Cluster(line, i, v).0 <= w <= Cluster(line, i, v).1
    ensures Cluster(line, i, w) == Cluster(line, i, v)
    decreases i
  {
    hide ClusterStart;
    if i >= line.off {
      if ClosesCluster(line, i) {
        var s := ClusterStart(line, line.levels[i], i - 1);
        if !(s <= v <= i) { ClusterShared(line, s - 1, v, w); }
      } else {
        ClusterShared(line, i - 1, v, w);
      }
    }
  }

  lemma NsmMirrorInvolutive(line: Line, v: int)
    requires line.Valid()
    ensures NsmMirror(line, NsmMirror(line, v)) == v
    ensures line.Has(v) <==> line.Has(NsmMirror(line, v))
  {
    ClusterShared(line, line.end - 1, v, NsmMirror(line, v));
  }

  /** The map of a line is a permutation: place and source are inverse bijections, and neither moves
      a position outside the line. */
  lemma ReorderIsPermutation(line: Line, nsm: bool, i: int)
    requires line.Valid()
    ensures VisualSource(line, nsm, VisualPlace(line, nsm, i)) == i
    ensures VisualPlace(line, nsm, VisualSource(line, nsm, i)) == i
    ensures line.Has(i) <==> line.Has(VisualPlace(line, nsm, i))
    ensures line.Has(i) <==> line.Has(VisualSource(line, nsm, i))
    ensures !line.Has(i) ==> VisualPlace(line, nsm, i) == i == VisualSource(line, nsm, i)
  {
    var x := if nsm then NsmMirror(line, i) else i;
    NsmMirrorInvolutive(line, i);
    SourceOfPlace(line, 1, x);
    SourceOfPlace(line, 1, i);
    PlaceLinked(line, 1, x);
    NsmMirrorInvolutive(line, Source(line, 1, i));
    PlaceLinked(line, 1, Source(line, 1, i));
  }

  lemma ClustersApart(line: Line, i: int, j: int)
    requires line.Valid() && line.off <= i < j < line.end
    requires Cluster(line, line.end - 1, i) != Cluster(line, line.end - 1, j)
    ensures Cluster(line, line.end - 1, i).1 < Cluster(line, line.end - 1, j).0
  {
    var top := line.end - 1;
    var c, d := Cluster(line, top, i), Cluster(line, top, j);
    if d.0 <= c.1 {
      var w := Max(c.0, d.0);
      ClusterShared(line, top, i, w);
      ClusterShared(line, top, j, w);
    }
  }

  /** Moving the ends of an interval inside their clusters keeps its lowest level. */
  lemma MinLevelInClusters(line: Line, i: int, j: int)
    requires line.Valid() && line.off <= i < j < line.end
    requires Cluster(line, line.end - 1, i) != Cluster(line, line.end - 1, j)
    ensures line.off <= NsmMirror(line, i) < NsmMirror(line, j) < line.end
    ensures MinLevel(line, NsmMirror(line, i), NsmMirror(line, j)) == MinLevel(line, i, j)
  {
    hide MinLevel, Cluster;
    ClustersApart(line, i, j);
    ClusterLevels(line, line.end - 1, i);
    ClusterLevels(line, line.end - 1, j);
    var i', j' := NsmMirror(line, i), NsmMirror(line, j);
    var x := MinLevelReached(line, i, j);
    var y := MinLevelReached(line, i', j');
    assert line.levels[i'] == line.levels[i] && line.levels[j'] == line.levels[j];
    assert line.levels[y] <= line.levels[x] by { if x < i' {} else if x > j' {} }
    assert line.levels[x] <= line.levels[y] by { if y < i {} else if y > j {} }
  }

  /** Types that L3 carries along with a base: marks, explicit codes and boundary neutrals. */
  predicate IsCarried(t: CharType) { t in {NSM, LRE, RLE, LRO, RLO, PDF, BN} }

  /** From i on everything up to the right-to-left mark e is of its level and, i aside, of such a type. */
  ghost predicate CarriedTo(line: Line, i: int, e: int)
    requires line.Valid()
  {
    && line.Has(i) && i <= e < line.end && line.types[e] == NSM && line.levels[e] % 2 == 1
    && (forall x :: i <= x <= e ==> line.levels[x] == line.levels[e])
    && (forall x :: i < x <= e ==> IsCarried(line.types[x]))
  }

  /** L3 turns i and j around together. */
  ghost predicate OneCluster(line: Line, i: int, j: int)
    requires line.Valid()
  {
    exists e :: j <= e && CarriedTo(line, i, e)
  }

  /** A scan down from where everything is carried goes as far as that reaches. */
  lemma {:induction false} StartReaches(line: Line, level: int, i: int, x: int)
    requires line.Valid() && line.Has(i) && i <= x < line.end
    requires forall y :: i <= y <= x ==> line.levels[y] == level
    requires forall y :: i < y <= x ==> IsCarried(line.types[y])
    ensures ClusterStart(line, level, x) <= i
    decreases x
  {
    if i < x { StartReaches(line, level, i, x - 1); }
  }

  /** What ClusterStart goes past. */
  lemma {:induction false} StartCarries(line: Line, level: int, i: int)
    requires line.Valid() && line.off - 1 <= i < line.end
    ensures forall x :: ClusterStart(line, level, i) < x <= i ==> IsCarried(line.types[x])
    decreases i
  {
    if i >= line.off && line.levels[i] == level && line.types[i].IsExplicitOrBnOrNsm() { StartCarries(line, level, i - 1); }
  }

  /** Two characters of one cluster are carried to its last mark. */
  lemma {:induction false} ClusterCarries(line: Line, top: int, i: int, j: int)
    requires line.Valid() && line.off - 1 <= top < line.end && line.off <= i < j <= top
    requires Cluster(line, top, i) == Cluster(line, top, j)
    ensures OneCluster(line, i, j)
    decreases top
  {
    if ClosesCluster(line, top) {
      var s := ClusterStart(line, line.levels[top], top - 1);
      StartCarries(line, line.levels[top], top - 1);
      if s <= i {
        assert CarriedTo(line, i, top);
      } else if j <= s - 1 {
        ClusterCarries(line, s - 1, i, j);
      }
    } else if j < top {
      ClusterCarries(line, top - 1, i, j);
    }
  }

  /** Where one is carried behind the other, they are of one cluster. */
  lemma {:induction false} CarriedClusters(line: Line, top: int, i: int, e: int, j: int)
    requires line.Valid() && line.off - 1 <= top < line.end && i < j <= e <= top && CarriedTo(line, i, e)
    ensures Cluster(line, top, i) == Cluster(line, top, j)
    decreases top
  {
    if ClosesCluster(line, top) {
      var s := ClusterStart(line, line.levels[top], top - 1);
      if s <= e {
        if e == top { StartReaches(line, line.levels[top], i, top - 1); } else { StartWithin(line, line.levels[top], top - 1, i, e); }
      } else {
        CarriedClusters(line, s - 1, i, e, j);
      }
    } else {
      CarriedClusters(line, top - 1, i, e, j);
    }
  }

  lemma {:induction false} StartWithin(line: Line, level: int, x: int, i: int, e: int)
    requires line.Valid() && e <= x < line.end && i < e && CarriedTo(line, i, e) && ClusterStart(line, level, x) <= e
    ensures ClusterStart(line, level, x) <= i
    decreases x
  {
    assert line.levels[e] == level;
    if x == e { StartReaches(line, level, i, e); } else { StartWithin(line, level, x - 1, i, e); }
  }

  /** The clusters of the scan are what L3 speaks of: a right-to-left mark, all that it is carried over, and the base. */
  lemma ClustersAre(line: Line, i: int, j: int)
    requires line.Valid() && line.off <= i < j < line.end
    ensures Cluster(line, line.end - 1, i) == Cluster(line, line.end - 1, j) <==> OneCluster(line, i, j)
  {
    if Cluster(line, line.end - 1, i) == Cluster(line, line.end - 1, j) { ClusterCarries(line, line.end - 1, i, j); }
    if OneCluster(line, i, j) {
      var e :| j <= e && CarriedTo(line, i, e);
      CarriedClusters(line, line.end - 1, i, e, j);
    }
  }

  /** L3 alone: of two characters the first comes behind the other if and only if they are of one cluster. */
  lemma MarksOrder(line: Line, i: int, j: int)
    requires line.Valid() && line.off <= i < j < line.end
    ensures NsmMirror(line, j) < NsmMirror(line, i) <==> OneCluster(line, i, j)
    ensures NsmMirror(line, i) != NsmMirror(line, j)
  {
    ClustersAre(line, i, j);
    hide Cluster, OneCluster;
    if Cluster(line, line.end - 1, i) != Cluster(line, line.end - 1, j) { MinLevelInClusters(line, i, j); }
  }

  /** On a line without right-to-left marks L3 changes nothing. */
  lemma NoMarksNoChange(line: Line, v: int)
    requires line.Valid() && forall e :: line.Has(e) && line.levels[e] % 2 == 1 ==> line.types[e] != NSM
    ensures VisualSource(line, true, v) == VisualSource(line, false, v)
  {
    var x := Source(line, 1, v);
    var c := Cluster(line, line.end - 1, x);
    ClusterShared(line, line.end - 1, x, c.0);
    ClusterShared(line, line.end - 1, x, c.1);
    if c.0 < c.1 { ClustersAre(line, c.0, c.1); }
    hide Cluster, Source;
  }

  lemma OrderInCluster(line: Line, i: int, j: int)
    requires line.Valid() && line.off <= i < j < line.end
    requires Cluster(line, line.end - 1, i) == Cluster(line, line.end - 1, j)
    ensures VisualPlace(line, true, i) < VisualPlace(line, true, j)
  {
    var i', j' := NsmMirror(line, i), NsmMirror(line, j);
    ClusterLevels(line, line.end - 1, i);
    var x := MinLevelReached(line, j', i');
    OrderAfterPasses(line, 1, j', i');
    AllReversals(line.levels[x]);
  }

  /** L2 and L3 in closed form.  Two characters of a line keep their order exactly when they belong to
      one right-to-left cluster of a base and its marks, or the lowest level between them is even.  With
      ReorderIsPermutation that says where each character is shown. */
  lemma ReorderClosedForm(line: Line, nsm: bool, i: int, j: int)
    requires line.Valid() && line.off <= i < j < line.end
    ensures VisualPlace(line, nsm, i) < VisualPlace(line, nsm, j) <==>
            (nsm && OneCluster(line, i, j)) || MinLevel(line, i, j) % 2 == 0
  {
    ClustersAre(line, i, j);
    hide OneCluster;
    if !nsm {
      OrderAfterPasses(line, 1, i, j);
    } else if Cluster(line, line.end - 1, i) == Cluster(line, line.end - 1, j) {
      OrderInCluster(line, i, j);
    } else {
      MinLevelInClusters(line, i, j);
      OrderAfterPasses(line, 1, NsmMirror(line, i), NsmMirror(line, j));
    }
    var x := MinLevelReached(line, i, j);
    AllReversals(line.levels[x]);
  }

  // ---------------------------------------------------------------- the code

  /** s with its part [lo..lo + n) reversed. */
  function Flip<T>(s: seq<T>, lo: nat, n: nat): (r: seq<T>)
    requires lo + n <= |s|
    ensures |r| == |s|
  {
    seq(|s|, v requires 0 <= v < |s| => if lo <= v < lo + n then s[lo + lo + n - 1 - v] else s[v])
  }

  /** bidi_string_reverse and index_array_reverse, which differ in the element type only. */
  method ReverseRange<T>(a: array<T>, lo: nat, n: nat)
    requires lo + n <= a.Length
    modifies a
    ensures a[..] == Flip(old(a[..]), lo, n)
  {
    var i := 0;
    while i < n / 2
      invariant 0 <= i <= n / 2
      invariant forall v :: lo <= v < lo + i || lo + n - i <= v < lo + n ==> a[v] == old(a[lo + lo + n - 1 - v])
      invariant forall v :: 0 <= v < a.Length && !(lo <= v < lo + i || lo + n - i <= v < lo + n) ==> a[v] == old(a[v])
    {
      var tmp := a[lo + i];
      a[lo + i] := a[lo + n - 1 - i];
      a[lo + n - 1 - i] := tmp;
      i := i + 1;
    }
  }

  /** Both output arrays, either of which the caller may leave out. */
  method ReverseBoth(visual: array?<char>, indexMap: array?<int>, lo: nat, n: nat)
    requires visual != null ==> lo + n <= visual.Length
    requires indexMap != null ==> lo + n <= indexMap.Length
    modifies visual, indexMap
    ensures visual != null ==> visual[..] == Flip(old(visual[..]), lo, n)
    ensures indexMap != null ==> indexMap[..] == Flip(old(indexMap[..]), lo, n)
  {
    if visual != null { ReverseRange(visual, lo, n); }
    if indexMap != null { ReverseRange(indexMap, lo, n); }
  }

  /** Levels after L1.4: the white space, explicit codes and boundary neutrals at the end of the line
      are at the base level. */
  function ResetTrailing(types: seq<CharType>, levels: seq<int>, off: nat, end: nat, base: int): (r: seq<int>)
    requires off <= end <= |levels| && end <= |types|
    ensures |r| == |levels|
    decreases end
  {
    if off < end && types[end - 1].IsExplicitOrBnOrWs() then ResetTrailing(types, levels[end - 1 := base], off, end - 1, base)
    else levels
  }

  /** L1.4 declaratively: exactly the characters with nothing else after them on the line are reset. */
  lemma {:induction false} ResetTrailingExact(types: seq<CharType>, levels: seq<int>, off: nat, end: nat, base: int, i: nat)
    requires off <= end <= |levels| && end <= |types| && i < |levels|
    ensures ResetTrailing(types, levels, off, end, base)[i]
            == (if off <= i < end && (forall x :: i <= x < end ==> types[x] in {WS, LRE, RLE, LRO, RLO, PDF, BN}) then base
                else levels[i])
    decreases end
  {
    if off < end && types[end - 1].IsExplicitOrBnOrWs() {
      ResetTrailingExact(types, levels[end - 1 := base], off, end - 1, base, i);
    } else if off <= i < end {
      assert !types[end - 1].IsExplicitOrBnOrWs();
    }
  }

  /** The reversals of one scan of the line: those of L3, or those of one level in L2. */
  datatype Stage = Marks | Level(k: int)

  function StageMirror(line: Line, stage: Stage, v: int): int
    requires line.Valid()
  {
    match stage
    case Marks => NsmMirror(line, v)
    case Level(k) => Mirror(line, k, v)
  }

  /** Position whose old content v shows once the scan of a stage came down to i. */
  function SweepSource(line: Line, stage: Stage, i: int, v: int): int
    requires line.Valid()
  {
    if v <= i then v else StageMirror(line, stage, v)
  }

  ghost predicate Swept<T>(line: Line, stage: Stage, i: int, now: seq<T>, before: seq<T>)
    requires line.Valid()
  {
    && |now| == |before|
    && forall v :: 0 <= v < |now| ==>
         0 <= SweepSource(line, stage, i, v) < |before| && now[v] == before[SweepSource(line, stage, i, v)]
  }

  ghost predicate BothSwept(line: Line, stage: Stage, i: int, visual: array?<char>, indexMap: array?<int>,
                            visual0: seq<char>, map0: seq<int>)
    requires line.Valid()
    reads visual, indexMap
  {
    && (visual != null ==> Swept(line, stage, i, visual[..], visual0))
    && (indexMap != null ==> Swept(line, stage, i, indexMap[..], map0))
  }

  lemma SweepEnds<T>(line: Line, stage: Stage, i: int, now: seq<T>, before: seq<T>)
    requires line.Valid() && line.end <= |now|
    ensures Swept(line, stage, line.end - 1, now, now)
    ensures i < line.off && Swept(line, stage, i, now, before) ==> Swept(line, stage, -1, now, before)
  {
    forall v | v < line.off || line.end <= v
      ensures StageMirror(line, stage, v) == v
    {
    }
    if i < line.off {
      forall v | 0 <= v
        ensures SweepSource(line, stage, i, v) == SweepSource(line, stage, -1, v)
      {
      }
    }
  }

  /** A position that the stage keeps. */
  lemma SweepPast<T>(line: Line, stage: Stage, i: int, now: seq<T>, before: seq<T>)
    requires line.Valid() && Swept(line, stage, i, now, before)
    requires StageMirror(line, stage, i) == i
    ensures Swept(line, stage, i - 1, now, before)
  {
    var j := i - 1;
    forall v | 0 <= v < |now|
      ensures 0 <= SweepSource(line, stage, j, v) < |before| && now[v] == before[SweepSource(line, stage, j, v)]
    {
      assert SweepSource(line, stage, j, v) == SweepSource(line, stage, i, v);
    }
  }

  /** Reversing [lo..hi], as the stage demands, extends the sweep below lo. */
  lemma SweepRange<T>(line: Line, stage: Stage, lo: int, hi: int, now: seq<T>, mid: seq<T>, before: seq<T>)
    requires line.Valid() && 0 <= lo <= hi < |before|
    requires Swept(line, stage, hi, mid, before)
    requires forall v :: lo <= v <= hi ==> StageMirror(line, stage, v) == lo + hi - v
    requires now == Flip(mid, lo, hi - lo + 1)
    ensures Swept(line, stage, lo - 1, now, before)
  {
    hide StageMirror;
    var j := lo - 1;
    forall v | 0 <= v < |now|
      ensures 0 <= SweepSource(line, stage, j, v) < |before| && now[v] == before[SweepSource(line, stage, j, v)]
    {
      assert 0 <= SweepSource(line, stage, hi, v) < |before|;
      if lo <= v <= hi {
        assert SweepSource(line, stage, hi, lo + hi - v) == lo + hi - v;
      }
    }
  }

  lemma SweepBoth(line: Line, stage: Stage, lo: int, hi: int, visual: array?<char>, indexMap: array?<int>,
                  midVisual: seq<char>, midMap: seq<int>, visual0: seq<char>, map0: seq<int>)
    requires line.Valid() && 0 <= lo <= hi < |visual0| && hi < |map0|
    requires visual != null ==> Swept(line, stage, hi, midVisual, visual0) && visual[..] == Flip(midVisual, lo, hi - lo + 1)
    requires indexMap != null ==> Swept(line, stage, hi, midMap, map0) && indexMap[..] == Flip(midMap, lo, hi - lo + 1)
    requires forall v :: lo <= v <= hi ==> StageMirror(line, stage, v) == lo + hi - v
    ensures BothSwept(line, stage, lo - 1, visual, indexMap, visual0, map0)
  {
    hide StageMirror, Swept, Flip;
    if visual != null { SweepRange(line, stage, lo, hi, visual[..], midVisual, visual0); }
    if indexMap != null { SweepRange(line, stage, lo, hi, indexMap[..], midMap, map0); }
  }

  lemma PastBoth(line: Line, stage: Stage, i: int, visual: array?<char>, indexMap: array?<int>,
                 visual0: seq<char>, map0: seq<int>)
    requires line.Valid() && BothSwept(line, stage, i, visual, indexMap, visual0, map0)
    requires StageMirror(line, stage, i) == i
    ensures BothSwept(line, stage, i - 1, visual, indexMap, visual0, map0)
  {
    hide StageMirror, Swept;
    if visual != null { SweepPast(line, stage, i, visual[..], visual0); }
    if indexMap != null { SweepPast(line, stage, i, indexMap[..], map0); }
  }

  lemma EndBoth(line: Line, stage: Stage, i: int, visual: array?<char>, indexMap: array?<int>,
                visual0: seq<char>, map0: seq<int>)
    requires line.Valid() && i < line.off && BothSwept(line, stage, i, visual, indexMap, visual0, map0)
    requires line.end <= |visual0| && line.end <= |map0|
    ensures BothSwept(line, stage, -1, visual, indexMap, visual0, map0)
  {
    if visual != null { SweepEnds(line, stage, i, visual[..], visual0); }
    if indexMap != null { SweepEnds(line, stage, i, indexMap[..], map0); }
  }

  /** A maximal stretch of levels >= k is what the level reverses; a lower position it keeps. */
  lemma StretchMirror(line: Line, k: int, lo: int, hi: int)
    requires line.Valid() && line.off <= lo <= hi < line.end
    requires forall x :: lo <= x <= hi ==> line.levels[x] >= k
    requires lo > line.off ==> line.levels[lo - 1] < k
    requires hi + 1 < line.end ==> line.levels[hi + 1] < k
    ensures forall v :: lo <= v <= hi ==> StageMirror(line, Level(k), v) == lo + hi - v
  {
    forall v | lo <= v <= hi
      ensures StageMirror(line, Level(k), v) == lo + hi - v
    {
      assert line.levels[v] >= k;
      assert StretchStart(line, k, v) == lo && StretchEnd(line, k, v) == hi;
    }
  }

  /** One turn of the L2 loop: every stretch of levels >= k is reversed, from the right. */
  method ReverseStretches(line: Line, k: int, visual: array?<char>, indexMap: array?<int>,
                          ghost visual0: seq<char>, ghost map0: seq<int>)
    requires line.Valid() && line.end <= |visual0| && line.end <= |map0|
    requires visual != null ==> visual[..] == visual0
    requires indexMap != null ==> indexMap[..] == map0
    modifies visual, indexMap
    ensures BothSwept(line, Level(k), -1, visual, indexMap, visual0, map0)
  {
    hide Swept, Flip, StageMirror;
    ghost var stage := Level(k);
    var i: int := line.end - 1;
    SweepEnds(line, stage, i, visual0, visual0);
    SweepEnds(line, stage, i, map0, map0);
    while i >= line.off
      invariant line.off - 2 <= i < line.end
      invariant BothSwept(line, stage, i, visual, indexMap, visual0, map0)
      invariant line.off <= i + 1 < line.end ==> line.levels[i + 1] < k
    {
      if line.levels[i] >= k {
        var seqEnd := i;
        i := i - 1;
        while i >= line.off && line.levels[i] >= k
          invariant line.off - 1 <= i < seqEnd
          invariant forall x :: i < x <= seqEnd ==> line.levels[x] >= k
          decreases i
        {
          i := i - 1;
        }
        ghost var midVisual := if visual == null then [] else visual[..];
        ghost var midMap := if indexMap == null then [] else indexMap[..];
        ReverseBoth(visual, indexMap, i + 1, seqEnd - i);
        StretchMirror(line, k, i + 1, seqEnd);
        SweepBoth(line, stage, i + 1, seqEnd, visual, indexMap, midVisual, midMap, visual0, map0);
      }
      KeptByLevel(line, k, i);
      PastBoth(line, stage, i, visual, indexMap, visual0, map0);
      i := i - 1;
    }
    EndBoth(line, stage, i, visual, indexMap, visual0, map0);
  }

  lemma KeptByLevel(line: Line, k: int, i: int)
    requires line.Valid() && (line.Has(i) ==> line.levels[i] < k)
    ensures StageMirror(line, Level(k), i) == i
  {
  }

  /** The scan of L3 stands at i: below it the clusters are those found from i. */
  ghost predicate ScanAt(line: Line, i: int)
    requires line.Valid() && line.off - 1 <= i < line.end
  {
    forall v :: v <= i ==> Cluster(line, line.end - 1, v) == Cluster(line, i, v)
  }

  lemma ScanPast(line: Line, i: int)
    requires line.Valid() && line.Has(i) && ScanAt(line, i) && !ClosesCluster(line, i)
    ensures ScanAt(line, i - 1)
    ensures StageMirror(line, Marks, i) == i
  {
    var j := i - 1;
    forall v | v <= j
      ensures Cluster(line, line.end - 1, v) == Cluster(line, j, v)
    {
      assert Cluster(line, i, v) == Cluster(line, j, v);
    }
    assert Cluster(line, i, i) == Cluster(line, j, i);
  }

  lemma ScanCluster(line: Line, i: int, s: int)
    requires line.Valid() && line.Has(i) && ScanAt(line, i) && ClosesCluster(line, i)
    requires s == ClusterStart(line, line.levels[i], i - 1)
    ensures ScanAt(line, s - 1)
    ensures forall v :: s <= v <= i ==> StageMirror(line, Marks, v) == s + i - v
  {
    var j := s - 1;
    assert forall v :: v <= i ==> Cluster(line, line.end - 1, v) == Cluster(line, i, v);
    hide Cluster, ClusterStart;
    forall v | s <= v <= i
      ensures StageMirror(line, Marks, v) == s + i - v
    {
      ClusterClosed(line, i, s, v);
    }
    forall v | v <= j
      ensures Cluster(line, line.end - 1, v) == Cluster(line, j, v)
    {
      ClusterClosed(line, i, s, v);
    }
  }

  lemma ClusterClosed(line: Line, i: int, s: int, v: int)
    requires line.Valid() && line.Has(i) && ClosesCluster(line, i) && s == ClusterStart(line, line.levels[i], i - 1)
    ensures Cluster(line, i, v) == if s <= v <= i then (s, i) else Cluster(line, s - 1, v)
  {
    hide ClusterStart;
  }

  /** L3: each base of a right-to-left run is moved behind its marks. */
  method ReorderMarks(line: Line, visual: array?<char>, indexMap: array?<int>,
                      ghost visual0: seq<char>, ghost map0: seq<int>)
    requires line.Valid() && line.end <= |visual0| && line.end <= |map0|
    requires visual != null ==> visual[..] == visual0
    requires indexMap != null ==> indexMap[..] == map0
    modifies visual, indexMap
    ensures BothSwept(line, Marks, -1, visual, indexMap, visual0, map0)
  {
    hide Swept, Flip, StageMirror, ScanAt;
    var i: int := line.end - 1;
    SweepEnds(line, Marks, i, visual0, visual0);
    SweepEnds(line, Marks, i, map0, map0);
    ScanStarts(line);
    while i >= line.off
      invariant line.off - 1 <= i < line.end
      invariant BothSwept(line, Marks, i, visual, indexMap, visual0, map0)
      invariant ScanAt(line, i)
    {
      if LevelIsRtl(line.levels[i]) && line.types[i] == NSM {
        var seqEnd := i;
        var level := line.levels[i];
        i := i - 1;
        while i >= line.off && line.types[i].IsExplicitOrBnOrNsm() && line.levels[i] == level
          invariant line.off - 1 <= i < seqEnd
          invariant ClusterStart(line, level, i) == ClusterStart(line, level, seqEnd - 1)
          decreases i
        {
          i := i - 1;
        }
        if i < line.off || line.levels[i] != level {
          i := i + 1;
        }
        ghost var midVisual := if visual == null then [] else visual[..];
        ghost var midMap := if indexMap == null then [] else indexMap[..];
        ReverseBoth(visual, indexMap, i, seqEnd - i + 1);
        ScanCluster(line, seqEnd, i);
        SweepBoth(line, Marks, i, seqEnd, visual, indexMap, midVisual, midMap, visual0, map0);
      } else {
        ScanPast(line, i);
        PastBoth(line, Marks, i, visual, indexMap, visual0, map0);
      }
      i := i - 1;
    }
    EndBoth(line, Marks, i, visual, indexMap, visual0, map0);
  }

  lemma ScanStarts(line: Line)
    requires line.Valid()
    ensures ScanAt(line, line.end - 1)
  {
  }

  // ---------------------------------------------------------------- the whole line

  /** Highest level of the line, at least 0. */
  function MaxLevel(levels: seq<int>, off: nat, end: nat): (m: int)
    requires off <= end <= |levels|
    ensures m >= 0 && forall x :: off <= x < end ==> levels[x] <= m
    decreases end
  {
    if off == end then 0 else Max(levels[end - 1], MaxLevel(levels, off, end - 1))
  }

  /** It is a level of the line, or 0. */
  lemma {:induction false} MaxLevelReached(levels: seq<int>, off: nat, end: nat)
    requires off <= end <= |levels|
    ensures MaxLevel(levels, off, end) == 0 || MaxLevel(levels, off, end) in levels[off..end]
    decreases end
  {
    if off < end {
      MaxLevelReached(levels, off, end - 1);
      assert levels[off..end] == levels[off..end - 1] + [levels[end - 1]];
    }
  }

  ghost predicate Levelled(levels: seq<int>, off: nat, end: nat)
  {
    off <= end <= |levels| && forall x :: off <= x < end ==> 0 <= levels[x]
  }

  /** The line that L2 and L3 work on. */
  function LineOf(types: seq<CharType>, levels: seq<int>, off: nat, end: nat, baseDir: CharType): (line: Line)
    requires Levelled(levels, off, end) && |levels| <= |types|
    ensures line.Valid() && line.off == off && line.end == end
    ensures line.levels == ResetTrailing(types, levels, off, end, baseDir.ToLevel())
    ensures line.types == types
  {
    var reset := ResetTrailing(types, levels, off, end, baseDir.ToLevel());
    assert forall i :: off <= i < end ==> 0 <= reset[i] by {
      forall i | off <= i < end
        ensures 0 <= reset[i]
      {
        ResetTrailingExact(types, levels, off, end, baseDir.ToLevel(), i);
      }
    }
    Line(types, reset, off, end, MaxLevel(reset, off, end))
  }

  /** now shows before with the levels top, ..., k reversed. */
  ghost predicate Shows<T>(line: Line, k: int, now: seq<T>, before: seq<T>)
    requires line.Valid()
  {
    && |now| == |before|
    && forall v :: 0 <= v < |now| ==> 0 <= Source(line, k, v) < |before| && now[v] == before[Source(line, k, v)]
  }

  ghost predicate BothShow(line: Line, k: int, visual: array?<char>, indexMap: array?<int>, visual0: seq<char>, map0: seq<int>)
    requires line.Valid()
    reads visual, indexMap
  {
    && (visual != null ==> Shows(line, k, visual[..], visual0))
    && (indexMap != null ==> Shows(line, k, indexMap[..], map0))
  }

  lemma ShowsOneMore<T>(line: Line, k: int, now: seq<T>, mid: seq<T>, before: seq<T>)
    requires line.Valid() && 0 < k <= line.top
    requires Shows(line, k + 1, mid, before) && Swept(line, Level(k), -1, now, mid)
    ensures Shows(line, k, now, before)
  {
    hide Mirror;
    var above := k + 1;
    forall v | 0 <= v < |now|
      ensures 0 <= Source(line, k, v) < |before| && now[v] == before[Source(line, k, v)]
    {
      var x := SweepSource(line, Level(k), -1, v);
      assert x == Mirror(line, k, v);
      assert 0 <= Source(line, above, x) < |before|;
    }
  }

  lemma ShowsVisual<T>(line: Line, nsm: bool, now: seq<T>, mid: seq<T>, before: seq<T>)
    requires line.Valid() && Shows(line, 1, now, mid)
    requires if nsm then Swept(line, Marks, -1, mid, before) else mid == before
    ensures IsShown(line, nsm, now, before)
  {
    hide NsmMirror, Source;
    forall v | 0 <= v < |now|
      ensures 0 <= VisualSource(line, nsm, v) < |before| && now[v] == before[VisualSource(line, nsm, v)]
    {
      var x := Source(line, 1, v);
      assert nsm ==> SweepSource(line, Marks, -1, x) == NsmMirror(line, x);
    }
  }

  /** now is before in visual order. */
  ghost predicate IsShown<T>(line: Line, nsm: bool, now: seq<T>, before: seq<T>)
    requires line.Valid()
  {
    && |now| == |before|
    && forall v :: 0 <= v < |now| ==>
         0 <= VisualSource(line, nsm, v) < |before| && now[v] == before[VisualSource(line, nsm, v)]
  }

  /** fribidi_reorder_line.  The levels of the line are reset, both arrays end in visual order, and
      the result is one more than the highest level of the line. */
  method ReorderLine(reorderNsm: bool, types: seq<CharType>, len: nat, off: nat, baseDir: CharType,
                     levels: array<int>, visual: array?<char>, indexMap: array?<int>) returns (result: int)
    requires levels.Length <= |types| && Levelled(levels[..], off, off + len)
    requires visual != null ==> off + len <= visual.Length
    requires indexMap != null ==> off + len <= indexMap.Length && indexMap != levels
    modifies levels, visual, indexMap
    ensures var line := LineOf(types, old(levels[..]), off, off + len, baseDir);
            && levels[..] == line.levels
            && result == line.top + 1
            && (visual != null ==> IsShown(line, reorderNsm, visual[..], old(visual[..])))
            && (indexMap != null ==> IsShown(line, reorderNsm, indexMap[..], old(indexMap[..])))
  {
    ghost var line := LineOf(types, levels[..], off, off + len, baseDir);
    ghost var visual0 := if visual == null then seq(off + len, _ => 'x') else visual[..];
    ghost var map0 := if indexMap == null then seq(off + len, _ => 0) else indexMap[..];
    if len == 0 {
      NothingToReorder(line, reorderNsm, visual0);
      NothingToReorder(line, reorderNsm, map0);
      return 1;
    }
    ResetLine(types, len, off, baseDir, levels);
    var theLine := Line(types, levels[..], off, off + len, 0);
    var maxLevel := LineMax(theLine.levels, off, off + len);
    theLine := theLine.(top := maxLevel);
    assert theLine == line;
    if reorderNsm {
      ReorderMarks(theLine, visual, indexMap, visual0, map0);
    }
    ghost var midVisual := if visual == null then visual0 else visual[..];
    ghost var midMap := if indexMap == null then map0 else indexMap[..];
    ReverseLevels(theLine, visual, indexMap, midVisual, midMap);
    if visual != null { ShowsVisual(line, reorderNsm, visual[..], midVisual, visual0); }
    if indexMap != null { ShowsVisual(line, reorderNsm, indexMap[..], midMap, map0); }
    return maxLevel + 1;
  }

  lemma NothingToReorder<T>(line: Line, nsm: bool, s: seq<T>)
    requires line.Valid() && line.off == line.end
    ensures IsShown(line, nsm, s, s)
  {
    forall v | 0 <= v < |s|
      ensures VisualSource(line, nsm, v) == v
    {
      ReorderIsPermutation(line, nsm, v);
    }
  }

  /** L1.4: white space at the end of the line. */
  method ResetLine(types: seq<CharType>, len: nat, off: nat, baseDir: CharType, levels: array<int>)
    requires off + len <= levels.Length <= |types|
    modifies levels
    ensures levels[..] == ResetTrailing(types, old(levels[..]), off, off + len, baseDir.ToLevel())
  {
    var i: int := off + len - 1;
    while i >= off && types[i].IsExplicitOrBnOrWs()
      invariant off - 1 <= i < off + len
      invariant ResetTrailing(types, levels[..], off, i + 1, baseDir.ToLevel())
                == ResetTrailing(types, old(levels[..]), off, off + len, baseDir.ToLevel())
      decreases i
    {
      ghost var before := levels[..];
      levels[i] := baseDir.ToLevel();
      assert levels[..] == before[i := baseDir.ToLevel()];
      i := i - 1;
    }
  }

  method LineMax(levels: seq<int>, off: nat, end: nat) returns (maxLevel: int)
    requires off <= end <= |levels|
    ensures maxLevel == MaxLevel(levels, off, end)
  {
    maxLevel := 0;
    var i: int := end - 1;
    while i >= off
      invariant off - 1 <= i < end
      invariant Max(maxLevel, MaxLevel(levels, off, i + 1)) == MaxLevel(levels, off, end)
      invariant maxLevel >= 0
    {
      if levels[i] > maxLevel {
        maxLevel := levels[i];
      }
      i := i - 1;
    }
  }

  /** L2. */
  method ReverseLevels(line: Line, visual: array?<char>, indexMap: array?<int>, ghost visual0: seq<char>, ghost map0: seq<int>)
    requires line.Valid() && line.end <= |visual0| && line.end <= |map0|
    requires visual != null ==> visual[..] == visual0
    requires indexMap != null ==> indexMap[..] == map0
    modifies visual, indexMap
    ensures BothShow(line, 1, visual, indexMap, visual0, map0)
  {
    hide Shows, Swept;
    var level := line.top;
    ShowsAtTop(line, visual0);
    ShowsAtTop(line, map0);
    while level > 0
      invariant 0 <= level <= line.top
      invariant BothShow(line, level + 1, visual, indexMap, visual0, map0)
      invariant visual != null ==> |visual[..]| == |visual0|
      invariant indexMap != null ==> |indexMap[..]| == |map0|
    {
      ghost var midVisual := if visual == null then visual0 else visual[..];
      ghost var midMap := if indexMap == null then map0 else indexMap[..];
      ReverseStretches(line, level, visual, indexMap, midVisual, midMap);
      if visual != null { ShowsOneMore(line, level, visual[..], midVisual, visual0); }
      if indexMap != null { ShowsOneMore(line, level, indexMap[..], midMap, map0); }
      level := level - 1;
    }
  }

  lemma ShowsAtTop<T>(line: Line, s: seq<T>)
    requires line.Valid()
    ensures Shows(line, line.top + 1, s, s)
  {
  }
}
