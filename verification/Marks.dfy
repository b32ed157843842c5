/** Rules W1 and W2 of 3rd/fribidi/fribidi-bidi.c: one loop that merges runs while it goes.  The rules say what
    type each run of the list before the loop gets. */
module Marks {
  import opened BidiTypes
  import opened RunList
  import opened Resolve

  // ---------------------------------------------------------------- the rules

  /** The type before run k, by the types that the rules give. */
  function MarkedBefore(was: seq<Run>, k: nat): CharType
    requires 1 <= k < |was|
    decreases k, 0
  {
    var p := Before(was, k);
    if p == 0 then TypeBeside(was[k], SENTINEL_RUN)
    else if was[p].level == was[k].level then Marked(was, p)
    else LevelToDir(Max(was[p].level, was[k].level))
  }

  /** The last strong type before run k. */
  function StrongBefore(was: seq<Run>, k: nat): CharType
    requires 1 <= k < |was|
    decreases k, 1
  {
    if MarkedBefore(was, k).IsStrong() || Before(was, k) == 0 then MarkedBefore(was, k) else StrongBefore(was, Before(was, k))
  }

  /** W1: a mark has the type before it.  W2: an EN behind AL is an AN. */
  function Marked(was: seq<Run>, k: nat): CharType
    requires 1 <= k < |was|
    decreases k, 2
  {
    if was[k].typ.NSM? then MarkedBefore(was, k)
    else if was[k].typ.EN? && StrongBefore(was, k).AL? then AN
    else was[k].typ
  }

  /** A mark of the level of the run before it, in its isolating run sequence, follows that run directly. */
  ghost predicate MarksFollow(was: seq<Run>) {
    && (forall k :: 1 <= k < |was| && was[k].typ.NSM? ==> FollowsBefore(was, k))
    && (forall k :: 1 <= k < |was| && was[k].typ.EN? ==> MarkFollows(was, k))
  }

  predicate FollowsBefore(was: seq<Run>, k: nat)
    requires 1 <= k < |was|
  {
    var p := Before(was, k);
    p > 0 && was[p].level == was[k].level ==> p == k - 1
  }

  predicate MarkFollows(was: seq<Run>, k: nat)
    requires 1 <= k < |was|
  {
    var n := After(was, k);
    n > 0 && was[n].level == was[k].level && was[n].typ.NSM? ==> n == k + 1
  }

  /** A mark behind an EN that turns into an AN is an AN before the loop reaches it. */
  predicate Preset(was: seq<Run>, k: nat)
    requires 1 <= k < |was|
  {
    var j := k - 1;
    && j >= 1 && was[k].typ.NSM? && was[j].typ.EN? && StrongBefore(was, j).AL?
    && After(was, j) == k && was[j].level == was[k].level
  }

  /** A run behind a mark that has the type the mark takes is joined with it. */
  predicate Absorbed(was: seq<Run>, k: nat)
    requires 1 <= k < |was|
  {
    var j := k - 1;
    && j >= 1 && was[j].typ.NSM? && !Preset(was, j) && was[k].typ == MarkedBefore(was, j)
    && After(was, j) == k && was[j].level == was[k].level
  }

  /** Run k becomes part of the run before it. */
  predicate Joined(was: seq<Run>, k: nat)
    requires 1 <= k < |was|
  {
    || Absorbed(was, k)
    || (was[k].typ.NSM? && !Preset(was, k) && k >= 2 && Before(was, k) == k - 1 && was[k - 1].level == was[k].level)
  }

  /** The bracket that a run ends up with: that of the run it has become part of. */
  function MarkedBracket(was: seq<Run>, k: nat): Bracket
    requires 1 <= k < |was|
  {
    if Joined(was, k) && k > 1 then MarkedBracket(was, k - 1) else was[k].bracket
  }

  lemma {:induction false} NoMarkLeft(was: seq<Run>, k: nat)
    requires 1 <= k < |was|
    ensures !Marked(was, k).NSM? && !MarkedBefore(was, k).NSM?
    decreases k
  {
    if Before(was, k) > 0 { NoMarkLeft(was, Before(was, k)); }
  }

  /** Behind a number that is still an EN there is no AL to look back to. */
  lemma {:induction false} NumberKept(was: seq<Run>, k: nat)
    requires 1 <= k < |was| && Marked(was, k).EN?
    ensures !StrongBefore(was, k).AL?
    decreases k
  {
    if was[k].typ.NSM? && Before(was, k) > 0 { NumberKept(was, Before(was, k)); }
  }

  // ---------------------------------------------------------------- the list during the loop

  /** Run j of the list before is part of run m[j] now. */
  ghost predicate Like(was: seq<Run>, now: seq<Run>, m: seq<nat>, j: nat)
    requires 1 <= j < |was| && j < |m|
  {
    && 1 <= m[j] < |now|
    && now[m[j]].isolateLevel == was[j].isolateLevel && now[m[j]].level == was[j].level && now[m[j]].typ == Marked(was, j)
    && now[m[j]].bracket == MarkedBracket(was, j)
    && now[m[j]].pos <= was[j].pos && (m[j - 1] != m[j] ==> now[m[j]].pos == was[j].pos)
  }

  /** Run l is still run j of the list before; the next one, a mark, may be an AN already. */
  predicate StillIs(was: seq<Run>, now: seq<Run>, j: nat, l: nat, k: nat)
    requires 1 <= j < |was| && l < |now|
  {
    now[l] == if j == k && Preset(was, j) then was[j].(typ := AN) else was[j]
  }

  /** k runs of the list before have become i runs. */
  ghost predicate Mirrors(was: seq<Run>, now: seq<Run>, m: seq<nat>, k: nat, i: nat) {
    && 1 <= k <= |was| && 1 <= i <= |now| && |now| - i == |was| - k && |m| == k
    && m[0] == 0 && m[k - 1] == i - 1 && now[0] == was[0]
    && (forall j, l :: 0 <= j < l < k && l == j + 1 ==> m[l] == if Joined(was, l) then m[j] else m[j] + 1)
    && (forall j :: 1 <= j < k ==> Like(was, now, m, j))
    && (forall j, l :: k <= j < |was| && i <= l < |now| && j - k == l - i ==> StillIs(was, now, j, l, k))
  }

  lemma MirrorStarts(was: seq<Run>)
    requires |was| > 0
    ensures Mirrors(was, was, [0], 1, 1)
  {
  }

  lemma {:induction false} LinkMirrors(was: seq<Run>, now: seq<Run>, m: seq<nat>, k: nat, i: nat, j: nat, level: int)
    requires Mirrors(was, now, m, k, i) && j < k && m[j] < |now|
    ensures var p := LinkBefore(was, j, level); p <= j && LinkBefore(now, m[j], level) == m[p]
    decreases j
  {
    hide Marked;
    if j > 0 {
      assert Like(was, now, m, j);
      var h := j - 1;
      assert m[j] == m[h] || m[j] == m[h] + 1;
      LinkMirrors(was, now, m, k, i, h, level);
    }
  }

  /** The run at hand sees before it what the rules see. */
  lemma BeforeMirrors(was: seq<Run>, now: seq<Run>, m: seq<nat>, k: nat, i: nat)
    requires Mirrors(was, now, m, k, i) && k < |was|
    ensures i < |now| && now[i].isolateLevel == was[k].isolateLevel && now[i].level == was[k].level && now[i].pos == was[k].pos
    ensures Before(was, k) < k && Before(now, i) == m[Before(was, k)] && TypeBefore(now, i) == MarkedBefore(was, k)
    ensures Before(was, k) > 0 ==> m[Before(was, k)] > 0
  {
    assert StillIs(was, now, k, i, k);
    var h := k - 1;
    LinkMirrors(was, now, m, k, i, h, was[k].isolateLevel);
    var p := Before(was, k);
    if p > 0 { assert Like(was, now, m, p); }
    hide Marked, LinkBefore;
  }

  lemma {:induction false} LinkAfterMirrors(was: seq<Run>, now: seq<Run>, k: nat, i: nat, j: nat, l: nat, level: int)
    requires k < j <= |was| && i < l <= |now| && j - k == l - i && |now| - l == |was| - j
    requires forall a, b :: k < a < |was| && i < b < |now| && a - k == b - i ==> now[b] == was[a]
    ensures var p, q := LinkAfter(was, j, level), LinkAfter(now, l, level);
            if p == 0 then q == 0 else q > 0 && q - i == p - k && now[q] == was[p]
    decreases |was| - j
  {
    if j < |was| {
      assert now[l] == was[j];
      LinkAfterMirrors(was, now, k, i, j + 1, l + 1, level);
    }
  }

  lemma AfterMirrors(was: seq<Run>, now: seq<Run>, m: seq<nat>, k: nat, i: nat)
    requires Mirrors(was, now, m, k, i) && k < |was|
    ensures i < |now| && TypeAfter(now, i) == TypeAfter(was, k)
    ensures var p, q := After(was, k), After(now, i);
            if p == 0 then q == 0 else q > 0 && q - i == p - k && now[q] == was[p]
  {
    BeforeMirrors(was, now, m, k, i);
    forall a, b | k < a < |was| && i < b < |now| && a - k == b - i
      ensures now[b] == was[a]
    {
      assert StillIs(was, now, a, b, k);
    }
    LinkAfterMirrors(was, now, k, i, k + 1, i + 1, was[k].isolateLevel);
    hide LinkAfter, LinkBefore;
  }

  // ---------------------------------------------------------------- steps

  lemma LikeKept(was: seq<Run>, now: seq<Run>, next: seq<Run>, m: seq<nat>, x: nat, j: nat)
    requires 1 <= j < |was| && j < |m| && Like(was, now, m, j) && m[j] < |next|
    requires next[m[j]].isolateLevel == now[m[j]].isolateLevel && next[m[j]].level == now[m[j]].level
    requires next[m[j]].typ == now[m[j]].typ && next[m[j]].pos == now[m[j]].pos && next[m[j]].bracket == now[m[j]].bracket
    ensures Like(was, next, m + [x], j)
  {
    hide Marked, MarkedBracket;
  }

  /** The run at hand stays a run of its own, with the type of the rules. */
  lemma StepOwn(was: seq<Run>, now: seq<Run>, m: seq<nat>, k: nat, i: nat, next: seq<Run>)
    requires Mirrors(was, now, m, k, i) && k < |was| && |next| == |now| && i < |now| && !Joined(was, k)
    requires next[i] == now[i].(typ := Marked(was, k))
    requires forall l :: 0 <= l < i ==> next[l] == now[l]
    requires forall l :: i < l < |now| ==>
               next[l] == if l == i + 1 && k + 1 < |was| && Preset(was, k + 1) then now[l].(typ := AN) else now[l]
    ensures Mirrors(was, next, m + [i], k + 1, i + 1)
  {
    BeforeMirrors(was, now, m, k, i);
    hide Marked, Joined, Preset, MarkedBefore, StrongBefore;
    var n := m + [i];
    OwnLike(was, now, m, k, i, next);
    forall j | 1 <= j < k
      ensures Like(was, next, n, j)
    {
      assert Like(was, now, m, j);
      MapBelow(was, now, m, k, i, j);
      LikeKept(was, now, next, m, i, j);
    }
    var k1, i1 := k + 1, i + 1;
    forall j, l | k1 <= j < |was| && i1 <= l < |next| && j - k1 == l - i1
      ensures StillIs(was, next, j, l, k1)
    {
      assert StillIs(was, now, j, l, k);
    }
  }

  lemma OwnLike(was: seq<Run>, now: seq<Run>, m: seq<nat>, k: nat, i: nat, next: seq<Run>)
    requires Mirrors(was, now, m, k, i) && k < |was| && |next| == |now| && i < |now| && !Joined(was, k)
    requires next[i] == now[i].(typ := Marked(was, k))
    ensures Like(was, next, m + [i], k)
  {
    hide Marked, MarkedBefore, StrongBefore;
    assert StillIs(was, now, k, i, k);
    BeforeMirrors(was, now, m, k, i);
  }

  lemma {:induction false} MapBelow(was: seq<Run>, now: seq<Run>, m: seq<nat>, k: nat, i: nat, j: nat)
    requires Mirrors(was, now, m, k, i) && j < k
    ensures m[j] < i
    decreases k - j
  {
    hide Like, StillIs;
    var l := j + 1;
    if l < k {
      MapBelow(was, now, m, k, i, l);
      assert m[l] == m[j] || m[l] == m[j] + 1;
    }
  }

  lemma MergedAt(nodes: seq<Run>, i: nat, l: nat)
    requires 2 <= i < |nodes| && l < |nodes| - 1
    ensures |Merged(nodes, i)| == |nodes| - 1
    ensures var r, o := Merged(nodes, i)[l], nodes[if l < i then l else l + 1];
            && r.isolateLevel == o.isolateLevel && r.level == o.level && r.typ == o.typ && r.pos == o.pos && r.bracket == o.bracket
            && (l != i - 1 ==> r == o)
  {
  }

  /** The run at hand joins the one before it, which has its level, isolate and type. */
  lemma StepJoin(was: seq<Run>, now: seq<Run>, m: seq<nat>, k: nat, i: nat, t: CharType)
    requires Mirrors(was, now, m, k, i) && 2 <= k < |was| && 2 <= i < |now| && was[k - 1].pos < was[k].pos
    requires was[k].isolateLevel == was[k - 1].isolateLevel && was[k].level == was[k - 1].level && Marked(was, k) == Marked(was, k - 1)
    requires Joined(was, k) && (k + 1 < |was| ==> !Preset(was, k + 1))
    ensures Mirrors(was, Merged(now[i := now[i].(typ := t)], i), m + [i - 1], k + 1, i)
  {
    assert MarkedBracket(was, k) == MarkedBracket(was, k - 1);
    hide Marked, Merged, MarkedBracket, Preset, Joined, MarkedBefore, StrongBefore;
    var on := now[i := now[i].(typ := t)];
    var next := Merged(on, i);
    var n := m + [i - 1];
    MergedAt(on, i, 0);
    assert n[k - 1] == n[k] == i - 1;
    forall j | 1 <= j < k + 1
      ensures Like(was, next, n, j)
    {
      if j < k {
        assert Like(was, now, m, j);
        MapBelow(was, now, m, k, i, j);
        MergedAt(on, i, m[j]);
        LikeKept(was, now, next, m, i - 1, j);
      } else {
        var h := k - 1;
        assert Like(was, now, m, h);
        MergedAt(on, i, i - 1);
        JoinedLike(was, now, next, m, k, i);
      }
    }
    var k1 := k + 1;
    forall j, l | k1 <= j < |was| && i <= l < |next| && j - k1 == l - i
      ensures StillIs(was, next, j, l, k1)
    {
      MergedAt(on, i, l);
      assert StillIs(was, now, j, l + 1, k);
    }
  }

  lemma JoinedLike(was: seq<Run>, now: seq<Run>, next: seq<Run>, m: seq<nat>, k: nat, i: nat)
    requires 2 <= k < |was| && |m| == k && m[k - 1] == i - 1 && Like(was, now, m, k - 1) && i - 1 < |next|
    requires next[i - 1].isolateLevel == now[i - 1].isolateLevel && next[i - 1].level == now[i - 1].level
    requires next[i - 1].typ == now[i - 1].typ && next[i - 1].pos == now[i - 1].pos && next[i - 1].bracket == now[i - 1].bracket
    requires MarkedBracket(was, k) == MarkedBracket(was, k - 1)
    requires was[k].isolateLevel == was[k - 1].isolateLevel && was[k].level == was[k - 1].level && Marked(was, k) == Marked(was, k - 1)
    requires was[k - 1].pos <= was[k].pos
    ensures Like(was, next, m + [i - 1], k)
  {
    hide Marked, MarkedBracket;
  }

  // ---------------------------------------------------------------- last_strong_stack

  ghost predicate StrongKnown(was: seq<Run>, k: nat, strong: map<int, CharType>)
    requires k <= |was|
  {
    forall j :: 1 <= j < k && LatestOf(was, j, k) ==> was[j].isolateLevel in strong && strong[was[j].isolateLevel] == StrongBefore(was, j)
  }

  lemma StrongStarts(was: seq<Run>, strong: map<int, CharType>)
    requires |was| > 0
    ensures StrongKnown(was, 1, strong)
  {
  }

  lemma StrongNext(was: seq<Run>, k: nat, strong: map<int, CharType>)
    requires 1 <= k < |was| && StrongKnown(was, k, strong)
    requires Before(was, k) == 0 ==> MarkedBefore(was, k).IsStrong()
    ensures var t, level := MarkedBefore(was, k), was[k].isolateLevel;
            var next := if t.IsStrong() then strong[level := t] else strong;
            level in next && next[level] == StrongBefore(was, k) && StrongKnown(was, k + 1, next)
  {
    hide LinkBefore, MarkedBefore, StrongBefore;
    StrongIs(was, k);
    var j := k - 1;
    var p, level := Before(was, k), was[k].isolateLevel;
    LinkIsLatest(was, j, level);
    var t := MarkedBefore(was, k);
    var next := if t.IsStrong() then strong[level := t] else strong;
    if p > 0 {
      LinkWithin(was, j, level);
      assert LatestOf(was, p, k);
    }
    forall l | 1 <= l < k + 1 && LatestOf(was, l, k + 1)
      ensures was[l].isolateLevel in next && next[was[l].isolateLevel] == StrongBefore(was, l)
    {
      if l < k { assert LatestOf(was, l, k); }
    }
  }

  lemma StrongIs(was: seq<Run>, k: nat)
    requires 1 <= k < |was|
    ensures StrongBefore(was, k) ==
            if MarkedBefore(was, k).IsStrong() || Before(was, k) == 0 then MarkedBefore(was, k) else StrongBefore(was, Before(was, k))
  {
  }

  /** A run that joined the one before it looks back to the same type. */
  lemma StrongJoined(was: seq<Run>, k: nat, strong: map<int, CharType>)
    requires 1 <= k && k + 1 < |was| && StrongKnown(was, k + 1, strong)
    requires was[k + 1].isolateLevel == was[k].isolateLevel && StrongBefore(was, k + 1) == StrongBefore(was, k)
    ensures StrongKnown(was, k + 2, strong)
  {
    hide StrongBefore;
    assert LatestOf(was, k, k + 1);
    forall l | 1 <= l < k + 2 && LatestOf(was, l, k + 2)
      ensures was[l].isolateLevel in strong && strong[was[l].isolateLevel] == StrongBefore(was, l)
    {
      if l < k + 1 { assert LatestOf(was, l, k + 1); }
    }
  }

  // ---------------------------------------------------------------- marks

  /** The run after a mark has the type that the mark takes: it gets none of its own. */
  lemma NextJoins(was: seq<Run>, k: nat)
    requires 1 <= k && k + 1 < |was| && was[k].typ.NSM? && After(was, k) == k + 1 && was[k + 1].level == was[k].level
    requires was[k + 1].typ == MarkedBefore(was, k)
    ensures Before(was, k + 1) == k && was[k + 1].isolateLevel == was[k].isolateLevel
    ensures Marked(was, k + 1) == Marked(was, k) && StrongBefore(was, k + 1) == StrongBefore(was, k)
  {
    NoMarkLeft(was, k);
    assert Before(was, k + 1) == k;
    assert MarkedBefore(was, k + 1) == Marked(was, k) == MarkedBefore(was, k);
    StrongIs(was, k);
    StrongIs(was, k + 1);
    if Marked(was, k).EN? { NumberKept(was, k); }
  }

  /** An EN that becomes an AN makes one of the mark behind it, too. */
  lemma NextPreset(was: seq<Run>, k: nat)
    requires 1 <= k < |was| && MarksFollow(was) && was[k].typ.EN? && StrongBefore(was, k).AL? && TypeAfter(was, k).NSM? && After(was, k) > 0
    ensures After(was, k) == k + 1 && Preset(was, k + 1) && Marked(was, k + 1).AN?
  {
    assert MarkFollows(was, k);
    PresetIsAn(was, k + 1);
  }

  lemma PresetIsAn(was: seq<Run>, k: nat)
    requires 1 <= k < |was| && Preset(was, k)
    ensures Marked(was, k).AN? && Before(was, k) == k - 1
  {
    assert Before(was, k) == k - 1;
    assert MarkedBefore(was, k) == Marked(was, k - 1);
  }

  // ---------------------------------------------------------------- the end of the loop

  /** Character by character: type and bracket of the rules, level and isolate as before; where no run is left of the character nothing is said. */
  ghost predicate MarksResolved(was: seq<Run>, now: seq<Run>) {
    && |was| > 0 && |now| > 0
    && forall x :: 0 <= x ==> MarkResolved(was, now, x)
  }

  ghost predicate MarkResolved(was: seq<Run>, now: seq<Run>, x: int)
    requires |was| > 0 && |now| > 0
  {
    var o := Owner(was, |was|, x);
    if o == 0 then AttrAt(now, x).typ == Sentinel
    else AttrAt(now, x) == Attr(Marked(was, o), was[o].level) && PlaceAt(now, x) == Place(was[o].isolateLevel, MarkedBracket(was, o))
  }

  lemma MirrorEnds(was: seq<Run>, now: seq<Run>, m: seq<nat>)
    requires Mirrors(was, now, m, |was|, |now|) && IsList(was) && IsList(now)
    ensures MarksResolved(was, now)
  {
    hide Marked, MarkedBracket, Owner, IsList;
    ListNotEmpty(was);
    forall x | 0 <= x
      ensures MarkResolved(was, now, x)
    {
      var o := Owner(was, |was|, x);
      OwnerMirrors(was, now, m, x);
      if o > 0 { assert Like(was, now, m, o); }
      FirstTyp(was);
    }
  }

  lemma FirstTyp(was: seq<Run>)
    requires IsList(was)
    ensures |was| > 0 && was[0].typ == Sentinel
  {
  }

  lemma OwnerMirrors(was: seq<Run>, now: seq<Run>, m: seq<nat>, x: int)
    requires Mirrors(was, now, m, |was|, |now|) && IsList(was) && IsList(now) && 0 <= x
    ensures |was| > 0 && |now| > 0 && Owner(was, |was|, x) < |m| && Owner(now, |now|, x) == m[Owner(was, |was|, x)]
  {
    hide Marked, Owner;
    OwnerHolds(was, |was|, x);
    var o := Owner(was, |was|, x);
    MapBelow(was, now, m, |was|, |now|, o);
    if o > 0 { assert Like(was, now, m, o); }
    if m[o] + 1 < |now| {
      var l := NextGroup(was, now, m, o);
      assert Like(was, now, m, l);
      assert o + 1 < |was| && x < was[o + 1].pos <= was[l].pos;
    }
    hide IsList;
    OwnerIs(now, |now|, x, m[o]);
  }

  /** The first run behind o that became part of the next one. */
  lemma {:induction false} NextGroup(was: seq<Run>, now: seq<Run>, m: seq<nat>, o: nat) returns (l: nat)
    requires Mirrors(was, now, m, |was|, |now|) && o < |was| && m[o] + 1 < |now|
    ensures o < l < |was| && m[l] == m[o] + 1 && m[l - 1] == m[o]
    decreases |was| - o
  {
    hide Like, StillIs;
    var h := o + 1;
    assert m[|was| - 1] == |now| - 1;
    assert m[h] == m[o] || m[h] == m[o] + 1;
    if m[h] == m[o] {
      l := NextGroup(was, now, m, h);
    } else {
      l := h;
    }
  }

  // ---------------------------------------------------------------- the loop

  /** Whether the mark is of the level of the run before it. */
  predicate Joins(nodes: seq<Run>, i: nat, prev: nat)
    requires 1 <= i < |nodes| && prev < i
  {
    prev > 0 && nodes[prev].level == nodes[i].level
  }

  /** The list when the mark has joined the run before it, or taken its type. */
  function Taken(nodes: seq<Run>, i: nat, prev: nat, prevType: CharType): seq<Run>
    requires 1 <= i < |nodes| && prev < i
  {
    var on := if nodes[i - 1].typ.IsIsolate() then nodes[i := nodes[i].(typ := ON)] else nodes;
    if !Joins(nodes, i, prev) then nodes[i := nodes[i].(typ := prevType)]
    else if prev == i - 1 then Merged(on, i)
    else on
  }

  function TakenAt(nodes: seq<Run>, i: nat, prev: nat): nat
    requires 1 <= i < |nodes| && prev < i
  {
    if Joins(nodes, i, prev) && prev == i - 1 then i - 1 else i
  }

  /** A run of the same type behind it joins, too. */
  predicate NextToo(nodes: seq<Run>, at: nat, prevType: CharType, nextType: CharType, adjacent: bool)
    requires at < |nodes|
  {
    prevType == nextType && nodes[at].level == NextRun(nodes, at).level && adjacent && at + 1 < |nodes|
  }

  lemma PlainStep(was: seq<Run>, now: seq<Run>, m: seq<nat>, k: nat, i: nat, al: bool, after: seq<Run>)
    requires Mirrors(was, now, m, k, i) && MarksFollow(was) && k < |was| && i < |now| && !now[i].typ.NSM? && !Absorbed(was, k)
    requires al == StrongBefore(was, k).AL? && (TypeAfter(now, i).NSM? ==> After(now, i) > 0)
    requires after == if !(now[i].typ.EN? && al) then now
                      else if TypeAfter(now, i).NSM? then
                        now[i := now[i].(typ := AN)][After(now, i) := now[After(now, i)].(typ := AN)]
                      else now[i := now[i].(typ := AN)]
    ensures Mirrors(was, after, m + [i], k + 1, i + 1) && (k + 1 < |was| ==> !Absorbed(was, k + 1))
  {
    assert StillIs(was, now, k, i, k);
    AfterMirrors(was, now, m, k, i);
    assert !Joined(was, k);
    PlainType(was, now, k, i, al);
    if now[i].typ.EN? && al && TypeAfter(now, i).NSM? {
      NextPreset(was, k);
    }
    PresetNext(was, k, al);
    PlainNotAbsorbed(was, now, k, i);
    hide MarkedBefore, StrongBefore, TypeAfter, After, Joined, Preset, Absorbed;
    StepOwn(was, now, m, k, i, after);
  }

  lemma PlainType(was: seq<Run>, now: seq<Run>, k: nat, i: nat, al: bool)
    requires 1 <= k < |was| && i < |now| && StillIs(was, now, k, i, k) && !now[i].typ.NSM? && al == StrongBefore(was, k).AL?
    ensures (now[i].typ.EN? <==> was[k].typ.EN?) && Marked(was, k) == if now[i].typ.EN? && al then AN else now[i].typ
  {
    if Preset(was, k) { PresetIsAn(was, k); }
  }

  lemma PresetNext(was: seq<Run>, k: nat, al: bool)
    requires 1 <= k < |was| && MarksFollow(was) && al == StrongBefore(was, k).AL?
    ensures k + 1 < |was| ==> (Preset(was, k + 1) <==> was[k].typ.EN? && al && TypeAfter(was, k).NSM? && After(was, k) > 0)
  {
    if was[k].typ.EN? { assert MarkFollows(was, k); }
  }

  lemma PlainNotAbsorbed(was: seq<Run>, now: seq<Run>, k: nat, i: nat)
    requires 1 <= k < |was| && i < |now| && StillIs(was, now, k, i, k) && !now[i].typ.NSM?
    ensures k + 1 < |was| ==> !Absorbed(was, k + 1)
  {
  }

  /** What a mark does to the list is what the rules say. */
  lemma MarkStep(was: seq<Run>, now: seq<Run>, m: seq<nat>, k: nat, i: nat) returns (m': seq<nat>)
    requires Mirrors(was, now, m, k, i) && MarksFollow(was) && k < |was| && i < |now| && now[i].typ.NSM?
    requires IsList(was) && Before(now, i) < i && !Absorbed(was, k)
    ensures var prev := Before(now, i);
            Mirrors(was, Taken(now, i, prev, TypeBefore(now, i)), m', k + 1, TakenAt(now, i, prev) + 1)
  {
    assert k + 1 < |was| ==> !Preset(was, k + 1) by { MarkIs(was, now, m, k, i); }
    hide Marked, MarkedBefore, Mirrors, Merged, LinkBefore, Joined, Preset, Absorbed, StrongBefore;
    BeforeMirrors(was, now, m, k, i);
    MarkIs(was, now, m, k, i);
    var prev := Before(now, i);
    if Joins(now, i, prev) {
      MarkJoins(was, now, m, k, i);
      m' := m + [i - 1];
      StepJoin(was, now, m, k, i, if now[i - 1].typ.IsIsolate() then ON else now[i].typ);
      assert now[i := now[i].(typ := now[i].typ)] == now;
    } else {
      m' := m + [i];
      MarkAlone(was, now, m, k, i);
      StepOwn(was, now, m, k, i, Taken(now, i, prev, TypeBefore(now, i)));
    }
  }

  lemma MarkAlone(was: seq<Run>, now: seq<Run>, m: seq<nat>, k: nat, i: nat)
    requires Mirrors(was, now, m, k, i) && k < |was| && i < |now| && now[i] == was[k] && was[k].typ.NSM? && !Absorbed(was, k)
    requires Before(now, i) < i && !Joins(now, i, Before(now, i))
    ensures !Joined(was, k)
  {
    BeforeMirrors(was, now, m, k, i);
    var p := Before(was, k);
    if p > 0 { assert Like(was, now, m, p); }
    hide Marked, MarkedBefore, StrongBefore, LinkBefore, Absorbed;
  }

  lemma MarkIs(was: seq<Run>, now: seq<Run>, m: seq<nat>, k: nat, i: nat)
    requires Mirrors(was, now, m, k, i) && k < |was| && i < |now| && now[i].typ.NSM?
    ensures now[i] == was[k] && !Preset(was, k) && Marked(was, k) == MarkedBefore(was, k)
  {
    assert StillIs(was, now, k, i, k);
    hide MarkedBefore;
  }

  lemma MarkJoins(was: seq<Run>, now: seq<Run>, m: seq<nat>, k: nat, i: nat)
    requires Mirrors(was, now, m, k, i) && MarksFollow(was) && k < |was| && i < |now| && now[i] == was[k] && was[k].typ.NSM?
    requires IsList(was) && Before(now, i) < i && Joins(now, i, Before(now, i)) && !Preset(was, k)
    ensures Joined(was, k) && 2 <= k && 2 <= i && Before(now, i) == i - 1 && Before(was, k) == k - 1
    ensures was[k].isolateLevel == was[k - 1].isolateLevel && was[k].level == was[k - 1].level && was[k - 1].pos < was[k].pos
    ensures Marked(was, k) == Marked(was, k - 1)
  {
    BeforeMirrors(was, now, m, k, i);
    var p := Before(was, k);
    assert p > 0;
    assert Like(was, now, m, p);
    assert FollowsBefore(was, k);
    var j := k - 1;
    LinkWithin(was, j, was[k].isolateLevel);
    hide LinkBefore, StrongBefore;
    assert MarkedBefore(was, k) == Marked(was, p);
  }

  /** The run behind the mark joins. */
  lemma NextStep(was: seq<Run>, now: seq<Run>, m: seq<nat>, k: nat, i: nat, taken: seq<Run>, m': seq<nat>, at: nat, strong: map<int, CharType>)
    requires Mirrors(was, now, m, k, i) && k < |was| && i < |now| && now[i].typ.NSM? && IsList(was)
    requires Mirrors(was, taken, m', k + 1, at + 1) && at < |taken| && After(now, i) == i + 1
    requires NextToo(taken, at, TypeBefore(now, i), TypeAfter(now, i), true) && StrongKnown(was, k + 1, strong)
    ensures 1 <= at && k + 1 < |was| && Mirrors(was, Merged(taken, at + 1), m' + [at], k + 2, at + 1) && StrongKnown(was, k + 2, strong)
    ensures k + 2 < |was| ==> !Absorbed(was, k + 2)
  {
    hide Marked, MarkedBefore, Mirrors, Merged, StrongBefore, LinkBefore, LinkAfter, Joined, Absorbed, Preset, StrongKnown, IsList;
    MarkIs(was, now, m, k, i);
    NextIsLevel(was, now, m, k, i, taken, m', at);
    AfterMirrors(was, now, m, k, i);
    BeforeMirrors(was, now, m, k, i);
    NextJoins(was, k);
    NextIsJoined(was, k);
    StrongJoined(was, k, strong);
    StepJoin(was, taken, m', k + 1, at + 1, taken[at + 1].typ);
    assert taken[at + 1 := taken[at + 1].(typ := taken[at + 1].typ)] == taken;
  }

  lemma NextIsJoined(was: seq<Run>, k: nat)
    requires 1 <= k && k + 1 < |was| && was[k].typ.NSM? && !Preset(was, k) && After(was, k) == k + 1 && was[k + 1].level == was[k].level
    requires was[k + 1].typ == MarkedBefore(was, k)
    ensures Joined(was, k + 1) && (k + 2 < |was| ==> !Preset(was, k + 2) && !Absorbed(was, k + 2))
  {
    NoMarkLeft(was, k);
    NextJoins(was, k);
    if was[k + 1].typ.EN? { NumberKept(was, k); }
  }

  /** A run behind the mark that does not join it. */
  lemma NotNext(was: seq<Run>, now: seq<Run>, m: seq<nat>, k: nat, i: nat, taken: seq<Run>, m': seq<nat>, at: nat)
    requires Mirrors(was, now, m, k, i) && k < |was| && i < |now| && now[i].typ.NSM?
    requires Mirrors(was, taken, m', k + 1, at + 1) && at < |taken|
    requires !NextToo(taken, at, TypeBefore(now, i), TypeAfter(now, i), After(now, i) == i + 1)
    ensures k + 1 < |was| ==> !Absorbed(was, k + 1)
  {
    AfterMirrors(was, now, m, k, i);
    BeforeMirrors(was, now, m, k, i);
    if k + 1 < |was| {
      BeforeMirrors(was, taken, m', k + 1, at + 1);
      assert Like(was, taken, m', k);
    }
    hide Marked, MarkedBefore, LinkAfter, LinkBefore, MarkedBracket;
  }

  lemma NextIsLevel(was: seq<Run>, now: seq<Run>, m: seq<nat>, k: nat, i: nat, taken: seq<Run>, m': seq<nat>, at: nat)
    requires Mirrors(was, now, m, k, i) && k < |was| && i < |now| && IsList(was)
    requires Mirrors(was, taken, m', k + 1, at + 1) && at < |taken| && After(now, i) == i + 1
    requires NextToo(taken, at, TypeBefore(now, i), TypeAfter(now, i), true)
    ensures 1 <= at && k + 1 < |was| && at + 1 < |taken| && After(was, k) == k + 1 && was[k + 1].level == was[k].level
    ensures was[k + 1].typ == TypeAfter(now, i) && was[k].pos < was[k + 1].pos
  {
    AfterMirrors(was, now, m, k, i);
    BeforeMirrors(was, now, m, k, i);
    BeforeMirrors(was, taken, m', k + 1, at + 1);
    assert Like(was, taken, m', k);
    hide Marked, LinkAfter, LinkBefore;
  }

  /** Every isolate level met so far has an entry. */
  ghost predicate Known(nodes: seq<Run>, i: nat, strong: map<int, CharType>)
    requires i <= |nodes|
  {
    forall k :: 1 <= k < i ==> nodes[k].isolateLevel in strong
  }

  lemma KnownNext(nodes: seq<Run>, i: nat, strong: map<int, CharType>)
    requires 1 <= i < |nodes| && Known(nodes, i, strong) && (Before(nodes, i) == 0 ==> TypeBefore(nodes, i).IsStrong())
    ensures var t := TypeBefore(nodes, i);
            var next := if t.IsStrong() then strong[nodes[i].isolateLevel := t] else strong;
            nodes[i].isolateLevel in next && Known(nodes, i + 1, next)
  {
    hide LinkBefore;
    var j := i - 1;
    LinkWithin(nodes, j, nodes[i].isolateLevel);
  }

  lemma KnownLess(nodes: seq<Run>, i: nat, strong: map<int, CharType>)
    requires 1 <= i <= |nodes| && Known(nodes, i, strong)
    ensures Known(nodes, i - 1, strong)
  {
  }

  lemma KnownMerged(nodes: seq<Run>, i: nat, strong: map<int, CharType>)
    requires 2 <= i < |nodes| && Known(nodes, i, strong)
    ensures |Merged(nodes, i)| == |nodes| - 1 && Known(Merged(nodes, i), i, strong)
  {
  }

  lemma KnownStart(nodes: seq<Run>, strong: map<int, CharType>)
    requires |nodes| > 0
    ensures Known(nodes, 1, strong)
  {
  }

  /** Sets the type of run i. */
  method Retype(list: RunList, i: nat, t: CharType, ghost strong: map<int, CharType>, ghost n: nat, ghost was: seq<Run>,
                ghost over: seq<Run>, ghost len: nat)
    requires 1 <= i < |list.nodes| && t != Sentinel && Keeps(was, list.nodes, over, len)
    requires n <= |list.nodes| && Known(list.nodes, n, strong)
    modifies list
    ensures |list.nodes| == |old(list.nodes)| && list.nodes == old(list.nodes)[i := old(list.nodes)[i].(typ := t)]
    ensures Keeps(was, list.nodes, over, len) && Known(list.nodes, n, strong)
  {
    hide Keeps;
    RetypeOne(was, list.nodes, over, len, i, t);
    list.nodes := list.nodes[i := list.nodes[i].(typ := t)];
  }

  /** Merges run i, of the same level, with the run before it. */
  method Absorb(list: RunList, i: nat, ghost strong: map<int, CharType>, ghost was: seq<Run>, ghost over: seq<Run>, ghost len: nat)
      returns (at: nat)
    requires 2 <= i < |list.nodes| && list.nodes[i - 1].level == list.nodes[i].level
    requires Keeps(was, list.nodes, over, len) && Known(list.nodes, i, strong)
    modifies list
    ensures at == i - 1 && list.nodes == Merged(old(list.nodes), i) && |list.nodes| == |old(list.nodes)| - 1
    ensures Keeps(was, list.nodes, over, len) && Known(list.nodes, i, strong)
  {
    hide Keeps, Known, Merged;
    KnownMerged(list.nodes, i, strong);
    MergeOne(was, list.nodes, over, len, i);
    at := list.MergeWithPrev(i);
  }

  /** The mark joins the run before it, or takes its type. */
  method TakeType(list: RunList, i: nat, prev: nat, prevType: CharType,
                  ghost strong: map<int, CharType>, ghost was: seq<Run>, ghost over: seq<Run>, ghost len: nat) returns (at: nat)
    requires 1 <= i < |list.nodes| && Keeps(was, list.nodes, over, len) && Known(list.nodes, i + 1, strong)
    requires prev < i && prevType != Sentinel && (Adjacent(list.nodes, prev).level == list.nodes[i].level <==> Joins(list.nodes, i, prev))
    modifies list
    ensures list.nodes == Taken(old(list.nodes), i, prev, prevType) && at == TakenAt(old(list.nodes), i, prev)
    ensures 1 <= at < |list.nodes| && |list.nodes| - at == |old(list.nodes)| - i
    ensures Keeps(was, list.nodes, over, len) && Known(list.nodes, at + 1, strong)
  {
    hide Keeps, Known, Merged;
    at := i;
    var joins := Adjacent(list.nodes, prev).level == list.nodes[i].level;
    if list.nodes[i - 1].typ.IsIsolate() {
      Retype(list, i, ON, strong, i + 1, was, over, len);
    }
    if !joins {
      Retype(list, i, prevType, strong, i + 1, was, over, len);
    } else if prev == i - 1 {
      KnownLess(list.nodes, i + 1, strong);
      at := Absorb(list, i, strong, was, over, len);
    }
  }

  /** W1.  A run behind the mark, of the type before it, joins too. */
  method ResolveMark(list: RunList, i: nat, prev: nat, next: nat, prevType: CharType, nextType: CharType,
                     ghost strong: map<int, CharType>, ghost was: seq<Run>, ghost over: seq<Run>, ghost len: nat) returns (at: nat)
    requires 1 <= i < |list.nodes| && Keeps(was, list.nodes, over, len) && Known(list.nodes, i + 1, strong)
    requires prev < i && prevType != Sentinel && (Adjacent(list.nodes, prev).level == list.nodes[i].level <==> Joins(list.nodes, i, prev))
    modifies list
    ensures 1 <= at < |list.nodes| && |list.nodes| - at <= |old(list.nodes)| - i
    ensures Keeps(was, list.nodes, over, len) && Known(list.nodes, at + 1, strong)
    ensures var taken, a := Taken(old(list.nodes), i, prev, prevType), TakenAt(old(list.nodes), i, prev);
            && at == a < |taken|
            && (if NextToo(taken, a, prevType, nextType, next == i + 1) then a >= 1 && list.nodes == Merged(taken, a + 1)
                else list.nodes == taken)
  {
    hide Keeps, Known, Merged, Adjacent, Taken, TakenAt;
    at := TakeType(list, i, prev, prevType, strong, was, over, len);
    if prevType == nextType && list.nodes[at].level == NextRun(list.nodes, at).level {
      if next == i + 1 && at + 1 < |list.nodes| {
        at := Absorb(list, at + 1, strong, was, over, len);
      }
    }
  }

  /** What the loop keeps of the rules, where marks follow the runs before them. */
  ghost predicate Follows(was: seq<Run>, now: seq<Run>, m: seq<nat>, k: nat, i: nat, strong: map<int, CharType>) {
    MarksFollow(was) ==> Mirrors(was, now, m, k, i) && StrongKnown(was, k, strong) && (k < |was| ==> !Absorbed(was, k))
  }

  lemma FollowsStarts(was: seq<Run>, strong: map<int, CharType>)
    requires |was| > 0
    ensures Follows(was, was, [0], 1, 1, strong)
  {
    MirrorStarts(was);
    StrongStarts(was, strong);
  }

  /** The type that W2 looks back to is the one of the rules. */
  lemma FollowsStrong(was: seq<Run>, now: seq<Run>, m: seq<nat>, k: nat, i: nat, strong: map<int, CharType>)
    requires Follows(was, now, m, k, i, strong) && 1 <= i < |now| && (Before(now, i) == 0 ==> TypeBefore(now, i).IsStrong())
    ensures MarksFollow(was) ==>
              var t := TypeBefore(now, i);
              var next := if t.IsStrong() then strong[now[i].isolateLevel := t] else strong;
              k < |was| && now[i].isolateLevel in next && next[now[i].isolateLevel] == StrongBefore(was, k) && StrongKnown(was, k + 1, next)
  {
    if MarksFollow(was) {
      hide MarksFollow, StrongKnown, LinkBefore, StrongBefore;
      assert k < |was| by { MirrorCount(was, now, m, k, i); }
      BeforeMirrors(was, now, m, k, i);
      StrongNext(was, k, strong);
    }
  }

  lemma MirrorCount(was: seq<Run>, now: seq<Run>, m: seq<nat>, k: nat, i: nat)
    requires Mirrors(was, now, m, k, i)
    ensures i < |now| <==> k < |was|
  {
  }

  /** W1 and W2.  Where every mark follows the run before it, each character has the type that the rules, one
      after the other, give it; m tells which run each run has become part of.  The result holds, for each isolate
      level that was met, the last strong type. */
  method ResolveMarks(list: RunList, baseDir: CharType, ghost over: seq<Run>, ghost len: nat)
      returns (lastStrong: array<CharType>, ghost m: seq<nat>)
    requires Levelled(list.nodes, over, len)
    modifies list
    ensures fresh(lastStrong) && lastStrong.Length == MAX_RESOLVED_LEVELS
    ensures Keeps(old(list.nodes), list.nodes, over, len)
    ensures MarksFollow(old(list.nodes)) ==> MarksResolved(old(list.nodes), list.nodes)
    ensures MarksFollow(old(list.nodes)) ==> Mirrors(old(list.nodes), list.nodes, m, |old(list.nodes)|, |list.nodes|)
  {
    hide Levelled, LevelsKept, TypeBefore, TypeAfter, Known, Follows, MarksFollow, Before, After, Taken, TakenAt, Merged, Adjacent, IsList, Joins,
         NextToo, StrongBefore, MarksResolved, Mirrors;
    ghost var was := list.nodes;
    LevelledList(was, over, len);
    lastStrong := new CharType[MAX_RESOLVED_LEVELS](_ => baseDir);
    ghost var strong := map[0 := baseDir];
    var i := 1;
    ghost var k := 1;
    m := [0];
    KeepsStart(list.nodes, over, len);
    KnownStart(list.nodes, strong);
    FollowsStarts(was, strong);
    while i < |list.nodes|
      invariant 1 <= i <= |list.nodes| && Keeps(was, list.nodes, over, len) && Known(list.nodes, i, strong)
      invariant Follows(was, list.nodes, m, k, i, strong) && Backed(lastStrong, strong)
      decreases |list.nodes| - i
    {
      ghost var now := list.nodes;
      var prev, next := Before(list.nodes, i), After(list.nodes, i);
      var thisType := list.nodes[i].typ;
      var isoLevel := list.nodes[i].isolateLevel;
      var prevType := TypeBefore(list.nodes, i);
      var nextType := TypeAfter(list.nodes, i);
      BesideIsReal(now, over, len, i);
      KnownNext(now, i, strong);
      FollowsStrong(was, now, m, k, i, strong);
      NoSentinelInside(now, over, len);
      ghost var before := strong;
      if prevType.IsStrong() {
        lastStrong[isoLevel] := prevType;
        strong := strong[isoLevel := prevType];
      }
      if thisType.NSM? {
        JoinsIs(now, over, len, i, prev);
        var at := ResolveMark(list, i, prev, next, prevType, nextType, strong, was, over, len);
        m, k := FollowsMark(was, now, m, k, i, before, strong, over, len, list.nodes);
        i := at;
      } else {
        var al := lastStrong[isoLevel].AL?;
        if thisType.EN? && al {
          Retype(list, i, AN, strong, i + 1, was, over, len);
          if nextType.NSM? {
            Retype(list, next, AN, strong, i + 1, was, over, len);
          }
        }
        FollowsPlain(was, now, m, k, i, before, strong, al, list.nodes);
        m, k := m + [i], k + 1;
      }
      i := i + 1;
    }
    FollowsEnds(was, list.nodes, m, k, i, strong, over, len);
  }

  lemma LevelledList(nodes: seq<Run>, over: seq<Run>, len: nat)
    requires Levelled(nodes, over, len)
    ensures IsList(nodes)
  {
    FitsIsList(nodes, over, len);
  }

  lemma JoinsIs(nodes: seq<Run>, over: seq<Run>, len: nat, i: nat, prev: nat)
    requires Levelled(nodes, over, len) && 1 <= i < |nodes| && prev < i
    ensures Adjacent(nodes, prev).level == nodes[i].level <==> Joins(nodes, i, prev)
  {
    NoSentinelInside(nodes, over, len);
  }

  lemma FollowsPlain(was: seq<Run>, now: seq<Run>, m: seq<nat>, k: nat, i: nat, before: map<int, CharType>, strong: map<int, CharType>,
                     al: bool, after: seq<Run>)
    requires Follows(was, now, m, k, i, before) && 1 <= i < |now| && !now[i].typ.NSM?
    requires MarksFollow(was) ==> k < |was| && al == StrongBefore(was, k).AL? && StrongKnown(was, k + 1, strong)
    requires After(now, i) == 0 || i < After(now, i) < |now|
    requires TypeAfter(now, i).NSM? ==> After(now, i) > 0
    requires after == if !(now[i].typ.EN? && al) then now
                      else if TypeAfter(now, i).NSM? then
                        now[i := now[i].(typ := AN)][After(now, i) := now[i := now[i].(typ := AN)][After(now, i)].(typ := AN)]
                      else now[i := now[i].(typ := AN)]
    ensures Follows(was, after, m + [i], k + 1, i + 1, strong)
  {
    hide Mirrors, StrongKnown, TypeAfter, After, StrongBefore, Absorbed;
    if MarksFollow(was) {
      PlainStep(was, now, m, k, i, al, after);
    }
  }

  lemma FollowsMark(was: seq<Run>, now: seq<Run>, m: seq<nat>, k: nat, i: nat, before: map<int, CharType>, strong: map<int, CharType>,
                    over: seq<Run>, len: nat, after: seq<Run>) returns (m': seq<nat>, k': nat)
    requires Follows(was, now, m, k, i, before) && 1 <= i < |now| && now[i].typ.NSM? && Before(now, i) < i
    requires MarksFollow(was) ==> k < |was| && StrongKnown(was, k + 1, strong)
    requires |was| > 0 && IsList(was)
    requires var prev, prevType := Before(now, i), TypeBefore(now, i);
             var taken, a := Taken(now, i, prev, prevType), TakenAt(now, i, prev);
             a < |taken| &&
             (if NextToo(taken, a, prevType, TypeAfter(now, i), After(now, i) == i + 1) then a >= 1 && after == Merged(taken, a + 1)
              else after == taken)
    ensures Follows(was, after, m', k', TakenAt(now, i, Before(now, i)) + 1, strong)
  {
    hide Mirrors, StrongKnown, TypeAfter, TypeBefore, Before, After, Taken, TakenAt, Merged, Absorbed;
    m', k' := m, k;
    if MarksFollow(was) {
      var prev, prevType := Before(now, i), TypeBefore(now, i);
      var taken, a := Taken(now, i, prev, prevType), TakenAt(now, i, prev);
      m' := MarkStep(was, now, m, k, i);
      k' := k + 1;
      if NextToo(taken, a, prevType, TypeAfter(now, i), After(now, i) == i + 1) {
        NextStep(was, now, m, k, i, taken, m', a, strong);
        m', k' := m' + [a], k + 2;
      } else {
        NotNext(was, now, m, k, i, taken, m', a);
      }
    }
  }

  lemma FollowsEnds(was: seq<Run>, now: seq<Run>, m: seq<nat>, k: nat, i: nat, strong: map<int, CharType>, over: seq<Run>, len: nat)
    requires Follows(was, now, m, k, i, strong) && i == |now| && IsList(was) && Levelled(now, over, len)
    ensures MarksFollow(was) ==> MarksResolved(was, now) && Mirrors(was, now, m, |was|, |now|)
  {
    if MarksFollow(was) {
      FitsIsList(now, over, len);
      assert k == |was|;
      MirrorEnds(was, now, m);
    }
  }
}
