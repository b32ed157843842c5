/** Arabic cursive joining, 3rd/fribidi/fribidi-joining.c: one pass over the properties, in place.
    The specification says of each character what becomes of it, from the characters beside it alone. */
module Joining {
  import opened BidiTypes

  /** FriBidiArabicProp, bit by bit. */
  datatype Prop = Prop(right: bool, left: bool, shapes: bool, transparent: bool, ignored: bool, ligatured: bool) {
    predicate Skipped() { transparent || ignored }
    predicate TypeG() { ignored && !transparent }

    predicate Joins(side: Side) { if side.Right? then right else left }

    function With(side: Side, b: bool): Prop {
      if side.Right? then this.(right := b) else this.(left := b)
    }
  }

  datatype Side = Right | Left

  /** FRIBIDI_JOINS_PRECEDING_MASK; a level of -1 counts as right-to-left. */
  function Preceding(level: int): Side { if LevelIsRtl(level) then Right else Left }

  /** FRIBIDI_JOINS_FOLLOWING_MASK */
  function Following(level: int): Side { if LevelIsRtl(level) then Left else Right }

  // ---------------------------------------------------------------- specification

  /** FRIBIDI_CONSISTENT_LEVEL of every character. */
  function ConsistentLevels(types: seq<CharType>, levels: seq<int>): (r: seq<int>)
    requires |types| <= |levels|
    ensures |r| == |types|
    ensures forall i :: 0 <= i < |r| ==> r[i] == if types[i].IsExplicitOrBn() then SENTINEL_LEVEL else levels[i]
  {
    seq(|types|, i requires 0 <= i < |types| => if types[i].IsExplicitOrBn() then SENTINEL_LEVEL else levels[i])
  }

  /** FRIBIDI_LEVELS_MATCH */
  predicate Match(a: int, b: int) { a == b || a == SENTINEL_LEVEL || b == SENTINEL_LEVEL }

  /** The nearest character before i that takes part in joining, or -1. */
  function Prev(props: seq<Prop>, i: nat): (p: int)
    requires i <= |props|
    ensures -1 <= p < i && (p >= 0 ==> !props[p].Skipped()) && forall k :: p < k < i ==> props[k].Skipped()
    decreases i
  {
    if i == 0 then -1 else if !props[i - 1].Skipped() then i - 1 else Prev(props, i - 1)
  }

  /** The nearest one from i on, or the length. */
  function Next(props: seq<Prop>, i: nat): (p: nat)
    requires i <= |props|
    ensures i <= p <= |props| && (p < |props| ==> !props[p].Skipped()) && forall k :: i <= k < p ==> props[k].Skipped()
    decreases |props| - i
  {
    if i == |props| || !props[i].Skipped() then i else Next(props, i + 1)
  }

  /** No character after a, up to n, has a level that does not match; ignored ones do not count. */
  predicate Unbroken(props: seq<Prop>, levels: seq<int>, a: int, n: int)
    requires |levels| == |props| && 0 <= a < |props| && n <= |props|
  {
    forall k :: a < k < n && !props[k].TypeG() ==> Match(levels[a], levels[k])
  }

  /** a joins b: both can, and no level mismatch occurs at b or between them. */
  predicate Linked(props: seq<Prop>, levels: seq<int>, a: int, b: int)
    requires |levels| == |props| && -1 <= a < b <= |props|
  {
    && 0 <= a && b < |props|
    && props[a].Joins(Following(levels[a])) && props[b].Joins(Preceding(levels[b]))
    && Unbroken(props, levels, a, b + 1)
  }

  /** A skipped character between two that join gets their bits. */
  function Span(p: Prop, before: int, after: int): Prop {
    p.With(Preceding(after), true).With(Following(before), true)
  }

  /** A character keeps the joins it makes; one that does not shape keeps all it has. */
  function Cut(p: Prop, level: int, before: bool, after: bool): Prop {
    if !p.shapes then p
    else p.With(Preceding(level), p.Joins(Preceding(level)) && before).With(Following(level), p.Joins(Following(level)) && after)
  }

  /** What the pass makes of character i. */
  function Joined(props: seq<Prop>, levels: seq<int>, i: nat): Prop
    requires |levels| == |props| && i < |props|
  {
    var p, before, after := props[i], Prev(props, i), Next(props, i + 1);
    if !p.Skipped() then Cut(p, levels[i], Linked(props, levels, before, i), Linked(props, levels, i, after))
    else if Linked(props, levels, before, after) then Span(p, levels[before], levels[after])
    else p
  }

  lemma JoinedFlags(props: seq<Prop>, levels: seq<int>, i: nat)
    requires |levels| == |props| && i < |props|
    ensures var r, p := Joined(props, levels, i), props[i];
            r.transparent == p.transparent && r.ignored == p.ignored && r.shapes == p.shapes && r.ligatured == p.ligatured
  {
    hide Linked, Prev, Next;
  }

  function AllJoined(props: seq<Prop>, levels: seq<int>): (r: seq<Prop>)
    requires |levels| == |props|
    ensures |r| == |props| && forall i :: 0 <= i < |r| ==> r[i] == Joined(props, levels, i)
  {
    seq(|props|, i requires 0 <= i < |props| => Joined(props, levels, i))
  }

  // ---------------------------------------------------------------- properties

  /** Of two neighbours that shape, the first keeps its following join just where the second keeps its
      preceding one: where both had them and no level came between. */
  lemma JoinsAreMutual(props: seq<Prop>, levels: seq<int>, a: nat, b: nat)
    requires |levels| == |props| && a < b < |props| && Next(props, a + 1) == b
    requires !props[a].Skipped() && !props[b].Skipped() && props[a].shapes && props[b].shapes
    ensures var r := AllJoined(props, levels);
            && (r[a].Joins(Following(levels[a])) <==> Linked(props, levels, a, b))
            && (r[b].Joins(Preceding(levels[b])) <==> Linked(props, levels, a, b))
  {
    FollowingIs(props, levels, a, b);
    PrecedingIs(props, levels, a, b);
  }

  /** At the edges of the text nothing joins outwards. */
  lemma EdgesDoNotJoin(props: seq<Prop>, levels: seq<int>, i: nat)
    requires |levels| == |props| && i < |props| && !props[i].Skipped() && props[i].shapes
    ensures Prev(props, i) == -1 ==> !AllJoined(props, levels)[i].Joins(Preceding(levels[i]))
    ensures Next(props, i + 1) == |props| ==> !AllJoined(props, levels)[i].Joins(Following(levels[i]))
  {
  }

  lemma {:induction false} PrevIs(props: seq<Prop>, i: nat, a: int)
    requires i <= |props| && -1 <= a < i && (a >= 0 ==> !props[a].Skipped()) && forall k :: a < k < i ==> props[k].Skipped()
    ensures Prev(props, i) == a
  {
  }

  lemma {:induction false} NextIs(props: seq<Prop>, i: nat, b: nat)
    requires i <= b <= |props| && (b < |props| ==> !props[b].Skipped()) && forall k :: i <= k < b ==> props[k].Skipped()
    ensures Next(props, i) == b
  {
  }

  /** A second pass changes nothing. */
  lemma JoiningIsIdempotent(props: seq<Prop>, levels: seq<int>)
    requires |levels| == |props|
    ensures AllJoined(AllJoined(props, levels), levels) == AllJoined(props, levels)
  {
    hide Joined, Linked;
    var r := AllJoined(props, levels);
    forall i | 0 <= i < |r|
      ensures Joined(r, levels, i) == r[i]
    {
      SkippedStay(props, levels);
      PrevIs(r, i, Prev(props, i));
      NextIs(r, i + 1, Next(props, i + 1));
      if props[i].Skipped() {
        LinkStays(props, levels, Prev(props, i), Next(props, i + 1));
      } else {
        LinkStays(props, levels, Prev(props, i), i);
        LinkStays(props, levels, i, Next(props, i + 1));
      }
      JoinedTwice(props, r, levels, i);
    }
  }

  lemma JoinedTwice(props: seq<Prop>, r: seq<Prop>, levels: seq<int>, i: nat)
    requires |levels| == |props| == |r| && i < |r| && r[i] == Joined(props, levels, i)
    requires Prev(r, i) == Prev(props, i) && Next(r, i + 1) == Next(props, i + 1)
    requires if props[i].Skipped() then
               Linked(r, levels, Prev(props, i), Next(props, i + 1)) == Linked(props, levels, Prev(props, i), Next(props, i + 1))
             else
               Linked(r, levels, Prev(props, i), i) == Linked(props, levels, Prev(props, i), i)
               && Linked(r, levels, i, Next(props, i + 1)) == Linked(props, levels, i, Next(props, i + 1))
    ensures Joined(r, levels, i) == r[i]
  {
    hide Prev, Next;
    JoinedFlags(props, levels, i);
    if props[i].Skipped() { assert 0 <= Prev(props, i) || !Linked(props, levels, Prev(props, i), Next(props, i + 1)); }
    hide Linked;
  }

  lemma SkippedStay(props: seq<Prop>, levels: seq<int>)
    requires |levels| == |props|
    ensures var r := AllJoined(props, levels);
            forall k :: 0 <= k < |props| ==>
              r[k].transparent == props[k].transparent && r[k].ignored == props[k].ignored && r[k].shapes == props[k].shapes
  {
    hide Joined;
    forall k | 0 <= k < |props|
      ensures var r, p := AllJoined(props, levels)[k], props[k];
              r.transparent == p.transparent && r.ignored == p.ignored && r.shapes == p.shapes
    {
      JoinedFlags(props, levels, k);
    }
  }

  lemma LinkStays(props: seq<Prop>, levels: seq<int>, a: int, b: int)
    requires |levels| == |props| && -1 <= a < b <= |props|
    requires (a >= 0 ==> !props[a].Skipped()) && (b < |props| ==> !props[b].Skipped())
    requires forall k :: a < k < b ==> props[k].Skipped()
    ensures Linked(AllJoined(props, levels), levels, a, b) <==> Linked(props, levels, a, b)
  {
    hide Joined, AllJoined, Unbroken;
    var r := AllJoined(props, levels);
    SkippedStay(props, levels);
    if 0 <= a && b < |props| {
      assert Unbroken(r, levels, a, b + 1) <==> Unbroken(props, levels, a, b + 1) by { UnbrokenStays(props, r, levels, a, b + 1); }
      FollowingIs(props, levels, a, b);
      PrecedingIs(props, levels, a, b);
    }
  }

  lemma UnbrokenStays(props: seq<Prop>, r: seq<Prop>, levels: seq<int>, a: int, n: int)
    requires |levels| == |props| == |r| && 0 <= a < |props| && n <= |props|
    requires forall k :: 0 <= k < |props| ==> r[k].transparent == props[k].transparent && r[k].ignored == props[k].ignored
    ensures Unbroken(r, levels, a, n) <==> Unbroken(props, levels, a, n)
  {
  }

  lemma FollowingIs(props: seq<Prop>, levels: seq<int>, a: nat, b: nat)
    requires |levels| == |props| && a < b < |props| && !props[a].Skipped() && !props[b].Skipped()
    requires forall k :: a < k < b ==> props[k].Skipped()
    ensures var side := Following(levels[a]);
            AllJoined(props, levels)[a].Joins(side) <==>
              props[a].Joins(side) && (!props[a].shapes || Linked(props, levels, a, b))
  {
    NextIs(props, a + 1, b);
    hide Linked, Prev, Next;
  }

  lemma PrecedingIs(props: seq<Prop>, levels: seq<int>, a: nat, b: nat)
    requires |levels| == |props| && a < b < |props| && !props[a].Skipped() && !props[b].Skipped()
    requires forall k :: a < k < b ==> props[k].Skipped()
    ensures var side := Preceding(levels[b]);
            AllJoined(props, levels)[b].Joins(side) <==>
              props[b].Joins(side) && (!props[b].shapes || Linked(props, levels, a, b))
  {
    PrevIs(props, b, a);
    hide Linked, Prev, Next;
  }

  // ---------------------------------------------------------------- the pass

  /** What the loop keeps: saved is the last character before n that takes part, or -1 if there is none;
      it still has its following join if no level came after it that does not match. */
  ghost predicate Passed(was: seq<Prop>, now: seq<Prop>, levels: seq<int>, n: nat, saved: int, joins: bool)
    requires |levels| == |was| && n <= |was|
  {
    && |now| == |was| && saved == Prev(was, n)
    && (forall k :: 0 <= k < saved ==> now[k] == Joined(was, levels, k))
    && (forall k :: saved < k < |was| ==> now[k] == was[k])
    && (if saved < 0 then !joins else Pending(was, now[saved], levels, n, saved, joins))
  }

  ghost predicate Pending(was: seq<Prop>, p: Prop, levels: seq<int>, n: nat, saved: nat, joins: bool)
    requires |levels| == |was| && n <= |was| && saved < |was|
  {
    && joins == (was[saved].Joins(Following(levels[saved])) && Unbroken(was, levels, saved, n))
    && p == Cut(was[saved], levels[saved], Linked(was, levels, Prev(was, saved), saved), Unbroken(was, levels, saved, n))
  }

  lemma PassedStart(was: seq<Prop>, levels: seq<int>)
    requires |levels| == |was|
    ensures Passed(was, was, levels, 0, -1, false)
  {
  }

  lemma UnbrokenNext(props: seq<Prop>, levels: seq<int>, a: int, n: nat)
    requires |levels| == |props| && 0 <= a < n < |props|
    ensures Unbroken(props, levels, a, n + 1) <==>
              Unbroken(props, levels, a, n) && (props[n].TypeG() || Match(levels[a], levels[n]))
  {
  }

  /** The following join of saved is given up. */
  function Released(now: seq<Prop>, levels: seq<int>, saved: nat): seq<Prop>
    requires saved < |now| <= |levels|
  {
    if now[saved].shapes then now[saved := now[saved].With(Following(levels[saved]), false)] else now
  }

  lemma CutAgain(p: Prop, level: int, before: bool, after: bool)
    ensures var c := Cut(p, level, before, after);
            (if c.shapes then c.With(Following(level), false) else c) == Cut(p, level, before, false)
    ensures !p.Joins(Following(level)) ==> Cut(p, level, before, after) == Cut(p, level, before, false)
  {
  }

  /** A skipped character: ignored, or one whose level may break the join. */
  lemma PassedSkipped(was: seq<Prop>, now: seq<Prop>, levels: seq<int>, n: nat, saved: int, joins: bool)
    requires |levels| == |was| && n < |was| && Passed(was, now, levels, n, saved, joins) && was[n].Skipped()
    ensures now[n] == was[n]
    ensures var breaks := joins && !was[n].TypeG() && !Match(levels[saved], levels[n]);
            Passed(was, if breaks then Released(now, levels, saved) else now, levels, n + 1, saved, joins && !breaks)
  {
    hide Joined, Linked, Cut;
    if saved >= 0 {
      hide Unbroken;
      UnbrokenNext(was, levels, saved, n);
      CutAgain(was[saved], levels[saved], Linked(was, levels, Prev(was, saved), saved), Unbroken(was, levels, saved, n));
    }
  }

  /** n joins the character before it. */
  predicate JoinsHere(was: seq<Prop>, levels: seq<int>, n: nat, saved: int, joins: bool)
    requires |levels| == |was| && n < |was| && (joins ==> 0 <= saved < |was|)
  {
    joins && Match(levels[saved], levels[n]) && was[n].Joins(Preceding(levels[n]))
  }

  /** What a character n that takes part does to character k. */
  function Settle(was: seq<Prop>, now: seq<Prop>, levels: seq<int>, n: nat, saved: int, joins: bool, k: nat): Prop
    requires |levels| == |was| == |now| && n < |was| && -1 <= saved < n && (joins ==> 0 <= saved) && k < |was|
  {
    if k == n then
      (if was[n].shapes && !(joins && Match(levels[saved], levels[n])) then was[n].With(Preceding(levels[n]), false) else was[n])
    else if JoinsHere(was, levels, n, saved, joins) then
      (if saved < k < n then Span(now[k], levels[saved], levels[n]) else now[k])
    else if k == saved && joins then Released(now, levels, saved)[saved]
    else now[k]
  }

  /** A character that takes part: it settles saved and what is between, and becomes the saved one. */
  lemma PassedBase(was: seq<Prop>, now: seq<Prop>, levels: seq<int>, n: nat, saved: int, joins: bool, next: seq<Prop>)
    requires |levels| == |was| && n < |was| && Passed(was, now, levels, n, saved, joins) && !was[n].Skipped()
    requires |next| == |was| && forall k :: 0 <= k < |was| ==> next[k] == Settle(was, now, levels, n, saved, joins, k)
    ensures Passed(was, next, levels, n + 1, n, was[n].Joins(Following(levels[n])))
  {
    hide Unbroken, Linked;
    var linked := JoinsHere(was, levels, n, saved, joins);
    assert linked <==> Linked(was, levels, saved, n) by { LinkedHere(was, now, levels, n, saved, joins); }
    forall k | 0 <= k < n
      ensures next[k] == Joined(was, levels, k)
    {
      if k == saved {
        SavedSettled(was, now, levels, n, saved, joins);
      } else if saved < k {
        PrevIs(was, k, saved);
        NextIs(was, k + 1, n);
      }
    }
    UnbrokenHere(was, levels, n);
    BasePending(was, next[n], levels, n, saved, joins);
  }

  lemma LinkedHere(was: seq<Prop>, now: seq<Prop>, levels: seq<int>, n: nat, saved: int, joins: bool)
    requires |levels| == |was| && n < |was| && Passed(was, now, levels, n, saved, joins) && !was[n].Skipped()
    ensures JoinsHere(was, levels, n, saved, joins) <==> Linked(was, levels, saved, n)
  {
    hide Joined, Unbroken, Cut;
    if saved >= 0 { UnbrokenNext(was, levels, saved, n); }
  }

  lemma UnbrokenHere(was: seq<Prop>, levels: seq<int>, n: nat)
    requires |levels| == |was| && n < |was|
    ensures Unbroken(was, levels, n, n + 1)
  {
  }

  lemma SavedSettled(was: seq<Prop>, now: seq<Prop>, levels: seq<int>, n: nat, saved: nat, joins: bool)
    requires |levels| == |was| && n < |was| && Passed(was, now, levels, n, saved, joins) && !was[n].Skipped()
    ensures now[saved].shapes == was[saved].shapes
    ensures Joined(was, levels, saved) ==
              if joins && !Linked(was, levels, saved, n) then Released(now, levels, saved)[saved] else now[saved]
  {
    hide Unbroken;
    NextIs(was, saved + 1, n);
    var before, whole := Linked(was, levels, Prev(was, saved), saved), Unbroken(was, levels, saved, n);
    CutAgain(was[saved], levels[saved], before, whole);
    UnbrokenNext(was, levels, saved, n);
    assert Pending(was, now[saved], levels, n, saved, joins);
  }

  lemma BasePending(was: seq<Prop>, p: Prop, levels: seq<int>, n: nat, saved: int, joins: bool)
    requires |levels| == |was| && n < |was| && saved == Prev(was, n) && Unbroken(was, levels, n, n + 1)
    requires joins ==> saved >= 0
    requires Linked(was, levels, saved, n) <==> joins && Match(levels[saved], levels[n]) && was[n].Joins(Preceding(levels[n]))
    requires p == if was[n].shapes && !(joins && Match(levels[saved], levels[n])) then was[n].With(Preceding(levels[n]), false) else was[n]
    ensures Pending(was, p, levels, n + 1, n, was[n].Joins(Following(levels[n])))
  {
    hide Unbroken, Linked;
  }

  /** The end of the text. */
  lemma PassedEnd(was: seq<Prop>, now: seq<Prop>, levels: seq<int>, saved: int, joins: bool)
    requires |levels| == |was| && Passed(was, now, levels, |was|, saved, joins)
    ensures (if joins then Released(now, levels, saved) else now) == AllJoined(was, levels)
  {
    hide Unbroken, Linked, Cut, Span;
    var end := if joins then Released(now, levels, saved) else now;
    forall k | 0 <= k < |was|
      ensures end[k] == Joined(was, levels, k)
    {
      if k == saved {
        SavedAtEnd(was, now, levels, saved, joins);
      } else if saved < k {
        NextIs(was, k + 1, |was|);
        EndNotLinked(was, levels, Prev(was, k));
      }
    }
  }

  lemma SavedAtEnd(was: seq<Prop>, now: seq<Prop>, levels: seq<int>, saved: nat, joins: bool)
    requires |levels| == |was| && Passed(was, now, levels, |was|, saved, joins)
    ensures (if joins then Released(now, levels, saved) else now)[saved] == Joined(was, levels, saved)
  {
    hide Unbroken, Linked;
    assert Pending(was, now[saved], levels, |was|, saved, joins);
    NextIs(was, saved + 1, |was|);
    CutAgain(was[saved], levels[saved], Linked(was, levels, Prev(was, saved), saved), Unbroken(was, levels, saved, |was|));
    EndNotLinked(was, levels, saved);
  }

  lemma EndNotLinked(was: seq<Prop>, levels: seq<int>, a: int)
    requires |levels| == |was| && -1 <= a < |was|
    ensures !Linked(was, levels, a, |was|)
  {
  }

  /** fribidi_join_arabic */
  method JoinArabic(types: seq<CharType>, levels: seq<int>, arProps: array<Prop>)
    requires |types| == |levels| == arProps.Length
    modifies arProps
    ensures arProps[..] == AllJoined(old(arProps[..]), ConsistentLevels(types, levels))
  {
    hide Passed, Joined, Linked, Unbroken, Prev, Next, Match, AllJoined;
    var len := |types|;
    ghost var was, cl := arProps[..], ConsistentLevels(types, levels);
    var saved, savedLevel, savedShapes, joins := -1, SENTINEL_LEVEL, false, false;
    var i := 0;
    PassedStart(was, cl);
    while i < len
      invariant 0 <= i <= len && Passed(was, arProps[..], cl, i, saved, joins)
      invariant -1 <= saved < i && (saved >= 0 ==> savedLevel == cl[saved] && savedShapes == arProps[saved].shapes)
      invariant joins ==> saved >= 0
    {
      ghost var now := arProps[..];
      NowIs(was, now, cl, i, saved, joins);
      if !arProps[i].TypeG() {
        var level := if types[i].IsExplicitOrBn() then SENTINEL_LEVEL else levels[i];
        saved, savedLevel, savedShapes, joins := JoinNext(arProps, was, cl, i, level, saved, savedLevel, savedShapes, joins);
      } else {
        PassedSkipped(was, now, cl, i, saved, joins);
      }
      i := i + 1;
    }
    PassedEnd(was, arProps[..], cl, saved, joins);
    if joins && savedShapes {
      arProps[saved] := arProps[saved].With(Following(savedLevel), false);
    }
  }

  lemma NowIs(was: seq<Prop>, now: seq<Prop>, levels: seq<int>, n: nat, saved: int, joins: bool)
    requires |levels| == |was| && n < |was| && Passed(was, now, levels, n, saved, joins)
    ensures |now| == |was| && now[n] == was[n]
  {
    hide Joined;
  }

  lemma SidesApart(p: Prop, level: int)
    ensures p.With(Preceding(level), false).Joins(Following(level)) == p.Joins(Following(level))
  {
  }

  /** The body of the loop. */
  method JoinNext(arProps: array<Prop>, ghost was: seq<Prop>, ghost cl: seq<int>, i: nat, level: int,
                  saved: int, savedLevel: int, savedShapes: bool, joins: bool)
      returns (saved': int, savedLevel': int, savedShapes': bool, joins': bool)
    requires |was| == |cl| == arProps.Length && i < |was| && arProps[i] == was[i] && level == cl[i] && !was[i].TypeG()
    requires Passed(was, arProps[..], cl, i, saved, joins)
    requires -1 <= saved < i && (saved >= 0 ==> savedLevel == cl[saved] && savedShapes == arProps[saved].shapes)
    requires joins ==> saved >= 0
    modifies arProps
    ensures Passed(was, arProps[..], cl, i + 1, saved', joins')
    ensures -1 <= saved' < i + 1 && (saved' >= 0 ==> savedLevel' == cl[saved'] && savedShapes' == arProps[saved'].shapes)
    ensures joins' ==> saved' >= 0
  {
    hide Passed, Joined, Linked, Unbroken, Prev, Next, Match, Preceding, Following;
    ghost var now := arProps[..];
    saved', savedLevel', savedShapes', joins' := saved, savedLevel, savedShapes, joins;
    var shapes := arProps[i].shapes;
    var disjoin := false;
    if joins && !Match(savedLevel, level) {
      disjoin := true;
      joins' := false;
    }
    if arProps[i].Skipped() {
      PassedSkipped(was, now, cl, i, saved, joins);
      if disjoin && savedShapes {
        arProps[saved] := arProps[saved].With(Following(savedLevel), false);
      }
      assert arProps[..] == if disjoin then Released(now, cl, saved) else now;
      return;
    }
    var preceding := Preceding(level);
    if !joins' {
      if shapes {
        arProps[i] := arProps[i].With(preceding, false);
      }
    } else if !arProps[i].Joins(preceding) {
      disjoin := true;
    } else {
      var j := saved + 1;
      while j < i
        invariant saved < j <= i
        invariant forall k :: 0 <= k < arProps.Length ==>
                    arProps[k] == if saved < k < j then Span(now[k], savedLevel, level) else now[k]
      {
        arProps[j] := arProps[j].With(preceding, true).With(Following(savedLevel), true);
        j := j + 1;
      }
    }
    if disjoin && savedShapes {
      arProps[saved] := arProps[saved].With(Following(savedLevel), false);
    }
    PassedBase(was, now, cl, i, saved, joins, arProps[..]);
    SidesApart(was[i], level);
    saved', savedLevel', savedShapes' := i, level, shapes;
    joins' := arProps[i].Joins(Following(level));
  }
}
