/** Arabic cursive joining (section 8.2 of the Unicode Standard, as 3rd/fribidi/fribidi-joining.c numbers it): which letters
    join, and what becomes of the characters between them, without a pass over the text. */
module JoiningRules {
  import opened BidiTypes
  import opened Joining

  /** The level that counts; codes and boundary neutrals have none of their own, written -1, which fits all others. */
  function LevelOf(types: seq<CharType>, levels: seq<int>, k: int): int
    requires 0 <= k < |types| <= |levels|
  {
    if types[k] in {LRE, RLE, LRO, RLO, PDF, BN} then -1 else levels[k]
  }

  /** An odd level runs from right to left, and so does -1. */
  predicate RightToLeft(level: int) { level % 2 != 0 }

  /** The character before is on the right in right-to-left text, on the left in left-to-right text. */
  predicate JoinsBack(p: Prop, level: int) { if RightToLeft(level) then p.right else p.left }

  /** The one behind is on the other side. */
  predicate JoinsOn(p: Prop, level: int) { if RightToLeft(level) then p.left else p.right }

  /** Neither transparent nor ignored. */
  predicate TakesPart(p: Prop) { !p.transparent && !p.ignored }

  /** Two characters that take part, and none between them. */
  ghost predicate Neighbours(props: seq<Prop>, a: int, b: int) {
    && 0 <= a < b < |props| && TakesPart(props[a]) && TakesPart(props[b])
    && forall k :: a < k < b ==> !TakesPart(props[k])
  }

  /** No level up to b differs from that of a; those of ignored characters do not count. */
  ghost predicate OneLevel(types: seq<CharType>, levels: seq<int>, props: seq<Prop>, a: int, b: int)
    requires 0 <= a < b < |props| == |types| <= |levels|
  {
    forall k :: a < k <= b && (props[k].transparent || !props[k].ignored) ==> Fit(types, levels, a, k)
  }

  predicate Fit(types: seq<CharType>, levels: seq<int>, a: int, k: int)
    requires 0 <= a < |types| <= |levels| && 0 <= k < |types|
  {
    var x, y := LevelOf(types, levels, a), LevelOf(types, levels, k);
    x == y || x == -1 || y == -1
  }

  /** a joins b, the next letter: both can, on the sides they turn to each other, and at one level. */
  ghost predicate CanJoin(types: seq<CharType>, levels: seq<int>, props: seq<Prop>, a: int, b: int)
    requires |props| == |types| <= |levels|
  {
    && Neighbours(props, a, b) && OneLevel(types, levels, props, a, b)
    && JoinsOn(props[a], LevelOf(types, levels, a)) && JoinsBack(props[b], LevelOf(types, levels, b))
  }

  /** p is p0 apart from the two bits. */
  predicate SameButJoins(p: Prop, p0: Prop) {
    p.shapes == p0.shapes && p.transparent == p0.transparent && p.ignored == p0.ignored && p.ligatured == p0.ligatured
  }

  /** A letter that shapes joins just what it can join; others keep their bits. */
  ghost predicate LetterIs(types: seq<CharType>, levels: seq<int>, props: seq<Prop>, p: Prop, i: int)
    requires 0 <= i < |props| == |types| <= |levels|
  {
    if !props[i].shapes then p == props[i]
    else
      && SameButJoins(p, props[i])
      && (JoinsBack(p, LevelOf(types, levels, i)) <==> exists a :: CanJoin(types, levels, props, a, i))
      && (JoinsOn(p, LevelOf(types, levels, i)) <==> exists b :: CanJoin(types, levels, props, i, b))
  }

  /** k is between a and b, which join. */
  ghost predicate Bridges(types: seq<CharType>, levels: seq<int>, props: seq<Prop>, a: int, k: int, b: int)
    requires |props| == |types| <= |levels|
  {
    a < k < b && CanJoin(types, levels, props, a, b)
  }

  /** What does not take part gets the bits of both letters if it is between two that join. */
  ghost predicate MarkIs(types: seq<CharType>, levels: seq<int>, props: seq<Prop>, p: Prop, k: int)
    requires 0 <= k < |props| == |types| <= |levels|
  {
    if exists a, b :: Bridges(types, levels, props, a, k, b) then
      exists a, b :: Bridges(types, levels, props, a, k, b) && p == Bridged(props[k], LevelOf(types, levels, a), LevelOf(types, levels, b))
    else p == props[k]
  }

  /** The bit a joins on with, and the bit b joins back with. */
  function Bridged(p: Prop, a: int, b: int): Prop {
    p.(right := p.right || !RightToLeft(a) || RightToLeft(b), left := p.left || RightToLeft(a) || !RightToLeft(b))
  }

  /** now is what joining makes of the properties props. */
  ghost predicate IsJoining(types: seq<CharType>, levels: seq<int>, props: seq<Prop>, now: seq<Prop>)
    requires |props| == |types| <= |levels|
  {
    && |now| == |props|
    && forall i :: 0 <= i < |props| ==> CharIs(types, levels, props, now[i], i)
  }

  ghost predicate CharIs(types: seq<CharType>, levels: seq<int>, props: seq<Prop>, p: Prop, i: int)
    requires 0 <= i < |props| == |types| <= |levels|
  {
    if TakesPart(props[i]) then LetterIs(types, levels, props, p, i) else MarkIs(types, levels, props, p, i)
  }

  // ---------------------------------------------------------------- the pass does that

  lemma LevelsAre(types: seq<CharType>, levels: seq<int>)
    requires |types| <= |levels|
    ensures forall k :: 0 <= k < |types| ==> ConsistentLevels(types, levels)[k] == LevelOf(types, levels, k)
  {
  }

  lemma LinkedIs(types: seq<CharType>, levels: seq<int>, props: seq<Prop>, a: int, b: int)
    requires |props| == |types| <= |levels| && -1 <= a < b <= |props|
    requires (a >= 0 ==> TakesPart(props[a])) && (b < |props| ==> TakesPart(props[b])) && forall k :: a < k < b ==> !TakesPart(props[k])
    ensures Linked(props, ConsistentLevels(types, levels), a, b) <==> CanJoin(types, levels, props, a, b)
  {
    LevelsAre(types, levels);
    var cl := ConsistentLevels(types, levels);
    hide LevelOf, ConsistentLevels;
    if 0 <= a && b < |props| {
      assert Unbroken(props, cl, a, b + 1) <==> OneLevel(types, levels, props, a, b) by {
        assert forall k :: a < k <= b ==> (Match(cl[a], cl[k]) <==> Fit(types, levels, a, k));
      }
    }
  }

  /** Only the nearest letters can join. */
  lemma BackIs(types: seq<CharType>, levels: seq<int>, props: seq<Prop>, i: nat)
    requires i < |props| == |types| <= |levels| && TakesPart(props[i])
    ensures Linked(props, ConsistentLevels(types, levels), Prev(props, i), i) <==> exists a :: CanJoin(types, levels, props, a, i)
  {
    LinkedIs(types, levels, props, Prev(props, i), i);
    forall a | CanJoin(types, levels, props, a, i)
      ensures a == Prev(props, i)
    {
      PrevIs(props, i, a);
    }
    hide Linked, CanJoin, ConsistentLevels;
  }

  lemma OnIs(types: seq<CharType>, levels: seq<int>, props: seq<Prop>, i: nat)
    requires i < |props| == |types| <= |levels| && TakesPart(props[i])
    ensures Linked(props, ConsistentLevels(types, levels), i, Next(props, i + 1)) <==> exists b :: CanJoin(types, levels, props, i, b)
  {
    LinkedIs(types, levels, props, i, Next(props, i + 1));
    forall b | CanJoin(types, levels, props, i, b)
      ensures b == Next(props, i + 1)
    {
      NextIs(props, i + 1, b);
    }
    hide Linked, CanJoin, ConsistentLevels;
  }

  lemma LetterFollows(types: seq<CharType>, levels: seq<int>, props: seq<Prop>, i: nat)
    requires i < |props| == |types| <= |levels| && TakesPart(props[i])
    ensures LetterIs(types, levels, props, Joined(props, ConsistentLevels(types, levels), i), i)
  {
    LevelsAre(types, levels);
    BackIs(types, levels, props, i);
    OnIs(types, levels, props, i);
    hide Linked, CanJoin, ConsistentLevels, LevelOf, Prev, Next;
  }

  lemma MarkFollows(types: seq<CharType>, levels: seq<int>, props: seq<Prop>, k: nat)
    requires k < |props| == |types| <= |levels| && !TakesPart(props[k])
    ensures MarkIs(types, levels, props, Joined(props, ConsistentLevels(types, levels), k), k)
  {
    var cl := ConsistentLevels(types, levels);
    var p, n := Prev(props, k), Next(props, k + 1);
    LevelsAre(types, levels);
    LinkedIs(types, levels, props, p, n);
    forall a, b | Bridges(types, levels, props, a, k, b)
      ensures a == p && b == n
    {
      PrevIs(props, k, a);
      NextIs(props, k + 1, b);
    }
    assert Linked(props, cl, p, n) ==> 0 <= p && n < |props| && Bridges(types, levels, props, p, k, n);
    hide Linked, CanJoin, ConsistentLevels, LevelOf, Prev, Next;
  }

  /** The pass makes of the properties what the rules say. */
  lemma JoinsByRule(types: seq<CharType>, levels: seq<int>, props: seq<Prop>)
    requires |props| == |types| <= |levels|
    ensures IsJoining(types, levels, props, AllJoined(props, ConsistentLevels(types, levels)))
  {
    hide Joined, ConsistentLevels, LetterIs, MarkIs;
    forall i | 0 <= i < |props|
      ensures CharIs(types, levels, props, AllJoined(props, ConsistentLevels(types, levels))[i], i)
    {
      if TakesPart(props[i]) { LetterFollows(types, levels, props, i); } else { MarkFollows(types, levels, props, i); }
    }
  }

  /** And the rules leave nothing open. */
  lemma JoiningUnique(types: seq<CharType>, levels: seq<int>, props: seq<Prop>, now: seq<Prop>, other: seq<Prop>)
    requires |props| == |types| <= |levels| && IsJoining(types, levels, props, now) && IsJoining(types, levels, props, other)
    ensures now == other
  {
    forall i | 0 <= i < |props|
      ensures now[i] == other[i]
    {
      assert CharIs(types, levels, props, now[i], i) && CharIs(types, levels, props, other[i], i);
      if !TakesPart(props[i]) { OneBridge(types, levels, props, i); }
      hide Bridges, CanJoin, LevelOf;
    }
  }

  lemma OneBridge(types: seq<CharType>, levels: seq<int>, props: seq<Prop>, k: nat)
    requires k < |props| == |types| <= |levels|
    ensures forall a, b, c, d :: Bridges(types, levels, props, a, k, b) && Bridges(types, levels, props, c, k, d) ==> a == c && b == d
  {
    hide OneLevel;
  }
}
