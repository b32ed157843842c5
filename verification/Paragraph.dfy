/** fribidi_get_par_embedding_levels_ex as a whole, 3rd/fribidi/fribidi-bidi.c: the stages in their order,
    the removed codes put back, rule L1, and the levels written out. */
module Paragraph {
  import opened BidiTypes
  import opened Wrappers
  import opened RunList
  import opened ExplicitText
  import opened Explicit
  import opened Resolve
  import opened Neutrals
  import opened BaseDirection
  import opened IsolateLevels
  import opened Nesting
  import opened ParagraphRules
  import opened Links

  // ---------------------------------------------------------------- L1

  /** Characters that L1 resets in front of a separator or at the end. */
  predicate Resettable(t: CharType) { t.IsExplicitOrSeparatorOrBnOrWs() || t.IsIsolate() }

  /** The same by name: the segment and paragraph separators of L1, */
  predicate IsL1Separator(t: CharType) { t == SS || t == BS }

  /** and what it resets in front of them or at the end: white space, isolate characters, and codes that X9 removed. */
  predicate IsL1Trailing(t: CharType) {
    t in {WS, LRI, RLI, FSI, PDI, LRE, RLE, LRO, RLO, PDF, BN} || IsL1Separator(t)
  }

  /** Rule L1: from x on there are only such characters up to a separator or the end of the text. */
  ghost predicate Reset(types: seq<CharType>, x: int) {
    0 <= x < |types| && exists y :: x <= y <= |types| && UpTo(types, x, y)
  }

  ghost predicate UpTo(types: seq<CharType>, x: int, y: int)
    requires 0 <= x <= y <= |types|
  {
    && (y < |types| ==> IsL1Separator(types[y]))
    && forall z :: x <= z < y ==> IsL1Trailing(types[z])
  }

  /** The queries of the program are these. */
  lemma TrailingAre(t: CharType)
    ensures t.IsSeparator() <==> IsL1Separator(t)
    ensures Resettable(t) <==> IsL1Trailing(t)
  {
  }

  lemma ResetNext(types: seq<CharType>, x: int)
    requires 0 <= x < |types|
    ensures Reset(types, x) <==>
              Resettable(types[x]) && (types[x].IsSeparator() || x + 1 == |types| || Reset(types, x + 1))
  {
    TrailingAre(types[x]);
    hide Resettable, IsL1Separator, IsL1Trailing;
    if types[x].IsSeparator() {
      assert UpTo(types, x, x);
      assert Resettable(types[x]) by { SeparatorsReset(types[x]); }
    } else if Resettable(types[x]) && x + 1 == |types| {
      assert UpTo(types, x, x + 1);
    } else {
      if Reset(types, x) {
        var y :| x <= y <= |types| && UpTo(types, x, y);
        if y > x && x + 1 < |types| { assert UpTo(types, x + 1, y); }
      }
      if Resettable(types[x]) && Reset(types, x + 1) {
        var y :| x + 1 <= y <= |types| && UpTo(types, x + 1, y);
        assert UpTo(types, x, y);
      }
    }
  }

  lemma SeparatorsReset(t: CharType)
    ensures t.IsSeparator() ==> Resettable(t)
  {
  }

  /** The backward state machine has looked at everything from n on; positions after edge are settled. */
  ghost predicate Trailing(types: seq<CharType>, base: int, over: seq<Run>, n: nat, edge: int)
    requires n <= |types|
  {
    && n - 1 <= edge < |types| && Disjoint(over, |types|)
    && (forall k :: 0 <= k < |over| ==> edge < over[k].pos && over[k].level == base)
    && (forall x :: edge < x < |types| ==> (Covered(over, x) <==> Reset(types, x)))
    && (forall x :: n <= x <= edge ==> Reset(types, x))
  }

  /** A separator opens a stretch that goes backwards. */
  lemma TrailingOpen(types: seq<CharType>, base: int, over: seq<Run>, n: nat)
    requires n < |types| && Trailing(types, base, over, n + 1, n) && types[n].IsSeparator()
    ensures Trailing(types, base, over, n, n)
  {
    ResetNext(types, n);
    SeparatorsReset(types[n]);
    hide Reset;
  }

  lemma TrailingLonger(types: seq<CharType>, base: int, over: seq<Run>, n: nat, edge: int)
    requires n < |types| && Trailing(types, base, over, n + 1, edge) && Resettable(types[n])
    requires n + 1 == |types| || Reset(types, n + 1)
    ensures Trailing(types, base, over, n, edge)
  {
    ResetNext(types, n);
    hide Reset;
  }

  /** A character that L1 leaves alone. */
  lemma TrailingPast(types: seq<CharType>, base: int, over: seq<Run>, n: nat)
    requires n < |types| && Trailing(types, base, over, n + 1, n) && !Reset(types, n)
    requires forall k :: 0 <= k < |over| ==> n < over[k].pos
    ensures Trailing(types, base, over, n, n - 1)
  {
    hide Reset;
    assert !Covered(over, n);
  }

  /** The stretch ends: its run is put in front of the others. */
  lemma TrailingClose(types: seq<CharType>, base: int, over: seq<Run>, n: int, edge: int, p: Run)
    requires 0 <= n <= |types| && Trailing(types, base, over, n, edge)
    requires p.pos == n && p.len == edge + 1 - n && p.level == base && p.typ != Sentinel
    ensures Trailing(types, base, [p] + over, n, n - 1)
  {
    hide Reset;
    var more := [p] + over;
    forall i, j | 0 <= i < j < |more|
      ensures more[i].pos + more[i].len <= more[j].pos
    {
    }
    assert Disjoint(more, |types|);
    forall x | n - 1 < x < |types|
      ensures Covered(more, x) <==> Reset(types, x)
    {
      CoveredCons(p, over, x);
    }
  }

  /** The loop of L1, from the end of the text to one before its start. */
  method TrailingRuns(types: seq<CharType>, base: int) returns (over: seq<Run>)
    requires |types| > 0
    ensures Disjoint(over, |types|) && forall k :: 0 <= k < |over| ==> over[k].level == base
    ensures forall x :: 0 <= x < |types| ==> (Covered(over, x) <==> Reset(types, x))
  {
    hide Trailing, Reset, Resettable, Disjoint, Covered;
    over := [];
    var state := true;
    var pos := |types| - 1;
    var j := |types| - 1;
    TrailingStart(types, base);
    while j >= -1
      invariant -2 <= j < |types|
      invariant j >= -1 ==> Trailing(types, base, over, j + 1, if state then pos else j)
      invariant j == -2 ==> Trailing(types, base, over, 0, -1)
      invariant j >= -1 ==> (state <==> j + 1 == |types| || Reset(types, j + 1))
      decreases j + 2
    {
      var charType := if j >= 0 then types[j] else ON;
      if j >= 0 { ResetNext(types, j); SeparatorsReset(types[j]); }
      if !state && charType.IsSeparator() {
        TrailingOpen(types, base, over, j);
        state := true;
        pos := j;
      } else if state && !Resettable(charType) {
        state := false;
        var p := Run(j + 1, pos - j, LevelToDir(base), base, 0, NoBracket);
        TrailingClose(types, base, over, j + 1, pos, p);
        over := [p] + over;
        if j >= 0 {
          TrailingAfter(types, base, over, j);
          TrailingPast(types, base, over, j);
        }
      } else if j >= 0 {
        if state {
          TrailingLonger(types, base, over, j, pos);
        } else {
          TrailingAfter(types, base, over, j);
          TrailingPast(types, base, over, j);
        }
      } else {
        assert !state by { NotReset(); }
      }
      j := j - 1;
    }
    TrailingEnd(types, base, over);
  }

  lemma NotReset()
    ensures !Resettable(ON)
  {
  }

  lemma TrailingStart(types: seq<CharType>, base: int)
    requires |types| > 0
    ensures Trailing(types, base, [], |types|, |types| - 1)
  {
  }

  lemma TrailingAfter(types: seq<CharType>, base: int, over: seq<Run>, n: nat)
    requires n < |types| && Trailing(types, base, over, n + 1, n)
    ensures forall k :: 0 <= k < |over| ==> n < over[k].pos
  {
    hide Reset;
  }

  lemma TrailingEnd(types: seq<CharType>, base: int, over: seq<Run>)
    requires Trailing(types, base, over, 0, -1)
    ensures Disjoint(over, |types|) && forall k :: 0 <= k < |over| ==> over[k].level == base
    ensures forall x :: 0 <= x < |types| ==> (Covered(over, x) <==> Reset(types, x))
  {
    hide Reset;
  }

  // ---------------------------------------------------------------- the removed codes come back

  function LevelAt(nodes: seq<Run>, x: int): int
    requires |nodes| > 0
  {
    AttrAt(nodes, x).level
  }

  /** What a code takes its level from. */
  function LevelBefore(nodes: seq<Run>, x: int, base: int): int
    requires |nodes| > 0
  {
    if x == 0 then base else LevelAt(nodes, x - 1)
  }

  /** A character of the list has a real level. */
  lemma KeptLevel(nodes: seq<Run>, over: seq<Run>, len: nat, x: int)
    requires Fits(nodes, over, len) && 0 <= x < len && !Covered(over, x)
    requires forall k :: 1 <= k < |nodes| ==> 0 <= nodes[k].level
    ensures |nodes| > 0 && 0 <= LevelAt(nodes, x)
    ensures exists k :: 1 <= k < |nodes| && AttrOf(nodes[k]) == AttrAt(nodes, x)
  {
    FitsIsList(nodes, over, len);
    ListNotEmpty(nodes);
    OwnerHolds(nodes, |nodes|, x);
    var i := Owner(nodes, |nodes|, x);
    if i == 0 { NothingFree(over, 0, NextPos(nodes, 0, len), x); }
    assert AttrOf(nodes[i]) == AttrAt(nodes, x);
  }

  /** The list after the first i runs have been looked at. */
  ghost predicate Carried(was: seq<Run>, now: seq<Run>, base: int, i: nat) {
    && SameFrameButLevel(was, now)
    && (forall k :: 1 <= k < |was| ==>
          now[k].level == if was[k].level != SENTINEL_LEVEL || i <= k then was[k].level
                          else if k == 1 then base else PreviousLevel(now, k))
  }

  function PreviousLevel(nodes: seq<Run>, k: int): int
    requires 1 <= k <= |nodes|
  {
    nodes[k - 1].level
  }

  ghost predicate SameFrameButLevel(was: seq<Run>, now: seq<Run>) {
    && |now| == |was| > 0 && now[0] == was[0]
    && forall k :: 0 <= k < |was| ==> now[k] == was[k].(level := now[k].level)
  }

  /** Removed codes take the level of the character before them. */
  method CarryLevels(list: RunList, base: int)
    requires |list.nodes| > 0 && base != SENTINEL_LEVEL
    modifies list
    ensures Carried(old(list.nodes), list.nodes, base, |old(list.nodes)|)
  {
    var i := 1;
    while i < |list.nodes|
      invariant 1 <= i <= |list.nodes| == |old(list.nodes)| && Carried(old(list.nodes), list.nodes, base, i)
    {
      if list.nodes[i].level == SENTINEL_LEVEL {
        var level := if i == 1 then base else list.nodes[i - 1].level;
        list.nodes := list.nodes[i := list.nodes[i].(level := level)];
      }
      i := i + 1;
    }
  }

  lemma TilesOwner(nodes: seq<Run>, len: nat, x: int)
    requires Tiles(nodes, len) && 0 <= x < len
    ensures |nodes| > 0
    ensures var i := Owner(nodes, |nodes|, x);
            1 <= i && nodes[i].pos <= x && (nodes[i].pos == x ==> (i == 1 <==> x == 0)) && (x == 0 ==> nodes[i].pos == 0)
  {
    TilesNotEmpty(nodes, len);
    FirstIsZero(nodes, len);
    OwnerHolds(nodes, |nodes|, x);
    var i := Owner(nodes, |nodes|, x);
    hide Owner, NextPos;
    assert i > 1 ==> nodes[1].pos < nodes[i].pos;
  }

  lemma FirstIsZero(nodes: seq<Run>, len: nat)
    requires Tiles(nodes, len) && len > 0
    ensures |nodes| > 1 && nodes[0].pos == -1 && nodes[1].pos == 0
  {
  }

  lemma OwnerBefore(nodes: seq<Run>, len: nat, x: int)
    requires Tiles(nodes, len) && 0 < x < len
    ensures |nodes| > 0
    ensures var i := Owner(nodes, |nodes|, x);
            Owner(nodes, |nodes|, x - 1) == if nodes[i].pos == x then i - 1 else i
  {
    hide Owner, Tiles, IsList;
    TilesNotEmpty(nodes, len);
    TilesOwner(nodes, len, x);
    OwnerHolds(nodes, |nodes|, x);
    var i := Owner(nodes, |nodes|, x);
    if nodes[i].pos == x {
      assert nodes[i - 1].pos < nodes[i].pos by { Ascending(nodes, i); }
      OwnerIs(nodes, |nodes|, x - 1, i - 1);
    } else {
      OwnerIs(nodes, |nodes|, x - 1, i);
    }
  }

  lemma Ascending(nodes: seq<Run>, i: nat)
    requires IsList(nodes) && 1 <= i < |nodes|
    ensures nodes[i - 1].pos < nodes[i].pos
  {
  }

  lemma SameFrameTiles(was: seq<Run>, now: seq<Run>, len: nat)
    requires Tiles(was, len) && SameFrameButLevel(was, now)
    ensures Tiles(now, len)
    ensures forall x :: Owner(now, |now|, x) == Owner(was, |was|, x)
  {
    assert IsList(now);
    forall i | 0 <= i < |now|
      ensures NextPos(now, i, len) == NextPos(was, i, len)
    {
    }
    forall x: int
      ensures Owner(now, |now|, x) == Owner(was, |was|, x)
    {
      SameOwner(was, now, |now|, x);
    }
  }

  /** Character by character: those with a level keep it, the others have that of the character before. */
  lemma CarriedAt(was: seq<Run>, now: seq<Run>, base: int, len: nat, x: int)
    requires Tiles(was, len) && Carried(was, now, base, |was|) && 0 <= x < len
    ensures AttrAt(was, x).level != SENTINEL_LEVEL ==> AttrAt(now, x) == AttrAt(was, x)
    ensures AttrAt(was, x).level == SENTINEL_LEVEL ==> LevelAt(now, x) == LevelBefore(now, x, base)
  {
    hide Tiles, Owner;
    SameFrameTiles(was, now, len);
    TilesOwner(was, len, x);
    if x > 0 { OwnerBefore(was, len, x); }
  }

  ghost predicate Reinserted(was: seq<Run>, now: seq<Run>, over: seq<Run>, base: int, len: nat) {
    && |was| > 0 && Tiles(now, len) && |now| > 0
    && (forall x :: 0 <= x < len && !Covered(over, x) ==> AttrAt(now, x) == AttrAt(was, x))
    && (forall x :: 0 <= x < len && Covered(over, x) ==> LevelAt(now, x) == LevelBefore(now, x, base))
  }

  /** shadow_run_list brings the codes back; they do not affect the reordering. */
  method Reinsert(list: RunList, explicits: seq<Run>, base: int, ghost len: nat)
    requires Fits(list.nodes, explicits, len) && list.nodes[0].len <= 1 && Disjoint(explicits, len) && base >= 0
    requires forall k :: 0 <= k < |explicits| ==> explicits[k].level == SENTINEL_LEVEL
    requires forall k :: 1 <= k < |list.nodes| ==> 0 <= list.nodes[k].level
    modifies list
    ensures Reinserted(old(list.nodes), list.nodes, explicits, base, len)
  {
    hide Fits, Tiles, Disjoint, Painted, Carried;
    if explicits != [] {
      list.Shadow(explicits, true, len);
      ghost var painted := list.nodes;
      assert |painted| > 0 by { TilesNotEmpty(painted, len); }
      CarryLevels(list, base);
      ReinsertedAll(old(list.nodes), painted, list.nodes, explicits, base, len);
    } else {
      ReinsertedNone(list.nodes, base, len);
    }
  }

  lemma TilesNotEmpty(nodes: seq<Run>, len: nat)
    requires Tiles(nodes, len)
    ensures |nodes| > 0 && IsList(nodes) && (len > 0 ==> |nodes| > 1)
  {
  }

  lemma ReinsertedNone(nodes: seq<Run>, base: int, len: nat)
    requires Fits(nodes, [], len)
    ensures Reinserted(nodes, nodes, [], base, len)
  {
    FitsIsTiles(nodes, len);
    hide Fits;
  }

  lemma ReinsertedAll(was: seq<Run>, painted: seq<Run>, now: seq<Run>, over: seq<Run>, base: int, len: nat)
    requires Fits(was, over, len) && forall k :: 1 <= k < |was| ==> 0 <= was[k].level
    requires forall k :: 0 <= k < |over| ==> over[k].level == SENTINEL_LEVEL
    requires Tiles(painted, len) && Painted(was, over, |over|, painted, len) && Carried(painted, now, base, |painted|)
    ensures Reinserted(was, now, over, base, len)
  {
    hide Fits, Owner, Tiles, Carried, AttrAt;
    assert Tiles(now, len) by { CarriedTiles(painted, now, base, len); }
    TilesNotEmpty(now, len);
    forall x | 0 <= x < len
      ensures !Covered(over, x) ==> AttrAt(now, x) == AttrAt(was, x)
      ensures Covered(over, x) ==> LevelAt(now, x) == LevelBefore(now, x, base)
    {
      CarriedAt(painted, now, base, len, x);
      if Covered(over, x) {
        var k :| 0 <= k < |over| && Holds(over[k], x);
        assert AttrAt(painted, x) == AttrOf(over[k]);
      } else {
        KeptLevel(was, over, len, x);
      }
    }
  }

  lemma CarriedTiles(painted: seq<Run>, now: seq<Run>, base: int, len: nat)
    requires Tiles(painted, len) && Carried(painted, now, base, |painted|)
    ensures Tiles(now, len)
  {
    SameFrameTiles(painted, now, len);
  }

  // ---------------------------------------------------------------- the levels of the paragraph

  /** The last loop: it writes each level once, and nothing behind the text. */
  method WriteLevels(nodes: seq<Run>, levels: array<int>, len: nat)
    requires Tiles(nodes, len) && len <= levels.Length
    modifies levels
    ensures forall x :: 0 <= x < len ==> |nodes| > 0 && levels[x] == LevelAt(nodes, x)
    ensures levels[len..] == old(levels[len..])
  {
    var pos, i := 0, 1;
    TilesNotEmpty(nodes, len);
    while i < |nodes|
      invariant 1 <= i <= |nodes| && pos == NextPos(nodes, i - 1, len) && 0 <= pos <= len
      invariant forall x :: 0 <= x < pos ==> levels[x] == LevelAt(nodes, x)
      invariant levels[len..] == old(levels[len..])
    {
      TilesWithin(nodes, len, i);
      pos := WriteRun(nodes, levels, len, i);
      i := i + 1;
    }
  }

  method WriteRun(nodes: seq<Run>, levels: array<int>, len: nat, i: nat) returns (pos: int)
    requires Tiles(nodes, len) && len <= levels.Length && 1 <= i < |nodes| && nodes[i].pos < len
    requires 0 <= NextPos(nodes, i - 1, len) && forall x :: 0 <= x < nodes[i].pos ==> levels[x] == LevelAt(nodes, x)
    modifies levels
    ensures pos == NextPos(nodes, i, len) && 0 <= pos <= len
    ensures forall x :: 0 <= x < pos ==> levels[x] == LevelAt(nodes, x)
    ensures levels[len..] == old(levels[len..])
  {
    RunWithin(nodes, len, i);
    hide Tiles, IsList, AttrAt;
    pos := nodes[i].pos;
    var l := nodes[i].len;
    while l > 0
      invariant 0 <= l <= nodes[i].len && pos + l == nodes[i].pos + nodes[i].len
      invariant forall x :: 0 <= x < pos ==> levels[x] == LevelAt(nodes, x)
      invariant levels[len..] == old(levels[len..])
    {
      RunAttr(nodes, len, i, pos);
      levels[pos] := nodes[i].level;
      pos := pos + 1;
      l := l - 1;
    }
  }

  lemma RunWithin(nodes: seq<Run>, len: nat, i: nat)
    requires Tiles(nodes, len) && 1 <= i < |nodes|
    ensures 0 <= nodes[i].pos && 0 < nodes[i].len && nodes[i].pos + nodes[i].len == NextPos(nodes, i, len) <= len
  {
    if i + 1 < |nodes| { TilesWithin(nodes, len, i + 1); }
    assert nodes[0].pos < nodes[i].pos;
  }

  lemma RunAttr(nodes: seq<Run>, len: nat, i: nat, x: int)
    requires Tiles(nodes, len) && 1 <= i < |nodes| && Holds(nodes[i], x)
    ensures AttrAt(nodes, x) == AttrOf(nodes[i])
  {
    OwnerIs(nodes, |nodes|, x, i);
  }

  /** The level of character x by the rules up to I2, and X9 for a removed code. */
  ghost predicate ResolvedLevel(types: seq<CharType>, base: int, before: seq<int>, x: int)
    requires 0 <= x < |types| == |before|
  {
    if Removed(types, x) then before[x] == if x == 0 then base else before[x - 1]
    else exists t :: Final(t) && before[x] == ImplicitLevel(Expected(types, base, x).level, t)
  }

  /** before holds the levels up to I2, top is their maximum. */
  ghost predicate LevelsOf(types: seq<CharType>, base: int, before: seq<int>, top: int) {
    && |before| == |types| && 0 <= base <= 1
    && (forall x :: 0 <= x < |types| ==> ResolvedLevel(types, base, before, x))
    && (forall x :: 0 <= x < |types| ==> 0 <= before[x] <= top)
    && base <= top < MAX_RESOLVED_LEVELS && (top == base || top in before)
  }

  /** The lists between the stages: after the explicit pass, with the removed codes; the rules; their result. */
  datatype Trace = Trace(main: seq<Run>, explicits: seq<Run>, stages: Stages, resolved: seq<Run>)

  /** The levels come from the stages in their order.  In the list that they start from each character has its bracket and
      its isolate level. */
  ghost predicate Traced(types: seq<CharType>, brackets: Option<seq<Bracket>>, base: int, before: seq<int>, t: Trace) {
    && IsMain(t.main, t.explicits, types, brackets, base) && InOrder(t.main, t.stages, t.resolved)
    && |before| == |types| && |t.resolved| > 0
    && forall x :: 0 <= x < |types| && !Covered(t.explicits, x) ==> before[x] == LevelAt(t.resolved, x)
  }

  /** What the call promises for a text that is not empty; the greatest level is top. */
  ghost predicate ParagraphLevels(types: seq<CharType>, brackets: Option<seq<Bracket>>, wanted: CharType, dir: CharType, base: int,
                                  before: seq<int>, trace: Trace, top: int, levels: seq<int>) {
    && IsBase(types, wanted, base, dir) && LevelsOf(types, base, before, top) && Traced(types, brackets, base, before, trace)
    && |types| <= |levels| && forall x :: 0 <= x < |types| ==> levels[x] == if Reset(types, x) then base else before[x]
  }

  /** Up to the links: run-length encoding, the paragraph direction, the explicit pass. */
  method Explicits(types: seq<CharType>, brackets: Option<seq<Bracket>>, wanted: CharType)
      returns (indexed: bool, dir: CharType, base: int, list: RunList, explicits: seq<Run>)
    requires |types| > 0 && Sentinel !in types && (brackets.Some? ==> |brackets.value| == |types|)
    ensures fresh(list) && 0 <= base <= 1 && IsBase(types, wanted, base, dir)
    ensures IsMain(list.nodes, explicits, types, brackets, base) && |list.nodes| > 0
    ensures indexed <==> StaysIndexed(types, base, ParagraphEnd(types))
    ensures indexed ==> forall k :: 1 <= k < |list.nodes| ==> 0 <= list.nodes[k].isolateLevel < MAX_EXPLICIT_LEVEL
  {
    hide IsBase, Tiles, Encodes, Passed, Placed, RunsOf, Encoded, InArray, StaysIndexed, ParagraphEnd, IsMain;
    var nodes := EncodeBidiTypes(types, brackets);
    EncodedStart(nodes, types, brackets);
    base, dir := FindBase(nodes[1..], wanted, types);
    list := new RunList(nodes);
    explicits := ExplicitPass(list, base, types, brackets);
    MainIs(list.nodes, explicits, types, brackets, base);
    RunsIndexed(list.nodes, explicits, types, brackets, base);
    var prev, next;
    indexed, prev, next := LinkRuns(list.nodes);
  }

  /** The rules, the codes put back, L1, and the levels written out. */
  method Levels(list: RunList, explicits: seq<Run>, types: seq<CharType>, ghost brackets: Option<seq<Bracket>>, base: int, levels: array<int>)
      returns (top: int, ghost before: seq<int>, ghost trace: Trace)
    requires |types| > 0 && 0 <= base <= 1 && |types| <= levels.Length
    requires IsMain(list.nodes, explicits, types, brackets, base)
    requires forall k :: 1 <= k < |list.nodes| ==> 0 <= list.nodes[k].isolateLevel < MAX_EXPLICIT_LEVEL
    modifies list, levels
    ensures LevelsOf(types, base, before, top) && Traced(types, brackets, base, before, trace)
    ensures |before| == |types| && forall x :: 0 <= x < |types| ==> levels[x] == if Reset(types, x) then base else before[x]
    ensures levels[|types|..] == old(levels[|types|..])
  {
    hide Reset, LevelsOf, Tiles, Passed, AllResolved, Reinserted, Disjoint, LevelIs, InOrder, Traced, IsMain;
    ghost var main := list.nodes;
    PassedLevelled(main, explicits, types, brackets, base);
    ghost var stages;
    top, stages := ResolveTypes(list, base, explicits, |types|);
    ghost var resolved := list.nodes;
    ResolvedFits(main, resolved, explicits, |types|);
    Reinsert(list, explicits, base, |types|);
    ghost var whole := list.nodes;
    assert Tiles(whole, |types|) && |whole| > 1 by { ReinsertedTiles(resolved, whole, explicits, base, |types|); }
    before := LevelSeq(whole, |types|);
    Collected(main, resolved, whole, explicits, types, base, top);
    trace := Trace(main, explicits, stages, resolved);
    TracedIs(types, brackets, base, trace, whole);
    var over := TrailingRuns(types, base);
    list.Shadow(over, false, |types|);
    WriteLevels(list.nodes, levels, |types|);
    ResetOver(whole, list.nodes, over, types, base);
  }

  /** fribidi_get_par_embedding_levels_ex; the result is one more than the greatest level.  Where the program would leave the
      arrays that it indexes with isolate levels, the model stops; that is so exactly if a PDI lets the isolate level fall below
      zero.  For a text in which no isolate is rejected the stages are the rules of UAX #9. */
  method GetParEmbeddingLevels(types: seq<CharType>, brackets: Option<seq<Bracket>>, wanted: CharType, levels: array<int>)
      returns (indexed: bool, result: int, dir: CharType, ghost base: int, ghost before: seq<int>, ghost trace: Trace)
    requires Sentinel !in types && (brackets.Some? ==> |brackets.value| == |types|) && |types| <= levels.Length
    modifies levels
    ensures |types| == 0 ==> indexed && result == 1 && dir == wanted
    ensures |types| > 0 ==> IsBase(types, wanted, base, dir) && (indexed <==> StaysIndexed(types, base, ParagraphEnd(types)))
    ensures |types| > 0 && indexed ==> ParagraphLevels(types, brackets, wanted, dir, base, before, trace, result - 1, levels[..])
    ensures |types| > 0 && Regular(types, base) ==> indexed && (Proper(types, brackets) ==> ByRules(trace.stages, base))
    ensures !indexed ==> levels[..] == old(levels[..])
    ensures levels[|types|..] == old(levels[|types|..])
  {
    hide Reset, LevelsOf, IsBase, Tiles, Encodes, Passed, Placed, RunsOf, Encoded, AllResolved, Reinserted, Disjoint, LevelIs, InOrder, Traced,
         InArray, StaysIndexed, ParagraphEnd, IsMain, Regular, Proper, ByRules;
    indexed, before, base, trace := true, [], 0, NoTrace();
    if |types| == 0 {
      return true, 1, wanted, base, before, trace;
    }
    var baseLevel, list, explicits;
    indexed, dir, baseLevel, list, explicits := Explicits(types, brackets, wanted);
    base := baseLevel;
    if Regular(types, base) { RegularIndexed(types, base); }
    if !indexed {
      return false, 0, dir, base, before, trace;
    }
    var maxLevel;
    maxLevel, before, trace := Levels(list, explicits, types, brackets, baseLevel, levels);
    if Regular(types, base) && Proper(types, brackets) { TracedRules(types, brackets, base, before, trace); }
    result := maxLevel + 1;
  }

  lemma TracedRules(types: seq<CharType>, brackets: Option<seq<Bracket>>, base: int, before: seq<int>, t: Trace)
    requires Traced(types, brackets, base, before, t) && Regular(types, base) && Proper(types, brackets)
    ensures ByRules(t.stages, base)
  {
    hide IsMain, InOrder, Regular, Proper, ByRules;
    StagesFollowRules(t.main, t.explicits, types, brackets, base, t.stages, t.resolved);
  }

  lemma MainIs(main: seq<Run>, explicits: seq<Run>, types: seq<CharType>, brackets: Option<seq<Bracket>>, base: int)
    requires brackets.Some? ==> |brackets.value| == |types|
    requires Passed(main, explicits, types, base, |types|) && Placed(main, types, brackets, base, |types|)
    ensures IsMain(main, explicits, types, brackets, base) && |main| > 0
  {
    hide Placed, Fits, CharPassed;
  }

  /** Where no isolate is rejected the isolate levels are indices. */
  lemma RegularIndexed(types: seq<CharType>, base: int)
    requires Regular(types, base)
    ensures StaysIndexed(types, base, ParagraphEnd(types))
  {
    var end := ParagraphEnd(types);
    hide CodeIso, CodeStatus, OpenIsolates, StaysIndexed, ParagraphEnd, IsolateLevelOf;
    forall x | 0 <= x < end
      ensures 0 <= IsolateLevelOf(types, base, x) < MAX_EXPLICIT_LEVEL
    {
      RegularUpTo(types, base, x + 1);
      IsolateLevelIsDepth(types, base, x);
    }
    IndexedIff(types, base, end);
  }

  ghost function NoTrace(): Trace {
    Trace([], [], Stages([], [], [], [], [], [], 0, [], 0, [], [], [], [], []), [])
  }

  lemma TracedIs(types: seq<CharType>, brackets: Option<seq<Bracket>>, base: int, t: Trace, whole: seq<Run>)
    requires IsMain(t.main, t.explicits, types, brackets, base) && InOrder(t.main, t.stages, t.resolved)
    requires |whole| > 0 && |t.resolved| > 0 && Reinserted(t.resolved, whole, t.explicits, base, |types|)
    ensures Traced(types, brackets, base, LevelSeq(whole, |types|), t)
  {
    hide IsMain, InOrder, AttrAt, Tiles;
  }

  ghost function LevelSeq(nodes: seq<Run>, len: nat): (s: seq<int>)
    requires |nodes| > 0
    ensures |s| == len && forall x :: 0 <= x < len ==> s[x] == LevelAt(nodes, x)
  {
    seq(len, x => LevelAt(nodes, x))
  }

  lemma EncodedStart(nodes: seq<Run>, types: seq<CharType>, brackets: Option<seq<Bracket>>)
    requires (brackets.Some? ==> |brackets.value| == |types|)
    requires Tiles(nodes, |types|) && Encodes(nodes, types, brackets, |types|)
    ensures |nodes| > 0 && nodes[0].typ == Sentinel && nodes[0].pos == -1 && RunsOf(nodes[1..], types, 0)
    ensures Encoded(nodes[1..], types, brackets)
  {
    hide Encodes, RunsOf, Encoded;
    EncodedRuns(nodes, types, brackets, 1);
    EncodedPlaces(nodes, types, brackets);
  }

  /** The runs have the brackets of their characters. */
  lemma EncodedPlaces(nodes: seq<Run>, types: seq<CharType>, brackets: Option<seq<Bracket>>)
    requires brackets.Some? ==> |brackets.value| == |types|
    requires Tiles(nodes, |types|) && Encodes(nodes, types, brackets, |types|) && |nodes| > 0
    ensures Encoded(nodes[1..], types, brackets)
  {
    hide Tiles, Encodes;
    var runs := nodes[1..];
    forall k | 0 <= k < |runs|
      ensures 0 <= runs[k].pos && runs[k].pos + runs[k].len <= |types| && runs[k].isolateLevel == 0
      ensures forall x :: Holds(runs[k], x) ==> runs[k].bracket == BracketAt(brackets, x)
    {
      EncodedPlace(nodes, types, brackets, k + 1);
    }
  }

  lemma EncodedPlace(nodes: seq<Run>, types: seq<CharType>, brackets: Option<seq<Bracket>>, j: nat)
    requires 1 <= j < |nodes| && (brackets.Some? ==> |brackets.value| == |types|)
    requires Tiles(nodes, |types|) && Encodes(nodes, types, brackets, |types|)
    ensures 0 <= nodes[j].pos && nodes[j].pos + nodes[j].len <= |types| && nodes[j].isolateLevel == 0
    ensures forall x :: Holds(nodes[j], x) ==> nodes[j].bracket == BracketAt(brackets, x)
  {
    hide Tiles, NextPos;
    EncodedRun(nodes, types, brackets, j);
    assert RunEncodes(nodes[j], types, brackets, NextPos(nodes, j, |types|));
  }

  lemma PassedLevelled(main: seq<Run>, explicits: seq<Run>, types: seq<CharType>, brackets: Option<seq<Bracket>>, base: int)
    requires IsMain(main, explicits, types, brackets, base)
    requires forall k :: 1 <= k < |main| ==> 0 <= main[k].isolateLevel < MAX_EXPLICIT_LEVEL
    ensures Levelled(main, explicits, |types|) && |main| > 0 && main[0].len <= 1 && Disjoint(explicits, |types|)
    ensures forall k :: 0 <= k < |explicits| ==> explicits[k].level == SENTINEL_LEVEL
    ensures forall x :: 0 <= x < |types| ==> CharPassed(main, explicits, types, base, x)
  {
    hide Fits, CharPassed, Placed;
  }

  lemma ResolvedFits(was: seq<Run>, now: seq<Run>, over: seq<Run>, len: nat)
    requires AllResolved(was, now, over, len)
    ensures Fits(now, over, len) && |was| > 0 && |now| > 0 && now[0] == was[0]
    ensures forall k :: 1 <= k < |now| ==> 0 <= now[k].level
  {
    hide Fits, Resolved;
  }

  lemma ReinsertedTiles(was: seq<Run>, now: seq<Run>, over: seq<Run>, base: int, len: nat)
    requires Reinserted(was, now, over, base, len) && len > 0
    ensures Tiles(now, len) && |now| > 1
  {
    TilesNotEmpty(now, len);
  }

  /** The levels before L1. */
  lemma Collected(main: seq<Run>, resolved: seq<Run>, whole: seq<Run>, explicits: seq<Run>, types: seq<CharType>, base: int, top: int)
    requires 0 <= base <= 1 && |types| > 0 && |whole| > 0
    requires |main| > 0 && forall x :: 0 <= x < |types| ==> CharPassed(main, explicits, types, base, x)
    requires AllResolved(main, resolved, explicits, |types|) && Reinserted(resolved, whole, explicits, base, |types|)
    requires base <= top && (forall k :: 1 <= k < |resolved| ==> resolved[k].level <= top)
    requires top <= Max(base, MAX_RESOLVED_LEVELS - 1)
    requires top == base || exists x :: LevelIs(resolved, explicits, |types|, x, top)
    ensures LevelsOf(types, base, LevelSeq(whole, |types|), top)
  {
    var before := LevelSeq(whole, |types|);
    hide AttrAt, Tiles, Fits, ImplicitLevel, Expected, Final, Removed, LevelSeq;
    forall x | 0 <= x < |types|
      ensures ResolvedLevel(types, base, before, x)
    {
      CollectedAt(main, resolved, whole, explicits, types, base, x);
    }
    hide AllResolved, CharPassed;
    LevelsBounded(main, resolved, whole, explicits, types, base, top, |types|);
    if top != base {
      var x :| LevelIs(resolved, explicits, |types|, x, top);
      assert before[x] == top;
    }
  }

  lemma CollectedAt(main: seq<Run>, resolved: seq<Run>, whole: seq<Run>, explicits: seq<Run>, types: seq<CharType>, base: int, x: int)
    requires 0 <= x < |types| && |whole| > 0
    requires |main| > 0 && CharPassed(main, explicits, types, base, x)
    requires AllResolved(main, resolved, explicits, |types|) && Reinserted(resolved, whole, explicits, base, |types|)
    ensures ResolvedLevel(types, base, LevelSeq(whole, |types|), x)
  {
    hide AttrAt, Tiles, Fits, ImplicitLevel, Expected, Final, Removed;
    if !Removed(types, x) {
      assert Resolved(main, resolved, x);
      KeptLevel(resolved, explicits, |types|, x);
      assert AttrAt(resolved, x).typ != Sentinel by { KeptIsReal(resolved, explicits, |types|, x); }
    }
  }

  lemma KeptIsReal(nodes: seq<Run>, over: seq<Run>, len: nat, x: int)
    requires Fits(nodes, over, len) && |nodes| > 0 && exists k :: 1 <= k < |nodes| && AttrOf(nodes[k]) == AttrAt(nodes, x)
    ensures AttrAt(nodes, x).typ != Sentinel
  {
    FitsIsList(nodes, over, len);
  }

  lemma {:induction false} LevelsBounded(main: seq<Run>, resolved: seq<Run>, whole: seq<Run>, explicits: seq<Run>,
                                         types: seq<CharType>, base: int, top: int, n: nat)
    requires n <= |types| && 0 <= base <= top && |whole| > 0
    requires AllResolved(main, resolved, explicits, |types|) && Reinserted(resolved, whole, explicits, base, |types|)
    requires forall k :: 1 <= k < |resolved| ==> resolved[k].level <= top
    ensures forall x :: 0 <= x < n ==> 0 <= LevelAt(whole, x) <= top
  {
    hide AttrAt, Tiles, Fits, AllResolved;
    if n > 0 {
      LevelsBounded(main, resolved, whole, explicits, types, base, top, n - 1);
      if !Covered(explicits, n - 1) {
        ResolvedFits(main, resolved, explicits, |types|);
        KeptLevel(resolved, explicits, |types|, n - 1);
      }
    }
  }

  lemma ResetOver(whole: seq<Run>, now: seq<Run>, over: seq<Run>, types: seq<CharType>, base: int)
    requires Painted(whole, over, |over|, now, |types|) && forall k :: 0 <= k < |over| ==> over[k].level == base
    requires forall x :: 0 <= x < |types| ==> (Covered(over, x) <==> Reset(types, x))
    ensures |whole| > 0 && |now| > 0
    ensures forall x :: 0 <= x < |types| ==> LevelAt(now, x) == if Reset(types, x) then base else LevelAt(whole, x)
  {
    hide AttrAt, Reset;
    forall x | 0 <= x < |types| && Covered(over, x)
      ensures LevelAt(now, x) == base
    {
      var k :| 0 <= k < |over| && Holds(over[k], x);
    }
  }
}
