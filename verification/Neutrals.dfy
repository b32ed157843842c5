/** Brackets, neutral types and implicit levels of 3rd/fribidi/fribidi-bidi.c: rules N0 to N2, I1 and I2,
    and the order in which the rules are applied. */
module Neutrals {
  import opened BidiTypes
  import opened Wrappers
  import opened RunList
  import opened Brackets
  import opened Resolve
  import opened Marks

  // ---------------------------------------------------------------- N0

  /** I1 and I2; numbers are R here, as they are for RL_TYPE_AN_EN_AS_RTL. */
  function StrongLevel(run: Run): int {
    run.level + (if LevelIsRtl(run.level) != run.typ.NumberToRtl().IsRtl() then 1 else 0)
  }

  predicate IsStrongRun(run: Run) { run.typ.NumberToRtl().IsStrong() }

  /** N0b: a strong type of the embedding direction within the pair. */
  predicate Agrees(nodes: seq<Run>, p: Pair, k: nat)
    requires p.open < |nodes|
  {
    p.open <= k < p.close && k < |nodes| && IsStrongRun(nodes[k]) && StrongLevel(nodes[k]) == nodes[p.open].level
  }

  /** N0c: any strong type within the pair, not in a deeper isolate. */
  predicate Opposes(nodes: seq<Run>, p: Pair, k: nat)
    requires p.open < |nodes|
  {
    p.open <= k < p.close && k < |nodes| && IsStrongRun(nodes[k]) && nodes[k].isolateLevel == nodes[p.open].isolateLevel
  }

  /** The level of the last strong type of the isolate before n, or that of the embedding. */
  function PrecedingLevel(nodes: seq<Run>, n: nat, isolateLevel: int, embedding: int): int
    requires n < |nodes|
  {
    if n == 0 then embedding
    else if IsStrongRun(nodes[n]) && nodes[n].isolateLevel == isolateLevel then StrongLevel(nodes[n])
    else PrecedingLevel(nodes, n - 1, isolateLevel, embedding)
  }

  predicate Within(nodes: seq<Run>, p: Pair) { 1 <= p.open < p.close < |nodes| }

  /** N0: the direction a pair of brackets gets, if any. */
  ghost function PairType(nodes: seq<Run>, p: Pair): Option<CharType>
    requires Within(nodes, p)
  {
    if exists k :: Agrees(nodes, p, k) then Some(LevelToDir(nodes[p.open].level))
    else if exists k :: Opposes(nodes, p, k) then
      Some(LevelToDir(PrecedingLevel(nodes, p.open - 1, nodes[p.open].isolateLevel, nodes[p.open].level)))
    else None
  }

  function SetPair(nodes: seq<Run>, p: Pair, t: Option<CharType>): seq<Run>
    requires Within(nodes, p)
  {
    if t.None? then nodes
    else nodes[p.open := nodes[p.open].(typ := t.value)][p.close := nodes[p.close].(typ := t.value)]
  }

  /** N0 for each pair in turn, in the order of the text: a pair sees what the pairs before it became. */
  ghost function Paired(nodes: seq<Run>, pairs: seq<Pair>): (r: seq<Run>)
    requires forall p :: p in pairs ==> Within(nodes, p)
    ensures |r| == |nodes|
    decreases |pairs|
  {
    if pairs == [] then nodes
    else
      var n := |pairs| - 1;
      var before := Paired(nodes, pairs[..n]);
      assert pairs[n] in pairs && Within(nodes, pairs[n]);
      SetPair(before, pairs[n], PairType(before, pairs[n]))
  }

  /** The walks of N0 from the opening to the closing bracket, and back from the opening one. */
  method ResolvePair(nodes: seq<Run>, p: Pair) returns (t: Option<CharType>)
    requires Within(nodes, p)
    ensures t == PairType(nodes, p)
  {
    hide IsStrongRun, StrongLevel;
    var embedding, isoLevel := nodes[p.open].level, nodes[p.open].isolateLevel;
    var k := p.open;
    while k != p.close
      invariant p.open <= k <= p.close
      invariant forall j :: p.open <= j < k ==> !Agrees(nodes, p, j)
      decreases p.close - k
    {
      if IsStrongRun(nodes[k]) && StrongLevel(nodes[k]) == embedding {
        assert Agrees(nodes, p, k);
        return Some(LevelToDir(StrongLevel(nodes[k])));
      }
      k := k + 1;
    }
    var preceding := embedding;
    k := p.open - 1;
    while k > 0
      invariant 0 <= k < p.open && preceding == embedding
      invariant PrecedingLevel(nodes, k, isoLevel, embedding) == PrecedingLevel(nodes, p.open - 1, isoLevel, embedding)
    {
      if IsStrongRun(nodes[k]) && nodes[k].isolateLevel == isoLevel {
        preceding := StrongLevel(nodes[k]);
        break;
      }
      k := k - 1;
    }
    assert preceding == PrecedingLevel(nodes, p.open - 1, isoLevel, embedding);
    k := p.open;
    while k != p.close
      invariant p.open <= k <= p.close
      invariant forall j :: p.open <= j < k ==> !Opposes(nodes, p, j)
      decreases p.close - k
    {
      if IsStrongRun(nodes[k]) && nodes[k].isolateLevel == isoLevel {
        assert Opposes(nodes, p, k);
        return Some(LevelToDir(preceding));
      }
      k := k + 1;
    }
    t := None;
  }

  lemma SetPairKeeps(before: seq<Run>, nodes: seq<Run>, over: seq<Run>, len: nat, p: Pair)
    requires Keeps(before, nodes, over, len) && Within(nodes, p)
    ensures Keeps(before, SetPair(nodes, p, PairType(nodes, p)), over, len)
    ensures AllSettled(nodes) ==> AllSettled(SetPair(nodes, p, PairType(nodes, p)))
  {
    var t := PairType(nodes, p);
    hide PairType, PrecedingLevel;
    if t.Some? {
      assert t.value in {LTR, RTL} by { PairTypeIs(nodes, p); }
      RetypeOne(before, nodes, over, len, p.open, t.value);
      RetypeOne(before, nodes[p.open := nodes[p.open].(typ := t.value)], over, len, p.close, t.value);
    }
  }

  lemma PairTypeIs(nodes: seq<Run>, p: Pair)
    requires Within(nodes, p)
    ensures PairType(nodes, p).Some? ==> PairType(nodes, p).value in {LTR, RTL}
  {
  }

  ghost predicate AllSettled(nodes: seq<Run>) {
    forall k :: 1 <= k < |nodes| ==> !Unsettled(nodes[k].typ)
  }

  /** The pairs that the stacks of rule BD16 yield before `stop`, in the order of their opening brackets. */
  ghost predicate PairsByStacks(nodes: seq<Run>, pairs: seq<Pair>, stop: nat) {
    && PairsOk(nodes, pairs) && (forall i, j :: 0 <= i < j < |pairs| ==> pairs[i].open < pairs[j].open)
    && stop <= |nodes| && PairedBefore(nodes, pairs, stop)
    && (stop < |nodes| ==> IsOpening(nodes[stop]) && (Full(nodes, pairs, stop) || Crowded(nodes, pairs, stop)))
  }

  /** These are the pairs, unless the rows of the stacks have overlapped where `upto` was reached. */
  ghost predicate BracketPairs(nodes: seq<Run>, pairs: seq<Pair>, stop: nat, ruled: seq<Pair>, upto: nat) {
    && Sorted(pairs) && AllBracketed(nodes, pairs) && upto <= stop <= |nodes|
    && PairsOk(nodes, ruled) && PairedBefore(nodes, ruled, upto)
    && ((PairsByStacks(nodes, pairs, stop) && upto == stop) || Crowded(nodes, ruled, upto))
  }

  lemma FoundPairs(nodes: seq<Run>, found: seq<Pair>, pairs: seq<Pair>, stop: nat, ruled: seq<Pair>, upto: nat)
    requires AllBracketed(nodes, found) && upto <= stop <= |nodes|
    requires PairsOk(nodes, ruled) && PairedBefore(nodes, ruled, upto)
    requires (found == ruled && upto == stop) || Crowded(nodes, ruled, upto)
    requires stop < |nodes| ==> IsOpening(nodes[stop])
    requires upto == stop < |nodes| && found == ruled ==> Full(nodes, found, stop) || Crowded(nodes, ruled, upto)
    requires Sorted(pairs) && multiset(pairs) == multiset(found)
    ensures BracketPairs(nodes, pairs, stop, ruled, upto)
  {
    hide PairsOk, PairedBefore, IsOpening, IsClosing, Full, Crowded, Sorted, PairsByStacks;
    forall p | p in pairs
      ensures Bracketed(nodes, p)
    {
      assert p in multiset(pairs);
      assert p in found;
    }
    if !Crowded(nodes, ruled, upto) { SortedPairs(nodes, found, pairs, stop); }
  }

  lemma SortedPairs(nodes: seq<Run>, found: seq<Pair>, pairs: seq<Pair>, stop: nat)
    requires PairsOk(nodes, found) && stop <= |nodes| && PairedBefore(nodes, found, stop)
    requires stop < |nodes| ==> IsOpening(nodes[stop]) && Full(nodes, found, stop)
    requires Sorted(pairs) && multiset(pairs) == multiset(found)
    ensures PairsByStacks(nodes, pairs, stop)
  {
    SortKeepsPairs(nodes, found, pairs);
    hide PairsOk, Sorted, IsOpening;
    forall p: Pair
      ensures p in found <==> p in pairs
    {
      assert p in multiset(found) <==> p in multiset(pairs);
    }
    PairedSame(nodes, found, pairs, stop);
    if stop < |nodes| { FullSame(nodes, found, pairs, stop); }
  }

  lemma PairedSame(nodes: seq<Run>, a: seq<Pair>, b: seq<Pair>, n: nat)
    requires PairedBefore(nodes, a, n) && forall p: Pair :: p in a <==> p in b
    ensures PairedBefore(nodes, b, n)
  {
    hide Nearest;
    forall x: nat, c: nat | c < n
      ensures Pair(x, c) in b <==> Nearest(nodes, b, x, c)
    {
      SameNearest(nodes, a, b, x, c);
    }
  }

  lemma FullSame(nodes: seq<Run>, a: seq<Pair>, b: seq<Pair>, n: nat)
    requires Full(nodes, a, n) && forall p: Pair :: p in a <==> p in b
    ensures Full(nodes, b, n)
  {
    hide LevelChange, IsOpening, Unbroken, Outside;
    forall x: nat
      ensures Waits(nodes, a, x, n) <==> Waits(nodes, b, x, n)
    {
    }
    hide Waits;
  }

  /** N0: finds the pairs, sorts them and gives each its direction. */
  method ResolveBrackets(list: RunList, ghost over: seq<Run>, ghost len: nat)
      returns (pairs: seq<Pair>, stop: nat, ghost ruled: seq<Pair>, ghost upto: nat)
    requires Levelled(list.nodes, over, len) && AllSettled(list.nodes)
    modifies list
    ensures BracketPairs(old(list.nodes), pairs, stop, ruled, upto)
    ensures (forall p :: p in pairs ==> Within(old(list.nodes), p)) && list.nodes == Paired(old(list.nodes), pairs)
    ensures Keeps(old(list.nodes), list.nodes, over, len) && AllSettled(list.nodes)
  {
    hide Levelled, Keeps, BracketPairs, PairType, AllSettled, SetPair, Paired, PairsOk, PairedBefore, Crowded, Full, IsOpening, AllBracketed, Sorted;
    ghost var was := list.nodes;
    KeepsStart(was, over, len);
    var found;
    LevelsIndexed(was, over, len);
    found, stop, ruled, upto := FindPairs(list.nodes);
    pairs := SortPairs(found);
    FoundPairs(was, found, pairs, stop, ruled, upto);
    PairsWithin(was, pairs, stop, ruled, upto);
    var i := 0;
    PairedNone(was);
    while i < |pairs|
      invariant 0 <= i <= |pairs| && list.nodes == Paired(was, pairs[..i]) && |list.nodes| == |was|
      invariant Keeps(was, list.nodes, over, len) && AllSettled(list.nodes)
    {
      assert pairs[i] in pairs;
      var t := ResolvePair(list.nodes, pairs[i]);
      SetPairKeeps(was, list.nodes, over, len, pairs[i]);
      PairedNext(was, pairs, i);
      list.nodes := SetPair(list.nodes, pairs[i], t);
      i := i + 1;
    }
    assert pairs[..i] == pairs;
  }

  lemma LevelsIndexed(nodes: seq<Run>, over: seq<Run>, len: nat)
    requires Levelled(nodes, over, len)
    ensures LevelsIndex(nodes) && |nodes| >= 1
  {
    hide NodeFits, Free;
  }

  lemma PairsWithin(nodes: seq<Run>, pairs: seq<Pair>, stop: nat, ruled: seq<Pair>, upto: nat)
    requires BracketPairs(nodes, pairs, stop, ruled, upto)
    ensures forall p :: p in pairs ==> Within(nodes, p)
  {
  }

  lemma PairedNone(nodes: seq<Run>)
    ensures Paired(nodes, []) == nodes
  {
  }

  lemma PairedNext(nodes: seq<Run>, pairs: seq<Pair>, i: nat)
    requires i < |pairs| && forall p :: p in pairs ==> Within(nodes, p)
    ensures pairs[i] in pairs && forall p :: p in pairs[..i + 1] ==> p in pairs
    ensures var before := Paired(nodes, pairs[..i]);
            Paired(nodes, pairs[..i + 1]) == SetPair(before, pairs[i], PairType(before, pairs[i]))
  {
    hide PairType, SetPair;
    assert pairs[..i + 1][..i] == pairs[..i] && pairs[..i + 1][i] == pairs[i];
  }

  // ---------------------------------------------------------------- N1 and N2

  /** The type that N1 and N2 give run i of was; now holds the types of the runs before. */
  function NeutralType(was: seq<Run>, now: seq<Run>, i: nat): CharType
    requires 1 <= i < |was| == |now|
  {
    var a, b := TypeBefore(now, i).NumberToRtl(), TypeAfter(was, i).NumberToRtl();
    if !was[i].typ.IsNeutral() then was[i].typ
    else if a == b then a
    else LevelToDir(was[i].level)
  }

  ghost predicate NeutralUpTo(was: seq<Run>, now: seq<Run>, i: nat)
    requires i <= |was|
  {
    && SameFrame(was, now)
    && (forall k :: 1 <= k < i ==> now[k].typ == NeutralType(was, now, k))
    && (forall k :: 0 <= k < |was| && (k == 0 || i <= k) ==> now[k] == was[k])
  }

  lemma NeutralStart(was: seq<Run>)
    requires |was| > 0
    ensures NeutralUpTo(was, was, 1)
  {
  }

  lemma NeutralStep(was: seq<Run>, now: seq<Run>, i: nat)
    requires 1 <= i < |was| && NeutralUpTo(was, now, i)
    ensures NeutralUpTo(was, now[i := now[i].(typ := NeutralType(was, now, i))], i + 1)
  {
    hide NeutralType;
    var next := now[i := now[i].(typ := NeutralType(was, now, i))];
    forall k | 1 <= k < i + 1
      ensures next[k].typ == NeutralType(was, next, k)
    {
      NeutralTypeSame(was, now, next, k);
    }
  }

  lemma NeutralTypeSame(was: seq<Run>, a: seq<Run>, b: seq<Run>, i: nat)
    requires 1 <= i < |was| == |a| && SameFrame(a, b) && forall k :: 0 <= k < i ==> a[k].typ == b[k].typ
    ensures NeutralType(was, a, i) == NeutralType(was, b, i)
  {
    TypeBeforeSame(a, b, i);
  }

  predicate Final(t: CharType) { !Unsettled(t) && !t.IsNeutral() }

  /** No neutral type survives. */
  lemma {:induction false} NoNeutralLeft(was: seq<Run>, now: seq<Run>, i: nat, k: nat)
    requires 1 <= k < i <= |was| && NeutralUpTo(was, now, i) && AllSettled(was)
    ensures Final(now[k].typ)
    decreases k
  {
    hide Before, NeutralType, TypeBefore, Final;
    var p := Before(now, k);
    if p > 0 { NoNeutralLeft(was, now, i, p); }
    assert now[k].typ == NeutralType(was, now, k);
    BesideFinal(now, k);
    NeutralFinal(was, now, k);
  }

  lemma BesideFinal(nodes: seq<Run>, k: nat)
    requires 1 <= k < |nodes| && (Before(nodes, k) > 0 ==> Final(nodes[Before(nodes, k)].typ))
    ensures Final(TypeBefore(nodes, k))
  {
    hide Before;
  }

  lemma NeutralFinal(was: seq<Run>, now: seq<Run>, k: nat)
    requires 1 <= k < |was| == |now| && Final(TypeBefore(now, k)) && !Unsettled(was[k].typ)
    ensures Final(NeutralType(was, now, k))
  {
    hide TypeBefore, TypeAfter;
  }

  method ResolveNeutrals(list: RunList, ghost over: seq<Run>, ghost len: nat)
    requires Levelled(list.nodes, over, len) && AllSettled(list.nodes)
    modifies list
    ensures Keeps(old(list.nodes), list.nodes, over, len)
    ensures NeutralUpTo(old(list.nodes), list.nodes, |old(list.nodes)|)
    ensures forall k :: 1 <= k < |list.nodes| ==> Final(list.nodes[k].typ)
  {
    hide Levelled, LevelsKept, NeutralUpTo, TypeBefore, TypeAfter, AllSettled;
    ghost var was := list.nodes;
    var i := 1;
    KeepsStart(was, over, len);
    NeutralStart(was);
    while i < |list.nodes|
      invariant 1 <= i <= |list.nodes| == |was| && NeutralUpTo(was, list.nodes, i)
      invariant Keeps(was, list.nodes, over, len)
    {
      ghost var now := list.nodes;
      var prevType := TypeBefore(list.nodes, i).NumberToRtl();
      var nextType := TypeAfter(list.nodes, i).NumberToRtl();
      var t := list.nodes[i].typ;
      NeutralIs(was, now, i, over, len);
      NeutralStep(was, now, i);
      if t.NumberToRtl().IsNeutral() {
        t := if prevType == nextType then prevType else LevelToDir(list.nodes[i].level);
      }
      RetypeOne(was, now, over, len, i, t);
      list.nodes := list.nodes[i := list.nodes[i].(typ := t)];
      i := i + 1;
    }
    forall k | 1 <= k < |list.nodes|
      ensures Final(list.nodes[k].typ)
    {
      NoNeutralLeft(was, list.nodes, |was|, k);
    }
  }

  lemma NeutralIs(was: seq<Run>, now: seq<Run>, i: nat, over: seq<Run>, len: nat)
    requires 1 <= i < |was| && NeutralUpTo(was, now, i) && Levelled(now, over, len)
    ensures now[i] == was[i] && TypeAfter(now, i) == TypeAfter(was, i)
    ensures NeutralType(was, now, i) != Sentinel
  {
    hide TypeBefore, TypeAfter;
    NoSentinelInside(now, over, len);
    BesideIsReal(now, over, len, i);
    TypeAfterSame(now, was, i);
  }

  // ---------------------------------------------------------------- I1 and I2

  /** I1 and I2 */
  function ImplicitLevel(level: int, t: CharType): int {
    if t.IsNumber() then level + 2 - level % 2
    else level + (if LevelIsRtl(level) != t.IsRtl() then 1 else 0)
  }

  /** Left-to-right letters and numbers get an even level, right-to-left ones an odd level: the least
      one that is not below the embedding level, except that a number is raised from an even one. */
  lemma ImplicitParity(level: int, t: CharType)
    requires 0 <= level <= MAX_EXPLICIT_LEVEL
    ensures var r := ImplicitLevel(level, t);
            && level <= r < MAX_RESOLVED_LEVELS
            && (LevelIsRtl(r) <==> !t.IsNumber() && t.IsRtl())
            && (t.IsNumber() ==> level < r)
            && forall m :: level + (if t.IsNumber() then 1 else 0) <= m < r ==> LevelIsRtl(m) != LevelIsRtl(r)
  {
  }

  ghost predicate Raised(was: seq<Run>, now: seq<Run>, n: nat)
    requires n <= |was|
  {
    && |now| == |was|
    && (forall k :: 1 <= k < n ==> now[k] == was[k].(level := ImplicitLevel(was[k].level, was[k].typ)))
    && (forall k :: 0 <= k < |was| && (k == 0 || n <= k) ==> now[k] == was[k])
  }

  /** The greatest level of the runs before n, or the base level. */
  ghost predicate IsMax(nodes: seq<Run>, n: nat, base: int, m: int)
    requires n <= |nodes|
  {
    && base <= m && (forall k :: 1 <= k < n ==> nodes[k].level <= m)
    && (m == base || exists k :: 1 <= k < n && nodes[k].level == m)
  }

  method ResolveImplicit(list: RunList, baseLevel: int) returns (maxLevel: int)
    requires |list.nodes| > 0
    modifies list
    ensures Raised(old(list.nodes), list.nodes, |old(list.nodes)|)
    ensures IsMax(list.nodes, |list.nodes|, baseLevel, maxLevel)
  {
    hide ImplicitLevel;
    maxLevel := baseLevel;
    var i := 1;
    while i < |list.nodes|
      invariant 1 <= i <= |list.nodes| == |old(list.nodes)| && Raised(old(list.nodes), list.nodes, i)
      invariant IsMax(list.nodes, i, baseLevel, maxLevel)
    {
      var run := list.nodes[i];
      list.nodes := list.nodes[i := run.(level := ImplicitLevel(run.level, run.typ))];
      if list.nodes[i].level > maxLevel {
        maxLevel := list.nodes[i].level;
      }
      i := i + 1;
    }
  }

  // ---------------------------------------------------------------- all the rules

  /** What the rules make of character x: a type that is settled, and the level that type asks for. */
  ghost predicate Resolved(was: seq<Run>, now: seq<Run>, x: int)
    requires |was| > 0 && |now| > 0
  {
    var t := AttrAt(now, x).typ;
    t != Sentinel ==> Final(t) && AttrAt(now, x).level == ImplicitLevel(AttrAt(was, x).level, t)
  }

  /** The text is still all there, and each character has its final level. */
  ghost predicate AllResolved(was: seq<Run>, now: seq<Run>, over: seq<Run>, len: nat) {
    && |was| > 0 && Fits(now, over, len) && |now| > 0 && now[0] == was[0]
    && (forall x :: 0 <= x ==> Resolved(was, now, x))
    && (forall k :: 1 <= k < |now| ==> 0 <= now[k].level < MAX_RESOLVED_LEVELS)
  }

  lemma RaisedResolved(was: seq<Run>, mid: seq<Run>, now: seq<Run>, over: seq<Run>, len: nat)
    requires Keeps(was, mid, over, len) && Raised(mid, now, |mid|)
    requires forall k :: 1 <= k < |mid| ==> Final(mid[k].typ)
    ensures AllResolved(was, now, over, len)
  {
    NoSentinelInside(mid, over, len);
    hide Free, NodeFits, IsList, Owner;
    assert mid[0].typ == Sentinel by { FirstIsSentinel(mid, over, len); }
    SameShapeFits(mid, now, over, len);
    forall k | 1 <= k < |now|
      ensures 0 <= now[k].level < MAX_RESOLVED_LEVELS
    {
      ImplicitParity(mid[k].level, mid[k].typ);
    }
    hide ImplicitLevel;
    forall x | 0 <= x
      ensures Resolved(was, now, x)
    {
      SameOwner(mid, now, |now|, x);
    }
  }

  lemma FirstIsSentinel(nodes: seq<Run>, over: seq<Run>, len: nat)
    requires Levelled(nodes, over, len)
    ensures |nodes| > 0 && nodes[0].typ == Sentinel
  {
    hide Free, NodeFits;
  }

  lemma CompactKeeps(was: seq<Run>, nodes: seq<Run>, over: seq<Run>, len: nat, now: seq<Run>)
    requires Keeps(was, nodes, over, len) && Fits(now, over, len) && RunsFrom(nodes, now) && SameLevels(nodes, now)
    ensures Keeps(was, now, over, len)
  {
    hide Free, NodeFits, IsList, Owner, Fits;
    forall k | 1 <= k < |now|
      ensures 0 <= now[k].level <= MAX_EXPLICIT_LEVEL && 0 <= now[k].isolateLevel < MAX_EXPLICIT_LEVEL
    {
      assert AttrIn(nodes, now[k]);
    }
  }

  lemma CompactSettled(nodes: seq<Run>, now: seq<Run>)
    requires RunsFrom(nodes, now)
    ensures AllSettled(nodes) ==> AllSettled(now)
    ensures (forall k :: 1 <= k < |nodes| ==> Final(nodes[k].typ)) ==> forall k :: 1 <= k < |now| ==> Final(now[k].typ)
  {
    hide Unsettled, Final;
    forall k | 1 <= k < |now|
      ensures exists j :: 1 <= j < |nodes| && nodes[j].typ == now[k].typ
    {
      assert AttrIn(nodes, now[k]);
    }
  }

  lemma CompactResolved(was: seq<Run>, nodes: seq<Run>, over: seq<Run>, len: nat, now: seq<Run>)
    requires AllResolved(was, nodes, over, len) && Fits(now, over, len) && RunsFrom(nodes, now)
    requires forall x :: 0 <= x ==> AttrAt(now, x) == AttrAt(nodes, x)
    ensures AllResolved(was, now, over, len)
  {
    hide Free, NodeFits, IsList, AttrAt, Fits, ImplicitLevel, Final;
    forall k | 1 <= k < |now|
      ensures 0 <= now[k].level < MAX_RESOLVED_LEVELS
    {
      assert AttrIn(nodes, now[k]);
    }
    forall x | 0 <= x
      ensures Resolved(was, now, x)
    {
      assert Resolved(was, nodes, x);
    }
  }

  /** Every character has the same type, level and bracket. */
  ghost predicate SameTypes(a: seq<Run>, b: seq<Run>) {
    |a| > 0 && |b| > 0 && forall x :: 0 <= x ==> AttrAt(b, x) == AttrAt(a, x) && PlaceAt(b, x).bracket == PlaceAt(a, x).bracket
  }

  /** compact_list and compact_neutrals among the rules. */
  method Compact(list: RunList, neutrals: bool, ghost was: seq<Run>, ghost over: seq<Run>, ghost len: nat)
    requires Keeps(was, list.nodes, over, len)
    modifies list
    ensures Keeps(was, list.nodes, over, len) && RunsFrom(old(list.nodes), list.nodes)
    ensures SameLevels(old(list.nodes), list.nodes) && (!neutrals ==> SameTypes(old(list.nodes), list.nodes))
    ensures list.nodes == Compacted(old(list.nodes), 1, neutrals)
  {
    hide SameLevels, RunsFrom, Fits, AttrAt, PlaceAt, SameTypes;
    if neutrals {
      list.CompactNeutrals(over, len);
    } else {
      list.CompactList(over, len);
      assert |old(list.nodes)| > 0 && |list.nodes| > 0 by { SameLevelsReal(old(list.nodes), list.nodes); }
      SameTypesIs(old(list.nodes), list.nodes);
    }
    CompactKeeps(was, old(list.nodes), over, len, list.nodes);
  }

  lemma SameLevelsReal(a: seq<Run>, b: seq<Run>)
    requires SameLevels(a, b)
    ensures |a| > 0 && |b| > 0
  {
  }

  lemma SameTypesIs(a: seq<Run>, b: seq<Run>)
    requires SameLevels(a, b) && |a| > 0 && |b| > 0 && forall x :: 0 <= x ==> AttrAt(b, x) == AttrAt(a, x)
    ensures SameTypes(a, b)
  {
    hide AttrAt, PlaceAt;
  }

  /** Character x is in the list and has level m. */
  ghost predicate LevelIs(nodes: seq<Run>, over: seq<Run>, len: nat, x: int, m: int) {
    |nodes| > 0 && 0 <= x < len && !Covered(over, x) && AttrAt(nodes, x).level == m
  }

  lemma MaxIsReal(nodes: seq<Run>, now: seq<Run>, over: seq<Run>, len: nat, base: int, m: int)
    requires Fits(nodes, over, len) && IsMax(nodes, |nodes|, base, m) && m != base
    requires |now| > 0 && forall x :: 0 <= x ==> AttrAt(now, x) == AttrAt(nodes, x)
    ensures exists x :: LevelIs(now, over, len, x, m)
  {
    var k :| 1 <= k < |nodes| && nodes[k].level == m;
    var x := FreeIn(nodes, over, len, k);
    assert LevelIs(now, over, len, x, m);
  }

  /** Every run holds a character. */
  lemma FreeIn(nodes: seq<Run>, over: seq<Run>, len: nat, k: nat) returns (x: int)
    requires Fits(nodes, over, len) && 1 <= k < |nodes|
    ensures 0 <= x < len && !Covered(over, x) && AttrAt(nodes, x) == AttrOf(nodes[k])
  {
    hide Free;
    FitsIsList(nodes, over, len);
    ListNotEmpty(nodes);
    var a, b := nodes[k].pos, NextPos(nodes, k, len);
    assert NodeFits(nodes, over, len, k);
    if forall y :: a <= y < b ==> Covered(over, y) { FreeOfAll(over, a, b); }
    x :| a <= x < b && !Covered(over, x);
    assert nodes[0].pos < a && b <= len by { NextWithin(nodes, over, len, k); }
    OwnerIs(nodes, |nodes|, x, k);
  }

  lemma NextWithin(nodes: seq<Run>, over: seq<Run>, len: nat, k: nat)
    requires Fits(nodes, over, len) && 1 <= k < |nodes|
    ensures nodes[0].pos == -1 < nodes[k].pos && NextPos(nodes, k, len) <= len
  {
    hide Free;
    if k + 1 < |nodes| { assert NodeFits(nodes, over, len, k + 1); }
  }

  /** The list after each stage, with the bracket pairs between. */
  datatype Stages = Stages(compact: seq<Run>, marks: seq<Run>, mirror: seq<nat>, weak: seq<Run>, joined: seq<Run>, pairs: seq<Pair>,
                           stop: nat, ruled: seq<Pair>, upto: nat, paired: seq<Run>, plain: seq<Run>, neutral: seq<Run>, final: seq<Run>, raised: seq<Run>)

  /** W1 and W2, where marks follow the runs before them; mirror tells what each run has become part of. */
  ghost predicate Marking(was: seq<Run>, now: seq<Run>, mirror: seq<nat>) {
    IsList(now) && (MarksFollow(was) ==> MarksResolved(was, now) && Mirrors(was, now, mirror, |was|, |now|))
  }

  function WithoutBrackets(nodes: seq<Run>): (r: seq<Run>)
    ensures |r| == |nodes| && forall k :: 0 <= k < |r| ==> r[k] == if k == 0 then nodes[k] else nodes[k].(bracket := NoBracket)
  {
    seq(|nodes|, k requires 0 <= k < |nodes| => if k == 0 then nodes[k] else nodes[k].(bracket := NoBracket))
  }

  /** The rules were applied in their order, runs being joined between them. */
  ghost predicate InOrder(was: seq<Run>, s: Stages, now: seq<Run>) {
    && s.compact == Compacted(was, 1, false) && SameTypes(was, s.compact)
    && Marking(s.compact, s.marks, s.mirror)
    && WeakUpTo(s.marks, s.weak, |s.marks|) && IsList(s.weak)
    && s.joined == Compacted(s.weak, 1, true) && SameLevels(s.weak, s.joined)
    && BracketPairs(s.joined, s.pairs, s.stop, s.ruled, s.upto) && (forall p :: p in s.pairs ==> Within(s.joined, p)) && s.paired == Paired(s.joined, s.pairs)
    && s.plain == Compacted(WithoutBrackets(s.paired), 1, true) && SameLevels(WithoutBrackets(s.paired), s.plain)
    && NeutralUpTo(s.plain, s.neutral, |s.plain|)
    && s.final == Compacted(s.neutral, 1, false) && SameTypes(s.neutral, s.final)
    && Raised(s.final, s.raised, |s.final|)
    && now == Compacted(s.raised, 1, false) && SameTypes(s.raised, now)
  }

  /** W1 to I2. */
  method ResolveTypes(list: RunList, baseLevel: int, ghost over: seq<Run>, ghost len: nat) returns (maxLevel: int, ghost s: Stages)
    requires Levelled(list.nodes, over, len)
    modifies list
    ensures AllResolved(old(list.nodes), list.nodes, over, len)
    ensures baseLevel <= maxLevel && (forall k :: 1 <= k < |list.nodes| ==> list.nodes[k].level <= maxLevel)
    ensures maxLevel <= Max(baseLevel, MAX_RESOLVED_LEVELS - 1)
    ensures maxLevel == baseLevel || exists x :: LevelIs(list.nodes, over, len, x, maxLevel)
    ensures InOrder(old(list.nodes), s, list.nodes)
  {
    hide LevelIs, Levelled, LevelsKept, AllSettled, Final, Raised, IsMax, AllResolved, RunsFrom, WeakUpTo, NeutralUpTo, BracketPairs, Paired,
         SameTypes, SameLevels, Marking, IsList;
    ghost var was := list.nodes;
    KeepsStart(was, over, len);
    Compact(list, false, was, over, len);
    ghost var compact := list.nodes;
    ghost var marks, mirror, weak := ResolveWeak(list, LevelToDir(baseLevel), was, over, len);
    ghost var joined := list.nodes;
    var pairs, stop;
    ghost var ruled, upto;
    pairs, stop, ruled, upto := ResolveBrackets(list, over, len);
    PairsWithin(joined, pairs, stop, ruled, upto);
    ghost var paired := list.nodes;
    KeepsTrans(was, joined, paired, over, len);
    RemoveBrackets(list, was, over, len);
    ghost var plain := list.nodes;
    ResolveNeutrals(list, over, len);
    ghost var neutral := list.nodes;
    KeepsTrans(was, plain, neutral, over, len);
    Compact(list, false, was, over, len);
    ghost var final := list.nodes;
    CompactSettled(neutral, final);
    NoSentinelInside(final, over, len);
    maxLevel := ResolveImplicit(list, baseLevel);
    ghost var raised := list.nodes;
    RaisedResolved(was, final, raised, over, len);
    MaxBounded(was, raised, over, len, baseLevel, maxLevel);
    FitsOf(was, raised, over, len);
    list.CompactList(over, len);
    SameLevelsReal(raised, list.nodes);
    CompactResolved(was, raised, over, len, list.nodes);
    MaxCompact(raised, list.nodes, baseLevel, maxLevel);
    if maxLevel != baseLevel { MaxIsReal(raised, list.nodes, over, len, baseLevel, maxLevel); }
    s := Stages(compact, marks, mirror, weak, joined, pairs, stop, ruled, upto, paired, plain, neutral, final, raised);
    SameTypesIs(raised, list.nodes);
  }

  method ResolveWeak(list: RunList, baseDir: CharType, ghost was: seq<Run>, ghost over: seq<Run>, ghost len: nat)
      returns (ghost marks: seq<Run>, ghost mirror: seq<nat>, ghost weak: seq<Run>)
    requires Keeps(was, list.nodes, over, len)
    modifies list
    ensures Keeps(was, list.nodes, over, len) && AllSettled(list.nodes)
    ensures Marking(old(list.nodes), marks, mirror)
    ensures WeakUpTo(marks, weak, |marks|) && IsList(weak) && SameLevels(weak, list.nodes) && list.nodes == Compacted(weak, 1, true)
  {
    hide Levelled, LevelsKept, RunsFrom, WeakUpTo, Unsettled, SameLevels, MarksFollow, MarksResolved, SameTypes, Mirrors, IsList;
    ghost var before := list.nodes;
    var strong;
    strong, mirror := ResolveMarks(list, baseDir, over, len);
    marks := list.nodes;
    LevelledList(marks, over, len);
    KeepsTrans(was, before, marks, over, len);
    ResolveNumbers(list, baseDir, strong, over, len);
    weak := list.nodes;
    LevelledList(weak, over, len);
    KeepsTrans(was, marks, weak, over, len);
    Compact(list, true, was, over, len);
    assert AllSettled(weak);
    CompactSettled(weak, list.nodes);
  }

  /** Brackets are done with: their runs may be joined with their neighbours. */
  method RemoveBrackets(list: RunList, ghost was: seq<Run>, ghost over: seq<Run>, ghost len: nat)
    requires Keeps(was, list.nodes, over, len) && AllSettled(list.nodes)
    modifies list
    ensures Keeps(was, list.nodes, over, len) && AllSettled(list.nodes)
    ensures list.nodes == Compacted(WithoutBrackets(old(list.nodes)), 1, true) && SameLevels(WithoutBrackets(old(list.nodes)), list.nodes)
  {
    hide Levelled, LevelsKept, RunsFrom, Unsettled, SameLevels, SameTypes;
    ghost var before := list.nodes;
    var i := 1;
    while i < |list.nodes|
      invariant |list.nodes| == |before| && (i >= 1)
      invariant forall k :: 1 <= k < |before| ==> list.nodes[k] == before[k].(bracket := if k < i then NoBracket else before[k].bracket)
      invariant |before| > 0 ==> list.nodes[0] == before[0]
    {
      list.nodes := list.nodes[i := list.nodes[i].(bracket := NoBracket)];
      i := i + 1;
    }
    NoSentinelInside(before, over, len);
    RetypeKeeps(before, list.nodes, over, len);
    KeepsTrans(was, before, list.nodes, over, len);
    ghost var plain := list.nodes;
    assert plain == WithoutBrackets(before);
    Compact(list, true, was, over, len);
    CompactSettled(plain, list.nodes);
  }

  lemma MaxBounded(was: seq<Run>, nodes: seq<Run>, over: seq<Run>, len: nat, base: int, m: int)
    requires AllResolved(was, nodes, over, len) && IsMax(nodes, |nodes|, base, m)
    ensures m <= Max(base, MAX_RESOLVED_LEVELS - 1)
  {
    hide Resolved, Fits;
  }

  lemma MaxCompact(nodes: seq<Run>, now: seq<Run>, base: int, m: int)
    requires RunsFrom(nodes, now) && IsMax(nodes, |nodes|, base, m)
    ensures base <= m && forall k :: 1 <= k < |now| ==> now[k].level <= m
  {
    forall k | 1 <= k < |now|
      ensures now[k].level <= m
    {
      assert AttrIn(nodes, now[k]);
    }
  }

  lemma FitsOf(was: seq<Run>, nodes: seq<Run>, over: seq<Run>, len: nat)
    requires AllResolved(was, nodes, over, len)
    ensures Fits(nodes, over, len)
  {
    hide Resolved, Fits;
  }
}
