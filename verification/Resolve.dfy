/** Weak types of 3rd/fribidi/fribidi-bidi.c: what no rule may break, the neighbours of a run, and rules W3 to
    W7.  The neighbours of a run are those of its isolating run sequence; next_isolate and
    prev_isolate link them, here they are looked up. */
module Resolve {
  import opened BidiTypes
  import opened RunList
  import opened Brackets

  // ---------------------------------------------------------------- what no rule may break

  /** Levels are valid, and isolate levels index the arrays that have an entry for each of them. */
  ghost predicate Levelled(nodes: seq<Run>, over: seq<Run>, len: nat) {
    && Fits(nodes, over, len)
    && forall k :: 1 <= k < |nodes| ==> 0 <= nodes[k].level <= MAX_EXPLICIT_LEVEL && 0 <= nodes[k].isolateLevel < MAX_EXPLICIT_LEVEL
  }

  ghost predicate LevelsKept(before: seq<Run>, after: seq<Run>) {
    && |before| > 0 && |after| > 0 && before[0] == after[0]
    && forall x :: 0 <= x ==> AttrAt(before, x).level == AttrAt(after, x).level
  }

  /** No character is lost or gets another level. */
  ghost predicate Keeps(before: seq<Run>, after: seq<Run>, over: seq<Run>, len: nat) {
    Levelled(after, over, len) && LevelsKept(before, after)
  }

  lemma KeepsStart(nodes: seq<Run>, over: seq<Run>, len: nat)
    requires Levelled(nodes, over, len)
    ensures Keeps(nodes, nodes, over, len) && |nodes| > 0
  {
    hide Free, Owner;
    ListNotEmpty(nodes);
  }

  lemma KeepsTrans(a: seq<Run>, b: seq<Run>, c: seq<Run>, over: seq<Run>, len: nat)
    requires Keeps(a, b, over, len) && Keeps(b, c, over, len)
    ensures Keeps(a, c, over, len)
  {
    hide Levelled, AttrAt;
  }

  lemma SameShapeFits(nodes: seq<Run>, n: seq<Run>, over: seq<Run>, len: nat)
    requires Fits(nodes, over, len) && |n| == |nodes|
    requires forall k :: 0 <= k < |n| ==> n[k].pos == nodes[k].pos && n[k].len == nodes[k].len
    requires forall k :: 0 <= k < |n| ==> (n[k].typ == Sentinel <==> nodes[k].typ == Sentinel)
    ensures Fits(n, over, len)
  {
    hide Free, IsList;
    ListNotEmpty(nodes);
    assert IsList(n) by { SameShape(nodes, n); }
    forall k | 1 <= k < |n|
      ensures NodeFits(n, over, len, k)
    {
      assert NodeFits(nodes, over, len, k);
      assert NextPos(n, k, len) == NextPos(nodes, k, len);
    }
    assert NextPos(n, 0, len) == NextPos(nodes, 0, len);
  }

  lemma SameShape(nodes: seq<Run>, n: seq<Run>)
    requires IsList(nodes) && |n| == |nodes|
    requires forall k :: 0 <= k < |n| ==> n[k].pos == nodes[k].pos
    requires forall k :: 0 <= k < |n| ==> (n[k].typ == Sentinel <==> nodes[k].typ == Sentinel)
    ensures IsList(n)
  {
  }

  /** Types and brackets are free to change. */
  lemma RetypeKeeps(nodes: seq<Run>, n: seq<Run>, over: seq<Run>, len: nat)
    requires Levelled(nodes, over, len) && |n| == |nodes| && n[0] == nodes[0]
    requires forall k :: 1 <= k < |n| ==>
               && n[k].pos == nodes[k].pos && n[k].len == nodes[k].len && n[k].level == nodes[k].level
               && n[k].isolateLevel == nodes[k].isolateLevel && n[k].typ != Sentinel
    ensures Keeps(nodes, n, over, len)
  {
    assert |n| > 0 && nodes[0].typ == Sentinel && (forall k :: 1 <= k < |nodes| ==> nodes[k].typ != Sentinel) by {
      ListNotEmpty(nodes);
      hide Free, NodeFits;
    }
    SameShapeFits(nodes, n, over, len);
    hide Free, NodeFits, IsList;
    forall x | 0 <= x
      ensures AttrAt(nodes, x).level == AttrAt(n, x).level
    {
      SameOwner(nodes, n, |n|, x);
    }
  }

  lemma RetypeOne(before: seq<Run>, nodes: seq<Run>, over: seq<Run>, len: nat, i: nat, t: CharType)
    requires Keeps(before, nodes, over, len) && 1 <= i < |nodes| && t != Sentinel
    ensures Keeps(before, nodes[i := nodes[i].(typ := t)], over, len)
  {
    NoSentinelInside(nodes, over, len);
    hide Levelled, LevelsKept;
    var n := nodes[i := nodes[i].(typ := t)];
    assert Keeps(nodes, n, over, len) by { RetypeKeeps(nodes, n, over, len); }
    KeepsTrans(before, nodes, n, over, len);
  }

  lemma NoSentinelInside(nodes: seq<Run>, over: seq<Run>, len: nat)
    requires Levelled(nodes, over, len)
    ensures |nodes| > 0 && forall k :: 1 <= k < |nodes| ==>
              nodes[k].typ != Sentinel && 0 <= nodes[k].level <= MAX_EXPLICIT_LEVEL && 0 <= nodes[k].isolateLevel < MAX_EXPLICIT_LEVEL
  {
    hide Free, NodeFits;
  }

  lemma MergeOne(before: seq<Run>, nodes: seq<Run>, over: seq<Run>, len: nat, i: nat)
    requires Keeps(before, nodes, over, len) && 2 <= i < |nodes| && nodes[i - 1].level == nodes[i].level
    ensures Keeps(before, Merged(nodes, i), over, len)
  {
    var m := Merged(nodes, i);
    MergeFits(nodes, over, len, i);
    assert Keeps(nodes, m, over, len) by { MergeLevels(nodes, over, len, i); }
    hide Levelled, LevelsKept;
    KeepsTrans(before, nodes, m, over, len);
  }

  lemma MergeLevels(nodes: seq<Run>, over: seq<Run>, len: nat, i: nat)
    requires Levelled(nodes, over, len) && 2 <= i < |nodes| && nodes[i - 1].level == nodes[i].level
    requires Fits(Merged(nodes, i), over, len)
    ensures Keeps(nodes, Merged(nodes, i), over, len)
  {
    var m := Merged(nodes, i);
    assert IsList(nodes);
    hide Free, NodeFits, Owner, IsList, Merged;
    forall k | 1 <= k < |m|
      ensures 0 <= m[k].level <= MAX_EXPLICIT_LEVEL && 0 <= m[k].isolateLevel < MAX_EXPLICIT_LEVEL
    {
      MergeShape(nodes, i, k, len);
    }
    MergeShape(nodes, i, 0, len);
    MergeFirst(nodes, i);
    forall x | 0 <= x
      ensures AttrAt(nodes, x).level == AttrAt(m, x).level
    {
      MergeOwner(nodes, i, x);
      MergeShape(nodes, i, Owner(m, |m|, x), len);
    }
  }

  // ---------------------------------------------------------------- neighbours in the isolating run sequence

  /** prev_isolate: the nearest run before that is not in a deeper isolate, if it is of the same one. */
  function LinkBefore(nodes: seq<Run>, j: int, isolateLevel: int): (p: nat)
    requires j < |nodes|
    ensures p == 0 || (p <= j && nodes[p].isolateLevel == isolateLevel)
    decreases j
  {
    if j <= 0 || nodes[j].isolateLevel < isolateLevel then 0
    else if nodes[j].isolateLevel == isolateLevel then j
    else LinkBefore(nodes, j - 1, isolateLevel)
  }

  /** next_isolate; a PDI is passed over. */
  function LinkAfter(nodes: seq<Run>, j: nat, isolateLevel: int): (p: nat)
    ensures p == 0 || (j <= p < |nodes| && nodes[p].isolateLevel == isolateLevel && !nodes[p].typ.PDI?)
    decreases |nodes| - j
  {
    if j >= |nodes| || nodes[j].isolateLevel < isolateLevel then 0
    else if nodes[j].isolateLevel == isolateLevel && !nodes[j].typ.PDI? then j
    else LinkAfter(nodes, j + 1, isolateLevel)
  }

  /** get_adjacent_run; 0 stands for its own sentinel. */
  function Before(nodes: seq<Run>, i: nat): (p: nat)
    requires 1 <= i < |nodes|
    ensures p < i
  {
    LinkBefore(nodes, i - 1, nodes[i].isolateLevel)
  }

  function After(nodes: seq<Run>, i: nat): (p: nat)
    requires 1 <= i < |nodes|
    ensures p == 0 || i < p < |nodes|
  {
    LinkAfter(nodes, i + 1, nodes[i].isolateLevel)
  }

  function Adjacent(nodes: seq<Run>, p: nat): Run
    requires p < |nodes|
  {
    if p == 0 then SENTINEL_RUN else nodes[p]
  }

  /** The type of a neighbour, or that of the boundary if the level changes (rule X10). */
  function TypeBeside(run: Run, beside: Run): CharType {
    if beside.level == run.level then beside.typ else LevelToDir(Max(beside.level, run.level))
  }

  function TypeBefore(nodes: seq<Run>, i: nat): CharType
    requires 1 <= i < |nodes|
  {
    TypeBeside(nodes[i], Adjacent(nodes, Before(nodes, i)))
  }

  function TypeAfter(nodes: seq<Run>, i: nat): CharType
    requires 1 <= i < |nodes|
  {
    TypeBeside(nodes[i], Adjacent(nodes, After(nodes, i)))
  }

  lemma BesideIsReal(nodes: seq<Run>, over: seq<Run>, len: nat, i: nat)
    requires Levelled(nodes, over, len) && 1 <= i < |nodes|
    ensures TypeBefore(nodes, i) != Sentinel && TypeAfter(nodes, i) != Sentinel
    ensures Adjacent(nodes, Before(nodes, i)).level == nodes[i].level ==> Before(nodes, i) > 0
    ensures Before(nodes, i) == 0 ==> TypeBefore(nodes, i) in {LTR, RTL}
    ensures TypeAfter(nodes, i) in {LTR, RTL} || i < After(nodes, i) < |nodes|
  {
    NoSentinelInside(nodes, over, len);
  }

  /** The list is circular: behind the last run is its sentinel. */
  function NextRun(nodes: seq<Run>, i: nat): Run
    requires i < |nodes|
  {
    if i + 1 < |nodes| then nodes[i + 1] else nodes[0]
  }

  /** The strong type that W2 and W7 look back to: the last one in the isolating run sequence. */
  function LastStrong(nodes: seq<Run>, i: nat): CharType
    requires 1 <= i < |nodes|
    decreases i
  {
    if TypeBefore(nodes, i).IsStrong() || Before(nodes, i) == 0 then TypeBefore(nodes, i)
    else LastStrong(nodes, Before(nodes, i))
  }

  /** Only types differ. */
  ghost predicate SameFrame(a: seq<Run>, b: seq<Run>) {
    && |a| == |b|
    && forall k :: 0 <= k < |a| ==>
         && a[k].pos == b[k].pos && a[k].len == b[k].len && a[k].level == b[k].level
         && a[k].isolateLevel == b[k].isolateLevel && a[k].bracket == b[k].bracket
  }

  lemma {:induction false} LinkBeforeSame(a: seq<Run>, b: seq<Run>, j: int, isolateLevel: int)
    requires SameFrame(a, b) && j < |a|
    ensures LinkBefore(a, j, isolateLevel) == LinkBefore(b, j, isolateLevel)
    decreases j
  {
    if j > 0 { LinkBeforeSame(a, b, j - 1, isolateLevel); }
  }

  lemma {:induction false} LinkAfterSame(a: seq<Run>, b: seq<Run>, j: nat, isolateLevel: int)
    requires SameFrame(a, b) && forall k :: j <= k < |a| ==> a[k].typ == b[k].typ
    ensures LinkAfter(a, j, isolateLevel) == LinkAfter(b, j, isolateLevel)
    decreases |a| - j
  {
    if j < |a| { LinkAfterSame(a, b, j + 1, isolateLevel); }
  }

  lemma TypeBeforeSame(a: seq<Run>, b: seq<Run>, i: nat)
    requires SameFrame(a, b) && 1 <= i < |a| && forall k :: 0 <= k < i ==> a[k].typ == b[k].typ
    ensures Before(a, i) == Before(b, i) < i && TypeBefore(a, i) == TypeBefore(b, i)
  {
    var j := i - 1;
    LinkBeforeSame(a, b, j, a[i].isolateLevel);
  }

  lemma TypeAfterSame(a: seq<Run>, b: seq<Run>, i: nat)
    requires SameFrame(a, b) && 1 <= i < |a| && forall k :: i < k < |a| ==> a[k].typ == b[k].typ
    ensures After(a, i) == After(b, i) && TypeAfter(a, i) == TypeAfter(b, i)
  {
    LinkAfterSame(a, b, i + 1, a[i].isolateLevel);
  }

  lemma {:induction false} LastStrongSame(a: seq<Run>, b: seq<Run>, i: nat)
    requires SameFrame(a, b) && 1 <= i < |a| && forall k :: 0 <= k < i ==> a[k].typ == b[k].typ
    ensures LastStrong(a, i) == LastStrong(b, i)
    decreases i
  {
    TypeBeforeSame(a, b, i);
    if Before(a, i) > 0 { LastStrongSame(a, b, Before(a, i)); }
  }

  // ---------------------------------------------------------------- last_strong_stack

  ghost predicate LatestOf(nodes: seq<Run>, k: nat, i: nat)
    requires k < i <= |nodes|
  {
    forall j :: k < j < i ==> nodes[j].isolateLevel != nodes[k].isolateLevel
  }

  /** Each isolate level that has been met remembers what its last run looked back to. */
  ghost predicate Remembers(nodes: seq<Run>, i: nat, strong: map<int, CharType>)
    requires i <= |nodes|
  {
    forall k :: 1 <= k < i && LatestOf(nodes, k, i) ==>
      nodes[k].isolateLevel in strong && strong[nodes[k].isolateLevel] == LastStrong(nodes, k)
  }

  /** The array holds the entries that have been written. */
  ghost predicate Backed(stack: array<CharType>, strong: map<int, CharType>)
    reads stack
  {
    forall level :: level in strong ==> 0 <= level < stack.Length && stack[level] == strong[level]
  }

  /** The nearest run with the same isolate level, unless a shallower one is between. */
  lemma {:induction false} LinkIsLatest(nodes: seq<Run>, j: nat, isolateLevel: int)
    requires j < |nodes|
    ensures var p := LinkBefore(nodes, j, isolateLevel);
            p > 0 ==> forall k :: p < k <= j ==> nodes[k].isolateLevel != isolateLevel
  {
    if j > 0 { LinkIsLatest(nodes, j - 1, isolateLevel); }
  }

  /** An entry is read only after it has been written, and holds what the rules ask for. */
  lemma RememberNext(nodes: seq<Run>, i: nat, strong: map<int, CharType>)
    requires 1 <= i < |nodes| && Remembers(nodes, i, strong)
    requires Before(nodes, i) == 0 ==> TypeBefore(nodes, i).IsStrong()
    ensures var t, level := TypeBefore(nodes, i), nodes[i].isolateLevel;
            var next := if t.IsStrong() then strong[level := t] else strong;
            level in next && next[level] == LastStrong(nodes, i) && Remembers(nodes, i + 1, next)
  {
    hide LinkBefore, TypeBefore, LastStrong;
    var j := i - 1;
    var p, level := Before(nodes, i), nodes[i].isolateLevel;
    LinkIsLatest(nodes, j, level);
    var t := TypeBefore(nodes, i);
    var next := if t.IsStrong() then strong[level := t] else strong;
    assert LastStrong(nodes, i) == if t.IsStrong() || p == 0 then t else LastStrong(nodes, p) by { LastStrongIs(nodes, i); }
    if p > 0 {
      assert p <= j && nodes[p].isolateLevel == level by { LinkWithin(nodes, j, level); }
      assert LatestOf(nodes, p, i);
    }
    assert level in next && next[level] == LastStrong(nodes, i);
    forall k | 1 <= k < i + 1 && LatestOf(nodes, k, i + 1)
      ensures nodes[k].isolateLevel in next && next[nodes[k].isolateLevel] == LastStrong(nodes, k)
    {
      if k < i { assert LatestOf(nodes, k, i); }
    }
  }

  lemma LastStrongIs(nodes: seq<Run>, i: nat)
    requires 1 <= i < |nodes|
    ensures LastStrong(nodes, i) ==
            if TypeBefore(nodes, i).IsStrong() || Before(nodes, i) == 0 then TypeBefore(nodes, i) else LastStrong(nodes, Before(nodes, i))
  {
  }

  lemma LinkWithin(nodes: seq<Run>, j: int, isolateLevel: int)
    requires j < |nodes|
    ensures var p := LinkBefore(nodes, j, isolateLevel); p == 0 || (p <= j && nodes[p].isolateLevel == isolateLevel)
  {
  }

  lemma RemembersSame(a: seq<Run>, b: seq<Run>, i: nat, strong: map<int, CharType>)
    requires SameFrame(a, b) && i <= |a| && Remembers(a, i, strong)
    requires forall k :: 0 <= k < i - 1 ==> a[k].typ == b[k].typ
    ensures Remembers(b, i, strong)
  {
    hide LastStrong;
    forall k | 1 <= k < i && LatestOf(b, k, i)
      ensures b[k].isolateLevel in strong && strong[b[k].isolateLevel] == LastStrong(b, k)
    {
      assert LatestOf(a, k, i);
      LastStrongSame(a, b, k);
    }
  }

  // ---------------------------------------------------------------- W3 to W7

  /** What W4 and W5 see of the run before: the type it had before W7. */
  function OrigBefore(was: seq<Run>, now: seq<Run>, i: nat): CharType
    requires 1 <= i < |was| == |now|
  {
    if i == 1 || was[i - 1].typ.AL? then ON
    else if now[i - 1].typ.LTR? && (was[i - 1].typ.EN? || was[i - 1].typ.ET?) then
      (if now[i - 1].level == now[i].level then EN else ON)
    else TypeBeside(now[i], now[i - 1])
  }

  /** W5 made a number of the run before: W4 leaves this one alone. */
  predicate AfterTerminator(was: seq<Run>, now: seq<Run>, i: nat)
    requires 1 <= i < |was| == |now|
  {
    i > 1 && was[i - 1].typ.ET? && !now[i - 1].typ.ON?
  }

  /** W4 */
  predicate JoinsNumbers(was: seq<Run>, now: seq<Run>, i: nat)
    requires 1 <= i < |was| == |now|
  {
    var orig := OrigBefore(was, now, i);
    && was[i].typ.IsEsOrCs() && was[i].len == 1 && !AfterTerminator(was, now, i)
    && orig.IsNumber() && orig == TypeAfter(was, i) && (orig.EN? || was[i].typ.CS?)
  }

  /** W5 */
  predicate EndsNumber(was: seq<Run>, now: seq<Run>, i: nat)
    requires 1 <= i < |was| == |now|
  {
    was[i].typ.ET? && (OrigBefore(was, now, i).EN? || TypeAfter(was, i).EN?)
  }

  /** The type that one step of the pass gives run i of was; now holds the types of the runs before.  WeakRules has W3 to W7
      as rules of their own, and the proof that these steps are their composition. */
  function WeakType(was: seq<Run>, now: seq<Run>, i: nat): CharType
    requires 1 <= i < |was| == |now|
  {
    if was[i].typ.AL? then RTL
    else if JoinsNumbers(was, now, i) then TypeBefore(now, i)
    else if was[i].typ.EN? || EndsNumber(was, now, i) then (if LastStrong(now, i).LTR? then LTR else EN)
    else if was[i].typ.IsNumberSeparatorOrTerminator() then ON
    else was[i].typ
  }

  lemma WeakTypeSame(was: seq<Run>, a: seq<Run>, b: seq<Run>, i: nat)
    requires 1 <= i < |was| == |a| && SameFrame(a, b) && forall k :: 0 <= k < i ==> a[k].typ == b[k].typ
    ensures WeakType(was, a, i) == WeakType(was, b, i)
  {
    TypeBeforeSame(a, b, i);
    LastStrongSame(a, b, i);
    hide TypeBefore, LastStrong, TypeAfter;
    assert OrigBefore(was, a, i) == OrigBefore(was, b, i);
  }

  /** The first i runs have the types of the rules, the others still those they had. */
  ghost predicate WeakUpTo(was: seq<Run>, now: seq<Run>, i: nat)
    requires i <= |was|
  {
    && SameFrame(was, now)
    && (forall k :: 1 <= k < i ==> now[k].typ == WeakType(was, now, k))
    && (forall k :: 0 <= k < |was| && (k == 0 || i <= k) ==> now[k] == was[k])
  }

  lemma WeakStep(was: seq<Run>, now: seq<Run>, i: nat)
    requires 1 <= i < |was| && WeakUpTo(was, now, i)
    ensures WeakUpTo(was, now[i := now[i].(typ := WeakType(was, now, i))], i + 1)
  {
    hide WeakType;
    var next := now[i := now[i].(typ := WeakType(was, now, i))];
    forall k | 1 <= k < i + 1
      ensures next[k].typ == WeakType(was, next, k)
    {
      WeakTypeSame(was, now, next, k);
    }
  }

  predicate Unsettled(t: CharType) { t.AL? || t.IsNumberSeparatorOrTerminator() }

  /** No AL, separator or terminator is left behind. */
  lemma {:induction false} Settled(was: seq<Run>, now: seq<Run>, i: nat, k: nat)
    requires 1 <= k < i <= |was| && WeakUpTo(was, now, i)
    ensures !Unsettled(now[k].typ)
    decreases k
  {
    hide LastStrong, LinkBefore;
    var j := k - 1;
    LinkWithin(now, j, now[k].isolateLevel);
    if Before(now, k) > 0 { Settled(was, now, i, Before(now, k)); }
    assert now[k].typ == WeakType(was, now, k);
  }

  lemma SettledBefore(was: seq<Run>, now: seq<Run>, i: nat)
    requires 1 <= i < |was| && WeakUpTo(was, now, i)
    ensures !Unsettled(TypeBefore(now, i))
  {
    hide WeakType, LinkBefore;
    var j := i - 1;
    LinkWithin(now, j, now[i].isolateLevel);
    if Before(now, i) > 0 { Settled(was, now, i, Before(now, i)); }
  }

  /** Where W7 applies, no number EN is left to look back to. */
  lemma {:induction false} NoNumberAfterLeft(was: seq<Run>, now: seq<Run>, i: nat, k: nat)
    requires 1 <= k <= i <= |was| && k < |was| && WeakUpTo(was, now, i)
    requires forall j :: 1 <= j < |was| ==> now[j].level >= 0
    ensures TypeBefore(now, k).EN? ==> !LastStrong(now, k).LTR?
    decreases k
  {
    hide LinkBefore, LastStrong;
    var j := k - 1;
    LinkWithin(now, j, now[k].isolateLevel);
    LastStrongIs(now, k);
    var p := Before(now, k);
    if p > 0 && TypeBefore(now, k).EN? {
      assert now[p].typ == WeakType(was, now, p);
      if JoinsNumbers(was, now, p) { NoNumberAfterLeft(was, now, i, p); }
    }
  }

  /** One run of the pass; left tells whether W7 applied. */
  method ResolveNumber(ghost was: seq<Run>, nodes: seq<Run>, i: nat, w4: bool, prevTypeOrig: CharType, strong: CharType)
      returns (t: CharType, left: bool, next: bool)
    requires 1 <= i < |was| == |nodes| && nodes[i] == was[i] && TypeAfter(nodes, i) == TypeAfter(was, i)
    requires prevTypeOrig == OrigBefore(was, nodes, i) && w4 == !AfterTerminator(was, nodes, i) && strong == LastStrong(nodes, i)
    requires !Unsettled(TypeBefore(nodes, i)) && (TypeBefore(nodes, i).EN? ==> !strong.LTR?)
    ensures t == WeakType(was, nodes, i)
    ensures left <==> t.LTR? && (was[i].typ.EN? || was[i].typ.ET?)
    ensures next <==> !(was[i].typ.ET? && !t.ON?)
  {
    hide OrigBefore, TypeBefore, TypeAfter, LastStrong, AfterTerminator;
    var prevType, nextType := TypeBefore(nodes, i), TypeAfter(nodes, i);
    t := nodes[i].typ;
    if t.AL? {
      // W3
      return RTL, false, true;
    }
    // W4
    if w4 && nodes[i].len == 1 && t.IsEsOrCs() && prevTypeOrig.IsNumber()
       && prevTypeOrig == nextType && (prevTypeOrig.EN? || t.CS?) {
      t := prevType;
    }
    next := true;
    // W5
    if t.ET? && (prevTypeOrig.EN? || nextType.EN?) {
      t := EN;
      next := false;
    }
    // W7; W6
    left := t.EN? && strong.LTR?;
    if left {
      t := LTR;
    } else if t.IsNumberSeparatorOrTerminator() {
      t := ON;
    }
  }

  /** W3 to W7 in one pass with three variables. */
  method ResolveNumbers(list: RunList, baseDir: CharType, lastStrong: array<CharType>, ghost over: seq<Run>, ghost len: nat)
    requires Levelled(list.nodes, over, len) && lastStrong.Length == MAX_RESOLVED_LEVELS
    modifies list, lastStrong
    ensures Keeps(old(list.nodes), list.nodes, over, len)
    ensures WeakUpTo(old(list.nodes), list.nodes, |old(list.nodes)|)
    ensures forall k :: 1 <= k < |list.nodes| ==> !Unsettled(list.nodes[k].typ)
  {
    hide Levelled, LevelsKept, WeakUpTo, Remembers, TypeBefore, TypeAfter, Before, After, LastStrong, Adjacent, OrigBefore, AfterTerminator,
         TypeBeside, NextRun, WeakType;
    ghost var was := list.nodes;
    lastStrong[0] := baseDir;
    ghost var strong := map[0 := baseDir];
    var w4 := true;
    var prevTypeOrig := ON;
    var i := 1;
    OrigStarts(was);
    KeepsStart(list.nodes, over, len);
    WeakStart(was);
    RemembersStart(was, strong);
    while i < |list.nodes|
      invariant 1 <= i <= |list.nodes| == |was| && WeakUpTo(was, list.nodes, i)
      invariant Keeps(was, list.nodes, over, len)
      invariant Remembers(list.nodes, i, strong) && Backed(lastStrong, strong)
      invariant i < |was| ==> prevTypeOrig == OrigBefore(was, list.nodes, i) && w4 == !AfterTerminator(was, list.nodes, i)
      decreases |list.nodes| - i
    {
      ghost var now := list.nodes;
      var thisType := list.nodes[i].typ;
      var isoLevel := list.nodes[i].isolateLevel;
      var prevType := TypeBefore(list.nodes, i);
      var nextType := TypeAfter(list.nodes, i);
      BesideIsReal(now, over, len, i);
      RememberNext(now, i, strong);
      NoSentinelInside(now, over, len);
      if prevType.IsStrong() {
        lastStrong[isoLevel] := prevType;
        strong := strong[isoLevel := prevType];
      }
      WeakIs(was, now, i, over, len);
      var t, left;
      t, left, w4 := ResolveNumber(was, list.nodes, i, w4, prevTypeOrig, lastStrong[isoLevel]);
      WeakStep(was, now, i);
      RetypeOne(was, now, over, len, i, t);
      list.nodes := list.nodes[i := list.nodes[i].(typ := t)];
      RemembersSame(now, list.nodes, i + 1, strong);
      if thisType.AL? {
        prevTypeOrig := ON;
      } else if left {
        prevTypeOrig := if list.nodes[i].level == NextRun(list.nodes, i).level then EN else ON;
      } else {
        prevTypeOrig := TypeBeside(NextRun(list.nodes, i), list.nodes[i]);
      }
      OrigNext(was, list.nodes, i, left, w4, prevTypeOrig);
      i := i + 1;
    }
    forall k | 1 <= k < |list.nodes|
      ensures !Unsettled(list.nodes[k].typ)
    {
      Settled(was, list.nodes, |was|, k);
    }
  }

  lemma OrigStarts(was: seq<Run>)
    ensures 1 < |was| ==> OrigBefore(was, was, 1) == ON && !AfterTerminator(was, was, 1)
  {
  }

  /** What the pass remembers of run i. */
  lemma OrigNext(was: seq<Run>, now: seq<Run>, i: nat, left: bool, w4: bool, orig: CharType)
    requires 1 <= i < |was| == |now| && (left <==> now[i].typ.LTR? && (was[i].typ.EN? || was[i].typ.ET?))
    requires w4 <==> !(was[i].typ.ET? && !now[i].typ.ON?)
    requires orig == if was[i].typ.AL? then ON
                     else if left then (if now[i].level == NextRun(now, i).level then EN else ON)
                     else TypeBeside(NextRun(now, i), now[i])
    ensures i + 1 < |was| ==> orig == OrigBefore(was, now, i + 1) && w4 == !AfterTerminator(was, now, i + 1)
  {
  }

  lemma WeakStart(was: seq<Run>)
    requires |was| > 0
    ensures WeakUpTo(was, was, 1)
  {
  }

  lemma RemembersStart(nodes: seq<Run>, strong: map<int, CharType>)
    requires |nodes| > 0
    ensures Remembers(nodes, 1, strong)
  {
  }

  /** What the pass has to compute for run i. */
  lemma WeakIs(was: seq<Run>, now: seq<Run>, i: nat, over: seq<Run>, len: nat)
    requires 1 <= i < |was| && WeakUpTo(was, now, i) && Levelled(now, over, len)
    ensures !Unsettled(TypeBefore(now, i)) && now[i] == was[i] && TypeAfter(now, i) == TypeAfter(was, i)
    ensures TypeBefore(now, i).EN? ==> !LastStrong(now, i).LTR?
    ensures TypeBefore(now, i) != Sentinel && WeakType(was, now, i) != Sentinel
  {
    hide WeakType, LastStrong, TypeBefore, TypeAfter;
    NoSentinelInside(now, over, len);
    BesideIsReal(now, over, len, i);
    SettledBefore(was, now, i);
    NoNumberAfterLeft(was, now, i, i);
    TypeAfterSame(now, was, i);
    assert WeakType(was, now, i) != Sentinel by { WeakCases(was, now, i); }
  }

  lemma WeakCases(was: seq<Run>, now: seq<Run>, i: nat)
    requires 1 <= i < |was| == |now| && was[i].typ != Sentinel && TypeBefore(now, i) != Sentinel
    ensures WeakType(was, now, i) != Sentinel
  {
  }
}
