/** The links between the runs of an isolate, 3rd/fribidi/fribidi-bidi.c: one loop with an array that has an entry for each
    isolate level, and when isolate levels index that array. */
module Links {
  import opened BidiTypes
  import opened Wrappers
  import opened RunList
  import opened ExplicitRules
  import opened ExplicitText
  import opened IsolateLevels
  import opened Explicit
  import opened Resolve
  import opened Sequences
  import opened Nesting

  // ---------------------------------------------------------------- the loop

  /** Every run between k and i is in a deeper isolate. */
  ghost predicate DeeperBetween(nodes: seq<Run>, k: nat, i: nat, isolateLevel: int)
    requires i <= |nodes|
  {
    forall r :: k < r < i ==> nodes[r].isolateLevel > isolateLevel
  }

  lemma {:induction false} BackIs(nodes: seq<Run>, j: nat, k: nat, isolateLevel: int)
    requires 1 <= k <= j < |nodes|
    ensures LinkBefore(nodes, j, isolateLevel) == k <==> nodes[k].isolateLevel == isolateLevel && DeeperBetween(nodes, k, j + 1, isolateLevel)
    decreases j
  {
    if nodes[j].isolateLevel > isolateLevel && k < j { BackIs(nodes, j - 1, k, isolateLevel); }
  }

  /** One more run at the end of the list. */
  lemma {:induction false} ForwardNext(nodes: seq<Run>, j: nat, i: nat, isolateLevel: int)
    requires 1 <= j <= i < |nodes|
    ensures var p, q := LinkForward(nodes[..i], j, isolateLevel), LinkForward(nodes[..i + 1], j, isolateLevel);
            if p > 0 then q == p
            else q == if nodes[i].isolateLevel == isolateLevel && DeeperBetween(nodes, j - 1, i, isolateLevel) then i else 0
    decreases i - j
  {
    if j < i && nodes[j].isolateLevel > isolateLevel { ForwardNext(nodes, j + 1, i, isolateLevel); }
  }

  /** The entries of the array once run j has been entered. */
  ghost predicate RunsAre(nodes: seq<Run>, runs: seq<nat>, j: nat)
    requires j < |nodes|
  {
    forall l :: 0 <= l < |runs| ==> runs[l] == LinkBefore(nodes, j, l)
  }

  /** Run k is linked to what is before it, and to what is behind it before run i. */
  ghost predicate LinkedAt(nodes: seq<Run>, prev: seq<nat>, next: seq<nat>, i: nat, k: nat)
    requires 1 <= k < |nodes| && i <= |nodes| && |prev| == |next| == |nodes|
  {
    if k < i then prev[k] == Before(nodes, k) && next[k] == LinkForward(nodes[..i], k + 1, nodes[k].isolateLevel)
    else prev[k] == next[k] == 0
  }

  /** The state of the loop before run i. */
  ghost predicate Linked(nodes: seq<Run>, runs: seq<nat>, prev: seq<nat>, next: seq<nat>, i: nat)
    requires 1 <= i <= |nodes| && |prev| == |next| == |nodes|
  {
    RunsAre(nodes, runs, i - 1) && forall k :: 1 <= k < |nodes| ==> LinkedAt(nodes, prev, next, i, k)
  }

  lemma NothingLinked(nodes: seq<Run>, runs: seq<nat>, prev: seq<nat>, next: seq<nat>)
    requires |prev| == |next| == |nodes| > 0 && (forall l :: 0 <= l < |runs| ==> runs[l] == 0)
    requires forall k :: 0 <= k < |nodes| ==> prev[k] == next[k] == 0
    ensures Linked(nodes, runs, prev, next, 1)
  {
  }

  /** What the array holds once run i has been entered: no deeper isolate goes on behind it. */
  ghost predicate Entered(runs: seq<nat>, now: seq<nat>, level: nat, i: nat)
    requires level < |runs| == |now|
  {
    && now[level] == i && (forall m :: 0 <= m < level ==> now[m] == runs[m]) && (forall m :: level < m < |runs| ==> now[m] == 0)
  }

  lemma LinkStep(nodes: seq<Run>, runs: seq<nat>, now: seq<nat>, prev: seq<nat>, next: seq<nat>, i: nat)
    requires 1 <= i < |nodes| && |prev| == |next| == |nodes| && Linked(nodes, runs, prev, next, i)
    requires 0 <= nodes[i].isolateLevel < |runs| == |now| && Entered(runs, now, nodes[i].isolateLevel, i)
    ensures var p := runs[nodes[i].isolateLevel];
            p < i && Linked(nodes, now, prev[i := p], if p > 0 then next[p := i] else next, i + 1)
  {
    hide LinkForward, LinkBefore, Entered, Before, LinkedAt, RunsAre;
    var p := runs[nodes[i].isolateLevel];
    EntryIs(nodes, runs, i);
    var i', prev', next' := i + 1, prev[i := p], if p > 0 then next[p := i] else next;
    RunsLinked(nodes, runs, now, i);
    forall k | 1 <= k < |nodes|
      ensures LinkedAt(nodes, prev', next', i', k)
    {
      NextStep(nodes, prev, next, prev', next', i, k, p);
    }
  }

  lemma EntryIs(nodes: seq<Run>, runs: seq<nat>, i: nat)
    requires 1 <= i < |nodes| && RunsAre(nodes, runs, i - 1) && 0 <= nodes[i].isolateLevel < |runs|
    ensures runs[nodes[i].isolateLevel] == Before(nodes, i) < i
  {
    hide LinkBefore;
  }

  lemma RunsLinked(nodes: seq<Run>, runs: seq<nat>, now: seq<nat>, i: nat)
    requires 1 <= i < |nodes| && RunsAre(nodes, runs, i - 1)
    requires 0 <= nodes[i].isolateLevel < |runs| == |now| && Entered(runs, now, nodes[i].isolateLevel, i)
    ensures RunsAre(nodes, now, i)
  {
    hide LinkBefore;
    forall m | 0 <= m < |now|
      ensures now[m] == LinkBefore(nodes, i, m)
    {
      LinkBeforeNext(nodes, i, m);
    }
  }

  lemma LinkBeforeNext(nodes: seq<Run>, i: nat, m: int)
    requires 1 <= i < |nodes|
    ensures LinkBefore(nodes, i, m) == if nodes[i].isolateLevel < m then 0 else if nodes[i].isolateLevel == m then i else LinkBefore(nodes, i - 1, m)
  {
  }

  lemma ForwardEmpty(nodes: seq<Run>, i: nat, m: int)
    requires i <= |nodes|
    ensures LinkForward(nodes[..i], i, m) == 0
  {
  }

  lemma NextStep(nodes: seq<Run>, prev: seq<nat>, next: seq<nat>, prev': seq<nat>, next': seq<nat>, i: nat, k: nat, p: nat)
    requires 1 <= k < |nodes| && 1 <= i < |nodes| && |prev| == |next| == |nodes| && LinkedAt(nodes, prev, next, i, k)
    requires p == Before(nodes, i) && prev' == prev[i := p] && next' == if p > 0 then next[p := i] else next
    ensures LinkedAt(nodes, prev', next', i + 1, k)
  {
    if k < i {
      ForwardNext(nodes, k + 1, i, nodes[k].isolateLevel);
      BackIs(nodes, i - 1, k, nodes[i].isolateLevel);
      if k == p { ForwardNone(nodes, k + 1, i, nodes[k].isolateLevel); }
    } else if k == i {
      ForwardEmpty(nodes, i + 1, nodes[i].isolateLevel);
    }
    hide LinkForward, LinkBefore;
  }

  lemma {:induction false} ForwardNone(nodes: seq<Run>, j: nat, i: nat, isolateLevel: int)
    requires 1 <= j <= i <= |nodes| && DeeperBetween(nodes, j - 1, i, isolateLevel)
    ensures LinkForward(nodes[..i], j, isolateLevel) == 0
    decreases i - j
  {
    if j < i { ForwardNone(nodes, j + 1, i, isolateLevel); }
  }

  ghost predicate InArray(nodes: seq<Run>, n: nat)
    requires n <= |nodes|
  {
    forall k :: 1 <= k < n ==> 0 <= nodes[k].isolateLevel < MAX_RESOLVED_LEVELS
  }

  /** Each run is linked to the last one before it and the next one behind it that its isolate has.  The loop leaves the
      array, which the program does not notice, if and only if some isolate level is no index of it. */
  method LinkRuns(nodes: seq<Run>) returns (indexed: bool, prev: array<nat>, next: array<nat>)
    requires |nodes| > 0
    ensures prev.Length == next.Length == |nodes| && (indexed <==> InArray(nodes, |nodes|))
    ensures indexed ==> forall k :: 1 <= k < |nodes| ==>
              prev[k] == Before(nodes, k) && next[k] == LinkForward(nodes, k + 1, nodes[k].isolateLevel)
  {
    hide LinkForward, LinkBefore, Linked, Entered, LinkedAt;
    prev, next := new nat[|nodes|](_ => 0), new nat[|nodes|](_ => 0);
    var runs := new nat[MAX_RESOLVED_LEVELS](_ => 0);
    var prevLevel := 0;
    var i: nat := 1;
    NothingLinked(nodes, runs[..], prev[..], next[..]);
    while i < |nodes|
      invariant 1 <= i <= |nodes| && InArray(nodes, i) && Linked(nodes, runs[..], prev[..], next[..], i)
      invariant 0 <= prevLevel < MAX_RESOLVED_LEVELS && forall m :: prevLevel < m < MAX_RESOLVED_LEVELS ==> runs[m] == 0
    {
      var level := nodes[i].isolateLevel;
      if !(0 <= level < MAX_RESOLVED_LEVELS) {
        return false, prev, next;
      }
      ghost var runs', prev', next' := runs[..], prev[..], next[..];
      Clear(runs, level, prevLevel);
      prevLevel := level;
      LinkBelow(nodes, runs', prev', next', i);
      if runs[level] > 0 {
        next[runs[level]] := i;
        prev[i] := runs[level];
      }
      runs[level] := i;
      assert Entered(runs', runs[..], level, i) by { EnteredIs(runs', runs[..], level, i); }
      LinkStep(nodes, runs', runs[..], prev', next', i);
      assert prev[..] == prev'[i := runs'[level]];
      assert next[..] == if runs'[level] > 0 then next'[runs'[level] := i] else next';
      i := i + 1;
    }
    LinkedWhole(nodes, runs[..], prev[..], next[..]);
    indexed := true;
  }

  /** When going from an upper to a lower level, the entries of all higher levels are emptied. */
  method Clear(runs: array<nat>, level: nat, prevLevel: nat)
    requires level < runs.Length && prevLevel < runs.Length
    modifies runs
    ensures forall m :: 0 <= m < runs.Length ==> runs[m] == if level < m <= prevLevel then 0 else old(runs[m])
  {
    if level < prevLevel {
      var j := level + 1;
      while j <= prevLevel
        invariant level + 1 <= j <= prevLevel + 1
        invariant forall m :: 0 <= m < runs.Length ==> runs[m] == if level < m < j then 0 else old(runs[m])
      {
        runs[j] := 0;
        j := j + 1;
      }
    }
  }

  lemma EnteredIs(runs: seq<nat>, now: seq<nat>, level: nat, i: nat)
    requires level < |runs| == |now|
    requires now[level] == i && (forall m :: 0 <= m < level ==> now[m] == runs[m]) && (forall m :: level < m < |runs| ==> now[m] == 0)
    ensures Entered(runs, now, level, i)
  {
  }

  lemma LinkedWhole(nodes: seq<Run>, runs: seq<nat>, prev: seq<nat>, next: seq<nat>)
    requires |prev| == |next| == |nodes| > 0 && Linked(nodes, runs, prev, next, |nodes|)
    ensures forall k :: 1 <= k < |nodes| ==> prev[k] == Before(nodes, k) && next[k] == LinkForward(nodes, k + 1, nodes[k].isolateLevel)
  {
    hide LinkForward, LinkBefore;
    assert nodes[..|nodes|] == nodes;
    forall k | 1 <= k < |nodes|
      ensures prev[k] == Before(nodes, k) && next[k] == LinkForward(nodes, k + 1, nodes[k].isolateLevel)
    {
      assert LinkedAt(nodes, prev, next, |nodes|, k);
    }
  }

  lemma LinkBelow(nodes: seq<Run>, runs: seq<nat>, prev: seq<nat>, next: seq<nat>, i: nat)
    requires 1 <= i < |nodes| && |prev| == |next| == |nodes| && Linked(nodes, runs, prev, next, i)
    requires 0 <= nodes[i].isolateLevel < |runs|
    ensures runs[nodes[i].isolateLevel] < i && prev[i] == 0
  {
    EntryIs(nodes, runs, i);
    assert LinkedAt(nodes, prev, next, i, i);
  }

  // ---------------------------------------------------------------- when the levels are indices

  lemma RunPlace(main: seq<Run>, explicits: seq<Run>, types: seq<CharType>, brackets: Option<seq<Bracket>>, base: int, k: nat, x: int)
    requires IsMain(main, explicits, types, brackets, base) && 1 <= k < |main| && InRun(main, types, k, x)
    ensures IsoIs(types, base, x, main[k].isolateLevel)
  {
    hide ParagraphEnd, Free, Removed, IsolateLevelOf, CharPassed, IsoIs;
    assert PlacedAt(main, types, brackets, base, x);
    OwnerIs(main, |main|, x, k);
  }

  lemma IsoInside(types: seq<CharType>, base: int, x: int, level: int)
    requires 0 <= x < |types| && 0 <= base <= 1 && StaysIndexed(types, base, ParagraphEnd(types)) && IsoIs(types, base, x, level)
    ensures 0 <= level < MAX_EXPLICIT_LEVEL
  {
    var end := ParagraphEnd(types);
    hide ParagraphEnd, CodeIso, CodeStatus, StaysIndexed, IsolateLevelOf;
    IndexedIff(types, base, end);
    if x >= end { EndIndexed(types, base, end); }
  }

  lemma EndIndexed(types: seq<CharType>, base: int, end: nat)
    requires end < |types| && types[end].BS? && 0 <= base <= 1 && StaysIndexed(types, base, end)
    ensures 0 <= IsolateLevelOf(types, base, end) < MAX_EXPLICIT_LEVEL
  {
    hide CodeIso, CodeStatus, StaysIndexed;
    IndexedUntil(types, base, end);
  }

  /** The isolate levels of the list index the array of the links, and those of the brackets, if and only if no PDI lets the
      isolate level fall below zero. */
  lemma RunsIndexed(main: seq<Run>, explicits: seq<Run>, types: seq<CharType>, brackets: Option<seq<Bracket>>, base: int)
    requires IsMain(main, explicits, types, brackets, base) && 0 <= base <= 1
    ensures InArray(main, |main|) <==> StaysIndexed(types, base, ParagraphEnd(types))
    ensures InArray(main, |main|) ==> forall k :: 1 <= k < |main| ==> 0 <= main[k].isolateLevel < MAX_EXPLICIT_LEVEL
  {
    hide IsMain, StaysIndexed, ParagraphEnd, IsoIs, InRun;
    var end := ParagraphEnd(types);
    if StaysIndexed(types, base, end) {
      forall k | 1 <= k < |main|
        ensures 0 <= main[k].isolateLevel < MAX_EXPLICIT_LEVEL
      {
        var x := FirstOf(main, explicits, types, brackets, base, k);
        InText(main, types, k, x);
        RunPlace(main, explicits, types, brackets, base, k, x);
        IsoInside(types, base, x, main[k].isolateLevel);
      }
    } else {
      var x := Fallen(types, base, end);
      var k := RunOfChar(main, explicits, types, brackets, base, x);
      RunPlace(main, explicits, types, brackets, base, k, x);
      IsoIsBefore(types, base, x, main[k].isolateLevel);
    }
  }

  lemma IsoIsBefore(types: seq<CharType>, base: int, x: int, level: int)
    requires 0 <= x < ParagraphEnd(types) && IsoIs(types, base, x, level)
    ensures level == IsolateLevelOf(types, base, x)
  {
    hide IsolateLevelOf;
  }

  /** The first PDI that lets it fall stays in the list, with isolate level -1. */
  lemma Fallen(types: seq<CharType>, base: int, end: nat) returns (x: nat)
    requires end == ParagraphEnd(types) && 0 <= base <= 1 && !StaysIndexed(types, base, end)
    ensures x < end && !Removed(types, x) && IsolateLevelOf(types, base, x) == -1
  {
    hide ParagraphEnd, FallsBelow, CodeIso, CodeStatus, CodeStep, IsoStep;
    x := FirstFall(types, base, end);
    IndexedUntil(types, base, x);
    CodeStatusBounded(types, base, x);
    StepIndexed(CodeStatus(types, base, x), CodeIso(types, base, x), types[x], CodeRtl(types, x));
    FallsAtPdi(CodeStatus(types, base, x), CodeIso(types, base, x), types[x]);
    IsoNext(types, base, x);
  }
}
