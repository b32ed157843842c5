/** Isolating run sequences (BD13 of UAX #9) of a run list, 3rd/fribidi/fribidi-bidi.c: how isolates nest in a list
    where none was rejected, that the stages keep it so, and that the boundaries are those of rule X10. */
module Sequences {
  import opened BidiTypes
  import opened RunList
  import opened Resolve
  import opened Marks

  // ---------------------------------------------------------------- nesting

  /** Types that a run may have whose last character opens an isolate: those of initiators, of the overrides that
      replace them, and of neutrals that such runs are joined with. */
  predicate CanOpen(t: CharType) { t.IsNeutral() || t.LTR? || t.RTL? }

  /** Two neighbours of one isolate; a PDI there closes an isolate without text. */
  predicate Continues(a: Run, b: Run) {
    b.isolateLevel == a.isolateLevel && (b.typ.PDI? ==> b.level == a.level && CanOpen(a.typ))
  }

  /** The first text of an isolate. */
  predicate Opens(a: Run, b: Run) {
    b.isolateLevel == a.isolateLevel + 1 && a.level < b.level && CanOpen(a.typ) && !b.typ.PDI?
  }

  /** A PDI after the text of an isolate: it goes on where the initiator left off. */
  predicate Closes(nodes: seq<Run>, k: nat)
    requires 1 <= k && k + 1 < |nodes|
  {
    var a, b := nodes[k], nodes[k + 1];
    var p := LinkBefore(nodes, k, b.isolateLevel);
    && b.typ.PDI? && b.isolateLevel < a.isolateLevel && b.level < a.level
    && 0 < p < |nodes| && nodes[p].level == b.level && CanOpen(nodes[p].typ)
  }

  /** A separator behind an initiator. */
  predicate EndsInside(a: Run, b: Run) {
    b.typ.BS? && b.isolateLevel == a.isolateLevel + 1 && b.level <= a.level
  }

  predicate NestedStep(nodes: seq<Run>, k: nat)
    requires 1 <= k && k + 1 < |nodes|
  {
    && !nodes[k].typ.BS?
    && (|| Continues(nodes[k], nodes[k + 1]) || Opens(nodes[k], nodes[k + 1]) || Closes(nodes, k)
        || (k + 2 == |nodes| && EndsInside(nodes[k], nodes[k + 1])))
  }

  /** The isolates of the list nest; a separator only ends it. */
  ghost predicate Nested(nodes: seq<Run>) {
    forall k :: 1 <= k < |nodes| - 1 ==> NestedStep(nodes, k)
  }

  // ---------------------------------------------------------------- marks follow their runs

  /** In a nested list the condition of W1 and W2 is met. */
  lemma NestedMarksFollow(nodes: seq<Run>)
    requires Nested(nodes)
    ensures MarksFollow(nodes)
  {
    forall k | 1 <= k < |nodes| && nodes[k].typ.NSM?
      ensures FollowsBefore(nodes, k)
    {
      if k > 1 { assert NestedStep(nodes, k - 1); }
    }
    forall k | 1 <= k < |nodes| && nodes[k].typ.EN?
      ensures MarkFollows(nodes, k)
    {
      if k + 1 < |nodes| { assert NestedStep(nodes, k); }
    }
  }

  // ---------------------------------------------------------------- the stages keep it

  /** The neighbours of later runs, once run i has been merged. */
  lemma {:induction false} LinkMerged(nodes: seq<Run>, i: nat, j: nat, isolateLevel: int)
    requires 2 <= i < |nodes| && j < |nodes| - 1 && (i - 1 <= j ==> nodes[i].isolateLevel == nodes[i - 1].isolateLevel)
    ensures |Merged(nodes, i)| == |nodes| - 1
    ensures var p := LinkBefore(nodes, if j < i - 1 then j else j + 1, isolateLevel);
            LinkBefore(Merged(nodes, i), j, isolateLevel) == if p < i then p else p - 1
    decreases j
  {
    hide Merged;
    MergedAt(nodes, i, j);
    if j > 0 {
      LinkMerged(nodes, i, j - 1, isolateLevel);
    }
  }

  lemma NestedMerged(nodes: seq<Run>, i: nat)
    requires 2 <= i < |nodes| && Nested(nodes) && nodes[i - 1].level == nodes[i].level
    requires CanOpen(nodes[i].typ) ==> CanOpen(nodes[i - 1].typ)
    ensures Nested(Merged(nodes, i))
  {
    hide Merged, LinkBefore, CanOpen, Nested;
    var m := Merged(nodes, i);
    MergedAt(nodes, i, 0);
    forall k | 1 <= k < |m| - 1
      ensures NestedStep(m, k)
    {
      MergedStep(nodes, i, k);
    }
    assert Nested(m) by { NestedIs(m); }
  }

  lemma NestedIs(nodes: seq<Run>)
    requires forall k :: 1 <= k < |nodes| - 1 ==> NestedStep(nodes, k)
    ensures Nested(nodes)
  {
  }

  lemma StepOf(nodes: seq<Run>, k: nat)
    requires Nested(nodes) && 1 <= k < |nodes| - 1
    ensures NestedStep(nodes, k)
  {
  }

  lemma MergedStep(nodes: seq<Run>, i: nat, k: nat)
    requires 2 <= i < |nodes| && Nested(nodes) && nodes[i - 1].level == nodes[i].level && 1 <= k < |nodes| - 2
    requires CanOpen(nodes[i].typ) ==> CanOpen(nodes[i - 1].typ)
    ensures |Merged(nodes, i)| == |nodes| - 1 && NestedStep(Merged(nodes, i), k)
  {
    hide Merged, LinkBefore, CanOpen, Nested;
    var o := if k < i - 1 then k else k + 1;
    StepOf(nodes, o);
    StepOf(nodes, i - 1);
    MergedAt(nodes, i, k);
    MergedAt(nodes, i, k + 1);
    LinkMerged(nodes, i, k, nodes[o + 1].isolateLevel);
    var p := LinkBefore(nodes, o, nodes[o + 1].isolateLevel);
    if 0 < p < |nodes| { MergedAt(nodes, i, if p < i then p else p - 1); }
  }

  lemma {:induction false} NestedCompacted(nodes: seq<Run>, i: nat, neutrals: bool)
    requires Nested(nodes)
    ensures Nested(Compacted(nodes, i, neutrals))
    decreases |nodes| - i
  {
    hide Merged, Nested;
    if i < |nodes| {
      if i >= 2 && Joinable(nodes[i - 1], nodes[i], neutrals) {
        NestedMerged(nodes, i);
        MergedAt(nodes, i, 0);
        NestedCompacted(Merged(nodes, i), i, neutrals);
      } else {
        NestedCompacted(nodes, i + 1, neutrals);
      }
    }
  }

  /** Types may change, but not those of separators and PDIs, and where an isolate may open it still may. */
  ghost predicate Retyped(a: seq<Run>, b: seq<Run>) {
    && |a| == |b|
    && (forall k :: 0 <= k < |a| ==> a[k].isolateLevel == b[k].isolateLevel && a[k].level == b[k].level)
    && (forall k :: 1 <= k < |a| ==> RetypedOne(a[k].typ, b[k].typ))
  }

  predicate RetypedOne(t: CharType, u: CharType) {
    (CanOpen(t) ==> CanOpen(u)) && (t.PDI? <==> u.PDI?) && (t.BS? <==> u.BS?)
  }

  lemma {:induction false} LinkRetyped(a: seq<Run>, b: seq<Run>, j: int, isolateLevel: int)
    requires Retyped(a, b) && j < |a|
    ensures LinkBefore(a, j, isolateLevel) == LinkBefore(b, j, isolateLevel)
    decreases j
  {
    hide CanOpen;
    if j > 0 { LinkRetyped(a, b, j - 1, isolateLevel); }
  }

  lemma NestedRetyped(a: seq<Run>, b: seq<Run>)
    requires Nested(a) && Retyped(a, b)
    ensures Nested(b)
  {
    hide LinkBefore, CanOpen;
    forall k | 1 <= k < |b| - 1
      ensures NestedStep(b, k)
    {
      var l := k + 1;
      assert NestedStep(a, k) && RetypedOne(a[k].typ, b[k].typ) && RetypedOne(a[l].typ, b[l].typ);
      LinkRetyped(a, b, k, a[l].isolateLevel);
      var p := LinkBefore(a, k, a[l].isolateLevel);
      if 0 < p < |a| { assert RetypedOne(a[p].typ, b[p].typ); }
    }
  }

  // ---------------------------------------------------------------- W1 and W2 keep it

  /** The type of a run whose isolate goes on does not change; no run turns into a PDI unless it follows one. */
  lemma MarkedOpen(was: seq<Run>, k: nat)
    requires 1 <= k < |was|
    ensures CanOpen(was[k].typ) || was[k].typ.BS? || was[k].typ.PDI? ==> Marked(was, k) == was[k].typ
    ensures Marked(was, k).PDI? ==> was[k].typ.PDI? || (was[k].typ.NSM? && MarkedBefore(was, k).PDI?)
  {
  }

  /** No run turns into a separator. */
  lemma {:induction false} NoSeparatorMarked(was: seq<Run>, k: nat)
    requires 1 <= k < |was| && Nested(was) && !was[k].typ.BS?
    ensures !Marked(was, k).BS?
    decreases k
  {
    hide LinkBefore;
    var p := Before(was, k);
    if p > 0 {
      StepOf(was, p);
      NoSeparatorMarked(was, p);
    }
  }

  /** A mark that takes the type of a PDI stands right behind it. */
  lemma MarkBehindPdi(was: seq<Run>, k: nat)
    requires 1 <= k < |was| && MarksFollow(was) && was[k].typ.NSM? && MarkedBefore(was, k).PDI?
    ensures k >= 2 && Before(was, k) == k - 1 && was[k - 1].level == was[k].level && Marked(was, k - 1).PDI?
    ensures was[k - 1].isolateLevel == was[k].isolateLevel
  {
    assert FollowsBefore(was, k);
    assert Before(was, k) > 0;
    hide Marked, LinkBefore;
  }

  lemma NestedMarked(was: seq<Run>, now: seq<Run>, m: seq<nat>)
    requires Nested(was) && MarksFollow(was) && Mirrors(was, now, m, |was|, |now|)
    ensures Nested(now)
  {
    hide Marked, MarkedBefore, LinkBefore, MarksFollow, Joined, MarkedBracket, Nested;
    forall g | 1 <= g < |now| - 1
      ensures NestedStep(now, g)
    {
      var l := GroupStart(was, now, m, g);
      MarkedStep(was, now, m, g, l);
    }
    NestedIs(now);
  }

  /** The first run of the list before that became part of run g + 1. */
  lemma GroupStart(was: seq<Run>, now: seq<Run>, m: seq<nat>, g: nat) returns (l: nat)
    requires Mirrors(was, now, m, |was|, |now|) && 1 <= g < |now| - 1
    ensures 2 <= l < |was| && m[l] == g + 1 && m[l - 1] == g
  {
    hide Marked, Like, StillIs, Joined;
    var o := 0;
    while m[o] < g
      invariant 0 <= o < |was| && m[o] <= g
      decreases |was| - o
    {
      assert m[|was| - 1] == |now| - 1;
      var h := o + 1;
      assert m[h] == if Joined(was, h) then m[o] else m[o] + 1;
      o := h;
    }
    l := NextGroup(was, now, m, o);
  }

  lemma MarkedStep(was: seq<Run>, now: seq<Run>, m: seq<nat>, g: nat, l: nat)
    requires Nested(was) && MarksFollow(was) && Mirrors(was, now, m, |was|, |now|) && 1 <= g < |now| - 1
    requires 2 <= l < |was| && m[l] == g + 1 && m[l - 1] == g
    ensures NestedStep(now, g)
  {
    hide Marked, MarkedBefore, LinkBefore, MarksFollow, Joined, MarkedBracket, Nested, CanOpen, StillIs;
    var h := l - 1;
    StepOf(was, h);
    assert Like(was, now, m, h) && Like(was, now, m, l);
    MarkedOpen(was, h);
    MarkedOpen(was, l);
    var p := LinkBefore(was, h, was[l].isolateLevel);
    LinkMirrors(was, now, m, |was|, |now|, h, was[l].isolateLevel);
    if 0 < p < |was| {
      assert Like(was, now, m, p);
      MarkedOpen(was, p);
    }
    if was[l].typ.NSM? && MarkedBefore(was, l).PDI? {
      MarkBehindPdi(was, l);
      PdiOpens();
    }
    if l == |was| - 1 { assert m[l] == |now| - 1; }
    NoSeparatorMarked(was, h);
    if 0 < p { MapPositive(was, now, m, p); }
  }

  lemma PdiOpens()
    ensures CanOpen(PDI)
  {
  }

  lemma MapPositive(was: seq<Run>, now: seq<Run>, m: seq<nat>, p: nat)
    requires Mirrors(was, now, m, |was|, |now|) && 1 <= p < |was|
    ensures 0 < m[p] < |now|
  {
    assert Like(was, now, m, p);
  }

  // ---------------------------------------------------------------- isolate levels of characters

  /** No character but the separator gets another isolate level. */
  ghost predicate SameIsolates(a: seq<Run>, b: seq<Run>) {
    |a| > 0 && |b| > 0 && forall x :: 0 <= x ==> SameIsolate(a, b, x)
  }

  ghost predicate SameIsolate(a: seq<Run>, b: seq<Run>, x: int)
    requires |a| > 0 && |b| > 0
  {
    !AttrAt(a, x).typ.BS? ==> PlaceAt(b, x).isolateLevel == PlaceAt(a, x).isolateLevel && !AttrAt(b, x).typ.BS?
  }

  lemma {:induction false} CompactedIsolates(nodes: seq<Run>, i: nat, neutrals: bool)
    requires Nested(nodes) && IsList(nodes)
    ensures SameIsolates(nodes, Compacted(nodes, i, neutrals))
    decreases |nodes| - i
  {
    ListNotEmpty(nodes);
    hide Merged, Nested, IsList, SameIsolates;
    if i < |nodes| {
      if i >= 2 && Joinable(nodes[i - 1], nodes[i], neutrals) {
        NestedMerged(nodes, i);
        MergeIsList(nodes, i);
        MergedAt(nodes, i, 0);
        CompactedIsolates(Merged(nodes, i), i, neutrals);
        MergedIsolates(nodes, i);
        SameIsolatesTrans(nodes, Merged(nodes, i), Compacted(Merged(nodes, i), i, neutrals));
      } else {
        CompactedIsolates(nodes, i + 1, neutrals);
      }
    } else {
      SameIsolatesRefl(nodes);
    }
  }

  lemma SameIsolatesRefl(a: seq<Run>)
    requires |a| > 0
    ensures SameIsolates(a, a)
  {
  }

  lemma SameIsolatesTrans(a: seq<Run>, b: seq<Run>, c: seq<Run>)
    requires SameIsolates(a, b) && SameIsolates(b, c)
    ensures SameIsolates(a, c)
  {
    hide AttrAt, PlaceAt;
    forall x | 0 <= x
      ensures SameIsolate(a, c, x)
    {
      assert SameIsolate(a, b, x) && SameIsolate(b, c, x);
    }
  }

  lemma MergedIsolates(nodes: seq<Run>, i: nat)
    requires 2 <= i < |nodes| && Nested(nodes) && IsList(nodes) && nodes[i - 1].level == nodes[i].level
    ensures SameIsolates(nodes, Merged(nodes, i))
  {
    hide Owner, Merged, IsList, LinkBefore, CanOpen;
    StepOf(nodes, i - 1);
    MergedAt(nodes, i, 0);
    forall x | 0 <= x
      ensures SameIsolate(nodes, Merged(nodes, i), x)
    {
      MergeOwner(nodes, i, x);
      MergedAt(nodes, i, Owner(Merged(nodes, i), |nodes| - 1, x));
    }
  }

  // ---------------------------------------------------------------- isolating run sequences

  /** The run before run i in its isolating run sequence, 0 if i is the first one: behind a PDI that is the run of the
      initiator. */
  function PrevIn(nodes: seq<Run>, i: nat): (p: nat)
    requires 1 <= i < |nodes|
    ensures p < i && (p > 0 ==> nodes[p].level == nodes[i].level && nodes[p].isolateLevel == nodes[i].isolateLevel)
  {
    var p := Before(nodes, i);
    if p > 0 && nodes[p].level == nodes[i].level then p else 0
  }

  /** The next run of an isolate, 0 if the isolate ends before it. */
  function LinkForward(nodes: seq<Run>, j: nat, isolateLevel: int): (p: nat)
    ensures p == 0 || (j <= p < |nodes| && nodes[p].isolateLevel == isolateLevel)
    decreases |nodes| - j
  {
    if j >= |nodes| || nodes[j].isolateLevel < isolateLevel then 0
    else if nodes[j].isolateLevel == isolateLevel then j
    else LinkForward(nodes, j + 1, isolateLevel)
  }

  /** The run after run i in its isolating run sequence, 0 if i is the last one. */
  function NextIn(nodes: seq<Run>, i: nat): (p: nat)
    requires 1 <= i < |nodes|
    ensures p == 0 || (i < p < |nodes| && nodes[p].level == nodes[i].level && nodes[p].isolateLevel == nodes[i].isolateLevel)
  {
    var p := LinkForward(nodes, i + 1, nodes[i].isolateLevel);
    if p > 0 && nodes[p].level == nodes[i].level then p else 0
  }

  /** X10: the types at both ends of a sequence; its first run is i for Sos, its last one for Eos.  An initiator
      without a PDI ends the sequence as the end of the text does. */
  function Sos(nodes: seq<Run>, i: nat, base: int): CharType
    requires 1 <= i < |nodes|
  {
    LevelToDir(Max(nodes[i].level, if i == 1 then base else nodes[i - 1].level))
  }

  function Eos(nodes: seq<Run>, i: nat, base: int): CharType
    requires 1 <= i < |nodes|
  {
    LevelToDir(Max(nodes[i].level,
                   if i + 1 == |nodes| || nodes[i + 1].isolateLevel > nodes[i].isolateLevel then base else nodes[i + 1].level))
  }

  /** The type before and after run i in its sequence. */
  function TypeLeft(nodes: seq<Run>, i: nat, base: int): CharType
    requires 1 <= i < |nodes|
  {
    if PrevIn(nodes, i) > 0 then nodes[PrevIn(nodes, i)].typ else Sos(nodes, i, base)
  }

  function TypeRight(nodes: seq<Run>, i: nat, base: int): CharType
    requires 1 <= i < |nodes|
  {
    if NextIn(nodes, i) > 0 then nodes[NextIn(nodes, i)].typ else Eos(nodes, i, base)
  }

  /** No level is below the one of the paragraph. */
  ghost predicate AtLeast(nodes: seq<Run>, base: int) {
    0 <= base && forall k :: 1 <= k < |nodes| ==> 0 <= nodes[k].level && (base <= nodes[k].level || nodes[k].typ.BS?)
  }

  /** Two runs of one sequence: of one isolate, of one level, and whatever is between is of that level or in deeper
      isolates. */
  ghost predicate SameSequence(nodes: seq<Run>, i: nat, j: nat) {
    && 1 <= i <= j < |nodes| && nodes[i].isolateLevel == nodes[j].isolateLevel
    && forall k :: i < k <= j ==> InReach(nodes, i, k)
  }

  predicate InReach(nodes: seq<Run>, i: nat, k: nat)
    requires i < |nodes| && k < |nodes|
  {
    nodes[k].isolateLevel > nodes[i].isolateLevel || (nodes[k].isolateLevel == nodes[i].isolateLevel && nodes[k].level == nodes[i].level)
  }

  /** BD13: neighbours in a sequence are neighbours in the list, or the run of an initiator and the one of its PDI, with
      nothing but the isolate between. */
  lemma SequenceLinks(nodes: seq<Run>, i: nat)
    requires Nested(nodes) && 1 <= i < |nodes| && PrevIn(nodes, i) > 0 && !nodes[i].typ.BS?
    ensures var p := PrevIn(nodes, i);
            && (p == i - 1 || (nodes[i].typ.PDI? && CanOpen(nodes[p].typ) && p + 1 < i))
            && (forall k :: p < k < i ==> nodes[k].isolateLevel > nodes[i].isolateLevel)
            && NextIn(nodes, p) == i && SameSequence(nodes, p, i)
  {
    hide CanOpen;
    var j := i - 1;
    StepOf(nodes, j);
    LinkSkips(nodes, j, nodes[i].isolateLevel);
    var p := PrevIn(nodes, i);
    ForwardTo(nodes, p + 1, i);
  }

  lemma {:induction false} LinkSkips(nodes: seq<Run>, j: nat, isolateLevel: int)
    requires j < |nodes|
    ensures var p := LinkBefore(nodes, j, isolateLevel);
            p > 0 ==> forall k :: p < k <= j ==> nodes[k].isolateLevel > isolateLevel
  {
    if j > 0 { LinkSkips(nodes, j - 1, isolateLevel); }
  }

  lemma {:induction false} ForwardTo(nodes: seq<Run>, j: nat, i: nat)
    requires 1 <= j <= i < |nodes| && forall k :: j <= k < i ==> nodes[k].isolateLevel > nodes[i].isolateLevel
    ensures LinkForward(nodes, j, nodes[i].isolateLevel) == i
    decreases i - j
  {
    if j < i { ForwardTo(nodes, j + 1, i); }
  }

  // ---------------------------------------------------------------- the boundaries the program sees

  /** What get_adjacent_run and the level of its sentinel give is the type of rule X10. */
  lemma LeftIs(nodes: seq<Run>, base: int, i: nat)
    requires Nested(nodes) && AtLeast(nodes, base) && 1 <= i < |nodes| && !nodes[i].typ.BS?
    ensures TypeBefore(nodes, i) == TypeLeft(nodes, i, base)
  {
    if i > 1 {
      var j := i - 1;
      StepOf(nodes, j);
      var p := LinkBefore(nodes, j, nodes[i].isolateLevel);
    }
    hide LinkBefore, CanOpen;
  }

  /** Forwards the same holds for a run that no isolate follows. */
  lemma RightIs(nodes: seq<Run>, base: int, i: nat)
    requires Nested(nodes) && AtLeast(nodes, base) && 1 <= i < |nodes| && !CanOpen(nodes[i].typ)
    ensures TypeAfter(nodes, i) == TypeRight(nodes, i, base)
    ensures NextIn(nodes, i) > 0 ==> NextIn(nodes, i) == i + 1
  {
    if i + 1 < |nodes| {
      StepOf(nodes, i);
      assert nodes[i + 1].typ.BS? ==> !nodes[i + 1].typ.PDI?;
    }
  }

  // ---------------------------------------------------------------- levels rise into isolates

  /** The run before j that is in fewer isolates. */
  function LinkOut(nodes: seq<Run>, j: int, isolateLevel: int): (p: nat)
    requires j < |nodes|
    ensures p == 0 || (p <= j && nodes[p].isolateLevel < isolateLevel)
    decreases j
  {
    if j <= 0 then 0 else if nodes[j].isolateLevel < isolateLevel then j else LinkOut(nodes, j - 1, isolateLevel)
  }

  /** The text of an isolate has higher levels than the text around it. */
  predicate HigherAt(nodes: seq<Run>, k: nat)
    requires 1 <= k < |nodes|
  {
    var p := LinkOut(nodes, k - 1, nodes[k].isolateLevel);
    p > 0 && !nodes[k].typ.BS? ==> nodes[p].level < nodes[k].level
  }

  ghost predicate Rising(nodes: seq<Run>) {
    forall k :: 1 <= k < |nodes| ==> HigherAt(nodes, k)
  }

  lemma {:induction false} OutMerged(nodes: seq<Run>, i: nat, j: nat, isolateLevel: int)
    requires 2 <= i < |nodes| && j < |nodes| - 1 && (i - 1 <= j ==> nodes[i].isolateLevel == nodes[i - 1].isolateLevel)
    ensures |Merged(nodes, i)| == |nodes| - 1
    ensures var p := LinkOut(nodes, if j < i - 1 then j else j + 1, isolateLevel);
            LinkOut(Merged(nodes, i), j, isolateLevel) == if p < i then p else p - 1
    decreases j
  {
    hide Merged;
    MergedAt(nodes, i, j);
    if j > 0 {
      OutMerged(nodes, i, j - 1, isolateLevel);
    }
  }

  lemma RisingMerged(nodes: seq<Run>, i: nat)
    requires 2 <= i < |nodes| && Nested(nodes) && Rising(nodes) && nodes[i - 1].level == nodes[i].level
    ensures Rising(Merged(nodes, i))
  {
    hide Merged, LinkOut, LinkBefore, CanOpen, Nested;
    var m := Merged(nodes, i);
    StepOf(nodes, i - 1);
    MergedAt(nodes, i, 0);
    forall k | 1 <= k < |m|
      ensures HigherAt(m, k)
    {
      var o := if k < i then k else k + 1;
      assert HigherAt(nodes, o);
      MergedAt(nodes, i, k);
      OutMerged(nodes, i, k - 1, m[k].isolateLevel);
      var p := LinkOut(nodes, o - 1, nodes[o].isolateLevel);
      if p > 0 { MergedAt(nodes, i, if p < i then p else p - 1); }
    }
  }

  lemma {:induction false} RisingCompacted(nodes: seq<Run>, i: nat, neutrals: bool)
    requires Nested(nodes) && Rising(nodes)
    ensures Rising(Compacted(nodes, i, neutrals))
    decreases |nodes| - i
  {
    hide Merged, Nested, Rising;
    if i < |nodes| {
      if i >= 2 && Joinable(nodes[i - 1], nodes[i], neutrals) {
        NestedMerged(nodes, i);
        RisingMerged(nodes, i);
        MergedAt(nodes, i, 0);
        RisingCompacted(Merged(nodes, i), i, neutrals);
      } else {
        RisingCompacted(nodes, i + 1, neutrals);
      }
    }
  }

  lemma {:induction false} OutRetyped(a: seq<Run>, b: seq<Run>, j: int, isolateLevel: int)
    requires Retyped(a, b) && j < |a|
    ensures LinkOut(a, j, isolateLevel) == LinkOut(b, j, isolateLevel)
    decreases j
  {
    hide RetypedOne;
    if j > 0 { OutRetyped(a, b, j - 1, isolateLevel); }
  }

  lemma RisingRetyped(a: seq<Run>, b: seq<Run>)
    requires Rising(a) && Retyped(a, b)
    ensures Rising(b)
  {
    hide LinkOut, CanOpen;
    forall k | 1 <= k < |b|
      ensures HigherAt(b, k)
    {
      assert HigherAt(a, k) && RetypedOne(a[k].typ, b[k].typ);
      OutRetyped(a, b, k - 1, a[k].isolateLevel);
    }
  }

  lemma {:induction false} OutMirrors(was: seq<Run>, now: seq<Run>, m: seq<nat>, k: nat, i: nat, j: nat, isolateLevel: int)
    requires Mirrors(was, now, m, k, i) && j < k && m[j] < |now|
    ensures var p := LinkOut(was, j, isolateLevel); p <= j && LinkOut(now, m[j], isolateLevel) == m[p]
    decreases j
  {
    hide Marked, MarkedBracket, Joined;
    if j > 0 {
      assert Like(was, now, m, j);
      var h := j - 1;
      OutMirrors(was, now, m, k, i, h, isolateLevel);
      assert m[j] == if Joined(was, j) then m[h] else m[h] + 1;
      if m[j] == m[h] && h > 0 { assert Like(was, now, m, h); }
    }
  }

  lemma RisingMarked(was: seq<Run>, now: seq<Run>, m: seq<nat>)
    requires Nested(was) && Rising(was) && Mirrors(was, now, m, |was|, |now|)
    ensures Rising(now)
  {
    hide Marked, MarkedBefore, LinkOut, Joined, MarkedBracket, Nested, Like, StillIs, HigherAt;
    forall g | 1 <= g < |now|
      ensures HigherAt(now, g)
    {
      var l := 1;
      if g > 1 { l := GroupStart(was, now, m, g - 1); } else { FirstGroup(was, now, m); }
      RisesAt(was, now, m, g, l);
    }
  }

  lemma FirstGroup(was: seq<Run>, now: seq<Run>, m: seq<nat>)
    requires Mirrors(was, now, m, |was|, |now|) && |now| > 1
    ensures |was| > 1 && m[0] == 0 && m[1] == 1
  {
    hide Marked, Like, StillIs;
    var h := 1;
    assert m[|was| - 1] == |now| - 1;
    assert |was| > 1 ==> !Joined(was, h);
  }

  lemma RisesAt(was: seq<Run>, now: seq<Run>, m: seq<nat>, g: nat, l: nat)
    requires Nested(was) && Rising(was) && Mirrors(was, now, m, |was|, |now|)
    requires 1 <= g < |now| && 1 <= l < |was| && m[l] == g && m[l - 1] == g - 1
    ensures HigherAt(now, g)
  {
    hide Marked, MarkedBefore, LinkOut, LinkBefore, Joined, MarkedBracket, Nested, StillIs;
    assert HigherAt(was, l);
    assert Like(was, now, m, l);
    MarkedOpen(was, l);
    var h := l - 1;
    OutMirrors(was, now, m, |was|, |now|, h, was[l].isolateLevel);
    var p := LinkOut(was, h, was[l].isolateLevel);
    if p > 0 {
      assert Like(was, now, m, p);
    }
  }
}
