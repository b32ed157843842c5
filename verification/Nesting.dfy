/** From the text to the run list, 3rd/fribidi/fribidi-bidi.c: if no isolate initiator is rejected and a block separator
    only ends the text, the isolates of the list that the explicit pass leaves nest as they do in the text. */
module Nesting {
  import opened BidiTypes
  import opened Wrappers
  import opened RunList
  import opened ExplicitRules
  import opened ExplicitText
  import opened IsolateLevels
  import opened Explicit
  import opened Resolve
  import opened Sequences

  /** A paragraph as UAX #9 takes it, with room on the stack for every isolate. */
  ghost predicate Regular(types: seq<CharType>, base: int) {
    && 0 <= base <= 1 && |types| <= ParagraphEnd(types) + 1
    && NoneRejected(types, base, |types|)
  }

  /** The list after the explicit pass. */
  ghost predicate IsMain(main: seq<Run>, explicits: seq<Run>, types: seq<CharType>, brackets: Option<seq<Bracket>>, base: int) {
    && (brackets.Some? ==> |brackets.value| == |types|)
    && Passed(main, explicits, types, base, |types|) && Placed(main, types, brackets, base, |types|)
  }

  // ---------------------------------------------------------------- characters

  lemma BeforeEnd(types: seq<CharType>, base: int, x: nat)
    requires Regular(types, base) && x < |types|
    ensures x <= ParagraphEnd(types) && NoneRejected(types, base, x) && NoneRejected(types, base, x + 1)
    ensures types[x].BS? <==> x == ParagraphEnd(types)
  {
    hide Accepted, OpenIsolates;
  }

  /** Type, level and isolate level of a character that the pass keeps. */
  ghost function TypeOf(types: seq<CharType>, base: int, x: nat): CharType
    requires x < |types|
  {
    Expected(types, base, x).typ
  }

  ghost function LevelOf(types: seq<CharType>, base: int, x: nat): int
    requires x < |types|
  {
    Expected(types, base, x).level
  }

  lemma KeptAttr(types: seq<CharType>, base: int, x: nat)
    requires Regular(types, base) && x < |types|
    ensures types[x].BS? ==> TypeOf(types, base, x).BS? && LevelOf(types, base, x) == 0
    ensures !types[x].BS? ==> LevelOf(types, base, x) == CodeStatus(types, base, if types[x].PDI? then x + 1 else x).Top().level
    ensures TypeOf(types, base, x).BS? ==> types[x].BS?
    ensures IsInitiator(types[x]) ==> CanOpen(TypeOf(types, base, x))
    ensures TypeOf(types, base, x).PDI? <==> types[x].PDI? && |OpenIsolates(types, x)| > 0
  {
    BeforeEnd(types, base, x);
    hide CodeIso, OpenIsolates, Counted, OnStack, ParagraphEnd, Regular;
    RegularBase(types, base);
    TrackedAll(types, base, x);
    CodeStatusBounded(types, base, x);
    hide CodeStatus;
    TopOverride(CodeStatus(types, base, x));
  }

  lemma RegularBase(types: seq<CharType>, base: int)
    requires Regular(types, base)
    ensures 0 <= base <= 1
  {
  }

  lemma TopOverride(s: Status)
    requires s.Bounded()
    ensures |s.stack| > 0 && s.Top().override in {LTR, RTL, ON}
  {
  }

  /** Codes that are taken out open and close no isolate. */
  lemma {:induction false} SameOpen(types: seq<CharType>, z: nat, y: nat)
    requires z <= y <= |types| && forall x :: z <= x < y ==> Removed(types, x)
    ensures OpenIsolates(types, y) == OpenIsolates(types, z)
  {
    hide ParagraphEnd;
    if z < y {
      SameOpen(types, z, y - 1);
      assert Removed(types, y - 1);
    }
  }

  lemma IsoIsDepth(types: seq<CharType>, base: int, x: nat)
    requires Regular(types, base) && x < |types|
    ensures IsolateLevelOf(types, base, x) == Depth(types, x)
  {
    BeforeEnd(types, base, x);
    IsolateLevelIsDepth(types, base, x);
  }

  /** Two neighbours among the kept characters: the isolate goes on, opens, closes, or ends with the text. */
  datatype Step = GoesOn | Deeper | Out | Ends

  ghost predicate IsStep(types: seq<CharType>, base: int, z: nat, y: nat, step: Step)
    requires z < |types| && y < |types|
  {
    var i, j := IsolateLevelOf(types, base, z), IsolateLevelOf(types, base, y);
    var a, b := LevelOf(types, base, z), LevelOf(types, base, y);
    var t, u := TypeOf(types, base, z), TypeOf(types, base, y);
    match step
    case GoesOn => j == i && (u.PDI? ==> b == a && CanOpen(t))
    case Deeper => j == i + 1 && a < b && CanOpen(t) && !u.PDI?
    case Out => u.PDI? && types[y].PDI? && |OpenIsolates(types, y)| > 0 && Last(types, y) < z && j < i && b < a
    case Ends => u.BS? && j == i + 1 && b <= a
  }

  /** The initiator that a PDI at y closes. */
  function Last(types: seq<CharType>, y: nat): (j: nat)
    requires y <= |types| && |OpenIsolates(types, y)| > 0
    ensures j < y && IsInitiator(types[j])
  {
    var open := OpenIsolates(types, y);
    open[|open| - 1]
  }

  /** What is known of two such neighbours. */
  lemma StepFacts(types: seq<CharType>, base: int, z: nat, y: nat)
    requires Regular(types, base) && z < y < |types| && forall x :: z < x < y ==> Removed(types, x)
    ensures !types[z].BS? && OpenIsolates(types, z + 1) == OpenIsolates(types, y)
    ensures var n := |OpenIsolates(types, y)|;
            && IsolateLevelOf(types, base, z) == (if IsInitiator(types[z]) then n - 1 else n)
            && (IsInitiator(types[z]) ==> n > 0 && Last(types, y) == z)
            && IsolateLevelOf(types, base, y) == (if types[y].PDI? && n > 0 then n - 1 else n)
  {
    hide ParagraphEnd, CodeStatus, CodeIso, OpenIsolates, Regular, Removed, IsolateLevelOf;
    BeforeEnd(types, base, z);
    BeforeEnd(types, base, y);
    SameOpen(types, z + 1, y);
    OpenNext(types, z);
    OpenNext(types, y);
    IsoIsDepth(types, base, z);
    IsoIsDepth(types, base, y);
  }

  lemma CharStep(types: seq<CharType>, base: int, z: nat, y: nat) returns (step: Step)
    requires Regular(types, base) && z < y < |types| && forall x :: z < x < y ==> Removed(types, x)
    ensures IsStep(types, base, z, y, step) && !types[z].BS?
  {
    hide ParagraphEnd, OpenIsolates, TypeOf, LevelOf, Regular, Removed, IsolateLevelOf, Last;
    StepFacts(types, base, z, y);
    hide CodeStatus;
    KeptAttr(types, base, z);
    KeptAttr(types, base, y);
    if !types[y].PDI? {
      if IsInitiator(types[z]) {
        if types[y].BS? {
          step := Ends;
          LevelReal(types, base, z);
        } else {
          step := Deeper;
          StepsIn(types, base, z, y);
        }
      } else {
        step := GoesOn;
      }
    } else if |OpenIsolates(types, y)| == 0 {
      step := GoesOn;
    } else {
      ClosesHere(types, base, y);
      if IsInitiator(types[z]) {
        step := GoesOn;
      } else {
        step := Out;
        StepsOut(types, base, z, y);
      }
    }
  }

  lemma LevelReal(types: seq<CharType>, base: int, x: nat)
    requires Regular(types, base) && x < |types|
    ensures 0 <= LevelOf(types, base, x)
  {
    KeptAttr(types, base, x);
    RegularBase(types, base);
    hide CodeStatus, Expected, Regular;
    var n := if types[x].PDI? then x + 1 else x;
    CodeStatusBounded(types, base, n);
    BoundedTop(CodeStatus(types, base, n));
  }

  lemma StepsIn(types: seq<CharType>, base: int, z: nat, y: nat)
    requires Regular(types, base) && z < y < |types| && IsInitiator(types[z]) && !types[y].PDI? && !types[y].BS?
    requires |OpenIsolates(types, y)| > 0 && Last(types, y) == z
    ensures LevelOf(types, base, z) < LevelOf(types, base, y)
  {
    hide CodeStatus, CodeIso, OpenIsolates, Expected, Regular, ParagraphEnd, OnStack, Counted;
    RegularBase(types, base);
    KeptAttr(types, base, z);
    KeptAttr(types, base, y);
    BeforeEnd(types, base, y);
    TrackedAll(types, base, y);
    HigherInside(types, base, y, |OpenIsolates(types, y)| - 1);
  }

  lemma ClosesHere(types: seq<CharType>, base: int, y: nat)
    requires Regular(types, base) && y < |types| && types[y].PDI? && |OpenIsolates(types, y)| > 0
    ensures var j := Last(types, y);
            && LevelOf(types, base, y) == LevelOf(types, base, j)
            && IsolateLevelOf(types, base, y) == IsolateLevelOf(types, base, j) == |OpenIsolates(types, y)| - 1
  {
    hide CodeStatus, CodeIso, OpenIsolates, Expected, Regular, ParagraphEnd;
    RegularBase(types, base);
    BeforeEnd(types, base, y);
    KeptAttr(types, base, y);
    KeptAttr(types, base, Last(types, y));
    ClosesAt(types, base, y);
  }

  lemma StepsOut(types: seq<CharType>, base: int, z: nat, y: nat)
    requires Regular(types, base) && z < y < |types| && types[y].PDI? && |OpenIsolates(types, y)| > 0 && !types[z].BS?
    requires OpenIsolates(types, z + 1) == OpenIsolates(types, y) && !IsInitiator(types[z])
    ensures Last(types, y) < z && LevelOf(types, base, y) < LevelOf(types, base, z)
    ensures IsolateLevelOf(types, base, y) < IsolateLevelOf(types, base, z)
  {
    hide CodeStatus, CodeIso, OpenIsolates, Expected, Regular, ParagraphEnd;
    RegularBase(types, base);
    ClosesHere(types, base, y);
    var j := Last(types, y);
    assert j == Last(types, z + 1);
    InsideLevels(types, base, y, |OpenIsolates(types, y)| - 1, z);
  }

  /** Every character behind an initiator that is open at n is deeper and higher than it. */
  lemma InsideLevels(types: seq<CharType>, base: int, n: nat, m: nat, z: nat)
    requires Regular(types, base) && n <= |types| && m < |OpenIsolates(types, n)|
    requires OpenIsolates(types, n)[m] < z < n
    ensures IsolateLevelOf(types, base, z) > m
    ensures !types[z].BS? ==> LevelOf(types, base, OpenIsolates(types, n)[m]) < LevelOf(types, base, z)
  {
    hide CodeStatus, CodeIso, OpenIsolates, Expected, Regular, ParagraphEnd;
    RegularBase(types, base);
    RegularUpTo(types, base, n);
    KeptAttr(types, base, z);
    KeptAttr(types, base, OpenIsolates(types, n)[m]);
    Inside(types, base, n, m, z);
  }

  lemma RegularUpTo(types: seq<CharType>, base: int, n: nat)
    requires Regular(types, base) && n <= |types|
    ensures NoneRejected(types, base, n)
  {
    hide Accepted, OpenIsolates;
  }

  // ---------------------------------------------------------------- runs and their characters

  /** Character x is kept and belongs to run k. */
  ghost predicate InRun(main: seq<Run>, types: seq<CharType>, k: nat, x: int)
    requires k < |main|
  {
    0 <= x < |types| && !Removed(types, x) && main[k].pos <= x < NextPos(main, k, |types|)
  }

  /** The run has what its character has. */
  lemma RunHas(main: seq<Run>, explicits: seq<Run>, types: seq<CharType>, brackets: Option<seq<Bracket>>, base: int, k: nat, x: int)
    requires IsMain(main, explicits, types, brackets, base) && Regular(types, base) && 1 <= k < |main| && InRun(main, types, k, x)
    ensures main[k].typ == TypeOf(types, base, x) && main[k].level == LevelOf(types, base, x)
    ensures main[k].isolateLevel == IsolateLevelOf(types, base, x) && main[k].bracket == BracketAt(brackets, x)
  {
    BeforeEnd(types, base, x);
    hide ParagraphEnd, Regular, Free, Removed, Expected, IsolateLevelOf;
    assert CharPassed(main, explicits, types, base, x);
    assert PlacedAt(main, types, brackets, base, x);
    OwnerIs(main, |main|, x, k);
  }

  lemma {:induction false} LastFree(over: seq<Run>, a: int, b: int) returns (z: int)
    requires Free(over, a, b) > 0
    ensures a <= z < b && !Covered(over, z) && forall x :: z < x < b ==> Covered(over, x)
    decreases b - a
  {
    if Covered(over, b - 1) { z := LastFree(over, a, b - 1); } else { z := b - 1; }
  }

  lemma {:induction false} FirstFree(over: seq<Run>, a: int, b: int) returns (y: int)
    requires Free(over, a, b) > 0
    ensures a <= y < b && !Covered(over, y) && forall x :: a <= x < y ==> Covered(over, x)
    decreases b - a
  {
    hide Covered;
    FreeSplit(over, a, b - 1, b);
    if Free(over, a, b - 1) > 0 {
      y := FirstFree(over, a, b - 1);
    } else {
      y := b - 1;
      forall x | a <= x < y
        ensures Covered(over, x)
      {
        NothingFree(over, a, y, x);
      }
    }
  }

  lemma RunBounds(main: seq<Run>, explicits: seq<Run>, types: seq<CharType>, brackets: Option<seq<Bracket>>, base: int, k: nat)
    requires IsMain(main, explicits, types, brackets, base) && 1 <= k < |main|
    ensures 0 <= main[k].pos && NextPos(main, k, |types|) <= |types|
    ensures Free(explicits, main[k].pos, NextPos(main, k, |types|)) > 0
    ensures forall x :: 0 <= x < |types| ==> (Covered(explicits, x) <==> Removed(types, x))
  {
    hide CharPassed, PlacedAt, Free, Covered, Removed;
    assert NodeFits(main, explicits, |types|, k);
    if k + 1 < |main| { assert NodeFits(main, explicits, |types|, k + 1); }
    assert main[0].pos < main[k].pos;
    forall x | 0 <= x < |types|
      ensures Covered(explicits, x) <==> Removed(types, x)
    {
      PassedCovers(main, explicits, types, base, x);
    }
  }

  lemma PassedCovers(main: seq<Run>, explicits: seq<Run>, types: seq<CharType>, base: int, x: int)
    requires Passed(main, explicits, types, base, |types|) && 0 <= x < |types|
    ensures Covered(explicits, x) <==> Removed(types, x)
  {
    hide Covered, Removed;
    assert CharPassed(main, explicits, types, base, x);
  }

  lemma FirstOf(main: seq<Run>, explicits: seq<Run>, types: seq<CharType>, brackets: Option<seq<Bracket>>, base: int, k: nat) returns (y: nat)
    requires IsMain(main, explicits, types, brackets, base) && 1 <= k < |main|
    ensures InRun(main, types, k, y) && forall x :: main[k].pos <= x < y ==> Removed(types, x)
  {
    hide IsMain, Removed, Free, Covered;
    RunBounds(main, explicits, types, brackets, base, k);
    y := FirstFree(explicits, main[k].pos, NextPos(main, k, |types|));
  }

  /** The last character of a run, the first one of the next, and nothing but codes between. */
  lemma Neighbours(main: seq<Run>, explicits: seq<Run>, types: seq<CharType>, brackets: Option<seq<Bracket>>, base: int, k: nat)
      returns (z: nat, y: nat)
    requires IsMain(main, explicits, types, brackets, base) && 1 <= k < |main| - 1
    ensures InRun(main, types, k, z) && InRun(main, types, k + 1, y)
    ensures z < y && forall x :: z < x < y ==> Removed(types, x)
  {
    hide IsMain, Removed, Free, Covered;
    RunBounds(main, explicits, types, brackets, base, k);
    z := LastFree(explicits, main[k].pos, NextPos(main, k, |types|));
    y := FirstOf(main, explicits, types, brackets, base, k + 1);
  }

  /** A kept character belongs to a run. */
  lemma RunOfChar(main: seq<Run>, explicits: seq<Run>, types: seq<CharType>, brackets: Option<seq<Bracket>>, base: int, x: nat) returns (k: nat)
    requires IsMain(main, explicits, types, brackets, base) && x < |types| && !Removed(types, x)
    ensures 1 <= k < |main| && InRun(main, types, k, x)
  {
    PassedCovers(main, explicits, types, base, x);
    hide Removed, Free, Covered;
    FitsIsList(main, explicits, |types|);
    OwnerHolds(main, |main|, x);
    k := Owner(main, |main|, x);
    if k == 0 { NothingFree(explicits, 0, NextPos(main, 0, |types|), x); }
  }

  /** Runs stand in the order of their characters. */
  lemma RunOrder(main: seq<Run>, explicits: seq<Run>, types: seq<CharType>, brackets: Option<seq<Bracket>>, base: int, p: nat, j: int, r: nat, x: int)
    requires IsMain(main, explicits, types, brackets, base) && 1 <= p < |main| && 1 <= r < |main|
    requires InRun(main, types, p, j) && InRun(main, types, r, x)
    ensures p < r ==> j < x
    ensures j < x ==> p <= r
  {
    hide Free, CharPassed, PlacedAt, Removed;
    if p < r { assert p + 1 == r || main[p + 1].pos < main[r].pos; }
    if r < p { assert r + 1 == p || main[r + 1].pos < main[p].pos; }
  }

  // ---------------------------------------------------------------- the list nests

  /** Between an initiator that is open at n and n all runs are deeper. */
  lemma DeeperRun(main: seq<Run>, explicits: seq<Run>, types: seq<CharType>, brackets: Option<seq<Bracket>>, base: int,
                  n: nat, m: nat, p: nat, r: nat)
    requires IsMain(main, explicits, types, brackets, base) && Regular(types, base)
    requires n <= |types| && m < |OpenIsolates(types, n)| && 1 <= p < r < |main| && InRun(main, types, p, OpenIsolates(types, n)[m])
    requires main[r].pos < n && exists x :: main[r].pos <= x < n && InRun(main, types, r, x)
    ensures main[r].isolateLevel > m
  {
    hide IsMain, Regular, OpenIsolates, Removed, TypeOf, LevelOf, IsolateLevelOf;
    var x :| main[r].pos <= x < n && InRun(main, types, r, x);
    var j := OpenIsolates(types, n)[m];
    RunOrder(main, explicits, types, brackets, base, p, j, r, x);
    RunHas(main, explicits, types, brackets, base, r, x);
    InsideLevels(types, base, n, m, x);
  }

  lemma {:induction false} LinkBackTo(nodes: seq<Run>, k: nat, p: nat, isolateLevel: int)
    requires 1 <= p <= k < |nodes| && nodes[p].isolateLevel == isolateLevel
    requires forall r :: p < r <= k ==> nodes[r].isolateLevel > isolateLevel
    ensures LinkBefore(nodes, k, isolateLevel) == p
    decreases k
  {
    if p < k { LinkBackTo(nodes, k - 1, p, isolateLevel); }
  }

  /** The runs from the one behind the initiator's to run k hold characters before n. */
  lemma CharsBefore(main: seq<Run>, explicits: seq<Run>, types: seq<CharType>, brackets: Option<seq<Bracket>>, base: int, k: nat, z: nat, r: nat)
    requires IsMain(main, explicits, types, brackets, base) && 1 <= r <= k < |main| && InRun(main, types, k, z)
    ensures exists x :: main[r].pos <= x <= z && InRun(main, types, r, x)
  {
    hide Removed, Free, CharPassed, PlacedAt;
    if r == k {
      assert main[r].pos <= z && InRun(main, types, r, z);
    } else {
      var x := FirstOf(main, explicits, types, brackets, base, r);
      RunOrder(main, explicits, types, brackets, base, r, x, k, z);
      assert main[r].pos <= x && InRun(main, types, r, x);
    }
  }

  lemma OutStep(main: seq<Run>, explicits: seq<Run>, types: seq<CharType>, brackets: Option<seq<Bracket>>, base: int, k: nat, z: nat, y: nat)
    requires IsMain(main, explicits, types, brackets, base) && Regular(types, base) && 1 <= k < |main| - 1
    requires InRun(main, types, k, z) && InRun(main, types, k + 1, y) && IsStep(types, base, z, y, Out)
    requires z < y
    ensures Closes(main, k)
  {
    hide IsMain, Regular, OpenIsolates, Removed, TypeOf, LevelOf, IsolateLevelOf, CanOpen, LinkBefore;
    RunHas(main, explicits, types, brackets, base, k, z);
    RunHas(main, explicits, types, brackets, base, k + 1, y);
    ClosesHere(types, base, y);
    var open := OpenIsolates(types, y);
    var m := |open| - 1;
    var j := Last(types, y);
    InitiatorStays(types, j);
    var p := RunOfChar(main, explicits, types, brackets, base, j);
    RunHas(main, explicits, types, brackets, base, p, j);
    KeptAttr(types, base, j);
    RunOrder(main, explicits, types, brackets, base, p, j, k, z);
    forall r | p < r <= k
      ensures main[r].isolateLevel > m
    {
      CharsBefore(main, explicits, types, brackets, base, k, z, r);
      DeeperRun(main, explicits, types, brackets, base, y, m, p, r);
    }
    LinkBackTo(main, k, p, m);
  }

  lemma InitiatorStays(types: seq<CharType>, j: nat)
    requires j < |types| && IsInitiator(types[j])
    ensures !Removed(types, j)
  {
  }

  lemma MainStep(main: seq<Run>, explicits: seq<Run>, types: seq<CharType>, brackets: Option<seq<Bracket>>, base: int, k: nat)
    requires IsMain(main, explicits, types, brackets, base) && Regular(types, base) && 1 <= k < |main| - 1
    ensures NestedStep(main, k)
  {
    hide IsMain, Regular, OpenIsolates, Removed, TypeOf, LevelOf, IsolateLevelOf, CanOpen, Closes, InRun, Depth, ParagraphEnd;
    var z, y := Neighbours(main, explicits, types, brackets, base, k);
    InText(main, types, k, z);
    InText(main, types, k + 1, y);
    RunHas(main, explicits, types, brackets, base, k, z);
    RunHas(main, explicits, types, brackets, base, k + 1, y);
    KeptAttr(types, base, z);
    KeptAttr(types, base, y);
    var step := CharStep(types, base, z, y);
    if step == Out { OutStep(main, explicits, types, brackets, base, k, z, y); }
    if step == Ends { EndsList(main, explicits, types, brackets, base, k + 1, y); }
  }

  lemma InText(main: seq<Run>, types: seq<CharType>, k: nat, x: int)
    requires k < |main| && InRun(main, types, k, x)
    ensures 0 <= x < |types|
  {
  }

  lemma EndsList(main: seq<Run>, explicits: seq<Run>, types: seq<CharType>, brackets: Option<seq<Bracket>>, base: int, k: nat, y: nat)
    requires IsMain(main, explicits, types, brackets, base) && Regular(types, base) && 1 <= k < |main| && InRun(main, types, k, y)
    requires types[y].BS?
    ensures k == |main| - 1
  {
    BeforeEnd(types, base, y);
    RunsStart(main, explicits, types, base);
  }

  lemma RunsStart(main: seq<Run>, explicits: seq<Run>, types: seq<CharType>, base: int)
    requires Passed(main, explicits, types, base, |types|)
    ensures forall k :: 1 <= k < |main| ==> main[k].pos < |types|
  {
    hide Free, CharPassed;
    forall k | 1 <= k < |main|
      ensures main[k].pos < |types|
    {
      assert NodeFits(main, explicits, |types|, k);
    }
  }

  /** The isolates of the list nest as those of the text. */
  lemma MainNested(main: seq<Run>, explicits: seq<Run>, types: seq<CharType>, brackets: Option<seq<Bracket>>, base: int)
    requires IsMain(main, explicits, types, brackets, base) && Regular(types, base)
    ensures Nested(main)
  {
    hide IsMain, Regular, NestedStep;
    forall k | 1 <= k < |main| - 1
      ensures NestedStep(main, k)
    {
      MainStep(main, explicits, types, brackets, base, k);
    }
  }

  // ---------------------------------------------------------------- levels rise into isolates

  lemma {:induction false} LinkOutTo(nodes: seq<Run>, k: nat, p: nat, isolateLevel: int)
    requires p <= k < |nodes| && (p > 0 ==> nodes[p].isolateLevel < isolateLevel)
    requires forall r :: p < r <= k ==> nodes[r].isolateLevel >= isolateLevel
    ensures LinkOut(nodes, k, isolateLevel) == p
    decreases k
  {
    if p < k { LinkOutTo(nodes, k - 1, p, isolateLevel); }
  }

  lemma NoDepthBelow(main: seq<Run>, explicits: seq<Run>, types: seq<CharType>, brackets: Option<seq<Bracket>>, base: int, r: nat)
    requires IsMain(main, explicits, types, brackets, base) && Regular(types, base) && 1 <= r < |main|
    ensures main[r].isolateLevel >= 0
  {
    hide IsMain, Regular, OpenIsolates, Removed, TypeOf, LevelOf, IsolateLevelOf, InRun;
    var x := FirstOf(main, explicits, types, brackets, base, r);
    InText(main, types, r, x);
    RunHas(main, explicits, types, brackets, base, r, x);
    IsoIsDepth(types, base, x);
  }

  lemma RisesHere(main: seq<Run>, explicits: seq<Run>, types: seq<CharType>, brackets: Option<seq<Bracket>>, base: int, k: nat)
    requires IsMain(main, explicits, types, brackets, base) && Regular(types, base) && 1 <= k < |main|
    ensures HigherAt(main, k)
  {
    hide IsMain, Regular, OpenIsolates, Removed, TypeOf, LevelOf, IsolateLevelOf, LinkOut, ParagraphEnd;
    var y := FirstOf(main, explicits, types, brackets, base, k);
    RunHas(main, explicits, types, brackets, base, k, y);
    IsoIsDepth(types, base, y);
    KeptAttr(types, base, y);
    var d := main[k].isolateLevel;
    if d == 0 {
      forall r | 0 < r <= k - 1
        ensures main[r].isolateLevel >= 0
      {
        NoDepthBelow(main, explicits, types, brackets, base, r);
      }
      LinkOutTo(main, k - 1, 0, d);
    } else {
      OpenNext(types, y);
      var n := y + 1;
      DepthIsOpen(types, y);
      var open := OpenIsolates(types, n);
      var m: nat := d - 1;
      var j := open[m];
      InitiatorStays(types, j);
      var p := RunOfChar(main, explicits, types, brackets, base, j);
      RunHas(main, explicits, types, brackets, base, p, j);
      OpenAtDepth(types, base, n, m);
      IsoIsDepth(types, base, j);
      RunOrder(main, explicits, types, brackets, base, p, j, k, y);
      InsideLevels(types, base, n, m, y);
      assert p < k;
      forall r | p < r <= k - 1
        ensures main[r].isolateLevel >= d
      {
        CharsBefore(main, explicits, types, brackets, base, k, y, r);
        DeeperRun(main, explicits, types, brackets, base, n, m, p, r);
      }
      LinkOutTo(main, k - 1, p, d);
    }
  }

  /** The innermost isolate of a character is open behind it. */
  lemma DepthIsOpen(types: seq<CharType>, y: nat)
    requires y < |types| && Depth(types, y) > 0
    ensures var d := Depth(types, y);
            d <= |OpenIsolates(types, y + 1)| && OpenIsolates(types, y + 1)[d - 1] < y
  {
    hide OpenIsolates;
    OpenNext(types, y);
  }

  lemma OpenAtDepth(types: seq<CharType>, base: int, n: nat, m: nat)
    requires Regular(types, base) && n <= |types| && m < |OpenIsolates(types, n)|
    ensures Depth(types, OpenIsolates(types, n)[m]) == m
  {
    hide CodeStatus, CodeIso, OpenIsolates, Counted, OnStack;
    RegularUpTo(types, base, n);
    TrackedAll(types, base, n);
    OpenDepth(types, base, n, m);
  }

  lemma MainRising(main: seq<Run>, explicits: seq<Run>, types: seq<CharType>, brackets: Option<seq<Bracket>>, base: int)
    requires IsMain(main, explicits, types, brackets, base) && Regular(types, base)
    ensures Rising(main)
  {
    hide IsMain, Regular, HigherAt;
    forall k | 1 <= k < |main|
      ensures HigherAt(main, k)
    {
      RisesHere(main, explicits, types, brackets, base, k);
    }
  }

  // ---------------------------------------------------------------- no level below that of the paragraph

  lemma {:induction false} CodePopEmbeddingsBottom(s: Status)
    requires |s.stack| > 0
    ensures CodePopEmbeddings(s).stack[0] == s.stack[0]
    decreases |s.stack|, s.overflowEmbeddings
  {
    if |s.stack| > 1 && !s.Top().isolate { CodePopEmbeddingsBottom(CodePop(s)); }
  }

  lemma StepBottom(s: Status, t: CharType, rtl: bool)
    requires |s.stack| > 0
    ensures CodeStep(s, t, rtl).stack[0].level >= s.stack[0].level
  {
    hide CodePopEmbeddings;
    if t.PDI? { CodePopEmbeddingsBottom(s); }
  }

  lemma {:induction false} BottomIsBase(types: seq<CharType>, base: int, n: nat)
    requires n <= |types|
    ensures CodeStatus(types, base, n).stack[0].level >= base
  {
    hide CodeStep;
    if n > 0 {
      BottomIsBase(types, base, n - 1);
      StepBottom(CodeStatus(types, base, n - 1), types[n - 1], CodeRtl(types, n - 1));
    }
  }

  lemma TopAboveBottom(s: Status)
    requires s.Bounded()
    ensures |s.stack| > 0 && s.Top().level >= s.stack[0].level
  {
  }

  lemma CharAtLeast(types: seq<CharType>, base: int, x: nat)
    requires Regular(types, base) && x < |types|
    ensures types[x].BS? || base <= LevelOf(types, base, x)
  {
    KeptAttr(types, base, x);
    RegularBase(types, base);
    hide CodeStatus, Expected, Regular;
    var n := if types[x].PDI? then x + 1 else x;
    BottomIsBase(types, base, n);
    CodeStatusBounded(types, base, n);
    TopAboveBottom(CodeStatus(types, base, n));
  }

  lemma MainAtLeast(main: seq<Run>, explicits: seq<Run>, types: seq<CharType>, brackets: Option<seq<Bracket>>, base: int)
    requires IsMain(main, explicits, types, brackets, base) && Regular(types, base)
    ensures AtLeast(main, base)
  {
    RegularBase(types, base);
    hide IsMain, Regular, TypeOf, LevelOf, IsolateLevelOf, InRun, ParagraphEnd;
    forall k | 1 <= k < |main|
      ensures 0 <= main[k].level && (base <= main[k].level || main[k].typ.BS?)
    {
      var x := FirstOf(main, explicits, types, brackets, base, k);
      InText(main, types, k, x);
      RunHas(main, explicits, types, brackets, base, k, x);
      CharAtLeast(types, base, x);
      LevelReal(types, base, x);
      KeptAttr(types, base, x);
    }
  }
}
