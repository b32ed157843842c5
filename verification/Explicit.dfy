/** The explicit pass of fribidi_get_par_embedding_levels_ex, 3rd/fribidi/fribidi-bidi.c: run by run,
    with a stack in an array and counters, the codes moved to a list of their own. */
module Explicit {
  import opened BidiTypes
  import opened Wrappers
  import opened RunList
  import opened ExplicitRules
  import opened ExplicitText
  import opened IsolateLevels

  /** An element of status_stack. */
  datatype Saved = Saved(level: int, override: CharType, isolate: bool, isolateLevel: int)

  /** The saved statuses are the entries of the stack below the current one; whether an entry belongs
      to an isolate is saved with the entry below it. */
  ghost predicate SavedAs(saved: seq<Saved>, stack: seq<Entry>) {
    && |stack| == |saved| + 1
    && forall k :: 0 <= k < |saved| ==>
         stack[k].level == saved[k].level && stack[k].override == saved[k].override && stack[k + 1].isolate == saved[k].isolate
  }

  /** The isolate levels that are saved with them. */
  ghost predicate SavedIso(saved: seq<Saved>, v: Iso) {
    |v.saved| == |saved| && forall k :: 0 <= k < |saved| ==> saved[k].isolateLevel == v.saved[k]
  }

  lemma SavedIsoPush(saved: seq<Saved>, v: Iso, x: Saved)
    requires SavedIso(saved, v)
    ensures SavedIso(saved + [x], Iso(v.level, v.saved + [x.isolateLevel]))
  {
  }

  lemma SavedIsoPop(saved: seq<Saved>, v: Iso)
    requires SavedIso(saved, v) && |saved| > 0
    ensures var n := |saved| - 1; |v.saved| == n + 1 && saved[n].isolateLevel == v.saved[n] && SavedIso(saved[..n], Iso(v.saved[n], v.saved[..n]))
  {
  }

  lemma SavedIsoLevel(saved: seq<Saved>, v: Iso, level: int)
    requires SavedIso(saved, v)
    ensures SavedIso(saved, v.(level := level)) && |v.saved| == |saved|
  {
  }

  lemma SavedPush(saved: seq<Saved>, stack: seq<Entry>, x: Saved, e: Entry)
    requires SavedAs(saved, stack) && |stack| > 0
    requires stack[|stack| - 1].level == x.level && stack[|stack| - 1].override == x.override && e.isolate == x.isolate
    ensures SavedAs(saved + [x], stack + [e])
  {
  }

  lemma SavedPop(saved: seq<Saved>, stack: seq<Entry>)
    requires SavedAs(saved, stack) && |saved| > 0
    ensures |stack| == |saved| + 1
    ensures var n := |saved| - 1;
            SavedAs(saved[..n], stack[..n + 1]) && saved[n].level == stack[n].level && saved[n].override == stack[n].override
            && saved[n].isolate == stack[n + 1].isolate
  {
  }

  lemma SavedCurrent(saved: seq<Saved>, stack: seq<Entry>, e: Entry)
    requires SavedAs(saved, stack) && |stack| > 0 && e.isolate == stack[|stack| - 1].isolate
    ensures SavedAs(saved, stack[..|stack| - 1] + [e])
  {
  }

  class StatusStack {
    const saved: array<Saved>
    var stackSize: nat
    var level: int
    var override: CharType
    var isolate: bool
    var isolateLevel: int
    var overPushed: nat
    var firstInterval: nat
    var isolateOverflow: nat
    var validIsolateCount: nat

    /** The directional status stack that the array, the current status and the counters stand for. */
    ghost var status: Status

    /** The isolate level, with those that are saved. */
    ghost var iso: Iso

    ghost predicate Valid()
      reads this, saved
    {
      && saved.Length == MAX_RESOLVED_LEVELS && stackSize < saved.Length && firstInterval == 0
      && |status.stack| == stackSize + 1 && status.Bounded()
      && SavedAs(saved[..stackSize], status.stack)
      && status.Top().level == level && status.Top().override == override
      && status.overflowIsolates == isolateOverflow && status.overflowEmbeddings == overPushed
      && status.validIsolates == validIsolateCount
      && SavedIso(saved[..stackSize], iso) && iso.level == isolateLevel && Fitting(status, iso)
    }

    /** X1 */
    constructor (base: int)
      requires 0 <= base <= 1
      ensures Valid() && status == Initial(base) && iso == Iso(0, []) && fresh(saved)
    {
      saved := new Saved[MAX_RESOLVED_LEVELS](_ => Saved(0, ON, false, 0));
      stackSize := 0;
      level := base;
      override := ON;
      isolate := false;
      isolateLevel := 0;
      overPushed := 0;
      firstInterval := 0;
      isolateOverflow := 0;
      validIsolateCount := 0;
      status := Initial(base);
      iso := Iso(0, []);
    }

    /** PUSH_STATUS */
    method Push(newLevel: int, newOverride: CharType)
      requires Valid() && level < newLevel && newOverride in {LTR, RTL, ON}
      modifies this, saved
      ensures Valid() && status == CodePush(old(status), Entry(newLevel, newOverride, old(isolate)))
      ensures iso == IsoPush(old(status), Entry(newLevel, newOverride, old(isolate)), old(iso))
    {
      hide Status.Bounded, SavedAs, SavedIso;
      ghost var e := Entry(newLevel, newOverride, isolate);
      CodePushBounded(status, e);
      StackBound(CodePush(status, e));
      if overPushed == 0 && isolateOverflow == 0 && newLevel <= MAX_EXPLICIT_LEVEL {
        if level == MAX_EXPLICIT_LEVEL - 1 {
          firstInterval := overPushed;
        }
        SavedPush(saved[..stackSize], status.stack, Saved(level, override, isolate, isolateLevel), e);
        SavedIsoPush(saved[..stackSize], iso, Saved(level, override, isolate, isolateLevel));
        saved[stackSize] := Saved(level, override, isolate, isolateLevel);
        stackSize := stackSize + 1;
        assert saved[..stackSize] == old(saved[..stackSize]) + [saved[stackSize - 1]];
        level := newLevel;
        override := newOverride;
      } else if isolateOverflow == 0 {
        overPushed := overPushed + 1;
      }
      iso := IsoPush(status, e, iso);
      status := CodePush(status, e);
    }

    /** POP_STATUS */
    method Pop()
      requires Valid()
      modifies this
      ensures Valid() && status == CodePop(old(status)) && iso == IsoPop(old(status), old(iso))
    {
      hide Status.Bounded, SavedAs, SavedIso;
      CodePopBounded(status);
      if stackSize > 0 {
        if overPushed > firstInterval {
          overPushed := overPushed - 1;
        } else {
          if overPushed == firstInterval {
            firstInterval := 0;
          }
          SavedPop(saved[..stackSize], status.stack);
          SavedIsoPop(saved[..stackSize], iso);
          assert saved[..stackSize][..stackSize - 1] == saved[..stackSize - 1];
          stackSize := stackSize - 1;
          level := saved[stackSize].level;
          override := saved[stackSize].override;
          isolate := saved[stackSize].isolate;
          isolateLevel := saved[stackSize].isolateLevel;
        }
      }
      iso := IsoPop(status, iso);
      status := CodePop(status);
    }

    /** Whether the current status comes from an isolate. */
    method InIsolate() returns (b: bool)
      requires Valid()
      ensures b <==> stackSize > 0 && status.Top().isolate
    {
      if stackSize > 0 { SavedPop(saved[..stackSize], status.stack); }
      b := stackSize > 0 && saved[stackSize - 1].isolate;
    }

    /** X2 to X5, once for every character of the run. */
    method OpenEmbedding(t: CharType, n: nat)
      requires Valid() && IsEmbedding(t)
      modifies this, saved
      ensures Valid() && status == CodeRepeat(old(status), t, n) && iso == IsoRepeat(old(status), old(iso), t, n)
    {
      hide Status.Bounded, SavedAs, SavedIso, LeastAbove, LevelIsRtl, EmbeddingLevel, IsolateLevel;
      var i := n;
      while i > 0
        invariant 0 <= i <= n
        invariant Valid() && CodeRepeat(status, t, i) == CodeRepeat(old(status), t, n)
        invariant IsoRepeat(status, iso, t, i) == IsoRepeat(old(status), old(iso), t, n)
      {
        BoundedTop(status);
        LeastAboveComputed(level, t, false);
        var newLevel := EmbeddingLevel(level, t);
        isolate := false;
        Push(newLevel, t.OverrideDir());
        i := i - 1;
      }
    }

    /** X7, once for every character of the run. */
    method ClosePdf(n: nat)
      requires Valid()
      modifies this
      ensures Valid() && status == CodeRepeat(old(status), PDF, n) && iso == IsoRepeat(old(status), old(iso), PDF, n)
    {
      hide Status.Bounded, SavedAs, SavedIso, LeastAbove, LevelIsRtl, EmbeddingLevel, IsolateLevel;
      var i := n;
      while i > 0
        invariant 0 <= i <= n
        invariant Valid() && CodeRepeat(status, PDF, i) == CodeRepeat(old(status), PDF, n)
        invariant IsoRepeat(status, iso, PDF, i) == IsoRepeat(old(status), old(iso), PDF, n)
      {
        var isolated := InIsolate();
        if isolated {
          RepeatIdle(status, PDF, i);
          RepeatIsoIdle(status, iso, PDF, i);
          break;
        }
        Pop();
        i := i - 1;
      }
    }

    /** The counters alone change. */
    method SetCounters(overPushed': nat, isolateOverflow': nat, validIsolateCount': nat)
      requires Valid()
      modifies `overPushed, `isolateOverflow, `validIsolateCount, `status
      ensures Valid()
      ensures status == Status(old(status).stack, isolateOverflow', overPushed', validIsolateCount')
    {
      hide Status.Bounded, SavedAs, SavedIso;
      overPushed, isolateOverflow, validIsolateCount := overPushed', isolateOverflow', validIsolateCount';
      CountersDoNotMatter(status, Status(status.stack, isolateOverflow', overPushed', validIsolateCount'));
      status := Status(status.stack, isolateOverflow', overPushed', validIsolateCount');
    }

    /** The loop of X6a. */
    method PopEmbeddings()
      requires Valid()
      modifies this
      ensures Valid() && status == CodePopEmbeddings(old(status)) && iso == IsoPopEmbeddings(old(status), old(iso))
    {
      hide Status.Bounded, SavedAs, SavedIso;
      var isolated := InIsolate();
      while stackSize > 0 && !isolated
        invariant Valid() && CodePopEmbeddings(status) == CodePopEmbeddings(old(status))
        invariant IsoPopEmbeddings(status, iso) == IsoPopEmbeddings(old(status), old(iso))
        invariant isolated <==> stackSize > 0 && status.Top().isolate
        decreases stackSize, overPushed
      {
        Pop();
        isolated := InIsolate();
      }
    }

    /** X6a; the result tells whether the PDI closes anything. */
    method CloseIsolate() returns (matched: bool)
      requires Valid()
      modifies this
      ensures Valid() && status == CodeStep(old(status), PDI, false) && iso == IsoStep(old(status), old(iso), PDI, false)
      ensures matched == (old(status).overflowIsolates > 0 || old(status).validIsolates > 0)
    {
      hide Status.Bounded, SavedAs, SavedIso;
      matched := isolateOverflow > 0 || validIsolateCount > 0;
      if isolateOverflow > 0 {
        SetCounters(overPushed, isolateOverflow - 1, validIsolateCount);
      } else if validIsolateCount > 0 {
        PopEmbeddingsCounters(status);
        PopEmbeddings();
        SetCounters(0, isolateOverflow, validIsolateCount);
        Pop();
        isolateLevel := isolateLevel - 1;
        SavedIsoLevel(saved[..stackSize], iso, isolateLevel);
        iso := iso.(level := isolateLevel);
        SetCounters(overPushed, isolateOverflow, validIsolateCount - 1);
      }
    }

    /** The level is set even where the push was rejected. */
    method SetLevel(newLevel: int)
      requires Valid() && level <= newLevel <= MAX_EXPLICIT_LEVEL
      modifies this
      ensures Valid() && iso == old(iso)
      ensures status == old(status).(stack := old(status).stack[..|old(status).stack| - 1] + [old(status).Top().(level := newLevel)])
    {
      hide Status.Bounded, SavedAs, SavedIso;
      level := newLevel;
      RaisedBounded(status, newLevel);
      SavedCurrent(saved[..stackSize], status.stack, status.Top().(level := newLevel));
      status := status.(stack := status.stack[..|status.stack| - 1] + [status.Top().(level := newLevel)]);
    }

    /** X5a to X5c. */
    method OpenIsolate(t: CharType, fsiRtl: bool)
      requires Valid() && IsInitiator(t)
      modifies this, saved
      ensures Valid() && status == CodeStep(old(status), t, fsiRtl) && iso == IsoStep(old(status), old(iso), t, fsiRtl)
    {
      hide Status.Bounded, SavedAs, SavedIso, LeastAbove, LevelIsRtl, EmbeddingLevel, IsolateLevel, CodePush, CodePop, CodePopEmbeddings,
           CodeStep, IsoStep, IsoPush;
      BoundedTop(status);
      var rtl := if t.FSI? then fsiRtl else t.RLI?;
      LeastAboveComputed(level, t, rtl);
      InitiatorStep(status, iso, t, fsiRtl);
      isolate := true;
      var newLevel := IsolateLevel(level, rtl);
      if isolateLevel < MAX_EXPLICIT_LEVEL - 1 {
        isolateLevel := isolateLevel + 1;
        SavedIsoLevel(saved[..stackSize], iso, isolateLevel);
        iso := iso.(level := isolateLevel);
      }
      if newLevel <= MAX_EXPLICIT_LEVEL {
        SetCounters(overPushed, isolateOverflow, validIsolateCount + 1);
        CodePushBounded(status, Entry(newLevel, ON, true));
        Push(newLevel, ON);
        SetLevel(newLevel);
      } else {
        SetCounters(overPushed, isolateOverflow + 1, validIsolateCount);
      }
    }
  }

  /** n characters of one type that is not FSI. */
  function CodeRepeat(s: Status, t: CharType, n: nat): Status
    requires |s.stack| > 0
    decreases n
  {
    if n == 0 then s else CodeRepeat(CodeStep(s, t, false), t, n - 1)
  }

  /** X5a to X5c, piece by piece. */
  lemma InitiatorStep(s: Status, v: Iso, t: CharType, rtl: bool)
    requires Fitting(s, v) && IsInitiator(t)
    ensures var e := Entry(LeastAbove(s.Top().level, if t.FSI? then rtl else t.RLI?), ON, true);
            var a, up := s.(validIsolates := s.validIsolates + 1), v.(level := Raised(v.level));
            var p := CodePush(a, e);
            |p.stack| > 0 &&
            if e.level <= MAX_EXPLICIT_LEVEL then
              && CodeStep(s, t, rtl) == p.(stack := p.stack[..|p.stack| - 1] + [p.Top().(level := e.level)])
              && IsoStep(s, v, t, rtl) == IsoPush(a, e, up)
            else CodeStep(s, t, rtl) == s.(overflowIsolates := s.overflowIsolates + 1) && IsoStep(s, v, t, rtl) == up
  {
    hide LeastAbove, Raised, IsoStep, CodePush;
    InitiatorEntry(s, t, rtl);
    InitiatorIso(s, v, t, rtl);
    PushedReal(s.(validIsolates := s.validIsolates + 1), Entry(LeastAbove(s.Top().level, if t.FSI? then rtl else t.RLI?), ON, true));
  }

  lemma PushedReal(s: Status, e: Entry)
    requires |s.stack| > 0
    ensures |CodePush(s, e).stack| > 0
  {
  }

  lemma InitiatorEntry(s: Status, t: CharType, rtl: bool)
    requires |s.stack| > 0 && IsInitiator(t)
    ensures Asked(s, t, rtl) == Entry(LeastAbove(s.Top().level, if t.FSI? then rtl else t.RLI?), ON, true)
  {
    hide LeastAbove;
  }

  lemma InitiatorIso(s: Status, v: Iso, t: CharType, rtl: bool)
    requires Fitting(s, v) && IsInitiator(t)
    ensures |s.stack| > 0
    ensures var e, a, up := Asked(s, t, rtl), s.(validIsolates := s.validIsolates + 1), v.(level := Raised(v.level));
            IsoStep(s, v, t, rtl) == if e.level <= MAX_EXPLICIT_LEVEL then IsoPush(a, e, up) else up
  {
    hide LeastAbove, Raised, Asked, CodeStep;
  }

  function IsoRepeat(s: Status, v: Iso, t: CharType, n: nat): Iso
    requires Fitting(s, v)
    decreases n
  {
    if n == 0 then v else IsoRepeat(CodeStep(s, t, false), IsoStep(s, v, t, false), t, n - 1)
  }

  lemma {:induction false} RepeatIsoIdle(s: Status, v: Iso, t: CharType, n: nat)
    requires Fitting(s, v) && CodeStep(s, t, false) == s && IsoStep(s, v, t, false) == v
    ensures IsoRepeat(s, v, t, n) == v
  {
    if n > 0 { RepeatIsoIdle(s, v, t, n - 1); }
  }

  lemma {:induction false} RepeatIdle(s: Status, t: CharType, n: nat)
    requires |s.stack| > 0 && CodeStep(s, t, false) == s
    ensures CodeRepeat(s, t, n) == s
  {
    if n > 0 { RepeatIdle(s, t, n - 1); }
  }

  // ---------------------------------------------------------------- the pass over the run list

  /** X9: the codes that leave the run list.  The pass ends at the first block separator. */
  predicate Removed(types: seq<CharType>, x: int)
    requires 0 <= x < |types|
  {
    x < ParagraphEnd(types) && types[x].IsExplicitOrBn()
  }

  /** What the pass gives a character it keeps; behind a block separator it leaves runs as they are. */
  function Expected(types: seq<CharType>, base: int, x: int): Attr
    requires 0 <= x < |types|
  {
    if x < ParagraphEnd(types) then CodeAttr(types, base, x) else Attr(types[x], 0)
  }

  ghost predicate CharPassed(main: seq<Run>, explicits: seq<Run>, types: seq<CharType>, base: int, x: int)
    requires 0 <= x < |types| && |main| > 0
  {
    && (Covered(explicits, x) <==> Removed(types, x))
    && (!Removed(types, x) ==> AttrAt(main, x) == Expected(types, base, x))
  }

  /** The first n characters are dealt with: none is lost, the codes are out, the others as expected. */
  ghost predicate Passed(main: seq<Run>, explicits: seq<Run>, types: seq<CharType>, base: int, n: nat)
    requires n <= |types|
  {
    && Fits(main, explicits, n) && |main| > 0 && main[0].len <= 1 && Disjoint(explicits, n)
    && (forall k :: 0 <= k < |explicits| ==> explicits[k].level == SENTINEL_LEVEL)
    && (forall k :: 1 <= k < |main| ==> 0 <= main[k].level <= MAX_EXPLICIT_LEVEL)
    && (forall x :: 0 <= x < n ==> CharPassed(main, explicits, types, base, x))
  }

  /** The isolate level of a character; the separator that ends the paragraph shares its own with its run. */
  ghost predicate IsoIs(types: seq<CharType>, base: int, x: int, level: int)
    requires 0 <= x < |types|
  {
    var end := ParagraphEnd(types);
    if x <= end then level == IsolateLevelOf(types, base, x) else level == 0 || level == IsolateLevelOf(types, base, end)
  }

  /** A run has the bracket and the isolate level of each of its characters. */
  ghost predicate PlacedRun(r: Run, types: seq<CharType>, brackets: Option<seq<Bracket>>, base: int)
    requires brackets.Some? ==> |brackets.value| == |types|
  {
    && 0 <= r.pos && r.pos + r.len <= |types|
    && forall x :: Holds(r, x) ==> r.bracket == BracketAt(brackets, x) && IsoIs(types, base, x, r.isolateLevel)
  }

  ghost predicate PlacedAt(main: seq<Run>, types: seq<CharType>, brackets: Option<seq<Bracket>>, base: int, x: int)
    requires 0 <= x < |types| && |main| > 0 && (brackets.Some? ==> |brackets.value| == |types|)
  {
    PlaceAt(main, x).bracket == BracketAt(brackets, x) && IsoIs(types, base, x, PlaceAt(main, x).isolateLevel)
  }

  /** The first n characters, as far as they are kept, have their brackets and isolate levels. */
  ghost predicate Placed(main: seq<Run>, types: seq<CharType>, brackets: Option<seq<Bracket>>, base: int, n: nat)
    requires n <= |types| && (brackets.Some? ==> |brackets.value| == |types|)
  {
    |main| > 0 && forall x :: 0 <= x < n && !Removed(types, x) ==> PlacedAt(main, types, brackets, base, x)
  }

  /** Runs as they come from run-length encoding. */
  ghost predicate Encoded(runs: seq<Run>, types: seq<CharType>, brackets: Option<seq<Bracket>>)
    requires brackets.Some? ==> |brackets.value| == |types|
  {
    && (forall k :: 0 <= k < |runs| ==> 0 <= runs[k].pos && runs[k].pos + runs[k].len <= |types| && runs[k].isolateLevel == 0)
    && forall k, x :: 0 <= k < |runs| && Holds(runs[k], x) ==> runs[k].bracket == BracketAt(brackets, x)
  }

  lemma PlacedStarts(sentinel: Run, types: seq<CharType>, brackets: Option<seq<Bracket>>, base: int)
    requires brackets.Some? ==> |brackets.value| == |types|
    ensures Placed([sentinel], types, brackets, base, 0)
  {
  }

  lemma PlacedKept(main: seq<Run>, types: seq<CharType>, brackets: Option<seq<Bracket>>, base: int, r: Run)
    requires brackets.Some? ==> |brackets.value| == |types|
    requires 0 <= r.pos && 0 <= r.len && r.pos + r.len <= |types|
    requires Placed(main, types, brackets, base, r.pos) && PlacedRun(r, types, brackets, base)
    ensures Placed(main + [r], types, brackets, base, r.pos + r.len)
  {
    hide IsoIs, PlaceAt, Removed;
    forall x | 0 <= x < r.pos + r.len && !Removed(types, x)
      ensures PlacedAt(main + [r], types, brackets, base, x)
    {
      OwnerOfAppended(main, r, x);
      if x < r.pos { assert PlacedAt(main, types, brackets, base, x); } else { assert Holds(r, x); }
    }
  }

  lemma PlacedRemoved(main: seq<Run>, types: seq<CharType>, brackets: Option<seq<Bracket>>, base: int, r: Run)
    requires brackets.Some? ==> |brackets.value| == |types|
    requires RunOf(r, types, r.pos + r.len) && r.typ.IsExplicitOrBn() && r.pos + r.len <= ParagraphEnd(types)
    requires Placed(main, types, brackets, base, r.pos)
    ensures Placed(main, types, brackets, base, r.pos + r.len)
  {
    hide PlacedAt, ParagraphEnd;
  }

  lemma {:induction false} PlacedRest(main: seq<Run>, types: seq<CharType>, brackets: Option<seq<Bracket>>, base: int, rest: seq<Run>, n: nat)
    requires n <= |types| && (brackets.Some? ==> |brackets.value| == |types|)
    requires RunsOf(rest, types, n) && Placed(main, types, brackets, base, n)
    requires forall k :: 0 <= k < |rest| ==> PlacedRun(rest[k], types, brackets, base)
    ensures Placed(main + rest, types, brackets, base, |types|)
    decreases |rest|
  {
    hide Placed, PlacedRun;
    if rest == [] {
      assert main + rest == main;
    } else {
      PlacedKept(main, types, brackets, base, rest[0]);
      PlacedRest(main + [rest[0]], types, brackets, base, rest[1..], n + rest[0].len);
      assert main + [rest[0]] + rest[1..] == main + rest;
    }
  }

  /** Behind the separator nothing changes but the isolate level of its own run. */
  lemma RestPlaced(rest: seq<Run>, types: seq<CharType>, brackets: Option<seq<Bracket>>, base: int, level: int)
    requires brackets.Some? ==> |brackets.value| == |types|
    requires |rest| > 0 && RunsOf(rest, types, ParagraphEnd(types)) && Encoded(rest, types, brackets)
    requires ParagraphEnd(types) < |types| && level == IsolateLevelOf(types, base, ParagraphEnd(types))
    ensures forall k :: 0 <= k < |rest| ==> PlacedRun(if k == 0 then rest[k].(isolateLevel := level) else rest[k], types, brackets, base)
  {
    hide IsolateLevelOf, CodeIso, ParagraphEnd, RunsOf, RunOf;
    forall k | 0 <= k < |rest|
      ensures PlacedRun(if k == 0 then rest[k].(isolateLevel := level) else rest[k], types, brackets, base)
    {
      RunsBehind(rest, types, ParagraphEnd(types), k);
      var r := if k == 0 then rest[k].(isolateLevel := level) else rest[k];
      forall x | Holds(r, x)
        ensures r.bracket == BracketAt(brackets, x) && IsoIs(types, base, x, r.isolateLevel)
      {
        assert Holds(rest[k], x);
      }
    }
  }

  lemma {:induction false} RunsBehind(rest: seq<Run>, types: seq<CharType>, n: int, k: nat)
    requires RunsOf(rest, types, n) && k < |rest|
    ensures n <= rest[k].pos && (k > 0 ==> n < rest[k].pos) && 0 < rest[k].len
    decreases k
  {
    if k > 0 {
      RunsBehind(rest[1..], types, n + rest[0].len, k - 1);
    }
  }

  lemma KeepFits(main: seq<Run>, explicits: seq<Run>, n: nat, r: Run)
    requires Fits(main, explicits, n) && Disjoint(explicits, n) && r.pos == n && 0 < r.len && r.typ != Sentinel
    ensures Fits(main + [r], explicits, n + r.len) && Disjoint(explicits, n + r.len)
    ensures |main| > 0 && forall x :: 0 <= x ==> AttrAt(main + [r], x) == if x < n then AttrAt(main, x) else AttrOf(r)
  {
    hide Free, Owner;
    var m, n' := main + [r], n + r.len;
    ListNotEmpty(main);
    FitsBelow(main, explicits, n);
    assert IsList(m);
    FreeOfNone(explicits, n, n');
    forall k | 1 <= k < |m|
      ensures NodeFits(m, explicits, n', k)
    {
      if k < |main| { assert NodeFits(main, explicits, n, k); }
      assert NextPos(m, k, n') == if k < |main| then NextPos(main, k, n) else n';
    }
    assert NextPos(m, 0, n') == NextPos(main, 0, n);
    forall x | 0 <= x
      ensures AttrAt(m, x) == if x < n then AttrAt(main, x) else AttrOf(r)
    {
      OwnerOfAppended(main, r, x);
    }
  }

  lemma FitsBelow(main: seq<Run>, explicits: seq<Run>, n: nat)
    requires Fits(main, explicits, n)
    ensures forall k :: 0 <= k < |main| ==> main[k].pos < n || k == 0
    ensures |main| > 0 && main[0].pos == -1
  {
    forall k | 1 <= k < |main|
      ensures main[k].pos < n
    {
      assert NodeFits(main, explicits, n, k);
    }
  }

  lemma {:induction false} OwnerPrefix(main: seq<Run>, r: Run, m: nat, x: int)
    requires 0 < m <= |main|
    ensures Owner(main + [r], m, x) == Owner(main, m, x)
    decreases m
  {
    if m > 1 { OwnerPrefix(main, r, m - 1, x); }
  }

  lemma OwnerOfAppended(main: seq<Run>, r: Run, x: int)
    requires |main| > 0
    ensures AttrAt(main + [r], x) == if x < r.pos then AttrAt(main, x) else AttrOf(r)
    ensures PlaceAt(main + [r], x) == if x < r.pos then PlaceAt(main, x) else Place(r.isolateLevel, r.bracket)
  {
    OwnerPrefix(main, r, |main|, x);
  }

  lemma DropFits(main: seq<Run>, explicits: seq<Run>, n: nat, r: Run)
    requires Fits(main, explicits, n) && Disjoint(explicits, n) && r.pos == n && 0 < r.len && r.typ != Sentinel
    ensures Fits(main, explicits + [r], n + r.len) && Disjoint(explicits + [r], n + r.len)
    ensures forall x :: Covered(explicits + [r], x) <==> Covered(explicits, x) || Holds(r, x)
  {
    hide Free, IsList;
    var e, n' := explicits + [r], n + r.len;
    ListNotEmptyOfFits(main, explicits, n);
    forall x
      ensures Covered(e, x) <==> Covered(explicits, x) || Holds(r, x)
    {
      CoveredSnoc(explicits, r, x);
    }
    FitsBelow(main, explicits, n);
    DropFree(explicits, r, 0, NextPos(main, 0, n), NextPos(main, 0, n'));
    forall k | 1 <= k < |main|
      ensures NodeFits(main, e, n', k)
    {
      assert NodeFits(main, explicits, n, k);
      DropFree(explicits, r, main[k].pos, NextPos(main, k, n), NextPos(main, k, n'));
    }
  }

  lemma DropFree(explicits: seq<Run>, r: Run, a: int, b: int, c: int)
    requires 0 <= r.len && a <= r.pos && b <= r.pos && (b == c || (b == r.pos && c == r.pos + r.len))
    ensures Free(explicits + [r], a, c) == Free(explicits, a, b)
  {
    var e := explicits + [r];
    forall x
      ensures Covered(e, x) <==> Covered(explicits, x) || Holds(r, x)
    {
      CoveredSnoc(explicits, r, x);
    }
    FreeSame(e, explicits, a, b);
    if b != c {
      FreeSplit(e, a, b, c);
      FreeOfAll(e, b, c);
    }
  }

  lemma CoveredSnoc(over: seq<Run>, r: Run, x: int)
    ensures Covered(over + [r], x) <==> Covered(over, x) || Holds(r, x)
  {
    var e := over + [r];
    if Holds(r, x) { assert Holds(e[|over|], x); }
    if Covered(over, x) {
      var i :| 0 <= i < |over| && Holds(over[i], x);
      assert Holds(e[i], x);
    }
  }

  lemma ListNotEmptyOfFits(main: seq<Run>, explicits: seq<Run>, n: nat)
    requires Fits(main, explicits, n)
    ensures |main| > 0
  {
  }

  // ---------------------------------------------------------------- runs and characters

  /** A run of one type, isolate codes alone, as run-length encoding makes them. */
  ghost predicate RunOf(r: Run, types: seq<CharType>, next: int) {
    && 0 <= r.pos < next == r.pos + r.len && next <= |types| && r.typ != Sentinel && r.level == 0
    && (forall x :: r.pos <= x < next ==> types[x] == r.typ)
    && (r.typ.IsIsolate() ==> r.len == 1)
  }

  lemma {:induction false} StatusOfRun(types: seq<CharType>, base: int, t: CharType, p: nat, n: nat)
    requires p + n <= |types| && !t.FSI? && forall x :: p <= x < p + n ==> types[x] == t
    ensures CodeStatus(types, base, p + n) == CodeRepeat(CodeStatus(types, base, p), t, n)
    decreases n
  {
    hide CodeStep;
    if n > 0 {
      StatusOfRun(types, base, t, p + 1, n - 1);
      DirectionIgnored(CodeStatus(types, base, p), t, CodeRtl(types, p));
    }
  }

  lemma DirectionIgnored(s: Status, t: CharType, rtl: bool)
    requires |s.stack| > 0 && !t.FSI?
    ensures CodeStep(s, t, rtl) == CodeStep(s, t, false)
  {
  }

  lemma StatusIdle(s: Status, t: CharType)
    requires |s.stack| > 0 && !t.IsExplicit() && !t.IsIsolate()
    ensures CodeStep(s, t, false) == s
  {
  }

  /** A run that changes no status: all its characters get the same. */
  lemma IdleRun(types: seq<CharType>, base: int, r: Run, x: int)
    requires RunOf(r, types, r.pos + r.len) && !r.typ.IsExplicit() && !r.typ.IsIsolate()
    requires r.pos <= x <= r.pos + r.len
    ensures CodeStatus(types, base, x) == CodeStatus(types, base, r.pos)
  {
    hide CodeStatus, CodeStep, CodeRepeat;
    StatusOfRun(types, base, r.typ, r.pos, x - r.pos);
    StatusIdle(CodeStatus(types, base, r.pos), r.typ);
    RepeatIdle(CodeStatus(types, base, r.pos), r.typ, x - r.pos);
  }

  lemma {:induction false} SkipRun(types: seq<CharType>, t: CharType, p: nat, n: nat, count: int)
    requires p + n <= |types| && !t.IsIsolate() && !(count == 0 && t.IsLetter())
    requires forall x :: p <= x < p + n ==> types[x] == t
    ensures CodeFirstStrong(types[p..], count) == CodeFirstStrong(types[p + n..], count)
    decreases n
  {
    if n > 0 {
      assert types[p..][1..] == types[p + 1..];
      SkipRun(types, t, p + 1, n - 1, count);
    }
  }

  /** The rest of the list is runs of the text. */
  ghost predicate RunsOf(runs: seq<Run>, types: seq<CharType>, n: int) {
    if runs == [] then n == |types|
    else runs[0].pos == n && RunOf(runs[0], types, n + runs[0].len) && RunsOf(runs[1..], types, n + runs[0].len)
  }

  /** What one run tells the look-ahead. */
  lemma LookAtRun(types: seq<CharType>, r: Run, count: int)
    requires RunOf(r, types, r.pos + r.len)
    ensures CodeFirstStrong(types[r.pos..], count) ==
            (if r.typ.PDI? then CodeFirstStrong(types[r.pos + r.len..], count - 1)
             else if r.typ.IsIsolate() then CodeFirstStrong(types[r.pos + r.len..], count + 1)
             else if count == 0 && r.typ.IsLetter() then r.typ.IsRtl()
             else CodeFirstStrong(types[r.pos + r.len..], count))
  {
    assert types[r.pos] == r.typ && types[r.pos..][1..] == types[r.pos + 1..];
    if !r.typ.IsIsolate() && !(count == 0 && r.typ.IsLetter()) {
      SkipRun(types, r.typ, r.pos, r.len, count);
    }
  }

  /** The look-ahead of an FSI over the runs behind it. */
  method FirstStrong(runs: seq<Run>, ghost types: seq<CharType>, ghost n: nat) returns (rtl: bool)
    requires n <= |types| && RunsOf(runs, types, n)
    ensures rtl == CodeFirstStrong(types[n..], 0)
  {
    var j := 0;
    var isolateCount := 0;
    ghost var at := n;
    rtl := false;
    while j < |runs|
      invariant 0 <= j <= |runs| && n <= at <= |types| && RunsOf(runs[j..], types, at)
      invariant CodeFirstStrong(types[at..], isolateCount) == CodeFirstStrong(types[n..], 0)
      invariant !rtl
    {
      var r := runs[j];
      assert runs[j..][0] == r && runs[j..][1..] == runs[j + 1..];
      LookAtRun(types, r, isolateCount);
      if r.typ.PDI? {
        isolateCount := isolateCount - 1;
      } else if r.typ.IsIsolate() {
        isolateCount := isolateCount + 1;
      } else if isolateCount == 0 && r.typ.IsLetter() {
        rtl := r.typ.IsRtl();
        return;
      }
      at := at + r.len;
      j := j + 1;
    }
  }

  lemma {:induction false} EncodedRuns(nodes: seq<Run>, types: seq<CharType>, brackets: Option<seq<Bracket>>, k: nat)
    requires 1 <= k <= |nodes| && (brackets.Some? ==> |brackets.value| == |types|)
    requires Tiles(nodes, |types|) && Encodes(nodes, types, brackets, |types|)
    ensures RunsOf(nodes[k..], types, NextPos(nodes, k - 1, |types|))
    decreases |nodes| - k
  {
    hide Tiles, Encodes;
    if k < |nodes| {
      EncodedRuns(nodes, types, brackets, k + 1);
      assert nodes[k..][0] == nodes[k] && nodes[k..][1..] == nodes[k + 1..];
      EncodedRun(nodes, types, brackets, k);
    } else {
      assert nodes[k..] == [];
    }
  }

  lemma EncodedRun(nodes: seq<Run>, types: seq<CharType>, brackets: Option<seq<Bracket>>, k: nat)
    requires 1 <= k < |nodes| && (brackets.Some? ==> |brackets.value| == |types|)
    requires Tiles(nodes, |types|) && Encodes(nodes, types, brackets, |types|)
    ensures nodes[k].pos == NextPos(nodes, k - 1, |types|) && nodes[k].pos + nodes[k].len == NextPos(nodes, k, |types|)
    ensures RunOf(nodes[k], types, nodes[k].pos + nodes[k].len)
  {
    hide NextPos;
    assert RunEncodes(nodes[k], types, brackets, NextPos(nodes, k, |types|));
    EncodedPos(nodes, types, k);
  }

  lemma EncodedPos(nodes: seq<Run>, types: seq<CharType>, k: nat)
    requires 1 <= k < |nodes| && Tiles(nodes, |types|)
    ensures 0 <= nodes[k].pos == NextPos(nodes, k - 1, |types|) && nodes[k].typ != Sentinel
    ensures nodes[k].pos + nodes[k].len == NextPos(nodes, k, |types|) <= |types|
  {
    if k + 1 < |nodes| { TilesWithin(nodes, |types|, k + 1); }
    assert nodes[0].pos < nodes[k].pos;
  }

  lemma PassRemoved(main: seq<Run>, explicits: seq<Run>, types: seq<CharType>, base: int, r: Run, r': Run)
    requires RunOf(r, types, r.pos + r.len) && r.typ.IsExplicitOrBn() && r.pos + r.len <= ParagraphEnd(types)
    requires Passed(main, explicits, types, base, r.pos)
    requires r' == r.(level := SENTINEL_LEVEL, isolateLevel := r'.isolateLevel)
    ensures Passed(main, explicits + [r'], types, base, r.pos + r.len)
  {
    hide Fits, Disjoint, Covered, AttrAt, Expected;
    DropFits(main, explicits, r.pos, r');
    var e := explicits + [r'];
    forall x | 0 <= x < r.pos + r.len
      ensures CharPassed(main, e, types, base, x)
    {
      if x < r.pos { assert CharPassed(main, explicits, types, base, x); }
    }
  }

  lemma ExpectedBounded(types: seq<CharType>, base: int, x: nat)
    requires x < |types| && 0 <= base <= 1
    ensures 0 <= Expected(types, base, x).level <= MAX_EXPLICIT_LEVEL
  {
    hide CodeStatus;
    CodeStatusBounded(types, base, x);
    CodeStatusBounded(types, base, x + 1);
    BoundedTop(CodeStatus(types, base, x));
    BoundedTop(CodeStatus(types, base, x + 1));
  }

  lemma PassKept(main: seq<Run>, explicits: seq<Run>, types: seq<CharType>, base: int, r: Run, r': Run)
    requires RunOf(r, types, r.pos + r.len)
    requires Passed(main, explicits, types, base, r.pos)
    requires Kept(r, r', types, base) && 0 <= base <= 1
    ensures Passed(main + [r'], explicits, types, base, r.pos + r.len)
  {
    hide Fits, AttrAt, Expected, Removed;
    ExpectedBounded(types, base, r.pos);
    KeepFits(main, explicits, r.pos, r');
    var m := main + [r'];
    forall x | 0 <= x < r.pos + r.len
      ensures CharPassed(m, explicits, types, base, x)
    {
      if x < r.pos {
        assert CharPassed(main, explicits, types, base, x);
      } else {
        NotCovered(explicits, r.pos, x);
      }
    }
  }

  lemma NotCovered(explicits: seq<Run>, n: nat, x: int)
    requires Disjoint(explicits, n) && n <= x
    ensures !Covered(explicits, x)
  {
  }

  lemma BeforeSeparator(types: seq<CharType>, r: Run)
    requires RunOf(r, types, r.pos + r.len) && r.pos <= ParagraphEnd(types)
    ensures r.typ != BS ==> r.pos + r.len <= ParagraphEnd(types)
    ensures r.typ == BS ==> r.pos == ParagraphEnd(types)
  {
    hide ParagraphEnd;
    assert types[r.pos] == r.typ;
  }

  /** The run of an ordinary type: level and override of the current status. */
  lemma IdleAttr(types: seq<CharType>, base: int, r: Run)
    requires RunOf(r, types, r.pos + r.len) && r.pos + r.len <= ParagraphEnd(types)
    requires !r.typ.IsExplicitOrBn() && !r.typ.IsIsolate()
    ensures forall x :: r.pos <= x < r.pos + r.len ==>
              !Removed(types, x) && Expected(types, base, x) == Overridden(r.typ, CodeStatus(types, base, r.pos).Top())
    ensures CodeStatus(types, base, r.pos + r.len) == CodeStatus(types, base, r.pos)
  {
    hide CodeStatus;
    forall x | r.pos <= x < r.pos + r.len
      ensures !Removed(types, x) && Expected(types, base, x) == Overridden(r.typ, CodeStatus(types, base, r.pos).Top())
    {
      IdleRun(types, base, r, x);
    }
    IdleRun(types, base, r, r.pos + r.len);
  }

  lemma {:induction false} PassRest(main: seq<Run>, explicits: seq<Run>, types: seq<CharType>, base: int, rest: seq<Run>, n: nat)
    requires ParagraphEnd(types) <= n <= |types| && 0 <= base <= 1 && RunsOf(rest, types, n) && Passed(main, explicits, types, base, n)
    ensures Passed(main + rest, explicits, types, base, |types|)
    decreases |rest|
  {
    hide Passed;
    if rest == [] {
      assert main + rest == main;
    } else {
      PassKept(main, explicits, types, base, rest[0], rest[0]);
      PassRest(main + [rest[0]], explicits, types, base, rest[1..], n + rest[0].len);
      assert main + [rest[0]] + rest[1..] == main + rest;
    }
  }

  lemma PassStarts(types: seq<CharType>, base: int, sentinel: Run)
    requires sentinel.typ == Sentinel && sentinel.pos == -1 && sentinel.len <= 1
    ensures Passed([sentinel], [], types, base, 0)
  {
  }

  /** X6a; a PDI that closes nothing turns into an ON. */
  method PassPdi(s: StatusStack, pp: Run, ghost types: seq<CharType>, ghost base: int) returns (run: Run)
    requires s.Valid() && RunOf(pp, types, pp.pos + pp.len) && pp.pos + pp.len <= ParagraphEnd(types)
    requires s.status == CodeStatus(types, base, pp.pos) && s.iso == CodeIso(types, base, pp.pos) && pp.typ.PDI?
    modifies s, s.saved
    ensures s.Valid() && s.status == CodeStatus(types, base, pp.pos + pp.len) && s.iso == CodeIso(types, base, pp.pos + pp.len)
    ensures Kept(pp, run, types, base) && KeptPlace(pp, run, types, base)
  {
    hide CodeStep, IsoStep, CodeStatus, CodeIso, ParagraphEnd, Status.Bounded, SavedAs, SavedIso, Kept, KeptPlace;
    PdiStatus(types, base, pp);
    var matched := s.CloseIsolate();
    run := pp.(level := s.level, isolateLevel := s.isolateLevel, typ := if matched then PDI else ON);
    PdiKept(types, base, pp, run, matched);
  }

  lemma PdiStatus(types: seq<CharType>, base: int, pp: Run)
    requires RunOf(pp, types, pp.pos + pp.len) && pp.typ.PDI?
    ensures CodeStatus(types, base, pp.pos + pp.len) == CodeStep(CodeStatus(types, base, pp.pos), PDI, false)
    ensures CodeIso(types, base, pp.pos + pp.len) == IsoStep(CodeStatus(types, base, pp.pos), CodeIso(types, base, pp.pos), PDI, false)
  {
    hide CodeStep, IsoStep, CodeStatus, CodeIso, CodeRtl;
    assert types[pp.pos] == PDI;
    IsoNext(types, base, pp.pos);
    DirectionIgnored(CodeStatus(types, base, pp.pos), PDI, CodeRtl(types, pp.pos));
    IsoDirectionIgnored(CodeStatus(types, base, pp.pos), CodeIso(types, base, pp.pos), PDI, CodeRtl(types, pp.pos));
  }

  lemma PdiKept(types: seq<CharType>, base: int, pp: Run, run: Run, matched: bool)
    requires RunOf(pp, types, pp.pos + pp.len) && pp.pos + pp.len <= ParagraphEnd(types) && pp.typ.PDI?
    requires var s := CodeStatus(types, base, pp.pos); matched == (s.overflowIsolates > 0 || s.validIsolates > 0)
    requires run == pp.(level := CodeStatus(types, base, pp.pos + pp.len).Top().level,
                        isolateLevel := CodeIso(types, base, pp.pos + pp.len).level, typ := if matched then PDI else ON)
    ensures Kept(pp, run, types, base) && KeptPlace(pp, run, types, base)
  {
    hide CodeStatus, CodeIso, ParagraphEnd;
    assert types[pp.pos] == PDI;
  }

  lemma InitiatorKept(types: seq<CharType>, base: int, pp: Run, run: Run)
    requires RunOf(pp, types, pp.pos + pp.len) && pp.pos + pp.len <= ParagraphEnd(types) && IsInitiator(pp.typ)
    requires run.pos == pp.pos && run.len == pp.len && run.typ != Sentinel
    requires AttrOf(run) == Overridden(pp.typ, CodeStatus(types, base, pp.pos).Top())
    ensures Kept(pp, run, types, base)
  {
    hide CodeStatus, ParagraphEnd;
    assert types[pp.pos] == pp.typ;
  }

  lemma InitiatorStatus(types: seq<CharType>, base: int, pp: Run, rtl: bool)
    requires RunOf(pp, types, pp.pos + pp.len) && IsInitiator(pp.typ)
    requires pp.typ.FSI? ==> rtl == CodeFirstStrong(types[pp.pos + pp.len..], 0)
    ensures CodeStatus(types, base, pp.pos + pp.len) == CodeStep(CodeStatus(types, base, pp.pos), pp.typ, rtl)
    ensures CodeIso(types, base, pp.pos + pp.len) == IsoStep(CodeStatus(types, base, pp.pos), CodeIso(types, base, pp.pos), pp.typ, rtl)
  {
    hide CodeStep, IsoStep, CodeStatus, CodeIso;
    assert types[pp.pos] == pp.typ;
    var s, v := CodeStatus(types, base, pp.pos), CodeIso(types, base, pp.pos);
    IsoNext(types, base, pp.pos);
    if !pp.typ.FSI? {
      DirectionIgnored(s, pp.typ, CodeRtl(types, pp.pos));
      DirectionIgnored(s, pp.typ, rtl);
      IsoDirectionIgnored(s, v, pp.typ, CodeRtl(types, pp.pos));
      IsoDirectionIgnored(s, v, pp.typ, rtl);
    }
  }

  lemma InitiatorPlace(types: seq<CharType>, base: int, pp: Run, run: Run)
    requires RunOf(pp, types, pp.pos + pp.len) && IsInitiator(pp.typ)
    requires run == pp.(level := run.level, typ := run.typ, isolateLevel := CodeIso(types, base, pp.pos).level)
    ensures KeptPlace(pp, run, types, base)
  {
    hide CodeIso;
    assert types[pp.pos] == pp.typ;
  }

  /** X5a to X5c. */
  method PassInitiator(s: StatusStack, pp: Run, rest: seq<Run>, ghost types: seq<CharType>, ghost base: int) returns (run: Run)
    requires s.Valid() && RunOf(pp, types, pp.pos + pp.len) && pp.pos + pp.len <= ParagraphEnd(types)
    requires s.status == CodeStatus(types, base, pp.pos) && s.iso == CodeIso(types, base, pp.pos) && RunsOf(rest, types, pp.pos + pp.len)
    requires IsInitiator(pp.typ)
    modifies s, s.saved
    ensures s.Valid() && s.status == CodeStatus(types, base, pp.pos + pp.len) && s.iso == CodeIso(types, base, pp.pos + pp.len)
    ensures Kept(pp, run, types, base) && KeptPlace(pp, run, types, base)
  {
    hide CodeStep, IsoStep, CodeStatus, CodeIso, ParagraphEnd, Status.Bounded, SavedAs, SavedIso, Kept;
    var fsiRtl := false;
    if pp.typ.FSI? {
      fsiRtl := FirstStrong(rest, types, pp.pos + pp.len);
    }
    InitiatorStatus(types, base, pp, fsiRtl);
    OverrideNotSentinel(s.status);
    run := pp.(level := s.level, isolateLevel := s.isolateLevel,
               typ := if s.override.IsNeutral() then pp.typ else s.override);
    InitiatorKept(types, base, pp, run);
    InitiatorPlace(types, base, pp, run);
    s.OpenIsolate(pp.typ, fsiRtl);
  }

  lemma IdlePlaces(types: seq<CharType>, base: int, r: Run)
    requires RunOf(r, types, r.pos + r.len) && !r.typ.IsExplicit() && !r.typ.IsIsolate()
    ensures CodeIso(types, base, r.pos + r.len) == CodeIso(types, base, r.pos)
    ensures forall x :: r.pos <= x < r.pos + r.len ==> IsolateLevelOf(types, base, x) == CodeIso(types, base, r.pos).level
  {
    hide CodeIso;
    forall x | r.pos <= x < r.pos + r.len
      ensures IsolateLevelOf(types, base, x) == CodeIso(types, base, r.pos).level
    {
      IdleIso(types, base, r, x);
      assert types[x] == r.typ;
    }
    IdleIso(types, base, r, r.pos + r.len);
  }

  /** X6 */
  method PassOther(s: StatusStack, pp: Run, ghost types: seq<CharType>, ghost base: int) returns (run: Run)
    requires s.Valid() && RunOf(pp, types, pp.pos + pp.len) && pp.pos + pp.len <= ParagraphEnd(types)
    requires s.status == CodeStatus(types, base, pp.pos) && s.iso == CodeIso(types, base, pp.pos)
    requires !pp.typ.IsExplicitOrBn() && !pp.typ.IsIsolate()
    ensures s.status == CodeStatus(types, base, pp.pos + pp.len) && s.iso == CodeIso(types, base, pp.pos + pp.len)
    ensures Kept(pp, run, types, base) && KeptPlace(pp, run, types, base)
  {
    hide CodeStatus, CodeIso, ParagraphEnd, Status.Bounded, SavedAs, SavedIso, Expected, Removed;
    IdleAttr(types, base, pp);
    IdlePlaces(types, base, pp);
    OverrideNotSentinel(s.status);
    run := pp.(level := s.level, isolateLevel := s.isolateLevel,
               typ := if s.override.IsNeutral() then pp.typ else s.override);
  }

  /** The run as the pass leaves it in the list. */
  ghost predicate Kept(pp: Run, run: Run, types: seq<CharType>, base: int)
    requires 0 <= pp.pos && pp.pos + pp.len <= |types|
  {
    && run.pos == pp.pos && run.len == pp.len && run.typ != Sentinel
    && forall x :: pp.pos <= x < pp.pos + pp.len ==> !Removed(types, x) && Expected(types, base, x) == AttrOf(run)
  }

  /** Its bracket is the one it had; its isolate level is that of each of its characters. */
  ghost predicate KeptPlace(pp: Run, run: Run, types: seq<CharType>, base: int)
    requires 0 <= pp.pos && pp.pos + pp.len <= |types|
  {
    && run.pos == pp.pos && run.len == pp.len && run.bracket == pp.bracket
    && forall x :: pp.pos <= x < pp.pos + pp.len ==> run.isolateLevel == IsolateLevelOf(types, base, x)
  }

  lemma KeptPlaced(pp: Run, run: Run, types: seq<CharType>, brackets: Option<seq<Bracket>>, base: int)
    requires brackets.Some? ==> |brackets.value| == |types|
    requires 0 <= pp.pos && pp.pos + pp.len <= ParagraphEnd(types) && KeptPlace(pp, run, types, base)
    requires forall x :: Holds(pp, x) ==> pp.bracket == BracketAt(brackets, x)
    ensures PlacedRun(run, types, brackets, base)
  {
    hide IsolateLevelOf, CodeIso, ParagraphEnd;
    forall x | Holds(run, x)
      ensures run.bracket == BracketAt(brackets, x) && IsoIs(types, base, x, run.isolateLevel)
    {
      assert Holds(pp, x);
    }
  }

  lemma {:induction false} IsoOfRun(types: seq<CharType>, base: int, t: CharType, p: nat, n: nat)
    requires p + n <= |types| && !t.FSI? && forall x :: p <= x < p + n ==> types[x] == t
    ensures CodeIso(types, base, p + n) == IsoRepeat(CodeStatus(types, base, p), CodeIso(types, base, p), t, n)
    decreases n
  {
    hide CodeStep, IsoStep, CodeStatus, CodeIso;
    if n > 0 {
      IsoOfRun(types, base, t, p + 1, n - 1);
      IsoNext(types, base, p);
      DirectionIgnored(CodeStatus(types, base, p), t, CodeRtl(types, p));
      IsoDirectionIgnored(CodeStatus(types, base, p), CodeIso(types, base, p), t, CodeRtl(types, p));
    }
  }

  lemma IsoDirectionIgnored(s: Status, v: Iso, t: CharType, rtl: bool)
    requires Fitting(s, v) && !t.FSI?
    ensures IsoStep(s, v, t, rtl) == IsoStep(s, v, t, false)
  {
  }

  lemma IsoIdle(s: Status, v: Iso, t: CharType)
    requires Fitting(s, v) && !t.IsExplicit() && !t.IsIsolate()
    ensures CodeStep(s, t, false) == s && IsoStep(s, v, t, false) == v
  {
  }

  lemma IdleIso(types: seq<CharType>, base: int, r: Run, x: int)
    requires RunOf(r, types, r.pos + r.len) && !r.typ.IsExplicit() && !r.typ.IsIsolate()
    requires r.pos <= x <= r.pos + r.len
    ensures CodeIso(types, base, x) == CodeIso(types, base, r.pos)
  {
    hide CodeStatus, CodeIso, CodeStep, IsoStep, IsoRepeat;
    IsoOfRun(types, base, r.typ, r.pos, x - r.pos);
    IsoIdle(CodeStatus(types, base, r.pos), CodeIso(types, base, r.pos), r.typ);
    RepeatIsoIdle(CodeStatus(types, base, r.pos), CodeIso(types, base, r.pos), r.typ, x - r.pos);
  }

  /** An explicit code or a BN, which leaves the list: X2 to X5, X7. */
  method PassCode(s: StatusStack, pp: Run, ghost types: seq<CharType>, ghost base: int)
    requires s.Valid() && RunOf(pp, types, pp.pos + pp.len) && pp.typ.IsExplicitOrBn()
    requires s.status == CodeStatus(types, base, pp.pos) && s.iso == CodeIso(types, base, pp.pos)
    modifies s, s.saved
    ensures s.Valid() && s.status == CodeStatus(types, base, pp.pos + pp.len) && s.iso == CodeIso(types, base, pp.pos + pp.len)
  {
    hide CodeStatus, CodeIso, Status.Bounded, SavedAs, SavedIso, CodeRepeat, IsoRepeat;
    if pp.typ.IsStrong() {
      StatusOfRun(types, base, pp.typ, pp.pos, pp.len);
      IsoOfRun(types, base, pp.typ, pp.pos, pp.len);
      s.OpenEmbedding(pp.typ, pp.len);
    } else if pp.typ.PDF? {
      StatusOfRun(types, base, pp.typ, pp.pos, pp.len);
      IsoOfRun(types, base, pp.typ, pp.pos, pp.len);
      s.ClosePdf(pp.len);
    } else {
      IdleRun(types, base, pp, pp.pos + pp.len);
      IdleIso(types, base, pp, pp.pos + pp.len);
    }
  }

  lemma OverrideNotSentinel(s: Status)
    requires s.Bounded()
    ensures |s.stack| > 0 && s.Top().override != Sentinel
  {
  }

  lemma StatusStarts(types: seq<CharType>, base: int)
    ensures CodeStatus(types, base, 0) == Initial(base) && CodeIso(types, base, 0) == Iso(0, [])
  {
  }

  /** The runs that are still to come. */
  ghost predicate Ahead(runs: seq<Run>, types: seq<CharType>, brackets: Option<seq<Bracket>>, n: int)
    requires brackets.Some? ==> |brackets.value| == |types|
  {
    RunsOf(runs, types, n) && Encoded(runs, types, brackets)
  }

  lemma AheadNext(runs: seq<Run>, types: seq<CharType>, brackets: Option<seq<Bracket>>, n: nat)
    requires (brackets.Some? ==> |brackets.value| == |types|) && |runs| > 0 && Ahead(runs, types, brackets, n)
    requires n <= ParagraphEnd(types)
    ensures var pp := runs[0];
            && pp.pos == n && RunOf(pp, types, pp.pos + pp.len) && (pp.typ != BS ==> n + pp.len <= ParagraphEnd(types))
            && (pp.typ == BS ==> n == ParagraphEnd(types)) && Ahead(runs[1..], types, brackets, n + pp.len)
            && RunsOf(runs[1..], types, n + pp.len) && forall x :: Holds(pp, x) ==> pp.bracket == BracketAt(brackets, x)
  {
    hide ParagraphEnd;
    BeforeSeparator(types, runs[0]);
    EncodedFirst(runs, types, brackets);
  }

  /** The first n characters are dealt with. */
  ghost predicate Behind(main: seq<Run>, explicits: seq<Run>, types: seq<CharType>, brackets: Option<seq<Bracket>>, base: int, n: nat)
    requires n <= |types| && (brackets.Some? ==> |brackets.value| == |types|)
  {
    Passed(main, explicits, types, base, n) && Placed(main, types, brackets, base, n)
  }

  lemma BehindRemoved(main: seq<Run>, explicits: seq<Run>, types: seq<CharType>, brackets: Option<seq<Bracket>>, base: int, r: Run, r': Run)
    requires brackets.Some? ==> |brackets.value| == |types|
    requires RunOf(r, types, r.pos + r.len) && r.typ.IsExplicitOrBn() && r.pos + r.len <= ParagraphEnd(types)
    requires Behind(main, explicits, types, brackets, base, r.pos)
    requires r' == r.(level := SENTINEL_LEVEL, isolateLevel := r'.isolateLevel)
    ensures Behind(main, explicits + [r'], types, brackets, base, r.pos + r.len)
  {
    hide Passed, Placed;
    PassRemoved(main, explicits, types, base, r, r');
    PlacedRemoved(main, types, brackets, base, r);
  }

  lemma BehindKept(main: seq<Run>, explicits: seq<Run>, types: seq<CharType>, brackets: Option<seq<Bracket>>, base: int, r: Run, r': Run)
    requires brackets.Some? ==> |brackets.value| == |types|
    requires RunOf(r, types, r.pos + r.len) && 0 <= base <= 1 && r.pos + r.len <= ParagraphEnd(types)
    requires Behind(main, explicits, types, brackets, base, r.pos)
    requires Kept(r, r', types, base) && KeptPlace(r, r', types, base)
    requires forall x :: Holds(r, x) ==> r.bracket == BracketAt(brackets, x)
    ensures Behind(main + [r'], explicits, types, brackets, base, r.pos + r.len)
  {
    hide Passed, Placed, Kept, PlacedRun;
    PassKept(main, explicits, types, base, r, r');
    KeptPlaced(r, r', types, brackets, base);
    KeptShape(r, r', types, base);
    hide KeptPlace;
    PlacedKept(main, types, brackets, base, r');
  }

  lemma BehindRest(main: seq<Run>, explicits: seq<Run>, types: seq<CharType>, brackets: Option<seq<Bracket>>, base: int,
                   rest: seq<Run>, rest': seq<Run>, level: int)
    requires brackets.Some? ==> |brackets.value| == |types|
    requires 0 <= base <= 1 && |rest| > 0 && Ahead(rest, types, brackets, ParagraphEnd(types)) && ParagraphEnd(types) < |types|
    requires Behind(main, explicits, types, brackets, base, ParagraphEnd(types))
    requires level == IsolateLevelOf(types, base, ParagraphEnd(types)) && rest' == [rest[0].(isolateLevel := level)] + rest[1..]
    ensures Behind(main + rest', explicits, types, brackets, base, |types|)
  {
    hide Passed, Placed, PlacedRun, IsolateLevelOf, ParagraphEnd;
    var n := ParagraphEnd(types);
    assert RunOf(rest'[0], types, n + rest[0].len) && rest'[1..] == rest[1..];
    assert RunsOf(rest', types, n);
    RestPlaced(rest, types, brackets, base, level);
    assert forall k :: 0 <= k < |rest| ==> rest'[k] == if k == 0 then rest[k].(isolateLevel := level) else rest[k];
    hide RunOf, RunsOf, Encoded;
    PassRest(main, explicits, types, base, rest', n);
    PlacedRest(main, types, brackets, base, rest', n);
  }

  /** The stack has dealt with the first n characters. */
  ghost predicate StandsAt(s: StatusStack, types: seq<CharType>, base: int, n: nat)
    requires n <= |types|
    reads s, s.saved
  {
    s.Valid() && s.status == CodeStatus(types, base, n) && s.iso == CodeIso(types, base, n)
  }

  /** A run that stays in the list. */
  method PassRun(s: StatusStack, pp: Run, rest: seq<Run>, ghost types: seq<CharType>, ghost base: int) returns (run: Run)
    requires 0 <= pp.pos <= |types| && StandsAt(s, types, base, pp.pos) && RunOf(pp, types, pp.pos + pp.len) && pp.pos + pp.len <= ParagraphEnd(types)
    requires RunsOf(rest, types, pp.pos + pp.len) && !pp.typ.IsExplicitOrBn()
    modifies s, s.saved
    ensures StandsAt(s, types, base, pp.pos + pp.len)
    ensures Kept(pp, run, types, base) && KeptPlace(pp, run, types, base)
  {
    hide CodeStatus, CodeIso, ParagraphEnd, Kept, KeptPlace, StatusStack.Valid;
    if pp.typ.PDI? {
      run := PassPdi(s, pp, types, base);
    } else if pp.typ.IsIsolate() {
      run := PassInitiator(s, pp, rest, types, base);
    } else {
      run := PassOther(s, pp, types, base);
    }
  }

  /** The explicit pass: X1 to X9 over the run list.  No character is lost; exactly the codes of the
      paragraph leave the list; every other character has what the text-wise rules of the program give it, the
      bracket it came with, and the isolate level of the text-wise rules. */
  method ExplicitPass(list: RunList, base: int, ghost types: seq<CharType>, ghost brackets: Option<seq<Bracket>>) returns (explicits: seq<Run>)
    requires 0 <= base <= 1 && |list.nodes| > 0 && list.nodes[0].typ == Sentinel && list.nodes[0].pos == -1
    requires brackets.Some? ==> |brackets.value| == |types|
    requires list.nodes[0].len <= 1 && RunsOf(list.nodes[1..], types, 0) && Encoded(list.nodes[1..], types, brackets)
    modifies list
    ensures Passed(list.nodes, explicits, types, base, |types|)
    ensures Placed(list.nodes, types, brackets, base, |types|)
  {
    hide Passed, CodeStatus, CodeIso, ParagraphEnd, Kept, KeptPlace, StatusStack.Valid, Placed, PlacedRun, IsolateLevelOf, Encoded, RunsOf;
    var s := new StatusStack(base);
    StatusStarts(types, base);
    explicits := [];
    var i := 1;
    ghost var n := 0;
    assert list.nodes[..1] == [list.nodes[0]];
    PassStarts(types, base, list.nodes[0]);
    PlacedStarts(list.nodes[0], types, brackets, base);
    assert Behind(list.nodes[..i], explicits, types, brackets, base, n);
    hide Behind, Ahead;
    while i < |list.nodes|
      invariant 1 <= i <= |list.nodes| && 0 <= n <= ParagraphEnd(types) <= |types|
      invariant Ahead(list.nodes[i..], types, brackets, n) && Behind(list.nodes[..i], explicits, types, brackets, base, n)
      invariant StandsAt(s, types, base, n) && fresh(s) && fresh(s.saved)
      decreases |list.nodes| - i
    {
      var pp := list.nodes[i];
      ghost var main, rest := list.nodes[..i], list.nodes[i + 1..];
      assert list.nodes[i..][1..] == rest && list.nodes[i..][0] == pp;
      AheadNext(list.nodes[i..], types, brackets, n);
      if pp.typ.IsExplicitOrBn() {
        var gone := pp.(level := SENTINEL_LEVEL, isolateLevel := s.isolateLevel);
        PassCode(s, pp, types, base);
        BehindRemoved(main, explicits, types, brackets, base, pp, gone);
        explicits := explicits + [gone];
        list.nodes := list.nodes[..i] + list.nodes[i + 1..];
        assert list.nodes[..i] == main && list.nodes[i..] == rest;
      } else if pp.typ.BS? {
        // X8
        LevelAtEnd(s, types, base);
        ghost var all := list.nodes[i..];
        list.nodes := list.nodes[i := pp.(isolateLevel := s.isolateLevel)];
        BehindRest(main, explicits, types, brackets, base, all, [list.nodes[i]] + rest, s.isolateLevel);
        assert list.nodes == main + ([list.nodes[i]] + rest);
        PassEnds(list.nodes, explicits, types, brackets, base);
        return;
      } else {
        var run := PassRun(s, pp, list.nodes[i + 1..], types, base);
        BehindKept(main, explicits, types, brackets, base, pp, run);
        list.nodes := list.nodes[i := run];
        i := i + 1;
        assert list.nodes[..i] == main + [run] && list.nodes[i..] == rest;
      }
      n := n + pp.len;
    }
    assert list.nodes[..i] == list.nodes && list.nodes[i..] == [];
    AheadEnds(types, brackets, n);
    PassEnds(list.nodes, explicits, types, brackets, base);
  }

  lemma AheadEnds(types: seq<CharType>, brackets: Option<seq<Bracket>>, n: int)
    requires (brackets.Some? ==> |brackets.value| == |types|) && Ahead([], types, brackets, n)
    ensures n == |types|
  {
  }

  lemma PassEnds(main: seq<Run>, explicits: seq<Run>, types: seq<CharType>, brackets: Option<seq<Bracket>>, base: int)
    requires (brackets.Some? ==> |brackets.value| == |types|) && Behind(main, explicits, types, brackets, base, |types|)
    ensures Passed(main, explicits, types, base, |types|) && Placed(main, types, brackets, base, |types|)
  {
  }

  lemma KeptShape(pp: Run, run: Run, types: seq<CharType>, base: int)
    requires 0 <= pp.pos && pp.pos + pp.len <= |types| && KeptPlace(pp, run, types, base)
    ensures run.pos == pp.pos && run.len == pp.len
  {
  }

  lemma EncodedFirst(runs: seq<Run>, types: seq<CharType>, brackets: Option<seq<Bracket>>)
    requires (brackets.Some? ==> |brackets.value| == |types|) && |runs| > 0 && Encoded(runs, types, brackets)
    ensures forall x :: Holds(runs[0], x) ==> runs[0].bracket == BracketAt(brackets, x)
    ensures Encoded(runs[1..], types, brackets)
  {
    forall k, x | 0 <= k < |runs[1..]| && Holds(runs[1..][k], x)
      ensures runs[1..][k].bracket == BracketAt(brackets, x)
    {
      var j := k + 1;
      assert Holds(runs[j], x);
    }
  }

  lemma LevelAtEnd(s: StatusStack, types: seq<CharType>, base: int)
    requires s.Valid() && ParagraphEnd(types) < |types| && s.iso == CodeIso(types, base, ParagraphEnd(types))
    ensures s.isolateLevel == IsolateLevelOf(types, base, ParagraphEnd(types))
  {
    hide CodeIso;
  }
}
