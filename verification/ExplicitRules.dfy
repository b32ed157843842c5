/** Explicit levels and directions: rules X1 to X8 of section 3.3.2 of UAX #9, and what the counters
    of fribidi_get_par_embedding_levels_ex (3rd/fribidi/fribidi-bidi.c) make of them. */
module ExplicitRules {
  import opened BidiTypes
  import opened Wrappers

  /** An entry of the directional status stack. */
  datatype Entry = Entry(level: int, override: CharType, isolate: bool)

  /** The directional status stack, the current status on top, and the three counters of X1. */
  datatype Status = Status(stack: seq<Entry>, overflowIsolates: nat, overflowEmbeddings: nat, validIsolates: nat) {
    function Top(): Entry
      requires |stack| > 0
    {
      stack[|stack| - 1]
    }

    function Pop(): Status
      requires |stack| > 0
    {
      this.(stack := stack[..|stack| - 1])
    }

    function Push(e: Entry): Status {
      this.(stack := stack + [e])
    }

    /** The levels on the stack rise and are valid. */
    ghost predicate Bounded() {
      && |stack| > 0 && !stack[0].isolate && 0 <= stack[0].level
      && (forall i, j :: 0 <= i < j < |stack| ==> stack[i].level < stack[j].level)
      && Top().level <= MAX_EXPLICIT_LEVEL
      && (forall i :: 0 <= i < |stack| ==> stack[i].override in {LTR, RTL, ON})
    }

    /** What UAX #9 keeps besides: the paragraph level stays at the bottom, and embeddings overflow
        at the two highest levels only. */
    ghost predicate Valid() {
      && Bounded() && stack[0].level <= 1
      && (overflowEmbeddings > 0 ==> Top().level >= MAX_EXPLICIT_LEVEL - 1)
    }
  }

  /** X1 */
  function Initial(base: int): Status { Status([Entry(base, ON, false)], 0, 0, 0) }

  /** The least odd (right to left) or even level above level. */
  function LeastAbove(level: int, rtl: bool): (n: int)
    ensures level < n <= level + 2 && (LevelIsRtl(n) <==> rtl)
  {
    if LevelIsRtl(level) == rtl then level + 2 else level + 1
  }

  lemma LeastAboveIsLeast(level: int, rtl: bool, m: int)
    requires level < m && (LevelIsRtl(m) <==> rtl)
    ensures LeastAbove(level, rtl) <= m
  {
  }

  /** The program computes it with a mask for embeddings, */
  function EmbeddingLevel(level: nat, t: CharType): int { (level + t.ToLevel() + 2) / 2 * 2 - t.ToLevel() }

  /** and with a remainder for isolates. */
  function IsolateLevel(level: nat, rtl: bool): int { if rtl then level + 1 + level % 2 else level + 2 - level % 2 }

  lemma LeastAboveComputed(level: nat, t: CharType, rtl: bool)
    ensures EmbeddingLevel(level, t) == LeastAbove(level, t.IsRtl())
    ensures IsolateLevel(level, rtl) == LeastAbove(level, rtl)
  {
  }

  predicate IsInitiator(t: CharType) { t.LRI? || t.RLI? || t.FSI? }

  predicate IsEmbedding(t: CharType) { t.LRE? || t.RLE? || t.LRO? || t.RLO? }

  // ---------------------------------------------------------------- UAX #9

  /** The new embedding level is the least odd one for RLE and RLO (X2, X4), the least even one for LRE and LRO (X3, X5). */
  predicate OpensRtl(t: CharType) { t.RLE? || t.RLO? }

  /** X4 and X5 override, X2 and X3 do not. */
  function NewOverride(t: CharType): CharType { if t.LRO? then LTR else if t.RLO? then RTL else ON }

  function PopEmbeddings(s: Status): (r: Status)
    ensures |s.stack| > 0 ==> 0 < |r.stack| <= |s.stack| && r.stack == s.stack[..|r.stack|]
    decreases |s.stack|
  {
    if |s.stack| > 1 && !s.Top().isolate then PopEmbeddings(s.Pop()) else s
  }

  /** X2 to X7; rtl is the direction that X5c finds for an FSI. */
  function SpecStep(s: Status, t: CharType, rtl: bool): Status
    requires |s.stack| > 0
  {
    var top := s.Top();
    if IsEmbedding(t) then
      var level := LeastAbove(top.level, OpensRtl(t));
      if level <= MAX_EXPLICIT_LEVEL && s.overflowIsolates == 0 && s.overflowEmbeddings == 0 then
        s.Push(Entry(level, NewOverride(t), false))
      else if s.overflowIsolates == 0 then s.(overflowEmbeddings := s.overflowEmbeddings + 1)
      else s
    else if IsInitiator(t) then
      var level := LeastAbove(top.level, if t.FSI? then rtl else t.RLI?);
      if level <= MAX_EXPLICIT_LEVEL && s.overflowIsolates == 0 && s.overflowEmbeddings == 0 then
        s.(validIsolates := s.validIsolates + 1).Push(Entry(level, ON, true))
      else s.(overflowIsolates := s.overflowIsolates + 1)
    else if t.PDI? then
      if s.overflowIsolates > 0 then s.(overflowIsolates := s.overflowIsolates - 1)
      else if s.validIsolates == 0 then s
      else
        var open := PopEmbeddings(s.(overflowEmbeddings := 0));
        (if |open.stack| > 1 then open.Pop() else open).(validIsolates := s.validIsolates - 1)
    else if t.PDF? then
      if s.overflowIsolates > 0 then s
      else if s.overflowEmbeddings > 0 then s.(overflowEmbeddings := s.overflowEmbeddings - 1)
      else if !top.isolate && |s.stack| > 1 then s.Pop()
      else s
    else s
  }

  /** X5c: direction of the text up to the matching PDI, by P2 and P3; count initiators are open. */
  function SpecFirstStrong(rest: seq<CharType>, count: nat): bool {
    if rest == [] then false
    else if rest[0].PDI? then (if count == 0 then false else SpecFirstStrong(rest[1..], count - 1))
    else if IsInitiator(rest[0]) then SpecFirstStrong(rest[1..], count + 1)
    else if count == 0 && (rest[0].LTR? || rest[0].RTL? || rest[0].AL?) then rest[0].RTL? || rest[0].AL?
    else SpecFirstStrong(rest[1..], count)
  }

  // ---------------------------------------------------------------- the code

  /** PUSH_STATUS */
  function CodePush(s: Status, e: Entry): Status {
    if s.overflowEmbeddings == 0 && s.overflowIsolates == 0 && e.level <= MAX_EXPLICIT_LEVEL then s.Push(e)
    else if s.overflowIsolates == 0 then s.(overflowEmbeddings := s.overflowEmbeddings + 1)
    else s
  }

  /** POP_STATUS */
  function CodePop(s: Status): Status {
    if |s.stack| <= 1 then s
    else if s.overflowEmbeddings > 0 then s.(overflowEmbeddings := s.overflowEmbeddings - 1)
    else s.Pop()
  }

  /** The loop of X6a: pop while the current status does not come from an isolate. */
  function CodePopEmbeddings(s: Status): (r: Status)
    ensures |s.stack| > 0 ==> 0 < |r.stack| <= |s.stack|
    decreases |s.stack|, s.overflowEmbeddings
  {
    if |s.stack| > 1 && !s.Top().isolate then CodePopEmbeddings(CodePop(s)) else s
  }

  function CodeStep(s: Status, t: CharType, rtl: bool): (r: Status)
    requires |s.stack| > 0
    ensures |r.stack| > 0
  {
    if IsEmbedding(t) then CodePush(s, Entry(LeastAbove(s.Top().level, t.IsRtl()), t.OverrideDir(), false))
    else if t.PDF? then
      if |s.stack| > 1 && s.Top().isolate then s else CodePop(s)
    else if t.PDI? then
      if s.overflowIsolates > 0 then s.(overflowIsolates := s.overflowIsolates - 1)
      else if s.validIsolates > 0 then
        CodePop(CodePopEmbeddings(s).(overflowEmbeddings := 0)).(validIsolates := s.validIsolates - 1)
      else s
    else if IsInitiator(t) then
      var level := LeastAbove(s.Top().level, if t.FSI? then rtl else t.RLI?);
      if level <= MAX_EXPLICIT_LEVEL then
        var p := CodePush(s.(validIsolates := s.validIsolates + 1), Entry(level, ON, true));
        p.(stack := p.stack[..|p.stack| - 1] + [p.Top().(level := level)])
      else s.(overflowIsolates := s.overflowIsolates + 1)
    else s
  }

  /** The look-ahead of an FSI, which does not stop at the matching PDI. */
  function CodeFirstStrong(rest: seq<CharType>, count: int): bool {
    if rest == [] then false
    else if rest[0].PDI? then CodeFirstStrong(rest[1..], count - 1)
    else if rest[0].IsIsolate() then CodeFirstStrong(rest[1..], count + 1)
    else if count == 0 && rest[0].IsLetter() then rest[0].IsRtl()
    else CodeFirstStrong(rest[1..], count)
  }

  // ---------------------------------------------------------------- where they part

  /** The guards that the program lacks or has too many of.  rtl is the direction X5c finds for an FSI,
      codeRtl the one the program finds. */
  predicate Departs(s: Status, t: CharType, codeRtl: bool, rtl: bool)
    requires |s.stack| > 0
  {
    var overflow := s.overflowIsolates > 0 || s.overflowEmbeddings > 0;
    if t.PDF? then
      // in an isolate the program leaves a rejected embedding open; in a rejected isolate it closes
      // an embedding that X7 keeps
      if s.Top().isolate then s.overflowIsolates == 0 && s.overflowEmbeddings > 0
      else s.overflowIsolates > 0 && |s.stack| > 1
    else if IsInitiator(t) then
      // the program accepts an initiator whose level is valid although something is rejected already
      var codeLevel := LeastAbove(s.Top().level, if t.FSI? then codeRtl else t.RLI?);
      var level := LeastAbove(s.Top().level, if t.FSI? then rtl else t.RLI?);
      if overflow then codeLevel <= MAX_EXPLICIT_LEVEL
      else codeLevel != level && (codeLevel <= MAX_EXPLICIT_LEVEL || level <= MAX_EXPLICIT_LEVEL)
    else false
  }

  lemma {:induction false} PopEmbeddingsAgree(s: Status)
    requires |s.stack| > 0
    ensures CodePopEmbeddings(s).(overflowEmbeddings := 0) == PopEmbeddings(s.(overflowEmbeddings := 0))
    decreases |s.stack|, s.overflowEmbeddings
  {
    if |s.stack| > 1 && !s.Top().isolate {
      PopEmbeddingsAgree(CodePop(s));
    }
  }

  lemma {:induction false} PopEmbeddingsCounters(s: Status)
    requires |s.stack| > 0
    ensures var r := CodePopEmbeddings(s);
            r.validIsolates == s.validIsolates && r.overflowIsolates == s.overflowIsolates
    decreases |s.stack|, s.overflowEmbeddings
  {
    if |s.stack| > 1 && !s.Top().isolate { PopEmbeddingsCounters(CodePop(s)); }
  }

  /** One character: the program does what X2 to X7 say exactly when it does not depart. */
  lemma StepAgrees(s: Status, t: CharType, codeRtl: bool, rtl: bool)
    requires s.Valid()
    ensures CodeStep(s, t, codeRtl) == SpecStep(s, t, rtl) <==> !Departs(s, t, codeRtl, rtl)
  {
    if t.PDI? {
      PopEmbeddingsAgree(s);
    }
  }

  lemma BoundedTop(s: Status)
    requires s.Bounded()
    ensures |s.stack| > 0 && 0 <= s.Top().level <= MAX_EXPLICIT_LEVEL
    ensures s.Top().isolate ==> |s.stack| > 1
  {
  }

  lemma PushBounded(s: Status, e: Entry)
    requires s.Bounded() && |s.stack| > 0 && s.Top().level < e.level <= MAX_EXPLICIT_LEVEL && e.override in {LTR, RTL, ON}
    ensures s.Push(e).Bounded()
  {
  }

  lemma PopBounded(s: Status)
    requires s.Bounded() && |s.stack| > 1
    ensures s.Pop().Bounded()
  {
  }

  lemma {:induction false} CodePopEmbeddingsBounded(s: Status)
    requires s.Bounded()
    ensures CodePopEmbeddings(s).Bounded()
    decreases |s.stack|, s.overflowEmbeddings
  {
    if |s.stack| > 1 && !s.Top().isolate {
      PopBounded(s);
      CodePopEmbeddingsBounded(CodePop(s));
    }
  }

  /** Raising the current level in place, as the program does for an isolate it could not push. */
  lemma RaisedBounded(s: Status, level: int)
    requires s.Bounded() && |s.stack| > 0 && s.Top().level <= level <= MAX_EXPLICIT_LEVEL
    ensures s.(stack := s.stack[..|s.stack| - 1] + [s.Top().(level := level)]).Bounded()
  {
  }

  /** The entry that an embedding or an initiator asks for. */
  function Asked(s: Status, t: CharType, rtl: bool): Entry
    requires |s.stack| > 0
  {
    Entry(LeastAbove(s.Top().level, if t.FSI? then rtl else t.IsRtl()),
          if IsInitiator(t) then ON else t.OverrideDir(), IsInitiator(t))
  }

  lemma CodePushBounded(s: Status, e: Entry)
    requires s.Bounded() && |s.stack| > 0 && s.Top().level < e.level && e.override in {LTR, RTL, ON}
    ensures CodePush(s, e).Bounded()
    ensures |CodePush(s, e).stack| > 0 && CodePush(s, e).Top().level <= e.level
  {
    hide Status.Bounded;
    if e.level <= MAX_EXPLICIT_LEVEL { PushBounded(s, e); }
    CountersDoNotMatter(s, CodePush(s, e));
  }

  lemma CountersDoNotMatter(s: Status, s': Status)
    ensures s.stack == s'.stack ==> (s.Bounded() <==> s'.Bounded())
  {
  }

  lemma CodePopBounded(s: Status)
    requires s.Bounded()
    ensures CodePop(s).Bounded()
  {
    if |s.stack| > 1 { PopBounded(s); }
  }

  /** Whatever the text, departing or not, the program keeps its levels rising and valid. */
  lemma CodeStepBounded(s: Status, t: CharType, rtl: bool)
    requires s.Bounded()
    ensures |s.stack| > 0 && CodeStep(s, t, rtl).Bounded()
  {
    hide Status.Bounded, CodePush, CodePop, LeastAbove, LevelIsRtl;
    BoundedTop(s);
    if IsEmbedding(t) {
      CodePushBounded(s, Asked(s, t, rtl));
    } else if IsInitiator(t) {
      var v := s.(validIsolates := s.validIsolates + 1);
      var e := Asked(s, t, rtl);
      CountersDoNotMatter(s, v);
      CountersDoNotMatter(s, CodeStep(s, t, rtl));
      CodePushBounded(v, e);
      if e.level <= MAX_EXPLICIT_LEVEL { RaisedBounded(CodePush(v, e), e.level); }
    } else if t.PDI? {
      CodePopEmbeddingsBounded(s);
      var o := CodePopEmbeddings(s);
      CountersDoNotMatter(o, o.(overflowEmbeddings := 0));
      var p := CodePop(o.(overflowEmbeddings := 0));
      CodePopBounded(o.(overflowEmbeddings := 0));
      CountersDoNotMatter(p, p.(validIsolates := if s.validIsolates > 0 then s.validIsolates - 1 else 0));
      CountersDoNotMatter(s, CodeStep(s, t, rtl));
    } else {
      CodePopBounded(s);
    }
  }

  lemma {:induction false} PopEmbeddingsValid(s: Status)
    requires s.Valid() && s.overflowEmbeddings == 0
    ensures PopEmbeddings(s).Valid() && PopEmbeddings(s).overflowEmbeddings == 0
    decreases |s.stack|
  {
    if |s.stack| > 1 && !s.Top().isolate {
      PopBounded(s);
      PopEmbeddingsValid(s.Pop());
    }
  }

  lemma PushValid(s: Status, e: Entry)
    requires s.Valid() && |s.stack| > 0 && s.Top().level < e.level <= MAX_EXPLICIT_LEVEL && e.override in {LTR, RTL, ON}
    requires s.overflowEmbeddings == 0
    ensures s.Push(e).Valid()
  {
    PushBounded(s, e);
  }

  lemma PopValid(s: Status)
    requires s.Valid() && |s.stack| > 1 && s.overflowEmbeddings == 0
    ensures s.Pop().Valid()
  {
    PopBounded(s);
  }

  lemma OtherCounters(s: Status, s': Status)
    requires s.stack == s'.stack && s.Valid()
    requires s'.overflowEmbeddings <= s.overflowEmbeddings || s.Top().level >= MAX_EXPLICIT_LEVEL - 1
    ensures s'.Valid()
  {
  }

  lemma SpecStepValid(s: Status, t: CharType, rtl: bool)
    requires s.Valid()
    ensures |s.stack| > 0 && SpecStep(s, t, rtl).Valid()
  {
    BoundedTop(s);
    if IsEmbedding(t) || IsInitiator(t) {
      SpecOpenValid(s, t, rtl);
    } else if t.PDI? {
      SpecPdiValid(s);
    } else {
      SpecPdfValid(s, t, rtl);
    }
  }

  lemma SpecOpenValid(s: Status, t: CharType, rtl: bool)
    requires s.Valid() && (IsEmbedding(t) || IsInitiator(t))
    ensures |s.stack| > 0 && SpecStep(s, t, rtl).Valid()
  {
    BoundedTop(s);
    hide Status.Bounded, Status.Valid, LeastAbove, LevelIsRtl;
    var n := SpecStep(s, t, rtl);
    var e := Asked(s, t, rtl);
    var v := if IsInitiator(t) then s.(validIsolates := s.validIsolates + 1) else s;
    OtherCounters(s, v);
    if n.stack == s.stack {
      OtherCounters(s, n);
    } else {
      PushValid(v, e);
    }
  }

  lemma SpecPdiValid(s: Status)
    requires s.Valid()
    ensures |s.stack| > 0 && SpecStep(s, PDI, false).Valid() && SpecStep(s, PDI, true).Valid()
  {
    BoundedTop(s);
    hide Status.Bounded, Status.Valid;
    var n := SpecStep(s, PDI, false);
    if s.overflowIsolates == 0 && s.validIsolates > 0 {
      OtherCounters(s, s.(overflowEmbeddings := 0));
      PopEmbeddingsValid(s.(overflowEmbeddings := 0));
      var o := PopEmbeddings(s.(overflowEmbeddings := 0));
      if |o.stack| > 1 {
        PopValid(o);
        OtherCounters(o.Pop(), n);
      } else {
        OtherCounters(o, n);
      }
    } else {
      OtherCounters(s, n);
    }
  }

  lemma SpecPdfValid(s: Status, t: CharType, rtl: bool)
    requires s.Valid() && !IsEmbedding(t) && !IsInitiator(t) && !t.PDI?
    ensures |s.stack| > 0 && SpecStep(s, t, rtl).Valid()
  {
    BoundedTop(s);
    hide Status.Bounded, Status.Valid;
    var n := SpecStep(s, t, rtl);
    if n.stack == s.stack {
      OtherCounters(s, n);
    } else {
      PopValid(s);
    }
  }

  /** The saved levels leave room on a stack of MAX_RESOLVED_LEVELS entries. */
  lemma StackBound(s: Status)
    requires s.Bounded()
    ensures |s.stack| - 1 <= MAX_EXPLICIT_LEVEL < MAX_RESOLVED_LEVELS
  {
    LevelAtLeast(s, |s.stack| - 1);
  }

  lemma {:induction false} LevelAtLeast(s: Status, i: nat)
    requires s.Bounded() && i < |s.stack|
    ensures s.stack[i].level >= i
    decreases i
  {
    if i > 0 { LevelAtLeast(s, i - 1); }
  }

  // ---------------------------------------------------------------- FSI

  /** Where X5c stops looking without having found a letter: after the matching PDI, or nowhere. */
  function IsolateEnd(rest: seq<CharType>, count: nat): Option<nat> {
    if rest == [] then None
    else
      var n := if rest[0].PDI? then (if count == 0 then None else IsolateEnd(rest[1..], count - 1))
               else if IsInitiator(rest[0]) then IsolateEnd(rest[1..], count + 1)
               else if count == 0 && rest[0].IsLetter() then None
               else IsolateEnd(rest[1..], count);
      if rest[0].PDI? && count == 0 then Some(1)
      else if n.Some? then Some(n.value + 1) else None
  }

  /** The look-ahead of the program is right unless the isolate holds no letter and the text after it,
      counted as one isolate short, begins right to left. */
  lemma {:induction false} FirstStrongAgrees(rest: seq<CharType>, count: nat)
    ensures IsolateEnd(rest, count).Some? ==> IsolateEnd(rest, count).value <= |rest|
    ensures CodeFirstStrong(rest, count) == SpecFirstStrong(rest, count) <==>
            !(IsolateEnd(rest, count).Some? && CodeFirstStrong(rest[IsolateEnd(rest, count).value..], -1))
  {
    if rest != [] && !(rest[0].PDI? && count == 0) && !(count == 0 && rest[0].IsLetter()) {
      var c: nat := if rest[0].PDI? then count - 1 else if IsInitiator(rest[0]) then count + 1 else count;
      FirstStrongAgrees(rest[1..], c);
      var n := IsolateEnd(rest[1..], c);
      if n.Some? { assert rest[1..][n.value..] == rest[n.value + 1..]; }
    }
  }
}
