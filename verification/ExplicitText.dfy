/** The explicit rules over a whole text, character by character: what UAX #9 gives each character,
    what the program gives it, and exactly when the two agree. */
module ExplicitText {
  import opened BidiTypes
  import opened RunList
  import opened ExplicitRules

  /** X8: the text up to its first block separator. */
  function ParagraphEnd(types: seq<CharType>): (n: nat)
    ensures n <= |types|
    ensures forall i :: 0 <= i < n ==> types[i] != BS
    ensures n < |types| ==> types[n] == BS
  {
    if types == [] || types[0] == BS then 0 else 1 + ParagraphEnd(types[1..])
  }

  function SpecRtl(types: seq<CharType>, i: nat): bool
    requires i < ParagraphEnd(types)
  {
    SpecFirstStrong(types[i + 1..ParagraphEnd(types)], 0)
  }

  function CodeRtl(types: seq<CharType>, i: nat): bool
    requires i < |types|
  {
    CodeFirstStrong(types[i + 1..], 0)
  }

  /** The status before character n. */
  function SpecStatus(types: seq<CharType>, base: int, n: nat): (s: Status)
    requires n <= ParagraphEnd(types)
    ensures |s.stack| > 0
  {
    if n == 0 then Initial(base)
    else
      var s := SpecStep(SpecStatus(types, base, n - 1), types[n - 1], SpecRtl(types, n - 1));
      assert |s.stack| > 0;
      s
  }

  function CodeStatus(types: seq<CharType>, base: int, n: nat): (s: Status)
    requires n <= |types|
    ensures |s.stack| > 0
  {
    if n == 0 then Initial(base)
    else CodeStep(CodeStatus(types, base, n - 1), types[n - 1], CodeRtl(types, n - 1))
  }

  function Overridden(t: CharType, e: Entry): Attr {
    Attr(if e.override.IsNeutral() then t else e.override, e.level)
  }

  /** X5a to X6a: level and type of character i, by the rules. */
  function SpecAttr(types: seq<CharType>, base: int, i: nat): Attr
    requires i < ParagraphEnd(types)
  {
    var e := SpecStatus(types, base, if types[i].PDI? then i + 1 else i).Top();
    Attr(if e.override == ON then types[i] else e.override, e.level)
  }

  /** The same by the program, which turns a PDI that closes nothing into an ON and never overrides one. */
  function CodeAttr(types: seq<CharType>, base: int, i: nat): Attr
    requires i < |types|
  {
    var s := CodeStatus(types, base, i);
    if types[i].PDI? then
      Attr(if s.overflowIsolates > 0 || s.validIsolates > 0 then PDI else ON, CodeStatus(types, base, i + 1).Top().level)
    else Overridden(types[i], s.Top())
  }

  ghost predicate NoDeparture(types: seq<CharType>, base: int, n: nat)
    requires n <= ParagraphEnd(types)
  {
    forall i :: 0 <= i < n ==> !Departs(SpecStatus(types, base, i), types[i], CodeRtl(types, i), SpecRtl(types, i))
  }

  lemma {:induction false} SpecStatusValid(types: seq<CharType>, base: int, n: nat)
    requires n <= ParagraphEnd(types) && 0 <= base <= 1
    ensures SpecStatus(types, base, n).Valid()
  {
    if n > 0 {
      SpecStatusValid(types, base, n - 1);
      SpecStepValid(SpecStatus(types, base, n - 1), types[n - 1], SpecRtl(types, n - 1));
    }
  }

  /** For every text, the levels on the program's stack rise and stay valid, and it never overflows. */
  lemma {:induction false} CodeStatusBounded(types: seq<CharType>, base: int, n: nat)
    requires n <= |types| && 0 <= base <= 1
    ensures CodeStatus(types, base, n).Bounded()
    ensures |CodeStatus(types, base, n).stack| <= MAX_RESOLVED_LEVELS
  {
    if n > 0 {
      CodeStatusBounded(types, base, n - 1);
      CodeStepBounded(CodeStatus(types, base, n - 1), types[n - 1], CodeRtl(types, n - 1));
    }
    StackBound(CodeStatus(types, base, n));
  }

  lemma {:induction false} AgreesUntilDeparture(types: seq<CharType>, base: int, n: nat)
    requires n <= ParagraphEnd(types) && 0 <= base <= 1 && NoDeparture(types, base, n)
    ensures CodeStatus(types, base, n) == SpecStatus(types, base, n)
  {
    if n > 0 {
      AgreesUntilDeparture(types, base, n - 1);
      SpecStatusValid(types, base, n - 1);
      StepAgrees(SpecStatus(types, base, n - 1), types[n - 1], CodeRtl(types, n - 1), SpecRtl(types, n - 1));
    }
  }

  /** The program is in the status of the rules before character m. */
  predicate SameStatus(types: seq<CharType>, base: int, m: nat)
    requires m <= ParagraphEnd(types)
  {
    CodeStatus(types, base, m) == SpecStatus(types, base, m)
  }

  /** The program follows UAX #9 through the first n characters exactly when none of them departs. */
  lemma {:induction false} FollowsRulesIff(types: seq<CharType>, base: int, n: nat)
    requires n <= ParagraphEnd(types) && 0 <= base <= 1
    ensures NoDeparture(types, base, n) <==> forall m :: 0 <= m <= n ==> SameStatus(types, base, m)
  {
    hide CodeStep, SpecStep, Departs;
    if NoDeparture(types, base, n) {
      forall m | 0 <= m <= n
        ensures SameStatus(types, base, m)
      {
        AgreesUntilDeparture(types, base, m);
      }
    } else {
      var i := FirstDeparture(types, base, n);
      AgreesUntilDeparture(types, base, i);
      SpecStatusValid(types, base, i);
      StepAgrees(SpecStatus(types, base, i), types[i], CodeRtl(types, i), SpecRtl(types, i));
      var m := i + 1;
      assert !SameStatus(types, base, m);
    }
  }

  lemma {:induction false} FirstDeparture(types: seq<CharType>, base: int, n: nat) returns (i: nat)
    requires n <= ParagraphEnd(types) && !NoDeparture(types, base, n)
    ensures i < n && NoDeparture(types, base, i)
    ensures Departs(SpecStatus(types, base, i), types[i], CodeRtl(types, i), SpecRtl(types, i))
  {
    if NoDeparture(types, base, n - 1) {
      i := n - 1;
    } else {
      i := FirstDeparture(types, base, n - 1);
    }
  }

  /** X6a overrides a PDI like any other character; the program leaves it a neutral.  The two differ just under an override. */
  lemma PdiOverride(types: seq<CharType>, base: int, i: nat)
    requires i < ParagraphEnd(types) && types[i].PDI? && 0 <= base <= 1
    ensures CodeAttr(types, base, i).typ.IsNeutral()
    ensures SpecAttr(types, base, i).typ.IsNeutral() <==> SpecStatus(types, base, i + 1).Top().override.ON?
  {
    SpecStatusValid(types, base, i + 1);
    hide SpecStatus, CodeStatus, ParagraphEnd;
    var s := SpecStatus(types, base, i + 1);
    assert s.stack[|s.stack| - 1].override in {LTR, RTL, ON};
  }

  /** X1 to X8: up to the first departure every character that is kept has the level of the rules and,
      a PDI aside, their override. */
  lemma ExplicitLevels(types: seq<CharType>, base: int, i: nat)
    requires i < ParagraphEnd(types) && 0 <= base <= 1 && NoDeparture(types, base, i + 1)
    ensures CodeAttr(types, base, i).level == SpecAttr(types, base, i).level
    ensures !types[i].PDI? ==> CodeAttr(types, base, i) == SpecAttr(types, base, i)
  {
    AgreesUntilDeparture(types, base, i);
    AgreesUntilDeparture(types, base, i + 1);
    if !types[i].PDI? {
      SpecStatusValid(types, base, i);
      OverrideOnTop(SpecStatus(types, base, i));
    }
    hide SpecStatus, CodeStatus, ParagraphEnd, Status.Valid, Status.Bounded, NoDeparture;
  }

  lemma OverrideOnTop(s: Status)
    requires s.Valid()
    ensures |s.stack| > 0 && s.Top().override in {LTR, RTL, ON}
  {
  }

  // ---------------------------------------------------------------- texts on which the program departs

  /** n embeddings, each of which raises the level by one. */
  function NestedEmbeddings(n: nat): (t: seq<CharType>)
    ensures |t| == n
  {
    if n == 0 then [] else NestedEmbeddings(n - 1) + [if n % 2 == 1 then RLE else LRE]
  }

  /** Text without block separators. */
  ghost predicate OneParagraph(types: seq<CharType>) { ParagraphEnd(types) == |types| }

  lemma {:induction false} OneParagraphIff(types: seq<CharType>)
    ensures OneParagraph(types) <==> BS !in types
  {
    if types != [] && types[0] != BS { OneParagraphIff(types[1..]); }
  }

  ghost predicate AtLevel(s: Status, level: int, isolate: bool) {
    |s.stack| > 0 && s.Valid() && s.Top() == Entry(level, ON, isolate)
    && s.overflowIsolates == 0 && s.overflowEmbeddings == 0 && (|s.stack| > 1 || level == 0)
  }

  /** A push to the next level: rules and program agree. */
  lemma RaiseLevel(s: Status, level: nat, isolate: bool, t: CharType, codeRtl: bool, rtl: bool)
    requires AtLevel(s, level, isolate) && level < MAX_EXPLICIT_LEVEL
    requires t == (if LevelIsRtl(level + 1) then RLE else LRE) || (t == LRI && !LevelIsRtl(level + 1))
    ensures AtLevel(SpecStep(s, t, rtl), level + 1, t == LRI)
    ensures CodeStep(s, t, codeRtl) == SpecStep(s, t, rtl)
    ensures SpecStep(s, t, rtl).stack == s.stack + [Entry(level + 1, ON, t == LRI)]
    ensures SpecStep(s, t, rtl).Top() == Entry(level + 1, ON, t == LRI)
  {
    SpecStepValid(s, t, rtl);
    var n := SpecStep(s, t, rtl);
    assert n.stack == s.stack + [Entry(level + 1, ON, t == LRI)];
    assert CodeStep(s, t, codeRtl).stack == n.stack;
  }

  lemma Unfold(types: seq<CharType>, n: nat)
    requires 0 < n <= |types| && OneParagraph(types)
    ensures SpecStatus(types, 0, n) == SpecStep(SpecStatus(types, 0, n - 1), types[n - 1], SpecRtl(types, n - 1))
    ensures CodeStatus(types, 0, n) == CodeStep(CodeStatus(types, 0, n - 1), types[n - 1], CodeRtl(types, n - 1))
  {
  }

  lemma {:induction false} NestedStatus(types: seq<CharType>, n: nat)
    requires n <= |types| && n <= MAX_EXPLICIT_LEVEL && NestedEmbeddings(n) == types[..n] && OneParagraph(types)
    ensures AtLevel(SpecStatus(types, 0, n), n, false)
    ensures CodeStatus(types, 0, n) == SpecStatus(types, 0, n)
  {
    hide CodeStep, SpecStep, SpecRtl, CodeRtl, AtLevel;
    if n > 0 {
      var t := if LevelIsRtl(n) then RLE else LRE;
      assert NestedEmbeddings(n) == NestedEmbeddings(n - 1) + [t];
      assert types[..n - 1] == NestedEmbeddings(n)[..n - 1] == NestedEmbeddings(n - 1);
      assert types[n - 1] == NestedEmbeddings(n)[n - 1] == t;
      NestedStatus(types, n - 1);
      RaiseLevel(SpecStatus(types, 0, n - 1), n - 1, false, t, CodeRtl(types, n - 1), SpecRtl(types, n - 1));
    } else {
      AtStart();
    }
  }

  lemma AtStart()
    ensures AtLevel(Initial(0), 0, false)
  {
  }

  /** A rejected embedding followed by an isolate: UAX #9 rejects the isolate too, the program enters it. */
  lemma IsolateAfterOverflow()
    ensures var types := NestedEmbeddings(124) + [LRE, RLI, ON];
            OneParagraph(types) && SpecAttr(types, 0, 126).level == 124 && CodeAttr(types, 0, 126).level == 125
  {
    hide NestedEmbeddings, SpecStatus, CodeStatus, SpecRtl, CodeRtl, SpecAttr, CodeAttr, AtLevel, ParagraphEnd;
    var types := NestedEmbeddings(124) + [LRE, RLI, ON];
    NestedHasNoBs(124, types);
    NestedStatus(types, 124);
    IsolateAfter(types, 124);
  }

  lemma IsolateAfter(types: seq<CharType>, n: nat)
    requires |types| == n + 3 && types[n] == LRE && types[n + 1] == RLI && types[n + 2] == ON && OneParagraph(types)
    requires AtLevel(SpecStatus(types, 0, n), 124, false) && CodeStatus(types, 0, n) == SpecStatus(types, 0, n)
    ensures SpecAttr(types, 0, n + 2).level == 124 && CodeAttr(types, 0, n + 2).level == 125
  {
    hide SpecStatus, CodeStatus, SpecRtl, CodeRtl, SpecStep, CodeStep, AtLevel;
    var s := SpecStatus(types, 0, n);
    IsolateSteps(s);
    Unfold(types, n + 1);
    StepIgnoresDirection(s, LRE, CodeRtl(types, n), SpecRtl(types, n));
    Unfold(types, n + 2);
    StepIgnoresDirection(SpecStatus(types, 0, n + 1), RLI, CodeRtl(types, n + 1), SpecRtl(types, n + 1));
  }

  lemma IsolateSteps(s: Status)
    requires AtLevel(s, 124, false)
    ensures var c := SpecStep(s, LRE, false);
            |s.stack| > 0 && c == CodeStep(s, LRE, false) && |c.stack| > 0
            && |SpecStep(c, RLI, false).stack| > 0
            && SpecStep(c, RLI, false).Top().level == 124 && CodeStep(c, RLI, false).Top().level == 125
            && SpecStep(c, RLI, false).Top().override == ON == CodeStep(c, RLI, false).Top().override
  {
    assert SpecStep(s, LRE, false) == s.(overflowEmbeddings := 1);
  }

  /** A PDF that matches a rejected embedding inside an isolate: the program forgets it, so the next
      embedding is rejected as well. */
  lemma PdfInIsolateAfterOverflow()
    ensures var types := NestedEmbeddings(123) + [LRI, LRE, PDF, RLE, ON];
            OneParagraph(types) && SpecAttr(types, 0, 127).level == 125 && CodeAttr(types, 0, 127).level == 124
  {
    hide NestedEmbeddings, SpecStatus, CodeStatus, SpecRtl, CodeRtl, SpecAttr, CodeAttr, AtLevel, ParagraphEnd;
    var types := NestedEmbeddings(123) + [LRI, LRE, PDF, RLE, ON];
    NestedHasNoBs(123, types);
    NestedStatus(types, 123);
    PdfInIsolate(types, 123);
  }

  lemma PdfInIsolate(types: seq<CharType>, n: nat)
    requires |types| == n + 5 && types[n] == LRI && types[n + 1] == LRE && types[n + 2] == PDF && types[n + 3] == RLE && types[n + 4] == ON && OneParagraph(types)
    requires AtLevel(SpecStatus(types, 0, n), 123, false) && CodeStatus(types, 0, n) == SpecStatus(types, 0, n)
    ensures SpecAttr(types, 0, n + 4).level == 125 && CodeAttr(types, 0, n + 4).level == 124
  {
    hide SpecStatus, CodeStatus, SpecRtl, CodeRtl, SpecStep, CodeStep, AtLevel;
    Unfold(types, n + 1);
    RaiseLevel(SpecStatus(types, 0, n), 123, false, LRI, CodeRtl(types, n), SpecRtl(types, n));
    var s := SpecStatus(types, 0, n + 1);
    PdfInIsolateSteps(s);
    Unfold(types, n + 2);
    StepIgnoresDirection(s, LRE, CodeRtl(types, n + 1), SpecRtl(types, n + 1));
    Unfold(types, n + 3);
    StepIgnoresDirection(SpecStatus(types, 0, n + 2), PDF, CodeRtl(types, n + 2), SpecRtl(types, n + 2));
    Unfold(types, n + 4);
    StepIgnoresDirection(SpecStatus(types, 0, n + 3), RLE, CodeRtl(types, n + 3), SpecRtl(types, n + 3));
    StepIgnoresDirection(CodeStatus(types, 0, n + 3), RLE, CodeRtl(types, n + 3), SpecRtl(types, n + 3));
  }

  lemma StepIgnoresDirection(s: Status, t: CharType, codeRtl: bool, rtl: bool)
    requires |s.stack| > 0 && !t.FSI?
    ensures SpecStep(s, t, rtl) == SpecStep(s, t, false) && CodeStep(s, t, codeRtl) == CodeStep(s, t, false)
  {
  }

  lemma PdfInIsolateSteps(s: Status)
    requires AtLevel(s, 124, true)
    ensures var c := CodeStep(CodeStep(CodeStep(s, LRE, false), PDF, false), RLE, false);
            c.Top() == s.Top()
    ensures |SpecStep(SpecStep(s, LRE, false), PDF, false).stack| > 0
            && |SpecStep(s, LRE, false).stack| > 0
            && SpecStep(s, LRE, false) == CodeStep(s, LRE, false)
            && SpecStep(SpecStep(SpecStep(s, LRE, false), PDF, false), RLE, false).Top() == Entry(125, ON, false)
  {
    var s1 := SpecStep(s, LRE, false);
    assert s1 == s.(overflowEmbeddings := 1) == CodeStep(s, LRE, false);
    assert SpecStep(s1, PDF, false) == s;
    assert CodeStep(s1, PDF, false) == s1;
    assert CodeStep(s1, RLE, false).stack == s.stack;
  }

  /** A PDF inside a rejected isolate: X7 ignores it, the program closes an embedding around the isolate. */
  lemma PdfInRejectedIsolate()
    ensures var types := NestedEmbeddings(124) + [RLE, LRI, PDF, ON];
            OneParagraph(types) && SpecAttr(types, 0, 127).level == 125 && CodeAttr(types, 0, 127).level == 124
  {
    hide NestedEmbeddings, SpecStatus, CodeStatus, SpecRtl, CodeRtl, SpecAttr, CodeAttr, AtLevel, ParagraphEnd;
    var types := NestedEmbeddings(124) + [RLE, LRI, PDF, ON];
    NestedHasNoBs(124, types);
    NestedStatus(types, 124);
    PdfInRejected(types, 124);
  }

  lemma PdfInRejected(types: seq<CharType>, n: nat)
    requires |types| == n + 4 && types[n] == RLE && types[n + 1] == LRI && types[n + 2] == PDF && types[n + 3] == ON && OneParagraph(types)
    requires AtLevel(SpecStatus(types, 0, n), 124, false) && CodeStatus(types, 0, n) == SpecStatus(types, 0, n)
    ensures SpecAttr(types, 0, n + 3).level == 125 && CodeAttr(types, 0, n + 3).level == 124
  {
    hide SpecStatus, CodeStatus, SpecRtl, CodeRtl, SpecStep, CodeStep, AtLevel;
    Unfold(types, n + 1);
    RaiseLevel(SpecStatus(types, 0, n), 124, false, RLE, CodeRtl(types, n), SpecRtl(types, n));
    var s := SpecStatus(types, 0, n + 1);
    PdfInRejectedSteps(SpecStatus(types, 0, n), s);
    Unfold(types, n + 2);
    StepIgnoresDirection(s, LRI, CodeRtl(types, n + 1), SpecRtl(types, n + 1));
    Unfold(types, n + 3);
    StepIgnoresDirection(SpecStatus(types, 0, n + 2), PDF, CodeRtl(types, n + 2), SpecRtl(types, n + 2));
  }

  lemma PdfInRejectedSteps(below: Status, s: Status)
    requires AtLevel(below, 124, false) && AtLevel(s, 125, false)
    requires s.stack == below.stack + [Entry(125, ON, false)]
    ensures var c := CodeStep(s, LRI, false);
            c == SpecStep(s, LRI, false) && |c.stack| > 0
            && CodeStep(c, PDF, false).Top() == Entry(124, ON, false)
            && |SpecStep(c, PDF, false).stack| > 0 && SpecStep(c, PDF, false).Top() == Entry(125, ON, false)
  {
    var c := CodeStep(s, LRI, false);
    assert c == s.(overflowIsolates := 1);
    assert CodeStep(c, PDF, false).stack == below.stack;
  }

  /** An FSI without a letter inside: the program looks behind the PDI, where an isolate makes up for it. */
  lemma FsiLooksBehindPdi()
    ensures var types := [FSI, ON, PDI, RLI, RTL];
            OneParagraph(types) && SpecAttr(types, 0, 1).level == 2 && CodeAttr(types, 0, 1).level == 1
  {
    hide *;
    var types := [FSI, ON, PDI, RLI, RTL];
    FsiDirections(types);
    AfterFsi(types);
  }

  lemma FsiDirections(types: seq<CharType>)
    requires types == [FSI, ON, PDI, RLI, RTL]
    ensures OneParagraph(types) && !SpecRtl(types, 0) && CodeRtl(types, 0)
  {
    hide SpecFirstStrong, CodeFirstStrong, ParagraphEnd;
    OneParagraphIff(types);
    assert types[1..] == types[1..5] == [ON, PDI, RLI, RTL];
    FirstStrongBehindPdi();
  }

  lemma AfterFsi(types: seq<CharType>)
    requires types == [FSI, ON, PDI, RLI, RTL] && OneParagraph(types) && !SpecRtl(types, 0) && CodeRtl(types, 0)
    ensures SpecAttr(types, 0, 1).level == 2 && CodeAttr(types, 0, 1).level == 1
  {
    hide ParagraphEnd, SpecRtl, CodeRtl;
    assert SpecStatus(types, 0, 0) == Initial(0) == CodeStatus(types, 0, 0);
    assert SpecStatus(types, 0, 1) == SpecStep(Initial(0), FSI, false);
    assert CodeStatus(types, 0, 1) == CodeStep(Initial(0), FSI, true);
  }

  lemma FirstStrongBehindPdi()
    ensures !SpecFirstStrong([ON, PDI, RLI, RTL], 0) && CodeFirstStrong([ON, PDI, RLI, RTL], 0)
  {
    assert [ON, PDI, RLI, RTL][1..] == [PDI, RLI, RTL] && [PDI, RLI, RTL][1..] == [RLI, RTL] && [RLI, RTL][1..] == [RTL];
    assert CodeFirstStrong([RTL], 0) && CodeFirstStrong([RLI, RTL], -1) && CodeFirstStrong([PDI, RLI, RTL], 0);
  }

  lemma {:induction false} NestedHasNoBs(n: nat, types: seq<CharType>)
    requires |types| >= n && types[..n] == NestedEmbeddings(n) && BS !in types[n..]
    ensures OneParagraph(types)
  {
    OneParagraphIff(types);
    NestedNoBs(n);
    assert types == types[..n] + types[n..];
  }

  lemma {:induction false} NestedNoBs(n: nat)
    ensures BS !in NestedEmbeddings(n)
  {
    if n > 0 { NestedNoBs(n - 1); }
  }
}
