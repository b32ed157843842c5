/** Texts with few explicit codes, 3rd/fribidi/fribidi-bidi.c: nothing is rejected in them, and the explicit pass is rules X1
    to X8 of UAX #9 unless an FSI is misled. */
module Shallow {
  import opened BidiTypes
  import opened ExplicitRules
  import opened ExplicitText
  import opened IsolateLevels
  import opened Nesting
  import BaseDirection

  const FEW_CODES := 61

  /** Embeddings, overrides and initiators before n. */
  function CodesIn(types: seq<CharType>, n: nat): nat
    requires n <= |types|
  {
    if n == 0 then 0 else CodesIn(types, n - 1) + (if IsEmbedding(types[n - 1]) || IsInitiator(types[n - 1]) then 1 else 0)
  }

  lemma {:induction false} CodesGrow(types: seq<CharType>, m: nat, n: nat)
    requires m <= n <= |types|
    ensures CodesIn(types, m) <= CodesIn(types, n)
    decreases n
  {
    if m < n { CodesGrow(types, m, n - 1); }
  }

  /** Nothing is rejected, and no level is above top. */
  ghost predicate Calm(s: Status, top: int) {
    s.overflowIsolates == 0 && s.overflowEmbeddings == 0 && s.Bounded() && |s.stack| > 0 && s.Top().level <= top
  }

  lemma {:induction false} PopEmbeddingsCalm(s: Status, top: int)
    requires Calm(s, top)
    ensures Calm(CodePopEmbeddings(s), top) && CodePopEmbeddings(s).validIsolates == s.validIsolates
    decreases |s.stack|
  {
    if |s.stack| > 1 && !s.Top().isolate {
      PopCalm(s, top);
      PopEmbeddingsCalm(CodePop(s), top);
    }
  }

  lemma PopCalm(s: Status, top: int)
    requires Calm(s, top)
    ensures Calm(CodePop(s), top)
  {
    CodePopBounded(s);
    if |s.stack| > 1 {
      var j := |s.stack| - 2;
      assert s.stack[j].level < s.stack[|s.stack| - 1].level;
    }
  }

  lemma PushCalm(s: Status, t: CharType, rtl: bool, top: int)
    requires Calm(s, top) && top + 2 <= MAX_EXPLICIT_LEVEL && (IsEmbedding(t) || IsInitiator(t))
    ensures var n := CodeStep(s, t, rtl); Calm(n, top + 2) && |n.stack| == |s.stack| + 1
  {
    CodeStepBounded(s, t, rtl);
    hide Status.Bounded;
    var n := CodeStep(s, t, rtl);
    assert n.Top().level == LeastAbove(s.Top().level, if t.FSI? then rtl else t.IsRtl());
  }

  lemma StepCalm(s: Status, t: CharType, rtl: bool, top: int)
    requires Calm(s, top) && !IsEmbedding(t) && !IsInitiator(t)
    ensures Calm(CodeStep(s, t, rtl), top)
  {
    hide Calm, CodePopEmbeddings, CodePop;
    CalmMeans(s, top);
    if t.PDI? {
      if s.validIsolates > 0 {
        PopEmbeddingsCalm(s, top);
        var o := CodePopEmbeddings(s);
        CalmMeans(o, top);
        assert o.(overflowEmbeddings := 0) == o;
        PopCalm(o, top);
        CalmCounters(CodePop(o), top, s.validIsolates - 1);
      }
    } else if t.PDF? {
      PopCalm(s, top);
    }
  }

  lemma CalmMeans(s: Status, top: int)
    requires Calm(s, top)
    ensures s.overflowIsolates == 0 && s.overflowEmbeddings == 0 && |s.stack| > 0
  {
  }

  lemma CalmCounters(s: Status, top: int, n: nat)
    requires Calm(s, top)
    ensures Calm(s.(validIsolates := n), top)
  {
    CountersDoNotMatter(s, s.(validIsolates := n));
  }

  lemma {:induction false} StaysCalm(types: seq<CharType>, base: int, n: nat)
    requires n <= |types| && 0 <= base <= 1 && CodesIn(types, n) <= FEW_CODES
    ensures Calm(CodeStatus(types, base, n), base + 2 * CodesIn(types, n))
  {
    hide Calm, CodeStep, Status.Bounded;
    if n > 0 {
      var p := n - 1;
      StaysCalm(types, base, p);
      var s, t, rtl := CodeStatus(types, base, p), types[p], CodeRtl(types, p);
      if IsEmbedding(t) || IsInitiator(t) {
        PushCalm(s, t, rtl, base + 2 * CodesIn(types, p));
      } else {
        StepCalm(s, t, rtl, base + 2 * CodesIn(types, p));
      }
    } else {
      CalmStarts(base);
    }
  }

  lemma CalmStarts(base: int)
    requires 0 <= base <= 1
    ensures Calm(Initial(base), base)
  {
  }

  lemma {:induction false} OpenAmongCodes(types: seq<CharType>, n: nat)
    requires n <= |types|
    ensures |OpenIsolates(types, n)| <= CodesIn(types, n)
  {
    if n > 0 { OpenAmongCodes(types, n - 1); }
  }

  /** A paragraph with at most 61 such codes rejects no isolate. */
  lemma ShallowIsRegular(types: seq<CharType>, base: int)
    requires 0 <= base <= 1 && |types| <= ParagraphEnd(types) + 1 && CodesIn(types, |types|) <= FEW_CODES
    ensures Regular(types, base)
  {
    hide OpenIsolates, ParagraphEnd, CodesIn, Accepted;
    forall i | 0 <= i < |types| && IsInitiator(types[i])
      ensures Accepted(types, base, i) && |OpenIsolates(types, i)| < MAX_ISOLATE_LEVEL
    {
      AcceptedHere(types, base, i);
    }
  }

  lemma AcceptedHere(types: seq<CharType>, base: int, i: nat)
    requires 0 <= base <= 1 && i < |types| && IsInitiator(types[i]) && CodesIn(types, |types|) <= FEW_CODES
    ensures Accepted(types, base, i) && |OpenIsolates(types, i)| < MAX_ISOLATE_LEVEL
  {
    hide CodeStatus, OpenIsolates, CodesIn, Calm, CodeStep, CodeIso, IsoStep, CodeRtl;
    OneMoreCode(types, i);
    CodesGrow(types, i + 1, |types|);
    StaysCalm(types, base, i);
    OpenAmongCodes(types, i);
    IsoNext(types, base, i);
    PushCalm(CodeStatus(types, base, i), types[i], CodeRtl(types, i), base + 2 * CodesIn(types, i));
  }

  lemma OneMoreCode(types: seq<CharType>, i: nat)
    requires i < |types| && (IsInitiator(types[i]) || IsEmbedding(types[i]))
    ensures CodesIn(types, i + 1) == CodesIn(types, i) + 1
  {
  }

  /** No FSI has an isolate without a letter of its own before a right-to-left letter that is taken for one. */
  ghost predicate NoneMisled(types: seq<CharType>) {
    forall i :: 0 <= i < ParagraphEnd(types) && types[i].FSI? ==> !BaseDirection.Misled(types[i + 1..ParagraphEnd(types)])
  }

  /** In such a paragraph the explicit pass follows the rules at every character, if no FSI is misled. */
  lemma {:induction false} ShallowFollowsRules(types: seq<CharType>, base: int, n: nat)
    requires 0 <= base <= 1 && |types| <= ParagraphEnd(types) + 1 && CodesIn(types, |types|) <= FEW_CODES && NoneMisled(types)
    requires n <= ParagraphEnd(types)
    ensures NoDeparture(types, base, n)
  {
    hide CodeStatus, SpecStatus, ParagraphEnd, CodesIn, CodeRtl, SpecRtl, BaseDirection.Misled, Departs;
    if n > 0 {
      var p := n - 1;
      ShallowFollowsRules(types, base, p);
      AgreesUntilDeparture(types, base, p);
      CodesGrow(types, p, |types|);
      StaysCalm(types, base, p);
      if types[p].FSI? { BaseDirection.FsiDiffers(types, p); }
      CalmFollows(CodeStatus(types, base, p), types[p], CodeRtl(types, p), SpecRtl(types, p), base + 2 * CodesIn(types, p));
    }
  }

  lemma CalmFollows(s: Status, t: CharType, codeRtl: bool, rtl: bool, top: int)
    requires Calm(s, top) && (t.FSI? ==> codeRtl == rtl)
    ensures |s.stack| > 0 && !Departs(s, t, codeRtl, rtl)
  {
    hide Status.Bounded;
  }
}
