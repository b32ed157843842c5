/** Isolate levels of 3rd/fribidi/fribidi-bidi.c, character by character: what the explicit pass writes on a
    run, when that is the nesting of isolates (BD9 of UAX #9), and when it falls below zero. */
module IsolateLevels {
  import opened BidiTypes
  import opened ExplicitRules
  import opened ExplicitText

  const MAX_ISOLATE_LEVEL := MAX_EXPLICIT_LEVEL - 1

  /** isolate_level, and the ones saved with the statuses below the current one. */
  datatype Iso = Iso(level: int, saved: seq<int>)

  ghost predicate Fitting(s: Status, v: Iso) { |s.stack| == |v.saved| + 1 }

  /** PUSH_STATUS */
  function IsoPush(s: Status, e: Entry, v: Iso): (r: Iso)
    ensures Fitting(s, v) ==> Fitting(CodePush(s, e), r)
  {
    if s.overflowEmbeddings == 0 && s.overflowIsolates == 0 && e.level <= MAX_EXPLICIT_LEVEL then Iso(v.level, v.saved + [v.level])
    else v
  }

  /** POP_STATUS */
  function IsoPop(s: Status, v: Iso): (r: Iso)
    requires Fitting(s, v)
    ensures Fitting(CodePop(s), r)
  {
    if |s.stack| <= 1 || s.overflowEmbeddings > 0 then v
    else Iso(v.saved[|v.saved| - 1], v.saved[..|v.saved| - 1])
  }

  function IsoPopEmbeddings(s: Status, v: Iso): (r: Iso)
    requires Fitting(s, v)
    ensures Fitting(CodePopEmbeddings(s), r)
    decreases |s.stack|, s.overflowEmbeddings
  {
    if |s.stack| > 1 && !s.Top().isolate then IsoPopEmbeddings(CodePop(s), IsoPop(s, v)) else v
  }

  function Raised(level: int): int { if level < MAX_ISOLATE_LEVEL then level + 1 else level }

  function IsoStep(s: Status, v: Iso, t: CharType, rtl: bool): (r: Iso)
    requires Fitting(s, v)
    ensures Fitting(CodeStep(s, t, rtl), r)
  {
    if IsEmbedding(t) then IsoPush(s, Asked(s, t, rtl), v)
    else if t.PDF? then
      if |s.stack| > 1 && s.Top().isolate then v else IsoPop(s, v)
    else if t.PDI? then
      if s.overflowIsolates == 0 && s.validIsolates > 0 then
        var open := CodePopEmbeddings(s).(overflowEmbeddings := 0);
        var r := IsoPop(open, IsoPopEmbeddings(s, v));
        r.(level := r.level - 1)
      else v
    else if IsInitiator(t) then
      var up := v.(level := Raised(v.level));
      if Asked(s, t, rtl).level <= MAX_EXPLICIT_LEVEL then IsoPush(s, Asked(s, t, rtl), up) else up
    else v
  }

  /** isolate_level before character n, and what is saved. */
  function CodeIso(types: seq<CharType>, base: int, n: nat): (v: Iso)
    requires n <= |types|
    ensures Fitting(CodeStatus(types, base, n), v)
  {
    if n == 0 then Iso(0, [])
    else IsoStep(CodeStatus(types, base, n - 1), CodeIso(types, base, n - 1), types[n - 1], CodeRtl(types, n - 1))
  }

  /** The isolate level that the pass writes on character x; a PDI has that of the text around it. */
  function IsolateLevelOf(types: seq<CharType>, base: int, x: nat): int
    requires x < |types|
  {
    CodeIso(types, base, if types[x].PDI? then x + 1 else x).level
  }

  // ---------------------------------------------------------------- when it falls below zero

  /** The isolate level that is left when every status has been popped. */
  function Bottom(v: Iso): int { if |v.saved| > 0 then v.saved[0] else v.level }

  /** The PDI that goes wrong: it closes an isolate that was accepted but never pushed, so it pops every status,
      and finds the isolate level 0 below them. */
  ghost predicate FallsBelow(s: Status, v: Iso, t: CharType) {
    && t.PDI? && s.overflowIsolates == 0 && s.validIsolates > 0
    && (forall i :: 1 <= i < |s.stack| ==> !s.stack[i].isolate) && Bottom(v) == 0
  }

  /** All levels index an array of MAX_EXPLICIT_LEVEL entries, and that of an isolate can be lowered again. */
  ghost predicate Indexed(s: Status, v: Iso) {
    && Fitting(s, v) && 0 <= v.level <= MAX_ISOLATE_LEVEL
    && forall k :: 0 <= k < |v.saved| ==> (if s.stack[k + 1].isolate then 1 else 0) <= v.saved[k] <= MAX_ISOLATE_LEVEL
  }

  lemma {:induction false} PopEmbeddingsIndexed(s: Status, v: Iso)
    requires Indexed(s, v)
    ensures var r, o := IsoPopEmbeddings(s, v), CodePopEmbeddings(s);
            && Indexed(o, r) && Bottom(r) == Bottom(v)
            && (|o.stack| > 1 <==> exists i :: 1 <= i < |s.stack| && s.stack[i].isolate)
            && (|o.stack| > 1 ==> o.Top().isolate)
    decreases |s.stack|, s.overflowEmbeddings
  {
    if |s.stack| > 1 && !s.Top().isolate {
      PopIndexed(s, v);
      PopEmbeddingsIndexed(CodePop(s), IsoPop(s, v));
      PopIsolates(s);
    } else if |s.stack| > 1 {
      var i := |s.stack| - 1;
      assert s.stack[i].isolate;
    }
  }

  lemma PopIsolates(s: Status)
    requires |s.stack| > 1 && !s.Top().isolate
    ensures (exists i :: 1 <= i < |s.stack| && s.stack[i].isolate)
            <==> exists i :: 1 <= i < |CodePop(s).stack| && CodePop(s).stack[i].isolate
  {
    var o := CodePop(s);
    if i :| 1 <= i < |s.stack| && s.stack[i].isolate {
      assert i < |s.stack| - 1 && o.stack[i].isolate;
    }
    if i :| 1 <= i < |o.stack| && o.stack[i].isolate {
      assert s.stack[i].isolate;
    }
  }

  lemma PopIndexed(s: Status, v: Iso)
    requires Indexed(s, v)
    ensures Indexed(CodePop(s), IsoPop(s, v)) && Bottom(IsoPop(s, v)) == Bottom(v)
  {
  }

  lemma PushIndexed(s: Status, e: Entry, v: Iso)
    requires Indexed(s, v) && (e.isolate ==> v.level >= 1)
    ensures Indexed(CodePush(s, e), IsoPush(s, e, v))
  {
  }

  lemma SetTopIndexed(s: Status, v: Iso, s': Status)
    requires Indexed(s, v) && |s'.stack| == |s.stack| && forall k :: 0 <= k < |s.stack| ==> s'.stack[k].isolate == s.stack[k].isolate
    ensures Indexed(s', v)
  {
  }

  lemma StepIndexed(s: Status, v: Iso, t: CharType, rtl: bool)
    requires Indexed(s, v) && s.Bounded()
    ensures Indexed(CodeStep(s, t, rtl), IsoStep(s, v, t, rtl)) <==> !FallsBelow(s, v, t)
    ensures FallsBelow(s, v, t) ==> IsoStep(s, v, t, rtl).level == -1
  {
    hide Status.Bounded, CodePopEmbeddings, IsoPopEmbeddings;
    var n := CodeStep(s, t, rtl);
    if IsEmbedding(t) {
      PushIndexed(s, Asked(s, t, rtl), v);
    } else if t.PDF? {
      PopIndexed(s, v);
    } else if t.PDI? {
      if s.overflowIsolates == 0 && s.validIsolates > 0 {
        PdiIndexed(s, v, rtl);
      } else {
        SetTopIndexed(s, v, n);
      }
    } else if IsInitiator(t) {
      InitiatorIndexed(s, v, t, rtl);
    }
  }

  lemma PdiIndexed(s: Status, v: Iso, rtl: bool)
    requires Indexed(s, v) && s.overflowIsolates == 0 && s.validIsolates > 0
    ensures Indexed(CodeStep(s, PDI, rtl), IsoStep(s, v, PDI, rtl)) <==> !FallsBelow(s, v, PDI)
    ensures FallsBelow(s, v, PDI) ==> IsoStep(s, v, PDI, rtl).level == -1
  {
    hide CodePopEmbeddings, IsoPopEmbeddings;
    PopEmbeddingsIndexed(s, v);
    var o, r := CodePopEmbeddings(s), IsoPopEmbeddings(s, v);
    var open := o.(overflowEmbeddings := 0);
    SetTopIndexed(o, r, open);
    PopIndexed(open, r);
    var n, w := CodeStep(s, PDI, rtl), IsoPop(open, r);
    assert n.stack == CodePop(open).stack;
    assert IsoStep(s, v, PDI, rtl) == w.(level := w.level - 1);
    if |o.stack| > 1 {
      assert r.saved[|r.saved| - 1] >= 1;
      assert w.level >= 1;
    } else {
      assert r.saved == [] && w == r && Bottom(r) == r.level;
    }
  }

  lemma InitiatorIndexed(s: Status, v: Iso, t: CharType, rtl: bool)
    requires Indexed(s, v) && IsInitiator(t)
    ensures Indexed(CodeStep(s, t, rtl), IsoStep(s, v, t, rtl))
  {
    hide Indexed, CodeStep, IsoStep, LeastAbove, Asked, CodePush, IsoPush;
    RaisedIndexed(s, v);
    var up := v.(level := Raised(v.level));
    var e := Asked(s, t, rtl);
    var n := CodeStep(s, t, rtl);
    InitiatorShape(s, v, t, rtl);
    if e.level <= MAX_EXPLICIT_LEVEL {
      var a := s.(validIsolates := s.validIsolates + 1);
      SetTopIndexed(s, up, a);
      PushIndexed(a, e, up);
      SetTopIndexed(CodePush(a, e), IsoPush(s, e, up), n);
    } else {
      SetTopIndexed(s, up, n);
    }
  }

  lemma RaisedIndexed(s: Status, v: Iso)
    requires Indexed(s, v)
    ensures Indexed(s, v.(level := Raised(v.level))) && Raised(v.level) >= 1 && |s.stack| > 0 && Fitting(s, v)
  {
  }

  lemma InitiatorShape(s: Status, v: Iso, t: CharType, rtl: bool)
    requires Fitting(s, v) && IsInitiator(t)
    ensures |s.stack| > 0
    ensures var up, e, n, a := v.(level := Raised(v.level)), Asked(s, t, rtl), CodeStep(s, t, rtl), s.(validIsolates := s.validIsolates + 1);
            if e.level <= MAX_EXPLICIT_LEVEL then
              && IsoStep(s, v, t, rtl) == IsoPush(s, e, up) == IsoPush(a, e, up) && |n.stack| == |CodePush(a, e).stack|
              && forall k :: 0 <= k < |n.stack| ==> n.stack[k].isolate == CodePush(a, e).stack[k].isolate
            else IsoStep(s, v, t, rtl) == up && n.stack == s.stack
  {
    hide LeastAbove, Raised;
  }

  /** The isolate levels of the first n characters stay in their array exactly if no PDI among them falls below zero. */
  ghost predicate StaysIndexed(types: seq<CharType>, base: int, n: nat)
    requires n <= |types|
  {
    forall i :: 0 <= i < n ==> !FallsBelow(CodeStatus(types, base, i), CodeIso(types, base, i), types[i])
  }

  lemma {:induction false} IndexedUntil(types: seq<CharType>, base: int, n: nat)
    requires n <= |types| && 0 <= base <= 1 && StaysIndexed(types, base, n)
    ensures Indexed(CodeStatus(types, base, n), CodeIso(types, base, n))
  {
    hide CodeStep, IsoStep, FallsBelow, CodeStatus, CodeIso, Indexed, Status.Bounded, ParagraphEnd;
    IsoStarts(types, base);
    if n > 0 {
      IndexedUntil(types, base, n - 1);
      CodeStatusBounded(types, base, n - 1);
      IsoNext(types, base, n - 1);
      StepIndexed(CodeStatus(types, base, n - 1), CodeIso(types, base, n - 1), types[n - 1], CodeRtl(types, n - 1));
    } else {
      IndexedStarts(base);
    }
  }

  lemma IndexedStarts(base: int)
    ensures Indexed(Initial(base), Iso(0, []))
  {
  }

  lemma {:induction false} FirstFall(types: seq<CharType>, base: int, n: nat) returns (i: nat)
    requires n <= |types| && !StaysIndexed(types, base, n)
    ensures i < n && StaysIndexed(types, base, i) && FallsBelow(CodeStatus(types, base, i), CodeIso(types, base, i), types[i])
  {
    hide FallsBelow, CodeStatus, CodeIso;
    if StaysIndexed(types, base, n - 1) {
      i := n - 1;
    } else {
      i := FirstFall(types, base, n - 1);
    }
  }

  /** The isolate levels of the first n characters index an array of MAX_EXPLICIT_LEVEL entries if and only if no
      PDI among them closes an isolate that was never pushed while level 0 is saved below all statuses. */
  lemma IndexedIff(types: seq<CharType>, base: int, n: nat)
    requires n <= |types| && 0 <= base <= 1
    ensures StaysIndexed(types, base, n) <==>
            forall x :: 0 <= x < n ==> 0 <= IsolateLevelOf(types, base, x) < MAX_EXPLICIT_LEVEL
  {
    hide FallsBelow, CodeIso, CodeStatus, CodeStep, IsoStep;
    if StaysIndexed(types, base, n) {
      forall x | 0 <= x < n
        ensures 0 <= IsolateLevelOf(types, base, x) < MAX_EXPLICIT_LEVEL
      {
        IndexedUntil(types, base, x);
        IndexedUntil(types, base, x + 1);
      }
    } else {
      var i := FirstFall(types, base, n);
      IndexedUntil(types, base, i);
      CodeStatusBounded(types, base, i);
      StepIndexed(CodeStatus(types, base, i), CodeIso(types, base, i), types[i], CodeRtl(types, i));
      assert types[i].PDI? by { FallsAtPdi(CodeStatus(types, base, i), CodeIso(types, base, i), types[i]); }
      assert IsolateLevelOf(types, base, i) == -1 by { IsoNext(types, base, i); }
    }
  }

  lemma FallsAtPdi(s: Status, v: Iso, t: CharType)
    requires FallsBelow(s, v, t)
    ensures t.PDI?
  {
  }

  lemma IsoNext(types: seq<CharType>, base: int, i: nat)
    requires i < |types|
    ensures CodeStatus(types, base, i + 1) == CodeStep(CodeStatus(types, base, i), types[i], CodeRtl(types, i))
    ensures CodeIso(types, base, i + 1) == IsoStep(CodeStatus(types, base, i), CodeIso(types, base, i), types[i], CodeRtl(types, i))
  {
  }

  lemma IsoStarts(types: seq<CharType>, base: int)
    ensures CodeStatus(types, base, 0) == Initial(base) && CodeIso(types, base, 0) == Iso(0, [])
  {
  }

  lemma {:induction false} NoIsolatesYet(types: seq<CharType>, base: int, n: nat)
    requires n <= |types| && forall i :: 0 <= i < n ==> !types[i].IsIsolate()
    ensures var s, v := CodeStatus(types, base, n), CodeIso(types, base, n);
            && (forall i :: 0 <= i < |s.stack| ==> !s.stack[i].isolate) && s.validIsolates == 0
            && v.level == 0 && forall k :: 0 <= k < |v.saved| ==> v.saved[k] == 0
  {
    hide CodeStep, IsoStep, CodeStatus, CodeIso;
    IsoStarts(types, base);
    if n > 0 {
      var p := n - 1;
      NoIsolatesYet(types, base, p);
      IsoNext(types, base, p);
      NoIsolateStep(CodeStatus(types, base, p), CodeIso(types, base, p), types[p], CodeRtl(types, p));
    }
  }

  lemma NoIsolateStep(s: Status, v: Iso, t: CharType, rtl: bool)
    requires Fitting(s, v) && !t.IsIsolate() && (forall i :: 0 <= i < |s.stack| ==> !s.stack[i].isolate) && s.validIsolates == 0
    requires v.level == 0 && forall k :: 0 <= k < |v.saved| ==> v.saved[k] == 0
    ensures var n, w := CodeStep(s, t, rtl), IsoStep(s, v, t, rtl);
            && (forall i :: 0 <= i < |n.stack| ==> !n.stack[i].isolate) && n.validIsolates == 0
            && w.level == 0 && forall k :: 0 <= k < |w.saved| ==> w.saved[k] == 0
  {
    hide LeastAbove;
  }

  /** Nested embeddings up to level 124, one that is rejected, an initiator and its PDI: the initiator is accepted
      and not pushed, and the isolate level of the PDI is -1. */
  lemma IsolateLevelBelowZero()
    ensures var types := NestedEmbeddings(124) + [LRE, RLI, PDI];
            OneParagraph(types) && IsolateLevelOf(types, 0, 126) == -1
  {
    hide NestedEmbeddings, SpecStatus, CodeStatus, SpecRtl, CodeRtl, AtLevel, ParagraphEnd, CodeIso;
    var types := NestedEmbeddings(124) + [LRE, RLI, PDI];
    NestedHasNoBs(124, types);
    NestedStatus(types, 124);
    NestedNoIsolates(124);
    assert forall i :: 0 <= i < 124 ==> types[i] == NestedEmbeddings(124)[i];
    NoIsolatesYet(types, 0, 124);
    BelowZero(types, 124);
  }

  lemma {:induction false} NestedNoIsolates(n: nat)
    ensures forall i :: 0 <= i < n ==> !NestedEmbeddings(n)[i].IsIsolate()
  {
    if n > 0 { NestedNoIsolates(n - 1); }
  }

  lemma BelowZero(types: seq<CharType>, n: nat)
    requires |types| == n + 3 && types[n] == LRE && types[n + 1] == RLI && types[n + 2] == PDI
    requires AtLevel(CodeStatus(types, 0, n), 124, false) && CodeStatus(types, 0, n).validIsolates == 0
    requires var s, v := CodeStatus(types, 0, n), CodeIso(types, 0, n);
             (forall i :: 0 <= i < |s.stack| ==> !s.stack[i].isolate) && v.level == 0 && forall k :: 0 <= k < |v.saved| ==> v.saved[k] == 0
    ensures IsolateLevelOf(types, 0, n + 2) == -1
  {
    hide CodeStatus, CodeIso, CodeRtl, CodeStep, IsoStep;
    var s, v := CodeStatus(types, 0, n), CodeIso(types, 0, n);
    IsoNext(types, 0, n);
    IsoNext(types, 0, n + 1);
    IsoNext(types, 0, n + 2);
    RejectedStep(s, v, CodeRtl(types, n));
    var s1, v1 := CodeStatus(types, 0, n + 1), CodeIso(types, 0, n + 1);
    UnpushedStep(s1, v1, CodeRtl(types, n + 1));
    var s2, v2 := CodeStatus(types, 0, n + 2), CodeIso(types, 0, n + 2);
    CodeStatusBounded(types, 0, n + 2);
    assert FallsBelow(s2, v2, PDI);
    assert Indexed(s2, v2);
    StepIndexed(s2, v2, PDI, CodeRtl(types, n + 2));
  }

  lemma RejectedStep(s: Status, v: Iso, rtl: bool)
    requires AtLevel(s, 124, false) && Fitting(s, v)
    ensures CodeStep(s, LRE, rtl) == s.(overflowEmbeddings := 1) && IsoStep(s, v, LRE, rtl) == v
  {
  }

  lemma UnpushedStep(s: Status, v: Iso, rtl: bool)
    requires |s.stack| > 0 && s.Top().level == 124 && s.overflowEmbeddings == 1 && s.overflowIsolates == 0 && s.validIsolates == 0
    requires Fitting(s, v) && v.level == 0
    ensures var n := CodeStep(s, RLI, rtl);
            && |n.stack| == |s.stack| && n.validIsolates == 1 && n.overflowIsolates == 0
            && (forall i :: 0 <= i < |s.stack| ==> n.stack[i].isolate == s.stack[i].isolate)
    ensures IsoStep(s, v, RLI, rtl) == v.(level := 1)
  {
  }

  // ---------------------------------------------------------------- when it is the nesting of isolates

  /** BD9: the initiators before n that no PDI has closed yet, the innermost last. */
  function OpenIsolates(types: seq<CharType>, n: nat): (open: seq<nat>)
    requires n <= |types|
    ensures forall k :: 0 <= k < |open| ==> open[k] < n && IsInitiator(types[open[k]])
    ensures forall k, l :: 0 <= k < l < |open| ==> open[k] < open[l]
  {
    if n == 0 then []
    else
      var open := OpenIsolates(types, n - 1);
      if IsInitiator(types[n - 1]) then open + [n - 1]
      else if types[n - 1].PDI? && |open| > 0 then open[..|open| - 1]
      else open
  }

  /** How many isolates character x is in; an initiator and its PDI are outside of theirs. */
  function Depth(types: seq<CharType>, x: nat): nat
    requires x < |types|
  {
    |OpenIsolates(types, if types[x].PDI? then x + 1 else x)|
  }

  /** The initiator at i gets an entry on the stack. */
  predicate Accepted(types: seq<CharType>, base: int, i: nat)
    requires i < |types|
  {
    |CodeStatus(types, base, i + 1).stack| == |CodeStatus(types, base, i).stack| + 1
  }

  /** No initiator is rejected among the first n characters, and isolates nest at most 124 deep. */
  ghost predicate NoneRejected(types: seq<CharType>, base: int, n: nat)
    requires n <= |types|
  {
    forall i :: 0 <= i < n && IsInitiator(types[i]) ==> Accepted(types, base, i) && |OpenIsolates(types, i)| < MAX_ISOLATE_LEVEL
  }

  /** How many of the first n entries come from an isolate. */
  function IsolatesIn(stack: seq<Entry>, n: nat): nat
    requires n <= |stack|
  {
    if n == 0 then 0 else IsolatesIn(stack, n - 1) + (if stack[n - 1].isolate then 1 else 0)
  }

  lemma {:induction false} IsolatesSame(a: seq<Entry>, b: seq<Entry>, n: nat)
    requires n <= |a| && n <= |b| && forall k :: 0 <= k < n ==> a[k].isolate == b[k].isolate
    ensures IsolatesIn(a, n) == IsolatesIn(b, n)
  {
    if n > 0 { IsolatesSame(a, b, n - 1); }
  }

  /** The isolate levels count the isolates on the stack. */
  ghost predicate Counted(s: Status, v: Iso) {
    && Fitting(s, v) && v.level == IsolatesIn(s.stack, |s.stack|)
    && forall k, n :: 0 <= k < |v.saved| && n == k + 2 ==> v.saved[k] == IsolatesIn(s.stack, n)
  }

  lemma PushCounted(s: Status, e: Entry, v: Iso)
    requires Counted(s, v)
    ensures var up := v.level + (if e.isolate then 1 else 0); Counted(s.Push(e), Iso(up, v.saved + [up]))
  {
    var n := s.Push(e);
    hide IsolatesIn;
    forall k | 0 <= k <= |s.stack|
      ensures IsolatesIn(n.stack, k) == IsolatesIn(s.stack, k)
    {
      IsolatesSame(n.stack, s.stack, k);
    }
    LastIsolate(n.stack);
  }

  lemma LastIsolate(stack: seq<Entry>)
    requires |stack| > 0
    ensures var n := |stack| - 1; IsolatesIn(stack, |stack|) == IsolatesIn(stack, n) + (if stack[n].isolate then 1 else 0)
  {
  }

  lemma PopCounted(s: Status, v: Iso)
    requires Counted(s, v) && |s.stack| > 1
    ensures var j, below := |v.saved| - 1, IsolatesIn(s.Pop().stack, |s.stack| - 1);
            && v.saved[j] == v.level == below + (if s.Top().isolate then 1 else 0)
            && Counted(s.Pop(), Iso(below, v.saved[..j]))
  {
    var n := s.Pop();
    hide IsolatesIn;
    forall k | 0 <= k < |s.stack|
      ensures IsolatesIn(n.stack, k) == IsolatesIn(s.stack, k)
    {
      IsolatesSame(n.stack, s.stack, k);
    }
    LastIsolate(s.stack);
  }

  lemma {:induction false} PopEmbeddingsCounted(s: Status, v: Iso)
    requires Counted(s, v)
    ensures var r, o := IsoPopEmbeddings(s, v), CodePopEmbeddings(s);
            Counted(o, r) && r.level == v.level && (|o.stack| > 1 ==> o.Top().isolate) && o.stack[0] == s.stack[0]
    decreases |s.stack|, s.overflowEmbeddings
  {
    hide IsolatesIn;
    if |s.stack| > 1 && !s.Top().isolate {
      PopCounted(s, v);
      PopEmbeddingsCounted(CodePop(s), IsoPop(s, v));
    }
  }

  /** The isolate at h is the innermost one: the loop of X6a stops there. */
  lemma {:induction false} PopEmbeddingsTo(s: Status, h: nat)
    requires 1 <= h < |s.stack| && s.stack[h].isolate && forall k :: h < k < |s.stack| ==> !s.stack[k].isolate
    ensures CodePopEmbeddings(s).stack == s.stack[..h + 1]
    decreases |s.stack|, s.overflowEmbeddings
  {
    if !s.Top().isolate {
      var c := CodePop(s);
      PopEmbeddingsTo(c, h);
      assert c.stack[..h + 1] == s.stack[..h + 1];
    } else {
      assert h == |s.stack| - 1;
    }
  }

  /** The initiators still open, and the entries they have on the stack. */
  ghost predicate OnStack(types: seq<CharType>, base: int, n: nat)
    requires n <= |types|
  {
    Stands(types, base, OpenIsolates(types, n), CodeStatus(types, base, n).stack)
  }

  ghost predicate Stands(types: seq<CharType>, base: int, open: seq<nat>, stack: seq<Entry>)
    requires forall m :: 0 <= m < |open| ==> open[m] <= |types|
  {
    && (forall m :: 0 <= m < |open| ==> EntryOf(types, base, open[m], stack) && |OpenIsolates(types, open[m])| == m)
    && (forall m, l :: 0 <= m < l < |open| ==> Height(types, base, open[m]) < Height(types, base, open[l]))
    && (forall k :: 0 <= k < |stack| && stack[k].isolate ==> exists m :: 0 <= m < |open| && Height(types, base, open[m]) == k)
  }

  ghost function Height(types: seq<CharType>, base: int, i: nat): nat
    requires i <= |types|
  {
    |CodeStatus(types, base, i).stack|
  }

  /** The entry of the initiator at i stands on the statuses that there were before it. */
  ghost predicate EntryOf(types: seq<CharType>, base: int, i: nat, stack: seq<Entry>)
    requires i <= |types|
  {
    var below := CodeStatus(types, base, i).stack;
    |below| < |stack| && stack[..|below|] == below && stack[|below|].isolate
  }

  /** What holds before character n if no initiator was rejected. */
  ghost predicate Tracked(types: seq<CharType>, base: int, n: nat)
    requires n <= |types|
  {
    var s, v, open := CodeStatus(types, base, n), CodeIso(types, base, n), OpenIsolates(types, n);
    && Counted(s, v) && s.overflowIsolates == 0 && s.validIsolates == |open| == v.level
    && OnStack(types, base, n)
  }

  lemma CountedStep(s: Status, v: Iso, t: CharType, rtl: bool)
    requires Counted(s, v) && s.overflowIsolates == 0 && s.validIsolates == v.level && !s.stack[0].isolate
    requires IsInitiator(t) ==> |CodeStep(s, t, rtl).stack| == |s.stack| + 1 && v.level < MAX_ISOLATE_LEVEL
    ensures var n, w := CodeStep(s, t, rtl), IsoStep(s, v, t, rtl);
            && Counted(n, w) && n.overflowIsolates == 0 && n.validIsolates == w.level
            && w.level == v.level + (if IsInitiator(t) then 1 else if t.PDI? && v.level > 0 then -1 else 0)
  {
    hide CodePopEmbeddings, IsoPopEmbeddings, IsolatesIn, Counted;
    CountedMeans(s, v);
    var n := CodeStep(s, t, rtl);
    var e := Asked(s, t, rtl);
    if IsEmbedding(t) {
      PushCounted(s, e, v);
      if n.stack == s.stack { CountedSame(s, v, n); }
    } else if t.PDF? {
      if |s.stack| > 1 { PopCounted(s, v); }
      if n.stack == s.stack { CountedSame(s, v, n); }
    } else if t.PDI? {
      if v.level > 0 { CountedPdi(s, v, rtl); }
    } else if IsInitiator(t) {
      PushCounted(s, e, v);
      CountedSame(s.Push(e), IsoStep(s, v, t, rtl), n);
    }
  }

  lemma CountedMeans(s: Status, v: Iso)
    requires Counted(s, v)
    ensures Fitting(s, v) && v.level == IsolatesIn(s.stack, |s.stack|)
  {
  }

  lemma CountedSame(s: Status, v: Iso, n: Status)
    requires Counted(s, v) && |n.stack| == |s.stack| && forall k :: 0 <= k < |s.stack| ==> n.stack[k].isolate == s.stack[k].isolate
    ensures Counted(n, v)
  {
    hide IsolatesIn;
    forall k | 0 <= k <= |s.stack|
      ensures IsolatesIn(n.stack, k) == IsolatesIn(s.stack, k)
    {
      IsolatesSame(n.stack, s.stack, k);
    }
  }

  lemma NoneIn(stack: seq<Entry>)
    ensures IsolatesIn(stack, 0) == 0
  {
  }

  lemma CountedPdi(s: Status, v: Iso, rtl: bool)
    requires Counted(s, v) && s.overflowIsolates == 0 && s.validIsolates == v.level > 0 && !s.stack[0].isolate
    ensures var n, w := CodeStep(s, PDI, rtl), IsoStep(s, v, PDI, rtl);
            Counted(n, w) && n.overflowIsolates == 0 && n.validIsolates == w.level == v.level - 1
  {
    hide CodePopEmbeddings, IsoPopEmbeddings, IsolatesIn, Counted;
    CountedMeans(s, v);
    PopEmbeddingsCounted(s, v);
    PopEmbeddingsCounters(s);
    var o, r := CodePopEmbeddings(s), IsoPopEmbeddings(s, v);
    CountedMeans(o, r);
    var open := o.(overflowEmbeddings := 0);
    CountedSame(o, r, open);
    if |o.stack| == 1 { LastIsolate(o.stack); NoneIn(o.stack); }
    PopCounted(open, r);
    CountedSame(open.Pop(), IsoStep(s, v, PDI, rtl), CodeStep(s, PDI, rtl));
  }

  // ---------------------------------------------------------------- the entries of the open isolates

  lemma OpenNext(types: seq<CharType>, n: nat)
    requires n < |types|
    ensures var open := OpenIsolates(types, n);
            OpenIsolates(types, n + 1) ==
            if IsInitiator(types[n]) then open + [n]
            else if types[n].PDI? && |open| > 0 then open[..|open| - 1]
            else open
  {
  }

  /** The entries of open isolates outlive any change of the stack above them. */
  lemma EntryKept(types: seq<CharType>, base: int, i: nat, stack: seq<Entry>, next: seq<Entry>, h: nat)
    requires i <= |types| && EntryOf(types, base, i, stack) && Height(types, base, i) < h <= |stack| && h <= |next|
    requires forall k :: 0 <= k < h ==> next[k] == stack[k]
    ensures EntryOf(types, base, i, next)
  {
    hide CodeStatus;
    var below := CodeStatus(types, base, i).stack;
    assert next[..|below|] == stack[..|below|];
  }

  /** A step that leaves the first h entries as they are and has no isolate above them. */
  lemma SameOpenOnStack(types: seq<CharType>, base: int, n: nat, h: nat)
    requires n < |types| && OnStack(types, base, n) && OpenIsolates(types, n + 1) == OpenIsolates(types, n)
    requires var stack, next := CodeStatus(types, base, n).stack, CodeStatus(types, base, n + 1).stack;
             && h <= |stack| && h <= |next| && (forall k :: 0 <= k < h ==> next[k] == stack[k])
             && (forall k :: h <= k < |stack| ==> !stack[k].isolate) && (forall k :: h <= k < |next| ==> !next[k].isolate)
    ensures OnStack(types, base, n + 1)
  {
    hide CodeStatus, OpenIsolates, EntryOf, Height;
    var stack, next := CodeStatus(types, base, n).stack, CodeStatus(types, base, n + 1).stack;
    var open := OpenIsolates(types, n);
    forall m | 0 <= m < |open|
      ensures EntryOf(types, base, open[m], next)
    {
      EntryIsolate(types, base, open[m], stack);
      EntryKept(types, base, open[m], stack, next, h);
    }
    forall k | 0 <= k < |next| && next[k].isolate
      ensures exists m :: 0 <= m < |open| && Height(types, base, open[m]) == k
    {
      assert k < h && stack[k].isolate;
    }
  }

  lemma EntryIsolate(types: seq<CharType>, base: int, i: nat, stack: seq<Entry>)
    requires i <= |types| && EntryOf(types, base, i, stack)
    ensures Height(types, base, i) < |stack| && stack[Height(types, base, i)].isolate
  {
  }

  lemma PushedOnStack(types: seq<CharType>, base: int, n: nat)
    requires n < |types| && OnStack(types, base, n) && OpenIsolates(types, n + 1) == OpenIsolates(types, n) + [n]
    requires var stack, next := CodeStatus(types, base, n).stack, CodeStatus(types, base, n + 1).stack;
             |next| == |stack| + 1 && next[..|stack|] == stack && next[|stack|].isolate
    ensures OnStack(types, base, n + 1)
  {
    hide CodeStatus, OpenIsolates, EntryOf;
    var stack, next := CodeStatus(types, base, n).stack, CodeStatus(types, base, n + 1).stack;
    var open, more := OpenIsolates(types, n), OpenIsolates(types, n + 1);
    forall m | 0 <= m < |more|
      ensures EntryOf(types, base, more[m], next) && |OpenIsolates(types, more[m])| == m
      ensures m < |open| ==> Height(types, base, more[m]) < Height(types, base, n)
    {
      if m < |open| {
        EntryIsolate(types, base, open[m], stack);
        EntryKept(types, base, open[m], stack, next, |stack|);
      } else {
        EntryAt(types, base, n, next);
      }
    }
    forall k | 0 <= k < |next| && next[k].isolate
      ensures exists m :: 0 <= m < |more| && Height(types, base, more[m]) == k
    {
      if k < |stack| {
        assert stack[k].isolate;
        var m :| 0 <= m < |open| && Height(types, base, open[m]) == k;
        assert more[m] == open[m];
      } else {
        assert more[|open|] == n;
      }
    }
  }

  lemma EntryAt(types: seq<CharType>, base: int, n: nat, next: seq<Entry>)
    requires n <= |types|
    requires var stack := CodeStatus(types, base, n).stack; |next| == |stack| + 1 && next[..|stack|] == stack && next[|stack|].isolate
    ensures EntryOf(types, base, n, next)
  {
  }

  lemma ClosedEntries(types: seq<CharType>, base: int, n: nat, open: seq<nat>)
    requires n < |types| && (forall m :: 0 <= m < |open| ==> open[m] <= |types|) && |open| > 0
    requires Stands(types, base, open, CodeStatus(types, base, n).stack)
    requires CodeStatus(types, base, n + 1).stack == CodeStatus(types, base, open[|open| - 1]).stack
    ensures Stands(types, base, open[..|open| - 1], CodeStatus(types, base, n + 1).stack)
  {
    hide CodeStatus, OpenIsolates, EntryOf, Height;
    var stack, next := CodeStatus(types, base, n).stack, CodeStatus(types, base, n + 1).stack;
    var last := |open| - 1;
    var more := open[..last];
    EntryBelow(types, base, open[last], stack);
    forall m | 0 <= m < last
      ensures EntryOf(types, base, more[m], next)
    {
      EntryKept(types, base, open[m], stack, next, |next|);
    }
    forall k | 0 <= k < |next| && next[k].isolate
      ensures exists m :: 0 <= m < last && Height(types, base, more[m]) == k
    {
      assert stack[k] == next[k];
      var m :| 0 <= m < |open| && Height(types, base, open[m]) == k;
      assert more[m] == open[m];
    }
  }

  /** A PDI takes the stack back to what it was before the innermost open initiator. */
  lemma ClosedOnStack(types: seq<CharType>, base: int, n: nat)
    requires n < |types| && OnStack(types, base, n) && types[n].PDI? && |OpenIsolates(types, n)| > 0
    requires var open := OpenIsolates(types, n);
             CodeStatus(types, base, n + 1).stack == CodeStatus(types, base, open[|open| - 1]).stack
    ensures OnStack(types, base, n + 1)
  {
    hide CodeStatus, OpenIsolates, EntryOf, Height, Stands;
    OpenNext(types, n);
    ClosedEntries(types, base, n, OpenIsolates(types, n));
  }

  lemma EntryBelow(types: seq<CharType>, base: int, i: nat, stack: seq<Entry>)
    requires i <= |types| && EntryOf(types, base, i, stack)
    ensures var below := CodeStatus(types, base, i).stack;
            Height(types, base, i) == |below| < |stack| && forall k :: 0 <= k < |below| ==> below[k] == stack[k]
  {
    hide CodeStatus;
    var below := CodeStatus(types, base, i).stack;
    forall k | 0 <= k < |below|
      ensures below[k] == stack[k]
    {
      assert stack[..|below|][k] == stack[k];
    }
  }

  /** X6a where nothing was rejected. */
  lemma PdiStack(types: seq<CharType>, base: int, n: nat)
    requires n < |types| && Tracked(types, base, n) && types[n].PDI? && |OpenIsolates(types, n)| > 0
    ensures var open := OpenIsolates(types, n);
            CodeStatus(types, base, n + 1).stack == CodeStatus(types, base, open[|open| - 1]).stack
  {
    hide CodeStatus, OpenIsolates, CodePopEmbeddings, CodeIso, Counted, EntryOf, Stands, Height, Tracked, CodeStep, IsoStep;
    IsoNext(types, base, n);
    TrackedMeans(types, base, n);
    var s := CodeStatus(types, base, n);
    var open := OpenIsolates(types, n);
    var h := Innermost(types, base, open, s.stack);
    PdiPops(s, h, CodeRtl(types, n));
  }

  lemma PdiPops(s: Status, h: nat, rtl: bool)
    requires 1 <= h < |s.stack| && s.stack[h].isolate && (forall k :: h < k < |s.stack| ==> !s.stack[k].isolate)
    requires s.overflowIsolates == 0 && s.validIsolates > 0
    ensures CodeStep(s, PDI, rtl).stack == s.stack[..h]
  {
    hide CodePopEmbeddings;
    PopEmbeddingsTo(s, h);
    var o := CodePopEmbeddings(s);
    assert o.stack[..h] == s.stack[..h];
  }

  lemma Innermost(types: seq<CharType>, base: int, open: seq<nat>, stack: seq<Entry>) returns (h: nat)
    requires (forall m :: 0 <= m < |open| ==> open[m] <= |types|) && |open| > 0 && Stands(types, base, open, stack)
    ensures 1 <= h < |stack| && stack[h].isolate && forall k :: h < k < |stack| ==> !stack[k].isolate
    ensures stack[..h] == CodeStatus(types, base, open[|open| - 1]).stack
  {
    hide CodeStatus, EntryOf, Height;
    var last := |open| - 1;
    EntryBelow(types, base, open[last], stack);
    EntryIsolate(types, base, open[last], stack);
    HeightPositive(types, base, open[last]);
    h := Height(types, base, open[last]);
  }

  lemma HeightPositive(types: seq<CharType>, base: int, i: nat)
    requires i <= |types|
    ensures Height(types, base, i) >= 1
  {
  }

  lemma TrackedStarts(types: seq<CharType>, base: int)
    ensures Tracked(types, base, 0)
  {
    assert OpenIsolates(types, 0) == [];
  }

  lemma TrackedMeans(types: seq<CharType>, base: int, n: nat)
    requires n <= |types| && Tracked(types, base, n)
    ensures var s, v, open := CodeStatus(types, base, n), CodeIso(types, base, n), OpenIsolates(types, n);
            && Counted(s, v) && s.overflowIsolates == 0 && s.validIsolates == |open| == v.level
            && OnStack(types, base, n)
  {
  }

  lemma TrackedIs(types: seq<CharType>, base: int, n: nat)
    requires n <= |types|
    requires var s, v, open := CodeStatus(types, base, n), CodeIso(types, base, n), OpenIsolates(types, n);
             && Counted(s, v) && s.overflowIsolates == 0 && s.validIsolates == |open| == v.level
             && OnStack(types, base, n)
    ensures Tracked(types, base, n)
  {
  }

  lemma {:induction false} TrackedAll(types: seq<CharType>, base: int, n: nat)
    requires n <= |types| && 0 <= base <= 1 && NoneRejected(types, base, n)
    ensures Tracked(types, base, n)
  {
    hide CodeStatus, CodeIso, OpenIsolates, Counted, OnStack, CodeStep, IsoStep, Tracked;
    if n == 0 {
      TrackedStarts(types, base);
    } else {
      var p := n - 1;
      TrackedAll(types, base, p);
      TrackedMeans(types, base, p);
      TrackedCounts(types, base, p);
      TrackedStack(types, base, p);
      TrackedIs(types, base, n);
    }
  }

  lemma TrackedCounts(types: seq<CharType>, base: int, p: nat)
    requires p < |types| && 0 <= base <= 1 && NoneRejected(types, base, p + 1) && Tracked(types, base, p)
    ensures var s, v, open := CodeStatus(types, base, p + 1), CodeIso(types, base, p + 1), OpenIsolates(types, p + 1);
            Counted(s, v) && s.overflowIsolates == 0 && s.validIsolates == |open| == v.level
  {
    hide CodeStatus, CodeIso, OpenIsolates, Counted, OnStack, CodeStep, IsoStep;
    IsoNext(types, base, p);
    OpenNext(types, p);
    CodeStatusBounded(types, base, p);
    FirstNotIsolate(CodeStatus(types, base, p));
    CountedStep(CodeStatus(types, base, p), CodeIso(types, base, p), types[p], CodeRtl(types, p));
  }

  lemma FirstNotIsolate(s: Status)
    requires s.Bounded()
    ensures |s.stack| > 0 && !s.stack[0].isolate
  {
  }

  lemma TrackedStack(types: seq<CharType>, base: int, p: nat)
    requires p < |types| && NoneRejected(types, base, p + 1) && Tracked(types, base, p)
    ensures OnStack(types, base, p + 1)
  {
    hide CodeStatus, CodeIso, OpenIsolates, Counted, OnStack, CodeStep, IsoStep;
    OpenNext(types, p);
    IsoNext(types, base, p);
    var open := OpenIsolates(types, p);
    if IsInitiator(types[p]) {
      AcceptedStep(CodeStatus(types, base, p), types[p], CodeRtl(types, p));
      PushedOnStack(types, base, p);
    } else if types[p].PDI? && |open| > 0 {
      PdiStack(types, base, p);
      ClosedOnStack(types, base, p);
    } else {
      OtherStep(CodeStatus(types, base, p), types[p], CodeRtl(types, p));
      var h := KeptHeight(CodeStatus(types, base, p).stack, CodeStatus(types, base, p + 1).stack);
      SameOpenOnStack(types, base, p, h);
    }
  }

  lemma AcceptedStep(s: Status, t: CharType, rtl: bool)
    requires |s.stack| > 0 && IsInitiator(t) && |CodeStep(s, t, rtl).stack| == |s.stack| + 1
    ensures var next := CodeStep(s, t, rtl).stack;
            next[..|s.stack|] == s.stack && next[|s.stack|].isolate && next[|s.stack|].level == Asked(s, t, rtl).level > s.Top().level
  {
  }

  /** No isolate comes or goes. */
  ghost predicate Alike(stack: seq<Entry>, next: seq<Entry>) {
    || next == stack
    || (|next| == |stack| + 1 && next[..|stack|] == stack && !next[|stack|].isolate)
    || (|stack| == |next| + 1 && stack[..|next|] == next && !stack[|next|].isolate)
  }

  lemma OtherStep(s: Status, t: CharType, rtl: bool)
    requires |s.stack| > 0 && !IsInitiator(t) && (t.PDI? ==> s.overflowIsolates > 0 || s.validIsolates == 0)
    ensures Alike(s.stack, CodeStep(s, t, rtl).stack)
  {
  }

  lemma KeptHeight(stack: seq<Entry>, next: seq<Entry>) returns (h: nat)
    requires Alike(stack, next)
    ensures h <= |stack| && h <= |next| && (forall k :: 0 <= k < h ==> next[k] == stack[k])
    ensures (forall k :: h <= k < |stack| ==> !stack[k].isolate) && (forall k :: h <= k < |next| ==> !next[k].isolate)
  {
    if next == stack {
      h := |stack|;
    } else if |next| == |stack| + 1 {
      h := |stack|;
      assert forall k :: 0 <= k < h ==> next[k] == next[..h][k];
    } else {
      h := |next|;
      assert forall k :: 0 <= k < h ==> stack[k] == stack[..h][k];
    }
  }

  /** Where no initiator is rejected, the isolate level of a character is its nesting. */
  lemma IsolateLevelIsDepth(types: seq<CharType>, base: int, x: nat)
    requires x < |types| && 0 <= base <= 1 && NoneRejected(types, base, x + 1)
    ensures IsolateLevelOf(types, base, x) == Depth(types, x) < MAX_EXPLICIT_LEVEL
  {
    hide CodeStatus, CodeIso, OpenIsolates, Counted, OnStack;
    TrackedAll(types, base, x);
    TrackedAll(types, base, x + 1);
    DepthBound(types, base, x);
    DepthBound(types, base, x + 1);
  }

  lemma {:induction false} DepthBound(types: seq<CharType>, base: int, n: nat)
    requires n <= |types| && NoneRejected(types, base, n)
    ensures |OpenIsolates(types, n)| <= MAX_ISOLATE_LEVEL
  {
    if n > 0 { DepthBound(types, base, n - 1); }
  }

  // ---------------------------------------------------------------- inside an isolate

  /** An initiator that is open at n was open all the time since. */
  lemma {:induction false} StaysOpen(types: seq<CharType>, n: nat, m: nat, z: nat)
    requires n <= |types| && m < |OpenIsolates(types, n)| && OpenIsolates(types, n)[m] < z <= n
    ensures m < |OpenIsolates(types, z)| && OpenIsolates(types, z)[m] == OpenIsolates(types, n)[m]
    decreases n
  {
    if z < n {
      OpenNext(types, n - 1);
      StaysOpen(types, n - 1, m, z);
    }
  }

  /** The characters behind an open initiator: deeper isolate levels, higher levels. */
  lemma Inside(types: seq<CharType>, base: int, n: nat, m: nat, z: nat)
    requires n <= |types| && 0 <= base <= 1 && NoneRejected(types, base, n)
    requires m < |OpenIsolates(types, n)| && OpenIsolates(types, n)[m] < z < n
    ensures IsolateLevelOf(types, base, z) > m
    ensures var j := OpenIsolates(types, n)[m];
            && CodeStatus(types, base, z).Top().level > CodeStatus(types, base, j).Top().level
            && CodeStatus(types, base, z + 1).Top().level > CodeStatus(types, base, j).Top().level
  {
    hide CodeStatus, CodeIso, OpenIsolates, Counted, OnStack, Tracked;
    StaysOpen(types, n, m, z);
    StaysOpen(types, n, m, z + 1);
    TrackedAll(types, base, z);
    TrackedAll(types, base, z + 1);
    TrackedMeans(types, base, z);
    TrackedMeans(types, base, z + 1);
    HigherInside(types, base, z, m);
    HigherInside(types, base, z + 1, m);
  }

  lemma HigherInside(types: seq<CharType>, base: int, n: nat, m: nat)
    requires n <= |types| && 0 <= base <= 1 && m < |OpenIsolates(types, n)| && OnStack(types, base, n)
    ensures CodeStatus(types, base, n).Top().level > CodeStatus(types, base, OpenIsolates(types, n)[m]).Top().level
  {
    hide CodeStatus, OpenIsolates, Height;
    CodeStatusBounded(types, base, n);
    var s := CodeStatus(types, base, n);
    var below := CodeStatus(types, base, OpenIsolates(types, n)[m]);
    var h := |below.stack|;
    assert EntryOf(types, base, OpenIsolates(types, n)[m], s.stack);
    assert below.stack == s.stack[..h];
    HigherAbove(s, h);
  }

  lemma HigherAbove(s: Status, h: nat)
    requires s.Bounded() && 1 <= h < |s.stack|
    ensures s.Top().level > s.stack[h - 1].level
  {
    var j := h - 1;
    assert s.stack[j].level < s.stack[|s.stack| - 1].level;
  }

  /** A PDI that closes an isolate has the level and the isolate level of the initiator. */
  lemma ClosesAt(types: seq<CharType>, base: int, y: nat)
    requires y < |types| && 0 <= base <= 1 && NoneRejected(types, base, y + 1) && types[y].PDI? && |OpenIsolates(types, y)| > 0
    ensures var open := OpenIsolates(types, y);
            var j := open[|open| - 1];
            && CodeStatus(types, base, y + 1).Top() == CodeStatus(types, base, j).Top()
            && IsolateLevelOf(types, base, y) == IsolateLevelOf(types, base, j) == |open| - 1
  {
    hide CodeStatus, CodeIso, OpenIsolates, Counted, Tracked;
    var open := OpenIsolates(types, y);
    var last := |open| - 1;
    TrackedAll(types, base, y);
    PdiStack(types, base, y);
    IsolateLevelIsDepth(types, base, y);
    IsolateLevelIsDepth(types, base, open[last]);
    OpenNext(types, y);
    TrackedMeans(types, base, y);
    OpenDepth(types, base, y, last);
  }

  lemma OpenDepth(types: seq<CharType>, base: int, n: nat, m: nat)
    requires n <= |types| && OnStack(types, base, n) && m < |OpenIsolates(types, n)|
    ensures |OpenIsolates(types, OpenIsolates(types, n)[m])| == m
  {
    hide CodeStatus, OpenIsolates, Height, EntryOf;
  }
}
