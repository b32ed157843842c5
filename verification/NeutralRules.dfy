/** Rules N1 and N2 of UAX #9 for whole stretches of neutrals in an isolating run sequence, and the proof that the
    run-wise loop of 3rd/fribidi/fribidi-bidi.c follows them. */
module NeutralRules {
  import opened BidiTypes
  import opened RunList
  import opened Resolve
  import opened Sequences
  import opened Neutrals

  // ---------------------------------------------------------------- the rules

  /** The strong type before the stretch of neutrals that run i is in, numbers being R; sos at the start. */
  /** N1: numbers count as R. */
  function Side(t: CharType): CharType { if t == EN || t == AN then RTL else t }

  function StretchLeft(nodes: seq<Run>, i: nat, base: int): CharType
    requires 1 <= i < |nodes|
    decreases i
  {
    var p := PrevIn(nodes, i);
    if p == 0 then Sos(nodes, i, base)
    else if nodes[p].typ.IsNeutral() then StretchLeft(nodes, p, base)
    else Side(nodes[p].typ)
  }

  /** The strong type after it; eos at the end. */
  function StretchRight(nodes: seq<Run>, i: nat, base: int): CharType
    requires 1 <= i < |nodes|
    decreases |nodes| - i
  {
    var n := NextIn(nodes, i);
    if n == 0 then Eos(nodes, i, base)
    else if nodes[n].typ.IsNeutral() then StretchRight(nodes, n, base)
    else Side(nodes[n].typ)
  }

  /** N1: a stretch between equal directions takes their direction.  N2: any other takes that of its embedding. */
  function StretchType(nodes: seq<Run>, i: nat, base: int): CharType
    requires 1 <= i < |nodes|
  {
    if !nodes[i].typ.IsNeutral() then nodes[i].typ
    else if StretchLeft(nodes, i, base) == StretchRight(nodes, i, base) then StretchLeft(nodes, i, base)
    else LevelToDir(nodes[i].level)
  }

  /** Two neighbours in a stretch see the same on both sides. */
  lemma OneStretch(nodes: seq<Run>, i: nat, base: int)
    requires Nested(nodes) && 1 <= i < |nodes| && PrevIn(nodes, i) > 0 && !nodes[i].typ.BS?
    requires nodes[i].typ.IsNeutral() && nodes[PrevIn(nodes, i)].typ.IsNeutral()
    ensures var p := PrevIn(nodes, i);
            && StretchLeft(nodes, p, base) == StretchLeft(nodes, i, base) && StretchRight(nodes, p, base) == StretchRight(nodes, i, base)
            && StretchType(nodes, p, base) == StretchType(nodes, i, base)
  {
    SequenceLinks(nodes, i);
    hide PrevIn, NextIn, Sos, Eos;
  }

  // ---------------------------------------------------------------- the loop

  /** No two neighbours could be joined, brackets being gone. */
  ghost predicate NeutralsJoined(nodes: seq<Run>) {
    Apart(nodes, |nodes|, true) && forall k :: 1 <= k < |nodes| ==> nodes[k].bracket == NoBracket
  }

  lemma {:induction false} AfterSkips(nodes: seq<Run>, j: nat, q: nat, isolateLevel: int)
    requires 1 <= j <= q < |nodes| && forall k :: j <= k < q ==> nodes[k].isolateLevel > isolateLevel
    requires nodes[q].isolateLevel == isolateLevel && nodes[q].typ.PDI?
    ensures LinkAfter(nodes, j, isolateLevel) == LinkAfter(nodes, q + 1, isolateLevel)
    decreases q - j
  {
    if j < q { AfterSkips(nodes, j + 1, q, isolateLevel); }
  }

  lemma {:induction false} ForwardSkips(nodes: seq<Run>, j: nat, isolateLevel: int)
    requires 1 <= j
    ensures var q := LinkForward(nodes, j, isolateLevel);
            && (q > 0 ==> forall k :: j <= k < q ==> nodes[k].isolateLevel > isolateLevel)
            && (q == 0 ==> LinkAfter(nodes, j, isolateLevel) == 0)
            && (q > 0 && !nodes[q].typ.PDI? ==> LinkAfter(nodes, j, isolateLevel) == q)
    decreases |nodes| - j
  {
    if j < |nodes| { ForwardSkips(nodes, j + 1, isolateLevel); }
  }

  /** Behind the text of an isolate its PDI comes, of the level of the initiator. */
  lemma ReachesPdi(nodes: seq<Run>, i: nat)
    requires Nested(nodes) && 1 <= i && i + 1 < |nodes| && nodes[i + 1].isolateLevel > nodes[i].isolateLevel
    ensures var q := LinkForward(nodes, i + 1, nodes[i].isolateLevel);
            q > 0 ==> q > i + 1 && nodes[q].typ.PDI? && nodes[q].level == nodes[i].level
                      && forall k :: i < k < q ==> nodes[k].isolateLevel > nodes[i].isolateLevel
  {
    ForwardSkips(nodes, i + 1, nodes[i].isolateLevel);
    var q := LinkForward(nodes, i + 1, nodes[i].isolateLevel);
    if q > 0 {
      var j := q - 1;
      StepOf(nodes, j);
      BackTo(nodes, j, i);
      hide LinkForward, LinkBefore, CanOpen;
    }
  }

  lemma {:induction false} BackTo(nodes: seq<Run>, j: nat, i: nat)
    requires 1 <= i <= j < |nodes| && forall k :: i < k <= j ==> nodes[k].isolateLevel > nodes[i].isolateLevel
    ensures LinkBefore(nodes, j, nodes[i].isolateLevel) == i
    decreases j
  {
    if i < j { BackTo(nodes, j - 1, i); }
  }

  /** Forwards the loop sees the end of the stretch: it passes over the PDI of an isolate, and any other neutral would have
      been joined. */
  lemma {:induction false} RightEnd(nodes: seq<Run>, base: int, i: nat)
    requires Nested(nodes) && AtLeast(nodes, base) && NeutralsJoined(nodes)
    requires 1 <= i < |nodes| && nodes[i].typ.IsNeutral() && !nodes[i].typ.BS?
    ensures TypeAfter(nodes, i).NumberToRtl() == StretchRight(nodes, i, base)
    decreases |nodes| - i
  {
    if i + 1 < |nodes| && nodes[i + 1].isolateLevel > nodes[i].isolateLevel {
      ReachesPdi(nodes, i);
      ForwardSkips(nodes, i + 1, nodes[i].isolateLevel);
      var q := LinkForward(nodes, i + 1, nodes[i].isolateLevel);
      if q > 0 {
        AfterSkips(nodes, i + 1, q, nodes[i].isolateLevel);
        RightEnd(nodes, base, q);
        PassesPdi(nodes, base, i, q);
      } else {
        NothingRight(nodes, base, i);
      }
    } else {
      RightBeside(nodes, base, i);
    }
  }

  lemma PassesPdi(nodes: seq<Run>, base: int, i: nat, q: nat)
    requires 1 <= i < q < |nodes| && nodes[i].typ.IsNeutral() && q == LinkForward(nodes, i + 1, nodes[i].isolateLevel)
    requires nodes[q].typ.PDI? && nodes[q].level == nodes[i].level && nodes[q].isolateLevel == nodes[i].isolateLevel
    requires LinkAfter(nodes, i + 1, nodes[i].isolateLevel) == LinkAfter(nodes, q + 1, nodes[i].isolateLevel)
    ensures TypeAfter(nodes, i) == TypeAfter(nodes, q) && StretchRight(nodes, i, base) == StretchRight(nodes, q, base)
  {
    hide LinkAfter, LinkForward, Eos;
  }

  lemma NothingRight(nodes: seq<Run>, base: int, i: nat)
    requires AtLeast(nodes, base) && 1 <= i && i + 1 < |nodes| && nodes[i + 1].isolateLevel > nodes[i].isolateLevel && !nodes[i].typ.BS?
    requires LinkForward(nodes, i + 1, nodes[i].isolateLevel) == 0 == LinkAfter(nodes, i + 1, nodes[i].isolateLevel)
    ensures TypeAfter(nodes, i).NumberToRtl() == StretchRight(nodes, i, base)
  {
  }

  lemma RightBeside(nodes: seq<Run>, base: int, i: nat)
    requires Nested(nodes) && AtLeast(nodes, base) && NeutralsJoined(nodes)
    requires 1 <= i < |nodes| && nodes[i].typ.IsNeutral() && !nodes[i].typ.BS?
    requires i + 1 < |nodes| ==> nodes[i + 1].isolateLevel <= nodes[i].isolateLevel
    ensures TypeAfter(nodes, i).NumberToRtl() == StretchRight(nodes, i, base)
  {
    if i + 1 < |nodes| {
      var j := i + 1;
      StepOf(nodes, i);
      assert ApartAt(nodes, j, true);
    }
  }

  /** Backwards it sees the start of the stretch, or the direction that the part before an isolate has got. */
  lemma LeftEnd(was: seq<Run>, now: seq<Run>, base: int, i: nat)
    requires Nested(was) && AtLeast(was, base) && SameFrame(was, now) && 1 <= i < |was| && now[0] == was[0] && !was[i].typ.BS?
    ensures TypeBefore(now, i) == if PrevIn(was, i) > 0 then now[PrevIn(was, i)].typ else Sos(was, i, base)
  {
    LeftIs(was, base, i);
    var j := i - 1;
    LinkBeforeSame(was, now, j, was[i].isolateLevel);
    hide LinkBefore;
  }

  /** Run by run the loop gives the type of N1 and N2. */
  lemma {:induction false} LoopAgrees(was: seq<Run>, now: seq<Run>, base: int, i: nat)
    requires NeutralUpTo(was, now, |was|) && |was| > 0 && Nested(was) && AtLeast(was, base) && NeutralsJoined(was)
    requires 1 <= i < |was| && !was[i].typ.BS?
    ensures now[i].typ == StretchType(was, i, base)
    decreases i
  {
    assert now[i].typ == NeutralType(was, now, i);
    if was[i].typ.IsNeutral() {
      LeftEnd(was, now, base, i);
      RightEnd(was, base, i);
      var p := PrevIn(was, i);
      if p > 0 {
        StepOf(was, p);
        LoopAgrees(was, now, base, p);
        if was[p].typ.IsNeutral() { OneStretch(was, i, base); }
      }
      hide Nested, AtLeast, NeutralsJoined, NeutralUpTo;
      StretchLeftIs(was, i, base);
      DirectionIsStrong(was[i].level);
      SosIs(was, i, base);
      hide StretchLeft, StretchRight, TypeBefore, TypeAfter, PrevIn, Sos;
    }
  }

  lemma StretchLeftIs(nodes: seq<Run>, i: nat, base: int)
    requires 1 <= i < |nodes|
    ensures var p := PrevIn(nodes, i);
            StretchLeft(nodes, i, base) == if p == 0 then Sos(nodes, i, base)
                                           else if nodes[p].typ.IsNeutral() then StretchLeft(nodes, p, base)
                                           else Side(nodes[p].typ)
  {
  }

  lemma DirectionIsStrong(level: int)
    ensures LevelToDir(level).NumberToRtl() == LevelToDir(level)
  {
  }

  lemma SosIs(nodes: seq<Run>, i: nat, base: int)
    requires 1 <= i < |nodes|
    ensures Sos(nodes, i, base).NumberToRtl() == Sos(nodes, i, base)
  {
  }
}
