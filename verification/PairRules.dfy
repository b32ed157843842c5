/** Rules BD16 and N0 of UAX #9 over isolating run sequences, and exactly when the stacks and walks of
    3rd/fribidi/fribidi-bidi.c, which know isolate levels only, follow them. */
module PairRules {
  import opened BidiTypes
  import opened Wrappers
  import opened RunList
  import opened Brackets
  import opened Resolve
  import opened Sequences
  import opened Neutrals

  // ---------------------------------------------------------------- BD16

  /** Pair p takes opener x: x is its own, or one of the same sequence between its brackets. */
  ghost predicate Takes(nodes: seq<Run>, p: Pair, x: nat) {
    p.open <= x <= p.close && SameSequence(nodes, p.open, x)
  }

  /** Closing bracket c can be matched with opener x: both are of one sequence, and no pair before took x. */
  ghost predicate Matchable(nodes: seq<Run>, pairs: seq<Pair>, x: nat, c: nat) {
    && x < c < |nodes| && SameSequence(nodes, x, c)
    && nodes[x].typ == ON && nodes[x].bracket.Open? && nodes[c].typ == ON && nodes[c].bracket.Close?
    && nodes[x].bracket.id == nodes[c].bracket.id
    && forall p :: p in pairs && p.close < c ==> !Takes(nodes, p, x)
  }

  ghost predicate NearestMatch(nodes: seq<Run>, pairs: seq<Pair>, x: nat, c: nat) {
    Matchable(nodes, pairs, x, c) && forall y :: x < y < c ==> !Matchable(nodes, pairs, y, c)
  }

  /** BD16 for the closing brackets before n, as long as no 64 openers of one sequence wait at once. */
  ghost predicate PairedByRule(nodes: seq<Run>, pairs: seq<Pair>, n: nat) {
    && (forall p :: p in pairs ==> p.close < n)
    && forall x: nat, c: nat :: c < n ==> (Pair(x, c) in pairs <==> NearestMatch(nodes, pairs, x, c))
  }

  /** The pairs of BD16. */
  ghost function RulePairs(nodes: seq<Run>, n: nat): seq<Pair> {
    if n == 0 then []
    else
      var c: nat := n - 1;
      var before := RulePairs(nodes, c);
      if exists x: nat :: NearestMatch(nodes, before, x, c) then
        var x: nat :| NearestMatch(nodes, before, x, c);
        before + [Pair(x, c)]
      else before
  }

  lemma MatchableBy(nodes: seq<Run>, a: seq<Pair>, b: seq<Pair>, x: nat, c: nat)
    requires forall p: Pair :: p.close < c ==> (p in a <==> p in b)
    ensures Matchable(nodes, a, x, c) <==> Matchable(nodes, b, x, c)
  {
    hide Takes, SameSequence, IsOpening, IsClosing;
  }

  lemma NearestMatchBy(nodes: seq<Run>, a: seq<Pair>, b: seq<Pair>, x: nat, c: nat)
    requires forall p: Pair :: p.close < c ==> (p in a <==> p in b)
    ensures NearestMatch(nodes, a, x, c) <==> NearestMatch(nodes, b, x, c)
  {
    hide Matchable;
    forall y: nat
      ensures Matchable(nodes, a, y, c) <==> Matchable(nodes, b, y, c)
    {
      MatchableBy(nodes, a, b, y, c);
    }
  }

  /** RulePairs are what BD16 asks for, */
  lemma {:induction false} RulePairsAre(nodes: seq<Run>, n: nat)
    ensures PairedByRule(nodes, RulePairs(nodes, n), n)
  {
    hide NearestMatch;
    if n > 0 {
      RulePairsAre(nodes, n - 1);
      var before, now := RulePairs(nodes, n - 1), RulePairs(nodes, n);
      forall x: nat, c: nat | c < n
        ensures Pair(x, c) in now <==> NearestMatch(nodes, now, x, c)
      {
        assert forall p: Pair :: p.close < n - 1 ==> (p in before <==> p in now);
        NearestMatchBy(nodes, before, now, x, c);
        if c == n - 1 { RuleAt(nodes, before, now, x, c); }
      }
    }
  }

  lemma RuleAt(nodes: seq<Run>, before: seq<Pair>, now: seq<Pair>, x: nat, c: nat)
    requires forall p :: p in before ==> p.close < c
    requires if exists y: nat :: NearestMatch(nodes, before, y, c) then
               exists y: nat :: NearestMatch(nodes, before, y, c) && now == before + [Pair(y, c)]
             else now == before
    ensures Pair(x, c) in now <==> NearestMatch(nodes, before, x, c)
  {
    if y: nat :| NearestMatch(nodes, before, y, c) && now == before + [Pair(y, c)] {
      assert Pair(y, c) in now && Pair(x, c) !in before;
      hide Matchable;
      assert NearestMatch(nodes, before, x, c) ==> x == y;
    } else {
      assert Pair(x, c) !in before;
    }
  }

  /** and nothing else is. */
  lemma RulePairsOnly(nodes: seq<Run>, a: seq<Pair>, n: nat)
    requires PairedByRule(nodes, a, n)
    ensures forall p :: p in a <==> p in RulePairs(nodes, n)
  {
    RulePairsAre(nodes, n);
    forall p: Pair
      ensures p in a <==> p in RulePairs(nodes, n)
    {
      if p.close < n { OnlyBelow(nodes, a, RulePairs(nodes, n), n, p.close); }
    }
  }

  lemma {:induction false} OnlyBelow(nodes: seq<Run>, a: seq<Pair>, b: seq<Pair>, n: nat, m: nat)
    requires PairedByRule(nodes, a, n) && PairedByRule(nodes, b, n) && m < n
    ensures forall p: Pair :: p.close <= m ==> (p in a <==> p in b)
    decreases m
  {
    hide NearestMatch;
    if m > 0 { OnlyBelow(nodes, a, b, n, m - 1); }
    forall p: Pair | p.close <= m
      ensures p in a <==> p in b
    {
      NearestMatchBy(nodes, a, b, p.open, p.close);
      assert p == Pair(p.open, p.close);
    }
  }

  // ---------------------------------------------------------------- the stacks against BD16

  /** Runs of one isolate level between two runs of a sequence are of that sequence. */
  lemma Between(nodes: seq<Run>, i: nat, k: nat, j: nat)
    requires SameSequence(nodes, i, j) && i <= k <= j && nodes[k].isolateLevel == nodes[i].isolateLevel
    ensures SameSequence(nodes, i, k) && SameSequence(nodes, k, j) && nodes[k].level == nodes[i].level
  {
    if i < k { assert InReach(nodes, i, k); }
    forall l | k < l <= j
      ensures InReach(nodes, k, l)
    {
      assert InReach(nodes, i, l);
    }
  }

  /** Each pair is of one sequence. */
  ghost predicate InSequences(nodes: seq<Run>, pairs: seq<Pair>) {
    forall p :: p in pairs ==> SameSequence(nodes, p.open, p.close)
  }

  lemma RulePairsInSequences(nodes: seq<Run>, n: nat)
    ensures InSequences(nodes, RulePairs(nodes, n))
  {
    RulePairsAre(nodes, n);
    hide SameSequence, Takes;
    forall p | p in RulePairs(nodes, n)
      ensures SameSequence(nodes, p.open, p.close)
    {
      assert p == Pair(p.open, p.close);
      assert NearestMatch(nodes, RulePairs(nodes, n), p.open, p.close);
    }
  }

  /** Within a sequence the stacks of the program hold what BD16 asks for. */
  lemma CandidateInSequence(nodes: seq<Run>, pairs: seq<Pair>, x: nat, c: nat)
    requires InSequences(nodes, pairs) && x < c < |nodes| && SameSequence(nodes, x, c)
    ensures Candidate(nodes, pairs, x, c) <==> Matchable(nodes, pairs, x, c)
  {
    var level := nodes[c].isolateLevel;
    forall r | x < r <= c
      ensures !LevelChange(nodes, level, r)
    {
      NoChangeWithin(nodes, x, r, c);
    }
    assert Unbroken(nodes, level, x, c);
    forall p | p in pairs && p.close < c
      ensures Outside(nodes, p, level, x) <==> !Takes(nodes, p, x)
    {
      TakesIs(nodes, p, x);
    }
    hide SameSequence, IsOpening, IsClosing, Takes, Outside, LevelChange;
    assert Unmatched(nodes, pairs, level, x, c) <==> forall p :: p in pairs && p.close < c ==> !Takes(nodes, p, x);
  }

  lemma NoChangeWithin(nodes: seq<Run>, x: nat, r: nat, c: nat)
    requires SameSequence(nodes, x, c) && x < r <= c
    ensures !LevelChange(nodes, nodes[c].isolateLevel, r)
  {
    var j: nat := r - 1;
    assert InReach(nodes, x, r);
    if x < j { assert InReach(nodes, x, j); }
  }

  lemma TakesIs(nodes: seq<Run>, p: Pair, x: nat)
    requires SameSequence(nodes, p.open, p.close) && x < |nodes|
    ensures Outside(nodes, p, nodes[x].isolateLevel, x) <==> !Takes(nodes, p, x)
  {
    if p.open <= x <= p.close && nodes[p.open].isolateLevel == nodes[x].isolateLevel {
      Between(nodes, p.open, x, p.close);
    }
  }

  /** Closing bracket c is left over by BD16, and the stack of its isolate level still holds opener x, which is of another
      isolate of that depth. */
  ghost predicate Strays(nodes: seq<Run>, n: nat, x: nat, c: nat) {
    var pairs := RulePairs(nodes, n);
    && c < n && (forall y: nat :: Pair(y, c) !in pairs)
    && Candidate(nodes, pairs, x, c)
  }

  /** Such an opener is not of the sequence of the bracket. */
  lemma StraysFar(nodes: seq<Run>, n: nat, x: nat, c: nat)
    requires n <= |nodes| && Strays(nodes, n, x, c)
    ensures x < c && IsOpening(nodes[x]) && IsClosing(nodes[c]) && nodes[x].bracket.id == nodes[c].bracket.id
    ensures nodes[x].isolateLevel == nodes[c].isolateLevel && !SameSequence(nodes, x, c)
  {
    hide IsOpening, IsClosing, LevelChange, Unbroken, Outside, SameSequence, Matchable;
    var pairs := RulePairs(nodes, n);
    RulePairsAre(nodes, n);
    if SameSequence(nodes, x, c) {
      RulePairsInSequences(nodes, n);
      CandidateInSequence(nodes, pairs, x, c);
      var y := LastMatch(nodes, pairs, x, c);
    }
  }

  lemma {:induction false} LastMatch(nodes: seq<Run>, pairs: seq<Pair>, x: nat, c: nat) returns (y: nat)
    requires Matchable(nodes, pairs, x, c)
    ensures NearestMatch(nodes, pairs, y, c)
    decreases c - x
  {
    if z: nat :| x < z < c && Matchable(nodes, pairs, z, c) {
      y := LastMatch(nodes, pairs, z, c);
    } else {
      y := x;
    }
  }

  lemma {:induction false} LastCandidate(nodes: seq<Run>, pairs: seq<Pair>, x: nat, c: nat) returns (y: nat)
    requires Candidate(nodes, pairs, x, c)
    ensures Nearest(nodes, pairs, y, c)
    decreases c - x
  {
    if z: nat :| x < z < c && Candidate(nodes, pairs, z, c) {
      y := LastCandidate(nodes, pairs, z, c);
    } else {
      CandidateBefore(nodes, pairs, x, c);
      y := x;
    }
  }

  lemma CandidateBefore(nodes: seq<Run>, pairs: seq<Pair>, x: nat, c: nat)
    requires Candidate(nodes, pairs, x, c)
    ensures x < c < |nodes| && IsOpening(nodes[x]) && IsClosing(nodes[c]) && nodes[x].isolateLevel == nodes[c].isolateLevel
    ensures nodes[x].bracket.id == nodes[c].bracket.id
  {
  }

  /** A bracket that BD16 pairs, the program pairs in the same way. */
  lemma RuleIsNearest(nodes: seq<Run>, pairs: seq<Pair>, x: nat, c: nat)
    requires InSequences(nodes, pairs) && NearestMatch(nodes, pairs, x, c)
    ensures Nearest(nodes, pairs, x, c)
  {
    hide SameSequence, IsOpening, IsClosing, Live, LevelChange, Takes;
    CandidateInSequence(nodes, pairs, x, c);
    forall y | x < y < c
      ensures !Candidate(nodes, pairs, y, c)
    {
      if Candidate(nodes, pairs, y, c) {
        CandidateBefore(nodes, pairs, y, c);
        SequenceLevel(nodes, x, c);
        Between(nodes, x, y, c);
        CandidateInSequence(nodes, pairs, y, c);
      }
    }
  }

  lemma SequenceLevel(nodes: seq<Run>, i: nat, j: nat)
    requires SameSequence(nodes, i, j)
    ensures nodes[i].isolateLevel == nodes[j].isolateLevel
  {
  }

  ghost predicate SamePairs(a: seq<Pair>, b: seq<Pair>) {
    forall p: Pair :: p in a <==> p in b
  }

  /** As far as the program gets it pairs brackets as BD16 asks if and only if no bracket that BD16 leaves over meets an opener that an
      earlier isolate of the same depth left on the stack. */
  lemma PairsFollowRule(nodes: seq<Run>, pairs: seq<Pair>, n: nat)
    requires n <= |nodes| && PairedBefore(nodes, pairs, n)
    ensures SamePairs(pairs, RulePairs(nodes, n)) <==> !exists x: nat, c: nat :: Strays(nodes, n, x, c)
  {
    var rule := RulePairs(nodes, n);
    RulePairsAre(nodes, n);
    RulePairsInSequences(nodes, n);
    if x: nat, c: nat :| Strays(nodes, n, x, c) {
      var y := LastCandidate(nodes, rule, x, c);
      if SamePairs(pairs, rule) {
        PairedSame(nodes, pairs, rule, n);
      }
    } else {
      forall x: nat, c: nat | c < n
        ensures Pair(x, c) in rule <==> Nearest(nodes, rule, x, c)
      {
        NoStray(nodes, n, x, c);
      }
      assert PairedBefore(nodes, rule, n) by { PairedIs(nodes, rule, n); }
      PairingUnique(nodes, pairs, rule, n);
    }
  }

  lemma PairedIs(nodes: seq<Run>, rule: seq<Pair>, n: nat)
    requires forall p :: p in rule ==> p.close < n
    requires forall x: nat, c: nat :: c < n ==> (Pair(x, c) in rule <==> Nearest(nodes, rule, x, c))
    ensures PairedBefore(nodes, rule, n)
  {
    hide Nearest;
  }

  lemma NoStray(nodes: seq<Run>, n: nat, x: nat, c: nat)
    requires c < n <= |nodes| && !exists y: nat :: Strays(nodes, n, y, c)
    ensures var rule := RulePairs(nodes, n); Pair(x, c) in rule <==> Nearest(nodes, rule, x, c)
  {
    var rule := RulePairs(nodes, n);
    RulePairsAre(nodes, n);
    RulePairsInSequences(nodes, n);
    hide NearestMatch, InSequences, Candidate;
    if y: nat :| Pair(y, c) in rule {
      RuleIsNearest(nodes, rule, y, c);
      OneNearest(nodes, rule, x, y, c);
      OneNearestMatch(nodes, rule, x, y, c);
    } else {
      StraysIf(nodes, n, x, c);
    }
  }

  lemma StraysIf(nodes: seq<Run>, n: nat, x: nat, c: nat)
    requires c < n && forall y: nat :: Pair(y, c) !in RulePairs(nodes, n)
    ensures Nearest(nodes, RulePairs(nodes, n), x, c) ==> Strays(nodes, n, x, c)
  {
    hide Candidate, RulePairs;
  }

  lemma OneNearestMatch(nodes: seq<Run>, pairs: seq<Pair>, x: nat, y: nat, c: nat)
    requires NearestMatch(nodes, pairs, y, c)
    ensures NearestMatch(nodes, pairs, x, c) <==> x == y
  {
    hide SameSequence, Takes, IsOpening, IsClosing;
  }

  // ---------------------------------------------------------------- N0

  /** The direction of a strong type, numbers being R. */
  function Direction(run: Run): CharType { if run.typ.NumberToRtl().IsRtl() then RTL else LTR }

  /** N0 counts L, R, AL and the numbers as strong, all but L as R.  Codes have left the list. */
  lemma StrongTypes(run: Run)
    requires !run.typ.IsExplicit()
    ensures IsStrongRun(run) <==> run.typ in {LTR, RTL, AL, EN, AN}
    ensures IsStrongRun(run) ==> Direction(run) == if run.typ == LTR then LTR else RTL
    ensures IsStrongRun(run) ==> (StrongLevel(run) == run.level <==> LevelToDir(run.level) == Direction(run))
  {
  }

  /** The first strong type before run i in its sequence, or sos. */
  function Context(nodes: seq<Run>, i: nat, base: int): CharType
    requires 1 <= i < |nodes|
    decreases i
  {
    var p := PrevIn(nodes, i);
    if p == 0 then Sos(nodes, i, base) else if IsStrongRun(nodes[p]) then Direction(nodes[p]) else Context(nodes, p, base)
  }

  /** A strong type of the sequence between the brackets. */
  ghost predicate StrongWithin(nodes: seq<Run>, p: Pair, k: nat) {
    p.open <= k < p.close && SameSequence(nodes, p.open, k) && IsStrongRun(nodes[k])
  }

  /** N0: b. the embedding direction if a strong type within has it; c. if there is one of the opposite direction, that
      direction where the context before the pair has it, too, else the embedding direction; d. nothing otherwise. */
  ghost function RuleType(nodes: seq<Run>, p: Pair, base: int): Option<CharType>
    requires Within(nodes, p)
  {
    var embedding := LevelToDir(nodes[p.open].level);
    if exists k: nat :: StrongWithin(nodes, p, k) && Direction(nodes[k]) == embedding then Some(embedding)
    else if exists k: nat :: StrongWithin(nodes, p, k) then
      var opposite := if embedding == LTR then RTL else LTR;
      Some(if Context(nodes, p.open, base) == opposite then opposite else embedding)
    else None
  }

  /** The run that the walk backwards finds: the last strong one of that isolate level, 0 if there is none. */
  function WalkBack(nodes: seq<Run>, n: nat, isolateLevel: int): (w: nat)
    requires n < |nodes|
    ensures w <= n && (w > 0 ==> IsStrongRun(nodes[w]) && nodes[w].isolateLevel == isolateLevel)
    ensures forall k :: w < k <= n ==> !(IsStrongRun(nodes[k]) && nodes[k].isolateLevel == isolateLevel)
  {
    if n == 0 then 0
    else if IsStrongRun(nodes[n]) && nodes[n].isolateLevel == isolateLevel then n
    else WalkBack(nodes, n - 1, isolateLevel)
  }

  lemma {:induction false} PrecedingIsWalk(nodes: seq<Run>, n: nat, isolateLevel: int, embedding: int)
    requires n < |nodes|
    ensures var w := WalkBack(nodes, n, isolateLevel);
            PrecedingLevel(nodes, n, isolateLevel, embedding) == if w == 0 then embedding else StrongLevel(nodes[w])
  {
    hide StrongLevel, IsStrongRun;
    if n > 0 { PrecedingIsWalk(nodes, n - 1, isolateLevel, embedding); }
  }

  /** The first run of the sequence of run i. */
  function FirstIn(nodes: seq<Run>, i: nat): (f: nat)
    requires 1 <= i < |nodes|
    ensures 1 <= f <= i
    decreases i
  {
    if PrevIn(nodes, i) == 0 then i else FirstIn(nodes, PrevIn(nodes, i))
  }

  /** The walk went past the start of the sequence: what it found, or the embedding level if it found nothing, stands in
      for sos and is not it. */
  ghost predicate WrongContext(nodes: seq<Run>, p: Pair, base: int)
    requires Within(nodes, p)
  {
    var w := WalkBack(nodes, p.open - 1, nodes[p.open].isolateLevel);
    && !(w > 0 && SameSequence(nodes, w, p.open))
    && (if w == 0 then LevelToDir(nodes[p.open].level) else Direction(nodes[w])) != Sos(nodes, FirstIn(nodes, p.open), base)
  }

  /** Only a strong type of the other direction is between the brackets. */
  ghost predicate NeedsContext(nodes: seq<Run>, p: Pair)
    requires Within(nodes, p)
  {
    && (exists k: nat :: StrongWithin(nodes, p, k))
    && forall k: nat :: StrongWithin(nodes, p, k) ==> Direction(nodes[k]) != LevelToDir(nodes[p.open].level)
  }

  // ---------------------------------------------------------------- the walks against N0

  /** Between the brackets of a pair deeper isolates have higher levels. */
  lemma {:induction false} DeeperIsHigher(nodes: seq<Run>, i: nat, j: nat, k: nat)
    requires Rising(nodes) && SameSequence(nodes, i, j) && i < k < j && nodes[k].isolateLevel > nodes[i].isolateLevel && !nodes[k].typ.BS?
    requires forall l :: 1 <= l < |nodes| - 1 ==> !nodes[l].typ.BS?
    ensures nodes[k].level > nodes[i].level
    decreases k
  {
    hide SameSequence, Rising, IsStrongRun;
    SequenceEnds(nodes, i, j);
    assert HigherAt(nodes, k) by { RisingAt(nodes, k); }
    var q := OutWithin(nodes, i, j, k);
    if q > i && nodes[q].isolateLevel > nodes[i].isolateLevel { DeeperIsHigher(nodes, i, j, q); }
    ReachedAt(nodes, i, j, q);
  }

  lemma RisingAt(nodes: seq<Run>, k: nat)
    requires Rising(nodes) && 1 <= k < |nodes|
    ensures HigherAt(nodes, k)
  {
  }

  lemma ReachedAt(nodes: seq<Run>, i: nat, j: nat, q: nat)
    requires SameSequence(nodes, i, j) && i <= q <= j
    ensures q == i || InReach(nodes, i, q)
  {
  }

  lemma OutWithin(nodes: seq<Run>, i: nat, j: nat, k: nat) returns (q: nat)
    requires SameSequence(nodes, i, j) && i < k < j && nodes[k].isolateLevel > nodes[i].isolateLevel
    ensures i <= q < k && q == LinkOut(nodes, k - 1, nodes[k].isolateLevel) && nodes[q].isolateLevel < nodes[k].isolateLevel
  {
    q := LinkOut(nodes, k - 1, nodes[k].isolateLevel);
    OutAtLeast(nodes, k - 1, nodes[k].isolateLevel, i);
  }

  lemma {:induction false} OutAtLeast(nodes: seq<Run>, j: nat, isolateLevel: int, i: nat)
    requires 1 <= i <= j < |nodes| && nodes[i].isolateLevel < isolateLevel
    ensures i <= LinkOut(nodes, j, isolateLevel) <= j
    decreases j
  {
    if i < j { OutAtLeast(nodes, j - 1, isolateLevel, i); }
  }

  /** The level of a strong run has the parity of its direction. */
  lemma StrongDirection(run: Run)
    ensures LevelToDir(StrongLevel(run)) == Direction(run)
    ensures StrongLevel(run) >= run.level && (StrongLevel(run) == run.level <==> Direction(run) == LevelToDir(run.level))
  {
  }

  /** N0b: what the first walk looks for. */
  lemma AgreesIs(nodes: seq<Run>, p: Pair, k: nat)
    requires Within(nodes, p) && SameSequence(nodes, p.open, p.close) && Rising(nodes)
    requires forall l :: 1 <= l < |nodes| - 1 ==> !nodes[l].typ.BS?
    ensures Agrees(nodes, p, k) <==> StrongWithin(nodes, p, k) && Direction(nodes[k]) == LevelToDir(nodes[p.open].level)
  {
    if p.open <= k < p.close {
      StrongDirection(nodes[k]);
      ReachedAt(nodes, p.open, p.close, k);
      if nodes[k].isolateLevel > nodes[p.open].isolateLevel {
        DeeperIsHigher(nodes, p.open, p.close, k);
      } else {
        Between(nodes, p.open, k, p.close);
      }
    }
    hide IsStrongRun, StrongLevel, Rising;
  }

  /** N0c: what the last walk looks for. */
  lemma OpposesIs(nodes: seq<Run>, p: Pair, k: nat)
    requires Within(nodes, p) && SameSequence(nodes, p.open, p.close)
    ensures Opposes(nodes, p, k) <==> StrongWithin(nodes, p, k)
  {
    if p.open <= k < p.close {
      if nodes[k].isolateLevel == nodes[p.open].isolateLevel { Between(nodes, p.open, k, p.close); }
    }
    hide IsStrongRun;
  }

  /** The context is the direction of the run the walk finds, if that is of the sequence, */
  lemma {:induction false} ContextFound(nodes: seq<Run>, i: nat, w: nat, base: int)
    requires 1 <= w < i < |nodes| && SameSequence(nodes, w, i) && IsStrongRun(nodes[w])
    requires forall k :: w < k < i ==> !(IsStrongRun(nodes[k]) && nodes[k].isolateLevel == nodes[i].isolateLevel)
    ensures Context(nodes, i, base) == Direction(nodes[w])
    decreases i
  {
    hide IsStrongRun;
    forall k | w < k <= i - 1
      ensures nodes[k].isolateLevel >= nodes[i].isolateLevel
    {
      assert InReach(nodes, w, k);
    }
    BackAtLeast(nodes, i - 1, nodes[i].isolateLevel, w);
    var p := PrevIn(nodes, i);
    PrevWithin(nodes, w, i);
    if p > w {
      Between(nodes, w, p, i);
      ContextFound(nodes, p, w, base);
    }
  }

  lemma PrevWithin(nodes: seq<Run>, w: nat, i: nat)
    requires 1 <= w < i < |nodes| && SameSequence(nodes, w, i) && w <= LinkBefore(nodes, i - 1, nodes[i].isolateLevel)
    ensures w <= PrevIn(nodes, i) < i && nodes[PrevIn(nodes, i)].isolateLevel == nodes[w].isolateLevel
  {
    var p := LinkBefore(nodes, i - 1, nodes[i].isolateLevel);
    SequenceEnds(nodes, w, i);
    Between(nodes, w, p, i);
  }

  lemma {:induction false} BackAtLeast(nodes: seq<Run>, j: nat, isolateLevel: int, w: nat)
    requires 1 <= w <= j < |nodes| && nodes[w].isolateLevel == isolateLevel
    requires forall k :: w < k <= j ==> nodes[k].isolateLevel >= isolateLevel
    ensures w <= LinkBefore(nodes, j, isolateLevel) <= j
    decreases j
  {
    if w < j { BackAtLeast(nodes, j - 1, isolateLevel, w); }
  }

  /** and sos, if there is none. */
  lemma {:induction false} ContextMissing(nodes: seq<Run>, i: nat, base: int)
    requires Nested(nodes) && 1 <= i < |nodes| && !nodes[i].typ.BS?
    requires forall k :: 1 <= k < i && SameSequence(nodes, k, i) ==> !IsStrongRun(nodes[k])
    ensures Context(nodes, i, base) == Sos(nodes, FirstIn(nodes, i), base)
    decreases i
  {
    hide IsStrongRun, SameSequence;
    var p := PrevIn(nodes, i);
    if p > 0 {
      SequenceLinks(nodes, i);
      StepOf(nodes, p);
      forall k | 1 <= k < p && SameSequence(nodes, k, p)
        ensures !IsStrongRun(nodes[k])
      {
        SequenceTrans(nodes, k, p, i);
      }
      ContextMissing(nodes, p, base);
    }
  }

  lemma SequenceTrans(nodes: seq<Run>, i: nat, k: nat, j: nat)
    requires SameSequence(nodes, i, k) && SameSequence(nodes, k, j)
    ensures SameSequence(nodes, i, j)
  {
    SequenceEnds(nodes, i, k);
    forall l | i < l <= j
      ensures InReach(nodes, i, l)
    {
      if l > k { assert InReach(nodes, k, l); }
    }
  }

  lemma SequenceEnds(nodes: seq<Run>, i: nat, k: nat)
    requires SameSequence(nodes, i, k)
    ensures 1 <= i <= k < |nodes| && nodes[i].isolateLevel == nodes[k].isolateLevel && nodes[i].level == nodes[k].level
  {
    if i < k { assert InReach(nodes, i, k); }
  }

  lemma WalkIsLast(nodes: seq<Run>, i: nat)
    requires 1 <= i < |nodes|
    ensures var w := WalkBack(nodes, i - 1, nodes[i].isolateLevel);
            !(w > 0 && SameSequence(nodes, w, i)) ==> forall k :: 1 <= k < i && SameSequence(nodes, k, i) ==> !IsStrongRun(nodes[k])
  {
    var w := WalkBack(nodes, i - 1, nodes[i].isolateLevel);
    forall k | 1 <= k < i && SameSequence(nodes, k, i) && IsStrongRun(nodes[k])
      ensures w > 0 && SameSequence(nodes, w, i)
    {
      SequenceEnds(nodes, k, i);
      assert k <= w;
      Between(nodes, k, w, i);
    }
  }

  lemma WalksAre(nodes: seq<Run>, p: Pair)
    requires Within(nodes, p) && SameSequence(nodes, p.open, p.close) && Rising(nodes)
    requires forall k :: 1 <= k < |nodes| - 1 ==> !nodes[k].typ.BS?
    ensures forall k: nat :: Agrees(nodes, p, k) <==> StrongWithin(nodes, p, k) && Direction(nodes[k]) == LevelToDir(nodes[p.open].level)
    ensures forall k: nat :: Opposes(nodes, p, k) <==> StrongWithin(nodes, p, k)
  {
    hide SameSequence, Agrees, Opposes, IsStrongRun, StrongLevel, Rising, Direction, LevelToDir;
    forall k: nat
      ensures Agrees(nodes, p, k) <==> StrongWithin(nodes, p, k) && Direction(nodes[k]) == LevelToDir(nodes[p.open].level)
      ensures Opposes(nodes, p, k) <==> StrongWithin(nodes, p, k)
    {
      AgreesIs(nodes, p, k);
      OpposesIs(nodes, p, k);
    }
  }

  /** What the walk backwards stands for, and what it ought to be. */
  lemma ContextsAre(nodes: seq<Run>, p: Pair, base: int)
    requires Within(nodes, p) && Nested(nodes) && forall k :: 1 <= k < |nodes| - 1 ==> !nodes[k].typ.BS?
    ensures Context(nodes, p.open, base) in {LTR, RTL}
    ensures var w := WalkBack(nodes, p.open - 1, nodes[p.open].isolateLevel);
            && LevelToDir(PrecedingLevel(nodes, p.open - 1, nodes[p.open].isolateLevel, nodes[p.open].level))
               == (if w == 0 then LevelToDir(nodes[p.open].level) else Direction(nodes[w]))
            && Context(nodes, p.open, base)
               == if w > 0 && SameSequence(nodes, w, p.open) then Direction(nodes[w]) else Sos(nodes, FirstIn(nodes, p.open), base)
  {
    hide SameSequence, StrongLevel, IsStrongRun, Sos, Nested, PrecedingLevel, WalkBack, Context, FirstIn, Direction;
    PrecedingIsWalk(nodes, p.open - 1, nodes[p.open].isolateLevel, nodes[p.open].level);
    var w := WalkBack(nodes, p.open - 1, nodes[p.open].isolateLevel);
    if w > 0 { StrongDirection(nodes[w]); }
    if w > 0 && SameSequence(nodes, w, p.open) {
      ContextFound(nodes, p.open, w, base);
    } else {
      WalkIsLast(nodes, p.open);
      ContextMissing(nodes, p.open, base);
    }
    ContextIsStrong(nodes, p.open, base);
  }

  /** The program gives a pair of one sequence the type of N0 if and only if it does not have to look for a context, or the
      walk backwards does not take something else for sos. */
  lemma PairTypeIsRule(nodes: seq<Run>, p: Pair, base: int)
    requires Within(nodes, p) && SameSequence(nodes, p.open, p.close) && Nested(nodes) && Rising(nodes)
    requires forall k :: 1 <= k < |nodes| - 1 ==> !nodes[k].typ.BS?
    ensures PairType(nodes, p) == RuleType(nodes, p, base) <==> !(NeedsContext(nodes, p) && WrongContext(nodes, p, base))
  {
    hide SameSequence, StrongLevel, IsStrongRun, Sos, Agrees, Opposes, Nested, Rising, PrecedingLevel, WalkBack, Context, FirstIn, Direction,
         LevelToDir;
    WalksAre(nodes, p);
    ContextsAre(nodes, p, base);
    DirectionOfLevel(nodes[p.open].level);
    if k: nat :| Agrees(nodes, p, k) {
      assert StrongWithin(nodes, p, k) && Direction(nodes[k]) == LevelToDir(nodes[p.open].level);
    } else if k: nat :| Opposes(nodes, p, k) {
      assert StrongWithin(nodes, p, k);
      assert NeedsContext(nodes, p);
      assert RuleType(nodes, p, base) == Some(Context(nodes, p.open, base));
    }
  }

  lemma DirectionOfLevel(level: int)
    ensures LevelToDir(level) in {LTR, RTL}
  {
  }

  lemma {:induction false} ContextIsStrong(nodes: seq<Run>, i: nat, base: int)
    requires 1 <= i < |nodes|
    ensures Context(nodes, i, base) in {LTR, RTL}
    decreases i
  {
    hide IsStrongRun;
    if PrevIn(nodes, i) > 0 { ContextIsStrong(nodes, PrevIn(nodes, i), base); }
  }

  // ---------------------------------------------------------------- lists on which they part

  /** The text RLE L PDF ( R ) in a left-to-right paragraph: the sequence of the pair starts behind an embedding, so its sos
      is R; the program takes the L inside the embedding for the context. */
  lemma ContextFromEmbedding()
    ensures var nodes := [SENTINEL_RUN, Run(1, 1, LTR, 1, 0, NoBracket), Run(3, 1, ON, 0, 0, Open(0)), Run(4, 1, RTL, 0, 0, NoBracket),
                          Run(5, 1, ON, 0, 0, Close(0))];
            var p := Pair(2, 4);
            Nested(nodes) && Within(nodes, p) && PairType(nodes, p) == Some(LTR) && RuleType(nodes, p, 0) == Some(RTL)
  {
    var nodes := [SENTINEL_RUN, Run(1, 1, LTR, 1, 0, NoBracket), Run(3, 1, ON, 0, 0, Open(0)), Run(4, 1, RTL, 0, 0, NoBracket),
                  Run(5, 1, ON, 0, 0, Close(0))];
    var p := Pair(2, 4);
    assert Nested(nodes);
    assert forall k :: 1 <= k < |nodes| ==> HigherAt(nodes, k);
    assert SameSequence(nodes, 2, 4);
    assert WalkBack(nodes, 1, 0) == 1 && !SameSequence(nodes, 1, 2) by { assert !InReach(nodes, 1, 2); }
    assert FirstIn(nodes, 2) == 2 && Sos(nodes, 2, 0) == RTL;
    var k: nat := 3;
    assert StrongWithin(nodes, p, k);
    assert PrecedingLevel(nodes, 1, 0, 0) == 2;
    assert Opposes(nodes, p, k);
  }

  /** The text LRI R ( R PDI LRI ) PDI: the bracket of the second isolate closes the one of the first. */
  lemma PairAcrossIsolates()
    ensures var nodes := [SENTINEL_RUN, Run(0, 1, LRI, 0, 0, NoBracket), Run(1, 1, RTL, 2, 1, NoBracket), Run(2, 1, ON, 2, 1, Open(0)),
                          Run(3, 1, RTL, 2, 1, NoBracket), Run(4, 2, PDI, 0, 0, NoBracket), Run(6, 1, ON, 2, 1, Close(0)),
                          Run(7, 1, PDI, 0, 0, NoBracket)];
            Nested(nodes) && PairedBefore(nodes, [Pair(3, 6)], |nodes|) && SamePairs(RulePairs(nodes, |nodes|), [])
  {
    var nodes := [SENTINEL_RUN, Run(0, 1, LRI, 0, 0, NoBracket), Run(1, 1, RTL, 2, 1, NoBracket), Run(2, 1, ON, 2, 1, Open(0)),
                  Run(3, 1, RTL, 2, 1, NoBracket), Run(4, 2, PDI, 0, 0, NoBracket), Run(6, 1, ON, 2, 1, Close(0)),
                  Run(7, 1, PDI, 0, 0, NoBracket)];
    assert Nested(nodes);
    assert !SameSequence(nodes, 3, 6) by { assert !InReach(nodes, 3, 5); }
    assert PairedByRule(nodes, [], |nodes|);
    RulePairsOnly(nodes, [], |nodes|);
    var pairs := [Pair(3, 6)];
    assert Candidate(nodes, pairs, 3, 6);
    forall x: nat, c: nat | c < |nodes|
      ensures Pair(x, c) in pairs <==> Nearest(nodes, pairs, x, c)
    {
      if Nearest(nodes, pairs, x, c) { CandidateBefore(nodes, pairs, x, c); }
    }
  }
}
