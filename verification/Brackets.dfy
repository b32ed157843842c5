/** Bracket pairs, 3rd/fribidi/fribidi-bidi.c: the stacks, one for each isolate level, the memory that holds them, and the
    merge sort of the pairs they yield.  PairRules has rule BD16 of UAX #9, and says when these pairs are its pairs. */
module Brackets {
  import opened BidiTypes
  import opened RunList

  /** FriBidiPairingNode: the nodes of an opening and of the matching closing bracket. */
  datatype Pair = Pair(open: nat, close: nat)

  const MAX_NESTED_BRACKET_PAIRS := 63

  /** Rows for the first isolate levels, and what one of them is meant to hold. */
  const LOCAL_BRACKET_SIZE := 16

  predicate IsOpening(run: Run) { run.bracket.Open? && run.typ.ON? }

  predicate IsClosing(run: Run) { run.bracket.Close? && run.typ.ON? }

  // ---------------------------------------------------------------- the pairs of the stacks

  /** Brackets of one isolate level that match. */
  ghost predicate Matches(nodes: seq<Run>, p: Pair) {
    && 1 <= p.open < p.close < |nodes|
    && IsOpening(nodes[p.open]) && IsClosing(nodes[p.close]) && nodes[p.open].bracket.id == nodes[p.close].bracket.id
    && nodes[p.open].isolateLevel == nodes[p.close].isolateLevel
  }

  /** Two pairs share no bracket, and of one isolate level either holds the other or they are apart. */
  ghost predicate Nest(nodes: seq<Run>, p: Pair, q: Pair)
    requires Matches(nodes, p) && Matches(nodes, q)
  {
    && p.open != q.open && p.close != q.close && p.open != q.close && p.close != q.open
    && (nodes[p.open].isolateLevel == nodes[q.open].isolateLevel ==>
          p.close < q.open || q.close < p.open
          || (p.open < q.open && q.close < p.close) || (q.open < p.open && p.close < q.close))
  }

  ghost predicate PairsOk(nodes: seq<Run>, pairs: seq<Pair>) {
    && (forall i :: 0 <= i < |pairs| ==> Matches(nodes, pairs[i]))
    && (forall i, j :: 0 <= i < j < |pairs| ==> Nest(nodes, pairs[i], pairs[j]))
  }

  /** A stack holds openers of its level in order, none of them inside a pair of that level. */
  ghost predicate StackOk(nodes: seq<Run>, pairs: seq<Pair>, level: int, stack: seq<nat>, n: nat) {
    && (forall i, j :: 0 <= i < j < |stack| ==> stack[i] < stack[j])
    && (forall i :: 0 <= i < |stack| ==>
          1 <= stack[i] < n <= |nodes| && IsOpening(nodes[stack[i]]) && nodes[stack[i]].isolateLevel == level)
    && (forall i, j :: 0 <= i < |stack| && 0 <= j < |pairs| ==> Outside(nodes, pairs[j], level, stack[i]))
  }

  ghost predicate Outside(nodes: seq<Run>, p: Pair, level: int, x: nat) {
    p.open < |nodes| && nodes[p.open].isolateLevel == level ==> x < p.open || p.close < x
  }

  /** Between two neighbours of one isolate level the embedding level changes: the stack of that level is emptied. */
  predicate LevelChange(nodes: seq<Run>, level: int, i: int) {
    && 2 <= i < |nodes| && nodes[i].isolateLevel == level && nodes[i - 1].isolateLevel == level
    && nodes[i].level != nodes[i - 1].level
  }

  /** Opener x of an isolate level can still be matched when n is reached, whatever n is. */
  ghost predicate Live(nodes: seq<Run>, pairs: seq<Pair>, level: int, x: nat, n: nat) {
    && 1 <= x < n <= |nodes| && IsOpening(nodes[x]) && nodes[x].isolateLevel == level
    && Unbroken(nodes, level, x, n) && Unmatched(nodes, pairs, level, x, n)
  }

  ghost predicate Unbroken(nodes: seq<Run>, level: int, x: nat, n: nat) {
    forall r :: x < r < n ==> !LevelChange(nodes, level, r)
  }

  ghost predicate Unmatched(nodes: seq<Run>, pairs: seq<Pair>, level: int, x: nat, n: nat) {
    forall p :: p in pairs && p.close < n ==> Outside(nodes, p, level, x)
  }

  /** Closing bracket n can be matched with opener x. */
  ghost predicate Candidate(nodes: seq<Run>, pairs: seq<Pair>, x: nat, n: nat) {
    && n < |nodes| && IsClosing(nodes[n])
    && Live(nodes, pairs, nodes[n].isolateLevel, x, n) && !LevelChange(nodes, nodes[n].isolateLevel, n)
    && nodes[x].bracket.id == nodes[n].bracket.id
  }

  /** The pairs of the closing brackets before n: each is paired with the nearest opener that can match
      it, and there are no other pairs. */
  ghost predicate PairedBefore(nodes: seq<Run>, pairs: seq<Pair>, n: nat) {
    && (forall p :: p in pairs ==> p.close < n)
    && (forall x: nat, c: nat :: c < n ==> (Pair(x, c) in pairs <==> Nearest(nodes, pairs, x, c)))
  }

  ghost predicate Nearest(nodes: seq<Run>, pairs: seq<Pair>, x: nat, c: nat) {
    && Candidate(nodes, pairs, x, c)
    && forall y :: x < y < c ==> !Candidate(nodes, pairs, y, c)
  }

  /** That leaves no choice. */
  lemma {:induction false} PairingUnique(nodes: seq<Run>, a: seq<Pair>, b: seq<Pair>, n: nat)
    requires PairedBefore(nodes, a, n) && PairedBefore(nodes, b, n)
    ensures forall p :: p in a <==> p in b
  {
    forall p: Pair | p.close < n
      ensures p in a <==> p in b
    {
      SameBelow(nodes, a, b, n, p.close);
    }
  }

  lemma {:induction false} SameBelow(nodes: seq<Run>, a: seq<Pair>, b: seq<Pair>, n: nat, m: nat)
    requires PairedBefore(nodes, a, n) && PairedBefore(nodes, b, n) && m < n
    ensures forall p: Pair :: p.close <= m ==> (p in a <==> p in b)
    decreases m
  {
    if m > 0 { SameBelow(nodes, a, b, n, m - 1); }
    forall p: Pair | p.close < m
      ensures p in a <==> p in b
    {
    }
    forall x: nat
      ensures Pair(x, m) in a <==> Pair(x, m) in b
    {
      SameNearest(nodes, a, b, x, m);
    }
    forall p: Pair | p.close <= m
      ensures p in a <==> p in b
    {
      assert p == Pair(p.open, p.close);
    }
  }

  lemma SameNearest(nodes: seq<Run>, a: seq<Pair>, b: seq<Pair>, x: nat, c: nat)
    requires forall p: Pair :: p.close < c ==> (p in a <==> p in b)
    ensures Nearest(nodes, a, x, c) <==> Nearest(nodes, b, x, c)
  {
    hide IsOpening, IsClosing, LevelChange, Outside;
    forall y: nat
      ensures Candidate(nodes, a, y, c) <==> Candidate(nodes, b, y, c)
    {
      if c < |nodes| {
        assert Unmatched(nodes, a, nodes[c].isolateLevel, y, c) <==> Unmatched(nodes, b, nodes[c].isolateLevel, y, c);
      }
    }
  }

  function StackAt(stacks: map<int, seq<nat>>, level: int): seq<nat> {
    if level in stacks then stacks[level] else []
  }

  /** Node n is the next to look at. */
  ghost predicate Scanned(nodes: seq<Run>, pairs: seq<Pair>, stacks: map<int, seq<nat>>, n: nat) {
    && PairsOk(nodes, pairs)
    && (forall i :: 0 <= i < |pairs| ==> pairs[i].close < n)
    && (forall level :: level in stacks ==> StackOk(nodes, pairs, level, stacks[level], n))
  }

  /** The stacks hold just the openers that can still be matched. */
  ghost predicate Stacked(nodes: seq<Run>, pairs: seq<Pair>, stacks: map<int, seq<nat>>, n: nat) {
    forall level, x: nat :: x in StackAt(stacks, level) <==> Live(nodes, pairs, level, x, n)
  }

  /** The same once node n has emptied a stack. */
  ghost predicate Ready(nodes: seq<Run>, pairs: seq<Pair>, stacks: map<int, seq<nat>>, n: nat) {
    forall level, x: nat :: x in StackAt(stacks, level) <==>
      Live(nodes, pairs, level, x, n) && !LevelChange(nodes, level, n)
  }

  lemma ScanNext(nodes: seq<Run>, pairs: seq<Pair>, stacks: map<int, seq<nat>>, n: nat)
    requires Scanned(nodes, pairs, stacks, n) && n < |nodes|
    ensures Scanned(nodes, pairs, stacks, n + 1)
  {
  }

  /** Emptying the stack of a level, or cutting it, as a level change or a match does. */
  lemma ScanCut(nodes: seq<Run>, pairs: seq<Pair>, stacks: map<int, seq<nat>>, n: nat, level: int, k: nat)
    requires Scanned(nodes, pairs, stacks, n) && k <= |StackAt(stacks, level)|
    ensures Scanned(nodes, pairs, stacks[level := StackAt(stacks, level)[..k]], n)
  {
    var cut := stacks[level := StackAt(stacks, level)[..k]];
    hide PairsOk, StackOk;
    forall l | l in cut
      ensures StackOk(nodes, pairs, l, cut[l], n)
    {
      if l == level {
        if level !in stacks { NoStackOk(nodes, pairs, level, n); }
        StackCut(nodes, pairs, level, StackAt(stacks, level), n, k);
      }
    }
  }

  lemma NoStackOk(nodes: seq<Run>, pairs: seq<Pair>, level: int, n: nat)
    ensures StackOk(nodes, pairs, level, [], n)
  {
  }

  lemma StackCut(nodes: seq<Run>, pairs: seq<Pair>, level: int, stack: seq<nat>, n: nat, k: nat)
    requires StackOk(nodes, pairs, level, stack, n) && k <= |stack|
    ensures StackOk(nodes, pairs, level, stack[..k], n)
  {
    hide Outside, IsOpening;
  }

  lemma ScanOpen(nodes: seq<Run>, pairs: seq<Pair>, stacks: map<int, seq<nat>>, n: nat)
    requires Scanned(nodes, pairs, stacks, n) && 1 <= n < |nodes| && IsOpening(nodes[n])
    ensures var level := nodes[n].isolateLevel;
            Scanned(nodes, pairs, stacks[level := StackAt(stacks, level) + [n]], n + 1)
  {
    var level := nodes[n].isolateLevel;
    var pushed := stacks[level := StackAt(stacks, level) + [n]];
    forall l | l in pushed
      ensures StackOk(nodes, pairs, l, pushed[l], n + 1)
    {
    }
  }

  lemma ScanClose(nodes: seq<Run>, pairs: seq<Pair>, stacks: map<int, seq<nat>>, n: nat, k: nat)
    requires Scanned(nodes, pairs, stacks, n) && 1 <= n < |nodes| && IsClosing(nodes[n])
    requires var level := nodes[n].isolateLevel;
             k < |StackAt(stacks, level)| && Opens(nodes, StackAt(stacks, level)[k], n)
    ensures var level := nodes[n].isolateLevel;
            Scanned(nodes, [Pair(StackAt(stacks, level)[k], n)] + pairs, stacks[level := StackAt(stacks, level)[..k]], n + 1)
  {
    var level := nodes[n].isolateLevel;
    var stack := StackAt(stacks, level);
    var pair := Pair(stack[k], n);
    var more, cut := [pair] + pairs, stacks[level := stack[..k]];
    assert Matches(nodes, pair);
    forall i | 0 <= i < |pairs|
      ensures Nest(nodes, pair, pairs[i])
    {
      assert Matches(nodes, pairs[i]);
      OpenersApart(nodes, pairs, stacks, n, level, k, i);
    }
    assert PairsOk(nodes, more);
    forall l | l in cut
      ensures StackOk(nodes, more, l, cut[l], n + 1)
    {
      ScanCut(nodes, pairs, stacks, n, level, k);
      assert StackOk(nodes, pairs, l, cut[l], n);
    }
  }

  /** An opener on a stack is in no pair. */
  lemma OpenersApart(nodes: seq<Run>, pairs: seq<Pair>, stacks: map<int, seq<nat>>, n: nat, level: int, k: nat, i: nat)
    requires Scanned(nodes, pairs, stacks, n) && k < |StackAt(stacks, level)| && i < |pairs|
    ensures Matches(nodes, pairs[i]) && StackAt(stacks, level)[k] < n
    ensures var o := StackAt(stacks, level)[k];
            && o != pairs[i].open && o != pairs[i].close
            && (nodes[pairs[i].open].isolateLevel == level ==> o < pairs[i].open || pairs[i].close < o)
  {
    assert StackOk(nodes, pairs, level, stacks[level], n);
    assert Matches(nodes, pairs[i]);
    assert Outside(nodes, pairs[i], level, stacks[level][k]);
  }

  // ---------------------------------------------------------------- the stacks hold the live openers

  lemma StackedStarts(nodes: seq<Run>)
    ensures Stacked(nodes, [], map[], 1)
  {
  }

  lemma ReadyAfterChange(nodes: seq<Run>, pairs: seq<Pair>, stacks: map<int, seq<nat>>, n: nat, level: int, change: bool)
    requires Stacked(nodes, pairs, stacks, n) && 1 <= n < |nodes|
    requires n >= 2 ==> level == nodes[n - 1].isolateLevel && (change <==> LevelChange(nodes, level, n))
    ensures Ready(nodes, pairs, if change then stacks[level := StackAt(stacks, level)[..0]] else stacks, n)
  {
    hide IsOpening, Outside;
  }

  /** A run that leaves the pairs as they are. */
  lemma LiveNext(nodes: seq<Run>, pairs: seq<Pair>, level: int, x: nat, n: nat)
    requires 1 <= n < |nodes| && forall p :: p in pairs ==> p.close < n
    ensures Live(nodes, pairs, level, x, n + 1) <==>
              (x == n && IsOpening(nodes[n]) && nodes[n].isolateLevel == level)
              || (Live(nodes, pairs, level, x, n) && !LevelChange(nodes, level, n))
  {
    hide IsOpening, IsClosing, LevelChange;
    if x == n {
      assert Unmatched(nodes, pairs, level, n, n + 1);
    }
    if x < n {
      UnbrokenNext(nodes, level, x, n);
      assert Unmatched(nodes, pairs, level, x, n + 1) <==> Unmatched(nodes, pairs, level, x, n);
    }
  }

  lemma UnbrokenNext(nodes: seq<Run>, level: int, x: nat, n: nat)
    requires x < n
    ensures Unbroken(nodes, level, x, n + 1) <==> Unbroken(nodes, level, x, n) && !LevelChange(nodes, level, n)
  {
    hide LevelChange;
    if Unbroken(nodes, level, x, n) && !LevelChange(nodes, level, n) {
      forall r | x < r < n + 1
        ensures !LevelChange(nodes, level, r)
      {
        if r != n { assert r < n; }
      }
    }
  }

  lemma StackedNext(nodes: seq<Run>, pairs: seq<Pair>, stacks: map<int, seq<nat>>, n: nat)
    requires Ready(nodes, pairs, stacks, n) && PairedBefore(nodes, pairs, n) && 1 <= n < |nodes| && !IsOpening(nodes[n])
    ensures Stacked(nodes, pairs, stacks, n + 1)
  {
    hide IsOpening, IsClosing, LevelChange, Live, Nearest, StackAt;
    forall level, x: nat
      ensures x in StackAt(stacks, level) <==> Live(nodes, pairs, level, x, n + 1)
    {
      LiveNext(nodes, pairs, level, x, n);
    }
  }

  lemma StackedOpen(nodes: seq<Run>, pairs: seq<Pair>, stacks: map<int, seq<nat>>, n: nat)
    requires Ready(nodes, pairs, stacks, n) && PairedBefore(nodes, pairs, n) && 1 <= n < |nodes| && IsOpening(nodes[n])
    ensures var level := nodes[n].isolateLevel;
            Stacked(nodes, pairs, stacks[level := StackAt(stacks, level) + [n]], n + 1)
  {
    hide IsOpening, IsClosing, LevelChange, Live, Nearest;
    var pushed := stacks[nodes[n].isolateLevel := StackAt(stacks, nodes[n].isolateLevel) + [n]];
    forall level, x: nat
      ensures x in StackAt(pushed, level) <==> Live(nodes, pairs, level, x, n + 1)
    {
      LiveNext(nodes, pairs, level, x, n);
      assert x in StackAt(pushed, level) <==> x in StackAt(stacks, level) || (x == n && level == nodes[n].isolateLevel);
    }
  }

  lemma LiveWithin(nodes: seq<Run>, pairs: seq<Pair>, level: int, x: nat, n: nat)
    ensures Live(nodes, pairs, level, x, n) ==> x < n <= |nodes| && nodes[x].isolateLevel == level && nodes[x].bracket.Open?
  {
  }

  /** With pair p, which closes at n, the openers that it holds are no longer live. */
  lemma LiveClosed(nodes: seq<Run>, pairs: seq<Pair>, p: Pair, level: int, x: nat, n: nat)
    requires 1 <= n < |nodes| && p.close == n && p.open < n && IsClosing(nodes[n]) && forall q :: q in pairs ==> q.close < n
    requires nodes[p.open].isolateLevel == nodes[n].isolateLevel
    ensures Live(nodes, [p] + pairs, level, x, n + 1) <==>
              (Live(nodes, pairs, level, x, n) && !LevelChange(nodes, level, n)
               && (level == nodes[n].isolateLevel ==> x < p.open))
  {
    LiveNext(nodes, pairs, level, x, n);
    NotBoth(nodes[n]);
    hide IsOpening, LevelChange, Unbroken;
    assert forall q :: q in [p] + pairs <==> q == p || q in pairs;
    if x < n {
      assert Unmatched(nodes, [p] + pairs, level, x, n + 1) <==>
        Unmatched(nodes, pairs, level, x, n + 1) && Outside(nodes, p, level, x);
    }
  }

  lemma NotBoth(run: Run)
    ensures !(IsOpening(run) && IsClosing(run))
  {
  }

  lemma StackedClose(nodes: seq<Run>, pairs: seq<Pair>, stacks: map<int, seq<nat>>, n: nat, k: nat)
    requires Scanned(nodes, pairs, stacks, n)
    requires Ready(nodes, pairs, stacks, n) && PairedBefore(nodes, pairs, n) && 1 <= n < |nodes| && IsClosing(nodes[n])
    requires k < |StackAt(stacks, nodes[n].isolateLevel)|
    ensures var level := nodes[n].isolateLevel;
            Stacked(nodes, [Pair(StackAt(stacks, level)[k], n)] + pairs, stacks[level := StackAt(stacks, level)[..k]], n + 1)
  {
    var iso := nodes[n].isolateLevel;
    var stack := StackAt(stacks, iso);
    var p := Pair(stack[k], n);
    var cut := stacks[iso := stack[..k]];
    assert stack[k] in stack;
    LiveWithin(nodes, pairs, iso, stack[k], n);
    hide IsOpening, IsClosing, LevelChange, Live, Nearest, Scanned;
    forall level, x: nat
      ensures x in StackAt(cut, level) <==> Live(nodes, [p] + pairs, level, x, n + 1)
    {
      LiveClosed(nodes, pairs, p, level, x, n);
      StackBelow(nodes, pairs, stacks, n, iso, k, x);
    }
  }

  lemma StackBelow(nodes: seq<Run>, pairs: seq<Pair>, stacks: map<int, seq<nat>>, n: nat, level: int, k: nat, x: nat)
    requires Scanned(nodes, pairs, stacks, n) && k < |StackAt(stacks, level)|
    ensures x in StackAt(stacks, level)[..k] <==> x in StackAt(stacks, level) && x < StackAt(stacks, level)[k]
  {
    var stack := StackAt(stacks, level);
    hide PairsOk, Outside, IsOpening;
    assert StackOk(nodes, pairs, level, stack, n);
    if x in stack && x < stack[k] {
      var j :| 0 <= j < |stack| && stack[j] == x;
      assert stack[..k][j] == x;
    }
  }

  // ---------------------------------------------------------------- the memory of the stacks

  /** local_bracket_stack, the allocated stacks of deeper isolates, and bracket_stack_size. */
  datatype Memory = Memory(local: seq<nat>, deeper: seq<nat>, sizes: seq<nat>)

  ghost predicate Sized(m: Memory) {
    && |m.local| == MAX_EXPLICIT_LEVEL * LOCAL_BRACKET_SIZE && |m.deeper| == MAX_EXPLICIT_LEVEL * MAX_NESTED_BRACKET_PAIRS
    && |m.sizes| == MAX_EXPLICIT_LEVEL && forall l :: 0 <= l < |m.sizes| ==> m.sizes[l] <= MAX_NESTED_BRACKET_PAIRS
  }

  /** Where entry k of the stack of a level is.  The rows of the first levels follow each other: an entry behind the end of
      one is in the next. */
  function Slot(m: Memory, level: nat, k: nat): nat
    requires Sized(m) && level < MAX_EXPLICIT_LEVEL && k < MAX_NESTED_BRACKET_PAIRS
  {
    if level < LOCAL_BRACKET_SIZE then m.local[LOCAL_BRACKET_SIZE * level + k] else m.deeper[MAX_NESTED_BRACKET_PAIRS * level + k]
  }

  /** The stack of a level as the program sees it. */
  ghost function StackIn(m: Memory, level: nat): (s: seq<nat>)
    requires Sized(m) && level < MAX_EXPLICIT_LEVEL
    ensures |s| == m.sizes[level] && forall k :: 0 <= k < |s| ==> s[k] == Slot(m, level, k)
  {
    seq(m.sizes[level], k requires 0 <= k < m.sizes[level] => Slot(m, level, k))
  }

  /** The stack of a level has grown into the row of another one that is in use. */
  ghost predicate Overlaps(sizes: seq<nat>) {
    exists a, b :: 0 <= a < b < LOCAL_BRACKET_SIZE && b < |sizes| && RunsInto(sizes, a, b)
  }

  predicate RunsInto(sizes: seq<nat>, a: nat, b: nat)
    requires a < |sizes| && b < |sizes|
  {
    sizes[b] > 0 && LOCAL_BRACKET_SIZE * a + sizes[a] > LOCAL_BRACKET_SIZE * b
  }

  /** The memory holds the stacks. */
  ghost predicate Represents(m: Memory, stacks: map<int, seq<nat>>) {
    && Sized(m) && (forall level :: level in stacks ==> 0 <= level < MAX_EXPLICIT_LEVEL)
    && forall level :: 0 <= level < MAX_EXPLICIT_LEVEL ==> StackIn(m, level) == StackAt(stacks, level)
  }

  /** Whatever the memory holds, it is openers that have been met. */
  ghost predicate Sane(nodes: seq<Run>, m: Memory, n: nat) {
    Sized(m) && forall level, k :: 0 <= level < MAX_EXPLICIT_LEVEL && 0 <= k < m.sizes[level] ==> SaneAt(nodes, m, n, level, k)
  }

  ghost predicate SaneAt(nodes: seq<Run>, m: Memory, n: nat, level: nat, k: nat)
    requires Sized(m) && level < MAX_EXPLICIT_LEVEL && k < m.sizes[level]
  {
    1 <= Slot(m, level, k) < n <= |nodes| && IsOpening(nodes[Slot(m, level, k)])
  }

  /** The memory after a push, */
  function Pushed(m: Memory, level: nat, x: nat): Memory
    requires Sized(m) && level < MAX_EXPLICIT_LEVEL && m.sizes[level] < MAX_NESTED_BRACKET_PAIRS
  {
    var k := m.sizes[level];
    var more := m.sizes[level := k + 1];
    if level < LOCAL_BRACKET_SIZE then m.(local := m.local[LOCAL_BRACKET_SIZE * level + k := x], sizes := more)
    else m.(deeper := m.deeper[MAX_NESTED_BRACKET_PAIRS * level + k := x], sizes := more)
  }

  /** and after one stack has been cut. */
  function Cut(m: Memory, level: nat, k: nat): Memory
    requires Sized(m) && level < MAX_EXPLICIT_LEVEL && k <= m.sizes[level]
  {
    m.(sizes := m.sizes[level := k])
  }

  lemma PushedSlot(m: Memory, level: nat, x: nat, l: nat, k: nat)
    requires Sized(m) && level < MAX_EXPLICIT_LEVEL && m.sizes[level] < MAX_NESTED_BRACKET_PAIRS
    requires l < MAX_EXPLICIT_LEVEL && k < MAX_NESTED_BRACKET_PAIRS
    ensures Sized(Pushed(m, level, x)) && Slot(Pushed(m, level, x), level, m.sizes[level]) == x
    ensures Slot(Pushed(m, level, x), l, k) == Slot(m, l, k) || Slot(Pushed(m, level, x), l, k) == x
    ensures l == level && k < m.sizes[level] ==> Slot(Pushed(m, level, x), l, k) == Slot(m, l, k)
    ensures l != level && k < m.sizes[l] && !Overlaps(Pushed(m, level, x).sizes) ==> Slot(Pushed(m, level, x), l, k) == Slot(m, l, k)
  {
    var n := Pushed(m, level, x);
    if l != level && k < m.sizes[l] && l < LOCAL_BRACKET_SIZE && level < LOCAL_BRACKET_SIZE && !Overlaps(n.sizes) {
      if l < level { assert !RunsInto(n.sizes, l, level); } else { assert !RunsInto(n.sizes, level, l); }
    }
  }

  /** As long as no rows overlap, a push changes no other stack. */
  lemma PushHolds(m: Memory, stacks: map<int, seq<nat>>, level: nat, x: nat)
    requires Represents(m, stacks) && level < MAX_EXPLICIT_LEVEL && m.sizes[level] < MAX_NESTED_BRACKET_PAIRS
    requires !Overlaps(Pushed(m, level, x).sizes)
    ensures Represents(Pushed(m, level, x), stacks[level := StackAt(stacks, level) + [x]])
  {
    var n, more := Pushed(m, level, x), stacks[level := StackAt(stacks, level) + [x]];
    hide Slot, Pushed, Overlaps;
    PushedSizes(m, level, x);
    forall l | 0 <= l < MAX_EXPLICIT_LEVEL
      ensures StackIn(n, l) == StackAt(more, l)
    {
      assert StackIn(m, l) == StackAt(stacks, l);
      forall k | 0 <= k < n.sizes[l]
        ensures StackIn(n, l)[k] == StackAt(more, l)[k]
      {
        PushedSlot(m, level, x, l, k);
      }
    }
  }

  lemma PushedSizes(m: Memory, level: nat, x: nat)
    requires Sized(m) && level < MAX_EXPLICIT_LEVEL && m.sizes[level] < MAX_NESTED_BRACKET_PAIRS
    ensures Sized(Pushed(m, level, x)) && Pushed(m, level, x).sizes == m.sizes[level := m.sizes[level] + 1]
  {
  }

  lemma CutHolds(m: Memory, stacks: map<int, seq<nat>>, level: nat, k: nat)
    requires Represents(m, stacks) && level < MAX_EXPLICIT_LEVEL && k <= m.sizes[level]
    ensures |StackAt(stacks, level)| == m.sizes[level] && Represents(Cut(m, level, k), stacks[level := StackAt(stacks, level)[..k]])
  {
    var n, less := Cut(m, level, k), stacks[level := StackAt(stacks, level)[..k]];
    assert |StackIn(m, level)| == m.sizes[level];
    hide Slot;
    SlotsSame(m, n);
    forall l | 0 <= l < MAX_EXPLICIT_LEVEL
      ensures StackIn(n, l) == StackAt(less, l)
    {
      assert StackIn(m, l) == StackAt(stacks, l);
    }
  }

  lemma SlotsSame(m: Memory, n: Memory)
    requires Sized(m) && Sized(n) && m.local == n.local && m.deeper == n.deeper
    ensures forall l: nat, k: nat :: l < MAX_EXPLICIT_LEVEL && k < MAX_NESTED_BRACKET_PAIRS ==> Slot(m, l, k) == Slot(n, l, k)
  {
  }

  lemma PushSane(nodes: seq<Run>, m: Memory, n: nat, level: nat)
    requires Sane(nodes, m, n) && level < MAX_EXPLICIT_LEVEL && m.sizes[level] < MAX_NESTED_BRACKET_PAIRS
    requires 1 <= n < |nodes| && IsOpening(nodes[n])
    ensures Sane(nodes, Pushed(m, level, n), n + 1)
  {
    hide Slot, Pushed, IsOpening;
    var more := Pushed(m, level, n);
    var next := n + 1;
    PushedSizes(m, level, n);
    forall l: nat, k: nat | l < MAX_EXPLICIT_LEVEL && k < more.sizes[l]
      ensures SaneAt(nodes, more, next, l, k)
    {
      PushedSlot(m, level, n, l, k);
      if k < m.sizes[l] { assert SaneAt(nodes, m, n, l, k); }
    }
  }

  lemma CutSane(nodes: seq<Run>, m: Memory, n: nat, level: nat, k: nat)
    requires Sane(nodes, m, n) && level < MAX_EXPLICIT_LEVEL && k <= m.sizes[level]
    ensures Sane(nodes, Cut(m, level, k), n)
  {
    var less := Cut(m, level, k);
    SlotsSame(m, less);
    hide Slot, IsOpening;
    forall l: nat, j: nat | l < MAX_EXPLICIT_LEVEL && j < less.sizes[l]
      ensures SaneAt(nodes, less, n, l, j)
    {
      assert SaneAt(nodes, m, n, l, j);
    }
  }

  lemma SaneNext(nodes: seq<Run>, m: Memory, n: nat)
    requires Sane(nodes, m, n) && n < |nodes|
    ensures Sane(nodes, m, n + 1)
  {
    hide Slot, IsOpening;
    var next := n + 1;
    forall l: nat, k: nat | l < MAX_EXPLICIT_LEVEL && k < m.sizes[l]
      ensures SaneAt(nodes, m, next, l, k)
    {
      assert SaneAt(nodes, m, n, l, k);
    }
  }

  // ---------------------------------------------------------------- the pairs follow the rule

  lemma PairedStarts(nodes: seq<Run>)
    ensures PairedBefore(nodes, [], 1)
  {
  }

  /** Candidates for n are those of its level's stack with the same bracket. */
  lemma CandidateIs(nodes: seq<Run>, pairs: seq<Pair>, stacks: map<int, seq<nat>>, x: nat, n: nat)
    requires Ready(nodes, pairs, stacks, n) && n < |nodes| && IsClosing(nodes[n])
    ensures Candidate(nodes, pairs, x, n) <==>
              x in StackAt(stacks, nodes[n].isolateLevel) && Opens(nodes, x, n)
  {
    hide LevelChange, StackAt, Unbroken, Unmatched;
  }

  /** A later pair does not change what earlier brackets see. */
  lemma NearestKept(nodes: seq<Run>, pairs: seq<Pair>, p: Pair, x: nat, c: nat)
    requires c <= p.close
    ensures Nearest(nodes, [p] + pairs, x, c) <==> Nearest(nodes, pairs, x, c)
  {
    forall q: Pair | q.close < c
      ensures q in [p] + pairs <==> q in pairs
    {
    }
    SameNearest(nodes, [p] + pairs, pairs, x, c);
  }

  lemma PairedNext(nodes: seq<Run>, pairs: seq<Pair>, n: nat)
    requires PairedBefore(nodes, pairs, n) && forall x: nat :: !Candidate(nodes, pairs, x, n)
    ensures PairedBefore(nodes, pairs, n + 1)
  {
    hide Candidate;
  }

  lemma PairedClose(nodes: seq<Run>, pairs: seq<Pair>, p: Pair, n: nat)
    requires PairedBefore(nodes, pairs, n) && p.close == n && Nearest(nodes, pairs, p.open, n)
    ensures PairedBefore(nodes, [p] + pairs, n + 1)
  {
    var more := [p] + pairs;
    forall x: nat, c: nat | c < n + 1
      ensures Pair(x, c) in more <==> Nearest(nodes, more, x, c)
    {
      NearestKept(nodes, pairs, p, x, c);
      if c == n {
        assert Nearest(nodes, pairs, x, n) <==> x == p.open by { OneNearest(nodes, pairs, x, p.open, n); }
        assert Pair(x, c) !in pairs;
      }
    }
  }

  lemma OneNearest(nodes: seq<Run>, pairs: seq<Pair>, x: nat, y: nat, c: nat)
    requires Nearest(nodes, pairs, y, c)
    ensures Nearest(nodes, pairs, x, c) <==> x == y
  {
    hide IsOpening, IsClosing, LevelChange, Outside;
    if c < |nodes| {
      LiveWithin(nodes, pairs, nodes[c].isolateLevel, x, c);
      LiveWithin(nodes, pairs, nodes[c].isolateLevel, y, c);
    }
  }

  // ---------------------------------------------------------------- the loop

  /** The openers of a level that can still be matched at n, and their number at each level. */
  ghost function WaitingAt(nodes: seq<Run>, pairs: seq<Pair>, level: int, n: nat): set<nat> {
    set x: nat | x < n && Live(nodes, pairs, level, x, n)
  }

  ghost function Depths(nodes: seq<Run>, pairs: seq<Pair>, n: nat): (s: seq<nat>)
    ensures |s| == MAX_EXPLICIT_LEVEL && forall l :: 0 <= l < |s| ==> s[l] == |WaitingAt(nodes, pairs, l, n)|
  {
    seq(MAX_EXPLICIT_LEVEL, l requires 0 <= l < MAX_EXPLICIT_LEVEL => |WaitingAt(nodes, pairs, l, n)|)
  }

  /** So many openers wait before n at one level that the row of a deeper one, where others wait, has been written to. */
  ghost predicate Crowded(nodes: seq<Run>, pairs: seq<Pair>, n: nat) { Overlaps(Depths(nodes, pairs, n)) }

  /** That takes more than 16 openers that wait at one of the first levels. */
  lemma CrowdedIsDeep(nodes: seq<Run>, pairs: seq<Pair>, n: nat)
    requires Crowded(nodes, pairs, n)
    ensures exists level :: 0 <= level < LOCAL_BRACKET_SIZE - 1 && |WaitingAt(nodes, pairs, level, n)| > LOCAL_BRACKET_SIZE
  {
    var sizes := Depths(nodes, pairs, n);
    var a, b :| 0 <= a < b < LOCAL_BRACKET_SIZE && b < |sizes| && RunsInto(sizes, a, b);
    assert |WaitingAt(nodes, pairs, a, n)| == sizes[a];
  }

  /** What then happens: an opener of the deeper level takes the place of one of the other level. */
  lemma OverlapOverwrites(m: Memory, a: nat, b: nat, x: nat)
    requires Sized(m) && a < b < LOCAL_BRACKET_SIZE && m.sizes[b] < MAX_NESTED_BRACKET_PAIRS
    requires LOCAL_BRACKET_SIZE * b + m.sizes[b] < LOCAL_BRACKET_SIZE * a + m.sizes[a]
    ensures Sized(Pushed(m, b, x)) && StackIn(Pushed(m, b, x), a)[LOCAL_BRACKET_SIZE * (b - a) + m.sizes[b]] == x
  {
    PushedSizes(m, b, x);
  }

  ghost predicate SizesAre(m: Memory, stacks: map<int, seq<nat>>) {
    Sized(m) && forall level :: 0 <= level < MAX_EXPLICIT_LEVEL ==> m.sizes[level] == |StackAt(stacks, level)|
  }

  lemma RepresentsSizes(m: Memory, stacks: map<int, seq<nat>>)
    requires Represents(m, stacks)
    ensures SizesAre(m, stacks)
  {
    forall level | 0 <= level < MAX_EXPLICIT_LEVEL
      ensures m.sizes[level] == |StackAt(stacks, level)|
    {
      assert StackIn(m, level) == StackAt(stacks, level);
    }
  }

  lemma {:induction false} AscendingCount(s: seq<nat>, all: set<nat>)
    requires forall i, j :: 0 <= i < j < |s| ==> s[i] < s[j]
    requires forall x: nat :: x in s <==> x in all
    ensures |s| == |all|
  {
    if s == [] {
      assert all == {};
    } else {
      var last := s[|s| - 1];
      var rest := s[..|s| - 1];
      assert s == rest + [last];
      AscendingCount(rest, all - {last});
    }
  }

  lemma DepthsAre(nodes: seq<Run>, pairs: seq<Pair>, m: Memory, stacks: map<int, seq<nat>>, n: nat)
    requires Scanned(nodes, pairs, stacks, n) && Stacked(nodes, pairs, stacks, n) && SizesAre(m, stacks)
    ensures Depths(nodes, pairs, n) == m.sizes
  {
    hide Live, PairsOk, Outside, IsOpening;
    forall level: int | 0 <= level < MAX_EXPLICIT_LEVEL
      ensures |WaitingAt(nodes, pairs, level, n)| == m.sizes[level]
    {
      forall x: nat
        ensures x in StackAt(stacks, level) <==> x in WaitingAt(nodes, pairs, level, n)
      {
        LiveWithin(nodes, pairs, level, x, n);
      }
      assert level in stacks ==> StackOk(nodes, pairs, level, stacks[level], n);
      AscendingCount(StackAt(stacks, level), WaitingAt(nodes, pairs, level, n));
    }
  }

  /** What is known of every pair, whatever has become of the stacks. */
  ghost predicate Bracketed(nodes: seq<Run>, p: Pair) {
    1 <= p.open < p.close < |nodes| && IsOpening(nodes[p.open]) && IsClosing(nodes[p.close])
  }

  ghost predicate AllBracketed(nodes: seq<Run>, pairs: seq<Pair>) {
    forall p :: p in pairs ==> Bracketed(nodes, p)
  }

  predicate LevelsIndex(nodes: seq<Run>) {
    forall i :: 1 <= i < |nodes| ==> 0 <= nodes[i].isolateLevel < MAX_EXPLICIT_LEVEL
  }

  /** As long as no rows overlap, the memory holds the openers that the rule lets wait, and the pairs are those of the rule. */
  ghost predicate Tracks(nodes: seq<Run>, pairs: seq<Pair>, stacks: map<int, seq<nat>>, n: nat) {
    Scanned(nodes, pairs, stacks, n) && Stacked(nodes, pairs, stacks, n) && PairedBefore(nodes, pairs, n)
  }

  /** Rows have overlapped when `upto` was reached; until then the pairs were those of the rule. */
  ghost predicate Overrun(nodes: seq<Run>, ruled: seq<Pair>, upto: nat) {
    PairsOk(nodes, ruled) && PairedBefore(nodes, ruled, upto) && Crowded(nodes, ruled, upto)
  }

  lemma NoPairsBracketed(nodes: seq<Run>)
    ensures AllBracketed(nodes, [])
  {
  }

  lemma TracksStart(nodes: seq<Run>, m: Memory)
    requires Sized(m) && forall l :: 0 <= l < MAX_EXPLICIT_LEVEL ==> m.sizes[l] == 0
    ensures Tracks(nodes, [], map[], 1) && Represents(m, map[]) && Sane(nodes, m, 1)
  {
    ScanStarts(nodes);
    StackedStarts(nodes);
    PairedStarts(nodes);
    forall level | 0 <= level < MAX_EXPLICIT_LEVEL
      ensures StackIn(m, level) == StackAt(map[], level)
    {
      assert |StackIn(m, level)| == 0;
    }
  }

  /** The loop over the runs; pairs are pushed to the front of their list.  They are the pairs of the rule up to `upto`, which
      is where the loop stopped unless the rows of the memory have overlapped before. */
  method FindPairs(nodes: seq<Run>) returns (pairs: seq<Pair>, stop: nat, ghost ruled: seq<Pair>, ghost upto: nat)
    requires |nodes| >= 1 && LevelsIndex(nodes)
    ensures AllBracketed(nodes, pairs) && upto <= stop <= |nodes|
    ensures PairsOk(nodes, ruled) && PairedBefore(nodes, ruled, upto)
    ensures (pairs == ruled && upto == stop) || Crowded(nodes, ruled, upto)
    ensures stop < |nodes| ==> IsOpening(nodes[stop])
    ensures upto == stop < |nodes| && pairs == ruled ==> Full(nodes, pairs, stop) || Crowded(nodes, ruled, upto)
  {
    hide Tracks, PairsOk, PairedBefore, Full, IsOpening, IsClosing, StackAt, Represents, Sane, AllBracketed, Crowded, Overrun, Overlaps, Cut, StackIn;
    pairs, ruled := [], [];
    var m := Memory(seq(MAX_EXPLICIT_LEVEL * LOCAL_BRACKET_SIZE, _ => 0), seq(MAX_EXPLICIT_LEVEL * MAX_NESTED_BRACKET_PAIRS, _ => 0),
                    seq(MAX_EXPLICIT_LEVEL, _ => 0));
    ghost var stacks: map<int, seq<nat>> := map[];
    ghost var exact := true;
    var lastLevel := nodes[0].level;
    var lastIsoLevel := 0;
    stop, upto := 1, 1;
    TracksStart(nodes, m);
    TracksEnds(nodes, pairs, stacks, 1);
    NoPairsBracketed(nodes);
    while stop < |nodes|
      invariant 1 <= stop <= |nodes| && Sane(nodes, m, stop) && AllBracketed(nodes, pairs)
      invariant 0 <= lastIsoLevel < MAX_EXPLICIT_LEVEL
      invariant stop >= 2 ==> (lastLevel == nodes[stop - 1].level && lastIsoLevel == nodes[stop - 1].isolateLevel)
      invariant exact ==> Tracks(nodes, pairs, stacks, stop) && Represents(m, stacks)
      invariant exact ==> PairsOk(nodes, pairs) && PairedBefore(nodes, pairs, stop)
      invariant if exact then ruled == pairs && upto == stop else upto <= stop && Overrun(nodes, ruled, upto)
    {
      var run := nodes[stop];
      var isoLevel := run.isolateLevel;
      SaneSized(nodes, m, stop);
      var change := run.level != lastLevel && lastIsoLevel == isoLevel;
      if exact { Poise(nodes, pairs, m, stacks, stop, lastIsoLevel, change); }
      if change {
        CutSane(nodes, m, stop, lastIsoLevel, 0);
        m := Cut(m, lastIsoLevel, 0);
        stacks := stacks[lastIsoLevel := StackAt(stacks, lastIsoLevel)[..0]];
      }
      SaneSized(nodes, m, stop);
      if IsOpening(run) {
        if m.sizes[isoLevel] == MAX_NESTED_BRACKET_PAIRS {
          if exact { FullMemory(nodes, pairs, m, stacks, stop); }
          break;
        }
      }
      pairs, m, stacks := ScanRun(nodes, pairs, m, stacks, stop, exact);
      lastLevel := run.level;
      lastIsoLevel := isoLevel;
      stop := stop + 1;
      if exact {
        TracksEnds(nodes, pairs, stacks, stop);
        ruled, upto := pairs, stop;
        if Overlaps(m.sizes) {
          Overran(nodes, pairs, m, stacks, stop);
          exact := false;
        }
      }
    }
    if !exact { OverrunIs(nodes, ruled, upto); }
  }

  /** As many openers wait at the isolate level of n as the stack can hold. */
  ghost predicate Full(nodes: seq<Run>, pairs: seq<Pair>, n: nat) {
    n < |nodes| && exists waiting: seq<nat> ::
      && |waiting| == MAX_NESTED_BRACKET_PAIRS
      && (forall i, j :: 0 <= i < j < |waiting| ==> waiting[i] < waiting[j])
      && forall x: nat :: x in waiting <==> Waits(nodes, pairs, x, n)
  }

  ghost predicate Waits(nodes: seq<Run>, pairs: seq<Pair>, x: nat, n: nat)
    requires n < |nodes|
  {
    Live(nodes, pairs, nodes[n].isolateLevel, x, n) && !LevelChange(nodes, nodes[n].isolateLevel, n)
  }

  lemma FullStack(nodes: seq<Run>, pairs: seq<Pair>, stacks: map<int, seq<nat>>, n: nat)
    requires Scanned(nodes, pairs, stacks, n) && Ready(nodes, pairs, stacks, n) && n < |nodes|
    requires |StackAt(stacks, nodes[n].isolateLevel)| == MAX_NESTED_BRACKET_PAIRS
    ensures Full(nodes, pairs, n)
  {
    var level := nodes[n].isolateLevel;
    var stack := StackAt(stacks, level);
    assert StackOk(nodes, pairs, level, stack, n);
    forall x: nat
      ensures x in stack <==> Waits(nodes, pairs, x, n)
    {
      hide Live, LevelChange, StackAt;
    }
  }

  lemma SaneSized(nodes: seq<Run>, m: Memory, n: nat)
    requires Sane(nodes, m, n)
    ensures Sized(m)
  {
  }

  lemma SaneIs(nodes: seq<Run>, m: Memory, n: nat, level: nat, k: nat)
    requires Sane(nodes, m, n) && level < MAX_EXPLICIT_LEVEL && k < m.sizes[level]
    ensures 1 <= Slot(m, level, k) < n <= |nodes| && IsOpening(nodes[Slot(m, level, k)]) && nodes[Slot(m, level, k)].bracket.Open?
  {
    assert SaneAt(nodes, m, n, level, k);
  }

  lemma FoundBracketed(nodes: seq<Run>, pairs: seq<Pair>, m: Memory, n: nat, k: nat)
    requires n < |nodes| && LevelsIndex(nodes) && Sane(nodes, m, n) && AllBracketed(nodes, pairs) && 1 <= n && IsClosing(nodes[n])
    requires k < m.sizes[nodes[n].isolateLevel]
    ensures AllBracketed(nodes, [Pair(Slot(m, nodes[n].isolateLevel, k), n)] + pairs)
  {
    hide Slot, IsOpening, IsClosing, Sane;
    SaneIs(nodes, m, n, nodes[n].isolateLevel, k);
  }

  /** Once node n has emptied a stack where it must. */
  ghost predicate Poised(nodes: seq<Run>, pairs: seq<Pair>, stacks: map<int, seq<nat>>, n: nat) {
    Scanned(nodes, pairs, stacks, n) && Ready(nodes, pairs, stacks, n) && PairedBefore(nodes, pairs, n)
  }

  lemma Poise(nodes: seq<Run>, pairs: seq<Pair>, m: Memory, stacks: map<int, seq<nat>>, n: nat, level: int, change: bool)
    requires Tracks(nodes, pairs, stacks, n) && Represents(m, stacks) && 1 <= n < |nodes| && 0 <= level < MAX_EXPLICIT_LEVEL
    requires n >= 2 ==> level == nodes[n - 1].isolateLevel && (change <==> LevelChange(nodes, level, n))
    ensures if change then Poised(nodes, pairs, stacks[level := StackAt(stacks, level)[..0]], n)
                           && Represents(Cut(m, level, 0), stacks[level := StackAt(stacks, level)[..0]])
            else Poised(nodes, pairs, stacks, n)
  {
    hide Scanned, Stacked, Ready, PairedBefore, StackAt, Represents, Cut;
    ReadyAfterChange(nodes, pairs, stacks, n, level, change);
    if change {
      ScanCut(nodes, pairs, stacks, n, level, 0);
      assert Sized(m) by { RepresentsSizes(m, stacks); }
      CutHolds(m, stacks, level, 0);
    }
  }

  lemma FullMemory(nodes: seq<Run>, pairs: seq<Pair>, m: Memory, stacks: map<int, seq<nat>>, n: nat)
    requires Poised(nodes, pairs, stacks, n) && Represents(m, stacks) && 1 <= n < |nodes| && LevelsIndex(nodes)
    requires Sized(m) && m.sizes[nodes[n].isolateLevel] == MAX_NESTED_BRACKET_PAIRS
    ensures Full(nodes, pairs, n)
  {
    hide Scanned, Ready, PairedBefore, StackAt, Represents, Full;
    RepresentsSizes(m, stacks);
    FullStack(nodes, pairs, stacks, n);
  }

  lemma Overran(nodes: seq<Run>, pairs: seq<Pair>, m: Memory, stacks: map<int, seq<nat>>, n: nat)
    requires Tracks(nodes, pairs, stacks, n) && SizesAre(m, stacks) && Overlaps(m.sizes)
    ensures Overrun(nodes, pairs, n)
  {
    hide Scanned, Stacked, PairedBefore, PairsOk, SizesAre, Overlaps;
    DepthsAre(nodes, pairs, m, stacks, n);
    ScanEnds(nodes, pairs, stacks, n);
  }

  lemma OverrunIs(nodes: seq<Run>, ruled: seq<Pair>, upto: nat)
    requires Overrun(nodes, ruled, upto)
    ensures PairsOk(nodes, ruled) && PairedBefore(nodes, ruled, upto) && Crowded(nodes, ruled, upto)
  {
  }

  lemma TracksEnds(nodes: seq<Run>, pairs: seq<Pair>, stacks: map<int, seq<nat>>, n: nat)
    requires Tracks(nodes, pairs, stacks, n) || Poised(nodes, pairs, stacks, n)
    ensures PairsOk(nodes, pairs) && PairedBefore(nodes, pairs, n)
  {
    hide Stacked, Ready, PairedBefore, PairsOk;
  }

  lemma OpenStep(nodes: seq<Run>, pairs: seq<Pair>, m: Memory, stacks: map<int, seq<nat>>, n: nat)
    requires Poised(nodes, pairs, stacks, n) && Represents(m, stacks) && 1 <= n < |nodes| && LevelsIndex(nodes) && IsOpening(nodes[n])
    requires Sized(m) && m.sizes[nodes[n].isolateLevel] < MAX_NESTED_BRACKET_PAIRS
    ensures var level := nodes[n].isolateLevel;
            var held := stacks[level := StackAt(stacks, level) + [n]];
            Tracks(nodes, pairs, held, n + 1) && SizesAre(Pushed(m, level, n), held)
            && (!Overlaps(Pushed(m, level, n).sizes) ==> Represents(Pushed(m, level, n), held))
  {
    hide Scanned, Stacked, Ready, PairedBefore, Represents, Overlaps, IsOpening, IsClosing, Pushed;
    var level := nodes[n].isolateLevel;
    ScanOpen(nodes, pairs, stacks, n);
    StackedOpen(nodes, pairs, stacks, n);
    NotBoth(nodes[n]);
    NoCandidate(nodes, pairs, n);
    PairedNext(nodes, pairs, n);
    RepresentsSizes(m, stacks);
    PushedSizes(m, level, n);
    if !Overlaps(Pushed(m, level, n).sizes) { PushHolds(m, stacks, level, n); }
  }

  lemma CloseStep(nodes: seq<Run>, pairs: seq<Pair>, m: Memory, stacks: map<int, seq<nat>>, n: nat, k: nat)
    requires Poised(nodes, pairs, stacks, n) && Represents(m, stacks) && 1 <= n < |nodes| && LevelsIndex(nodes) && IsClosing(nodes[n])
    requires Sized(m) && k < m.sizes[nodes[n].isolateLevel] && Innermost(nodes, StackIn(m, nodes[n].isolateLevel), n, k)
    ensures var level := nodes[n].isolateLevel;
            k < |StackAt(stacks, level)|
    ensures var level := nodes[n].isolateLevel;
            var held := stacks[level := StackAt(stacks, level)[..k]];
            Tracks(nodes, [Pair(Slot(m, level, k), n)] + pairs, held, n + 1)
            && SizesAre(Cut(m, level, k), held) && Represents(Cut(m, level, k), held)
  {
    hide Scanned, Stacked, Ready, PairedBefore, Represents, IsOpening, IsClosing, Cut, StackAt, Opens, Candidate, Slot;
    var level := nodes[n].isolateLevel;
    InMemory(m, stacks, level);
    FoundIs(nodes, pairs, stacks, n, k);
    assert Slot(m, level, k) == StackIn(m, level)[k];
    ScanClose(nodes, pairs, stacks, n, k);
    StackedClose(nodes, pairs, stacks, n, k);
    PairedClose(nodes, pairs, Pair(StackAt(stacks, level)[k], n), n);
    CutHolds(m, stacks, level, k);
    RepresentsSizes(Cut(m, level, k), stacks[level := StackAt(stacks, level)[..k]]);
  }

  lemma InMemory(m: Memory, stacks: map<int, seq<nat>>, level: nat)
    requires Represents(m, stacks) && level < MAX_EXPLICIT_LEVEL
    ensures Sized(m) && StackIn(m, level) == StackAt(stacks, level)
  {
  }

  lemma MissStep(nodes: seq<Run>, pairs: seq<Pair>, m: Memory, stacks: map<int, seq<nat>>, n: nat, k: int)
    requires Poised(nodes, pairs, stacks, n) && Represents(m, stacks) && 1 <= n < |nodes| && LevelsIndex(nodes) && IsClosing(nodes[n])
    requires Sized(m) && k == -1 && Innermost(nodes, StackIn(m, nodes[n].isolateLevel), n, k)
    ensures Tracks(nodes, pairs, stacks, n + 1) && SizesAre(m, stacks)
  {
    hide Scanned, Stacked, Ready, PairedBefore, Represents, IsOpening, IsClosing, StackAt, Opens, Candidate, Slot, SizesAre;
    InMemory(m, stacks, nodes[n].isolateLevel);
    FoundIs(nodes, pairs, stacks, n, k);
    ScanNext(nodes, pairs, stacks, n);
    NotBoth(nodes[n]);
    StackedNext(nodes, pairs, stacks, n);
    PairedNext(nodes, pairs, n);
    RepresentsSizes(m, stacks);
  }

  lemma OtherStep(nodes: seq<Run>, pairs: seq<Pair>, m: Memory, stacks: map<int, seq<nat>>, n: nat)
    requires Poised(nodes, pairs, stacks, n) && Represents(m, stacks) && 1 <= n < |nodes|
    requires !IsOpening(nodes[n]) && !IsClosing(nodes[n])
    ensures Tracks(nodes, pairs, stacks, n + 1) && SizesAre(m, stacks)
  {
    hide Scanned, Stacked, Ready, PairedBefore, Represents, IsOpening, IsClosing, StackAt, Candidate, SizesAre;
    ScanNext(nodes, pairs, stacks, n);
    StackedNext(nodes, pairs, stacks, n);
    NoCandidate(nodes, pairs, n);
    PairedNext(nodes, pairs, n);
    RepresentsSizes(m, stacks);
  }

  /** One run, once a level change has been seen to and there is room for an opener. */
  method ScanRun(nodes: seq<Run>, pairs: seq<Pair>, m: Memory, ghost stacks: map<int, seq<nat>>, i: nat, ghost exact: bool)
      returns (more: seq<Pair>, next: Memory, ghost held: map<int, seq<nat>>)
    requires 1 <= i < |nodes| && LevelsIndex(nodes) && Sane(nodes, m, i) && AllBracketed(nodes, pairs)
    requires Sized(m) && (IsOpening(nodes[i]) ==> m.sizes[nodes[i].isolateLevel] < MAX_NESTED_BRACKET_PAIRS)
    requires exact ==> Poised(nodes, pairs, stacks, i) && Represents(m, stacks)
    ensures Sane(nodes, next, i + 1) && AllBracketed(nodes, more)
    ensures exact ==> Tracks(nodes, more, held, i + 1) && SizesAre(next, held)
    ensures exact && !Overlaps(next.sizes) ==> Represents(next, held)
  {
    hide Tracks, Poised, IsOpening, IsClosing, StackAt, Opens, Represents, Sane, AllBracketed, Overlaps, Cut, Pushed, SizesAre, StackIn, Slot;
    var run := nodes[i];
    var isoLevel := run.isolateLevel;
    more, next, held := pairs, m, stacks;
    if IsOpening(run) {
      PushSane(nodes, m, i, isoLevel);
      next := Pushed(m, isoLevel, i);
      held := stacks[isoLevel := StackAt(stacks, isoLevel) + [i]];
      if exact { OpenStep(nodes, pairs, m, stacks, i); }
    } else if IsClosing(run) {
      var k := FindOpener(nodes, m, i);
      if k >= 0 {
        more := [Pair(Slot(m, isoLevel, k), i)] + pairs;
        FoundBracketed(nodes, pairs, m, i, k);
        CutSane(nodes, m, i, isoLevel, k);
        next := Cut(m, isoLevel, k);
        SaneNext(nodes, next, i);
        if exact {
          CloseStep(nodes, pairs, m, stacks, i, k);
          held := stacks[isoLevel := StackAt(stacks, isoLevel)[..k]];
        }
      } else {
        SaneNext(nodes, m, i);
        if exact { MissStep(nodes, pairs, m, stacks, i, k); }
      }
    } else {
      SaneNext(nodes, m, i);
      if exact { OtherStep(nodes, pairs, m, stacks, i); }
    }
  }

  lemma NoCandidate(nodes: seq<Run>, pairs: seq<Pair>, n: nat)
    requires n < |nodes| && !IsClosing(nodes[n])
    ensures forall x: nat :: !Candidate(nodes, pairs, x, n)
  {
  }

  /** Opener x has the bracket that n closes. */
  predicate Opens(nodes: seq<Run>, x: nat, n: nat)
    requires n < |nodes| && IsClosing(nodes[n])
  {
    x < |nodes| && IsOpening(nodes[x]) && nodes[x].bracket.id == nodes[n].bracket.id
  }

  predicate Innermost(nodes: seq<Run>, stack: seq<nat>, n: nat, k: int)
    requires n < |nodes| && IsClosing(nodes[n]) && -1 <= k < |stack|
  {
    && (k >= 0 ==> Opens(nodes, stack[k], n))
    && (forall j :: k < j < |stack| ==> !Opens(nodes, stack[j], n))
  }

  /** The innermost opener on the stack with the bracket of n is the nearest candidate. */
  lemma FoundIs(nodes: seq<Run>, pairs: seq<Pair>, stacks: map<int, seq<nat>>, n: nat, k: int)
    requires Scanned(nodes, pairs, stacks, n) && Ready(nodes, pairs, stacks, n) && n < |nodes| && IsClosing(nodes[n])
    requires -1 <= k < |StackAt(stacks, nodes[n].isolateLevel)| && Innermost(nodes, StackAt(stacks, nodes[n].isolateLevel), n, k)
    ensures k >= 0 ==> Nearest(nodes, pairs, StackAt(stacks, nodes[n].isolateLevel)[k], n)
    ensures k < 0 ==> forall x: nat :: !Candidate(nodes, pairs, x, n)
  {
    hide Candidate, Opens, IsOpening, IsClosing, LevelChange, Live, Outside, PairsOk, Ready;
    var level := nodes[n].isolateLevel;
    var stack := StackAt(stacks, level);
    forall x: nat
      ensures Candidate(nodes, pairs, x, n) <==> x in stack && Opens(nodes, x, n)
    {
      CandidateIs(nodes, pairs, stacks, x, n);
    }
    if k >= 0 {
      assert stack[k] in stack;
      assert StackOk(nodes, pairs, level, stack, n);
      forall y | stack[k] < y < n
        ensures !Candidate(nodes, pairs, y, n)
      {
        if y in stack {
          var j :| 0 <= j < |stack| && stack[j] == y;
          assert k < j;
        }
      }
    }
  }

  lemma ScanStarts(nodes: seq<Run>)
    ensures Scanned(nodes, [], map[], 1)
  {
  }

  lemma ScanEnds(nodes: seq<Run>, pairs: seq<Pair>, stacks: map<int, seq<nat>>, n: nat)
    requires Scanned(nodes, pairs, stacks, n)
    ensures PairsOk(nodes, pairs)
  {
  }

  /** The innermost open bracket that matches, or -1. */
  method FindOpener(nodes: seq<Run>, m: Memory, i: nat) returns (k: int)
    requires 1 <= i < |nodes| && IsClosing(nodes[i]) && LevelsIndex(nodes) && Sane(nodes, m, i) && Sized(m)
    ensures -1 <= k < m.sizes[nodes[i].isolateLevel] && Innermost(nodes, StackIn(m, nodes[i].isolateLevel), i, k)
  {
    hide Sane, Slot, IsOpening;
    var level := nodes[i].isolateLevel;
    k := m.sizes[level] as int - 1;
    while k >= 0
      invariant -1 <= k < m.sizes[level]
      invariant forall j :: k < j < |StackIn(m, level)| ==> !Opens(nodes, StackIn(m, level)[j], i)
    {
      SaneIs(nodes, m, i, level, k);
      if nodes[Slot(m, level, k)].bracket.id == nodes[i].bracket.id {
        return;
      }
      k := k - 1;
    }
  }

  // ---------------------------------------------------------------- sorting

  /** Ascending by opening bracket. */
  ghost predicate Sorted(pairs: seq<Pair>) {
    forall i, j :: 0 <= i < j < |pairs| ==> pairs[i].open <= pairs[j].open
  }

  /** pairing_nodes_front_back_split: one cursor moves two steps while the other moves one. */
  method FrontBackSplit(source: seq<Pair>) returns (front: seq<Pair>, back: seq<Pair>)
    ensures front + back == source
    ensures |source| >= 2 ==> 0 < |front| < |source|
  {
    if |source| < 2 {
      return source, [];
    }
    var slow, fast := 0, 1;
    while fast < |source|
      invariant 0 <= slow < |source| - 1 && fast <= |source|
      invariant fast == 2 * slow + 1 || (fast == |source| && slow < |source| - 1)
      decreases |source| - fast
    {
      fast := fast + 1;
      if fast < |source| {
        fast := fast + 1;
        slow := slow + 1;
      }
    }
    front, back := source[..slow + 1], source[slow + 1..];
  }

  /** pairing_nodes_sorted_merge */
  method SortedMerge(a: seq<Pair>, b: seq<Pair>) returns (res: seq<Pair>)
    requires Sorted(a) && Sorted(b)
    ensures Sorted(res) && multiset(res) == multiset(a) + multiset(b)
    decreases |a| + |b|
  {
    if a == [] { return b; }
    if b == [] { return a; }
    if a[0].open < b[0].open {
      var rest := SortedMerge(a[1..], b);
      res := [a[0]] + rest;
      MergeHead(a, b, rest);
    } else {
      var rest := SortedMerge(a, b[1..]);
      res := [b[0]] + rest;
      MergeHead(b, a, rest);
    }
  }

  lemma MergeHead(a: seq<Pair>, b: seq<Pair>, rest: seq<Pair>)
    requires a != [] && b != [] && a[0].open <= b[0].open && Sorted(a) && Sorted(b) && Sorted(rest)
    requires multiset(rest) == multiset(a[1..]) + multiset(b)
    ensures Sorted([a[0]] + rest) && multiset([a[0]] + rest) == multiset(a) + multiset(b)
  {
    forall p | p in rest
      ensures a[0].open <= p.open
    {
      assert p in multiset(rest);
      if p in a[1..] {
      } else {
        assert p in multiset(b);
      }
    }
    assert a == [a[0]] + a[1..];
  }

  /** sort_pairing_nodes */
  method SortPairs(pairs: seq<Pair>) returns (sorted: seq<Pair>)
    ensures Sorted(sorted) && multiset(sorted) == multiset(pairs)
    decreases |pairs|
  {
    if |pairs| < 2 { return pairs; }
    var front, back := FrontBackSplit(pairs);
    assert multiset(pairs) == multiset(front) + multiset(back);
    front := SortPairs(front);
    back := SortPairs(back);
    sorted := SortedMerge(front, back);
  }

  /** Sorting keeps the pairs as they are: the same ones, each once, in strictly ascending order. */
  lemma {:induction false} SortKeepsPairs(nodes: seq<Run>, pairs: seq<Pair>, sorted: seq<Pair>)
    requires PairsOk(nodes, pairs) && Sorted(sorted) && multiset(sorted) == multiset(pairs)
    ensures PairsOk(nodes, sorted)
    ensures forall i, j :: 0 <= i < j < |sorted| ==> sorted[i].open < sorted[j].open
  {
    forall i | 0 <= i < |sorted|
      ensures Matches(nodes, sorted[i])
    {
      assert sorted[i] in multiset(pairs);
      var k :| 0 <= k < |pairs| && pairs[k] == sorted[i];
    }
    forall i, j | 0 <= i < j < |sorted|
      ensures Nest(nodes, sorted[i], sorted[j])
    {
      DistinctIn(nodes, pairs, sorted, i, j);
      assert sorted[i] in multiset(pairs) && sorted[j] in multiset(pairs);
      var k :| 0 <= k < |pairs| && pairs[k] == sorted[i];
      var l :| 0 <= l < |pairs| && pairs[l] == sorted[j];
      assert k != l;
    }
  }

  lemma DistinctIn(nodes: seq<Run>, pairs: seq<Pair>, sorted: seq<Pair>, i: nat, j: nat)
    requires PairsOk(nodes, pairs) && multiset(sorted) == multiset(pairs) && i < j < |sorted|
    ensures sorted[i] != sorted[j]
  {
    AtMostOnce(nodes, pairs, sorted[i]);
    TwiceIn(sorted, i, j);
  }

  lemma TwiceIn(pairs: seq<Pair>, i: nat, j: nat)
    requires i < j < |pairs|
    ensures pairs[i] == pairs[j] ==> multiset(pairs)[pairs[i]] >= 2
  {
    assert pairs == pairs[..j] + pairs[j..];
    assert pairs[..j][i] in multiset(pairs[..j]);
    assert pairs[j..][0] in multiset(pairs[j..]);
  }

  lemma {:induction false} AtMostOnce(nodes: seq<Run>, pairs: seq<Pair>, p: Pair)
    requires PairsOk(nodes, pairs)
    ensures multiset(pairs)[p] <= 1
  {
    if pairs != [] {
      assert pairs == [pairs[0]] + pairs[1..];
      AtMostOnce(nodes, pairs[1..], p);
      if p in pairs[1..] {
        var k :| 0 <= k < |pairs[1..]| && pairs[1..][k] == p;
        assert Nest(nodes, pairs[0], pairs[k + 1]);
      }
    }
  }
}
