/** The merge sort of sort_list, 3rd/cjson/cJSON_Utils.c, on a doubly linked list of the heap. */
module SortList {
  import opened Wrappers
  import opened CStrings

  /** What sort_list uses of a cJSON: the links, and the key, which may be NULL. */
  class Node {
    var next: Node?
    var prev: Node?
    const key: Option<string>

    constructor (key: Option<string>)
      ensures this.key == key && next == null && prev == null
    {
      this.key := key;
      next := null;
      prev := null;
    }
  }

  // ---------------------------------------------------------------- the order of keys

  /** compare_strings; NULL is equal to nothing and never less. */
  function CompareKeys(a: Option<string>, b: Option<string>, caseSensitive: bool): int {
    if a.None? || b.None? then 1 else Compare(a.value, b.value, caseSensitive)
  }

  ghost predicate Keyed(s: seq<Node>) { forall i :: 0 <= i < |s| ==> s[i].key.Some? }

  ghost predicate NotAfter(a: Node, b: Node, cs: bool) {
    a.key.Some? && b.key.Some? && CompareKeys(a.key, b.key, cs) <= 0
  }

  ghost predicate Sorted(s: seq<Node>, cs: bool) {
    forall i, j :: 0 <= i < j < |s| ==> NotAfter(s[i], s[j], cs)
  }

  lemma NotAfterTransitive(a: Node, b: Node, c: Node, cs: bool)
    requires NotAfter(a, b, cs) && NotAfter(b, c, cs)
    ensures NotAfter(a, c, cs)
  {
    CompareTransitive(a.key.value, b.key.value, c.key.value, cs);
  }

  lemma OneOrTheOther(a: Node, b: Node, cs: bool)
    requires a.key.Some? && b.key.Some?
    ensures if CompareKeys(a.key, b.key, cs) < 0 then NotAfter(a, b, cs) else NotAfter(b, a, cs)
  {
    CompareSwapped(a.key.value, b.key.value, cs);
  }

  /** The test at the start: each key before the next. */
  ghost predicate Ascending(s: seq<Node>, n: nat, cs: bool) {
    forall i :: 0 <= i < n && i + 1 < |s| ==> CompareKeys(s[i].key, s[i + 1].key, cs) < 0
  }

  lemma {:induction false} AscendingSorted(s: seq<Node>, cs: bool)
    requires Keyed(s) && forall i :: 0 < i < |s| ==> NotAfter(s[i - 1], s[i], cs)
    ensures Sorted(s, cs)
  {
    if |s| > 1 {
      var n := |s| - 1;
      AscendingSorted(s[..n], cs);
      forall i | 0 <= i < n
        ensures NotAfter(s[i], s[n], cs)
      {
        if i < n - 1 {
          assert NotAfter(s[..n][i], s[..n][n - 1], cs);
          NotAfterTransitive(s[i], s[n - 1], s[n], cs);
        }
      }
      forall i, j | 0 <= i < j < |s|
        ensures NotAfter(s[i], s[j], cs)
      {
        if j < n { assert NotAfter(s[..n][i], s[..n][j], cs); }
      }
    }
  }

  /** Nothing of t comes before anything of s. */
  ghost predicate AllBefore(s: seq<Node>, t: seq<Node>, cs: bool) {
    forall i, j :: 0 <= i < |s| && 0 <= j < |t| ==> NotAfter(s[i], t[j], cs)
  }

  // ---------------------------------------------------------------- links

  ghost predicate Distinct(s: seq<Node>) { forall i, j :: 0 <= i < j < |s| ==> s[i] != s[j] }

  function First(s: seq<Node>): Node? { if s == [] then null else s[0] }

  /** The links between the nodes of s; where it starts and ends is left open. */
  ghost predicate Chain(s: seq<Node>)
    reads s
  {
    forall i, j :: 0 <= i < j < |s| && j == i + 1 ==> s[i].next == s[j] && s[j].prev == s[i]
  }

  ghost predicate Ends(s: seq<Node>)
    reads s
  {
    s != [] ==> s[|s| - 1].next == null
  }

  /** A well-formed list: next and prev agree, the tail has no next, and the prev of the head is p. */
  ghost predicate IsList(s: seq<Node>, p: Node?)
    reads s
  {
    Distinct(s) && Chain(s) && Ends(s) && (s != [] ==> s[0].prev == p)
  }

  /** Parts of one list, in whatever order they were cut from it. */
  ghost predicate Apart(s: seq<Node>, t: seq<Node>) { forall x :: x in s ==> x !in t }

  lemma ChainParts(s: seq<Node>, t: seq<Node>)
    requires Chain(s + t)
    ensures Chain(s) && Chain(t)
    ensures s != [] && t != [] ==> s[|s| - 1].next == t[0] && t[0].prev == s[|s| - 1]
  {
    var u := s + t;
    forall i, j | 0 <= i < j < |s| && j == i + 1
      ensures s[i].next == s[j] && s[j].prev == s[i]
    {
      assert u[i] == s[i] && u[j] == s[j];
    }
    forall i, j | 0 <= i < j < |t| && j == i + 1
      ensures t[i].next == t[j] && t[j].prev == t[i]
    {
      assert u[|s| + i] == t[i] && u[|s| + j] == t[j];
    }
    if s != [] && t != [] { assert u[|s| - 1] == s[|s| - 1] && u[|s|] == t[0]; }
  }

  lemma ChainJoin(s: seq<Node>, t: seq<Node>)
    requires Chain(s) && Chain(t) && (s != [] && t != [] ==> s[|s| - 1].next == t[0] && t[0].prev == s[|s| - 1])
    ensures Chain(s + t)
  {
  }

  /** The parts of a merge: what is merged, and what is left of the two lists. */
  ghost predicate Parts(m: seq<Node>, f: seq<Node>, g: seq<Node>)
    reads m, f, g
  {
    && Distinct(m) && Distinct(f) && Distinct(g) && Apart(m, f) && Apart(m, g) && Apart(f, g)
    && Chain(m) && Chain(f) && Chain(g) && Ends(f) && Ends(g)
  }

  lemma PartsSwap(m: seq<Node>, f: seq<Node>, g: seq<Node>)
    requires Parts(m, f, g)
    ensures Parts(m, g, f)
  {
    forall x | x in g
      ensures x !in f
    {
    }
  }

  /** What is left of f without its first node. */
  lemma TailParts(m: seq<Node>, f: seq<Node>, g: seq<Node>)
    requires Parts(m, f, g) && f != []
    ensures var x, rest := f[0], f[1..];
            && Distinct(m + [x]) && Distinct(rest) && Apart(m + [x], rest) && Apart(m + [x], g) && Apart(rest, g)
            && Chain(rest) && Ends(rest)
  {
    var x, rest := f[0], f[1..];
    assert f == [x] + rest;
    ChainParts([x], rest);
    assert x in f;
    assert forall y :: y in rest ==> y in f;
    forall y | y in rest
      ensures y != x
    {
      var i :| 0 <= i < |rest| && rest[i] == y;
      assert f[i + 1] == y;
    }
    forall i, j | 0 <= i < j < |rest|
      ensures rest[i] != rest[j]
    {
      assert f[i + 1] != f[j + 1];
    }
  }

  /** The first node of f begins the merged list. */
  lemma FirstTaken(f: seq<Node>, g: seq<Node>)
    requires Parts([], f, g) && f != []
    ensures Parts([f[0]], f[1..], g)
  {
    TailParts([], f, g);
    assert [] + [f[0]] == [f[0]];
  }

  /** The first node of f, x, goes to the end of m. */
  method Link(tail: Node, x: Node, ghost m: seq<Node>, ghost f: seq<Node>, ghost g: seq<Node>)
    requires Parts(m, f, g) && f != [] && x == f[0] && m != [] && tail == m[|m| - 1]
    modifies tail`next, x`prev
    ensures tail.next == x && x.prev == tail && Parts(m + [x], f[1..], g)
  {
    ghost var rest := f[1..];
    TailParts(m, f, g);
    assert x in m + [x] && tail in m && tail in m + [x];
    assert x !in rest && x !in g && tail !in rest && tail !in g && x !in m by { assert x in f; }
    Relink(tail, x, m, rest, g);
    assert Chain([x]);
    ChainJoin(m, [x]);
  }

  method Relink(tail: Node, x: Node, ghost m: seq<Node>, ghost rest: seq<Node>, ghost g: seq<Node>)
    requires m != [] && tail == m[|m| - 1] && Distinct(m) && Chain(m)
    requires x !in rest && x !in g && tail !in rest && tail !in g && x !in m
    requires Chain(rest) && Ends(rest) && Chain(g) && Ends(g)
    modifies tail`next, x`prev
    ensures tail.next == x && x.prev == tail
    ensures Chain(m) && Chain(rest) && Ends(rest) && Chain(g) && Ends(g)
  {
    tail.next := x;
    x.prev := tail;
    forall i, j | 0 <= i < j < |m| && j == i + 1
      ensures m[i].next == m[j] && m[j].prev == m[i]
    {
      assert m[i] != tail && m[j] in m;
    }
  }

  // ---------------------------------------------------------------- merging

  /** Order of the parts, for lists whose nodes all have a key. */
  ghost predicate InOrder(m: seq<Node>, f: seq<Node>, g: seq<Node>, cs: bool) {
    && Keyed(m) && Keyed(f) && Keyed(g) && Sorted(m, cs) && Sorted(f, cs) && Sorted(g, cs)
    && AllBefore(m, f, cs) && AllBefore(m, g, cs)
  }

  lemma InOrderSwap(m: seq<Node>, f: seq<Node>, g: seq<Node>, cs: bool)
    requires InOrder(m, f, g, cs)
    ensures InOrder(m, g, f, cs)
  {
  }

  lemma TakeInOrder(m: seq<Node>, f: seq<Node>, g: seq<Node>, cs: bool)
    requires InOrder(m, f, g, cs) && f != [] && g != [] && NotAfter(f[0], g[0], cs)
    ensures InOrder(m + [f[0]], f[1..], g, cs)
  {
    var x, rest := f[0], f[1..];
    assert forall i :: 0 <= i < |rest| ==> rest[i] == f[i + 1];
    forall j | 0 <= j < |g|
      ensures NotAfter(x, g[j], cs)
    {
      if j > 0 { NotAfterTransitive(x, g[0], g[j], cs); }
    }
    hide NotAfter;
    assert AllBefore(m + [x], rest, cs);
    assert AllBefore(m + [x], g, cs);
    assert Sorted(m + [x], cs);
    assert Sorted(rest, cs);
    assert Keyed(rest);
  }

  lemma RestInOrder(m: seq<Node>, f: seq<Node>, cs: bool)
    requires InOrder(m, f, [], cs)
    ensures Sorted(m + f, cs)
  {
    hide NotAfter;
  }

  /** The nodes of the parts are those of the two lists. */
  ghost predicate Pool(m: seq<Node>, f: seq<Node>, g: seq<Node>, s: seq<Node>, t: seq<Node>) {
    multiset(m) + multiset(f) + multiset(g) == multiset(s) + multiset(t)
  }

  lemma PoolTake(m: seq<Node>, f: seq<Node>, g: seq<Node>, s: seq<Node>, t: seq<Node>)
    requires Pool(m, f, g, s, t) && f != []
    ensures Pool(m + [f[0]], f[1..], g, s, t)
  {
    assert f == [f[0]] + f[1..];
  }

  /** The prev of the head: a head of the first list keeps its own. */
  ghost predicate HeadPrev(m: seq<Node>, s: seq<Node>, p: Node?)
    reads m
  {
    m != [] ==> m[0].prev == if s != [] && m[0] == s[0] then p else null
  }

  /** As long as nothing is merged the two lists are as they were. */
  ghost predicate Untouched(f: seq<Node>, g: seq<Node>, s: seq<Node>, t: seq<Node>, p: Node?)
    reads f, g
  {
    f == s && g == t && (f != [] ==> f[0].prev == p) && (g != [] ==> g[0].prev == null)
  }

  lemma NextInChain(f: seq<Node>)
    requires Chain(f) && Ends(f) && f != []
    ensures f[0].next == First(f[1..])
  {
  }

  /** Moves the head x of f to the end of the merged list and returns the next head. */
  method Append(tail: Node?, x: Node, ghost m: seq<Node>, ghost f: seq<Node>, ghost g: seq<Node>) returns (next: Node?)
    requires Parts(m, f, g) && f != [] && x == f[0]
    requires if m == [] then tail == null else tail == m[|m| - 1]
    modifies tail, x
    ensures Parts(m + [x], f[1..], g) && next == First(f[1..])
    ensures if m == [] then x.prev == old(x.prev) else m[0].prev == old(m[0].prev)
  {
    NextInChain(f);
    if tail == null {
      FirstTaken(f, g);
      assert m + [x] == [x];
    } else {
      assert x !in m by { assert x in f; }
      Link(tail, x, m, f, g);
    }
    next := x.next;
  }

  lemma PartsStart(s: seq<Node>, t: seq<Node>, p: Node?)
    requires IsList(s, p) && IsList(t, null) && Apart(s, t)
    ensures Parts([], s, t) && Untouched(s, t, s, t, p) && Pool([], s, t, s, t)
  {
  }

  /** The merge of sort_list.  p is the prev of the head of the first list, that of the second is null. */
  method Merge(first0: Node?, second0: Node?, cs: bool, ghost s: seq<Node>, ghost t: seq<Node>, ghost p: Node?)
      returns (result: Node?, ghost r: seq<Node>)
    requires IsList(s, p) && IsList(t, null) && Apart(s, t) && first0 == First(s) && second0 == First(t)
    modifies s, t
    ensures result == First(r) && IsList(r, if s != [] && r != [] && r[0] == s[0] then p else null)
    ensures Pool(r, [], [], s, t) && (r == [] || r[0] == First(s) || r[0] == First(t))
    ensures InOrder([], s, t, cs) ==> Sorted(r, cs)
  {
    hide Parts, InOrder, Pool, CompareKeys;
    var first, second := first0, second0;
    var tail: Node? := null;
    result := null;
    ghost var m: seq<Node>, f: seq<Node>, g: seq<Node> := [], s, t;
    PartsStart(s, t, p);
    while first != null && second != null
      invariant Parts(m, f, g) && Pool(m, f, g, s, t) && HeadPrev(m, s, p)
      invariant m == [] ==> Untouched(f, g, s, t, p)
      invariant InOrder([], s, t, cs) ==> InOrder(m, f, g, cs)
      invariant first == First(f) && second == First(g)
      invariant m != [] ==> (f != [] || g != []) && (m[0] == First(s) || m[0] == First(t))
      invariant if m == [] then result == null && tail == null else result == m[0] && tail == m[|m| - 1]
      decreases |f| + |g|
    {
      PoolWithin(m, f, g, s, t);
      StepInOrder(m, f, g, cs);
      if CompareKeys(first.key, second.key, cs) < 0 {
        PoolTake(m, f, g, s, t);
        var next := Append(tail, first, m, f, g);
        if result == null { result := first; }
        tail := first;
        m, f, first := m + [first], f[1..], next;
      } else {
        PoolSwap(m, f, g, s, t);
        PoolTake(m, g, f, s, t);
        PartsSwap(m, f, g);
        var next := Append(tail, second, m, g, f);
        if result == null { result := second; }
        tail := second;
        m, g, second := m + [second], g[1..], next;
        PartsSwap(m, g, f);
        PoolSwap(m, g, f, s, t);
      }
    }
    PoolWithin(m, f, g, s, t);
    result, r := MergeRest(first, second, result, tail, cs, m, f, g, s, t, p);
  }

  /** One of the lists is used up. */
  method MergeRest(first: Node?, second: Node?, result0: Node?, tail: Node?, cs: bool,
                   ghost m: seq<Node>, ghost f: seq<Node>, ghost g: seq<Node>, ghost s: seq<Node>, ghost t: seq<Node>, ghost p: Node?)
      returns (result: Node?, ghost r: seq<Node>)
    requires Parts(m, f, g) && Pool(m, f, g, s, t) && HeadPrev(m, s, p)
    requires (f == [] || g == []) && (if m == [] then Untouched(f, g, s, t, p) && Apart(s, t) else f != [] || g != [])
    requires first == First(f) && second == First(g)
    requires if m == [] then result0 == null && tail == null else result0 == m[0] && tail == m[|m| - 1]
    modifies tail, first, second
    ensures result == First(r) && IsList(r, if s != [] && r != [] && r[0] == s[0] then p else null)
    ensures Pool(r, [], [], s, t) && (r == [] || r[0] == First(m) || (m == [] && (r == s || r == t)))
    ensures InOrder(m, f, g, cs) ==> Sorted(r, cs)
  {
    hide Parts, InOrder, Pool, Chain, Ends, Distinct;
    result := result0;
    if m == [] { StillLists(f, g, p); }
    r := if first != null then m + f else m + g;
    PoolSwap(m, f, g, s, t);
    AllTaken(m, f, g, s, t, cs);
    if first != null {
      if result == null {
        assert r == f;
        return first, r;
      }
      JoinRest(tail, first, m, f, g);
    }
    if second != null {
      if result == null {
        assert r == g;
        return second, r;
      }
      PartsSwap(m, f, g);
      JoinRest(tail, second, m, g, f);
    }
  }

  lemma StillLists(f: seq<Node>, g: seq<Node>, p: Node?)
    requires Parts([], f, g) && Untouched(f, g, f, g, p)
    ensures IsList(f, p) && IsList(g, null)
  {
  }

  lemma AllTaken(m: seq<Node>, f: seq<Node>, g: seq<Node>, s: seq<Node>, t: seq<Node>, cs: bool)
    requires Pool(m, f, g, s, t) && (f == [] || g == [])
    ensures Pool(if f != [] then m + f else m + g, [], [], s, t)
    ensures InOrder(m, f, g, cs) ==> Sorted(if f != [] then m + f else m + g, cs)
  {
    if InOrder(m, f, g, cs) {
      InOrderSwap(m, f, g, cs);
      if f != [] { RestInOrder(m, f, cs); } else { RestInOrder(m, g, cs); }
    }
  }

  /** What is left of one list is appended as a whole. */
  method JoinRest(tail: Node, x: Node, ghost m: seq<Node>, ghost f: seq<Node>, ghost g: seq<Node>)
    requires Parts(m, f, g) && m != [] && tail == m[|m| - 1] && f != [] && x == f[0]
    modifies tail, x
    ensures Distinct(m + f) && Chain(m + f) && Ends(m + f)
    ensures m[0].prev == old(m[0].prev)
  {
    assert tail in m && x in f && tail !in f && x !in m;
    tail.next := x;
    x.prev := tail;
    forall i, j | 0 <= i < j < |m| && j == i + 1
      ensures m[i].next == m[j] && m[j].prev == m[i]
    {
      assert m[i] != tail && m[j] in m;
    }
    forall i, j | 0 <= i < j < |f| && j == i + 1
      ensures f[i].next == f[j] && f[j].prev == f[i]
    {
      assert f[j] != x && f[i] in f;
    }
    ChainJoin(m, f);
    DistinctJoin(m, f);
  }

  lemma DistinctJoin(m: seq<Node>, f: seq<Node>)
    requires Distinct(m) && Distinct(f) && Apart(m, f)
    ensures Distinct(m + f)
  {
    var u := m + f;
    forall i, j | 0 <= i < j < |u|
      ensures u[i] != u[j]
    {
      if i < |m| <= j { assert u[i] in m && u[j] in f; }
    }
  }

  lemma PoolSwap(m: seq<Node>, f: seq<Node>, g: seq<Node>, s: seq<Node>, t: seq<Node>)
    requires Pool(m, f, g, s, t)
    ensures Pool(m, g, f, s, t)
  {
  }

  lemma PoolWithin(m: seq<Node>, f: seq<Node>, g: seq<Node>, s: seq<Node>, t: seq<Node>)
    requires Pool(m, f, g, s, t)
    ensures f != [] ==> f[0] in s || f[0] in t
    ensures g != [] ==> g[0] in s || g[0] in t
    ensures m != [] ==> m[|m| - 1] in s || m[|m| - 1] in t
  {
    if f != [] { InPool(m, f, g, s, t, f[0]); }
    if g != [] { InPool(m, f, g, s, t, g[0]); }
    if m != [] { InPool(m, f, g, s, t, m[|m| - 1]); }
  }

  lemma InPool(m: seq<Node>, f: seq<Node>, g: seq<Node>, s: seq<Node>, t: seq<Node>, x: Node)
    requires Pool(m, f, g, s, t)
    ensures x in m || x in f || x in g <==> x in s || x in t
  {
    assert x in multiset(m) + multiset(f) + multiset(g) <==> x in multiset(s) + multiset(t);
    assert x in multiset(m) + multiset(f) + multiset(g) <==> x in m || x in f || x in g;
    assert x in multiset(s) + multiset(t) <==> x in s || x in t;
  }

  /** The smaller head is taken, the second one if they are equal. */
  lemma StepInOrder(m: seq<Node>, f: seq<Node>, g: seq<Node>, cs: bool)
    requires f != [] && g != []
    ensures InOrder(m, f, g, cs) ==>
              if CompareKeys(f[0].key, g[0].key, cs) < 0 then InOrder(m + [f[0]], f[1..], g, cs) else InOrder(m + [g[0]], f, g[1..], cs)
  {
    if InOrder(m, f, g, cs) {
      OneOrTheOther(f[0], g[0], cs);
      if CompareKeys(f[0].key, g[0].key, cs) < 0 {
        TakeInOrder(m, f, g, cs);
      } else {
        InOrderSwap(m, f, g, cs);
        TakeInOrder(m, g, f, cs);
        InOrderSwap(m + [g[0]], g[1..], f, cs);
      }
    }
  }

  // ---------------------------------------------------------------- sort_list

  /** Node of the list at position i, or null behind its end. */
  function At(s: seq<Node>, i: nat): Node? { if i < |s| then s[i] else null }

  lemma NextIs(s: seq<Node>, i: nat)
    requires Chain(s) && Ends(s) && i < |s|
    ensures s[i].next == At(s, i + 1)
  {
  }

  /** The walk that finds a list sorted already; the result is where it stops. */
  method FindSorted(list: Node, cs: bool, ghost s: seq<Node>) returns (sorted: bool)
    requires s != [] && list == s[0] && Chain(s) && Ends(s)
    ensures sorted ==> forall i, j :: 0 <= i < j < |s| && j == i + 1 ==> CompareKeys(s[i].key, s[j].key, cs) < 0
  {
    hide Chain, Ends, CompareKeys;
    var current := list;
    ghost var i := 0;
    NextIs(s, 0);
    while current.next != null && CompareKeys(current.key, current.next.key, cs) < 0
      invariant 0 <= i < |s| && current == s[i] && current.next == At(s, i + 1)
      invariant forall k, l :: 0 <= k < l <= i && l == k + 1 ==> CompareKeys(s[k].key, s[l].key, cs) < 0
      decreases |s| - i
    {
      current := current.next;
      i := i + 1;
      NextIs(s, i);
    }
    sorted := current.next == null;
  }

  lemma StrictlyAscending(s: seq<Node>, cs: bool)
    requires |s| > 1 && forall i, j :: 0 <= i < j < |s| && j == i + 1 ==> CompareKeys(s[i].key, s[j].key, cs) < 0
    ensures Sorted(s, cs)
  {
    forall i | 0 < i < |s|
      ensures NotAfter(s[i - 1], s[i], cs)
    {
      var j := i - 1;
      assert CompareKeys(s[j].key, s[i].key, cs) < 0;
    }
    forall i | 0 <= i < |s|
      ensures s[i].key.Some?
    {
      if i > 0 { assert NotAfter(s[i - 1], s[i], cs); } else { assert NotAfter(s[0], s[1], cs); }
    }
    AscendingSorted(s, cs);
  }

  /** Two cursors, one twice as fast, find the middle. */
  method FindMiddle(list: Node, ghost s: seq<Node>) returns (second: Node, ghost mid: nat)
    requires |s| > 1 && list == s[0] && Chain(s) && Ends(s)
    ensures 0 < mid < |s| && second == s[mid]
  {
    hide Chain, Ends;
    var slow: Node?, current: Node? := list, list;
    ghost var i, j := 0, 0;
    while current != null
      invariant 0 <= i <= j <= |s| && slow == At(s, i) && current == At(s, j)
      invariant i < |s| && (j == 2 * i || (j == |s| && 2 * i == |s| + 1)) && (j > 0 ==> i > 0)
      decreases |s| - j
    {
      NextIs(s, i);
      NextIs(s, j);
      slow := slow.next;
      current := current.next;
      i, j := i + 1, j + 1;
      if current != null {
        NextIs(s, j);
        current := current.next;
        j := j + 1;
      }
    }
    second, mid := slow, i;
  }

  /** Cuts the list in two. */
  method Split(second: Node, ghost s: seq<Node>, ghost mid: nat, ghost p: Node?)
    requires IsList(s, p) && 0 < mid < |s| && second == s[mid]
    modifies s
    ensures IsList(s[..mid], p) && IsList(s[mid..], null) && Apart(s[..mid], s[mid..])
  {
    ghost var a, b := s[..mid], s[mid..];
    assert s == a + b;
    ChainParts(a, b);
    assert second.prev == a[mid - 1] && a[mid - 1] in s;
    second.prev.next := null;
    second.prev := null;
    assert Chain(a) by {
      forall i, j | 0 <= i < j < |a| && j == i + 1
        ensures a[i].next == a[j] && a[j].prev == a[i]
      {
        assert s[i] != s[mid - 1] && s[j] != s[mid];
      }
    }
    assert Chain(b) by {
      forall i, j | 0 <= i < j < |b| && j == i + 1
        ensures b[i].next == b[j] && b[j].prev == b[i]
      {
        assert s[mid + i] != s[mid - 1] && s[mid + j] != s[mid];
      }
    }
    DistinctParts(s, mid);
  }

  lemma DistinctParts(s: seq<Node>, mid: nat)
    requires Distinct(s) && mid <= |s|
    ensures Distinct(s[..mid]) && Distinct(s[mid..]) && Apart(s[..mid], s[mid..])
  {
    forall x | x in s[..mid]
      ensures x !in s[mid..]
    {
      var i :| 0 <= i < mid && s[i] == x;
      forall j | 0 <= j < |s| - mid
        ensures s[mid..][j] != x
      {
        assert s[i] != s[mid + j];
      }
    }
  }

  /** sort_list: the same nodes, each once, linked both ways; in the order of their keys if all have one.
      A head that stays the head keeps its prev. */
  method Sort(list: Node?, cs: bool, ghost s: seq<Node>, ghost p: Node?) returns (result: Node?, ghost r: seq<Node>)
    requires IsList(s, p) && list == First(s)
    modifies s
    ensures multiset(r) == multiset(s) && |r| == |s|
    ensures result == First(r) && IsList(r, if r != [] && r[0] == s[0] then p else null)
    ensures Keyed(s) ==> Sorted(r, cs)
    decreases |s|, 1
  {
    hide Chain, Ends, Distinct, CompareKeys, NotAfter;
    if list == null || list.next == null {
      OneOrNone(s, p);
      return list, s;
    }
    TwoOrMore(s, p);
    var sorted := FindSorted(list, cs, s);
    if sorted {
      StrictlyAscending(s, cs);
      return list, s;
    }
    var second;
    ghost var mid;
    second, mid := FindMiddle(list, s);
    ghost var a, b := s[..mid], s[mid..];
    Split(second, s, mid, p);
    result, r := SortParts(list, second, cs, a, b, p);
    assert s == a + b;
  }

  /** The sub-lists are sorted and merged. */
  method SortParts(list: Node, second: Node, cs: bool, ghost a: seq<Node>, ghost b: seq<Node>, ghost p: Node?)
      returns (result: Node?, ghost r: seq<Node>)
    requires IsList(a, p) && IsList(b, null) && Apart(a, b) && a != [] && b != [] && list == a[0] && second == b[0]
    modifies a, b
    ensures multiset(r) == multiset(a) + multiset(b) && |r| == |a| + |b|
    ensures result == First(r) && IsList(r, if r != [] && r[0] == a[0] then p else null)
    ensures Keyed(a + b) ==> Sorted(r, cs)
    decreases |a| + |b|, 0
  {
    hide IsList, Keyed, Sorted, NotAfter, InOrder, AllBefore;
    var first, second' := list, second;
    ghost var a', b';
    first, a' := Sort(list, cs, a, p);
    SameMembers(a', a);
    second', b' := Sort(second, cs, b, null);
    SameMembers(b', b);
    result, r := Merge(first, second', cs, a', b', if a'[0] == a[0] then p else null);
    PoolDone(r, a', b');
    SortedParts(a, b, a', b', cs);
  }

  lemma PoolDone(r: seq<Node>, s: seq<Node>, t: seq<Node>)
    requires Pool(r, [], [], s, t)
    ensures multiset(r) == multiset(s) + multiset(t) && |r| == |s| + |t|
  {
    assert |multiset(r)| == |r| && |multiset(s) + multiset(t)| == |s| + |t|;
  }

  lemma SameMembers(r: seq<Node>, s: seq<Node>)
    requires multiset(r) == multiset(s)
    ensures forall i :: 0 <= i < |r| ==> r[i] in s
    ensures forall i :: 0 <= i < |s| ==> s[i] in r
  {
    forall i | 0 <= i < |r|
      ensures r[i] in s
    {
      assert r[i] in multiset(s);
    }
    forall i | 0 <= i < |s|
      ensures s[i] in r
    {
      assert s[i] in multiset(r);
    }
  }

  lemma SortedParts(a: seq<Node>, b: seq<Node>, a': seq<Node>, b': seq<Node>, cs: bool)
    requires multiset(a') == multiset(a) && multiset(b') == multiset(b)
    requires (Keyed(a) ==> Sorted(a', cs)) && (Keyed(b) ==> Sorted(b', cs))
    ensures Keyed(a + b) ==> InOrder([], a', b', cs)
  {
    SameMembers(a', a);
    SameMembers(b', b);
    if Keyed(a + b) {
      assert Keyed(a) by { forall i | 0 <= i < |a| ensures a[i].key.Some? { assert (a + b)[i] == a[i]; } }
      assert Keyed(b) by { forall i | 0 <= i < |b| ensures b[i].key.Some? { assert (a + b)[|a| + i] == b[i]; } }
      hide Sorted;
      assert Keyed(a');
      assert Keyed(b');
    }
  }

  lemma OneOrNone(s: seq<Node>, p: Node?)
    requires IsList(s, p) && (s != [] ==> s[0].next == null)
    ensures |s| <= 1
  {
    if s != [] { NextIs(s, 0); }
  }

  lemma TwoOrMore(s: seq<Node>, p: Node?)
    requires IsList(s, p) && s != [] && s[0].next != null
    ensures |s| > 1
  {
  }
}
