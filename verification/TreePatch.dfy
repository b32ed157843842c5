/** JSON Patch on values: the operations of section 4 of RFC 6902 on trees whose objects are maps, the
    difference that create_patches of 3rd/cjson/cJSON_Utils.c finds, and the proof that the one undoes
    the other. */
module TreePatch {
  import opened Wrappers
  import opened CStrings
  import opened Json
  import opened Members

  /** A reference token: a name, an index, or the place behind the last item. */
  datatype Step = Key(k: string) | Index(i: nat) | Last

  datatype Op =
    | Add(path: seq<Step>, value: Json)
    | Remove(path: seq<Step>)
    | Replace(path: seq<Step>, value: Json)

  // ---------------------------------------------------------------- operations

  ghost function Sub(t: Tree, s: Step): Option<Tree> {
    if t.Obj? && s.Key? && s.k in t.members then Some(t.members[s.k])
    else if t.Arr? && s.Index? && s.i < |t.items| then Some(t.items[s.i])
    else None
  }

  ghost function SetSub(t: Tree, s: Step, v: Tree): Tree
    requires Sub(t, s).Some?
  {
    if t.Obj? then Obj(t.members[s.k := v]) else Arr(t.items[s.i := v])
  }

  ghost function AddSub(t: Tree, s: Step, v: Tree): Option<Tree> {
    if t.Obj? && s.Key? then Some(Obj(t.members[s.k := v]))
    else if t.Arr? && s.Index? && s.i <= |t.items| then Some(Arr(t.items[..s.i] + [v] + t.items[s.i..]))
    else if t.Arr? && s.Last? then Some(Arr(t.items + [v]))
    else None
  }

  ghost function RemoveSub(t: Tree, s: Step): Option<Tree> {
    if Sub(t, s).None? then None
    else if t.Obj? then Some(Obj(t.members - {s.k}))
    else Some(Arr(t.items[..s.i] + t.items[s.i + 1..]))
  }

  /** The tree with the operation done, if its path leads somewhere. */
  ghost function Edit(t: Tree, op: Op): Option<Tree>
    decreases |op.path|
  {
    if op.path == [] then (if op.Remove? then None else Some(Abs(op.value)))
    else if |op.path| == 1 && op.Add? then AddSub(t, op.path[0], Abs(op.value))
    else if |op.path| == 1 && op.Remove? then RemoveSub(t, op.path[0])
    else
      var sub := Sub(t, op.path[0]);
      if sub.None? then None
      else
        var sub' := Edit(sub.value, op.(path := op.path[1..]));
        if sub'.None? then None else Some(SetSub(t, op.path[0], sub'.value))
  }

  ghost function Run(t: Tree, ops: seq<Op>): Option<Tree>
    decreases |ops|
  {
    if ops == [] then Some(t)
    else
      var next := Edit(t, ops[0]);
      if next.None? then None else Run(next.value, ops[1..])
  }

  // ---------------------------------------------------------------- the difference

  function Prefix(s: Step, op: Op): Op { op.(path := [s] + op.path) }

  function PrefixAll(s: Step, ops: seq<Op>): (r: seq<Op>)
    ensures |r| == |ops| && forall i :: 0 <= i < |r| ==> r[i] == Prefix(s, ops[i])
  {
    seq(|ops|, i requires 0 <= i < |ops| => Prefix(s, ops[i]))
  }

  /** create_patches, the paths relative to the node. */
  function Diff(from: Json, to: Json, cs: bool): seq<Op>
    decreases from, 1, 0
  {
    if KindOf(from) != KindOf(to) then [Replace([], to)]
    else if from.Number? && from.n != to.n then [Replace([], to)]
    else if from.String? && Compare(from.s, to.s, true) != 0 then [Replace([], to)]
    else if from.Array? then DiffItems(from, from.child, to.child, 0, cs)
    else if from.Object? then
      SortHolds(from.child, cs);
      DiffMembers(from, SortItems(from.child, cs), SortItems(to.child, cs), cs)
    else []
  }

  /** The items from index i on: those of both, those to remove one by one, those to append. */
  function DiffItems(from: Json, f: seq<Item>, t: seq<Item>, i: nat, cs: bool): seq<Op>
    requires from.Array? && f == from.child && i <= |f| && i <= |t|
    decreases from, 0, |f| - i
  {
    if i < |f| && i < |t| then PrefixAll(Index(i), Diff(f[i].value, t[i].value, cs)) + DiffItems(from, f, t, i + 1, cs)
    else if i < |f| then seq(|f| - i, _ => Remove([Index(i)]))
    else seq(|t| - i, k requires 0 <= k < |t| - i => Add([Last], t[i + k].value))
  }

  /** Two cursors over sorted members; f holds members of from. */
  function DiffMembers(from: Json, f: seq<Item>, t: seq<Item>, cs: bool): seq<Op>
    requires from.Object? && forall x :: x in f ==> x in from.child
    decreases from, 0, |f| + |t|
  {
    if f == [] && t == [] then []
    else if f == [] || (t != [] && Compare(f[0].key, t[0].key, cs) > 0) then
      [Add([Key(t[0].key)], t[0].value)] + DiffMembers(from, f, t[1..], cs)
    else if t == [] || Compare(f[0].key, t[0].key, cs) < 0 then
      [Remove([Key(f[0].key)])] + DiffMembers(from, f[1..], t, cs)
    else
      assert f[0] in from.child;
      PrefixAll(Key(f[0].key), Diff(f[0].value, t[0].value, cs)) + DiffMembers(from, f[1..], t[1..], cs)
  }

  // ---------------------------------------------------------------- the difference undone

  lemma {:induction false} RunBoth(t: Tree, a: seq<Op>, b: seq<Op>)
    ensures Run(t, a + b) == if Run(t, a).None? then None else Run(Run(t, a).value, b)
    decreases |a|
  {
    if a == [] {
      assert a + b == b;
    } else {
      assert (a + b)[0] == a[0] && (a + b)[1..] == a[1..] + b;
      var next := Edit(t, a[0]);
      if next.Some? { RunBoth(next.value, a[1..], b); }
    }
  }

  /** Behind a common step operations work on the child alone. */
  lemma {:induction false} RunPrefixed(t: Tree, s: Step, ops: seq<Op>)
    requires Sub(t, s).Some? && (forall i :: 0 <= i < |ops| ==> ops[i].path != [] || !ops[i].Add?)
    requires Run(Sub(t, s).value, ops).Some?
    ensures Run(t, PrefixAll(s, ops)) == Some(SetSub(t, s, Run(Sub(t, s).value, ops).value))
    decreases |ops|
  {
    var all := PrefixAll(s, ops);
    if ops == [] {
      SetSame(t, s);
    } else {
      var sub := Sub(t, s).value;
      var next := Edit(sub, ops[0]);
      EditPrefixed(t, s, ops[0]);
      var t' := SetSub(t, s, next.value);
      SetTwice(t, s, next.value, Run(sub, ops).value);
      RunPrefixed(t', s, ops[1..]);
      assert all[0] == Prefix(s, ops[0]) && all[1..] == PrefixAll(s, ops[1..]);
    }
  }

  lemma EditPrefixed(t: Tree, s: Step, op: Op)
    requires Sub(t, s).Some? && (op.path != [] || !op.Add?) && Edit(Sub(t, s).value, op).Some?
    ensures Edit(t, Prefix(s, op)) == Some(SetSub(t, s, Edit(Sub(t, s).value, op).value))
  {
    assert ([s] + op.path)[1..] == op.path;
  }

  lemma SetSame(t: Tree, s: Step)
    requires Sub(t, s).Some?
    ensures SetSub(t, s, Sub(t, s).value) == t
  {
    if t.Obj? { assert t.members[s.k := t.members[s.k]] == t.members; }
    else { assert t.items[s.i := t.items[s.i]] == t.items; }
  }

  lemma SetTwice(t: Tree, s: Step, u: Tree, v: Tree)
    requires Sub(t, s).Some?
    ensures Sub(SetSub(t, s, u), s) == Some(u) && SetSub(SetSub(t, s, u), s, v) == SetSub(t, s, v)
  {
  }

  /** An addition always names its place. */
  lemma {:induction false} AddsHavePaths(from: Json, to: Json, cs: bool)
    ensures forall i :: 0 <= i < |Diff(from, to, cs)| ==> Diff(from, to, cs)[i].path != [] || !Diff(from, to, cs)[i].Add?
  {
    if from.Array? && to.Array? {
      ItemPaths(from, from.child, to.child, 0, cs);
    } else if from.Object? && to.Object? {
      SortHolds(from.child, cs);
      MemberPaths(from, SortItems(from.child, cs), SortItems(to.child, cs), cs);
    }
  }

  ghost predicate HavePaths(ops: seq<Op>) { forall i :: 0 <= i < |ops| ==> ops[i].path != [] }

  lemma {:induction false} ItemPaths(from: Json, f: seq<Item>, t: seq<Item>, i: nat, cs: bool)
    requires from.Array? && f == from.child && i <= |f| && i <= |t|
    ensures HavePaths(DiffItems(from, f, t, i, cs))
    decreases |f| - i
  {
    if i < |f| && i < |t| { ItemPaths(from, f, t, i + 1, cs); }
  }

  lemma {:induction false} MemberPaths(from: Json, f: seq<Item>, t: seq<Item>, cs: bool)
    requires from.Object? && forall x :: x in f ==> x in from.child
    ensures HavePaths(DiffMembers(from, f, t, cs))
    decreases |f| + |t|
  {
    if f == [] && t == [] {
    } else if f == [] || (t != [] && Compare(f[0].key, t[0].key, cs) > 0) {
      MemberPaths(from, f, t[1..], cs);
    } else if t == [] || Compare(f[0].key, t[0].key, cs) < 0 {
      MemberPaths(from, f[1..], t, cs);
    } else {
      MemberPaths(from, f[1..], t[1..], cs);
    }
  }

  /** The difference of two plain trees turns the one into the other. */
  lemma {:induction false} DiffUndone(from: Json, to: Json, cs: bool)
    requires Plain(from) && Plain(to)
    ensures Run(Abs(from), Diff(from, to, cs)) == Some(Abs(to))
    decreases from, 1, 0
  {
    if KindOf(from) != KindOf(to) {
      RunOne(Abs(from), Replace([], to));
    } else if from.Array? {
      ItemsUndone(from, Abs(from).items, from.child, to.child, 0, cs);
    } else if from.Object? {
      var f, t := SortItems(from.child, cs), SortItems(to.child, cs);
      SortedPlain(from.child, cs);
      SortedPlain(to.child, cs);
      var m := Abs(from).members;
      forall i | 0 <= i < |f|
        ensures f[i].key in m && m[f[i].key] == Abs(f[i].value)
      {
        AbsAtKey(f, i);
      }
      forall k | k in m
        ensures HasKey(f, k)
      {
        assert k in Abs(Object(f)).members;
      }
      var r := MembersUndone(from, m, f, t, cs);
      AllReplaced(from, m, f, t, r);
    } else {
      if from.String? { CompareEqual(from.s, to.s); }
      RunOne(Abs(from), Replace([], to));
    }
  }

  lemma RunOne(t: Tree, op: Op)
    ensures Run(t, [op]) == Edit(t, op)
  {
    if Edit(t, op).Some? { assert [op][1..] == [] && Run(Edit(t, op).value, []) == Edit(t, op); }
  }

  /** The tree when the items before i are those of t already and the others still those of f. */
  ghost predicate Halfway(items: seq<Tree>, f: seq<Item>, t: seq<Item>, i: nat) {
    && |items| == |f| && i <= |f| && i <= |t|
    && (forall k :: 0 <= k < i ==> items[k] == Abs(t[k].value))
    && (forall k :: i <= k < |f| ==> items[k] == Abs(f[k].value))
  }

  lemma {:induction false} ItemsUndone(from: Json, items: seq<Tree>, f: seq<Item>, t: seq<Item>, i: nat, cs: bool)
    requires from.Array? && f == from.child && Halfway(items, f, t, i)
    requires forall x :: x in f || x in t ==> Plain(x.value)
    ensures Run(Arr(items), DiffItems(from, f, t, i, cs)) == Some(Abs(Array(t)))
    decreases from, 0, |f| - i
  {
    hide Abs, Run, Edit, Diff, Plain;
    if i < |f| && i < |t| {
      assert f[i] in f && t[i] in t;
      DiffUndone(f[i].value, t[i].value, cs);
      var ops := Diff(f[i].value, t[i].value, cs);
      AddsHavePaths(f[i].value, t[i].value, cs);
      RunPrefixed(Arr(items), Index(i), ops);
      ItemsUndone(from, items[i := Abs(t[i].value)], f, t, i + 1, cs);
      RunBoth(Arr(items), PrefixAll(Index(i), ops), DiffItems(from, f, t, i + 1, cs));
    } else if i < |f| {
      RemovesRest(items, i, |f| - i);
      ItemsOf(t);
      assert items[..i] == Abs(Array(t)).items;
    } else {
      AddsRest(items, t, i);
      ItemsOf(t);
      assert items + seq(|t| - i, k requires 0 <= k < |t| - i => Abs(t[i + k].value)) == Abs(Array(t)).items;
    }
  }

  lemma ItemsOf(t: seq<Item>)
    ensures Abs(Array(t)).Arr? && |Abs(Array(t)).items| == |t|
    ensures forall i :: 0 <= i < |t| ==> Abs(Array(t)).items[i] == Abs(t[i].value)
  {
  }

  /** Removing at one index again and again. */
  lemma {:induction false} RemovesRest(items: seq<Tree>, i: nat, n: nat)
    requires |items| == i + n
    ensures Run(Arr(items), seq(n, _ => Remove([Index(i)]))) == Some(Arr(items[..i]))
    decreases n
  {
    var ops := seq(n, _ => Remove([Index(i)]));
    if n == 0 {
      assert items[..i] == items;
    } else {
      var next := items[..i] + items[i + 1..];
      assert ops[0] == Remove([Index(i)]) && ops[1..] == seq(n - 1, _ => Remove([Index(i)]));
      RemovesRest(next, i, n - 1);
      assert next[..i] == items[..i];
    }
  }

  lemma {:induction false} AddsRest(items: seq<Tree>, t: seq<Item>, i: nat)
    requires i <= |t|
    ensures Run(Arr(items), seq(|t| - i, k requires 0 <= k < |t| - i => Add([Last], t[i + k].value)))
            == Some(Arr(items + seq(|t| - i, k requires 0 <= k < |t| - i => Abs(t[i + k].value))))
    decreases |t| - i
  {
    var n := |t| - i;
    var ops := seq(n, k requires 0 <= k < n => Add([Last], t[i + k].value));
    var vals := seq(n, k requires 0 <= k < n => Abs(t[i + k].value));
    if n == 0 {
      assert items + vals == items;
    } else {
      var next := items + [Abs(t[i].value)];
      var ops' := seq(|t| - (i + 1), k requires 0 <= k < |t| - (i + 1) => Add([Last], t[i + 1 + k].value));
      var vals' := seq(|t| - (i + 1), k requires 0 <= k < |t| - (i + 1) => Abs(t[i + 1 + k].value));
      assert ops[0] == Add([Last], t[i].value) && ops[1..] == ops';
      AddsRest(next, t, i + 1);
      assert next + vals' == items + vals;
    }
  }

  /** r is m with the members of f taken out and those of t put in. */
  ghost predicate Replaced(m: map<string, Tree>, f: seq<Item>, t: seq<Item>, r: map<string, Tree>) {
    && (forall k :: k in r <==> (k in m && !HasKey(f, k)) || HasKey(t, k))
    && (forall i :: 0 <= i < |t| ==> t[i].key in r && r[t[i].key] == Abs(t[i].value))
    && (forall k :: k in m && !HasKey(f, k) && !HasKey(t, k) ==> k in r && r[k] == m[k])
  }

  ghost predicate Holds(m: map<string, Tree>, f: seq<Item>) {
    forall i :: 0 <= i < |f| ==> f[i].key in m && m[f[i].key] == Abs(f[i].value)
  }

  lemma {:induction false} MembersUndone(from: Json, m: map<string, Tree>, f: seq<Item>, t: seq<Item>, cs: bool)
      returns (r: map<string, Tree>)
    requires from.Object? && forall x :: x in f ==> x in from.child
    requires Ascending(f, cs) && Ascending(t, cs) && PlainItems(f) && PlainItems(t) && Holds(m, f)
    ensures Run(Obj(m), DiffMembers(from, f, t, cs)) == Some(Obj(r)) && Replaced(m, f, t, r)
    decreases from, 0, |f| + |t|, 1
  {
    if f == [] && t == [] {
      r := m;
    } else if f == [] || (t != [] && Compare(f[0].key, t[0].key, cs) > 0) {
      r := MemberAdded(from, m, f, t, cs);
    } else if t == [] || Compare(f[0].key, t[0].key, cs) < 0 {
      r := MemberRemoved(from, m, f, t, cs);
    } else {
      r := MemberChanged(from, m, f, t, cs);
    }
  }

  lemma RunFirst(t: Tree, op: Op, ops: seq<Op>)
    ensures Run(t, [op] + ops) == if Edit(t, op).None? then None else Run(Edit(t, op).value, ops)
  {
    assert ([op] + ops)[0] == op && ([op] + ops)[1..] == ops;
  }

  /** A name before all of f is none of them. */
  lemma NotAmong(f: seq<Item>, k: string, cs: bool)
    requires Ascending(f, cs) && (f != [] ==> Compare(k, f[0].key, cs) < 0)
    ensures !HasKey(f, k)
  {
    forall i | 0 <= i < |f|
      ensures f[i].key != k
    {
      if i > 0 { CompareTransitive(k, f[0].key, f[i].key, cs); }
      CompareSwapped(k, k, cs);
    }
  }

  lemma TailHolds(m: map<string, Tree>, f: seq<Item>, cs: bool)
    requires f != [] && Holds(m, f) && Ascending(f, cs)
    ensures Holds(m, f[1..]) && Ascending(f[1..], cs) && forall k :: HasKey(f[1..], k) <==> HasKey(f, k) && k != f[0].key
  {
    forall k
      ensures HasKey(f[1..], k) <==> HasKey(f, k) && k != f[0].key
    {
      TailKeys(f, k, cs);
    }
    TailKeys(f, "", cs);
    assert forall i :: 0 <= i < |f[1..]| ==> f[1..][i] == f[i + 1];
  }

  lemma {:induction false} MemberAdded(from: Json, m: map<string, Tree>, f: seq<Item>, t: seq<Item>, cs: bool)
      returns (r: map<string, Tree>)
    requires from.Object? && forall x :: x in f ==> x in from.child
    requires Ascending(f, cs) && Ascending(t, cs) && PlainItems(f) && PlainItems(t) && Holds(m, f)
    requires t != [] && (f == [] || Compare(f[0].key, t[0].key, cs) > 0)
    ensures Run(Obj(m), DiffMembers(from, f, t, cs)) == Some(Obj(r)) && Replaced(m, f, t, r)
    decreases from, 0, |f| + |t|, 0
  {
    hide Abs, Compare, HasKey, Replaced, Holds, PlainItems, Ascending, Run, Edit, DiffMembers;
    var k := t[0].key;
    var m' := m[k := Abs(t[0].value)];
    NotAmongLater(f, t[0].key, cs);
    Names(t, cs);
    HoldsWith(m, f, k, Abs(t[0].value));
    TailPlain(t);
    r := MembersUndone(from, m', f, t[1..], cs);
    NextMember(from, f, t, cs);
    EditMember(m, t[0]);
    RunFirst(Obj(m), Add([Key(k)], t[0].value), DiffMembers(from, f, t[1..], cs));
    ReplacedAdd(m, f, t, r, cs);
  }

  lemma Names(t: seq<Item>, cs: bool)
    requires t != [] && Ascending(t, cs)
    ensures Ascending(t[1..], cs) && forall k :: HasKey(t[1..], k) <==> HasKey(t, k) && k != t[0].key
  {
    forall k
      ensures HasKey(t[1..], k) <==> HasKey(t, k) && k != t[0].key
    {
      TailKeys(t, k, cs);
    }
    TailKeys(t, "", cs);
  }

  lemma ReplacedAdd(m: map<string, Tree>, f: seq<Item>, t: seq<Item>, r: map<string, Tree>, cs: bool)
    requires t != [] && Ascending(t, cs) && !HasKey(f, t[0].key)
    requires Replaced(m[t[0].key := Abs(t[0].value)], f, t[1..], r)
    ensures Replaced(m, f, t, r)
  {
    hide Abs;
    Names(t, cs);
    assert HasKey(t, t[0].key);
    forall i | 0 <= i < |t|
      ensures t[i].key in r && r[t[i].key] == Abs(t[i].value)
    {
      if i > 0 { assert t[1..][i - 1] == t[i]; }
    }
  }

  lemma {:induction false} MemberRemoved(from: Json, m: map<string, Tree>, f: seq<Item>, t: seq<Item>, cs: bool)
      returns (r: map<string, Tree>)
    requires from.Object? && forall x :: x in f ==> x in from.child
    requires Ascending(f, cs) && Ascending(t, cs) && PlainItems(f) && PlainItems(t) && Holds(m, f)
    requires f != [] && (t == [] || Compare(f[0].key, t[0].key, cs) < 0)
    ensures Run(Obj(m), DiffMembers(from, f, t, cs)) == Some(Obj(r)) && Replaced(m, f, t, r)
    decreases from, 0, |f| + |t|, 0
  {
    hide Abs, Compare, HasKey, Replaced, Holds, PlainItems, Ascending, Run, Edit, DiffMembers;
    var k := f[0].key;
    var m' := m - {k};
    TailHolds(m, f, cs);
    HoldsWithout(m, f[1..], k);
    TailPlain(f);
    r := MembersUndone(from, m', f[1..], t, cs);
    NextMember(from, f, t, cs);
    FirstHeld(m, f);
    EditMember(m, f[0]);
    RunFirst(Obj(m), Remove([Key(k)]), DiffMembers(from, f[1..], t, cs));
    ReplacedRemove(m, f, t, r, cs);
  }

  lemma {:induction false} MemberChanged(from: Json, m: map<string, Tree>, f: seq<Item>, t: seq<Item>, cs: bool)
      returns (r: map<string, Tree>)
    requires from.Object? && forall x :: x in f ==> x in from.child
    requires Ascending(f, cs) && Ascending(t, cs) && PlainItems(f) && PlainItems(t) && Holds(m, f)
    requires f != [] && t != [] && Compare(f[0].key, t[0].key, cs) == 0
    ensures Run(Obj(m), DiffMembers(from, f, t, cs)) == Some(Obj(r)) && Replaced(m, f, t, r)
    decreases from, 0, |f| + |t|, 0
  {
    hide Abs, Compare, HasKey, Replaced, Holds, PlainItems, Ascending, Run, Edit, DiffMembers, Diff;
    FirstPlain(f);
    FirstPlain(t);
    assert f[0] in from.child;
    var k := f[0].key;
    PlainNames(k, t[0].key, cs);
    var v := Abs(t[0].value);
    var ops := Diff(f[0].value, t[0].value, cs);
    DiffUndone(f[0].value, t[0].value, cs);
    AddsHavePaths(f[0].value, t[0].value, cs);
    FirstHeld(m, f);
    RunPrefixed(Obj(m), Key(k), ops);
    TailHolds(m, f, cs);
    Names(t, cs);
    HoldsWith(m, f[1..], k, v);
    TailPlain(f);
    TailPlain(t);
    r := MembersUndone(from, m[k := v], f[1..], t[1..], cs);
    NextMember(from, f, t, cs);
    RunBoth(Obj(m), PrefixAll(Key(k), ops), DiffMembers(from, f[1..], t[1..], cs));
    ReplacedChange(m, f, t, r, cs);
  }

  lemma ReplacedChange(m: map<string, Tree>, f: seq<Item>, t: seq<Item>, r: map<string, Tree>, cs: bool)
    requires f != [] && t != [] && Ascending(f, cs) && Ascending(t, cs) && f[0].key == t[0].key && f[0].key in m
    requires Replaced(m[t[0].key := Abs(t[0].value)], f[1..], t[1..], r)
    ensures Replaced(m, f, t, r)
  {
    hide Abs, HasKey, Ascending;
    Names(f, cs);
    Names(t, cs);
    assert HasKey(t, t[0].key) && HasKey(f, f[0].key) by { FirstIsKey(f); FirstIsKey(t); }
    forall k
      ensures k in r <==> (k in m && !HasKey(f, k)) || HasKey(t, k)
    {
    }
    forall i | 0 <= i < |t|
      ensures t[i].key in r && r[t[i].key] == Abs(t[i].value)
    {
      if i > 0 { assert t[1..][i - 1] == t[i]; }
    }
  }

  lemma FirstIsKey(c: seq<Item>)
    requires c != []
    ensures HasKey(c, c[0].key)
  {
  }

  lemma TailPlain(c: seq<Item>)
    requires c != [] && PlainItems(c)
    ensures PlainItems(c[1..])
  {
  }

  lemma FirstPlain(c: seq<Item>)
    requires c != [] && PlainItems(c)
    ensures PlainKey(c[0].key) && Plain(c[0].value)
  {
    assert c[0] in c;
  }

  lemma FirstHeld(m: map<string, Tree>, f: seq<Item>)
    requires f != [] && Holds(m, f)
    ensures f[0].key in m && m[f[0].key] == Abs(f[0].value)
  {
  }

  lemma HoldsWith(m: map<string, Tree>, f: seq<Item>, k: string, v: Tree)
    requires Holds(m, f) && !HasKey(f, k)
    ensures Holds(m[k := v], f)
  {
  }

  lemma HoldsWithout(m: map<string, Tree>, f: seq<Item>, k: string)
    requires Holds(m, f) && !HasKey(f, k)
    ensures Holds(m - {k}, f)
  {
  }

  lemma NotAmongLater(f: seq<Item>, k: string, cs: bool)
    requires Ascending(f, cs) && (f != [] ==> Compare(f[0].key, k, cs) > 0)
    ensures !HasKey(f, k)
  {
    if f != [] { CompareSwapped(f[0].key, k, cs); }
    NotAmong(f, k, cs);
  }

  lemma EditMember(m: map<string, Tree>, x: Item)
    ensures Edit(Obj(m), Add([Key(x.key)], x.value)) == Some(Obj(m[x.key := Abs(x.value)]))
    ensures x.key in m ==> Edit(Obj(m), Remove([Key(x.key)])) == Some(Obj(m - {x.key}))
  {
  }

  /** What the two cursors do next. */
  lemma NextMember(from: Json, f: seq<Item>, t: seq<Item>, cs: bool)
    requires from.Object? && (forall x :: x in f ==> x in from.child) && (f != [] || t != [])
    ensures var ops := DiffMembers(from, f, t, cs);
            if f == [] || (t != [] && Compare(f[0].key, t[0].key, cs) > 0) then
              ops == [Add([Key(t[0].key)], t[0].value)] + DiffMembers(from, f, t[1..], cs)
            else if t == [] || Compare(f[0].key, t[0].key, cs) < 0 then
              ops == [Remove([Key(f[0].key)])] + DiffMembers(from, f[1..], t, cs)
            else ops == PrefixAll(Key(f[0].key), Diff(f[0].value, t[0].value, cs)) + DiffMembers(from, f[1..], t[1..], cs)
  {
    hide Diff, Compare, PrefixAll;
  }

  lemma ReplacedRemove(m: map<string, Tree>, f: seq<Item>, t: seq<Item>, r: map<string, Tree>, cs: bool)
    requires f != [] && Ascending(f, cs) && Replaced(m - {f[0].key}, f[1..], t, r)
    ensures Replaced(m, f, t, r)
  {
    hide Abs, Ascending, HasKey;
    Names(f, cs);
    assert HasKey(f, f[0].key) by { FirstIsKey(f); }
  }

  /** Every member of from was in f. */
  lemma AllReplaced(from: Json, m: map<string, Tree>, f: seq<Item>, t: seq<Item>, r: map<string, Tree>)
    requires Replaced(m, f, t, r) && Unique(t) && forall k :: k in m ==> HasKey(f, k)
    ensures Obj(r) == Abs(Object(t))
  {
    AbsSameMembers(t, r);
  }
}
