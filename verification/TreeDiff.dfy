/** What the difference of create_patches (3rd/cjson/cJSON_Utils.c) holds and what it does not: each of its operations is made
    where the two trees differ, each changes the tree it is applied to, and equal trees have none. */
module TreeDiff {
  import opened Wrappers
  import opened CStrings
  import opened Json
  import opened Members
  import opened TreePatch

  /** Both arrays, or both objects: their children are compared, and they are not replaced. */
  predicate SameContainer(u: Tree, v: Tree) { (u.Arr? && v.Arr?) || (u.Obj? && v.Obj?) }

  /** The operation stands for a difference of u and v: a value that is another one, of another kind if it is an array or
      object; a name or a last item that only one of them has. */
  ghost predicate Apt(u: Tree, v: Tree, op: Op)
    decreases |op.path|
  {
    if op.path == [] then op.Replace? && u != v && !SameContainer(u, v) && Abs(op.value) == v
    else
      var s := op.path[0];
      if |op.path| == 1 && op.Add? then
        || (u.Obj? && v.Obj? && s.Key? && s.k !in u.members && s.k in v.members && Abs(op.value) == v.members[s.k])
        || (u.Arr? && v.Arr? && s.Last? && AmongLast(u, v, Abs(op.value)))
      else if |op.path| == 1 && op.Remove? then
        || (u.Obj? && v.Obj? && s.Key? && s.k in u.members && s.k !in v.members)
        || (u.Arr? && v.Arr? && s.Index? && s.i == |v.items| < |u.items|)
      else Sub(u, s).Some? && Sub(v, s).Some? && Apt(Sub(u, s).value, Sub(v, s).value, op.(path := op.path[1..]))
  }

  /** One of the items of v that u is too short for. */
  ghost predicate AmongLast(u: Tree, v: Tree, x: Tree)
    requires u.Arr? && v.Arr?
  {
    exists j :: |u.items| <= j < |v.items| && v.items[j] == x
  }

  ghost predicate AllApt(u: Tree, v: Tree, ops: seq<Op>) { forall i :: 0 <= i < |ops| ==> Apt(u, v, ops[i]) }

  /** Every operation changes what it is applied to, one after the other. */
  ghost predicate Changing(t: Tree, ops: seq<Op>)
    decreases |ops|
  {
    ops == [] || (Edit(t, ops[0]).Some? && Edit(t, ops[0]).value != t && Changing(Edit(t, ops[0]).value, ops[1..]))
  }

  // ---------------------------------------------------------------- each where the trees differ

  /** Equal trees have no difference. */
  lemma {:induction false} AptDiffers(u: Tree, v: Tree, op: Op)
    requires Apt(u, v, op)
    ensures u != v
    decreases |op.path|
  {
    if op.path != [] && Sub(u, op.path[0]).Some? && Sub(v, op.path[0]).Some?
       && Apt(Sub(u, op.path[0]).value, Sub(v, op.path[0]).value, op.(path := op.path[1..])) {
      AptDiffers(Sub(u, op.path[0]).value, Sub(v, op.path[0]).value, op.(path := op.path[1..]));
    }
  }

  lemma AptBelow(u: Tree, v: Tree, s: Step, ops: seq<Op>)
    requires Sub(u, s).Some? && Sub(v, s).Some? && AllApt(Sub(u, s).value, Sub(v, s).value, ops)
    ensures AllApt(u, v, PrefixAll(s, ops))
  {
    var all := PrefixAll(s, ops);
    forall i | 0 <= i < |all|
      ensures Apt(u, v, all[i])
    {
      assert Apt(Sub(u, s).value, Sub(v, s).value, ops[i]);
      assert all[i].path[1..] == ops[i].path && all[i].(path := all[i].path[1..]) == ops[i];
    }
  }

  lemma AptBoth(u: Tree, v: Tree, a: seq<Op>, b: seq<Op>)
    requires AllApt(u, v, a) && AllApt(u, v, b)
    ensures AllApt(u, v, a + b)
  {
  }

  lemma {:induction false} DiffApt(from: Json, to: Json, cs: bool)
    requires Plain(from) && Plain(to)
    ensures AllApt(Abs(from), Abs(to), Diff(from, to, cs))
    decreases from, 1, 0
  {
    if KindOf(from) != KindOf(to) {
      KindsDiffer(from, to);
    } else if from.Array? {
      ItemsApt(from, to, 0, cs);
    } else if from.Object? {
      var f, t := SortItems(from.child, cs), SortItems(to.child, cs);
      SortedMembers(from.child, f, cs);
      SortedMembers(to.child, t, cs);
      hide SortItems;
      MembersApt(from, Abs(from).members, Abs(to).members, f, t, cs);
    } else if from.String? {
      CompareEqual(from.s, to.s);
    }
  }

  lemma KindsDiffer(from: Json, to: Json)
    requires KindOf(from) != KindOf(to)
    ensures Abs(from) != Abs(to) && !SameContainer(Abs(from), Abs(to))
  {
  }

  /** The sorted members of a plain object. */
  lemma SortedMembers(c: seq<Item>, f: seq<Item>, cs: bool)
    requires Plain(Object(c)) && f == SortItems(c, cs)
    ensures (forall x :: x in f ==> x in c) && Ascending(f, cs) && PlainItems(f)
    ensures Abs(Object(c)).Obj? && Holds(Abs(Object(c)).members, f) && forall k :: k in Abs(Object(c)).members ==> HasKey(f, k)
  {
    SortHolds(c, cs);
    SortedPlain(c, cs);
    var m := Abs(Object(c)).members;
    forall i | 0 <= i < |f|
      ensures f[i].key in m && m[f[i].key] == Abs(f[i].value)
    {
      AbsAtKey(f, i);
    }
    forall k | k in m
      ensures HasKey(f, k)
    {
      assert k in Abs(Object(f)).members;
    }
  }

  lemma {:induction false} ItemsApt(from: Json, to: Json, i: nat, cs: bool)
    requires from.Array? && to.Array? && Plain(from) && Plain(to) && i <= |from.child| && i <= |to.child|
    ensures AllApt(Abs(from), Abs(to), DiffItems(from, from.child, to.child, i, cs))
    decreases from, 0, |from.child| - i
  {
    var f, t := from.child, to.child;
    ItemsOf(f);
    ItemsOf(t);
    hide Abs, Diff;
    if i < |f| && i < |t| {
      ItemPlain(from, i);
      ItemPlain(to, i);
      DiffApt(f[i].value, t[i].value, cs);
      var ops := Diff(f[i].value, t[i].value, cs);
      AptBelow(Abs(from), Abs(to), Index(i), ops);
      ItemsApt(from, to, i + 1, cs);
      AptBoth(Abs(from), Abs(to), PrefixAll(Index(i), ops), DiffItems(from, f, t, i + 1, cs));
    }
  }

  lemma ItemPlain(a: Json, i: nat)
    requires a.Array? && Plain(a) && i < |a.child|
    ensures Plain(a.child[i].value)
  {
  }

  /** Of the names of m those that t still has f still has, too. */
  ghost predicate Open(m: map<string, Tree>, f: seq<Item>, t: seq<Item>) {
    forall k :: k in m && HasKey(t, k) ==> HasKey(f, k)
  }

  lemma {:induction false} MembersApt(from: Json, m: map<string, Tree>, n: map<string, Tree>, f: seq<Item>, t: seq<Item>, cs: bool)
    requires from.Object? && forall x :: x in f ==> x in from.child
    requires Ascending(f, cs) && Ascending(t, cs) && PlainItems(f) && PlainItems(t) && Holds(m, f) && Holds(n, t)
    requires Open(m, f, t) && Open(n, t, f)
    ensures AllApt(Obj(m), Obj(n), DiffMembers(from, f, t, cs))
    decreases from, 0, |f| + |t|
  {
    hide Abs, Compare, HasKey, Holds, PlainItems, Ascending, DiffMembers, Diff, Open;
    if f == [] && t == [] {
      NoMember(from, cs);
      return;
    }
    NextMember(from, f, t, cs);
    if f != [] { TreePatch.TailHolds(m, f, cs); TailPlain(f); FirstHeld(m, f); }
    if t != [] { TreePatch.TailHolds(n, t, cs); TailPlain(t); FirstHeld(n, t); }
    if f == [] || (t != [] && Compare(f[0].key, t[0].key, cs) > 0) {
      NotAmongLater(f, t[0].key, cs);
      OpenSecond(m, n, f, t, cs);
      MembersApt(from, m, n, f, t[1..], cs);
      AddApt(m, n, f, t);
      AptBoth(Obj(m), Obj(n), [Add([Key(t[0].key)], t[0].value)], DiffMembers(from, f, t[1..], cs));
    } else if t == [] || Compare(f[0].key, t[0].key, cs) < 0 {
      NotAmong(t, f[0].key, cs);
      OpenSecond(n, m, t, f, cs);
      MembersApt(from, m, n, f[1..], t, cs);
      RemoveApt(m, n, f, t);
      AptBoth(Obj(m), Obj(n), [Remove([Key(f[0].key)])], DiffMembers(from, f[1..], t, cs));
    } else {
      FirstPlain(f);
      FirstPlain(t);
      PlainNames(f[0].key, t[0].key, cs);
      OpenBoth(m, f, t, cs);
      OpenBoth(n, t, f, cs);
      MembersApt(from, m, n, f[1..], t[1..], cs);
      assert f[0] in from.child;
      DiffApt(f[0].value, t[0].value, cs);
      var ops := Diff(f[0].value, t[0].value, cs);
      AptBelow(Obj(m), Obj(n), Key(f[0].key), ops);
      AptBoth(Obj(m), Obj(n), PrefixAll(Key(f[0].key), ops), DiffMembers(from, f[1..], t[1..], cs));
    }
  }

  lemma NoMember(from: Json, cs: bool)
    requires from.Object?
    ensures DiffMembers(from, [], [], cs) == []
  {
  }

  /** Another name of the second sequence has been dealt with. */
  lemma OpenSecond(m: map<string, Tree>, n: map<string, Tree>, f: seq<Item>, t: seq<Item>, cs: bool)
    requires t != [] && Ascending(t, cs) && !HasKey(f, t[0].key) && Open(m, f, t) && Open(n, t, f)
    ensures Open(m, f, t[1..]) && Open(n, t[1..], f)
  {
    Names(t, cs);
    hide HasKey, Ascending;
  }

  lemma OpenBoth(m: map<string, Tree>, f: seq<Item>, t: seq<Item>, cs: bool)
    requires f != [] && t != [] && Ascending(f, cs) && Ascending(t, cs) && f[0].key == t[0].key && Open(m, f, t)
    ensures Open(m, f[1..], t[1..])
  {
    Names(f, cs);
    Names(t, cs);
    hide HasKey, Ascending;
  }

  lemma AddApt(m: map<string, Tree>, n: map<string, Tree>, f: seq<Item>, t: seq<Item>)
    requires t != [] && !HasKey(f, t[0].key) && Open(m, f, t) && Holds(n, t)
    ensures AllApt(Obj(m), Obj(n), [Add([Key(t[0].key)], t[0].value)])
  {
    FirstIsKey(t);
    FirstHeld(n, t);
    hide Abs, HasKey, Holds;
  }

  lemma RemoveApt(m: map<string, Tree>, n: map<string, Tree>, f: seq<Item>, t: seq<Item>)
    requires f != [] && !HasKey(t, f[0].key) && Open(n, t, f) && Holds(m, f)
    ensures AllApt(Obj(m), Obj(n), [Remove([Key(f[0].key)])])
  {
    FirstIsKey(f);
    FirstHeld(m, f);
    hide Abs, HasKey, Holds;
  }

  /** There are operations if and only if the trees differ. */
  lemma DiffEmpty(from: Json, to: Json, cs: bool)
    requires Plain(from) && Plain(to)
    ensures Diff(from, to, cs) == [] <==> Abs(from) == Abs(to)
  {
    hide Diff, Abs;
    DiffUndone(from, to, cs);
    DiffApt(from, to, cs);
    var ops := Diff(from, to, cs);
    if ops != [] { AptDiffers(Abs(from), Abs(to), ops[0]); }
  }

  // ---------------------------------------------------------------- each changes the tree

  lemma {:induction false} ChangingBoth(t: Tree, a: seq<Op>, b: seq<Op>)
    requires Changing(t, a) && Run(t, a).Some? && Changing(Run(t, a).value, b)
    ensures Changing(t, a + b)
    decreases |a|
  {
    if a == [] {
      assert a + b == b;
    } else {
      assert (a + b)[0] == a[0] && (a + b)[1..] == a[1..] + b;
      ChangingBoth(Edit(t, a[0]).value, a[1..], b);
    }
  }

  lemma {:induction false} ChangingBelow(t: Tree, s: Step, ops: seq<Op>)
    requires Sub(t, s).Some? && (forall i :: 0 <= i < |ops| ==> ops[i].path != [] || !ops[i].Add?)
    requires Changing(Sub(t, s).value, ops)
    ensures Changing(t, PrefixAll(s, ops))
    decreases |ops|
  {
    var all := PrefixAll(s, ops);
    if ops != [] {
      var sub := Sub(t, s).value;
      var next := Edit(sub, ops[0]).value;
      EditPrefixed(t, s, ops[0]);
      SetTwice(t, s, next, next);
      var t' := SetSub(t, s, next);
      assert t' != t;
      ChangingBelow(t', s, ops[1..]);
      assert all[0] == Prefix(s, ops[0]) && all[1..] == PrefixAll(s, ops[1..]);
    }
  }

  lemma ChangingFirst(t: Tree, op: Op, ops: seq<Op>)
    requires Edit(t, op).Some? && Edit(t, op).value != t && Changing(Edit(t, op).value, ops)
    ensures Changing(t, [op] + ops)
  {
    assert ([op] + ops)[0] == op && ([op] + ops)[1..] == ops;
  }

  /** No operation of the difference is done in vain. */
  lemma {:induction false} DiffChanges(from: Json, to: Json, cs: bool)
    requires Plain(from) && Plain(to)
    ensures Changing(Abs(from), Diff(from, to, cs))
    decreases from, 1, 0
  {
    if KindOf(from) != KindOf(to) {
      KindsDiffer(from, to);
      ReplaceChanges(from, to);
    } else if from.Array? {
      ItemsChange(from, Abs(from).items, from.child, to.child, 0, cs);
    } else if from.Object? {
      var f, t := SortItems(from.child, cs), SortItems(to.child, cs);
      SortedMembers(from.child, f, cs);
      SortedMembers(to.child, t, cs);
      hide SortItems;
      MembersChange(from, Abs(from).members, f, t, cs);
    } else {
      if from.String? { CompareEqual(from.s, to.s); }
      if Abs(from) != Abs(to) { ReplaceChanges(from, to); }
    }
  }

  lemma ReplaceChanges(from: Json, to: Json)
    requires Abs(from) != Abs(to)
    ensures Changing(Abs(from), [Replace([], to)])
  {
    var ops := [Replace([], to)];
    assert ops[1..] == [];
  }

  lemma {:induction false} ItemsChange(from: Json, items: seq<Tree>, f: seq<Item>, t: seq<Item>, i: nat, cs: bool)
    requires from.Array? && f == from.child && Halfway(items, f, t, i)
    requires forall x :: x in f || x in t ==> Plain(x.value)
    ensures Changing(Arr(items), DiffItems(from, f, t, i, cs))
    decreases from, 0, |f| - i
  {
    hide Abs, Run, Edit, Diff, Plain, Changing;
    if i < |f| && i < |t| {
      assert f[i] in f && t[i] in t;
      DiffChanges(f[i].value, t[i].value, cs);
      DiffUndone(f[i].value, t[i].value, cs);
      var ops := Diff(f[i].value, t[i].value, cs);
      AddsHavePaths(f[i].value, t[i].value, cs);
      RunPrefixed(Arr(items), Index(i), ops);
      ChangingBelow(Arr(items), Index(i), ops);
      ItemsChange(from, items[i := Abs(t[i].value)], f, t, i + 1, cs);
      ChangingBoth(Arr(items), PrefixAll(Index(i), ops), DiffItems(from, f, t, i + 1, cs));
    } else if i < |f| {
      RemovesChange(items, i, |f| - i);
    } else {
      AddsChange(items, t, i);
    }
  }

  lemma {:induction false} RemovesChange(items: seq<Tree>, i: nat, n: nat)
    requires |items| == i + n
    ensures Changing(Arr(items), seq(n, _ => Remove([Index(i)])))
    decreases n
  {
    var ops := seq(n, _ => Remove([Index(i)]));
    if n > 0 {
      var next := items[..i] + items[i + 1..];
      assert ops[0] == Remove([Index(i)]) && ops[1..] == seq(n - 1, _ => Remove([Index(i)]));
      assert |next| != |items|;
      RemovesChange(next, i, n - 1);
    }
  }

  lemma {:induction false} AddsChange(items: seq<Tree>, t: seq<Item>, i: nat)
    requires i <= |t|
    ensures Changing(Arr(items), seq(|t| - i, k requires 0 <= k < |t| - i => Add([Last], t[i + k].value)))
    decreases |t| - i
  {
    var n := |t| - i;
    var ops := seq(n, k requires 0 <= k < n => Add([Last], t[i + k].value));
    if n > 0 {
      var next := items + [Abs(t[i].value)];
      var ops' := seq(|t| - (i + 1), k requires 0 <= k < |t| - (i + 1) => Add([Last], t[i + 1 + k].value));
      assert ops[0] == Add([Last], t[i].value) && ops[1..] == ops';
      assert |next| != |items|;
      AddsChange(next, t, i + 1);
    }
  }

  lemma {:induction false} MembersChange(from: Json, m: map<string, Tree>, f: seq<Item>, t: seq<Item>, cs: bool)
    requires from.Object? && forall x :: x in f ==> x in from.child
    requires Ascending(f, cs) && Ascending(t, cs) && PlainItems(f) && PlainItems(t) && Holds(m, f) && Open(m, f, t)
    ensures Changing(Obj(m), DiffMembers(from, f, t, cs))
    decreases from, 0, |f| + |t|
  {
    hide Abs, Compare, HasKey, Holds, PlainItems, Ascending, DiffMembers, Diff, Open, Run, Edit, Changing;
    if f == [] && t == [] {
      NoMember(from, cs);
      ChangingNone(Obj(m));
      return;
    }
    NextMember(from, f, t, cs);
    if f != [] { TreePatch.TailHolds(m, f, cs); TailPlain(f); FirstHeld(m, f); }
    if t != [] { Names(t, cs); TailPlain(t); }
    if f == [] || (t != [] && Compare(f[0].key, t[0].key, cs) > 0) {
      var k, v := t[0].key, Abs(t[0].value);
      NotAmongLater(f, k, cs);
      NewName(m, f, t);
      EditMember(m, t[0]);
      HoldsWith(m, f, k, v);
      OpenWith(m, f, t, v, cs);
      MembersChange(from, m[k := v], f, t[1..], cs);
      ChangingFirst(Obj(m), Add([Key(k)], t[0].value), DiffMembers(from, f, t[1..], cs));
    } else if t == [] || Compare(f[0].key, t[0].key, cs) < 0 {
      var k := f[0].key;
      EditMember(m, f[0]);
      HoldsWithout(m, f[1..], k);
      OpenWithout(m, f, t, cs);
      MembersChange(from, m - {k}, f[1..], t, cs);
      ChangingFirst(Obj(m), Remove([Key(k)]), DiffMembers(from, f[1..], t, cs));
    } else {
      MemberChanges(from, m, f, t, cs);
    }
  }

  lemma {:induction false} MemberChanges(from: Json, m: map<string, Tree>, f: seq<Item>, t: seq<Item>, cs: bool)
    requires from.Object? && forall x :: x in f ==> x in from.child
    requires Ascending(f, cs) && Ascending(t, cs) && PlainItems(f) && PlainItems(t) && Holds(m, f) && Open(m, f, t)
    requires f != [] && t != [] && Compare(f[0].key, t[0].key, cs) == 0
    ensures Changing(Obj(m), DiffMembers(from, f, t, cs))
    decreases from, 0, |f| + |t|, 0
  {
    hide Abs, Compare, HasKey, Holds, PlainItems, Ascending, DiffMembers, Diff, Open, Run, Edit, Changing;
    FirstPlain(f);
    FirstPlain(t);
    FirstHeld(m, f);
    assert f[0] in from.child;
    var k, v := f[0].key, Abs(t[0].value);
    PlainNames(k, t[0].key, cs);
    var ops := Diff(f[0].value, t[0].value, cs);
    DiffChanges(f[0].value, t[0].value, cs);
    DiffUndone(f[0].value, t[0].value, cs);
    AddsHavePaths(f[0].value, t[0].value, cs);
    RunPrefixed(Obj(m), Key(k), ops);
    ChangingBelow(Obj(m), Key(k), ops);
    TreePatch.TailHolds(m, f, cs);
    Names(t, cs);
    TailPlain(f);
    TailPlain(t);
    HoldsWith(m, f[1..], k, v);
    OpenChanged(m, f, t, v, cs);
    MembersChange(from, m[k := v], f[1..], t[1..], cs);
    NextMember(from, f, t, cs);
    ChangingBoth(Obj(m), PrefixAll(Key(k), ops), DiffMembers(from, f[1..], t[1..], cs));
  }

  lemma ChangingNone(t: Tree)
    ensures Changing(t, [])
  {
  }

  lemma NewName(m: map<string, Tree>, f: seq<Item>, t: seq<Item>)
    requires t != [] && !HasKey(f, t[0].key) && Open(m, f, t)
    ensures t[0].key !in m
  {
    FirstIsKey(t);
  }

  lemma OpenWith(m: map<string, Tree>, f: seq<Item>, t: seq<Item>, v: Tree, cs: bool)
    requires t != [] && Ascending(t, cs) && Open(m, f, t)
    ensures Open(m[t[0].key := v], f, t[1..])
  {
    Names(t, cs);
    hide HasKey, Ascending;
  }

  lemma OpenWithout(m: map<string, Tree>, f: seq<Item>, t: seq<Item>, cs: bool)
    requires f != [] && Ascending(f, cs) && Open(m, f, t)
    ensures Open(m - {f[0].key}, f[1..], t)
  {
    Names(f, cs);
    hide HasKey, Ascending;
  }

  lemma OpenChanged(m: map<string, Tree>, f: seq<Item>, t: seq<Item>, v: Tree, cs: bool)
    requires f != [] && t != [] && Ascending(f, cs) && Ascending(t, cs) && f[0].key == t[0].key && Open(m, f, t)
    ensures Open(m[f[0].key := v], f[1..], t[1..])
  {
    Names(f, cs);
    Names(t, cs);
    hide HasKey, Ascending;
  }
}
