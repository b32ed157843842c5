/** The code of apply_patch and create_patches, 3rd/cjson/cJSON_Utils.c, changing a document in place and
    a list of patches step by step; Patch says what it computes. */
module PatchCode {
  import opened Wrappers
  import opened CStrings
  import opened Json
  import opened Members
  import opened Pointer
  import opened TreePatch
  import opened Patch
  import opened Decoding
  import TreeDiff

  method FindItem(c: seq<Item>, name: string, cs: bool) returns (r: Option<nat>)
    ensures r == ItemIndex(c, name, cs)
  {
    var i := 0;
    while i < |c| && Compare(name, c[i].key, cs) != 0
      invariant 0 <= i <= |c| && forall k :: 0 <= k < i ==> Compare(name, c[k].key, cs) != 0
    {
      i := i + 1;
    }
    return if i < |c| then Some(i) else None;
  }

  /** decode_pointer_inplace: one cursor writes, the other one reads. */
  method DecodeLoop(buf: array<char>) returns (s: string)
    modifies buf
    ensures s == DecodeInPlace(old(buf[..]), 0, 0)
  {
    var d, r := 0, 0;
    while r < buf.Length
      invariant 0 <= d <= r && d <= buf.Length
      invariant DecodeInPlace(buf[..], d, r) == DecodeInPlace(old(buf[..]), 0, 0)
      decreases buf.Length - r
    {
      ghost var was := buf[..];
      if buf[r] == '~' {
        if r + 1 < buf.Length && buf[r + 1] == '0' {
          buf[d] := '~';
          assert buf[..] == was[d := '~'];
        } else if r + 1 < buf.Length && buf[r + 1] == '1' {
          buf[d + 1] := '/';
          assert buf[..] == was[d + 1 := '/'];
        } else {
          return buf[..];
        }
        r := r + 1;
      }
      d, r := d + 1, r + 1;
    }
    s := buf[..d];
    assert buf[..][..d] == s;
  }

  method Decoded(token: string) returns (s: string)
    ensures s == DecodeInPlace(token, 0, 0)
  {
    var buf := new char[|token|](i requires 0 <= i < |token| => token[i]);
    assert buf[..] == token;
    s := DecodeLoop(buf);
  }

  class Document {
    var root: Json

    constructor (root: Json)
      ensures this.root == root
    {
      this.root := root;
    }

    /** detach_path */
    method Detach(path: string, cs: bool) returns (item: Option<Json>)
      modifies this
      ensures Detached(root, item) == DetachPath(old(root), path, cs)
    {
      item := None;
      var slash := LastSlash(path);
      if slash.None? {
        return;
      }
      var route := FindLoop(root, path[..slash.value], cs);
      var name := Decoded(path[slash.value + 1..]);
      if route.None? {
        return;
      }
      var parent := At(root, route.value);
      if parent.Array? {
        var index := DecodeIndexLoop(name);
        if index.Some? && index.value < |parent.child| {
          item := Some(parent.child[index.value].value);
          parent := Array(Without(parent.child, index.value));
        }
      } else if parent.Object? {
        var index := FindItem(parent.child, name, false);
        if index.Some? {
          item := Some(parent.child[index.value].value);
          parent := Object(Without(parent.child, index.value));
        }
      }
      root := Put(root, route.value, parent);
    }

    /** The end of apply_patch: value goes to the place the path names. */
    method AddAt(path: string, value: Json, cs: bool) returns (status: int)
      modifies this
      ensures Outcome(root, status) == AddValue(old(root), path, value, cs)
    {
      var slash := LastSlash(path);
      var route := FindLoop(root, if slash.None? then path else path[..slash.value], cs);
      if route.None? || slash.None? {
        return 9;
      }
      var name := Decoded(path[slash.value + 1..]);
      var parent := At(root, route.value);
      status := 0;
      if parent.Array? {
        parent, status := AddItem(parent, name, value, cs);
      } else if parent.Object? {
        var index := FindItem(parent.child, name, cs);
        if index.Some? {
          parent := Object(Without(parent.child, index.value));
        }
        parent := Object(parent.child + [Item(name, value)]);
      } else {
        status := 9;
      }
      root := Put(root, route.value, parent);
    }

    /** apply_patch */
    method Apply(patch: Json, cs: bool) returns (status: int)
      modifies this
      ensures Outcome(root, status) == ApplyPatch(old(root), patch, cs)
    {
      hide DetachPath, AddValue, Find, Put, At, CompareJson, DecodeOperation, Member;
      var path := Member(patch, "path", cs);
      if path.None? || !path.value.String? {
        return 2;
      }
      var opcode := DecodeOperation(patch, cs);
      if opcode.INVALID? {
        return 3;
      }
      if opcode.TEST? {
        var route := FindLoop(root, path.value.s, cs);
        var value := Member(patch, "value", cs);
        return if route.Some? && value.Some? && CompareJson(At(root, route.value), value.value, cs) then 0 else 1;
      }
      if path.value.s == "" {
        if opcode.REMOVE? {
          root := Invalid;
          return 0;
        }
        if opcode.REPLACE? || opcode.ADD? {
          var value := Member(patch, "value", cs);
          if value.None? {
            return 7;
          }
          root := value.value;
          return 0;
        }
      }
      if opcode.REMOVE? || opcode.REPLACE? {
        var gone := Detach(path.value.s, cs);
        if gone.None? {
          return 13;
        }
        if opcode.REMOVE? {
          return 0;
        }
      }
      if opcode.MOVE? || opcode.COPY? {
        status := ApplyFrom(patch, path.value.s, opcode.MOVE?, cs);
        return;
      }
      var value := Member(patch, "value", cs);
      if value.None? {
        return 7;
      }
      status := AddAt(path.value.s, value.value, cs);
    }

    method ApplyFrom(patch: Json, path: string, move: bool, cs: bool) returns (status: int)
      modifies this
      ensures Outcome(root, status) == AddFrom(old(root), path, patch, move, cs)
    {
      hide DetachPath, AddValue, Find, At, Member;
      var from := Member(patch, "from", cs);
      if from.None? {
        return 4;
      }
      if !from.value.String? {
        return if move then CRASH else 5;
      }
      var value: Option<Json> := None;
      if move {
        value := Detach(from.value.s, cs);
      } else {
        var route := FindLoop(root, from.value.s, cs);
        if route.Some? { value := Some(At(root, route.value)); }
      }
      if value.None? {
        return 5;
      }
      status := AddAt(path, value.value, cs);
    }

    /** cJSONUtils_ApplyPatches and its case-sensitive form */
    method ApplyAll(patches: Json, cs: bool) returns (status: int)
      modifies this
      ensures Outcome(root, status) == if patches.Array? then ApplyPatches(old(root), patches.child, cs) else Outcome(old(root), 1)
    {
      hide ApplyPatch;
      if !patches.Array? {
        return 1;
      }
      var i := 0;
      while i < |patches.child|
        invariant 0 <= i <= |patches.child|
        invariant ApplyPatches(root, patches.child[i..], cs) == ApplyPatches(old(root), patches.child, cs)
      {
        ghost var rest := patches.child[i..];
        assert rest[0] == patches.child[i] && rest[1..] == patches.child[i + 1..];
        status := Apply(patches.child[i].value, cs);
        if status != 0 {
          return;
        }
        i := i + 1;
      }
      return 0;
    }
  }

  method AddItem(parent: Json, name: string, value: Json, cs: bool) returns (parent': Json, status: int)
    requires parent.Array?
    ensures Outcome(parent', status) == AddTo(parent, name, value, cs)
  {
    parent' := parent;
    if Compare(name, "-", true) == 0 {
      return Array(parent.child + [Item("", value)]), 0;
    }
    var index := DecodeIndexLoop(name);
    if index.None? {
      return parent, 11;
    }
    if index.value > |parent.child| {
      return parent, 10;
    }
    return Array(parent.child[..index.value] + [Item("", value)] + parent.child[index.value..]), 0;
  }

  // ---------------------------------------------------------------- create_patches

  /** Operations on the node at the end of steps. */
  function Under(steps: seq<Step>, ops: seq<Op>): (r: seq<Op>)
    ensures |r| == |ops| && forall i :: 0 <= i < |r| ==> r[i] == ops[i].(path := steps + ops[i].path)
  {
    seq(|ops|, i requires 0 <= i < |ops| => ops[i].(path := steps + ops[i].path))
  }

  lemma UnderBoth(steps: seq<Step>, a: seq<Op>, b: seq<Op>)
    ensures Under(steps, a + b) == Under(steps, a) + Under(steps, b)
  {
  }

  lemma ComposeBoth(a: seq<Op>, b: seq<Op>)
    ensures ComposeAll(a + b) == ComposeAll(a) + ComposeAll(b)
  {
    hide Compose;
  }

  lemma UnderPrefixed(steps: seq<Step>, s: Step, ops: seq<Op>)
    ensures Under(steps, PrefixAll(s, ops)) == Under(steps + [s], ops)
  {
    forall i | 0 <= i < |ops|
      ensures Under(steps, PrefixAll(s, ops))[i] == Under(steps + [s], ops)[i]
    {
      assert steps + ([s] + ops[i].path) == (steps + [s]) + ops[i].path;
    }
  }

  /** The patches for ops were put behind those that were there already. */
  ghost predicate Grown(was: seq<Item>, now: seq<Item>, steps: seq<Step>, ops: seq<Op>) {
    now == was + ComposeAll(Under(steps, ops))
  }

  lemma GrownNone(was: seq<Item>, steps: seq<Step>)
    ensures Grown(was, was, steps, [])
  {
    assert Under(steps, []) == [] && ComposeAll([]) == [];
  }

  lemma GrownMore(was: seq<Item>, mid: seq<Item>, now: seq<Item>, steps: seq<Step>, done: seq<Op>, ops: seq<Op>)
    requires Grown(was, mid, steps, done) && Grown(mid, now, steps, ops)
    ensures Grown(was, now, steps, done + ops)
  {
    hide Compose, Under, ComposeAll;
    UnderBoth(steps, done, ops);
    ComposeBoth(Under(steps, done), Under(steps, ops));
    assert was + (ComposeAll(Under(steps, done)) + ComposeAll(Under(steps, ops)))
        == (was + ComposeAll(Under(steps, done))) + ComposeAll(Under(steps, ops));
  }

  lemma GrownBelow(mid: seq<Item>, now: seq<Item>, steps: seq<Step>, s: Step, ops: seq<Op>)
    requires Grown(mid, now, steps + [s], ops)
    ensures Grown(mid, now, steps, PrefixAll(s, ops))
  {
    UnderPrefixed(steps, s, ops);
  }

  /** Nothing is appended if and only if the trees are equal. */
  lemma GrownIfDifferent(was: seq<Item>, now: seq<Item>, steps: seq<Step>, from: Json, to: Json, cs: bool)
    requires Plain(from) && Plain(to) && Grown(was, now, steps, Diff(from, to, cs))
    ensures now == was <==> Abs(from) == Abs(to)
  {
    TreeDiff.DiffEmpty(from, to, cs);
    hide Plain, Abs, Diff;
    if now == was { assert |now| == |was| + |Diff(from, to, cs)|; }
  }

  class PatchList {
    var items: seq<Item>

    constructor ()
      ensures items == []
    {
      items := [];
    }

    /** compose_patch; the suffix is a name, an index or "-". */
    method ComposePatch(operation: string, path: string, suffix: Option<string>, value: Option<Json>, ghost op: Op, ghost steps: seq<Step>)
      requires path == PathOf(steps) && operation == OpName(op)
      requires if suffix.None? then op.path == [] else |op.path| == 1 && suffix.value == Tok(op.path[0]) && PlainStep(op.path[0])
      requires value == if op.Remove? then None else Some(op.value)
      modifies this
      ensures Grown(old(items), items, steps, [op])
    {
      hide PathOf, Tok, PlainStep;
      ghost var far := op.(path := steps + op.path);
      var full := path;
      if suffix.Some? {
        TokPlain(op.path[0]);
        var name := Escaped(suffix.value);
        full := path + ("/" + name);
        PathSplits(steps, op.path[0]);
        assert steps + [op.path[0]] == steps + op.path;
      } else {
        assert steps + op.path == steps;
      }
      var patch := Object([Item("op", String(operation)), Item("path", String(full))]
                          + if value.None? then [] else [Item("value", value.value)]);
      assert patch == Compose(far);
      assert ComposeAll(Under(steps, [op])) == [Item("", Compose(far))];
      items := items + [Item("", patch)];
    }
  }

  /** encode_string_as_pointer into fresh memory. */
  method Escaped(name: string) returns (s: string)
    ensures '~' !in name && '/' !in name ==> s == name
  {
    var buf := new char[EncodedLength(name)];
    ghost var mem := buf[..];
    EncodeStringAsPointer(buf, 0, name);
    s := buf[..];
    if '~' !in name && '/' !in name {
      EncodePlain(name, mem);
      assert buf[0 + EncodedLength(name)..] == [];
    }
  }

  /** create_patches.  It leaves both trees as values, but sorts the members of the objects it compares. */
  method CreatePatches(patches: PatchList, path: string, from: Json, to: Json, cs: bool, ghost steps: seq<Step>)
      returns (from': Json, to': Json)
    requires Plain(from) && Plain(to) && Countable(from) && path == PathOf(steps)
    modifies patches
    ensures Grown(old(patches.items), patches.items, steps, Diff(from, to, cs))
    ensures patches.items == old(patches.items) <==> Abs(from) == Abs(to)
    ensures Plain(from') && Abs(from') == Abs(from) && Plain(to') && Abs(to') == Abs(to)
    decreases from, 1
  {
    hide Plain, Abs, PathOf, Compose, PlainStep, Compare;
    from', to' := from, to;
    GrownNone(patches.items, steps);
    if KindOf(from) != KindOf(to) {
      patches.ComposePatch("replace", path, None, Some(to), Replace([], to), steps);
      GrownIfDifferent(old(patches.items), patches.items, steps, from, to, cs);
      return;
    }
    if from.Number? && from.n != to.n {
      patches.ComposePatch("replace", path, None, Some(to), Replace([], to), steps);
    } else if from.String? && Compare(from.s, to.s, true) != 0 {
      patches.ComposePatch("replace", path, None, Some(to), Replace([], to), steps);
    } else if from.Array? {
      from', to' := PatchItems(patches, path, from, to, cs, steps);
    } else if from.Object? {
      from', to' := PatchMembers(patches, path, from, to, cs, steps);
    }
    GrownIfDifferent(old(patches.items), patches.items, steps, from, to, cs);
  }

  lemma ItemsOfPlain(c: seq<Item>)
    requires Plain(Array(c))
    ensures forall x :: x in c ==> Plain(x.value)
  {
  }

  ghost predicate SameValues(c: seq<Item>, d: seq<Item>) {
    |c| == |d| && forall i :: 0 <= i < |c| ==> Plain(d[i].value) && d[i].key == c[i].key && Abs(d[i].value) == Abs(c[i].value)
  }

  /** The case of two arrays. */
  method PatchItems(patches: PatchList, path: string, from: Json, to: Json, cs: bool, ghost steps: seq<Step>)
      returns (from': Json, to': Json)
    requires Plain(from) && Plain(to) && Countable(from) && path == PathOf(steps) && from.Array? && to.Array?
    modifies patches
    ensures Grown(old(patches.items), patches.items, steps, DiffItems(from, from.child, to.child, 0, cs))
    ensures Plain(from') && Abs(from') == Abs(from) && Plain(to') && Abs(to') == Abs(to)
    decreases from, 0
  {
    hide Plain, Abs, PathOf, Compose, Diff, DiffItems, SameValues, Grown;
    var f, t := from.child, to.child;
    var i := 0;
    ghost var was := patches.items;
    ghost var done: seq<Op> := [];
    GrownNone(was, steps);
    ItemsOfPlain(from.child);
    ItemsOfPlain(to.child);
    SameStart(from.child);
    SameStart(to.child);
    assert done + DiffItems(from, f, t, 0, cs) == DiffItems(from, f, t, 0, cs);
    while i < |from.child| && i < |to.child|
      invariant 0 <= i <= |from.child| && i <= |to.child| && SameValues(from.child, f) && SameValues(to.child, t)
      invariant Grown(was, patches.items, steps, done)
      invariant done + DiffItems(from, from.child, to.child, i, cs) == DiffItems(from, from.child, to.child, 0, cs)
    {
      ghost var mid := patches.items;
      var x, y := from.child[i].value, to.child[i].value;
      NextItem(from, to, i, cs, steps, done);
      var x', y' := CreatePatches(patches, path + ("/" + Digits(i)), x, y, cs, steps + [Index(i)]);
      GrownBelow(mid, patches.items, steps, Index(i), Diff(x, y, cs));
      GrownMore(was, mid, patches.items, steps, done, PrefixAll(Index(i), Diff(x, y, cs)));
      done := done + PrefixAll(Index(i), Diff(x, y, cs));
      f := ReplaceItem(from.child, f, i, x');
      t := ReplaceItem(to.child, t, i, y');
      i := i + 1;
    }
    SameEnd(from, f);
    SameEnd(to, t);
    PatchRest(patches, path, from, to, i, cs, steps, was, done);
    return Array(f), Array(t);
  }

  method ReplaceItem(ghost c: seq<Item>, d: seq<Item>, i: nat, v: Json) returns (d': seq<Item>)
    requires SameValues(c, d) && i < |c| && Plain(v) && Abs(v) == Abs(c[i].value)
    ensures SameValues(c, d')
  {
    d' := d[i := d[i].(value := v)];
  }

  lemma SameStart(c: seq<Item>)
    requires forall x :: x in c ==> Plain(x.value)
    ensures SameValues(c, c)
  {
  }

  /** Items changed in a way that does not change their values. */
  lemma SameItemValues(c: seq<Item>, d: seq<Item>)
    requires |c| == |d| && forall i :: 0 <= i < |c| ==> Plain(d[i].value) && Abs(d[i].value) == Abs(c[i].value)
    ensures Plain(Array(d)) && Abs(Array(d)) == Abs(Array(c))
  {
    assert Abs(Array(d)).items == Abs(Array(c)).items;
  }

  lemma SameEnd(j: Json, d: seq<Item>)
    requires j.Array? && SameValues(j.child, d)
    ensures Plain(Array(d)) && Abs(Array(d)) == Abs(j)
  {
    SameItemValues(j.child, d);
  }

  lemma NextItem(from: Json, to: Json, i: nat, cs: bool, steps: seq<Step>, done: seq<Op>)
    requires from.Array? && to.Array? && i < |from.child| && i < |to.child| && Plain(from) && Plain(to) && Countable(from)
    ensures from.child[i] in from.child && PathOf(steps + [Index(i)]) == PathOf(steps) + ("/" + Digits(i))
    ensures Plain(from.child[i].value) && Plain(to.child[i].value) && Countable(from.child[i].value)
    ensures var more := PrefixAll(Index(i), Diff(from.child[i].value, to.child[i].value, cs));
            done + DiffItems(from, from.child, to.child, i, cs) == (done + more) + DiffItems(from, from.child, to.child, i + 1, cs)
  {
    PathSplits(steps, Index(i));
    hide Diff, PathOf, PrefixAll;
    var more := PrefixAll(Index(i), Diff(from.child[i].value, to.child[i].value, cs));
    ItemsFrom(from, to, i, cs);
    Appended(done, more, DiffItems(from, from.child, to.child, i + 1, cs));
    hide DiffItems;
  }

  lemma ItemsFrom(from: Json, to: Json, i: nat, cs: bool)
    requires from.Array? && to.Array? && i < |from.child| && i < |to.child|
    ensures DiffItems(from, from.child, to.child, i, cs) ==
              PrefixAll(Index(i), Diff(from.child[i].value, to.child[i].value, cs)) + DiffItems(from, from.child, to.child, i + 1, cs)
  {
    hide Diff, PrefixAll;
  }

  lemma Appended(a: seq<Op>, b: seq<Op>, c: seq<Op>)
    ensures a + (b + c) == (a + b) + c
  {
  }

  /** The items that only one of the arrays has. */
  method PatchRest(patches: PatchList, path: string, from: Json, to: Json, i: nat, cs: bool, ghost steps: seq<Step>,
                   ghost was: seq<Item>, ghost done: seq<Op>)
    requires from.Array? && to.Array? && i <= |from.child| && i <= |to.child| && (i == |from.child| || i == |to.child|)
    requires |from.child| < SIZE && path == PathOf(steps) && Grown(was, patches.items, steps, done)
    modifies patches
    ensures Grown(was, patches.items, steps, done + DiffItems(from, from.child, to.child, i, cs))
  {
    hide PathOf, Compose, Grown;
    ghost var total := DiffItems(from, from.child, to.child, i, cs);
    var k := i;
    ghost var n := 0;
    assert done + total[..0] == done;
    while k < |from.child|
      invariant i <= k <= |from.child| && n == k - i && n <= |total|
      invariant Grown(was, patches.items, steps, done + total[..n])
    {
      ghost var mid := patches.items;
      patches.ComposePatch("remove", path, Some(Digits(i)), None, Remove([Index(i)]), steps);
      GrownMore(was, mid, patches.items, steps, done + total[..n], [Remove([Index(i)])]);
      assert (done + total[..n]) + [Remove([Index(i)])] == done + total[..n + 1];
      k, n := k + 1, n + 1;
    }
    k := i;
    while k < |to.child|
      invariant i <= k <= |to.child| && n <= |total| && (i == |from.child| ==> n == k - i)
      invariant i < |from.child| ==> n == |total|
      invariant Grown(was, patches.items, steps, done + total[..n])
    {
      ghost var mid := patches.items;
      ghost var op := Add([Last], to.child[k].value);
      assert total[n] == op;
      patches.ComposePatch("add", path, Some("-"), Some(to.child[k].value), op, steps);
      GrownMore(was, mid, patches.items, steps, done + total[..n], [op]);
      assert (done + total[..n]) + [op] == done + total[..n + 1];
      k, n := k + 1, n + 1;
    }
    assert total[..n] == total;
  }

  /** The case of two objects: both are sorted, then two cursors run over their members. */
  method PatchMembers(patches: PatchList, path: string, from: Json, to: Json, cs: bool, ghost steps: seq<Step>)
      returns (from': Json, to': Json)
    requires Plain(from) && Plain(to) && Countable(from) && path == PathOf(steps) && from.Object? && to.Object?
    modifies patches
    ensures (forall x :: x in SortItems(from.child, cs) ==> x in from.child)
            && Grown(old(patches.items), patches.items, steps,
                     DiffMembers(from, SortItems(from.child, cs), SortItems(to.child, cs), cs))
    ensures Plain(from') && Abs(from') == Abs(from) && Plain(to') && Abs(to') == Abs(to)
    decreases from, 0
  {
    hide Plain, Abs, PathOf, Compose, Diff, DiffMembers, SameValues, Grown, PlainItems, Compare, PlainKey, Countable, Ascending,
         Tok, PlainStep, Unique, SortItems;
    SortedPlain(from.child, cs);
    SortedPlain(to.child, cs);
    var f, t := SortItems(from.child, cs), SortItems(to.child, cs);
    var f', t' := f, t;
    var i, j := 0, 0;
    ghost var was := patches.items;
    ghost var done: seq<Op> := [];
    ghost var total := DiffMembers(from, f, t, cs);
    GrownNone(was, steps);
    SameStartPlain(f);
    SameStartPlain(t);
    assert f[0..] == f && t[0..] == t && done + total == total;
    while i < |f| || j < |t|
      invariant 0 <= i <= |f| && 0 <= j <= |t| && SameValues(f, f') && SameValues(t, t')
      invariant Grown(was, patches.items, steps, done) && forall x :: x in f[i..] ==> x in from.child
      invariant done + DiffMembers(from, f[i..], t[j..], cs) == total
      decreases |f| - i + |t| - j
    {
      ghost var mid := patches.items;
      assert i < |f| ==> f[i..][0] == f[i] && f[i..][1..] == f[i + 1..];
      assert j < |t| ==> t[j..][0] == t[j] && t[j..][1..] == t[j + 1..];
      NextMember(from, f[i..], t[j..], cs);
      if i < |f| { MemberIsPlain(f, i); }
      if j < |t| { MemberIsPlain(t, j); }
      var diff := if i == |f| then 1 else if j == |t| then -1 else Compare(f[i].key, t[j].key, cs);
      if diff == 0 {
        ghost var ops := Diff(f[i].value, t[j].value, cs);
        assert f[i] in f[i..];
        CountableMember(from, f[i]);
        var name := Escaped(f[i].key);
        PathSplits(steps, Key(f[i].key));
        PlainHasNone(f[i].key);
        PlainKeyStep(f[i].key);
        var x, y := CreatePatches(patches, path + ("/" + name), f[i].value, t[j].value, cs, steps + [Key(f[i].key)]);
        GrownBelow(mid, patches.items, steps, Key(f[i].key), ops);
        GrownMore(was, mid, patches.items, steps, done, PrefixAll(Key(f[i].key), ops));
        Associate(done, PrefixAll(Key(f[i].key), ops), DiffMembers(from, f[i + 1..], t[j + 1..], cs));
        done := done + PrefixAll(Key(f[i].key), ops);
        f' := ReplaceItem(f, f', i, x);
        t' := ReplaceItem(t, t', j, y);
        i, j := i + 1, j + 1;
      } else if diff < 0 {
        ghost var op := Remove([Key(f[i].key)]);
        PlainKeyStep(f[i].key);
        patches.ComposePatch("remove", path, Some(f[i].key), None, op, steps);
        GrownMore(was, mid, patches.items, steps, done, [op]);
        Associate(done, [op], DiffMembers(from, f[i + 1..], t[j..], cs));
        done := done + [op];
        i := i + 1;
      } else {
        ghost var op := Add([Key(t[j].key)], t[j].value);
        PlainKeyStep(t[j].key);
        patches.ComposePatch("add", path, Some(t[j].key), Some(t[j].value), op, steps);
        GrownMore(was, mid, patches.items, steps, done, [op]);
        Associate(done, [op], DiffMembers(from, f[i..], t[j + 1..], cs));
        done := done + [op];
        j := j + 1;
      }
    }
    NoMoreMembers(from, f[i..], t[j..], cs);
    assert done + [] == done;
    SameMemberValues(f, f');
    SameMemberValues(t, t');
    return Object(f'), Object(t');
  }

  lemma Associate(a: seq<Op>, b: seq<Op>, c: seq<Op>)
    ensures a + (b + c) == (a + b) + c
  {
  }

  lemma NoMoreMembers(from: Json, f: seq<Item>, t: seq<Item>, cs: bool)
    requires from.Object? && f == [] && t == []
    ensures DiffMembers(from, f, t, cs) == []
  {
  }

  lemma SameStartPlain(c: seq<Item>)
    requires PlainItems(c)
    ensures SameValues(c, c)
  {
    SameStart(c);
  }

  lemma MemberIsPlain(c: seq<Item>, i: nat)
    requires PlainItems(c) && i < |c|
    ensures PlainKey(c[i].key) && Plain(c[i].value)
  {
    assert c[i] in c;
  }

  lemma PlainHasNone(k: string)
    requires PlainKey(k)
    ensures '~' !in k && '/' !in k
  {
  }

  lemma PlainKeyStep(k: string)
    requires PlainKey(k)
    ensures PlainStep(Key(k)) && Tok(Key(k)) == k
  {
  }

  lemma SameMemberValues(c: seq<Item>, d: seq<Item>)
    requires Plain(Object(c)) && SameValues(c, d)
    ensures Plain(Object(d)) && Abs(Object(d)) == Abs(Object(c))
  {
    var m := Abs(Object(c)).members;
    assert Unique(c) && Unique(d) && Plain(Object(d));
    hide Plain, Unique;
    forall k | 0 <= k < |d|
      ensures d[k].key in m && Abs(d[k].value) == m[d[k].key]
    {
      AbsAtKey(c, k);
    }
    forall k | k in m
      ensures HasKey(d, k)
    {
      assert d[KeyIndex(c, k)].key == k;
    }
    AbsSameMembers(d, m);
  }

  /** Generating patches and applying them to the first document, which the generator has sorted in part:
      every patch is accepted, and the document is equal to the second one. */
  method DiffAndApply(from: Document, to: Document, cs: bool) returns (patches: Json, status: int)
    requires from != to && Plain(from.root) && Plain(to.root) && Countable(from.root)
    modifies from, to
    ensures status == 0 && Plain(from.root) && Abs(from.root) == Abs(old(to.root)) == Abs(to.root)
    ensures patches.Array? && (patches.child == [] <==> old(Abs(from.root)) == old(Abs(to.root)))
  {
    hide Plain, Abs, Diff, ApplyPatches;
    var list := new PatchList();
    ghost var ops := Diff(from.root, to.root, cs);
    assert PathOf([]) == "";
    from.root, to.root := CreatePatches(list, "", from.root, to.root, cs, []);
    assert list.items == ComposeAll(ops) by { UnderNothing(ops); assert [] + ComposeAll(ops) == ComposeAll(ops); }
    PatchesUndoDiff(from.root, old(from.root), old(to.root), cs, cs);
    patches := Array(list.items);
    status := from.ApplyAll(patches, cs);
  }

  lemma UnderNothing(ops: seq<Op>)
    ensures Under([], ops) == ops
  {
    forall i | 0 <= i < |ops|
      ensures Under([], ops)[i] == ops[i]
    {
      assert [] + ops[i].path == ops[i].path;
    }
  }
}
