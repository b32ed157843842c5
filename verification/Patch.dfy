/** apply_patch and create_patches of 3rd/cjson/cJSON_Utils.c: patches are JSON trees, their paths are
    strings.  apply_patch refines the operations of TreePatch, and undoes the patches of create_patches. */
module Patch {
  import opened Wrappers
  import opened CStrings
  import opened Json
  import opened Members
  import opened Pointer
  import opened Decoding
  import opened TreePatch

  // ---------------------------------------------------------------- looking up and changing children

  /** cJSON_GetObjectItem and cJSON_GetObjectItemCaseSensitive: the first member of that name. */
  function ItemIndex(c: seq<Item>, name: string, cs: bool): (r: Option<nat>)
    ensures r.Some? ==> r.value < |c| && Compare(name, c[r.value].key, cs) == 0
    ensures forall i :: 0 <= i < (if r.Some? then r.value else |c|) ==> Compare(name, c[i].key, cs) != 0
  {
    if c == [] then None
    else if Compare(name, c[0].key, cs) == 0 then Some(0)
    else
      var r := ItemIndex(c[1..], name, cs);
      if r.None? then None else Some(r.value + 1)
  }

  function Member(j: Json, name: string, cs: bool): Option<Json> {
    if !j.Object? || ItemIndex(j.child, name, cs).None? then None
    else Some(j.child[ItemIndex(j.child, name, cs).value].value)
  }

  function Without(c: seq<Item>, i: nat): seq<Item>
    requires i < |c|
  {
    c[..i] + c[i + 1..]
  }

  /** The tree with another node at the end of the route. */
  function Put(j: Json, route: seq<nat>, node: Json): Json
    requires HasRoute(j, route)
  {
    if route == [] then node
    else
      WithChild(j, route[0], Put(j.child[route[0]].value, route[1..], node))
  }

  /** The node with another value for child i. */
  function WithChild(j: Json, i: nat, node: Json): Json
    requires j.IsContainer() && i < |j.child|
  {
    var c := j.child[i := j.child[i].(value := node)];
    if j.Array? then Array(c) else Object(c)
  }

  /** strrchr */
  function LastSlash(p: string): (r: Option<nat>)
    ensures r.Some? ==> r.value < |p| && p[r.value] == '/'
    ensures forall i :: (if r.Some? then r.value + 1 else 0) <= i < |p| ==> p[i] != '/'
  {
    if p == [] then None
    else if p[|p| - 1] == '/' then Some(|p| - 1)
    else LastSlash(p[..|p| - 1])
  }

  datatype Detached = Detached(root: Json, item: Option<Json>)

  /** Children of objects are looked up without regard to case, whatever was asked for. */
  function DetachFrom(parent: Json, name: string): Detached {
    match parent
    case Array(c) =>
      var i := DecodeIndex(name);
      if i.None? || i.value >= |c| then Detached(parent, None)
      else Detached(Array(Without(c, i.value)), Some(c[i.value].value))
    case Object(c) =>
      var i := ItemIndex(c, name, false);
      if i.None? then Detached(parent, None) else Detached(Object(Without(c, i.value)), Some(c[i.value].value))
    case _ => Detached(parent, None)
  }

  /** The member of the very name taken out, if there is one. */
  ghost function NamedTaken(c: seq<Item>, name: string): Detached {
    if HasKey(c, name) then Detached(Object(Without(c, KeyIndex(c, name))), Some(c[KeyIndex(c, name)].value))
    else Detached(Object(c), None)
  }

  /** Removing ignores case, even if the caller asked for case to count.  It takes out the member of that name, and nothing
      where there is none, if and only if no other name that differs from it only in case comes first. */
  lemma DetachIgnoresCase(c: seq<Item>, name: string)
    requires Unique(c)
    ensures DetachFrom(Object(c), name) == NamedTaken(c, name) <==>
            forall i :: 0 <= i < (if HasKey(c, name) then KeyIndex(c, name) else |c|) ==> Compare(name, c[i].key, false) != 0
  {
    CompareSwapped(name, name, false);
    var found := ItemIndex(c, name, false);
    if HasKey(c, name) {
      var k := KeyIndex(c, name);
      var i := found.value;
      if i < k {
        assert Without(c, k)[i] == c[i] && Without(c, i)[i] == c[i + 1];
      }
    }
  }

  lemma DetachTakesOtherCase()
    ensures var c := [Item("A", Number(1)), Item("a", Number(2))];
            DetachFrom(Object(c), "a").root == Object([Item("a", Number(2))])
  {
    var c := [Item("A", Number(1)), Item("a", Number(2))];
    assert "a"[1..] == "" && "A"[1..] == "";
    assert Compare("a", "A", false) == 0;
    assert ItemIndex(c, "a", false) == Some(0);
    assert Without(c, 0) == [Item("a", Number(2))];
  }

  /** detach_path */
  function DetachPath(root: Json, path: string, cs: bool): Detached {
    var slash := LastSlash(path);
    if slash.None? then Detached(root, None)
    else
      var route := Find(root, path[..slash.value], cs);
      if route.None? then Detached(root, None)
      else
        var d := DetachFrom(At(root, route.value), DecodeInPlace(path[slash.value + 1..], 0, 0));
        Detached(Put(root, route.value, d.root), d.item)
  }

  // ---------------------------------------------------------------- apply_patch

  datatype Outcome = Outcome(root: Json, status: int)

  /** Adds value to parent under the last token of the path. */
  function AddTo(parent: Json, name: string, value: Json, cs: bool): Outcome {
    match parent
    case Array(c) =>
      if Compare(name, "-", true) == 0 then Outcome(Array(c + [Item("", value)]), 0)
      else
        var i := DecodeIndex(name);
        if i.None? then Outcome(parent, 11)
        else if i.value > |c| then Outcome(parent, 10)
        else Outcome(Array(c[..i.value] + [Item("", value)] + c[i.value..]), 0)
    case Object(c) =>
      var i := ItemIndex(c, name, cs);
      Outcome(Object((if i.None? then c else Without(c, i.value)) + [Item(name, value)]), 0)
    case _ => Outcome(parent, 9)
  }

  function AddValue(root: Json, path: string, value: Json, cs: bool): Outcome {
    var slash := LastSlash(path);
    var route := Find(root, if slash.None? then path else path[..slash.value], cs);
    if route.None? || slash.None? then Outcome(root, 9)
    else
      var r := AddTo(At(root, route.value), DecodeInPlace(path[slash.value + 1..], 0, 0), value, cs);
      Outcome(Put(root, route.value, r.root), r.status)
  }

  datatype Opcode = INVALID | ADD | REMOVE | REPLACE | MOVE | COPY | TEST

  function DecodeOperation(patch: Json, cs: bool): Opcode {
    var op := Member(patch, "op", cs);
    if op.None? || !op.value.String? then INVALID
    else if Compare(op.value.s, "add", true) == 0 then ADD
    else if Compare(op.value.s, "remove", true) == 0 then REMOVE
    else if Compare(op.value.s, "replace", true) == 0 then REPLACE
    else if Compare(op.value.s, "move", true) == 0 then MOVE
    else if Compare(op.value.s, "copy", true) == 0 then COPY
    else if Compare(op.value.s, "test", true) == 0 then TEST
    else INVALID
  }

  function TestPatch(root: Json, path: string, patch: Json, cs: bool): Outcome {
    var route, value := Find(root, path, cs), Member(patch, "value", cs);
    Outcome(root, if route.Some? && value.Some? && CompareJson(At(root, route.value), value.value, cs) then 0 else 1)
  }

  /** The status of a call that reads through a null pointer. */
  const CRASH := -1

  /** Move and copy take what they add from another place. */
  function AddFrom(root: Json, path: string, patch: Json, move: bool, cs: bool): Outcome {
    var from := Member(patch, "from", cs);
    if from.None? then Outcome(root, 4)
    else if !from.value.String? then Outcome(root, if move then CRASH else 5)
    else if move then
      var d := DetachPath(root, from.value.s, cs);
      if d.item.None? then Outcome(d.root, 5) else AddValue(d.root, path, d.item.value, cs)
    else
      var route := Find(root, from.value.s, cs);
      if route.None? then Outcome(root, 5) else AddValue(root, path, At(root, route.value), cs)
  }

  /** apply_patch: the tree it leaves and its status. */
  function ApplyPatch(root: Json, patch: Json, cs: bool): Outcome {
    var path, op, value := Member(patch, "path", cs), DecodeOperation(patch, cs), Member(patch, "value", cs);
    if path.None? || !path.value.String? then Outcome(root, 2)
    else if op.INVALID? then Outcome(root, 3)
    else if op.TEST? then TestPatch(root, path.value.s, patch, cs)
    else if path.value.s == "" && op.REMOVE? then Outcome(Invalid, 0)
    else if path.value.s == "" && (op.REPLACE? || op.ADD?) then
      (if value.None? then Outcome(root, 7) else Outcome(value.value, 0))
    else if op.REMOVE? || op.REPLACE? then
      var d := DetachPath(root, path.value.s, cs);
      if d.item.None? then Outcome(d.root, 13)
      else if op.REMOVE? then Outcome(d.root, 0)
      else if value.None? then Outcome(d.root, 7)
      else AddValue(d.root, path.value.s, value.value, cs)
    else if op.MOVE? || op.COPY? then AddFrom(root, path.value.s, patch, op.MOVE?, cs)
    else if value.None? then Outcome(root, 7)
    else AddValue(root, path.value.s, value.value, cs)
  }

  /** cJSONUtils_ApplyPatches: one after the other until one fails. */
  function ApplyPatches(root: Json, patches: seq<Item>, cs: bool): Outcome
    decreases |patches|
  {
    if patches == [] then Outcome(root, 0)
    else
      var r := ApplyPatch(root, patches[0].value, cs);
      if r.status != 0 then r else ApplyPatches(r.root, patches[1..], cs)
  }

  // ---------------------------------------------------------------- paths

  function Tok(s: Step): string {
    match s
    case Key(k) => k
    case Index(i) => Digits(i)
    case Last => "-"
  }

  function PathOf(path: seq<Step>): string {
    if path == [] then "" else "/" + (Tok(path[0]) + PathOf(path[1..]))
  }

  ghost predicate PlainStep(s: Step) {
    match s
    case Key(k) => PlainKey(k)
    case Index(i) => i < SIZE
    case Last => true
  }

  ghost predicate PlainOp(op: Op) {
    && (forall i :: 0 <= i < |op.path| ==> PlainStep(op.path[i]))
    && (!op.Remove? ==> Plain(op.value))
  }

  lemma TokPlain(s: Step)
    requires PlainStep(s)
    ensures '/' !in Tok(s) && '~' !in Tok(s)
  {
  }

  lemma PathStart(path: seq<Step>)
    ensures PathOf(path) == [] || PathOf(path)[0] == '/'
  {
  }

  lemma {:induction false} PathSplits(path: seq<Step>, s: Step)
    ensures PathOf(path + [s]) == PathOf(path) + ("/" + Tok(s))
  {
    hide Tok;
    if path == [] {
      assert path + [s] == [s] && [s][1..] == [];
      assert "/" + (Tok(s) + "") == "" + ("/" + Tok(s));
    } else {
      PathSplits(path[1..], s);
      assert (path + [s])[1..] == path[1..] + [s];
      Regroup(Tok(path[0]), PathOf(path[1..]), "/" + Tok(s));
    }
  }

  lemma Regroup(a: string, b: string, c: string)
    ensures "/" + (a + (b + c)) == ("/" + (a + b)) + c
  {
  }

  lemma {:induction false} SlashAt(a: string, t: string)
    requires '/' !in t
    ensures LastSlash(a + ("/" + t)) == Some(|a|)
    ensures (a + ("/" + t))[..|a|] == a && (a + ("/" + t))[|a| + 1..] == t
  {
    var p := a + ("/" + t);
    assert p[|a|] == '/';
    var r := LastSlash(p);
    assert forall i :: |a| < i < |p| ==> p[i] == t[i - |a| - 1];
  }

  // ---------------------------------------------------------------- walking a plain tree

  ghost function TreeAt(t: Tree, path: seq<Step>): Option<Tree>
    decreases |path|
  {
    if path == [] then Some(t)
    else if Sub(t, path[0]).None? then None
    else TreeAt(Sub(t, path[0]).value, path[1..])
  }

  ghost function TreeSet(t: Tree, path: seq<Step>, v: Tree): Tree
    requires TreeAt(t, path).Some?
    decreases |path|
  {
    if path == [] then v else SetSub(t, path[0], TreeSet(Sub(t, path[0]).value, path[1..], v))
  }

  lemma {:induction false} TreeSetTwice(t: Tree, path: seq<Step>, u: Tree, v: Tree)
    requires TreeAt(t, path).Some?
    ensures TreeAt(TreeSet(t, path, u), path) == Some(u)
    ensures TreeSet(TreeSet(t, path, u), path, v) == TreeSet(t, path, v)
    decreases |path|
  {
    if path != [] {
      var sub := Sub(t, path[0]).value;
      TreeSetTwice(sub, path[1..], u, v);
      SetTwice(t, path[0], TreeSet(sub, path[1..], u), TreeSet(sub, path[1..], v));
    }
  }

  /** An operation works on the parent that its path leads to. */
  lemma {:induction false} EditAtParent(t: Tree, path: seq<Step>, op: Op)
    requires |op.path| == 1
    ensures var far := op.(path := path + op.path);
            Edit(t, far) ==
              if TreeAt(t, path).None? || Edit(TreeAt(t, path).value, op).None? then None
              else Some(TreeSet(t, path, Edit(TreeAt(t, path).value, op).value))
    decreases |path|
  {
    var far := op.(path := path + op.path);
    if path == [] {
      assert path + op.path == op.path;
    } else {
      assert far.path[0] == path[0] && far.path[1..] == path[1..] + op.path;
      if Sub(t, path[0]).Some? { EditAtParent(Sub(t, path[0]).value, path[1..], op); }
    }
  }

  /** The step leads to child i. */
  ghost predicate StepTo(j: Json, s: Step, i: nat) {
    j.IsContainer() && i < |j.child| && (if j.Array? then s == Index(i) else s.Key? && j.child[i].key == s.k)
  }

  lemma SubIsChild(j: Json, s: Step) returns (i: nat)
    requires Plain(j) && Sub(Abs(j), s).Some?
    ensures StepTo(j, s, i) && Sub(Abs(j), s).value == Abs(j.child[i].value) && Plain(j.child[i].value)
  {
    if j.Array? {
      i := s.i;
    } else {
      i := KeyIndex(j.child, s.k);
      AbsAtKey(j.child, i);
    }
  }

  lemma ChildOfStep(j: Json, s: Step, i: nat, rest: string, cs: bool)
    requires Plain(j) && PlainStep(s) && StepTo(j, s, i) && (rest == [] || rest[0] == '/')
    ensures Child(j, Tok(s) + rest, cs) == Some(i)
  {
    if j.Array? {
      IndexRoundTrip(i, rest);
    } else {
      forall k | 0 <= k < |j.child|
        ensures ComparePointers(j.child[k].key, Tok(s) + rest, cs) <==> k == i
      {
        PlainCompare(j.child[k].key, j.child[i].key, rest, cs);
        assert Unique(j.child);
      }
    }
  }

  lemma WithItem(c: seq<Item>, i: nat, node: Json)
    requires i < |c|
    ensures Abs(WithChild(Array(c), i, node)) == Arr(Abs(Array(c)).items[i := Abs(node)])
  {
    var d := c[i := c[i].(value := node)];
    assert Abs(Array(d)).items == Abs(Array(c)).items[i := Abs(node)];
  }

  lemma WithMember(c: seq<Item>, i: nat, node: Json)
    requires Unique(c) && i < |c|
    ensures Abs(WithChild(Object(c), i, node)) == Obj(Abs(Object(c)).members[c[i].key := Abs(node)])
  {
    var d := c[i := c[i].(value := node)];
    var was := Abs(Object(c)).members;
    var m := was[c[i].key := Abs(node)];
    assert Unique(d);
    hide Unique;
    forall k | 0 <= k < |d|
      ensures d[k].key in m && Abs(d[k].value) == m[d[k].key]
    {
      AbsAtKey(c, k);
    }
    forall k | k in m
      ensures HasKey(d, k)
    {
      if k == c[i].key { assert d[i].key == k; } else { assert d[KeyIndex(c, k)].key == k; }
    }
    AbsSameMembers(d, m);
  }

  lemma PlainWithChild(j: Json, i: nat, node: Json)
    requires Plain(j) && Plain(node) && j.IsContainer() && i < |j.child|
    ensures Plain(WithChild(j, i, node))
  {
  }

  /** With another value for child i the tree stands for the value with that part replaced. */
  lemma PutChild(j: Json, s: Step, i: nat, node: Json)
    requires Plain(j) && StepTo(j, s, i) && Plain(node)
    ensures Sub(Abs(j), s).Some? && Plain(WithChild(j, i, node))
    ensures Abs(WithChild(j, i, node)) == SetSub(Abs(j), s, Abs(node))
  {
    PlainWithChild(j, i, node);
    if j.Array? {
      WithItem(j.child, i, node);
    } else {
      WithMember(j.child, i, node);
      AbsAtKey(j.child, i);
    }
  }

  /** The node at the route stands for the part at the path, and to change the one is to change the other. */
  ghost predicate Leads(j: Json, path: seq<Step>, route: seq<nat>) {
    && TreeAt(Abs(j), path).Some? && HasRoute(j, route)
    && Plain(At(j, route)) && Abs(At(j, route)) == TreeAt(Abs(j), path).value
    && forall node: Json :: Plain(node) ==> PutLeads(j, path, route, node)
  }

  ghost predicate PutLeads(j: Json, path: seq<Step>, route: seq<nat>, node: Json)
    requires TreeAt(Abs(j), path).Some? && HasRoute(j, route)
  {
    Plain(Put(j, route, node)) && Abs(Put(j, route, node)) == TreeSet(Abs(j), path, Abs(node))
  }

  lemma LeadsStep(j: Json, path: seq<Step>, i: nat, below: seq<nat>)
    requires Plain(j) && path != [] && StepTo(j, path[0], i) && Sub(Abs(j), path[0]) == Some(Abs(j.child[i].value))
    requires Leads(j.child[i].value, path[1..], below)
    ensures Leads(j, path, [i] + below)
  {
    hide Abs, Plain, Sub, SetSub, WithChild, StepTo;
    StepInside(j, path[0], i);
    var child := j.child[i].value;
    RouteStep(j, i, below);
    assert TreeAt(Abs(j), path) == TreeAt(Abs(child), path[1..]);
    forall node: Json | Plain(node)
      ensures PutLeads(j, path, [i] + below, node)
    {
      assert PutLeads(child, path[1..], below, node);
      PutChild(j, path[0], i, Put(child, below, node));
      PutStep(j, i, below, node);
    }
  }

  lemma LeadsHere(j: Json)
    requires Plain(j)
    ensures Leads(j, [], [])
  {
  }

  /** The walk of a pointer follows the path. */
  lemma {:induction false} FindRefines(j: Json, path: seq<Step>, cs: bool) returns (route: seq<nat>)
    requires Plain(j) && (forall i :: 0 <= i < |path| ==> PlainStep(path[i])) && TreeAt(Abs(j), path).Some?
    ensures Find(j, PathOf(path), cs) == Some(route) && Leads(j, path, route)
    decreases |path|
  {
    hide Abs, Plain, Sub, Child, Tok, PlainStep, StepTo, Leads;
    if path == [] {
      route := [];
      FindUnfold(j, "", cs);
      LeadsHere(j);
    } else {
      var s := path[0];
      var i := SubIsChild(j, s);
      StepInside(j, s, i);
      var below := FindRefines(j.child[i].value, path[1..], cs);
      LeadsStep(j, path, i, below);
      route := [i] + below;
      FindStep(j, path, i, cs);
    }
  }

  lemma FindStep(j: Json, path: seq<Step>, i: nat, cs: bool)
    requires Plain(j) && path != [] && PlainStep(path[0]) && StepTo(j, path[0], i)
    ensures j.IsContainer() && i < |j.child|
    ensures Find(j, PathOf(path), cs) == Behind([i], Find(j.child[i].value, PathOf(path[1..]), cs))
  {
    hide Plain, Child, Tok, PlainStep;
    var s, rest := path[0], PathOf(path[1..]);
    PathStart(path[1..]);
    ChildOfStep(j, s, i, rest, cs);
    TokPlain(s);
    SkipsPlain(Tok(s), rest);
    var p := PathOf(path);
    assert p[1..] == Tok(s) + rest;
    FindUnfold(j, p, cs);
  }

  lemma RouteStep(j: Json, i: nat, below: seq<nat>)
    requires j.IsContainer() && i < |j.child| && HasRoute(j.child[i].value, below)
    ensures HasRoute(j, [i] + below) && At(j, [i] + below) == At(j.child[i].value, below)
  {
    assert ([i] + below)[1..] == below;
  }

  lemma PutStep(j: Json, i: nat, below: seq<nat>, node: Json)
    requires j.IsContainer() && i < |j.child| && HasRoute(j.child[i].value, below)
    ensures HasRoute(j, [i] + below) && Put(j, [i] + below, node) == WithChild(j, i, Put(j.child[i].value, below, node))
  {
    assert ([i] + below)[1..] == below;
  }

  lemma StepInside(j: Json, s: Step, i: nat)
    requires StepTo(j, s, i)
    ensures j.IsContainer() && i < |j.child|
  {
  }

  // ---------------------------------------------------------------- the two basic changes

  lemma ItemIndexIs(c: seq<Item>, k: string, cs: bool)
    requires Plain(Object(c)) && PlainKey(k)
    ensures var i := ItemIndex(c, k, cs);
            if HasKey(c, k) then i == Some(KeyIndex(c, k)) else i == None
  {
    forall i | 0 <= i < |c|
      ensures Compare(k, c[i].key, cs) == 0 <==> c[i].key == k
    {
      PlainNames(k, c[i].key, cs);
    }
  }

  lemma WithoutItem(c: seq<Item>, i: nat)
    requires Plain(Array(c)) && i < |c|
    ensures Plain(Array(Without(c, i)))
    ensures Abs(Array(Without(c, i))) == Arr(Abs(Array(c)).items[..i] + Abs(Array(c)).items[i + 1..])
  {
    assert Abs(Array(Without(c, i))).items == Abs(Array(c)).items[..i] + Abs(Array(c)).items[i + 1..];
  }

  lemma WithoutAt(c: seq<Item>, i: nat, k: nat)
    requires i < |c| && k < |c| - 1
    ensures |Without(c, i)| == |c| - 1 && Without(c, i)[k] == c[if k < i then k else k + 1]
  {
  }

  lemma UniqueWithout(c: seq<Item>, i: nat)
    requires Unique(c) && i < |c|
    ensures Unique(Without(c, i)) && !HasKey(Without(c, i), c[i].key)
    ensures forall k :: HasKey(c, k) && k != c[i].key ==> HasKey(Without(c, i), k)
  {
    var d := Without(c, i);
    forall k, l | 0 <= k < l < |d|
      ensures d[k].key != d[l].key
    {
      WithoutAt(c, i, k);
      WithoutAt(c, i, l);
    }
    forall k | 0 <= k < |d|
      ensures d[k].key != c[i].key
    {
      WithoutAt(c, i, k);
    }
    forall k | HasKey(c, k) && k != c[i].key
      ensures HasKey(d, k)
    {
      var j := KeyIndex(c, k);
      var l := if j < i then j else j - 1;
      WithoutAt(c, i, l);
      assert d[l].key == k;
    }
  }

  lemma PlainWithout(c: seq<Item>, i: nat)
    requires Plain(Object(c)) && i < |c|
    ensures Unique(c) && Plain(Object(Without(c, i)))
  {
    UniqueWithout(c, i);
    var d := Without(c, i);
    forall k | 0 <= k < |d|
      ensures PlainKey(d[k].key) && Plain(d[k].value)
    {
      WithoutAt(c, i, k);
    }
  }

  lemma WithoutMember(c: seq<Item>, i: nat)
    requires Plain(Object(c)) && i < |c|
    ensures Plain(Object(Without(c, i))) && !HasKey(Without(c, i), c[i].key)
    ensures Abs(Object(Without(c, i))) == Obj(Abs(Object(c)).members - {c[i].key})
  {
    var d := Without(c, i);
    PlainWithout(c, i);
    hide Plain, Without;
    UniqueWithout(c, i);
    var was := Abs(Object(c)).members;
    var m := was - {c[i].key};
    forall k | 0 <= k < |d|
      ensures d[k].key in m && Abs(d[k].value) == m[d[k].key]
    {
      WithoutAt(c, i, k);
      AbsAtKey(c, if k < i then k else k + 1);
    }
    AbsSameMembers(d, m);
  }

  lemma DetachRefines(parent: Json, s: Step)
    requires Plain(parent) && PlainStep(s) && RemoveSub(Abs(parent), s).Some?
    ensures var d := DetachFrom(parent, Tok(s));
            d.item.Some? && Plain(d.root) && Abs(d.root) == RemoveSub(Abs(parent), s).value
  {
    if parent.Array? {
      IndexRoundTrip(s.i, "");
      assert Digits(s.i) + "" == Digits(s.i);
      WithoutItem(parent.child, s.i);
    } else {
      ItemIndexIs(parent.child, s.k, false);
      WithoutMember(parent.child, KeyIndex(parent.child, s.k));
    }
  }

  lemma InsertedItem(c: seq<Item>, i: nat, v: Json)
    requires Plain(Array(c)) && Plain(v) && i <= |c|
    ensures var d := c[..i] + [Item("", v)] + c[i..];
            Plain(Array(d)) && Abs(Array(d)) == Arr(Abs(Array(c)).items[..i] + [Abs(v)] + Abs(Array(c)).items[i..])
  {
    var d := c[..i] + [Item("", v)] + c[i..];
    var a := Abs(Array(c)).items;
    assert Abs(Array(d)).items == a[..i] + [Abs(v)] + a[i..];
  }

  lemma PlainAppended(c: seq<Item>, k: string, v: Json)
    requires Plain(Object(c)) && PlainKey(k) && Plain(v) && !HasKey(c, k)
    ensures Plain(Object(c + [Item(k, v)])) && Unique(c) && Unique(c + [Item(k, v)])
  {
    assert Unique(c + [Item(k, v)]);
  }

  lemma AppendedMember(c: seq<Item>, k: string, v: Json)
    requires Plain(Object(c)) && PlainKey(k) && Plain(v) && !HasKey(c, k)
    ensures var d := c + [Item(k, v)];
            Plain(Object(d)) && Abs(Object(d)) == Obj(Abs(Object(c)).members[k := Abs(v)])
  {
    var d := c + [Item(k, v)];
    var was := Abs(Object(c)).members;
    var m := was[k := Abs(v)];
    PlainAppended(c, k, v);
    hide Plain;
    forall i | 0 <= i < |d|
      ensures d[i].key in m && Abs(d[i].value) == m[d[i].key]
    {
      if i < |c| { AbsAtKey(c, i); }
    }
    forall x | x in m
      ensures HasKey(d, x)
    {
      if x == k { assert d[|c|].key == k; } else { assert d[KeyIndex(c, x)].key == x; }
    }
    AbsSameMembers(d, m);
  }

  lemma AddRefines(parent: Json, s: Step, v: Json, cs: bool)
    requires Plain(parent) && PlainStep(s) && Plain(v) && AddSub(Abs(parent), s, Abs(v)).Some?
    ensures var r := AddTo(parent, Tok(s), v, cs);
            r.status == 0 && Plain(r.root) && Abs(r.root) == AddSub(Abs(parent), s, Abs(v)).value
  {
    if parent.Array? {
      ItemAdded(parent.child, s, v, cs);
    } else {
      MemberPut(parent.child, s.k, v, cs);
    }
  }

  lemma ItemAdded(c: seq<Item>, s: Step, v: Json, cs: bool)
    requires Plain(Array(c)) && PlainStep(s) && Plain(v) && AddSub(Abs(Array(c)), s, Abs(v)).Some?
    ensures var r := AddTo(Array(c), Tok(s), v, cs);
            r.status == 0 && Plain(r.root) && Abs(r.root) == AddSub(Abs(Array(c)), s, Abs(v)).value
  {
    if s.Last? {
      CompareSwapped("-", "-", true);
      InsertedItem(c, |c|, v);
      assert c[..|c|] + [Item("", v)] + c[|c|..] == c + [Item("", v)];
      var a := Abs(Array(c)).items;
      assert a[..|c|] + [Abs(v)] + a[|c|..] == a + [Abs(v)];
    } else {
      IndexRoundTrip(s.i, "");
      assert Digits(s.i) + "" == Digits(s.i);
      NotDash(s.i);
      InsertedItem(c, s.i, v);
    }
  }

  lemma NotDash(i: nat)
    ensures Compare(Digits(i), "-", true) != 0
  {
    assert Head(Digits(i), true) >= '0' as int;
  }

  lemma MemberPut(c: seq<Item>, k: string, v: Json, cs: bool)
    requires Plain(Object(c)) && PlainKey(k) && Plain(v)
    ensures var r := AddTo(Object(c), k, v, cs);
            r.status == 0 && Plain(r.root) && Abs(r.root) == Obj(Abs(Object(c)).members[k := Abs(v)])
  {
    hide *;
    ItemIndexIs(c, k, cs);
    MembersOf(c);
    var m := Abs(Object(c)).members;
    AddToObject(c, k, v, cs);
    if HasKey(c, k) {
      var i := KeyIndex(c, k);
      WithoutMember(c, i);
      AppendedMember(Without(c, i), k, v);
      assert (m - {k})[k := Abs(v)] == m[k := Abs(v)];
    } else {
      AppendedMember(c, k, v);
    }
  }

  lemma AddToObject(c: seq<Item>, k: string, v: Json, cs: bool)
    ensures var i := ItemIndex(c, k, cs);
            AddTo(Object(c), k, v, cs) == Outcome(Object((if i.None? then c else Without(c, i.value)) + [Item(k, v)]), 0)
  {
  }

  lemma MembersOf(c: seq<Item>)
    ensures Abs(Object(c)).Obj?
  {
  }

  /** What replace does, taking out and putting in. */
  lemma RemoveThenAdd(t: Tree, s: Step, v: Tree)
    requires Sub(t, s).Some?
    ensures RemoveSub(t, s).Some? && AddSub(RemoveSub(t, s).value, s, v) == Some(SetSub(t, s, v))
  {
    if t.Obj? {
      assert (t.members - {s.k})[s.k := v] == t.members[s.k := v];
    } else {
      var r := t.items[..s.i] + t.items[s.i + 1..];
      assert r[..s.i] + [v] + r[s.i..] == t.items[s.i := v];
    }
  }

  // ---------------------------------------------------------------- apply_patch refines the operations

  /** The patch that compose_patch makes for an operation. */
  function Compose(op: Op): Json {
    Object([Item("op", String(OpName(op))), Item("path", String(PathOf(op.path)))] + if op.Remove? then [] else [Item("value", op.value)])
  }

  lemma PathParts(front: seq<Step>, s: Step)
    requires PlainStep(s)
    ensures var p := PathOf(front + [s]);
            && p != [] && LastSlash(p).Some? && p[..LastSlash(p).value] == PathOf(front)
            && p[LastSlash(p).value + 1..] == Tok(s) && DecodeInPlace(Tok(s), 0, 0) == Tok(s)
  {
    TokPlain(s);
    PathSplits(front, s);
    SlashAt(PathOf(front), Tok(s));
    DecodesPlain(Tok(s), 0);
  }

  ghost predicate PlainPath(path: seq<Step>) { forall i :: 0 <= i < |path| ==> PlainStep(path[i]) }

  lemma DetachPathRefines(j: Json, front: seq<Step>, s: Step, cs: bool)
    requires Plain(j) && PlainPath(front) && PlainStep(s)
    requires TreeAt(Abs(j), front).Some? && RemoveSub(TreeAt(Abs(j), front).value, s).Some?
    ensures var d := DetachPath(j, PathOf(front + [s]), cs);
            && d.item.Some? && Plain(d.root)
            && Abs(d.root) == TreeSet(Abs(j), front, RemoveSub(TreeAt(Abs(j), front).value, s).value)
  {
    hide Abs, Plain, RemoveSub, DetachFrom, Put, At, Tok, PathOf, LastSlash, DecodeInPlace, TreeAt, TreeSet;
    PathParts(front, s);
    var route := FindRefines(j, front, cs);
    DetachRefines(At(j, route), s);
    assert PutLeads(j, front, route, DetachFrom(At(j, route), Tok(s)).root);
  }

  lemma AddValueRefines(j: Json, front: seq<Step>, s: Step, v: Json, cs: bool)
    requires Plain(j) && PlainPath(front) && PlainStep(s) && Plain(v)
    requires TreeAt(Abs(j), front).Some? && AddSub(TreeAt(Abs(j), front).value, s, Abs(v)).Some?
    ensures var r := AddValue(j, PathOf(front + [s]), v, cs);
            && r.status == 0 && Plain(r.root)
            && Abs(r.root) == TreeSet(Abs(j), front, AddSub(TreeAt(Abs(j), front).value, s, Abs(v)).value)
  {
    hide Abs, Plain, AddSub, AddTo, Put, At, Tok, PathOf, LastSlash, DecodeInPlace, TreeAt, TreeSet;
    PathParts(front, s);
    var route := FindRefines(j, front, cs);
    AddRefines(At(j, route), s, v, cs);
    assert PutLeads(j, front, route, AddTo(At(j, route), Tok(s), v, cs).root);
  }

  // ---------------------------------------------------------------- one patch

  lemma SameName(k: string, cs: bool)
    ensures Compare(k, k, cs) == 0
  {
    CompareSwapped(k, k, cs);
  }

  lemma MemberAt(c: seq<Item>, i: nat, cs: bool)
    requires i < |c| && forall k :: 0 <= k < i ==> Compare(c[i].key, c[k].key, cs) != 0
    ensures Member(Object(c), c[i].key, cs) == Some(c[i].value)
  {
    SameName(c[i].key, cs);
  }

  lemma FirstDiffers(a: string, b: string, cs: bool)
    requires a != [] && b != [] && a[0] != b[0] && 'a' <= a[0] <= 'z' && 'a' <= b[0] <= 'z'
    ensures Compare(a, b, cs) != 0
  {
  }

  function OpName(op: Op): string { if op.Add? then "add" else if op.Remove? then "remove" else "replace" }

  /** What apply_patch reads from a patch of compose_patch. */
  lemma ComposeMembers(op: Op, cs: bool)
    ensures var p := Compose(op);
            && Member(p, "op", cs) == Some(String(OpName(op))) && Member(p, "path", cs) == Some(String(PathOf(op.path)))
            && (!op.Remove? ==> Member(p, "value", cs) == Some(op.value))
  {
    hide PathOf, Member, OpName, Compare;
    var c := Compose(op).child;
    FirstDiffers("path", "op", cs);
    FirstDiffers("value", "op", cs);
    FirstDiffers("value", "path", cs);
    MemberAt(c, 0, cs);
    MemberAt(c, 1, cs);
    if !op.Remove? { MemberAt(c, 2, cs); }
  }

  lemma NotRemove()
    ensures Compare("replace", "remove", true) != 0
  {
    assert "replace"[1..] == "eplace" && "remove"[1..] == "emove" && "eplace"[1..] == "place" && "emove"[1..] == "move";
  }

  /** What apply_patch reads is the operation; the members of the patch may have any order, and there may be more. */
  ghost predicate Reads(p: Json, op: Op, cs: bool) {
    && Member(p, "path", cs) == Some(String(PathOf(op.path)))
    && Member(p, "op", cs) == Some(String(if op.Add? then "add" else if op.Remove? then "remove" else "replace"))
    && (!op.Remove? ==> Member(p, "value", cs) == Some(op.value))
  }

  lemma ComposeParts(op: Op, cs: bool)
    ensures Reads(Compose(op), op, cs)
  {
    hide PathOf, Member, Compare, Compose;
    ComposeMembers(op, cs);
  }

  lemma ReadsOperation(p: Json, op: Op, cs: bool)
    requires Reads(p, op, cs)
    ensures Member(p, "path", cs) == Some(String(PathOf(op.path))) && (!op.Remove? ==> Member(p, "value", cs) == Some(op.value))
    ensures DecodeOperation(p, cs) == if op.Add? then ADD else if op.Remove? then REMOVE else REPLACE
  {
    hide PathOf, Member, Compare;
    SameName("add", true);
    SameName("remove", true);
    SameName("replace", true);
    FirstDiffers("remove", "add", true);
    FirstDiffers("replace", "add", true);
    NotRemove();
  }

  lemma EditOne(t: Tree, op: Op)
    requires |op.path| == 1
    ensures Edit(t, op) ==
              if op.Add? then AddSub(t, op.path[0], Abs(op.value))
              else if op.Remove? then RemoveSub(t, op.path[0])
              else if Sub(t, op.path[0]).None? then None
              else Some(SetSub(t, op.path[0], Abs(op.value)))
  {
  }

  /** apply_patch does to a plain tree what the standard says about its value, whenever that is possible. */
  lemma ApplyRefines(j: Json, patch: Json, op: Op, cs: bool)
    requires Plain(j) && PlainOp(op) && Reads(patch, op, cs) && Edit(Abs(j), op).Some?
    ensures var r := ApplyPatch(j, patch, cs);
            r.status == 0 && Plain(r.root) && Abs(r.root) == Edit(Abs(j), op).value
  {
    hide Abs, Plain, Compose, Member, DecodeOperation, DetachPath, AddValue, PathOf, AddSub, RemoveSub, Sub, SetSub, TreeAt, TreeSet;
    ReadsOperation(patch, op, cs);
    if op.path == [] {
      assert PathOf(op.path) == "" by { EmptyPath(); }
    } else {
      var n := |op.path| - 1;
      var front, s := op.path[..n], op.path[n];
      var one := op.(path := [s]);
      assert op.path == front + [s] && one.path[0] == s;
      EditAtParent(Abs(j), front, one);
      assert op == one.(path := front + one.path);
      EditOne(TreeAt(Abs(j), front).value, one);
      ApplyAtParent(j, patch, op, front, s, cs);
    }
  }

  lemma ApplyAtParent(j: Json, patch: Json, op: Op, front: seq<Step>, s: Step, cs: bool)
    requires Plain(j) && PlainOp(op) && Reads(patch, op, cs) && op.path == front + [s] && TreeAt(Abs(j), front).Some?
    requires var t := TreeAt(Abs(j), front).value;
             if op.Add? then AddSub(t, s, Abs(op.value)).Some? else if op.Remove? then RemoveSub(t, s).Some? else Sub(t, s).Some?
    ensures var t := TreeAt(Abs(j), front).value;
            var u := if op.Add? then AddSub(t, s, Abs(op.value)).value
                     else if op.Remove? then RemoveSub(t, s).value else SetSub(t, s, Abs(op.value));
            var r := ApplyPatch(j, patch, cs);
            r.status == 0 && Plain(r.root) && Abs(r.root) == TreeSet(Abs(j), front, u)
  {
    hide Abs, Plain, Compose, Member, DecodeOperation, DetachPath, AddValue, PathOf, AddSub, RemoveSub, Sub, SetSub, TreeAt, TreeSet,
         PlainStep, LastSlash;
    ReadsOperation(patch, op, cs);
    assert op.path[|front|] == s && forall i :: 0 <= i < |front| ==> op.path[i] == front[i];
    PathParts(front, s);
    var t := TreeAt(Abs(j), front).value;
    if op.Add? {
      AddValueRefines(j, front, s, op.value, cs);
    } else if op.Remove? {
      DetachPathRefines(j, front, s, cs);
    } else {
      RemoveThenAdd(t, s, Abs(op.value));
      DetachPathRefines(j, front, s, cs);
      var d := DetachPath(j, PathOf(front + [s]), cs).root;
      TreeSetTwice(Abs(j), front, RemoveSub(t, s).value, SetSub(t, s, Abs(op.value)));
      AddValueRefines(d, front, s, op.value, cs);
    }
  }

  lemma EmptyPath()
    ensures PathOf([]) == ""
  {
  }

  // ---------------------------------------------------------------- all patches

  function ComposeAll(ops: seq<Op>): (r: seq<Item>)
    ensures |r| == |ops| && forall i :: 0 <= i < |r| ==> r[i] == Item("", Compose(ops[i]))
  {
    seq(|ops|, i requires 0 <= i < |ops| => Item("", Compose(ops[i])))
  }

  lemma {:induction false} ApplyAllRefines(j: Json, ops: seq<Op>, cs: bool)
    requires Plain(j) && (forall i :: 0 <= i < |ops| ==> PlainOp(ops[i])) && Run(Abs(j), ops).Some?
    ensures var r := ApplyPatches(j, ComposeAll(ops), cs);
            r.status == 0 && Plain(r.root) && Abs(r.root) == Run(Abs(j), ops).value
    decreases |ops|
  {
    hide Abs, Plain, PlainOp, Compose, ApplyPatch, Edit, Reads;
    if ops != [] {
      ComposeParts(ops[0], cs);
      ApplyRefines(j, Compose(ops[0]), ops[0], cs);
      assert ComposeAll(ops)[1..] == ComposeAll(ops[1..]);
      ApplyAllRefines(ApplyPatch(j, Compose(ops[0]), cs).root, ops[1..], cs);
    }
  }

  ghost predicate PlainOps(ops: seq<Op>) { forall i :: 0 <= i < |ops| ==> PlainOp(ops[i]) }

  lemma PlainPrefixed(s: Step, ops: seq<Op>)
    requires PlainStep(s) && PlainOps(ops)
    ensures PlainOps(PrefixAll(s, ops))
  {
    hide PlainStep, Plain;
    forall i | 0 <= i < |ops|
      ensures PlainOp(Prefix(s, ops[i]))
    {
      assert PlainOp(ops[i]);
    }
  }

  lemma PlainBoth(a: seq<Op>, b: seq<Op>)
    requires PlainOps(a) && PlainOps(b)
    ensures PlainOps(a + b)
  {
    hide PlainOp;
  }

  lemma {:induction false} DiffPlain(from: Json, to: Json, cs: bool)
    requires Plain(from) && Plain(to) && Countable(from)
    ensures PlainOps(Diff(from, to, cs))
    decreases from, 1, 0
  {
    if KindOf(from) != KindOf(to) {
    } else if from.Array? {
      ItemsPlain(from, from.child, to.child, 0, cs);
    } else if from.Object? {
      SortedPlain(from.child, cs);
      SortedPlain(to.child, cs);
      MembersPlain(from, SortItems(from.child, cs), SortItems(to.child, cs), cs);
    }
  }

  lemma {:induction false} ItemsPlain(from: Json, f: seq<Item>, t: seq<Item>, i: nat, cs: bool)
    requires from.Array? && f == from.child && i <= |f| && i <= |t| && |f| < SIZE && Countable(from)
    requires forall x :: x in f || x in t ==> Plain(x.value)
    ensures PlainOps(DiffItems(from, f, t, i, cs))
    decreases from, 0, |f| - i
  {
    hide Plain, Diff;
    if i < |f| && i < |t| {
      assert f[i] in f && t[i] in t;
      DiffPlain(f[i].value, t[i].value, cs);
      PlainPrefixed(Index(i), Diff(f[i].value, t[i].value, cs));
      ItemsPlain(from, f, t, i + 1, cs);
      PlainBoth(PrefixAll(Index(i), Diff(f[i].value, t[i].value, cs)), DiffItems(from, f, t, i + 1, cs));
    } else if i >= |f| {
      var ops := DiffItems(from, f, t, i, cs);
      forall k | 0 <= k < |ops|
        ensures PlainOp(ops[k])
      {
        assert t[i + k] in t;
      }
    }
  }

  lemma {:induction false} MembersPlain(from: Json, f: seq<Item>, t: seq<Item>, cs: bool)
    requires from.Object? && (forall x :: x in f ==> x in from.child) && Countable(from)
    requires PlainItems(f) && PlainItems(t)
    ensures PlainOps(DiffMembers(from, f, t, cs))
    decreases from, 0, |f| + |t|
  {
    hide Plain, Diff, PlainItems, DiffMembers, Compare, PlainKey, Countable, PlainOps;
    if f == [] && t == [] {
      assert PlainOps(DiffMembers(from, f, t, cs)) by { NoMembers(from, cs); }
    } else {
      NextMember(from, f, t, cs);
      if t != [] { FirstPlain(t); TailPlain(t); }
      if f != [] { FirstPlain(f); TailPlain(f); assert f[0] in from.child; }
      if f == [] || (t != [] && Compare(f[0].key, t[0].key, cs) > 0) {
        MembersPlain(from, f, t[1..], cs);
        OnePlain(Add([Key(t[0].key)], t[0].value));
        PlainBoth([Add([Key(t[0].key)], t[0].value)], DiffMembers(from, f, t[1..], cs));
      } else if t == [] || Compare(f[0].key, t[0].key, cs) < 0 {
        MembersPlain(from, f[1..], t, cs);
        OnePlain(Remove([Key(f[0].key)]));
        PlainBoth([Remove([Key(f[0].key)])], DiffMembers(from, f[1..], t, cs));
      } else {
        var ops := Diff(f[0].value, t[0].value, cs);
        CountableMember(from, f[0]);
        DiffPlain(f[0].value, t[0].value, cs);
        PlainPrefixed(Key(f[0].key), ops);
        MembersPlain(from, f[1..], t[1..], cs);
        PlainBoth(PrefixAll(Key(f[0].key), ops), DiffMembers(from, f[1..], t[1..], cs));
      }
    }
  }

  lemma NoMembers(from: Json, cs: bool)
    requires from.Object?
    ensures PlainOps(DiffMembers(from, [], [], cs))
  {
  }

  lemma OnePlain(op: Op)
    requires op.path != [] && |op.path| == 1 && op.path[0].Key? && PlainKey(op.path[0].k) && (!op.Remove? ==> Plain(op.value))
    ensures PlainOps([op])
  {
  }

  lemma CountableMember(from: Json, x: Item)
    requires Countable(from) && from.IsContainer() && x in from.child
    ensures Countable(x.value)
  {
  }

  /** The patches generated for two plain trees, applied to any tree that is equal to the first one as a
      map, are all accepted and leave a tree that is equal to the second one. */
  lemma PatchesUndoDiff(root: Json, from: Json, to: Json, cs: bool, applyCs: bool)
    requires Plain(root) && Plain(from) && Plain(to) && Countable(from) && Abs(root) == Abs(from)
    ensures var r := ApplyPatches(root, ComposeAll(Diff(from, to, cs)), applyCs);
            r.status == 0 && Plain(r.root) && Abs(r.root) == Abs(to)
  {
    DiffUndone(from, to, cs);
    DiffPlain(from, to, cs);
    ApplyAllRefines(root, Diff(from, to, cs), applyCs);
  }
}
