/** All six operations of section 4 of RFC 6902, and exactly when apply_patch of 3rd/cjson/cJSON_Utils.c does what they ask. */
module Requests {
  import opened Wrappers
  import opened CStrings
  import opened Json
  import opened Members
  import opened Pointer
  import opened Decoding
  import opened TreePatch
  import opened Patch

  datatype Request =
    | Change(op: Op)
    | Move(from: seq<Step>, path: seq<Step>)
    | Copy(from: seq<Step>, path: seq<Step>)
    | Test(path: seq<Step>, value: Json)

  // ---------------------------------------------------------------- what they ask

  ghost predicate ProperPrefix(a: seq<Step>, b: seq<Step>) { |a| < |b| && b[..|a|] == a }

  /** add, for a value that need not stand in a patch. */
  ghost function AddAt(t: Tree, path: seq<Step>, v: Tree): Option<Tree> {
    if path == [] then Some(v)
    else
      var front, s := path[..|path| - 1], path[|path| - 1];
      if TreeAt(t, front).None? || AddSub(TreeAt(t, front).value, s, v).None? then None
      else Some(TreeSet(t, front, AddSub(TreeAt(t, front).value, s, v).value))
  }

  /** Section 4 of RFC 6902: the tree with the request done, if it can be done.  A move is a removal and an addition, and never
      goes into what it moves. */
  ghost function Perform(t: Tree, r: Request): Option<Tree> {
    match r
    case Change(op) => Edit(t, op)
    case Move(from, path) =>
      if ProperPrefix(from, path) || Edit(t, Remove(from)).None? || TreeAt(t, from).None? then None
      else AddAt(Edit(t, Remove(from)).value, path, TreeAt(t, from).value)
    case Copy(from, path) => if TreeAt(t, from).None? then None else AddAt(t, path, TreeAt(t, from).value)
    case Test(path, value) => if TreeAt(t, path) == Some(Abs(value)) then Some(t) else None
  }

  /** The two ways of saying where an addition goes agree. */
  lemma AddIsAddAt(t: Tree, path: seq<Step>, value: Json)
    ensures Edit(t, Add(path, value)) == AddAt(t, path, Abs(value))
  {
    if path != [] {
      var n := |path| - 1;
      var front, s := path[..n], path[n];
      var one := Add([s], value);
      EditAtParent(t, front, one);
      assert path == front + [s];
      hide TreeAt, TreeSet;
      if TreeAt(t, front).Some? { EditOne(TreeAt(t, front).value, one); }
      hide Edit;
    }
  }

  /** What apply_patch reads is the request. */
  ghost predicate Asks(p: Json, r: Request, cs: bool) {
    match r
    case Change(op) => Reads(p, op, cs)
    case Test(path, value) =>
      Member(p, "path", cs) == Some(String(PathOf(path))) && Member(p, "op", cs) == Some(String("test")) && Member(p, "value", cs) == Some(value)
    case _ =>
      && Member(p, "path", cs) == Some(String(PathOf(r.path))) && Member(p, "op", cs) == Some(String(if r.Move? then "move" else "copy"))
      && Member(p, "from", cs) == Some(String(PathOf(r.from)))
  }

  lemma OtherOperation(p: Json, name: string, cs: bool)
    requires name in ["move", "copy", "test"] && Member(p, "op", cs) == Some(String(name))
    ensures DecodeOperation(p, cs) == if name == "move" then MOVE else if name == "copy" then COPY else TEST
  {
    hide Member, Compare;
    SameName(name, true);
    FirstDiffers(name, "add", true);
    FirstDiffers(name, "remove", true);
    FirstDiffers(name, "replace", true);
    if name != "move" { FirstDiffers(name, "move", true); }
    if name == "test" { FirstDiffers(name, "copy", true); }
  }

  ghost predicate PlainRequest(r: Request) {
    match r
    case Change(op) => PlainOp(op)
    case Test(path, value) => PlainPath(path) && Plain(value)
    case _ => PlainPath(r.from) && PlainPath(r.path)
  }

  // ---------------------------------------------------------------- paths that fit the tree

  /** A name meets an object, an index or the place behind the last item an array; what has no children is met by anything. */
  ghost predicate StepFits(t: Tree, s: Step) { (t.Obj? ==> s.Key?) && (t.Arr? ==> !s.Key?) }

  ghost predicate Fit(t: Tree, path: seq<Step>)
    decreases |path|
  {
    path != [] ==> StepFits(t, path[0]) && (Sub(t, path[0]).Some? ==> Fit(Sub(t, path[0]).value, path[1..]))
  }

  lemma {:induction false} FitParts(t: Tree, front: seq<Step>, s: Step)
    requires Fit(t, front + [s])
    ensures Fit(t, front) && (TreeAt(t, front).Some? ==> StepFits(TreeAt(t, front).value, s))
    decreases |front|
  {
    var path := front + [s];
    if front == [] {
      assert path[0] == s;
    } else {
      assert path[0] == front[0] && path[1..] == front[1..] + [s];
      if Sub(t, front[0]).Some? { FitParts(Sub(t, front[0]).value, front[1..], s); }
    }
  }

  /** The dash is no index. */
  lemma DashIsNoIndex(rest: string)
    requires rest == [] || rest[0] == '/'
    ensures DecodeIndex("-" + rest) == None
  {
    var p := "-" + rest;
    assert p[0] == '-';
  }

  lemma NoChild(j: Json, s: Step, rest: string, cs: bool)
    requires Plain(j) && PlainStep(s) && StepFits(Abs(j), s) && Sub(Abs(j), s).None? && (rest == [] || rest[0] == '/')
    ensures Child(j, Tok(s) + rest, cs) == None
  {
    if j.Array? {
      if s.Last? { DashIsNoIndex(rest); } else { IndexRoundTrip(s.i, rest); }
    } else if j.Object? {
      forall k | 0 <= k < |j.child|
        ensures !ComparePointers(j.child[k].key, Tok(s) + rest, cs)
      {
        PlainCompare(j.child[k].key, s.k, rest, cs);
        AbsAtKey(j.child, k);
      }
    }
  }

  /** The walk of a pointer finds nothing where the path leads nowhere. */
  lemma {:induction false} FindFails(j: Json, path: seq<Step>, cs: bool)
    requires Plain(j) && PlainPath(path) && Fit(Abs(j), path) && TreeAt(Abs(j), path).None?
    ensures Find(j, PathOf(path), cs) == None
    decreases |path|
  {
    hide Abs, Plain, Sub, Child, Tok, PlainStep, StepTo, StepFits;
    var s := path[0];
    if Sub(Abs(j), s).Some? {
      var i := SubIsChild(j, s);
      StepInside(j, s, i);
      FindFails(j.child[i].value, path[1..], cs);
      FindStep(j, path, i, cs);
    } else {
      PathStart(path[1..]);
      NoChild(j, s, PathOf(path[1..]), cs);
      var p := PathOf(path);
      assert p[1..] == Tok(s) + PathOf(path[1..]);
      FindUnfold(j, p, cs);
    }
  }

  lemma DetachFails(parent: Json, s: Step)
    requires Plain(parent) && PlainStep(s) && StepFits(Abs(parent), s) && RemoveSub(Abs(parent), s).None?
    ensures DetachFrom(parent, Tok(s)) == Detached(parent, None)
  {
    if parent.Array? {
      if s.Last? {
        DashIsNoIndex("");
        assert "-" + "" == "-";
      } else {
        IndexRoundTrip(s.i, "");
        assert Digits(s.i) + "" == Digits(s.i);
      }
    } else if parent.Object? {
      ItemIndexIs(parent.child, s.k, false);
    }
  }

  /** What is taken out is the part that the step names. */
  lemma DetachItem(parent: Json, s: Step)
    requires Plain(parent) && PlainStep(s) && RemoveSub(Abs(parent), s).Some?
    ensures var d := DetachFrom(parent, Tok(s));
            d.item.Some? && Sub(Abs(parent), s) == Some(Abs(d.item.value)) && Plain(d.item.value)
  {
    if parent.Array? {
      IndexRoundTrip(s.i, "");
      assert Digits(s.i) + "" == Digits(s.i);
    } else {
      ItemIndexIs(parent.child, s.k, false);
      AbsAtKey(parent.child, KeyIndex(parent.child, s.k));
    }
  }

  lemma AddFails(parent: Json, s: Step, v: Json, cs: bool)
    requires Plain(parent) && PlainStep(s) && StepFits(Abs(parent), s) && AddSub(Abs(parent), s, Abs(v)).None?
    ensures AddTo(parent, Tok(s), v, cs).status != 0
  {
    if parent.Array? {
      IndexRoundTrip(s.i, "");
      assert Digits(s.i) + "" == Digits(s.i);
      NotDash(s.i);
    }
  }

  // ---------------------------------------------------------------- the two halves of apply_patch

  /** Taking out works if and only if there is something to take out. */
  lemma DetachExact(j: Json, front: seq<Step>, s: Step, cs: bool)
    requires Plain(j) && PlainPath(front) && PlainStep(s) && Fit(Abs(j), front + [s])
    ensures var d := DetachPath(j, PathOf(front + [s]), cs);
            d.item.Some? <==> TreeAt(Abs(j), front).Some? && RemoveSub(TreeAt(Abs(j), front).value, s).Some?
  {
    hide Abs, Plain, RemoveSub, DetachFrom, Put, At, Tok, PathOf, LastSlash, DecodeInPlace, TreeAt, TreeSet, StepFits;
    PathParts(front, s);
    FitParts(Abs(j), front, s);
    if TreeAt(Abs(j), front).None? {
      FindFails(j, front, cs);
    } else {
      var route := FindRefines(j, front, cs);
      if RemoveSub(TreeAt(Abs(j), front).value, s).Some? {
        DetachRefines(At(j, route), s);
      } else {
        DetachFails(At(j, route), s);
      }
    }
  }

  /** Putting in works if and only if there is a place. */
  lemma AddExact(j: Json, front: seq<Step>, s: Step, v: Json, cs: bool)
    requires Plain(j) && PlainPath(front) && PlainStep(s) && Plain(v) && Fit(Abs(j), front + [s])
    ensures var r := AddValue(j, PathOf(front + [s]), v, cs);
            && (r.status == 0 <==> AddAt(Abs(j), front + [s], Abs(v)).Some?)
            && (r.status == 0 ==> Plain(r.root) && Abs(r.root) == AddAt(Abs(j), front + [s], Abs(v)).value)
  {
    hide Abs, Plain, AddSub, AddTo, Put, At, Tok, PathOf, LastSlash, DecodeInPlace, TreeAt, TreeSet, StepFits, AddAt, AddValue;
    AddAtParts(Abs(j), front, s, Abs(v));
    FitParts(Abs(j), front, s);
    if TreeAt(Abs(j), front).None? {
      FindFails(j, front, cs);
      AddNowhere(j, front, s, v, cs);
    } else if AddSub(TreeAt(Abs(j), front).value, s, Abs(v)).Some? {
      AddValueRefines(j, front, s, v, cs);
    } else {
      var route := FindRefines(j, front, cs);
      AddFails(At(j, route), s, v, cs);
      AddThere(j, front, s, v, cs, route);
    }
  }

  lemma AddAtParts(t: Tree, front: seq<Step>, s: Step, v: Tree)
    ensures AddAt(t, front + [s], v) ==
              if TreeAt(t, front).None? || AddSub(TreeAt(t, front).value, s, v).None? then None
              else Some(TreeSet(t, front, AddSub(TreeAt(t, front).value, s, v).value))
  {
    var path := front + [s];
    assert path[..|front|] == front && path[|front|] == s;
    hide TreeAt, TreeSet, AddSub;
  }

  lemma AddNowhere(j: Json, front: seq<Step>, s: Step, v: Json, cs: bool)
    requires PlainStep(s) && Find(j, PathOf(front), cs).None?
    ensures AddValue(j, PathOf(front + [s]), v, cs) == Outcome(j, 9)
  {
    PathParts(front, s);
    hide Find, PathOf, LastSlash, DecodeInPlace, Tok, PlainStep;
  }

  lemma AddThere(j: Json, front: seq<Step>, s: Step, v: Json, cs: bool, route: seq<nat>)
    requires PlainStep(s) && Find(j, PathOf(front), cs) == Some(route)
    ensures HasRoute(j, route) && AddValue(j, PathOf(front + [s]), v, cs).status == AddTo(At(j, route), Tok(s), v, cs).status
  {
    PathParts(front, s);
    hide Find, PathOf, LastSlash, DecodeInPlace, Tok, PlainStep, AddTo, Put, At;
  }

  // ---------------------------------------------------------------- one patch

  /** Removing the root leaves no tree, moving or copying to it is refused by the program, and a move into what it moves is
      not: these aside, and if the paths fit the trees that they are looked up in, apply_patch does just what is asked. */
  ghost predicate Fits(t: Tree, r: Request) {
    match r
    case Change(op) => Fit(t, op.path) && (op.Remove? ==> op.path != [])
    case Move(from, path) =>
      && path != [] && !ProperPrefix(from, path) && Fit(t, from)
      && (Edit(t, Remove(from)).Some? ==> Fit(Edit(t, Remove(from)).value, path))
    case Copy(from, path) => path != [] && Fit(t, from) && Fit(t, path)
    case Test(path, _) => Fit(t, path)
  }

  /** The last step of a path. */
  lemma LastStep(path: seq<Step>) returns (front: seq<Step>, s: Step)
    requires path != []
    ensures path == front + [s] && front == path[..|path| - 1] && s == path[|path| - 1]
    ensures PlainPath(path) ==> PlainPath(front) && PlainStep(s)
  {
    front, s := path[..|path| - 1], path[|path| - 1];
  }

  lemma EditParts(t: Tree, op: Op, front: seq<Step>, s: Step)
    requires op.path == front + [s]
    ensures Edit(t, op).Some? <==> (TreeAt(t, front).Some?
              && (if op.Add? then AddSub(TreeAt(t, front).value, s, Abs(op.value)).Some?
                  else if op.Remove? then RemoveSub(TreeAt(t, front).value, s).Some?
                  else Sub(TreeAt(t, front).value, s).Some?))
    ensures op.Remove? && Edit(t, op).Some? ==>
              Edit(t, op).value == TreeSet(t, front, RemoveSub(TreeAt(t, front).value, s).value)
  {
    var one := op.(path := [s]);
    EditAtParent(t, front, one);
    assert op == one.(path := front + one.path);
    hide TreeAt, TreeSet, AddSub, RemoveSub, Sub;
    if TreeAt(t, front).Some? { EditOne(TreeAt(t, front).value, one); }
    hide Edit;
  }

  lemma ChangeExact(j: Json, patch: Json, op: Op, cs: bool)
    requires Plain(j) && PlainOp(op) && Reads(patch, op, cs) && Fits(Abs(j), Change(op))
    ensures ApplyPatch(j, patch, cs).status == 0 <==> Edit(Abs(j), op).Some?
  {
    hide Abs, Plain, Member, DecodeOperation, DetachPath, AddValue, PathOf, AddSub, RemoveSub, Sub, SetSub, TreeAt, TreeSet, Fit, PlainStep,
         LastSlash, AddAt, Edit, ApplyPatch, Reads;
    if Edit(Abs(j), op).Some? {
      ApplyRefines(j, patch, op, cs);
    } else if op.path == [] {
      EditRoot(Abs(j), op);
    } else {
      var front, s := LastStep(op.path);
      EditParts(Abs(j), op, front, s);
      PathParts(front, s);
      ChangeReads(j, patch, op, cs);
      if op.Add? {
        AddExact(j, front, s, op.value, cs);
        AddIsAddAt(Abs(j), op.path, op.value);
      } else {
        DetachExact(j, front, s, cs);
        SubRemoved(Abs(j), front, s);
      }
    }
  }

  /** Where a change of a part begins: adding with the addition, removing and replacing with taking out. */
  lemma ChangeReads(j: Json, patch: Json, op: Op, cs: bool)
    requires Reads(patch, op, cs) && PathOf(op.path) != ""
    ensures op.Add? ==> ApplyPatch(j, patch, cs) == AddValue(j, PathOf(op.path), op.value, cs)
    ensures !op.Add? && DetachPath(j, PathOf(op.path), cs).item.None? ==> ApplyPatch(j, patch, cs).status == 13
  {
    hide Reads, Member, DecodeOperation, DetachPath, AddValue, PathOf, TestPatch, AddFrom;
    ReadsOperation(patch, op, cs);
  }

  lemma EditRoot(t: Tree, op: Op)
    requires op.path == [] && !op.Remove?
    ensures Edit(t, op).Some?
  {
  }

  lemma SubRemoved(t: Tree, front: seq<Step>, s: Step)
    ensures TreeAt(t, front).Some? ==> (Sub(TreeAt(t, front).value, s).Some? <==> RemoveSub(TreeAt(t, front).value, s).Some?)
  {
  }

  lemma TestExact(j: Json, patch: Json, path: seq<Step>, value: Json, cs: bool)
    requires Plain(j) && Plain(value) && PlainPath(path) && Asks(patch, Test(path, value), cs) && Fit(Abs(j), path)
    ensures ApplyPatch(j, patch, cs).status == 0 <==> TreeAt(Abs(j), path) == Some(Abs(value))
    ensures ApplyPatch(j, patch, cs).root == j
  {
    hide Abs, Plain, PathOf, TreeAt, Fit, CompareJson, Find, At, ApplyPatch, Asks, Member;
    TestReads(j, patch, path, value, cs);
    if TreeAt(Abs(j), path).None? {
      FindFails(j, path, cs);
    } else {
      var route := FindRefines(j, path, cs);
      assert Leads(j, path, route);
      CompareJsonExact(At(j, route), value, cs);
    }
  }

  lemma TestReads(j: Json, patch: Json, path: seq<Step>, value: Json, cs: bool)
    requires Asks(patch, Test(path, value), cs)
    ensures ApplyPatch(j, patch, cs) == TestPatch(j, PathOf(path), patch, cs) && Member(patch, "value", cs) == Some(value)
  {
    OtherOperation(patch, "test", cs);
    hide Member, DecodeOperation, PathOf, TestPatch;
  }

  lemma AsksFrom(patch: Json, r: Request, cs: bool)
    requires (r.Move? || r.Copy?) && Asks(patch, r, cs)
    ensures Member(patch, "path", cs) == Some(String(PathOf(r.path))) && DecodeOperation(patch, cs) == (if r.Move? then MOVE else COPY)
    ensures Member(patch, "from", cs) == Some(String(PathOf(r.from)))
  {
    hide Member, DecodeOperation, PathOf;
    OtherOperation(patch, if r.Move? then "move" else "copy", cs);
  }

  lemma FromReads(j: Json, patch: Json, r: Request, cs: bool)
    requires (r.Move? || r.Copy?) && Asks(patch, r, cs) && PathOf(r.path) != ""
    ensures ApplyPatch(j, patch, cs) == AddFrom(j, PathOf(r.path), patch, r.Move?, cs)
    ensures Member(patch, "from", cs) == Some(String(PathOf(r.from)))
  {
    hide Asks, Member, DecodeOperation, PathOf, AddFrom, TestPatch, DetachPath;
    AsksFrom(patch, r, cs);
  }

  lemma {:induction false} TreeAtParts(t: Tree, front: seq<Step>, s: Step)
    ensures TreeAt(t, front + [s]) == if TreeAt(t, front).None? then None else Sub(TreeAt(t, front).value, s)
    decreases |front|
  {
    var path := front + [s];
    if front == [] {
      assert path[0] == s && path[1..] == [];
      if Sub(t, s).Some? { assert TreeAt(Sub(t, s).value, []) == Sub(t, s); }
    } else {
      assert path[0] == front[0] && path[1..] == front[1..] + [s];
      if Sub(t, front[0]).Some? { TreeAtParts(Sub(t, front[0]).value, front[1..], s); }
    }
  }

  /** What a move takes out. */
  lemma MoveTakes(j: Json, from: seq<Step>, cs: bool)
    requires Plain(j) && PlainPath(from) && Fit(Abs(j), from)
    ensures var d := DetachPath(j, PathOf(from), cs);
            && (d.item.Some? <==> Edit(Abs(j), Remove(from)).Some?)
            && (d.item.Some? ==> Plain(d.root) && Plain(d.item.value) && Abs(d.root) == Edit(Abs(j), Remove(from)).value
                                 && TreeAt(Abs(j), from) == Some(Abs(d.item.value)))
  {
    hide Abs, Plain, PathOf, AddSub, RemoveSub, Sub, SetSub, TreeAt, TreeSet, Fit, PlainStep, LastSlash, DetachFrom, Put, At, Tok, DecodeInPlace, Find;
    if from == [] {
      NothingToTake(j, cs);
      NoRootRemoved(Abs(j));
    } else {
      hide Edit;
      var front, s := LastStep(from);
      EditParts(Abs(j), Remove(from), front, s);
      DetachExact(j, front, s, cs);
      TreeAtParts(Abs(j), front, s);
      if Edit(Abs(j), Remove(from)).Some? {
        DetachPathRefines(j, front, s, cs);
        PathParts(front, s);
        var route := FindRefines(j, front, cs);
        DetachItem(At(j, route), s);
      }
    }
  }

  lemma NothingToTake(j: Json, cs: bool)
    ensures PathOf([]) == "" && DetachPath(j, "", cs) == Detached(j, None)
  {
  }

  lemma NoRootRemoved(t: Tree)
    ensures Edit(t, Remove([])) == None
  {
  }

  /** A move, whatever is moved where. */
  lemma MoveDoes(j: Json, patch: Json, from: seq<Step>, path: seq<Step>, cs: bool)
    requires Plain(j) && PlainPath(from) && PlainPath(path) && Asks(patch, Move(from, path), cs) && path != []
    requires Fit(Abs(j), from) && (Edit(Abs(j), Remove(from)).Some? ==> Fit(Edit(Abs(j), Remove(from)).value, path))
    ensures var o, rest, part := ApplyPatch(j, patch, cs), Edit(Abs(j), Remove(from)), TreeAt(Abs(j), from);
            && (rest.Some? ==> part.Some?)
            && (o.status == 0 <==> rest.Some? && AddAt(rest.value, path, part.value).Some?)
            && (o.status == 0 ==> Plain(o.root) && Abs(o.root) == AddAt(rest.value, path, part.value).value)
  {
    hide Abs, Plain, Member, DetachPath, AddValue, PathOf, TreeAt, Fit, PlainStep, LastSlash, AddAt, Edit, ApplyPatch, Asks;
    var front, s := LastStep(path);
    PathParts(front, s);
    FromReads(j, patch, Move(from, path), cs);
    MoveTakes(j, from, cs);
    var d := DetachPath(j, PathOf(from), cs);
    if d.item.Some? { AddExact(d.root, front, s, d.item.value, cs); }
  }

  lemma MoveExact(j: Json, patch: Json, from: seq<Step>, path: seq<Step>, cs: bool)
    requires Plain(j) && PlainPath(from) && PlainPath(path) && Asks(patch, Move(from, path), cs) && Fits(Abs(j), Move(from, path))
    ensures var o := ApplyPatch(j, patch, cs);
            && (o.status == 0 <==> Perform(Abs(j), Move(from, path)).Some?)
            && (o.status == 0 ==> Plain(o.root) && Abs(o.root) == Perform(Abs(j), Move(from, path)).value)
  {
    hide Abs, Plain, Asks, ApplyPatch, TreeAt, Fit, PlainStep, AddAt, Edit, ProperPrefix;
    MoveDoes(j, patch, from, path, cs);
  }

  lemma CopyExact(j: Json, patch: Json, from: seq<Step>, path: seq<Step>, cs: bool)
    requires Plain(j) && PlainPath(from) && PlainPath(path) && Asks(patch, Copy(from, path), cs) && Fits(Abs(j), Copy(from, path))
    ensures var o := ApplyPatch(j, patch, cs);
            && (o.status == 0 <==> Perform(Abs(j), Copy(from, path)).Some?)
            && (o.status == 0 ==> Plain(o.root) && Abs(o.root) == Perform(Abs(j), Copy(from, path)).value)
  {
    hide Abs, Plain, Member, DetachPath, AddValue, PathOf, TreeAt, Fit, PlainStep, LastSlash, AddAt, Find, At, ApplyPatch, Asks, PutLeads;
    var front, s := LastStep(path);
    PathParts(front, s);
    FromReads(j, patch, Copy(from, path), cs);
    if TreeAt(Abs(j), from).None? {
      FindFails(j, from, cs);
    } else {
      var route := FindRefines(j, from, cs);
      AddExact(j, front, s, At(j, route), cs);
    }
  }

  /** apply_patch returns 0 if and only if RFC 6902 lets the request be done, and has then done it. */
  lemma ApplyExact(j: Json, patch: Json, r: Request, cs: bool)
    requires Plain(j) && PlainRequest(r) && Asks(patch, r, cs) && Fits(Abs(j), r)
    ensures var o := ApplyPatch(j, patch, cs);
            && (o.status == 0 <==> Perform(Abs(j), r).Some?)
            && (o.status == 0 ==> Plain(o.root) && Abs(o.root) == Perform(Abs(j), r).value)
  {
    hide Abs, Plain, ApplyPatch, Edit, Fit, TreeAt, PlainStep, Reads;
    match r
    case Change(op) =>
      ChangeExact(j, patch, op, cs);
      if Edit(Abs(j), op).Some? { ApplyRefines(j, patch, op, cs); }
    case Move(from, path) => MoveExact(j, patch, from, path, cs);
    case Copy(from, path) => CopyExact(j, patch, from, path, cs);
    case Test(path, value) => TestExact(j, patch, path, value, cs);
  }

  // ---------------------------------------------------------------- where they part

  /** The empty name is taken for index 0. */
  lemma EmptyNameIsIndex(patch: Json, cs: bool)
    requires Reads(patch, Remove([Key("")]), cs)
    ensures var j := Array([Item("", Number(1))]);
            Edit(Abs(j), Remove([Key("")])) == None && ApplyPatch(j, patch, cs) == Outcome(Array([]), 0)
  {
    var c := [Item("", Number(1))];
    var j := Array(c);
    hide Member, DecodeOperation, PathOf, DetachPath, Abs, Reads;
    OneItem(Number(1));
    FirstTaken(c, cs);
    RemoveReads(j, patch, [Key("")], cs);
  }

  lemma OneItem(n: Json)
    requires n.Number?
    ensures Abs(Array([Item("", n)])) == Arr([Atom(n)]) && Plain(Array([Item("", n)]))
  {
    assert Abs(Array([Item("", n)])).items == [Atom(n)];
  }

  lemma RemoveReads(j: Json, patch: Json, path: seq<Step>, cs: bool)
    requires Reads(patch, Remove(path), cs) && PathOf(path) != ""
    ensures var d := DetachPath(j, PathOf(path), cs);
            ApplyPatch(j, patch, cs) == Outcome(d.root, if d.item.None? then 13 else 0)
  {
    hide Reads, Member, DecodeOperation, PathOf, DetachPath, TestPatch, AddFrom;
    ReadsOperation(patch, Remove(path), cs);
  }

  lemma FirstTaken(c: seq<Item>, cs: bool)
    requires |c| == 1
    ensures PathOf([Key("")]) != "" && DetachPath(Array(c), PathOf([Key("")]), cs) == Detached(Array([]), Some(c[0].value))
  {
    var j := Array(c);
    PathParts([], Key(""));
    assert [] + [Key("")] == [Key("")];
    EmptyPath();
    FindUnfold(j, "", cs);
    assert DecodeIndex("") == Some(0);
    assert Without(c, 0) == [];
    hide Find, LastSlash, PathOf, DecodeInPlace;
  }

  /** The first item of an array is moved into the second one, which has taken its place. */
  lemma MoveIntoItself(x: Json, y: Json, from: seq<Step>, path: seq<Step>, patch: Json, cs: bool)
    requires Plain(x) && Plain(y) && y.Array? && |y.child| >= 1 && Abs(y).Arr? && |Abs(y).items| >= 1
    requires from == [Index(0)] && path == [Index(0), Index(1)] && Asks(patch, Move(from, path), cs)
    ensures var o := ApplyPatch(Both(x, y), patch, cs);
            && Perform(Abs(Both(x, y)), Move(from, path)) == None && o.status == 0
            && Abs(o.root) == Arr([Arr(Abs(y).items[..1] + [Abs(x)] + Abs(y).items[1..])])
  {
    hide *;
    BothItems(x, y, from);
    NoMoveInside(Abs(Both(x, y)), from, path);
    MovedInto(Abs(x), Abs(y), path);
    IndexFits(Abs(x), Abs(y), from, path);
    PlainIndices(from, path);
    MoveDoes(Both(x, y), patch, from, path, cs);
  }

  function Both(x: Json, y: Json): Json { Array([Item("", x), Item("", y)]) }

  lemma NoMoveInside(t: Tree, from: seq<Step>, path: seq<Step>)
    requires from == [Index(0)] && path == [Index(0), Index(1)]
    ensures Perform(t, Move(from, path)) == None
  {
    assert path[..1] == from;
    hide Edit, TreeAt, AddAt;
  }

  lemma PlainIndices(from: seq<Step>, path: seq<Step>)
    requires from == [Index(0)] && path == [Index(0), Index(1)]
    ensures PlainPath(from) && PlainPath(path) && path != []
  {
  }

  lemma BothItems(x: Json, y: Json, from: seq<Step>)
    requires Plain(x) && Plain(y) && from == [Index(0)]
    ensures Plain(Both(x, y)) && Abs(Both(x, y)) == Arr([Abs(x), Abs(y)])
    ensures Edit(Abs(Both(x, y)), Remove(from)) == Some(Arr([Abs(y)])) && TreeAt(Abs(Both(x, y)), from) == Some(Abs(x))
  {
    var j := Both(x, y);
    assert Abs(j).items == [Abs(x), Abs(y)];
    TakenFirst(Abs(x), Abs(y), from);
  }

  lemma TakenFirst(a: Tree, b: Tree, from: seq<Step>)
    requires from == [Index(0)]
    ensures Edit(Arr([a, b]), Remove(from)) == Some(Arr([b])) && TreeAt(Arr([a, b]), from) == Some(a)
  {
    assert [a, b][..0] + [a, b][1..] == [b];
    assert from[1..] == [];
  }

  lemma IndexFits(a: Tree, b: Tree, from: seq<Step>, path: seq<Step>)
    requires b.Arr? && from == [Index(0)] && path == [Index(0), Index(1)]
    ensures Fit(Arr([a, b]), from) && Fit(Arr([b]), path)
  {
    assert from[1..] == [] && path[1..] == [Index(1)];
    assert Fit(b, [Index(1)]) by { assert [Index(1)][1..] == []; }
  }

  lemma MovedInto(a: Tree, b: Tree, path: seq<Step>)
    requires b.Arr? && |b.items| >= 1 && path == [Index(0), Index(1)]
    ensures AddAt(Arr([b]), path, a) == Some(Arr([Arr(b.items[..1] + [a] + b.items[1..])]))
  {
    var one := [Index(0)];
    var v := Arr(b.items[..1] + [a] + b.items[1..]);
    assert path[..1] == one && one[1..] == [];
    assert TreeAt(Arr([b]), one) == Some(b);
    assert [b][0 := v] == [v];
  }

  lemma CopiesNowhere(j: Json, patch: Json, from: seq<Step>, route: seq<nat>, cs: bool)
    requires Member(patch, "path", cs) == Some(String("")) && DecodeOperation(patch, cs) == COPY
    requires Member(patch, "from", cs) == Some(String(PathOf(from))) && Find(j, PathOf(from), cs) == Some(route)
    ensures ApplyPatch(j, patch, cs) == Outcome(j, 9)
  {
    hide Member, DecodeOperation, PathOf, Find, AddTo;
  }

  /** Nothing is copied to the root. */
  lemma CopyToRoot(j: Json, patch: Json, from: seq<Step>, cs: bool)
    requires Plain(j) && PlainPath(from) && Asks(patch, Copy(from, []), cs) && TreeAt(Abs(j), from).Some?
    ensures Perform(Abs(j), Copy(from, [])) == TreeAt(Abs(j), from) && ApplyPatch(j, patch, cs) == Outcome(j, 9)
  {
    hide Asks, Abs, Plain, Member, DecodeOperation, TreeAt, PlainStep, Leads, Find, ApplyPatch;
    AsksFrom(patch, Copy(from, []), cs);
    EmptyPath();
    var route := FindRefines(j, from, cs);
    CopiesNowhere(j, patch, from, route, cs);
  }

  /** Removing the root leaves no tree. */
  lemma RemoveRoot(j: Json, patch: Json, cs: bool)
    requires Reads(patch, Remove([]), cs)
    ensures Edit(Abs(j), Remove([])) == None && ApplyPatch(j, patch, cs) == Outcome(Invalid, 0)
  {
    hide Abs, Member, DecodeOperation, Reads, TestPatch, DetachPath, AddFrom, AddValue;
    ReadsOperation(patch, Remove([]), cs);
    EmptyPath();
  }
}
