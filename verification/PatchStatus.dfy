/** With which status apply_patch of 3rd/cjson/cJSON_Utils.c refuses what it refuses. */
module PatchStatus {
  import opened Wrappers
  import opened CStrings
  import opened Json
  import opened Members
  import opened Pointer
  import opened Decoding
  import opened TreePatch
  import opened Patch
  import opened Requests

  /** An addition without a place: behind the end of an array, or no array or object to add to. */
  ghost function NoPlace(t: Tree, path: seq<Step>): int {
    var parent := if path == [] then None else TreeAt(t, path[..|path| - 1]);
    if parent.Some? && parent.value.Arr? then 10 else 9
  }

  /** The status for a request that cannot be done. */
  ghost function Refusal(t: Tree, r: Request): int {
    match r
    case Test(_, _) => 1
    case Change(op) => if op.Add? then NoPlace(t, op.path) else 13
    case Move(from, path) => if Edit(t, Remove(from)).None? then 5 else NoPlace(Edit(t, Remove(from)).value, path)
    case Copy(from, path) => if TreeAt(t, from).None? then 5 else NoPlace(t, path)
  }

  lemma AddFailsWith(parent: Json, s: Step, v: Json, cs: bool)
    requires Plain(parent) && PlainStep(s) && StepFits(Abs(parent), s) && AddSub(Abs(parent), s, Abs(v)).None?
    ensures AddTo(parent, Tok(s), v, cs).status == if Abs(parent).Arr? then 10 else 9
  {
    if parent.Array? {
      IndexRoundTrip(s.i, "");
      assert Digits(s.i) + "" == Digits(s.i);
      NotDash(s.i);
    }
  }

  lemma NoPlaceIs(t: Tree, front: seq<Step>, s: Step)
    ensures NoPlace(t, front + [s]) == if TreeAt(t, front).Some? && TreeAt(t, front).value.Arr? then 10 else 9
  {
    assert (front + [s])[..|front|] == front;
    hide TreeAt;
  }

  lemma AddStatusAt(j: Json, front: seq<Step>, s: Step, v: Json, cs: bool)
    requires Plain(j) && PlainPath(front) && PlainStep(s) && Plain(v) && Fit(Abs(j), front + [s])
    requires TreeAt(Abs(j), front).None? || AddSub(TreeAt(Abs(j), front).value, s, Abs(v)).None?
    ensures AddValue(j, PathOf(front + [s]), v, cs).status ==
              if TreeAt(Abs(j), front).Some? && TreeAt(Abs(j), front).value.Arr? then 10 else 9
  {
    hide Abs, Plain, AddSub, AddTo, Put, At, Tok, PathOf, LastSlash, DecodeInPlace, TreeAt, TreeSet, StepFits, AddValue, Fit, Find,
         PlainStep;
    FitParts(Abs(j), front, s);
    if TreeAt(Abs(j), front).None? {
      FindFails(j, front, cs);
      AddNowhere(j, front, s, v, cs);
    } else {
      var route := FindRefines(j, front, cs);
      AddFailsWith(At(j, route), s, v, cs);
      AddThere(j, front, s, v, cs, route);
    }
  }

  lemma AddStatus(j: Json, path: seq<Step>, v: Json, cs: bool)
    requires Plain(j) && PlainPath(path) && Plain(v) && path != [] && Fit(Abs(j), path) && AddAt(Abs(j), path, Abs(v)).None?
    ensures AddValue(j, PathOf(path), v, cs).status == NoPlace(Abs(j), path)
  {
    hide Abs, Plain, AddSub, PathOf, TreeAt, AddAt, AddValue, PlainStep, Fit, NoPlace;
    var front, s := LastStep(path);
    NoPlaceIs(Abs(j), front, s);
    AddAtParts(Abs(j), front, s, Abs(v));
    AddStatusAt(j, front, s, v, cs);
  }

  lemma ChangeStatus(j: Json, patch: Json, op: Op, cs: bool)
    requires Plain(j) && PlainOp(op) && Reads(patch, op, cs) && Fits(Abs(j), Change(op)) && Edit(Abs(j), op).None?
    ensures op.path != [] && ApplyPatch(j, patch, cs).status == if op.Add? then NoPlace(Abs(j), op.path) else 13
  {
    hide Abs, Plain, PathOf, AddValue, DetachPath, ApplyPatch, Reads, Fit, TreeAt, RemoveSub, Sub, AddSub, AddAt, PlainStep, NoPlace;
    if op.path == [] { EditRoot(Abs(j), op); }
    var front, s := LastStep(op.path);
    PathParts(front, s);
    ChangeReads(j, patch, op, cs);
    if op.Add? {
      AddIsAddAt(Abs(j), op.path, op.value);
      AddStatus(j, op.path, op.value, cs);
    } else {
      EditParts(Abs(j), op, front, s);
      DetachExact(j, front, s, cs);
      SubRemoved(Abs(j), front, s);
    }
    hide Edit, LastSlash;
  }

  lemma MoveStatus(j: Json, patch: Json, from: seq<Step>, path: seq<Step>, cs: bool)
    requires Plain(j) && PlainPath(from) && PlainPath(path) && Asks(patch, Move(from, path), cs) && Fits(Abs(j), Move(from, path))
    requires Perform(Abs(j), Move(from, path)).None?
    ensures ApplyPatch(j, patch, cs).status ==
              if Edit(Abs(j), Remove(from)).None? then 5 else NoPlace(Edit(Abs(j), Remove(from)).value, path)
  {
    hide Abs, Plain, Member, DetachPath, AddValue, PathOf, TreeAt, Fit, PlainStep, LastSlash, AddAt, Edit, ApplyPatch, Asks,
         ProperPrefix, NoPlace;
    var front, s := LastStep(path);
    PathParts(front, s);
    FromReads(j, patch, Move(from, path), cs);
    MoveTakes(j, from, cs);
    var d := DetachPath(j, PathOf(from), cs);
    if d.item.Some? { AddStatus(d.root, path, d.item.value, cs); }
  }

  lemma CopyStatus(j: Json, patch: Json, from: seq<Step>, path: seq<Step>, cs: bool)
    requires Plain(j) && PlainPath(from) && PlainPath(path) && Asks(patch, Copy(from, path), cs) && Fits(Abs(j), Copy(from, path))
    requires Perform(Abs(j), Copy(from, path)).None?
    ensures ApplyPatch(j, patch, cs).status == if TreeAt(Abs(j), from).None? then 5 else NoPlace(Abs(j), path)
  {
    hide Abs, Plain, Member, DetachPath, AddValue, PathOf, TreeAt, Fit, PlainStep, LastSlash, AddAt, Find, At, ApplyPatch, Asks,
         PutLeads, NoPlace;
    var front, s := LastStep(path);
    PathParts(front, s);
    FromReads(j, patch, Copy(from, path), cs);
    if TreeAt(Abs(j), from).None? {
      FindFails(j, from, cs);
    } else {
      var route := FindRefines(j, from, cs);
      AddStatus(j, path, At(j, route), cs);
    }
  }

  /** The status of every request whose paths fit: 0 if it is done, and otherwise the reason. */
  lemma StatusExact(j: Json, patch: Json, r: Request, cs: bool)
    requires Plain(j) && PlainRequest(r) && Asks(patch, r, cs) && Fits(Abs(j), r)
    ensures if Perform(Abs(j), r).Some? then ApplyPatch(j, patch, cs).status == 0
            else ApplyPatch(j, patch, cs).status == Refusal(Abs(j), r)
  {
    hide Abs, Plain, ApplyPatch, Edit, Fit, TreeAt, PlainStep, Reads, NoPlace, AddAt, ProperPrefix;
    ApplyExact(j, patch, r, cs);
    if Perform(Abs(j), r).None? {
      match r
      case Change(op) => ChangeStatus(j, patch, op, cs);
      case Move(from, path) => MoveStatus(j, patch, from, path, cs);
      case Copy(from, path) => CopyStatus(j, patch, from, path, cs);
      case Test(path, value) => TestStatus(j, patch, path, value, cs);
    }
  }

  lemma TestStatus(j: Json, patch: Json, path: seq<Step>, value: Json, cs: bool)
    requires Asks(patch, Test(path, value), cs) && ApplyPatch(j, patch, cs).status != 0
    ensures ApplyPatch(j, patch, cs).status == 1
  {
    hide Asks, PathOf, ApplyPatch, Find, CompareJson, Member;
    TestReads(j, patch, path, value, cs);
  }

  // ---------------------------------------------------------------- malformed patches

  /** The operations of section 4 of RFC 6902. */
  const OPERATIONS: set<string> := {"add", "remove", "replace", "move", "copy", "test"}

  ghost predicate NamesOperation(patch: Json, cs: bool) {
    var op := Member(patch, "op", cs);
    op.Some? && op.value.String? && op.value.s in OPERATIONS
  }

  lemma NoSuchOperation(patch: Json, cs: bool)
    requires var op := Member(patch, "op", cs); op.Some? && op.value.String? ==> NulFree(op.value.s)
    ensures DecodeOperation(patch, cs) == INVALID <==> !NamesOperation(patch, cs)
  {
    var op := Member(patch, "op", cs);
    hide Member, Compare;
    if op.Some? && op.value.String? {
      var s := op.value.s;
      CompareEqual(s, "add");
      CompareEqual(s, "remove");
      CompareEqual(s, "replace");
      CompareEqual(s, "move");
      CompareEqual(s, "copy");
      CompareEqual(s, "test");
    }
  }

  /** A patch without a path, without one of the six operations, without the place to take from, or without a value. */
  lemma Malformed(j: Json, patch: Json, cs: bool)
    requires var op := Member(patch, "op", cs); op.Some? && op.value.String? ==> NulFree(op.value.s)
    ensures var path, o := Member(patch, "path", cs), ApplyPatch(j, patch, cs);
            && (path.None? || !path.value.String? ==> o == Outcome(j, 2))
            && (path.Some? && path.value.String? && !NamesOperation(patch, cs) ==> o == Outcome(j, 3))
  {
    NoSuchOperation(patch, cs);
    hide Member, DecodeOperation, NamesOperation, TestPatch, DetachPath, AddFrom, AddValue;
  }

  lemma NothingToAdd(j: Json, patch: Json, cs: bool)
    requires Member(patch, "op", cs) == Some(String("add")) && Member(patch, "value", cs).None?
    requires Member(patch, "path", cs).Some? && Member(patch, "path", cs).value.String?
    ensures ApplyPatch(j, patch, cs) == Outcome(j, 7)
  {
    hide Member, DecodeOperation, TestPatch, DetachPath, AddFrom, AddValue;
    AddNamed(patch, cs);
  }

  lemma AddNamed(patch: Json, cs: bool)
    requires Member(patch, "op", cs) == Some(String("add"))
    ensures DecodeOperation(patch, cs) == ADD
  {
    hide Member, Compare;
    SameName("add", true);
  }

  lemma NowhereToTakeFrom(j: Json, patch: Json, move: bool, cs: bool)
    requires Member(patch, "op", cs) == Some(String(if move then "move" else "copy")) && Member(patch, "from", cs).None?
    requires Member(patch, "path", cs).Some? && Member(patch, "path", cs).value.String?
    ensures ApplyPatch(j, patch, cs) == Outcome(j, 4)
  {
    hide Member, DecodeOperation, TestPatch, DetachPath, AddValue;
    OtherOperation(patch, if move then "move" else "copy", cs);
  }
}
