/** The patch executor: operations on files, their compensating undos, and one injected failure
    (executor.ts, undo.ts).  The file system is the tracked one, given by `Tracking.Step`. */
module Executor {
  import opened Types
  import opened MemoryTree
  import opened Tracking
  import opened PatchText
  import opened Patch

  // ---------------------------------------------------------------- mutations that may fail

  /** What a failing mutation leaves behind: nothing, only the parents it had to make, or all of its effect. */
  datatype Fault = Nothing | ParentsOnly | Complete

  /** Armed(n, f): n more mutations succeed and the one after them fails with f. */
  datatype Fuse = Sound | Armed(left: nat, fault: Fault)

  datatype Disk = Disk(t: Tracked, fuse: Fuse)

  function Halfway(t: Tracked, op: Op, fault: Fault): Tracked {
    match fault
    case Nothing => t
    case Complete => Step(t, op)
    case ParentsOnly =>
      if Effect(t.inner, op).None? then t
      else match op
           case Write(p, _) => t.(inner := WithParents(t.inner, p))
           case Mkdir(p, _) => t.(inner := WithParents(t.inner, p))
           case Mv(_, p) => t.(inner := WithParents(t.inner, p))
           case _ => t
  }

  predicate Strikes(fuse: Fuse) {
    fuse.Armed? && fuse.left == 0
  }

  /** A mutation that the file system refuses is the one failure of the batch, too. */
  function Mutated(d: Disk, op: Op): (Disk, bool) {
    if Strikes(d.fuse) then (Disk(Halfway(d.t, op, d.fuse.fault), Sound), false)
    else if Effect(d.t.inner, op).None? then (Disk(d.t, Sound), false)
    else (Disk(Step(d.t, op), if d.fuse.Armed? then Armed(d.fuse.left - 1, d.fuse.fault) else Sound), true)
  }

  // ---------------------------------------------------------------- undo.ts

  datatype Undo =
    | UndoCreate(path: Path, created: seq<Path>)
    | UndoWrite(path: Path, previous: Body)
    | UndoMove(source: Path, destination: Path, previous: Body, created: seq<Path>)
    | UndoDelete(path: Path, previous: Body)

  /** The parents of a path that are missing, from the top down, starting with the i-th. */
  function MissingFrom(t: Tree, p: Path, i: nat): seq<Path>
    decreases |p| - i
  {
    if i >= |p| then [] else (if p[..i] in t then [] else [p[..i]]) + MissingFrom(t, p, i + 1)
  }

  function MissingParents(t: Tree, p: Path): seq<Path> {
    MissingFrom(t, p, 1)
  }

  predicate HasChildren(t: Tree, p: Path) {
    exists q :: q in t && q != p && Within(q, p)
  }

  /** Remove the empty ones among the parents, the deepest first.  Listing a missing parent is an error
      when `strict`; otherwise it is skipped. */
  function ParentsRemoved(t: Tracked, parents: seq<Path>, strict: bool): (Tracked, bool)
    decreases |parents|
  {
    if parents == [] then (t, true)
    else
      var p := parents[|parents| - 1];
      var rest := parents[..|parents| - 1];
      if p !in t.inner then if strict then (t, false) else ParentsRemoved(t, rest, strict)
      else if !t.inner[p].DirNode? then (t, false)
      else if HasChildren(t.inner, p) then ParentsRemoved(t, rest, strict)
      else ParentsRemoved(Step(t, Rm(p, false, false)), rest, strict)
  }

  /** `exists` then `rm`. */
  function RemovedIfPresent(t: Tracked, p: Path): (Tracked, bool) {
    if p !in t.inner then (t, true)
    else if Effect(t.inner, Rm(p, false, false)).None? then (t, false)
    else (Step(t, Rm(p, false, false)), true)
  }

  function WrittenBack(t: Tracked, p: Path, previous: Body): (Tracked, bool) {
    (Step(t, Write(p, previous)), Effect(t.inner, Write(p, previous)).Some?)
  }

  /** An undo run to its end or to its first error. */
  function Undone(t: Tracked, u: Undo): (Tracked, bool) {
    match u
    case UndoCreate(p, created) =>
      var (gone, ok) := RemovedIfPresent(t, p);
      if ok then ParentsRemoved(gone, created, true) else (gone, false)
    case UndoWrite(p, previous) => WrittenBack(t, p, previous)
    case UndoDelete(p, previous) => WrittenBack(t, p, previous)
    case UndoMove(source, destination, previous, created) =>
      var (gone, removed) := RemovedIfPresent(t, destination);
      if !removed then (gone, false)
      else
        var (back, written) := WrittenBack(gone, source, previous);
        if written then ParentsRemoved(back, created, false) else (back, false)
  }

  /** All undos, the latest first; an error does not stop the others. */
  function AllUndone(t: Tracked, undos: seq<Undo>): (Tracked, bool)
    decreases |undos|
  {
    if undos == [] then (t, true)
    else
      var (s, ok) := Undone(t, undos[|undos| - 1]);
      var (r, all) := AllUndone(s, undos[..|undos| - 1]);
      (r, ok && all)
  }

  // ---------------------------------------------------------------- executor.ts

  datatype Operation =
    | CreateFile(path: Path, diff: string)
    | UpdateFile(path: Path, diff: string, moveTo: Option<Path>)
    | DeleteFile(path: Path)

  /** A finished operation hands over its undo; a failed one tells whether its own rollback finished. */
  datatype Applied = Done(undo: Undo) | Failed(rolledBack: bool)

  function RolledBack(d: Disk, u: Undo): (Disk, Applied) {
    var (t, ok) := Undone(d.t, u);
    (Disk(t, Sound), Failed(ok))
  }

  function Created(d: Disk, p: Path, diff: string): (Disk, Applied) {
    var content := Patched("", diff, CreateMode);
    if p in d.t.inner || content.None? then (d, Failed(true))
    else
      var undo := UndoCreate(p, MissingParents(d.t.inner, p));
      var (after, ok) := Mutated(d, Write(p, content.value));
      if ok then (after, Done(undo)) else RolledBack(after, undo)
  }

  predicate ExistingFile(t: Tree, p: Path) {
    p in t && t[p].FileNode?
  }

  function Updated(d: Disk, p: Path, diff: string): (Disk, Applied) {
    if !ExistingFile(d.t.inner, p) then (d, Failed(true))
    else
      var previous := d.t.inner[p].body;
      var next := Patched(previous, diff, DefaultMode);
      if next.None? then (d, Failed(true))
      else
        var (after, ok) := Mutated(d, Write(p, next.value));
        if ok then (after, Done(UndoWrite(p, previous))) else RolledBack(after, UndoWrite(p, previous))
  }

  /** A move onto the file's own path is written without a rollback. */
  function UpdatedInPlace(d: Disk, p: Path, diff: string): (Disk, Applied) {
    if !ExistingFile(d.t.inner, p) then (d, Failed(true))
    else
      var previous := d.t.inner[p].body;
      var next := Patched(previous, diff, DefaultMode);
      if next.None? then (d, Failed(true))
      else
        var (after, ok) := Mutated(d, Write(p, next.value));
        if ok then (after, Done(UndoWrite(p, previous))) else (after, Failed(true))
  }

  function MovedAway(d: Disk, p: Path, destination: Path, next: Body, undo: Undo, created: seq<Path>): (Disk, Applied) {
    var (written, ok) := Mutated(d, Write(p, next));
    if !ok then RolledBack(written, undo)
    else
      var (ready, made) := if created == [] then (written, true) else Mutated(written, Mkdir(created[|created| - 1], true));
      if !made then RolledBack(ready, undo)
      else
        var (moved, done) := Mutated(ready, Mv(p, destination));
        if done then (moved, Done(undo)) else RolledBack(moved, undo)
  }

  function UpdatedAndMoved(d: Disk, p: Path, diff: string, destination: Path): (Disk, Applied) {
    if !ExistingFile(d.t.inner, p) then (d, Failed(true))
    else
      var previous := d.t.inner[p].body;
      var next := Patched(previous, diff, DefaultMode);
      if next.None? || destination in d.t.inner then (d, Failed(true))
      else
        var created := MissingParents(d.t.inner, destination);
        MovedAway(d, p, destination, next.value, UndoMove(p, destination, previous, created), created)
  }

  function Deleted(d: Disk, p: Path): (Disk, Applied) {
    if !ExistingFile(d.t.inner, p) then (d, Failed(true))
    else
      var undo := UndoDelete(p, d.t.inner[p].body);
      var (after, ok) := Mutated(d, Rm(p, false, false));
      if ok then (after, Done(undo)) else RolledBack(after, undo)
  }

  function AppliedOne(d: Disk, op: Operation): (Disk, Applied) {
    match op
    case CreateFile(p, diff) => Created(d, p, diff)
    case DeleteFile(p) => Deleted(d, p)
    case UpdateFile(p, diff, moveTo) =>
      if moveTo.None? then Updated(d, p, diff)
      else if moveTo.value == p then UpdatedInPlace(d, p, diff)
      else UpdatedAndMoved(d, p, diff, moveTo.value)
  }

  function Utf8Length(s: string): nat {
    if s == "" then 0 else
      Utf8Length(s[1..]) + if s[0] < '\U{0080}' then 1 else if s[0] < '\U{0800}' then 2 else if s[0] < '\U{10000}' then 3 else 4
  }

  predicate TooLarge(op: Operation, limit: nat) {
    !op.DeleteFile? && Utf8Length(op.diff) > limit
  }

  /** Where a batch stops: the disk, the undos gathered, and the failure that stopped it, if any. */
  datatype Progress = Progress(disk: Disk, undos: seq<Undo>, failure: Option<bool>)

  function Executed(p: Progress, ops: seq<Operation>, limit: nat): Progress
    decreases |ops|
  {
    if ops == [] || p.failure.Some? then p
    else if TooLarge(ops[0], limit) then p.(failure := Some(true))
    else
      var (after, r) := AppliedOne(p.disk, ops[0]);
      match r
      case Failed(rolledBack) => Progress(after, p.undos, Some(rolledBack))
      case Done(undo) => Executed(Progress(after, p.undos + [undo], None), ops[1..], limit)
  }

  datatype BatchMode = AllOrNothing | Ordered
  datatype Outcome = Completed | Aborted(rolledBack: bool)

  /** The file system after a batch and what is reported. */
  function Batch(t: Tracked, fuse: Fuse, ops: seq<Operation>, limit: nat, mode: BatchMode): (Tracked, Outcome) {
    var p := Executed(Progress(Disk(t, fuse), [], None), ops, limit);
    if p.failure.None? then (p.disk.t, Completed)
    else if mode.Ordered? then (p.disk.t, Aborted(p.failure.value))
    else
      var (s, ok) := AllUndone(p.disk.t, p.undos);
      (s, Aborted(p.failure.value && ok))
  }

  // ---------------------------------------------------------------- the same, step by step

  class PatchTarget {
    var t: Tracked
    var fuse: Fuse

    constructor (t: Tracked, fuse: Fuse)
      ensures View() == Disk(t, fuse)
    {
      this.t := t;
      this.fuse := fuse;
    }

    function View(): Disk
      reads this
    {
      Disk(t, fuse)
    }

    method Mutate(op: Op) returns (ok: bool)
      modifies this
      ensures (View(), ok) == Mutated(old(View()), op)
    {
      hide Step, Halfway, Effect;
      if Strikes(fuse) {
        t := Halfway(t, op, fuse.fault);
        fuse := Sound;
        return false;
      }
      if Effect(t.inner, op).None? {
        fuse := Sound;
        return false;
      }
      t := Step(t, op);
      if fuse.Armed? {
        fuse := Armed(fuse.left - 1, fuse.fault);
      }
      return true;
    }

    method ListMissingParents(p: Path) returns (missing: seq<Path>)
      ensures missing == MissingParents(t.inner, p)
    {
      missing := [];
      var i := 1;
      while i < |p|
        invariant 1 <= i
        invariant MissingFrom(t.inner, p, 1) == missing + MissingFrom(t.inner, p, i)
      {
        if p[..i] !in t.inner {
          missing := missing + [p[..i]];
        }
        i := i + 1;
      }
    }

    method RemoveParents(parents: seq<Path>, strict: bool) returns (ok: bool)
      requires fuse.Sound?
      modifies this
      ensures fuse.Sound? && (t, ok) == ParentsRemoved(old(t), parents, strict)
    {
      hide Step;
      var n := |parents|;
      assert parents[..n] == parents;
      while n > 0
        invariant 0 <= n <= |parents| && fuse.Sound?
        invariant ParentsRemoved(old(t), parents, strict) == ParentsRemoved(t, parents[..n], strict)
      {
        n := n - 1;
        var p := parents[n];
        assert parents[..n + 1][..n] == parents[..n];
        if p !in t.inner {
          if strict {
            return false;
          }
        } else if !t.inner[p].DirNode? {
          return false;
        } else if !HasChildren(t.inner, p) {
          EmptyIsRemoved(t.inner, p);
          var removed := Mutate(Rm(p, false, false));
        }
      }
      return true;
    }

    /** One undo; the failure that led to it was the only one, so its own mutations fail only when refused. */
    method RunUndo(u: Undo) returns (ok: bool)
      requires fuse.Sound?
      modifies this
      ensures fuse.Sound? && (t, ok) == Undone(old(t), u)
    {
      hide Step, ParentsRemoved;
      match u {
        case UndoCreate(p, created) =>
          ok := true;
          if p in t.inner {
            ok := Mutate(Rm(p, false, false));
          }
          if ok {
            ok := RemoveParents(created, true);
          }
        case UndoWrite(p, previous) =>
          RefusedChangesNothing(t, Write(p, previous));
          ok := Mutate(Write(p, previous));
        case UndoDelete(p, previous) =>
          RefusedChangesNothing(t, Write(p, previous));
          ok := Mutate(Write(p, previous));
        case UndoMove(source, destination, previous, created) =>
          ok := true;
          if destination in t.inner {
            ok := Mutate(Rm(destination, false, false));
          }
          if ok {
            RefusedChangesNothing(t, Write(source, previous));
            ok := Mutate(Write(source, previous));
            if ok {
              ok := RemoveParents(created, false);
            }
          }
      }
    }

    method RunUndos(undos: seq<Undo>) returns (ok: bool)
      requires fuse.Sound?
      modifies this
      ensures (t, ok) == AllUndone(old(t), undos)
    {
      hide Undone;
      var failures := 0;
      var n := |undos|;
      assert undos[..n] == undos;
      while n > 0
        invariant 0 <= n <= |undos| && failures >= 0 && fuse.Sound?
        invariant AllUndone(old(t), undos).0 == AllUndone(t, undos[..n]).0
        invariant AllUndone(old(t), undos).1 == (failures == 0 && AllUndone(t, undos[..n]).1)
      {
        n := n - 1;
        assert undos[..n + 1][..n] == undos[..n];
        var done := RunUndo(undos[n]);
        if !done {
          failures := failures + 1;
        }
      }
      return failures == 0;
    }

    method RollbackMutation(undo: Undo) returns (r: Applied)
      requires fuse.Sound?
      modifies this
      ensures (View(), r) == RolledBack(old(View()), undo)
    {
      var ok := RunUndo(undo);
      return Failed(ok);
    }

    method CreateFile(p: Path, diff: string) returns (r: Applied)
      modifies this
      ensures (View(), r) == Created(old(View()), p, diff)
    {
      hide Undone, Patched, Halfway, Step;
      if p in t.inner {
        return Failed(true);
      }
      var content := ApplyDiff("", diff, CreateMode);
      if content.None? {
        return Failed(true);
      }
      var created := ListMissingParents(p);
      var undo := UndoCreate(p, created);
      var ok := Mutate(Write(p, content.value));
      if ok {
        return Done(undo);
      }
      r := RollbackMutation(undo);
    }

    method UpdateFile(p: Path, diff: string, moveTo: Option<Path>) returns (r: Applied)
      modifies this
      ensures (View(), r) == AppliedOne(old(View()), Operation.UpdateFile(p, diff, moveTo))
    {
      hide Undone, Patched, Halfway, Step, Effect;
      if !ExistingFile(t.inner, p) {
        return Failed(true);
      }
      var previous := t.inner[p].body;
      var next := ApplyDiff(previous, diff, DefaultMode);
      if next.None? {
        return Failed(true);
      }
      if moveTo.None? {
        var ok := Mutate(Write(p, next.value));
        if ok {
          return Done(UndoWrite(p, previous));
        }
        r := RollbackMutation(UndoWrite(p, previous));
        return;
      }
      var destination := moveTo.value;
      if destination == p {
        var ok := Mutate(Write(p, next.value));
        return if ok then Done(UndoWrite(p, previous)) else Failed(true);
      }
      if destination in t.inner {
        return Failed(true);
      }
      var created := ListMissingParents(destination);
      var undo := UndoMove(p, destination, previous, created);
      r := WriteAndMove(p, destination, next.value, undo, created);
    }

    method WriteAndMove(p: Path, destination: Path, next: Body, undo: Undo, created: seq<Path>) returns (r: Applied)
      modifies this
      ensures (View(), r) == MovedAway(old(View()), p, destination, next, undo, created)
    {
      hide Undone, Halfway, Step, Effect;
      var ok := Mutate(Write(p, next));
      if ok && created != [] {
        ok := Mutate(Mkdir(created[|created| - 1], true));
      }
      if ok {
        ok := Mutate(Mv(p, destination));
      }
      if ok {
        return Done(undo);
      }
      r := RollbackMutation(undo);
    }

    method DeleteFile(p: Path) returns (r: Applied)
      modifies this
      ensures (View(), r) == Deleted(old(View()), p)
    {
      hide Undone, Halfway, Step;
      if !ExistingFile(t.inner, p) {
        return Failed(true);
      }
      var undo := UndoDelete(p, t.inner[p].body);
      var ok := Mutate(Rm(p, false, false));
      if ok {
        return Done(undo);
      }
      r := RollbackMutation(undo);
    }

    method ApplyOne(op: Operation) returns (r: Applied)
      modifies this
      ensures (View(), r) == AppliedOne(old(View()), op)
    {
      match op {
        case CreateFile(p, diff) => r := CreateFile(p, diff);
        case UpdateFile(p, diff, moveTo) => r := UpdateFile(p, diff, moveTo);
        case DeleteFile(p) => r := DeleteFile(p);
      }
    }

    method ApplyPatchOperations(operations: seq<Operation>, limit: nat, mode: BatchMode) returns (r: Outcome)
      modifies this
      ensures (t, r) == Batch(old(t), old(fuse), operations, limit, mode)
    {
      hide AppliedOne, AllUndone, TooLarge;
      var undos: seq<Undo> := [];
      var failure: Option<bool> := None;
      var i := 0;
      while i < |operations| && failure.None?
        invariant 0 <= i <= |operations|
        invariant Executed(Progress(Disk(old(t), old(fuse)), [], None), operations, limit)
               == Executed(Progress(View(), undos, failure), operations[i..], limit)
      {
        if TooLarge(operations[i], limit) {
          failure := Some(true);
        } else {
          var applied := ApplyOne(operations[i]);
          match applied
          case Failed(rolledBack) => failure := Some(rolledBack);
          case Done(undo) => undos := undos + [undo];
        }
        i := i + 1;
      }
      if failure.None? {
        return Completed;
      }
      if mode.Ordered? {
        return Aborted(failure.value);
      }
      // A failure that has not struck by now does not strike the undos either.
      fuse := Sound;
      var ok := RunUndos(undos);
      return Aborted(failure.value && ok);
    }
  }

  lemma EmptyIsRemoved(t: Tree, p: Path)
    requires p in t && !HasChildren(t, p)
    ensures Effect(t, Rm(p, false, false)).Some?
  {
  }

  lemma RefusedChangesNothing(t: Tracked, op: Op)
    ensures Effect(t.inner, op).None? ==> Step(t, op) == t
  {
  }
}
