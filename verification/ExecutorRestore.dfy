/** Exactly which failed all-or-nothing batches do not give back the tree they started from. */
module ExecutorRestore {
  import opened Types
  import opened MemoryTree
  import opened Tracking
  import opened Executor
  import opened ExecutorTree
  import Patch

  datatype Leftover = Leftover(path: Path, text: Body)

  /** The text an update onto its own path leaves when it is struck after its write: there is no rollback in that branch. */
  function StruckText(d: Disk, op: Operation): Option<Body> {
    if OntoItself(op) && Strikes(d.fuse) && d.fuse.fault.Complete? && ExistingFile(d.t.inner, op.path)
    then
      var next := Patch.Patched(d.t.inner[op.path].body, op.diff, Patch.DefaultMode);
      if next.Some? && next.value != d.t.inner[op.path].body then next else None
    else None
  }

  /** What the whole batch leaves: that text, unless an earlier operation of the batch has an undo for the path. */
  function LeftoverOf(p: Progress, ops: seq<Operation>, limit: nat): Option<Leftover>
    decreases |ops|
  {
    if ops == [] || p.failure.Some? || TooLarge(ops[0], limit) then None
    else
      var (after, r) := AppliedOne(p.disk, ops[0]);
      match r
      case Failed(_) =>
        var text := StruckText(p.disk, ops[0]);
        if text.Some? && ops[0].path !in Touched(p.undos) then Some(Leftover(ops[0].path, text.value)) else None
      case Done(undo) => LeftoverOf(Progress(after, p.undos + [undo], None), ops[1..], limit)
  }

  function WithText(t: Tree, p: Path, text: Body): Tree {
    t[p := FileNode(text, FILE_MODE)]
  }

  lemma WithTextWellFormed(t: Tree, p: Path, text: Body)
    requires WellFormed(t) && ExistingFile(t, p)
    ensures WellFormed(WithText(t, p, text))
  {
    forall q | q in t && q != []
      ensures Parent(q) != p
    {
      assert Parent(q) in t && t[Parent(q)].DirNode?;
    }
  }

  lemma {:induction false} SameMissing(t: Tree, x: Tree, p: Path, i: nat)
    requires t.Keys == x.Keys
    ensures MissingFrom(t, p, i) == MissingFrom(x, p, i)
    decreases |p| - i
  {
    if i < |p| {
      SameMissing(t, x, p, i + 1);
    }
  }

  /** An undo that rewrites or removes the path leads back whatever text is there. */
  lemma UndoesOver(t: Tree, x: Tree, u: Undo, p: Path, text: Body)
    requires Undoes(t, x, u) && p in PathsOf(u) && ExistingFile(x, p)
    ensures Undoes(t, WithText(x, p, text), u)
  {
    hide WellFormed, Grown;
    var y := WithText(x, p, text);
    match u
    case UndoCreate(q, created) => assert y - {q} == x - {q};
    case UndoWrite(q, previous) => assert y - {q} == x - {q};
    case UndoDelete(q, previous) => assert y - {q} == x - {q};
    case UndoMove(source, destination, previous, created) =>
      assert y - {source} - {destination} == x - {source} - {destination};
  }

  lemma GrownBoth(t: Tree, x: Tree, extra: set<Path>, p: Path, text: Body)
    requires Grown(t, x, extra) && ExistingFile(x, p)
    ensures ExistingFile(t, p) && SameNode(t[p], x[p]) && Grown(WithText(t, p, text), WithText(x, p, text), extra)
  {
  }

  lemma WritesBackBeside(t: Tree, x: Tree, q: Path, previous: Body, p: Path, text: Body)
    requires WritesBack(t, x, q, previous) && p != q && ExistingFile(x, p)
    ensures ExistingFile(t, p) && t[p].body == x[p].body && WritesBack(WithText(t, p, text), WithText(x, p, text), q, previous)
  {
    hide Grown;
    GrownBoth(t - {q}, x - {q}, {}, p, text);
    assert WithText(x, p, text) - {q} == WithText(x - {q}, p, text) && WithText(t, p, text) - {q} == WithText(t - {q}, p, text);
  }

  lemma CreateBeside(t: Tree, x: Tree, q: Path, created: seq<Path>, p: Path, text: Body)
    requires Undoes(t, x, UndoCreate(q, created)) && p != q && ExistingFile(x, p)
    ensures ExistingFile(t, p) && t[p].body == x[p].body
    ensures Undoes(WithText(t, p, text), WithText(x, p, text), UndoCreate(q, created))
  {
    hide WellFormed, Grown;
    GrownBoth(t, x - {q}, Made(created, |created|), p, text);
    assert WithText(x, p, text) - {q} == WithText(x - {q}, p, text);
    SameMissing(t, WithText(t, p, text), q, 1);
    WithTextWellFormed(t, p, text);
  }

  lemma MoveBeside(t: Tree, x: Tree, u: Undo, p: Path, text: Body)
    requires u.UndoMove? && Undoes(t, x, u) && p != u.source && p != u.destination && ExistingFile(x, p)
    ensures ExistingFile(t, p) && t[p].body == x[p].body && Undoes(WithText(t, p, text), WithText(x, p, text), u)
  {
    hide WellFormed, Grown;
    var i :| 0 <= i <= |u.created| && Grown(t - {u.source}, x - {u.source} - {u.destination}, Made(u.created, i));
    GrownBoth(t - {u.source}, x - {u.source} - {u.destination}, Made(u.created, i), p, text);
    assert WithText(x, p, text) - {u.source} - {u.destination} == WithText(x - {u.source} - {u.destination}, p, text);
    assert WithText(t, p, text) - {u.source} == WithText(t - {u.source}, p, text);
    SameMissing(t, WithText(t, p, text), u.destination, 1);
    WithTextWellFormed(t, p, text);
  }

  /** Any other undo leads back to the same tree with the other text. */
  lemma UndoesBeside(t: Tree, x: Tree, u: Undo, p: Path, text: Body)
    requires Undoes(t, x, u) && p !in PathsOf(u) && ExistingFile(x, p)
    ensures ExistingFile(t, p) && t[p].body == x[p].body && Undoes(WithText(t, p, text), WithText(x, p, text), u)
  {
    hide WellFormed, Grown, WritesBack, WithText;
    match u
    case UndoCreate(q, created) => CreateBeside(t, x, q, created, p, text);
    case UndoWrite(q, previous) =>
      WritesBackBeside(t, x, q, previous, p, text);
      WithTextWellFormed(t, p, text);
    case UndoDelete(q, previous) =>
      WritesBackBeside(t, x, q, previous, p, text);
      WithTextWellFormed(t, p, text);
    case UndoMove(_, _, _, _) => MoveBeside(t, x, u, p, text);
  }

  /** With an undo for the path among them, the undos lead back to the start from any text at it. */
  lemma {:induction false} UnwindsOver(start: Tree, x: Tree, undos: seq<Undo>, p: Path, text: Body)
    requires Unwinds(start, x, undos) && ExistingFile(x, p) && p in Touched(undos)
    ensures Unwinds(start, WithText(x, p, text), undos)
    decreases |undos|
  {
    hide Undoes, PathsOf;
    var u, rest := undos[|undos| - 1], undos[..|undos| - 1];
    var t: Tree :| Undoes(t, x, u) && Unwinds(start, t, rest);
    if p in PathsOf(u) {
      UndoesOver(t, x, u, p, text);
    } else {
      UndoesBeside(t, x, u, p, text);
      UnwindsOver(start, t, rest, p, text);
    }
  }

  /** Without one, they lead back to the start with that text in it. */
  lemma {:induction false} UnwindsBeside(start: Tree, x: Tree, undos: seq<Undo>, p: Path, text: Body)
    requires Unwinds(start, x, undos) && ExistingFile(x, p) && p !in Touched(undos)
    ensures ExistingFile(start, p) && start[p].body == x[p].body
    ensures Unwinds(WithText(start, p, text), WithText(x, p, text), undos)
    decreases |undos|
  {
    hide Undoes, PathsOf;
    if undos != [] {
      var u, rest := undos[|undos| - 1], undos[..|undos| - 1];
      var t: Tree :| Undoes(t, x, u) && Unwinds(start, t, rest);
      UndoesBeside(t, x, u, p, text);
      UnwindsBeside(start, t, rest, p, text);
    }
  }

  /** Struck with its text written, the update leaves just that text; struck otherwise, nothing. */
  lemma OntoItselfLeaves(d: Disk, op: Operation)
    requires WellFormed(d.t.inner) && OntoItself(op) && AppliedOne(d, op).1.Failed?
    ensures StruckText(d, op).Some? ==>
              AppliedOne(d, op).0.t.inner == WithText(d.t.inner, op.path, StruckText(d, op).value)
    ensures StruckText(d, op).None? ==> SameTree(d.t.inner, AppliedOne(d, op).0.t.inner)
  {
    hide Patch.Patched, Undone;
    SelfSame(d.t.inner);
    var p := op.path;
    if ExistingFile(d.t.inner, p) {
      ParentsThere(d.t.inner, p);
      var next := Patch.Patched(d.t.inner[p].body, op.diff, Patch.DefaultMode);
      if next.Some? {
        StepTree(d.t, Write(p, next.value));
      }
    }
  }

  lemma ParentsThere(t: Tree, p: Path)
    requires WellFormed(t) && ExistingFile(t, p)
    ensures WithParents(t, p) == t && Placeable(t, p)
  {
    forall a | a in ParentPaths(p)
      ensures a in t
    {
      AncestorsAreDirectories(t, p, a);
    }
    forall a | a in t && a < p
      ensures t[a].DirNode?
    {
      AncestorsAreDirectories(t, p, a);
    }
  }

  /** Where the undos of a failed batch lead: to the start, or to the start with the leftover in it. */
  lemma {:induction false} ExecutedLeadsBack(start: Tree, p: Progress, ops: seq<Operation>, limit: nat)
    requires p.failure.None? && WellFormed(p.disk.t.inner) && Unwinds(start, p.disk.t.inner, p.undos)
    ensures var r := Executed(p, ops, limit);
            match LeftoverOf(p, ops, limit)
            case None => Unwinds(start, r.disk.t.inner, r.undos)
            case Some(Leftover(q, text)) =>
              && r.failure.Some? && ExistingFile(start, q) && start[q].body != text
              && Unwinds(WithText(start, q, text), r.disk.t.inner, r.undos)
    decreases |ops|
  {
    hide AppliedOne, Undoes, WellFormed, SameTree, TooLarge, StruckText, Touched;
    if ops != [] && !TooLarge(ops[0], limit) {
      var (after, r) := AppliedOne(p.disk, ops[0]);
      AppliedRestorable(p.disk, ops[0]);
      match r
      case Failed(_) => FailedLeadsBack(start, p, ops[0]);
      case Done(u) =>
        DoneWellFormed(p.disk, ops[0]);
        assert (p.undos + [u])[..|p.undos|] == p.undos;
        assert Undoes(p.disk.t.inner, after.t.inner, (p.undos + [u])[|p.undos|]);
        ExecutedLeadsBack(start, Progress(after, p.undos + [u], None), ops[1..], limit);
    }
  }

  lemma FailedLeadsBack(start: Tree, p: Progress, op: Operation)
    requires WellFormed(p.disk.t.inner) && Unwinds(start, p.disk.t.inner, p.undos) && AppliedOne(p.disk, op).1.Failed?
    ensures var after := AppliedOne(p.disk, op).0.t.inner;
            var text := StruckText(p.disk, op);
            if text.Some? && op.path !in Touched(p.undos) then
              && ExistingFile(start, op.path) && start[op.path].body != text.value
              && Unwinds(WithText(start, op.path, text.value), after, p.undos)
            else Unwinds(start, after, p.undos)
  {
    hide AppliedOne, Undoes, WellFormed, SameTree, Unwinds, Touched;
    var text := StruckText(p.disk, op);
    AppliedRestorable(p.disk, op);
    if OntoItself(op) {
      OntoItselfLeaves(p.disk, op);
    }
    if text.None? {
      UnwindsSame(start, p.disk.t.inner, AppliedOne(p.disk, op).0.t.inner, p.undos);
    } else if op.path in Touched(p.undos) {
      UnwindsOver(start, p.disk.t.inner, p.undos, op.path, text.value);
    } else {
      UnwindsBeside(start, p.disk.t.inner, p.undos, op.path, text.value);
    }
  }

  /** What a failed batch gives back, file modes aside. */
  lemma BatchLeaves(t: Tracked, fuse: Fuse, ops: seq<Operation>, limit: nat)
    requires WellFormed(t.inner)
    ensures var (s, r) := Batch(t, fuse, ops, limit, AllOrNothing);
            r.Aborted? ==>
              match LeftoverOf(Progress(Disk(t, fuse), [], None), ops, limit)
              case None => SameTree(t.inner, s.inner)
              case Some(Leftover(q, text)) =>
                ExistingFile(t.inner, q) && t.inner[q].body != text && SameTree(WithText(t.inner, q, text), s.inner)
  {
    hide Executed, AllUndone, WellFormed, LeftoverOf, WithText, SameTree;
    var p0 := Progress(Disk(t, fuse), [], None);
    SelfSame(t.inner);
    assert Unwinds(t.inner, t.inner, []);
    ExecutedLeadsBack(t.inner, p0, ops, limit);
    var p := Executed(p0, ops, limit);
    match LeftoverOf(p0, ops, limit)
    case None => AllUndoneRestores(t.inner, p.disk.t, p.undos);
    case Some(Leftover(q, text)) => AllUndoneRestores(WithText(t.inner, q, text), p.disk.t, p.undos);
  }

  /**
   Whatever the operations and wherever the batch is struck: it gives back the tree it started
   from, file modes aside, exactly unless an update onto its own path was struck after changing
   a text that no earlier operation of the batch has an undo for.
   */
  lemma BatchRestoredIff(t: Tracked, fuse: Fuse, ops: seq<Operation>, limit: nat)
    requires WellFormed(t.inner)
    ensures var (s, r) := Batch(t, fuse, ops, limit, AllOrNothing);
            r.Aborted? ==> (SameTree(t.inner, s.inner) <==> LeftoverOf(Progress(Disk(t, fuse), [], None), ops, limit).None?)
  {
    hide Executed, AllUndone, WellFormed, LeftoverOf;
    BatchLeaves(t, fuse, ops, limit);
  }
}
