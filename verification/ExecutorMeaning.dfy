/** What the operations of a batch make of the files, without the undos, and where a batch that keeps what it has done stops. */
module ExecutorMeaning {
  import opened Types
  import opened MemoryTree
  import opened Tracking
  import opened Executor
  import opened ExecutorTree
  import Patch

  // ---------------------------------------------------------------- one operation

  /** The tree with a text at a path; the directories it needs come into being. */
  ghost predicate Holds(t: Tree, t': Tree, p: Path, text: Body, without: set<Path>) {
    && t'.Keys == t.Keys - without + ParentPaths(p) + {p}
    && t'[p] == FileNode(text, FILE_MODE)
    && forall q :: q in t' && q != p ==> t'[q] == if q in t then t[q] else DirNode(DIR_MODE)
  }

  /** What an operation is for, and when it may be done. */
  ghost predicate Does(t: Tree, op: Operation, t': Tree) {
    match op
    case CreateFile(p, diff) =>
      var text := Patch.Patched("", diff, Patch.CreateMode);
      p !in t && text.Some? && Placeable(t, p) && Holds(t, t', p, text.value, {})
    case DeleteFile(p) =>
      ExistingFile(t, p) && t' == t - {p}
    case UpdateFile(p, diff, moveTo) =>
      && ExistingFile(t, p)
      && var text := Patch.Patched(t[p].body, diff, Patch.DefaultMode);
         && text.Some?
         && if moveTo.None? || moveTo.value == p then t' == t[p := FileNode(text.value, FILE_MODE)]
            else moveTo.value !in t && Placeable(t, moveTo.value) && Holds(t, t', moveTo.value, text.value, {p})
  }

  lemma DoesOneThing(t: Tree, op: Operation, a: Tree, b: Tree)
    requires Does(t, op, a) && Does(t, op, b)
    ensures a == b
  {
    hide Patch.Patched, Placeable;
  }

  lemma WrittenInPlace(t: Tree, p: Path, body: Body)
    requires WellFormed(t) && ExistingFile(t, p)
    ensures WriteFile(t, p, body) == Some(t[p := FileNode(body, FILE_MODE)])
    ensures WellFormed(t[p := FileNode(body, FILE_MODE)])
  {
    hide WellFormed;
    FilePlaceable(t, p);
    EffectWellFormed(t, Write(p, body));
    assert WithParents(t, p) == t;
  }

  lemma FilePlaceable(t: Tree, p: Path)
    requires WellFormed(t) && ExistingFile(t, p)
    ensures Placeable(t, p) && ParentPaths(p) <= t.Keys
    ensures forall q :: q in t && q != p ==> !Within(q, p)
  {
    hide WellFormed;
    assert p != [] by { RootIsDirectory(t); }
    forall a | a < p
      ensures a in t && t[a].DirNode?
    {
      AncestorsAreDirectories(t, p, a);
    }
    forall q | q in t && q != p
      ensures !Within(q, p)
    {
      if p < q {
        AncestorsAreDirectories(t, q, p);
      }
    }
  }

  lemma RootIsDirectory(t: Tree)
    requires WellFormed(t)
    ensures [] in t && t[[]].DirNode?
  {
  }

  /** The three steps of an update that moves the file give the file at its new place, with the parents that were missing. */
  lemma MovedMeans(t: Tree, p: Path, destination: Path, text: Body, x: Tree)
    requires WellFormed(t) && ExistingFile(t, p) && destination !in t
    requires var w := t[p := FileNode(text, FILE_MODE)];
             var created := MissingParents(t, destination);
             if created == [] then x == w else MakeDirectory(w, created[|created| - 1], true) == Some(x)
    ensures Move(x, p, destination).Some? <==> Placeable(t, destination)
    ensures Move(x, p, destination).Some? ==> Holds(t, Move(x, p, destination).value, destination, text, {p})
  {
    hide WellFormed, MissingParents, Move, MakeDirectory, Transferable;
    var w := t[p := FileNode(text, FILE_MODE)];
    FilePlaceable(t, p);
    ParentsMade(t, p, destination, text, x);
    OnTheWay(t, w, x, p, destination);
    MoveIfTransferable(x, p, destination);
    if Move(x, p, destination).Some? {
      MovedFile(x, p, destination);
    }
  }

  lemma MoveIfTransferable(x: Tree, p: Path, destination: Path)
    ensures Move(x, p, destination).Some? <==> Transferable(x, p, destination)
  {
  }

  lemma OnTheWay(t: Tree, w: Tree, x: Tree, p: Path, destination: Path)
    requires WellFormed(t) && ExistingFile(t, p) && destination !in t
    requires w.Keys == t.Keys && w[p].FileNode? && forall q :: q in t && q != p ==> w[q] == t[q]
    requires w.Keys <= x.Keys <= w.Keys + ParentPaths(destination)
    requires forall q :: q in x ==> x[q] == if q in w then w[q] else DirNode(DIR_MODE)
    ensures Transferable(x, p, destination) <==> Placeable(t, destination)
    ensures Placeable(t, destination) ==> forall q :: q in x && Within(q, p) ==> q == p
  {
    hide WellFormed;
    RootIsDirectory(t);
    FilePlaceable(t, p);
    assert destination != [] && destination !in x;
    assert Placeable(x, destination) <==> Placeable(t, destination) by {
      assert forall a :: a in t ==> (x[a].DirNode? <==> t[a].DirNode?);
    }
    assert Within(destination, p) && |p| == |destination| ==> p == destination;
  }

  lemma ParentsMade(t: Tree, p: Path, destination: Path, text: Body, x: Tree)
    requires WellFormed(t) && ExistingFile(t, p) && destination !in t
    requires var w := t[p := FileNode(text, FILE_MODE)];
             var created := MissingParents(t, destination);
             if created == [] then x == w else MakeDirectory(w, created[|created| - 1], true) == Some(x)
    ensures var w := t[p := FileNode(text, FILE_MODE)];
            && w.Keys <= x.Keys <= w.Keys + ParentPaths(destination)
            && WithParents(x, destination) == WithParents(w, destination)
            && forall q :: q in x ==> x[q] == if q in w then w[q] else DirNode(DIR_MODE)
  {
    hide WellFormed, MissingParents, MakeDirectory;
    var w := t[p := FileNode(text, FILE_MODE)];
    var created := MissingParents(t, destination);
    RootIsDirectory(t);
    MadeAll(t, destination);
    if created != [] {
      var c := created[|created| - 1];
      assert c in Made(created, |created|);
      assert c in ParentPaths(destination) && c !in w;
      DirectoryMade(w, c);
      assert forall a :: a in ParentPaths(c) ==> a in ParentPaths(destination);
    }
    assert WithParents(x, destination) == WithParents(w, destination);
  }

  lemma DirectoryMade(w: Tree, c: Path)
    requires c !in w && MakeDirectory(w, c, true).Some?
    ensures MakeDirectory(w, c, true).value == WithParents(w, c)[c := DirNode(DIR_MODE)]
  {
  }

  /** A finished operation has done what it is for; and with nothing failing it finishes exactly if that can be done. */
  lemma OperationMeans(d: Disk, op: Operation)
    requires WellFormed(d.t.inner)
    ensures var (after, r) := AppliedOne(d, op);
            r.Done? ==> Does(d.t.inner, op, after.t.inner) && WellFormed(after.t.inner) && (d.fuse.Sound? ==> after.fuse.Sound?)
    ensures d.fuse.Sound? ==> (AppliedOne(d, op).1.Done? <==> exists t' :: Does(d.t.inner, op, t'))
  {
    hide AppliedOne, Does, WellFormed;
    if AppliedOne(d, op).1.Done? {
      DoneWellFormed(d, op);
    }
    match op
    case CreateFile(p, diff) => CreateMeans(d, p, diff);
    case DeleteFile(p) => DeleteMeans(d, p);
    case UpdateFile(p, diff, moveTo) =>
      if moveTo.None? || moveTo.value == p {
        UpdateMeans(d, p, diff, moveTo);
      } else {
        UpdateAndMoveMeans(d, p, diff, moveTo.value);
      }
  }

  lemma MutationEffect(d: Disk, op: Op)
    requires Plain(op)
    ensures var (after, ok) := Mutated(d, op);
            && (ok ==> Effect(d.t.inner, op) == Some(after.t.inner) && (d.fuse.Sound? ==> after.fuse.Sound?))
            && (d.fuse.Sound? ==> (ok <==> Effect(d.t.inner, op).Some?))
  {
    hide Step, Effect;
    MutatedTree(d, op);
  }

  lemma CreateMeans(d: Disk, p: Path, diff: string)
    requires WellFormed(d.t.inner)
    ensures var (after, r) := AppliedOne(d, Operation.CreateFile(p, diff));
            r.Done? ==> Does(d.t.inner, Operation.CreateFile(p, diff), after.t.inner) && (d.fuse.Sound? ==> after.fuse.Sound?)
    ensures d.fuse.Sound? ==>
              (AppliedOne(d, Operation.CreateFile(p, diff)).1.Done? <==> exists t' :: Does(d.t.inner, Operation.CreateFile(p, diff), t'))
  {
    hide Patch.Patched, Undone, Mutated, Placeable, MissingParents, WellFormed;
    var t, text := d.t.inner, Patch.Patched("", diff, Patch.CreateMode);
    if p !in t && text.Some? {
      MutationEffect(d, Write(p, text.value));
      if Placeable(t, p) {
        assert Does(t, Operation.CreateFile(p, diff), WriteFile(t, p, text.value).value);
      }
    }
  }

  lemma DeleteMeans(d: Disk, p: Path)
    requires WellFormed(d.t.inner)
    ensures var (after, r) := AppliedOne(d, Operation.DeleteFile(p));
            r.Done? ==> Does(d.t.inner, Operation.DeleteFile(p), after.t.inner) && (d.fuse.Sound? ==> after.fuse.Sound?)
    ensures d.fuse.Sound? ==>
              (AppliedOne(d, Operation.DeleteFile(p)).1.Done? <==> exists t' :: Does(d.t.inner, Operation.DeleteFile(p), t'))
  {
    hide Patch.Patched, Undone, Mutated, WellFormed;
    var t := d.t.inner;
    if ExistingFile(t, p) {
      RootIsDirectory(t);
      FilePlaceable(t, p);
      MutationEffect(d, Rm(p, false, false));
      assert Remove(t, p, false, false) == Some(t - {p}) by {
        assert (map q | q in t && (q == [] || !Within(q, p)) :: t[q]) == t - {p};
      }
      assert Does(t, Operation.DeleteFile(p), t - {p});
    }
  }

  lemma UpdateMeans(d: Disk, p: Path, diff: string, moveTo: Option<Path>)
    requires WellFormed(d.t.inner) && (moveTo.None? || moveTo.value == p)
    ensures var (after, r) := AppliedOne(d, Operation.UpdateFile(p, diff, moveTo));
            r.Done? ==> Does(d.t.inner, Operation.UpdateFile(p, diff, moveTo), after.t.inner) && (d.fuse.Sound? ==> after.fuse.Sound?)
    ensures d.fuse.Sound? ==>
              (AppliedOne(d, Operation.UpdateFile(p, diff, moveTo)).1.Done? <==> exists t' :: Does(d.t.inner, Operation.UpdateFile(p, diff, moveTo), t'))
  {
    hide Patch.Patched, Undone, Mutated, WellFormed, WriteFile;
    var t := d.t.inner;
    if ExistingFile(t, p) {
      var text := Patch.Patched(t[p].body, diff, Patch.DefaultMode);
      if text.Some? {
        MutationEffect(d, Write(p, text.value));
        WrittenInPlace(t, p, text.value);
        assert Does(t, Operation.UpdateFile(p, diff, moveTo), t[p := FileNode(text.value, FILE_MODE)]);
      }
    }
  }

  lemma UpdateAndMoveMeans(d: Disk, p: Path, diff: string, destination: Path)
    requires WellFormed(d.t.inner) && destination != p
    ensures var (after, r) := AppliedOne(d, Operation.UpdateFile(p, diff, Some(destination)));
            r.Done? ==> Does(d.t.inner, Operation.UpdateFile(p, diff, Some(destination)), after.t.inner) && (d.fuse.Sound? ==> after.fuse.Sound?)
    ensures d.fuse.Sound? ==>
              (AppliedOne(d, Operation.UpdateFile(p, diff, Some(destination))).1.Done? <==>
               exists t' :: Does(d.t.inner, Operation.UpdateFile(p, diff, Some(destination)), t'))
  {
    hide Patch.Patched, Undone, Mutated, WellFormed, MovedAway, Holds, Placeable;
    var t, op := d.t.inner, Operation.UpdateFile(p, diff, Some(destination));
    if ExistingFile(t, p) && destination !in t {
      var text := Patch.Patched(t[p].body, diff, Patch.DefaultMode);
      if text.Some? {
        var created := MissingParents(t, destination);
        MovedAwayMeans(d, p, destination, text.value, UndoMove(p, destination, t[p].body, created));
        if Placeable(t, destination) {
          var t' := Carrying(t, p, destination, text.value);
          assert Does(t, op, t');
        }
      }
    }
  }

  function Carrying(t: Tree, p: Path, destination: Path, text: Body): (r: Tree)
    requires p in t && destination !in t
    ensures Placeable(t, destination) && t[p].FileNode? ==> Holds(t, r, destination, text, {p})
  {
    (WithParents(t, destination) - {p})[destination := FileNode(text, FILE_MODE)]
  }

  lemma MovedAwayMeans(d: Disk, p: Path, destination: Path, text: Body, u: Undo)
    requires WellFormed(d.t.inner) && ExistingFile(d.t.inner, p) && destination !in d.t.inner && destination != p
    ensures var (after, r) := MovedAway(d, p, destination, text, u, MissingParents(d.t.inner, destination));
            r.Done? ==> Placeable(d.t.inner, destination) && Holds(d.t.inner, after.t.inner, destination, text, {p})
                        && (d.fuse.Sound? ==> after.fuse.Sound?)
    ensures d.fuse.Sound? ==>
              (MovedAway(d, p, destination, text, u, MissingParents(d.t.inner, destination)).1.Done? <==> Placeable(d.t.inner, destination))
  {
    hide Undone, Mutated, WellFormed, MissingParents, WriteFile, Move, MakeDirectory, Placeable, Holds;
    var t := d.t.inner;
    var created := MissingParents(t, destination);
    var w := t[p := FileNode(text, FILE_MODE)];
    MutationEffect(d, Write(p, text));
    WrittenInPlace(t, p, text);
    var (written, ok) := Mutated(d, Write(p, text));
    if ok {
      if created == [] {
        MutationEffect(written, Mv(p, destination));
        MovedMeans(t, p, destination, text, w);
      } else {
        var c := created[|created| - 1];
        MutationEffect(written, Mkdir(c, true));
        CanMakeParents(t, w, p, destination, c);
        var (ready, made) := Mutated(written, Mkdir(c, true));
        if made {
          MutationEffect(ready, Mv(p, destination));
          MovedMeans(t, p, destination, text, ready.t.inner);
        }
      }
    }
  }

  lemma CanMakeParents(t: Tree, w: Tree, p: Path, destination: Path, c: Path)
    requires WellFormed(t) && ExistingFile(t, p) && destination !in t && w.Keys == t.Keys && w[p].FileNode?
    requires forall q :: q in t && q != p ==> w[q] == t[q]
    requires MissingParents(t, destination) != [] && c == MissingParents(t, destination)[|MissingParents(t, destination)| - 1]
    ensures Placeable(t, destination) ==> MakeDirectory(w, c, true).Some?
  {
    hide WellFormed, MissingParents;
    RootIsDirectory(t);
    MadeAll(t, destination);
    assert c != [] && c < destination && c !in t;
    if Placeable(t, destination) {
      forall a | a in w && a < c
        ensures w[a].DirNode?
      {
        assert a < destination;
        assert a == p ==> p < destination;
      }
    }
  }

  // ---------------------------------------------------------------- a batch

  /** The size of a diff: what its characters take in UTF-8, one after the other. */
  lemma {:induction false} Utf8Is(a: string, b: string, c: char)
    ensures Utf8Length("") == 0 && Utf8Length(a + b) == Utf8Length(a) + Utf8Length(b)
    ensures Utf8Length([c]) == (if c <= '\U{007F}' then 1 else if c <= '\U{07FF}' then 2 else if c <= '\U{FFFF}' then 3 else 4)
  {
    if a == "" {
      assert a + b == b;
    } else {
      assert (a + b)[1..] == a[1..] + b;
      Utf8Is(a[1..], b, c);
    }
  }

  /** One operation after the other, each doing what it is for. */
  ghost predicate DoesInTurn(t: Tree, ops: seq<Operation>, limit: nat, t': Tree)
    decreases |ops|
  {
    if ops == [] then t' == t
    else (!ops[0].DeleteFile? ==> Utf8Length(ops[0].diff) <= limit) && exists mid :: Does(t, ops[0], mid) && DoesInTurn(mid, ops[1..], limit, t')
  }

  lemma {:induction false} ExecutedMeans(p: Progress, ops: seq<Operation>, limit: nat)
    requires WellFormed(p.disk.t.inner) && p.failure.None? && Executed(p, ops, limit).failure.None?
    ensures DoesInTurn(p.disk.t.inner, ops, limit, Executed(p, ops, limit).disk.t.inner)
    decreases |ops|
  {
    hide AppliedOne, Does, WellFormed;
    if ops != [] {
      OperationMeans(p.disk, ops[0]);
      var (after, r) := AppliedOne(p.disk, ops[0]);
      if r.Done? {
        ExecutedMeans(Progress(after, p.undos + [r.undo], None), ops[1..], limit);
      }
    }
  }

  /** With nothing failing, a batch all of whose operations can be done in turn is completed. */
  lemma {:induction false} ExecutedCompletes(p: Progress, ops: seq<Operation>, limit: nat, t': Tree)
    requires WellFormed(p.disk.t.inner) && p.failure.None? && p.disk.fuse.Sound? && DoesInTurn(p.disk.t.inner, ops, limit, t')
    ensures Executed(p, ops, limit).failure.None?
    decreases |ops|
  {
    hide AppliedOne, Does, WellFormed;
    if ops != [] {
      OperationMeans(p.disk, ops[0]);
      var (after, r) := AppliedOne(p.disk, ops[0]);
      var mid :| Does(p.disk.t.inner, ops[0], mid) && DoesInTurn(mid, ops[1..], limit, t');
      assert r.Done?;
      DoesOneThing(p.disk.t.inner, ops[0], mid, after.t.inner);
      ExecutedCompletes(Progress(after, p.undos + [r.undo], None), ops[1..], limit, t');
    }
  }

  /**
   A completed batch has done every operation in turn, whichever mode it is run in; and with nothing
   failing it is completed exactly if all of them can be done in turn and none is too large.
   */
  lemma CompletedMeans(t: Tracked, fuse: Fuse, ops: seq<Operation>, limit: nat, mode: BatchMode)
    requires WellFormed(t.inner)
    ensures var (s, r) := Batch(t, fuse, ops, limit, mode);
            && (r.Completed? ==> DoesInTurn(t.inner, ops, limit, s.inner))
            && (fuse.Sound? ==> (r.Completed? <==> exists t' :: DoesInTurn(t.inner, ops, limit, t')))
  {
    hide Executed, DoesInTurn, WellFormed, AllUndone;
    var p := Progress(Disk(t, fuse), [], None);
    if Executed(p, ops, limit).failure.None? {
      ExecutedMeans(p, ops, limit);
    }
    if fuse.Sound? && exists t' :: DoesInTurn(t.inner, ops, limit, t') {
      var t' :| DoesInTurn(t.inner, ops, limit, t');
      ExecutedCompletes(p, ops, limit, t');
    }
  }

  /** The first `k` operations are done, as they are done alone; the next one changes nothing if it is too large, and otherwise the
      tree stays as it was or, for an update moved onto its own path, has the new text. */
  ghost predicate StopsAfter(t: Tracked, fuse: Fuse, ops: seq<Operation>, limit: nat, k: nat, s: Tracked)
    requires k < |ops|
  {
    exists done: Tracked ::
      && Batch(t, fuse, ops[..k], limit, Ordered) == (done, Completed)
      && DoesInTurn(t.inner, ops[..k], limit, done.inner)
      && if !ops[k].DeleteFile? && Utf8Length(ops[k].diff) > limit then s == done
         else SameTree(done.inner, s.inner) || (OntoItself(ops[k]) && Does(done.inner, ops[k], s.inner))
  }

  lemma {:induction false} ExecutedPrefix(p: Progress, ops: seq<Operation>, limit: nat) returns (k: nat)
    requires p.failure.None? && Executed(p, ops, limit).failure.Some?
    ensures k < |ops| && Executed(p, ops[..k], limit).failure.None?
    ensures Executed(p, ops, limit) == Executed(Executed(p, ops[..k], limit), [ops[k]], limit)
    decreases |ops|
  {
    hide AppliedOne, TooLarge;
    k := 0;
    assert ops[..0] == [] && [ops[0]][1..] == [];
    if !TooLarge(ops[0], limit) {
      var (after, r) := AppliedOne(p.disk, ops[0]);
      if r.Done? {
        var next := Progress(after, p.undos + [r.undo], None);
        var n := ExecutedPrefix(next, ops[1..], limit);
        k := n + 1;
        assert ops[..k][1..] == ops[1..][..n] && ops[..k][0] == ops[0] && ops[1..][n] == ops[k];
      }
    }
  }

  lemma OneFails(p: Progress, op: Operation, limit: nat)
    requires WellFormed(p.disk.t.inner) && p.failure.None? && Executed(p, [op], limit).failure.Some?
    ensures var s := Executed(p, [op], limit).disk.t;
            if TooLarge(op, limit) then s == p.disk.t
            else SameTree(p.disk.t.inner, s.inner) || (OntoItself(op) && Does(p.disk.t.inner, op, s.inner))
  {
    hide AppliedOne, TooLarge, WellFormed, Undoes, CreationStalls, SameTree, Does;
    if !TooLarge(op, limit) {
      assert [op][1..] == [];
      AppliedRestorable(p.disk, op);
      if OntoItself(op) {
        StruckInPlace(p.disk, op);
      }
    }
  }

  lemma StruckInPlace(d: Disk, op: Operation)
    requires WellFormed(d.t.inner) && OntoItself(op) && AppliedOne(d, op).1.Failed?
    ensures var s := AppliedOne(d, op).0.t;
            SameTree(d.t.inner, s.inner) || Does(d.t.inner, op, s.inner)
  {
    hide Patch.Patched, WellFormed, Effect, Halfway;
    var p, t := op.path, d.t.inner;
    SelfSame(t);
    if ExistingFile(t, p) {
      var text := Patch.Patched(t[p].body, op.diff, Patch.DefaultMode);
      if text.Some? {
        MutatedTree(d, Write(p, text.value));
        WrittenInPlace(t, p, text.value);
        FilePlaceable(t, p);
        WriteEffect(t, p, text.value);
        assert WithParents(t, p) == t;
      }
    }
  }

  lemma WriteEffect(t: Tree, p: Path, body: Body)
    ensures Effect(t, Write(p, body)) == WriteFile(t, p, body)
  {
  }

  /**
   A batch that keeps what it has done leaves the tree of its finished operations: it stops at the
   first that cannot be done, which changes nothing if it is too large, and otherwise, file modes
   aside, nothing but the text of an update moved onto its own path and struck after its write.
   */
  lemma OrderedLeaves(t: Tracked, fuse: Fuse, ops: seq<Operation>, limit: nat)
    requires WellFormed(t.inner)
    ensures var (s, r) := Batch(t, fuse, ops, limit, Ordered);
            r.Aborted? ==> exists k :: 0 <= k < |ops| && StopsAfter(t, fuse, ops, limit, k, s)
  {
    hide Executed, AllUndone, WellFormed, DoesInTurn, Does;
    var p := Progress(Disk(t, fuse), [], None);
    if Executed(p, ops, limit).failure.Some? {
      var k := ExecutedPrefix(p, ops, limit);
      var done := Executed(p, ops[..k], limit);
      ExecutedMeans(p, ops[..k], limit);
      StaysWellFormed(p, ops[..k], limit);
      OneFails(done, ops[k], limit);
      assert Batch(t, fuse, ops[..k], limit, Ordered) == (done.disk.t, Completed);
      assert StopsAfter(t, fuse, ops, limit, k, Executed(p, ops, limit).disk.t);
    }
  }

  lemma {:induction false} StaysWellFormed(p: Progress, ops: seq<Operation>, limit: nat)
    requires WellFormed(p.disk.t.inner) && p.failure.None? && Executed(p, ops, limit).failure.None?
    ensures WellFormed(Executed(p, ops, limit).disk.t.inner)
    decreases |ops|
  {
    hide AppliedOne, WellFormed, TooLarge;
    if ops != [] && AppliedOne(p.disk, ops[0]).1.Done? {
      DoneWellFormed(p.disk, ops[0]);
      StaysWellFormed(Progress(AppliedOne(p.disk, ops[0]).0, p.undos + [AppliedOne(p.disk, ops[0]).1.undo], None), ops[1..], limit);
    }
  }
}
