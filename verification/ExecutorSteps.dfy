/** Every outcome of a patch operation, also a failed one, is a state the tracker itself could have reached: some
    of the operation's steps, and its undo run from there. */
module ExecutorSteps {
  import opened Types
  import opened MemoryTree
  import opened Tracking
  import opened TrackingRuns
  import opened Executor
  import opened ExecutorTree

  // ---------------------------------------------------------------- directories the tracker has not seen

  /** The tree with directories that a failing primitive made and the tracker does not know. */
  function Plus(t: Tree, dirs: set<Path>): (r: Tree)
    ensures r.Keys == t.Keys + dirs
  {
    map p | p in t.Keys + dirs :: if p in t then t[p] else DirNode(DIR_MODE)
  }

  function Untracked(t: Tracked, dirs: set<Path>): Tracked {
    t.(inner := Plus(t.inner, dirs))
  }

  lemma NothingUntracked(t: Tracked, dirs: set<Path>)
    requires dirs <= t.inner.Keys
    ensures Untracked(t, dirs) == t
  {
    assert Plus(t.inner, dirs) == t.inner;
  }

  lemma HalfwayIs(t: Tracked, op: Op, fault: Fault)
    requires Plain(op)
    ensures var h := Halfway(t, op, fault);
            h == t || h == Step(t, op) || (Effect(t.inner, op).Some? && h == Untracked(t, ParentPaths(MakesParentsOf(op))))
  {
    hide Step, Effect;
  }

  /** Removing a directory the tracker does not know changes nothing it does know. */
  lemma RemoveUnknown(t: Tracked, dirs: set<Path>, c: Path)
    requires WellFormed(t.inner) && t.kinds == KindsOf(t.inner)
    requires c !in t.inner && c in dirs && c != [] && !HasChildren(Plus(t.inner, dirs), c)
    ensures Step(Untracked(t, dirs), Rm(c, false, false)) == Untracked(t, dirs - {c})
  {
    var s := Untracked(t, dirs);
    RemoveLeaf(s.inner, c);
    assert s.inner - {c} == Plus(t.inner, dirs - {c});
    forall q | q in t.kinds
      ensures !Within(q, c)
    {
      NothingBelowMissing(t.inner, c, q);
    }
    assert EntriesWithin(t.kinds, c).Keys == {};
    NothingDeleted(s.(inner := s.inner - {c}));
  }

  lemma NothingDeleted(t: Tracked)
    ensures RecordDeletions(t, {}) == t
  {
  }

  lemma {:induction false} UnknownCleanedUp(t: Tracked, p: Path, n: nat, i: nat, strict: bool)
    requires WellFormed(t.inner) && t.kinds == KindsOf(t.inner) && p != []
    requires i <= n <= |MissingParents(t.inner, p)| && (strict ==> i == n)
    ensures var m := MissingParents(t.inner, p);
            ParentsRemoved(Untracked(t, Made(m, i)), m[..n], strict).0 == t
    decreases n
  {
    hide Step, Grown, MissingParents, Made, WellFormed, HasChildren, Plus;
    var m := MissingParents(t.inner, p);
    var s := Untracked(t, Made(m, i));
    PlusGrown(t.inner, m, i, p);
    if n == 0 {
      NoneMadeIsEmpty(m);
      NothingUntracked(t, Made(m, 0));
      assert m[..0] == [];
    } else {
      var c := m[n - 1];
      assert m[..n][..n - 1] == m[..n - 1] && m[..n][n - 1] == c;
      if i < n {
        NotYetMade(s.inner, t.inner, p, n, i);
      } else {
        LastHasNoChildren(s.inner, t.inner, p, n);
        LastIsNew(t.inner, p, n);
        RemoveUnknown(t, Made(m, n), c);
      }
      UnknownCleanedUp(t, p, n - 1, if i < n then i else n - 1, strict);
    }
  }

  lemma NoneMadeIsEmpty(m: seq<Path>)
    ensures Made(m, 0) == {}
  {
  }

  lemma LastIsNew(t: Tree, p: Path, n: nat)
    requires WellFormed(t) && p != [] && 0 < n <= |MissingParents(t, p)|
    ensures var m := MissingParents(t, p);
            m[n - 1] !in t && m[n - 1] != [] && m[n - 1] in Made(m, n) && Made(m, n) - {m[n - 1]} == Made(m, n - 1)
  {
    MadeAll(t, p);
    MadeLess(MissingParents(t, p), n);
  }

  lemma PlusGrown(t: Tree, m: seq<Path>, i: nat, p: Path)
    requires WellFormed(t) && p != [] && m == MissingParents(t, p) && i <= |m|
    ensures Grown(t, Plus(t, Made(m, i)), Made(m, i))
  {
    MadeAll(t, p);
  }

  // ---------------------------------------------------------------- an operation as tracked steps

  /** The steps an operation takes and its undo; None when it stops before the first of them. */
  function Script(t: Tree, op: Operation): Option<(seq<Op>, Undo)> {
    match op
    case CreateFile(p, diff) =>
      var content := Patch.Patched("", diff, Patch.CreateMode);
      if p in t || content.None? then None
      else Some(([Write(p, content.value)], UndoCreate(p, MissingParents(t, p))))
    case DeleteFile(p) =>
      if !ExistingFile(t, p) then None else Some(([Rm(p, false, false)], UndoDelete(p, t[p].body)))
    case UpdateFile(p, diff, moveTo) =>
      if !ExistingFile(t, p) || Patch.Patched(t[p].body, diff, Patch.DefaultMode).None? then None
      else
        var next := Patch.Patched(t[p].body, diff, Patch.DefaultMode).value;
        if moveTo.None? || moveTo.value == p then Some(([Write(p, next)], UndoWrite(p, t[p].body)))
        else if moveTo.value in t then None
        else Some((MoveSteps(p, moveTo.value, next, MissingParents(t, moveTo.value)),
                   UndoMove(p, moveTo.value, t[p].body, MissingParents(t, moveTo.value))))
  }

  function MoveSteps(p: Path, destination: Path, next: Body, created: seq<Path>): seq<Op> {
    [Write(p, next)]
    + (if created == [] then [] else [Mkdir(created[|created| - 1], true)])
    + [Mv(p, destination)]
  }

  /** The first mutation is struck before it takes effect. */
  predicate StruckFirst(d: Disk) {
    Strikes(d.fuse) && !d.fuse.fault.Complete?
  }

  /** How many of its steps an operation takes.  A step that is refused changes nothing and counts as taken. */
  function Taken(d: Disk, ops: seq<Op>): (k: nat)
    ensures k <= |ops| && (k == 0 <==> ops == [] || StruckFirst(d))
    decreases |ops|
  {
    if ops == [] then 0
    else
      var (after, ok) := Mutated(d, ops[0]);
      if ok then 1 + Taken(after, ops[1..]) else if StruckFirst(d) then 0 else 1
  }

  /** Undoing from directories the tracker does not know is undoing from where they were not yet made. */
  lemma UnknownUndone(t: Tracked, u: Undo, i: nat)
    requires WellFormed(t.inner) && t.kinds == KindsOf(t.inner)
    requires u.UndoMove? && ExistingFile(t.inner, u.source) && u.destination !in t.inner
    requires u.created == MissingParents(t.inner, u.destination) && i <= |u.created|
    ensures Undone(Untracked(t, Made(u.created, i)), u).0 == Undone(t, u).0
  {
    hide ParentsRemoved, Step, MissingParents, Made, KindsOf, Effect;
    var m := u.created;
    var p := u.destination;
    assert p != [];
    var s := Untracked(t, Made(m, i));
    PlusGrown(t.inner, m, i, p);
    MadeAll(t.inner, p);
    NotAmongMade(t.inner, p, i);
    var back := Step(t, Write(u.source, u.previous));
    WriteBesideUnknown(t, Made(m, i), u.source, u.previous);
    StepKeepsKeys(t, u.source, u.previous);
    SameMissing(t.inner, back.inner, p);
    assert m[..|m|] == m;
    UnknownCleanedUp(back, p, |m|, i, false);
    UnknownCleanedUp(back, p, |m|, 0, false);
    NoneMadeIsEmpty(m);
    NothingUntracked(back, {});
  }

  lemma NotAmongMade(t: Tree, p: Path, i: nat)
    requires WellFormed(t) && p != [] && i <= |MissingParents(t, p)|
    ensures p !in Made(MissingParents(t, p), i) && Made(MissingParents(t, p), i) !! t.Keys
  {
    MadeAll(t, p);
  }

  lemma {:induction false} MissingDependsOnKeys(t: Tree, x: Tree, p: Path, i: nat)
    requires t.Keys == x.Keys
    ensures MissingFrom(t, p, i) == MissingFrom(x, p, i)
    decreases |p| - i
  {
    if i < |p| {
      MissingDependsOnKeys(t, x, p, i + 1);
    }
  }

  lemma WriteInPlace(t: Tree, p: Path, body: Body)
    requires WellFormed(t) && ExistingFile(t, p)
    ensures p != [] && WriteFile(t, p, body) == Some(t[p := FileNode(body, FILE_MODE)])
    ensures WellFormed(t[p := FileNode(body, FILE_MODE)])
    ensures ParentPaths(p) <= t.Keys && forall a :: a in ParentPaths(p) ==> t[a].DirNode?
  {
    forall a | a < p
      ensures a in t && t[a].DirNode?
    {
      AncestorsAreDirectories(t, p, a);
    }
    assert WithParents(t, p) == t;
    WithParentsWellFormed(t, p, FileNode(body, FILE_MODE));
  }

  lemma KindsInPlace(t: Tree, p: Path, body: Body)
    requires ExistingFile(t, p) && forall a :: a in ParentPaths(p) ==> a in t && t[a].DirNode?
    ensures KindsOf(t[p := FileNode(body, FILE_MODE)]) == KindsOf(t)
    ensures KindsWith(KindsOf(t), AllParents((map[p := File]).Keys), map[p := File]) == KindsOf(t)
  {
    assert (map[p := File]).Keys == {p};
    assert AllParents({p}) == ParentPaths(p);
  }

  lemma SameMissing(t: Tree, x: Tree, p: Path)
    requires t.Keys == x.Keys
    ensures MissingParents(t, p) == MissingParents(x, p)
  {
    MissingDependsOnKeys(t, x, p, 1);
  }

  lemma StepKeepsKeys(t: Tracked, p: Path, body: Body)
    requires WellFormed(t.inner) && t.kinds == KindsOf(t.inner) && ExistingFile(t.inner, p)
    ensures Effect(t.inner, Write(p, body)).Some?
    ensures Step(t, Write(p, body)).inner == t.inner[p := FileNode(body, FILE_MODE)]
    ensures WellFormed(Step(t, Write(p, body)).inner) && Step(t, Write(p, body)).kinds == t.kinds == KindsOf(Step(t, Write(p, body)).inner)
  {
    hide KindsOf, KindsWith, WellFormed, WriteFile, MatchesBaseline, AllParents, ParentPaths;
    WriteInPlace(t.inner, p, body);
    KindsInPlace(t.inner, p, body);
  }

  lemma WriteBesideUnknown(t: Tracked, dirs: set<Path>, p: Path, body: Body)
    requires WellFormed(t.inner) && t.kinds == KindsOf(t.inner) && ExistingFile(t.inner, p) && dirs !! t.inner.Keys
    ensures Effect(Untracked(t, dirs).inner, Write(p, body)).Some?
    ensures Step(Untracked(t, dirs), Write(p, body)) == Untracked(Step(t, Write(p, body)), dirs)
  {
    hide KindsOf, KindsWith, WellFormed, WriteFile, AllParents, ParentPaths;
    var s := Untracked(t, dirs);
    WriteInPlace(t.inner, p, body);
    PlusInPlace(t.inner, dirs, p, body);
  }

  lemma PlusInPlace(t: Tree, dirs: set<Path>, p: Path, body: Body)
    requires WellFormed(t) && ExistingFile(t, p) && dirs !! t.Keys
    ensures WriteFile(Plus(t, dirs), p, body) == Some(Plus(t[p := FileNode(body, FILE_MODE)], dirs))
  {
    var x := Plus(t, dirs);
    forall a | a < p
      ensures a in t && t[a].DirNode?
    {
      AncestorsAreDirectories(t, p, a);
    }
    assert WithParents(x, p) == x;
    assert x[p := FileNode(body, FILE_MODE)] == Plus(t[p := FileNode(body, FILE_MODE)], dirs);
  }

  lemma UntrackedNewOnly(t: Tracked, dirs: set<Path>)
    ensures Untracked(t, dirs) == Untracked(t, dirs - t.inner.Keys)
  {
    assert Plus(t.inner, dirs) == Plus(t.inner, dirs - t.inner.Keys);
  }

  /** The state reached by the first `k` steps. */
  function After(t: Tracked, ops: seq<Op>, k: nat): Tracked
    requires k <= |ops|
  {
    Run(t, ops[..k])
  }

  lemma AfterOne(t: Tracked, op: Op, rest: seq<Op>)
    ensures After(t, [op] + rest, 0) == t
    ensures After(t, [op] + rest, 1) == Step(t, op)
  {
    hide Step;
    assert ([op] + rest)[..0] == [] && ([op] + rest)[..1] == [op] && [op][1..] == [];
    assert Run(t, [op]) == Run(Step(t, op), []);
  }

  lemma AfterMore(t: Tracked, op: Op, rest: seq<Op>, k: nat)
    requires k <= |rest|
    ensures After(t, [op] + rest, k + 1) == After(Step(t, op), rest, k)
  {
    assert ([op] + rest)[..k + 1] == [op] + rest[..k];
    assert ([op] + rest[..k])[1..] == rest[..k];
  }

  /** Where a failed operation was when it failed: its undo started from the state after `k` of its steps. */
  ghost predicate FailedAfter(t: Tracked, after: Tracked, ops: seq<Op>, u: Undo, k: nat) {
    k <= |ops| && after == Undone(After(t, ops, k), u).0
  }

  lemma CreateIs(d: Disk, op: Operation)
    requires Faithful(d.t) && op.CreateFile? && Script(d.t.inner, op).Some?
    ensures var (after, r) := AppliedOne(d, op);
            var (ops, u) := Script(d.t.inner, op).value;
            if r.Done? then r.undo == u && after.t == After(d.t, ops, 1) && !StruckFirst(d)
            else FailedAfter(d.t, after.t, ops, u, if StruckFirst(d) then 0 else 1)
  {
    hide Patch.Patched, Undone, Step, Effect, Halfway, MissingParents, Faithful;
    FaithfulTree(d.t);
    var p := op.path;
    var (ops, u) := Script(d.t.inner, op).value;
    var write := ops[0];
    assert p != [];
    AfterOne(d.t, write, []);
    assert [write] + [] == ops;
    RefusedChangesNothing(d.t, write);
    if Strikes(d.fuse) {
      HalfwayIs(d.t, write, d.fuse.fault);
      HalfwayComplete(d.t, write, d.fuse.fault);
      var m := MissingParents(d.t.inner, p);
      UntrackedNewOnly(d.t, ParentPaths(p));
      MadeAll(d.t.inner, p);
      NothingToUndo(d.t, u);
      CreateUnknownUndone(d.t, u);
    }
  }

  lemma HalfwayComplete(t: Tracked, op: Op, fault: Fault)
    requires Plain(op)
    ensures fault.Complete? ==> Halfway(t, op, fault) == Step(t, op)
    ensures !fault.Complete? ==> Halfway(t, op, fault) == t || Halfway(t, op, fault) == Untracked(t, ParentPaths(MakesParentsOf(op)))
  {
    hide Step, Effect;
  }

  lemma CreateUnknownUndone(t: Tracked, u: Undo)
    requires WellFormed(t.inner) && t.kinds == KindsOf(t.inner)
    requires u.UndoCreate? && u.path !in t.inner && u.created == MissingParents(t.inner, u.path)
    ensures Undone(Untracked(t, Made(u.created, |u.created|)), u).0 == t
  {
    hide ParentsRemoved, Step, MissingParents, Made, KindsOf;
    var n := |u.created|;
    NotAmongMade(t.inner, u.path, n);
    assert u.created[..n] == u.created;
    UnknownCleanedUp(t, u.path, n, n, true);
  }

  /** An operation with a single step on a file that exists. */
  lemma InPlaceIs(d: Disk, op: Operation)
    requires Faithful(d.t) && Script(d.t.inner, op).Some? && !op.CreateFile?
    requires op.UpdateFile? && op.moveTo.Some? ==> op.moveTo.value == op.path
    ensures var (after, r) := AppliedOne(d, op);
            var (ops, u) := Script(d.t.inner, op).value;
            var k := if StruckFirst(d) then 0 else 1;
            && |ops| == 1
            && if r.Done? then r.undo == u && after.t == After(d.t, ops, 1) && !StruckFirst(d)
               else if OntoItself(op) then after.t == After(d.t, ops, k)
               else FailedAfter(d.t, after.t, ops, u, k)
  {
    hide Patch.Patched, Undone, Step, Effect, Halfway, MissingParents, Faithful;
    FaithfulTree(d.t);
    var p := op.path;
    var (ops, u) := Script(d.t.inner, op).value;
    var only := ops[0];
    AfterOne(d.t, only, []);
    assert [only] + [] == ops;
    RefusedChangesNothing(d.t, only);
    WriteInPlace(d.t.inner, p, "");
    if Strikes(d.fuse) {
      HalfwayComplete(d.t, only, d.fuse.fault);
      NothingUntracked(d.t, ParentPaths(p));
      NothingUntracked(d.t, ParentPaths([]));
    }
  }

  /** A stage of a move that fails: its undo starts from before the stage or from after it. */
  lemma StageFails(d: Disk, op: Op, u: Undo)
    requires Plain(op) && !Mutated(d, op).1
    requires Undone(Untracked(d.t, ParentPaths(MakesParentsOf(op))), u).0 == Undone(d.t, u).0
    ensures Undone(Mutated(d, op).0.t, u).0 == Undone(if StruckFirst(d) then d.t else Step(d.t, op), u).0
  {
    hide Undone, Step, Effect, Halfway;
    RefusedChangesNothing(d.t, op);
    HalfwayComplete(d.t, op, if d.fuse.Armed? then d.fuse.fault else Nothing);
  }

  /** The facts about the tracked state during a move that its undo relies on. */
  ghost predicate MoveState(t: Tracked, x: Tracked, u: Undo) {
    && WellFormed(x.inner) && x.kinds == KindsOf(x.inner)
    && u.UndoMove? && ExistingFile(x.inner, u.source) && u.destination !in x.inner
    && x.inner.Keys == t.inner.Keys && u.created == MissingParents(t.inner, u.destination)
  }

  lemma WriteStageState(t: Tracked, op: Operation)
    requires Faithful(t) && Script(t.inner, op).Some? && Script(t.inner, op).value.1.UndoMove?
    ensures var (ops, u) := Script(t.inner, op).value;
            && ops[0] == Write(op.path, ops[0].body) && Effect(t.inner, ops[0]).Some?
            && MoveState(t, t, u) && MoveState(t, Step(t, ops[0]), u)
            && Untracked(t, ParentPaths(op.path)) == t
  {
    hide Patch.Patched, Step, MissingParents, KindsOf;
    var (ops, u) := Script(t.inner, op).value;
    WriteInPlace(t.inner, op.path, ops[0].body);
    StepKeepsKeys(t, op.path, ops[0].body);
    NothingUntracked(t, ParentPaths(op.path));
  }

  lemma MoveStateMissing(t: Tracked, w: Tracked, u: Undo)
    requires WellFormed(t.inner) && MoveState(t, w, u)
    ensures u.destination != [] && u.created == MissingParents(w.inner, u.destination)
  {
    assert [] in t.inner;
    hide MissingParents;
    SameMissing(t.inner, w.inner, u.destination);
  }

  lemma MkdirStageUndone(t: Tracked, w: Tracked, u: Undo)
    requires WellFormed(t.inner) && MoveState(t, w, u) && u.created != []
    ensures var c := u.created[|u.created| - 1];
            Undone(Untracked(w, ParentPaths(c)), u).0 == Undone(w, u).0
  {
    hide Undone, MissingParents, KindsOf, WellFormed, Made, Plus;
    MoveStateMissing(t, w, u);
    var n := |u.created|;
    var c := u.created[n - 1];
    UnknownUndone(w, u, n - 1);
    MadeAllButLast(w.inner, u.destination);
    UntrackedNewOnly(w, ParentPaths(c));
  }

  lemma ParentsThere(t: Tree, p: Path)
    requires WellFormed(t) && p != [] && MissingParents(t, p) == []
    ensures ParentPaths(p) <= t.Keys
  {
    MadeAll(t, p);
    NoneMadeIsEmpty([]);
    forall a | a in ParentPaths(p)
      ensures a in t
    {
      assert a !in ParentPaths(p) - t.Keys;
    }
  }

  lemma ParentsMade(t: Tree, p: Path, c: Path)
    requires WellFormed(t) && p != [] && MissingParents(t, p) != [] && c == MissingParents(t, p)[|MissingParents(t, p)| - 1]
    requires Effect(t, Mkdir(c, true)).Some?
    ensures ParentPaths(p) <= Effect(t, Mkdir(c, true)).value.Keys
  {
    hide Effect, MissingParents, WellFormed;
    MadeAllButLast(t, p);
    MadeAll(t, p);
    MkdirEffect(t, c);
    forall a | a in ParentPaths(p)
      ensures a in t.Keys + ParentPaths(c) + {c}
    {
      assert a in t || a in ParentPaths(p) - t.Keys;
    }
  }

  lemma MvStageUndone(t: Tracked, w: Tracked, u: Undo)
    requires WellFormed(t.inner) && MoveState(t, w, u)
    ensures u.created == [] ==> Untracked(w, ParentPaths(u.destination)) == w
    ensures u.created != [] ==>
              var made := Mkdir(u.created[|u.created| - 1], true);
              Effect(w.inner, made).Some? ==> Untracked(Step(w, made), ParentPaths(u.destination)) == Step(w, made)
  {
    assert u.destination != [];
    hide Step, KindsOf, MissingParents, Effect, WellFormed;
    SameMissing(t.inner, w.inner, u.destination);
    if u.created == [] {
      ParentsThere(w.inner, u.destination);
      NothingUntracked(w, ParentPaths(u.destination));
    } else {
      var made := Mkdir(u.created[|u.created| - 1], true);
      if Effect(w.inner, made).Some? {
        ParentsMade(w.inner, u.destination, made.path);
        StepTree(w, made);
        NothingUntracked(Step(w, made), ParentPaths(u.destination));
      }
    }
  }

  lemma MoveIs(d: Disk, op: Operation)
    requires Faithful(d.t) && Script(d.t.inner, op).Some? && Script(d.t.inner, op).value.1.UndoMove?
    ensures var (after, r) := AppliedOne(d, op);
            var (ops, u) := Script(d.t.inner, op).value;
            if r.Done? then r.undo == u && after.t == After(d.t, ops, |ops|) && !StruckFirst(d)
            else FailedAfter(d.t, after.t, ops, u, Taken(d, ops))
  {
    hide Patch.Patched, Undone, Step, Effect, Halfway, MissingParents, Faithful, Mutated, MoveState, Strikes, WellFormed,
         KindsOf, After;
    FaithfulTree(d.t);
    var (ops, u) := Script(d.t.inner, op).value;
    var (after, r) := AppliedOne(d, op);
    var write, rest := ops[0], ops[1..];
    assert ops == [write] + rest;
    WriteStageState(d.t, op);
    AfterOne(d.t, write, rest);
    var (written, ok) := Mutated(d, write);
    MutatedMeans(d, write);
    if !ok {
      StageFails(d, write, u);
    } else {
      MoveRest(d.t, written, rest, u);
      if !r.Done? {
        AfterMore(d.t, write, rest, Taken(written, rest));
      } else {
        AfterMore(d.t, write, rest, |rest|);
      }
    }
  }

  lemma MutatedMeans(d: Disk, op: Op)
    ensures Mutated(d, op).1 ==> Mutated(d, op).0.t == Step(d.t, op) && Effect(d.t.inner, op).Some? && !StruckFirst(d)
    ensures !Mutated(d, op).1 ==> Mutated(d, op).0.fuse.Sound?
    ensures !Mutated(d, op).1 && Effect(d.t.inner, op).Some? ==> Strikes(d.fuse)
  {
    hide Step, Effect, Halfway;
  }

  lemma TakenFirst(d: Disk, op: Op, rest: seq<Op>)
    ensures Taken(d, [op] + rest) ==
            var (after, ok) := Mutated(d, op);
            if ok then 1 + Taken(after, rest) else if StruckFirst(d) then 0 else 1
    ensures Taken(d, []) == 0
  {
    hide Mutated;
    assert ([op] + rest)[1..] == rest;
  }

  /** The last stage of a move. */
  lemma LastStage(d: Disk, mv: Op, u: Undo)
    requires mv.Mv? && Undone(Untracked(d.t, ParentPaths(MakesParentsOf(mv))), u).0 == Undone(d.t, u).0
    ensures Mutated(d, mv).1 ==> Mutated(d, mv).0.t == After(d.t, [mv], 1) && Taken(d, [mv]) == 1
    ensures !Mutated(d, mv).1 ==> FailedAfter(d.t, Undone(Mutated(d, mv).0.t, u).0, [mv], u, Taken(d, [mv]))
  {
    hide Undone, Step, Effect, Halfway, Mutated, Strikes, Taken, Run;
    assert [mv] + [] == [mv];
    TakenFirst(d, mv, []);
    TakenFirst(Mutated(d, mv).0, mv, []);
    AfterOne(d.t, mv, []);
    MutatedMeans(d, mv);
    if !Mutated(d, mv).1 {
      StageFails(d, mv, u);
    }
  }

  /** The two last stages, when parents have to be made. */
  lemma LastStages(d: Disk, made: Op, mv: Op, u: Undo)
    requires mv.Mv? && made.Mkdir?
    requires Undone(Untracked(d.t, ParentPaths(MakesParentsOf(made))), u).0 == Undone(d.t, u).0
    requires Effect(d.t.inner, made).Some? ==>
               Undone(Untracked(Step(d.t, made), ParentPaths(MakesParentsOf(mv))), u).0 == Undone(Step(d.t, made), u).0
    ensures var (ready, ok1) := Mutated(d, made);
            var (moved, ok2) := Mutated(ready, mv);
            && (ok1 && ok2 ==> moved.t == After(d.t, [made, mv], 2))
            && (!ok1 ==> FailedAfter(d.t, Undone(ready.t, u).0, [made, mv], u, Taken(d, [made, mv])))
            && (ok1 && !ok2 ==> FailedAfter(d.t, Undone(moved.t, u).0, [made, mv], u, Taken(d, [made, mv])))
  {
    hide Undone, Step, Effect, Halfway, Mutated, Strikes, Taken, Run;
    assert [made] + [mv] == [made, mv];
    TakenFirst(d, made, [mv]);
    AfterOne(d.t, made, [mv]);
    MutatedMeans(d, made);
    var (ready, ok) := Mutated(d, made);
    if ok {
      LastStage(ready, mv, u);
      AfterMore(d.t, made, [mv], 1);
      AfterMore(d.t, made, [mv], Taken(ready, [mv]));
    } else {
      StageFails(d, made, u);
    }
  }

  lemma MoveRest(t: Tracked, d: Disk, rest: seq<Op>, u: Undo)
    requires WellFormed(t.inner) && u.UndoMove? && MoveState(t, d.t, u)
    requires rest == (if u.created == [] then [] else [Mkdir(u.created[|u.created| - 1], true)]) + [Mv(u.source, u.destination)]
    ensures var made := Mkdir(if u.created == [] then [] else u.created[|u.created| - 1], true);
            var (ready, ok1) := if u.created == [] then (d, true) else Mutated(d, made);
            var (moved, ok2) := Mutated(ready, Mv(u.source, u.destination));
            && (ok1 && ok2 ==> moved.t == After(d.t, rest, |rest|))
            && (!ok1 ==> FailedAfter(d.t, Undone(ready.t, u).0, rest, u, Taken(d, rest)))
            && (ok1 && !ok2 ==> FailedAfter(d.t, Undone(moved.t, u).0, rest, u, Taken(d, rest)))
  {
    hide Undone, Step, Effect, Halfway, Mutated, MoveState, Strikes, Taken, Run, WellFormed;
    var mv := Mv(u.source, u.destination);
    MvStageUndone(t, d.t, u);
    if u.created == [] {
      assert rest == [mv];
      LastStage(d, mv, u);
    } else {
      var made := Mkdir(u.created[|u.created| - 1], true);
      assert rest == [made, mv];
      MkdirStageUndone(t, d.t, u);
      LastStages(d, made, mv, u);
    }
  }

  lemma AppliedIs(d: Disk, op: Operation)
    requires Faithful(d.t)
    ensures var (after, r) := AppliedOne(d, op);
            var script := Script(d.t.inner, op);
            if script.None? then r.Failed? && after.t == d.t
            else
              var (ops, u) := script.value;
              if r.Done? then r.undo == u && after.t == After(d.t, ops, |ops|) && !StruckFirst(d)
              else if OntoItself(op) then after.t == After(d.t, ops, Taken(d, ops))
              else FailedAfter(d.t, after.t, ops, u, Taken(d, ops))
  {
    hide AppliedOne, Undone, Step, Faithful, Patch.Patched, MissingParents;
    var script := Script(d.t.inner, op);
    if script.None? {
      Unscripted(d, op);
    } else {
      var (ops, u) := script.value;
      var (after, r) := AppliedOne(d, op);
      if u.UndoMove? {
        MoveIs(d, op);
      } else {
        if op.CreateFile? {
          CreateIs(d, op);
        } else {
          InPlaceIs(d, op);
          assert ops[..0] == [];
        }
        OneStepTaken(d, ops);
      }
    }
  }

  lemma OneStepTaken(d: Disk, ops: seq<Op>)
    requires |ops| == 1
    ensures Taken(d, ops) == if StruckFirst(d) then 0 else 1
  {
    hide Step, Effect, Halfway;
    assert Taken(Mutated(d, ops[0]).0, ops[1..]) == 0;
  }

  lemma Unscripted(d: Disk, op: Operation)
    requires Script(d.t.inner, op).None?
    ensures AppliedOne(d, op) == (d, Failed(true))
  {
    hide Mutated, Patch.Patched, MovedAway, RolledBack;
  }
}
