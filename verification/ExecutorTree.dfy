/** A failed all-or-nothing batch gives back the tree it started from, up to the modes of files. */
module ExecutorTree {
  import opened Types
  import opened MemoryTree
  import opened Tracking
  import opened Executor
  import TrackingRuns

  /** The same node, file modes aside: writing a file back resets its mode. */
  predicate SameNode(a: Node, b: Node) {
    if a.FileNode? then b.FileNode? && a.body == b.body else a == b
  }

  predicate SameTree(a: Tree, b: Tree) {
    a.Keys == b.Keys && forall p :: p in a ==> SameNode(a[p], b[p])
  }

  /** The tree with some new directories besides. */
  ghost predicate Grown(t: Tree, x: Tree, extra: set<Path>) {
    && extra !! t.Keys && x.Keys == t.Keys + extra
    && (forall p :: p in t ==> SameNode(t[p], x[p]))
    && (forall p :: p in extra ==> x[p].DirNode?)
  }

  function Made(created: seq<Path>, i: nat): set<Path>
    requires i <= |created|
  {
    set j | 0 <= j < i :: created[j]
  }

  predicate FileIfAny(x: Tree, p: Path) {
    p in x ==> x[p].FileNode?
  }

  /** The undo leads from `x` back to `t`: they differ only in what the undo rewrites, removes and cleans up. */
  ghost predicate Undoes(t: Tree, x: Tree, u: Undo) {
    && WellFormed(t)
    && match u
       case UndoCreate(p, created) =>
         && p !in t && created == MissingParents(t, p)
         && FileIfAny(x, p) && Grown(t, x - {p}, Made(created, |created|))
       case UndoWrite(p, previous) => WritesBack(t, x, p, previous)
       case UndoDelete(p, previous) => WritesBack(t, x, p, previous)
       case UndoMove(source, destination, previous, created) =>
         && ExistingFile(t, source) && t[source].body == previous
         && destination !in t && created == MissingParents(t, destination)
         && FileIfAny(x, source) && FileIfAny(x, destination)
         && exists i | 0 <= i <= |created| :: Grown(t - {source}, x - {source} - {destination}, Made(created, i))
  }

  ghost predicate WritesBack(t: Tree, x: Tree, p: Path, previous: Body) {
    && ExistingFile(t, p) && t[p].body == previous
    && FileIfAny(x, p) && Grown(t - {p}, x - {p}, {})
  }

  // ---------------------------------------------------------------- missing parents

  /** The missing parents are the last of the proper prefixes: below a missing path everything is missing. */
  lemma {:induction false} MissingShape(t: Tree, p: Path, i: nat)
    requires WellFormed(t) && 1 <= i <= |p|
    ensures var m := MissingFrom(t, p, i);
            && |m| <= |p| - i
            && (forall j :: 0 <= j < |m| ==> m[j] == p[..|p| - |m| + j] && m[j] !in t)
            && (forall k :: i <= k < |p| - |m| ==> p[..k] in t)
    decreases |p| - i
  {
    if i < |p| {
      MissingShape(t, p, i + 1);
      var m := MissingFrom(t, p, i + 1);
      if p[..i] !in t && |m| < |p| - i - 1 {
        assert p[..i + 1] in t && p[..i] < p[..i + 1];
        AncestorsAreDirectories(t, p[..i + 1], p[..i]);
      }
    }
  }

  lemma MadeAll(t: Tree, p: Path)
    requires WellFormed(t) && p != []
    ensures var m := MissingParents(t, p);
            && Made(m, |m|) == ParentPaths(p) - t.Keys
            && forall j :: 0 <= j < |m| ==> m[j] != [] && m[j] < p && m[j] !in t && |m[j]| == |p| - |m| + j
  {
    MissingShape(t, p, 1);
    var m := MissingParents(t, p);
    forall a | a in ParentPaths(p) - t.Keys
      ensures a in Made(m, |m|)
    {
      assert a == p[..|a|];
      assert m[|a| - (|p| - |m|)] == a;
    }
  }

  /** All but the last of the missing parents are what making the last one has to make first. */
  lemma MadeAllButLast(t: Tree, p: Path)
    requires WellFormed(t) && p != [] && MissingParents(t, p) != []
    ensures var m := MissingParents(t, p);
            Made(m, |m| - 1) == ParentPaths(m[|m| - 1]) - t.Keys && Made(m, |m|) == Made(m, |m| - 1) + {m[|m| - 1]}
  {
    MadeAll(t, p);
    MissingShape(t, p, 1);
    var m := MissingParents(t, p);
    var last := m[|m| - 1];
    forall a | a in Made(m, |m| - 1)
      ensures a in ParentPaths(last) - t.Keys
    {
      var j :| 0 <= j < |m| - 1 && m[j] == a;
      assert a == last[..|a|];
    }
    forall a | a in ParentPaths(last) - t.Keys
      ensures a in Made(m, |m| - 1)
    {
      assert a == last[..|a|] == p[..|a|];
      assert a in ParentPaths(p) - t.Keys;
      var j :| 0 <= j < |m| && m[j] == a;
    }
  }

  // ---------------------------------------------------------------- single steps on the tree

  lemma StepTree(t: Tracked, op: Op)
    requires op.Write? || op.Mkdir? || op.Rm? || op.Mv?
    ensures Step(t, op).inner == if Effect(t.inner, op).Some? then Effect(t.inner, op).value else t.inner
  {
  }

  lemma RemoveLeaf(x: Tree, p: Path)
    requires p in x && p != [] && !HasChildren(x, p)
    ensures Effect(x, Rm(p, false, false)) == Some(x - {p})
  {
    forall q | q in x
      ensures (q == [] || !Within(q, p)) <==> q != p
    {
    }
    assert (map q | q in x && (q == [] || !Within(q, p)) :: x[q]) == x - {p};
  }

  lemma NothingBelowMissing(t: Tree, p: Path, q: Path)
    requires WellFormed(t) && p !in t && q in t
    ensures !Within(q, p)
  {
    if Within(q, p) {
      assert p != q;
      AncestorsAreDirectories(t, q, p);
    }
  }

  /** Removing the created parents, deepest first, takes exactly the new directories away again. */
  lemma {:induction false} CleansUp(s: Tracked, t: Tree, p: Path, n: nat, i: nat, strict: bool)
    requires WellFormed(t) && p != [] && i <= n <= |MissingParents(t, p)| && (strict ==> i == n)
    requires Grown(t, s.inner, Made(MissingParents(t, p), i))
    ensures var (r, ok) := ParentsRemoved(s, MissingParents(t, p)[..n], strict);
            ok && SameTree(t, r.inner)
    decreases n
  {
    hide Step, Effect, Grown, SameTree, MissingParents, Made, HasChildren;
    var m := MissingParents(t, p);
    if n > 0 {
      var c := m[n - 1];
      assert m[..n][..n - 1] == m[..n - 1];
      assert m[..n][n - 1] == c;
      if i < n {
        NotYetMade(s.inner, t, p, n, i);
        CleansUp(s, t, p, n - 1, i, strict);
      } else {
        LastHasNoChildren(s.inner, t, p, n);
        RemoveLeaf(s.inner, c);
        StepTree(s, Rm(c, false, false));
        LastRemoved(s.inner, t, p, n);
        CleansUp(Step(s, Rm(c, false, false)), t, p, n - 1, n - 1, strict);
      }
    } else {
      NoneMade(s.inner, t, m);
    }
  }

  lemma NoneMade(x: Tree, t: Tree, m: seq<Path>)
    requires Grown(t, x, Made(m, 0))
    ensures SameTree(t, x)
  {
    assert Made(m, 0) == {};
  }

  lemma NotYetMade(x: Tree, t: Tree, p: Path, n: nat, i: nat)
    requires WellFormed(t) && p != [] && i < n <= |MissingParents(t, p)| && Grown(t, x, Made(MissingParents(t, p), i))
    ensures MissingParents(t, p)[n - 1] !in x
  {
    MadeAll(t, p);
    var m := MissingParents(t, p);
    assert forall j :: 0 <= j < i ==> |m[j]| < |m[n - 1]|;
  }

  lemma LastRemoved(x: Tree, t: Tree, p: Path, n: nat)
    requires WellFormed(t) && p != [] && 0 < n <= |MissingParents(t, p)| && Grown(t, x, Made(MissingParents(t, p), n))
    ensures Grown(t, x - {MissingParents(t, p)[n - 1]}, Made(MissingParents(t, p), n - 1))
  {
    hide Grown, Made, MissingParents, WellFormed;
    var m := MissingParents(t, p);
    MadeAll(t, p);
    MadeLess(m, n);
    Shrunk(t, x, Made(m, n), m[n - 1]);
  }

  lemma MadeLess(m: seq<Path>, n: nat)
    requires 0 < n <= |m| && forall j :: 0 <= j < n - 1 ==> |m[j]| < |m[n - 1]|
    ensures m[n - 1] in Made(m, n) && Made(m, n - 1) == Made(m, n) - {m[n - 1]}
  {
  }

  lemma Shrunk(t: Tree, x: Tree, extra: set<Path>, c: Path)
    requires Grown(t, x, extra) && c in extra
    ensures Grown(t, x - {c}, extra - {c})
  {
  }

  lemma LastHasNoChildren(x: Tree, t: Tree, p: Path, n: nat)
    requires WellFormed(t) && p != [] && 0 < n <= |MissingParents(t, p)|
    requires Grown(t, x, Made(MissingParents(t, p), n))
    ensures var c := MissingParents(t, p)[n - 1]; c in x && x[c].DirNode? && c != [] && !HasChildren(x, c)
  {
    var m := MissingParents(t, p);
    MadeAll(t, p);
    var c := m[n - 1];
    assert c in Made(m, n);
    forall q | q in x && q != c
      ensures !Within(q, c)
    {
      if q in t {
        NothingBelowMissing(t, c, q);
      } else {
        assert exists j :: 0 <= j < n && m[j] == q;
      }
    }
  }

  /** Removing a path that holds a file or nothing, and has nothing below it. */
  lemma FileGone(s: Tracked, p: Path)
    requires p != [] && FileIfAny(s.inner, p) && !HasChildren(s.inner, p)
    ensures RemovedIfPresent(s, p).1 && RemovedIfPresent(s, p).0.inner == s.inner - {p}
  {
    hide Step, Effect;
    if p in s.inner {
      RemoveLeaf(s.inner, p);
      StepTree(s, Rm(p, false, false));
    }
  }

  /** Writing a file back where all its parents are in place touches nothing else. */
  lemma FileBack(s: Tracked, t: Tree, p: Path, previous: Body, extra: set<Path>)
    requires WellFormed(t) && ExistingFile(t, p) && t[p].body == previous
    requires FileIfAny(s.inner, p) && Grown(t - {p}, s.inner - {p}, extra) && p !in extra
    ensures WrittenBack(s, p, previous).1 && Grown(t, WrittenBack(s, p, previous).0.inner, extra)
  {
    hide Step, WellFormed;
    WritesInPlace(s.inner, t, p, previous, extra);
    StepTree(s, Write(p, previous));
    GrownBack(s.inner, t, p, FileNode(previous, FILE_MODE), extra);
  }

  lemma WritesInPlace(x: Tree, t: Tree, p: Path, body: Body, extra: set<Path>)
    requires WellFormed(t) && ExistingFile(t, p) && FileIfAny(x, p) && Grown(t - {p}, x - {p}, extra)
    ensures Effect(x, Write(p, body)) == Some(x[p := FileNode(body, FILE_MODE)])
  {
    forall a | a < p
      ensures a in t && t[a].DirNode? && a in x && x[a].DirNode?
    {
      AncestorsAreDirectories(t, p, a);
      assert a in t - {p};
      assert a in x - {p};
    }
    assert WithParents(x, p) == x;
  }

  lemma GrownBack(x: Tree, t: Tree, p: Path, n: Node, extra: set<Path>)
    requires p in t && p !in extra && SameNode(t[p], n) && Grown(t - {p}, x - {p}, extra)
    ensures Grown(t, x[p := n], extra)
  {
    forall q | q in t
      ensures q in x[p := n] && SameNode(t[q], x[p := n][q])
    {
      assert q != p ==> q in t - {p} && q in x - {p};
    }
    forall q | q in x[p := n]
      ensures q in t.Keys + extra
    {
      assert q != p ==> q in x - {p};
    }
  }

  // ---------------------------------------------------------------- an undo restores

  lemma UndoWriteRestores(s: Tracked, t: Tree, p: Path, previous: Body)
    requires WellFormed(t) && WritesBack(t, s.inner, p, previous)
    ensures WrittenBack(s, p, previous).1 && SameTree(t, WrittenBack(s, p, previous).0.inner)
  {
    FileBack(s, t, p, previous, {});
  }

  lemma UndoCreateRestores(s: Tracked, t: Tree, p: Path, created: seq<Path>)
    requires Undoes(t, s.inner, UndoCreate(p, created))
    ensures Undone(s, UndoCreate(p, created)).1 && SameTree(t, Undone(s, UndoCreate(p, created)).0.inner)
  {
    hide ParentsRemoved, RemovedIfPresent;
    MadeAll(t, p);
    forall q | q in s.inner && q != p
      ensures !Within(q, p)
    {
      assert q in s.inner - {p};
      if q in t {
        NothingBelowMissing(t, p, q);
      }
    }
    FileGone(s, p);
    assert created[..|created|] == created;
    CleansUp(RemovedIfPresent(s, p).0, t, p, |created|, |created|, true);
  }

  lemma UndoMoveRestores(s: Tracked, t: Tree, u: Undo)
    requires u.UndoMove? && Undoes(t, s.inner, u)
    ensures Undone(s, u).1 && SameTree(t, Undone(s, u).0.inner)
  {
    hide ParentsRemoved, RemovedIfPresent, WrittenBack;
    var i :| 0 <= i <= |u.created|
             && Grown(t - {u.source}, s.inner - {u.source} - {u.destination}, Made(u.created, i));
    var p := u.destination;
    MadeAll(t, p);
    forall q | q in s.inner && q != p
      ensures !Within(q, p)
    {
      assert q != u.source ==> q in s.inner - {u.source} - {p};
      if q in t {
        NothingBelowMissing(t, p, q);
      }
    }
    FileGone(s, p);
    var gone := RemovedIfPresent(s, p).0;
    assert gone.inner - {u.source} == s.inner - {u.source} - {p};
    FileBack(gone, t, u.source, u.previous, Made(u.created, i));
    assert u.created[..|u.created|] == u.created;
    CleansUp(WrittenBack(gone, u.source, u.previous).0, t, p, |u.created|, i, false);
  }

  lemma UndoneRestores(s: Tracked, t: Tree, u: Undo)
    requires Undoes(t, s.inner, u)
    ensures Undone(s, u).1 && SameTree(t, Undone(s, u).0.inner)
  {
    match u
    case UndoCreate(p, created) => UndoCreateRestores(s, t, p, created);
    case UndoWrite(p, previous) => UndoWriteRestores(s, t, p, previous);
    case UndoDelete(p, previous) => UndoWriteRestores(s, t, p, previous);
    case UndoMove(_, _, _, _) => UndoMoveRestores(s, t, u);
  }

  lemma SameGrown(t: Tree, x: Tree, y: Tree, extra: set<Path>, ps: set<Path>)
    requires SameTree(x, y) && Grown(t, x - ps, extra)
    ensures Grown(t, y - ps, extra)
  {
    forall p | p in t + map q | q in extra :: DirNode(0)
      ensures p in y - ps
    {
      assert p in x - ps;
    }
  }

  /** An undo does not care about file modes. */
  lemma UndoesSame(t: Tree, x: Tree, y: Tree, u: Undo)
    requires Undoes(t, x, u) && SameTree(x, y)
    ensures Undoes(t, y, u)
  {
    hide Grown;
    match u
    case UndoCreate(p, created) => SameGrown(t, x, y, Made(created, |created|), {p});
    case UndoWrite(p, previous) => SameGrown(t - {p}, x, y, {}, {p});
    case UndoDelete(p, previous) => SameGrown(t - {p}, x, y, {}, {p});
    case UndoMove(source, destination, previous, created) =>
      var i :| 0 <= i <= |created| && Grown(t - {source}, x - {source} - {destination}, Made(created, i));
      assert x - {source} - {destination} == x - {source, destination};
      assert y - {source} - {destination} == y - {source, destination};
      SameGrown(t - {source}, x, y, Made(created, i), {source, destination});
  }

  // ---------------------------------------------------------------- every outcome of an operation

  predicate Plain(op: Op) {
    op.Write? || op.Mkdir? || op.Mv? || op.Rm?
  }

  function MakesParentsOf(op: Op): Path
    requires Plain(op)
  {
    match op
    case Write(p, _) => p
    case Mkdir(p, _) => p
    case Mv(_, p) => p
    case Rm(p, _, _) => []
  }

  /** What a mutation can leave of a tree. */
  ghost predicate Partway(x: Tree, y: Tree, op: Op)
    requires Plain(op)
  {
    y == x || (Effect(x, op).Some? && (y == Effect(x, op).value || y == WithParents(x, MakesParentsOf(op))))
  }

  lemma MutatedTree(d: Disk, op: Op)
    requires Plain(op)
    ensures var (after, ok) := Mutated(d, op);
            && Partway(d.t.inner, after.t.inner, op)
            && (ok ==> Effect(d.t.inner, op) == Some(after.t.inner))
            && (!ok ==> after.fuse.Sound?)
  {
    hide WithParents, Effect, Step;
    StepTree(d.t, op);
    HalfwayTree(d.t, op, if d.fuse.Armed? then d.fuse.fault else Nothing);
  }

  lemma HalfwayTree(t: Tracked, op: Op, fault: Fault)
    requires Plain(op)
    ensures Partway(t.inner, Halfway(t, op, fault).inner, op)
  {
    hide WithParents, Effect, Step;
    StepTree(t, op);
    if op.Rm? {
      assert ParentPaths([]) == {};
    }
  }

  lemma SelfSame(t: Tree)
    ensures SameTree(t, t)
  {
  }

  lemma CreateUndoes(t: Tree, y: Tree, p: Path, body: Body)
    requires WellFormed(t) && p !in t && Effect(t, Write(p, body)).Some?
    requires Partway(t, y, Write(p, body)) && y != t
    ensures Undoes(t, y, UndoCreate(p, MissingParents(t, p)))
  {
    MadeAll(t, p);
  }

  /** The write of a creation leaves nothing behind although parents are missing. */
  predicate CreationStalls(d: Disk, p: Path, diff: string) {
    var content := Patch.Patched("", diff, Patch.CreateMode);
    && p !in d.t.inner && content.Some? && MissingParents(d.t.inner, p) != []
    && Mutated(d, Write(p, content.value)).0.t.inner == d.t.inner
  }

  /** A failed creation is rolled back, whatever its write left behind. */
  lemma CreateRestorable(d: Disk, p: Path, diff: string)
    requires WellFormed(d.t.inner)
    ensures var (after, r) := Created(d, p, diff);
            match r
            case Done(u) => Undoes(d.t.inner, after.t.inner, u)
            case Failed(ok) => SameTree(d.t.inner, after.t.inner) && (!ok <==> CreationStalls(d, p, diff))
  {
    hide Patch.Patched, Undoes, Undone, Mutated;
    SelfSame(d.t.inner);
    var content := Patch.Patched("", diff, Patch.CreateMode);
    if p !in d.t.inner && content.Some? {
      var op := Write(p, content.value);
      var u := UndoCreate(p, MissingParents(d.t.inner, p));
      MutatedTree(d, op);
      var (after, ok) := Mutated(d, op);
      if after.t.inner != d.t.inner {
        CreateUndoes(d.t.inner, after.t.inner, p, content.value);
        UndoneRestores(after.t, d.t.inner, u);
      } else {
        assert !ok by {
          assert Effect(d.t.inner, op).Some? ==> p in Effect(d.t.inner, op).value;
        }
        NothingToUndo(after.t, u);
      }
    }
  }

  /** The undo of a creation that never happened changes nothing, though it may report an error. */
  lemma NothingToUndo(s: Tracked, u: Undo)
    requires WellFormed(s.inner) && u.UndoCreate? && u.path !in s.inner && u.created == MissingParents(s.inner, u.path)
    ensures Undone(s, u) == (s, u.created == [])
  {
    MissingShape(s.inner, u.path, 1);
  }

  lemma WriteUndoes(t: Tree, y: Tree, p: Path, body: Body)
    requires WellFormed(t) && ExistingFile(t, p) && Partway(t, y, Write(p, body))
    ensures WritesBack(t, y, p, t[p].body)
    ensures y == t || y == t[p := FileNode(body, FILE_MODE)]
  {
    forall a | a in ParentPaths(p)
      ensures a in t
    {
      AncestorsAreDirectories(t, p, a);
    }
    assert WithParents(t, p) == t;
  }

  lemma UpdateRestorable(d: Disk, p: Path, diff: string)
    requires WellFormed(d.t.inner)
    ensures var (after, r) := Updated(d, p, diff);
            match r
            case Done(u) => Undoes(d.t.inner, after.t.inner, u)
            case Failed(ok) => ok && SameTree(d.t.inner, after.t.inner)
    ensures var (after, r) := UpdatedInPlace(d, p, diff); r.Done? ==> Undoes(d.t.inner, after.t.inner, r.undo)
  {
    hide Patch.Patched, Undone, Mutated;
    SelfSame(d.t.inner);
    if ExistingFile(d.t.inner, p) {
      var previous := d.t.inner[p].body;
      var next := Patch.Patched(previous, diff, Patch.DefaultMode);
      if next.Some? {
        MutatedTree(d, Write(p, next.value));
        var (after, ok) := Mutated(d, Write(p, next.value));
        WriteUndoes(d.t.inner, after.t.inner, p, next.value);
        UndoneRestores(after.t, d.t.inner, UndoWrite(p, previous));
      }
    }
  }

  lemma RmUndoes(t: Tree, y: Tree, p: Path)
    requires WellFormed(t) && ExistingFile(t, p) && Partway(t, y, Rm(p, false, false))
    ensures WritesBack(t, y, p, t[p].body)
  {
    assert ParentPaths([]) == {};
    assert WithParents(t, []) == t;
    if Effect(t, Rm(p, false, false)).Some? {
      assert !HasChildren(t, p);
      RemoveLeaf(t, p);
      assert t - {p} - {p} == t - {p};
    }
  }

  lemma DeleteRestorable(d: Disk, p: Path)
    requires WellFormed(d.t.inner)
    ensures var (after, r) := Deleted(d, p);
            match r
            case Done(u) => Undoes(d.t.inner, after.t.inner, u)
            case Failed(ok) => ok && SameTree(d.t.inner, after.t.inner)
  {
    hide Undone, Mutated;
    SelfSame(d.t.inner);
    if ExistingFile(d.t.inner, p) {
      MutatedTree(d, Rm(p, false, false));
      var (after, ok) := Mutated(d, Rm(p, false, false));
      RmUndoes(d.t.inner, after.t.inner, p);
      UndoneRestores(after.t, d.t.inner, UndoDelete(p, d.t.inner[p].body));
    }
  }

  // ---------------------------------------------------------------- a move in its three stages

  /** The tree during a move: the source rewritten, and the first `i` of the missing parents made. */
  ghost predicate Underway(t: Tree, x: Tree, u: Undo, next: Body, i: nat)
    requires u.UndoMove? && i <= |u.created|
  {
    && WellFormed(t) && ExistingFile(t, u.source) && t[u.source].body == u.previous
    && u.destination !in t && u.created == MissingParents(t, u.destination)
    && Grown(t[u.source := FileNode(next, FILE_MODE)], x, Made(u.created, i))
  }

  lemma UnderwayUndoes(t: Tree, x: Tree, u: Undo, next: Body, i: nat)
    requires u.UndoMove? && i <= |u.created| && Underway(t, x, u, next, i)
    ensures Undoes(t, x, u) && u.source in x && x[u.source].FileNode? && u.destination !in x
  {
    MadeAll(t, u.destination);
    var w := t[u.source := FileNode(next, FILE_MODE)];
    assert u.source in w;
    assert u.destination !in Made(u.created, i);
    assert Grown(t - {u.source}, x - {u.source} - {u.destination}, Made(u.created, i));
  }

  /** Making the deepest missing parent: nothing, all but the last, or all of them. */
  lemma MkdirStage(t: Tree, x: Tree, y: Tree, u: Undo, next: Body)
    requires u.UndoMove? && u.created != [] && Underway(t, x, u, next, 0)
    requires Partway(x, y, Mkdir(u.created[|u.created| - 1], true))
    ensures exists i | 0 <= i <= |u.created| :: Underway(t, y, u, next, i)
    ensures Effect(x, Mkdir(u.created[|u.created| - 1], true)) == Some(y) ==> Underway(t, y, u, next, |u.created|)
  {
    hide Underway, WellFormed, MissingParents, Grown, Made, WithParents, ParentPaths, Effect;
    var n := |u.created|;
    var c := u.created[n - 1];
    ParentsToMake(t, x, u, next);
    if Effect(x, Mkdir(c, true)).Some? {
      MkdirEffect(x, c);
    }
    if y == WithParents(x, c) {
      assert Underway(t, y, u, next, n - 1);
    } else if y != x {
      assert Underway(t, y, u, next, n);
    } else {
      assert Underway(t, y, u, next, 0);
    }
  }

  lemma ParentsToMake(t: Tree, x: Tree, u: Undo, next: Body)
    requires u.UndoMove? && u.created != [] && Underway(t, x, u, next, 0)
    ensures var n := |u.created|;
            var c := u.created[n - 1];
            && c !in x
            && Underway(t, WithParents(x, c), u, next, n - 1)
            && Underway(t, WithParents(x, c)[c := DirNode(DIR_MODE)], u, next, n)
  {
    assert u.destination != [];
    hide WellFormed, MissingParents, Grown, Made, WithParents, ParentPaths;
    var c := u.created[|u.created| - 1];
    MadeAllButLast(t, u.destination);
    MadeAll(t, u.destination);
    var w := t[u.source := FileNode(next, FILE_MODE)];
    NoneMade(x, w, u.created);
    assert x.Keys == w.Keys == t.Keys;
    GrownByParents(w, x, c);
  }

  lemma MkdirEffect(x: Tree, c: Path)
    requires c !in x && Effect(x, Mkdir(c, true)).Some?
    ensures Effect(x, Mkdir(c, true)).value == WithParents(x, c)[c := DirNode(DIR_MODE)]
  {
  }

  lemma GrownByParents(w: Tree, x: Tree, c: Path)
    requires SameTree(w, x) && c !in w
    ensures Grown(w, WithParents(x, c), ParentPaths(c) - w.Keys)
    ensures Grown(w, WithParents(x, c)[c := DirNode(DIR_MODE)], ParentPaths(c) - w.Keys + {c})
  {
  }

  lemma OnlySourceMoves(t: Tree, x: Tree, u: Undo, next: Body)
    requires u.UndoMove? && Underway(t, x, u, next, |u.created|)
    requires Transferable(x, u.source, u.destination)
    ensures forall q :: q in x && Within(q, u.source) ==> q == u.source
  {
    MadeAll(t, u.destination);
    UnderwayUndoes(t, x, u, next, |u.created|);
    assert !(u.source < u.destination);
    forall q | q in x && q != u.source
      ensures !Within(q, u.source)
    {
      if q in t {
        if Within(q, u.source) {
          AncestorsAreDirectories(t, q, u.source);
        }
      } else {
        assert q in Made(u.created, |u.created|);
        assert q < u.destination;
      }
    }
  }

  /** Nothing but the source and the destination counts for the undo of a move. */
  lemma UndoesElsewhere(t: Tree, x: Tree, y: Tree, u: Undo, next: Body)
    requires u.UndoMove? && Underway(t, x, u, next, |u.created|)
    requires FileIfAny(y, u.source) && FileIfAny(y, u.destination)
    requires y - {u.source} - {u.destination} == x - {u.source} - {u.destination}
    ensures Undoes(t, y, u)
  {
    var w := t[u.source := FileNode(next, FILE_MODE)];
    var m := Made(u.created, |u.created|);
    MadeAll(t, u.destination);
    assert Grown(t - {u.source}, x - {u.source} - {u.destination}, m) by {
      assert u.source in w && u.destination !in m;
    }
  }

  lemma PartwayMv(x: Tree, y: Tree, source: Path, destination: Path)
    requires Partway(x, y, Mv(source, destination))
    ensures y == x || y == WithParents(x, destination)
         || (Transferable(x, source, destination) && Move(x, source, destination) == Some(y))
  {
  }

  lemma MvStage(t: Tree, x: Tree, y: Tree, u: Undo, next: Body)
    requires u.UndoMove? && Underway(t, x, u, next, |u.created|) && u.source != u.destination
    requires Partway(x, y, Mv(u.source, u.destination))
    ensures Undoes(t, y, u)
  {
    PartwayMv(x, y, u.source, u.destination);
    hide Move, Undoes, Transferable, Partway, Effect;
    UnderwayUndoes(t, x, u, next, |u.created|);
    ParentsInPlace(t, x, u, next);
    if y != x {
      OnlySourceMoves(t, x, u, next);
      MovedFile(x, u.source, u.destination);
      assert y - {u.source} - {u.destination} == x - {u.source} - {u.destination};
      UndoesElsewhere(t, x, y, u, next);
    }
  }

  lemma ParentsInPlace(t: Tree, x: Tree, u: Undo, next: Body)
    requires u.UndoMove? && Underway(t, x, u, next, |u.created|)
    ensures WithParents(x, u.destination) == x
  {
    MadeAll(t, u.destination);
    assert ParentPaths(u.destination) <= x.Keys;
  }

  lemma MovedFile(x: Tree, source: Path, destination: Path)
    requires Move(x, source, destination).Some? && x[source].FileNode?
    requires forall q :: q in x && Within(q, source) ==> q == source
    ensures source != destination
    ensures Move(x, source, destination).value == (WithParents(x, destination) - {source})[destination := x[source]]
  {
    hide WithParents;
    var w := WithParents(x, destination);
    CarriedFile(x, source, destination);
    assert !(source < destination);
    forall q | q in w && q != source
      ensures !Within(q, source)
    {
      if q !in x {
        assert q in ParentPaths(destination);
        assert q < destination;
      }
    }
  }

  lemma CarriedFile(x: Tree, source: Path, destination: Path)
    requires source in x && forall q :: q in x && Within(q, source) ==> q == source
    ensures CarriedTree(x, source, destination) == map[destination := x[source]]
  {
    assert Carried(source, source, destination) == destination;
    forall q | q in CarriedTree(x, source, destination)
      ensures q == destination
    {
    }
  }

  lemma MoveRestorable(d: Disk, p: Path, destination: Path, next: Body, u: Undo)
    requires WellFormed(d.t.inner) && ExistingFile(d.t.inner, p) && destination !in d.t.inner
    requires u == UndoMove(p, destination, d.t.inner[p].body, MissingParents(d.t.inner, destination))
    ensures var (after, r) := MovedAway(d, p, destination, next, u, u.created);
            match r
            case Done(v) => v == u && Undoes(d.t.inner, after.t.inner, u)
            case Failed(ok) => ok && SameTree(d.t.inner, after.t.inner)
  {
    hide Undone, Mutated, Underway, Undoes, Partway, WellFormed, MissingParents;
    var t := d.t.inner;
    MutatedTree(d, Write(p, next));
    var (written, ok) := Mutated(d, Write(p, next));
    FirstStage(t, written.t.inner, u, next);
    if !ok {
      UndoneRestores(written.t, t, u);
    } else {
      var made := Mkdir(if u.created == [] then [] else u.created[|u.created| - 1], true);
      var (ready, ok1) := if u.created == [] then (written, true) else Mutated(written, made);
      if u.created != [] {
        MutatedTree(written, made);
        MkdirStage(t, written.t.inner, ready.t.inner, u, next);
      }
      if !ok1 {
        var i :| 0 <= i <= |u.created| && Underway(t, ready.t.inner, u, next, i);
        UnderwayUndoes(t, ready.t.inner, u, next, i);
        UndoneRestores(ready.t, t, u);
      } else {
        MutatedTree(ready, Mv(p, destination));
        var (moved, ok2) := Mutated(ready, Mv(p, destination));
        MvStage(t, ready.t.inner, moved.t.inner, u, next);
        UndoneRestores(moved.t, t, u);
      }
    }
  }

  lemma FirstStage(t: Tree, y: Tree, u: Undo, next: Body)
    requires WellFormed(t) && u.UndoMove? && ExistingFile(t, u.source) && u.destination !in t
    requires u.previous == t[u.source].body && u.created == MissingParents(t, u.destination)
    requires Partway(t, y, Write(u.source, next))
    ensures Undoes(t, y, u)
    ensures Effect(t, Write(u.source, next)) == Some(y) ==> Underway(t, y, u, next, 0)
  {
    WriteUndoes(t, y, u.source, next);
    assert Made(u.created, 0) == {};
    assert t - {u.source} - {u.destination} == t - {u.source};
    assert y - {u.source} - {u.destination} == t - {u.source};
    assert Grown(t - {u.source}, y - {u.source} - {u.destination}, Made(u.created, 0));
    if Effect(t, Write(u.source, next)) == Some(y) {
      assert y[u.source] == FileNode(next, FILE_MODE);
      assert y == t[u.source := FileNode(next, FILE_MODE)];
    }
  }

  // ---------------------------------------------------------------- whole batches

  /** An update with a moveTo naming its own path. */
  predicate OntoItself(op: Operation) {
    op.UpdateFile? && op.moveTo == Some(op.path)
  }

  /** A finished operation hands over the undo that leads back; a failed one has gone back itself.  Its rollback
      reports an error exactly when a creation's write left nothing behind while parents were missing: listing the
      first of them fails, and the tree is restored all the same. */
  lemma AppliedRestorable(d: Disk, op: Operation)
    requires WellFormed(d.t.inner)
    ensures var (after, r) := AppliedOne(d, op);
            match r
            case Done(u) => Undoes(d.t.inner, after.t.inner, u)
            case Failed(_) => !OntoItself(op) ==> SameTree(d.t.inner, after.t.inner)
    ensures var (_, r) := AppliedOne(d, op);
            r.Failed? ==> (!r.rolledBack <==> op.CreateFile? && CreationStalls(d, op.path, op.diff))
  {
    hide Patch.Patched, Undone, Mutated, Undoes, Created, Deleted, MovedAway, WellFormed, MissingParents, CreationStalls;
    SelfSame(d.t.inner);
    match op
    case CreateFile(p, diff) => CreateRestorable(d, p, diff);
    case DeleteFile(p) => DeleteRestorable(d, p);
    case UpdateFile(p, diff, moveTo) =>
      UpdateRestorable(d, p, diff);
      if moveTo.Some? && moveTo.value != p && ExistingFile(d.t.inner, p) && moveTo.value !in d.t.inner {
        var next := Patch.Patched(d.t.inner[p].body, diff, Patch.DefaultMode);
        if next.Some? {
          MoveRestorable(d, p, moveTo.value, next.value,
                         UndoMove(p, moveTo.value, d.t.inner[p].body, MissingParents(d.t.inner, moveTo.value)));
        }
      }
  }

  lemma EffectWellFormed(t: Tree, op: Op)
    requires WellFormed(t) && Effect(t, op).Some? && Plain(op)
    ensures WellFormed(Effect(t, op).value)
  {
    hide Step, Effect, WellFormed;
    var s := Tracked(map[], map[], t.Keys, KindsOf(t), t);
    TrackingRuns.StepFaithful(s, op);
    StepTree(s, op);
    FaithfulTree(Step(s, op));
  }

  lemma DoneWellFormed(d: Disk, op: Operation)
    requires WellFormed(d.t.inner) && AppliedOne(d, op).1.Done?
    ensures WellFormed(AppliedOne(d, op).0.t.inner)
  {
    hide Patch.Patched, Undone, Mutated, WellFormed, MissingParents, Effect;
    match op
    case CreateFile(p, diff) =>
      MutatedWellFormed(d, Write(p, Patch.Patched("", diff, Patch.CreateMode).value));
    case DeleteFile(p) =>
      MutatedWellFormed(d, Rm(p, false, false));
    case UpdateFile(p, diff, moveTo) =>
      var write := Write(p, Patch.Patched(d.t.inner[p].body, diff, Patch.DefaultMode).value);
      MutatedWellFormed(d, write);
      if moveTo.Some? && moveTo.value != p {
        var created := MissingParents(d.t.inner, moveTo.value);
        var written := Mutated(d, write).0;
        if created == [] {
          MutatedWellFormed(written, Mv(p, moveTo.value));
        } else {
          var made := Mkdir(created[|created| - 1], true);
          MutatedWellFormed(written, made);
          MutatedWellFormed(Mutated(written, made).0, Mv(p, moveTo.value));
        }
      }
  }

  lemma MutatedWellFormed(d: Disk, op: Op)
    requires WellFormed(d.t.inner) && Plain(op)
    ensures Mutated(d, op).1 ==> WellFormed(Mutated(d, op).0.t.inner)
  {
    MutatedTree(d, op);
    if Mutated(d, op).1 {
      EffectWellFormed(d.t.inner, op);
    }
  }

  function PathsOf(u: Undo): set<Path> {
    if u.UndoMove? then {u.source, u.destination} else {u.path}
  }

  function Touched(undos: seq<Undo>): set<Path> {
    if undos == [] then {} else Touched(undos[..|undos| - 1]) + PathsOf(undos[|undos| - 1])
  }

  /** The undos, run from the last to the first, lead from `x` back to the start. */
  ghost predicate Unwinds(start: Tree, x: Tree, undos: seq<Undo>)
    decreases |undos|
  {
    if undos == [] then SameTree(start, x)
    else
      var u := undos[|undos| - 1];
      var rest := undos[..|undos| - 1];
      exists t: Tree :: Undoes(t, x, u) && Unwinds(start, t, rest)
  }

  lemma {:induction false} UnwindsSame(start: Tree, x: Tree, y: Tree, undos: seq<Undo>)
    requires Unwinds(start, x, undos) && SameTree(x, y)
    ensures Unwinds(start, y, undos)
  {
    hide Undoes;
    if undos != [] {
      var t: Tree :| Undoes(t, x, undos[|undos| - 1]) && Unwinds(start, t, undos[..|undos| - 1]);
      UndoesSame(t, x, y, undos[|undos| - 1]);
    }
  }

  lemma {:induction false} AllUndoneRestores(start: Tree, s: Tracked, undos: seq<Undo>)
    requires Unwinds(start, s.inner, undos)
    ensures AllUndone(s, undos).1 && SameTree(start, AllUndone(s, undos).0.inner)
    decreases |undos|
  {
    hide Undoes, Undone, SameTree;
    if undos != [] {
      var u, rest := undos[|undos| - 1], undos[..|undos| - 1];
      var t: Tree :| Undoes(t, s.inner, u) && Unwinds(start, t, rest);
      UndoneRestores(s, t, u);
      UnwindsSame(start, t, Undone(s, u).0.inner, rest);
      AllUndoneRestores(start, Undone(s, u).0, rest);
    }
  }

  /** No operation that writes without a rollback can be struck after its write took effect. */
  predicate Covered(fuse: Fuse, ops: seq<Operation>) {
    fuse.Armed? && fuse.fault.Complete? ==> forall i :: 0 <= i < |ops| ==> !OntoItself(ops[i])
  }

  lemma OntoItselfStruckHarmlessly(d: Disk, op: Operation)
    requires WellFormed(d.t.inner) && OntoItself(op) && AppliedOne(d, op).1.Failed?
    requires !(d.fuse.Armed? && d.fuse.fault.Complete?)
    ensures AppliedOne(d, op).0.t.inner == d.t.inner
  {
    hide Patch.Patched, Undone;
    var p := op.path;
    if ExistingFile(d.t.inner, p) {
      var next := Patch.Patched(d.t.inner[p].body, op.diff, Patch.DefaultMode);
      if next.Some? {
        forall a | a in ParentPaths(p)
          ensures a in d.t.inner
        {
          AncestorsAreDirectories(d.t.inner, p, a);
        }
        assert WithParents(d.t.inner, p) == d.t.inner;
      }
    }
  }

  lemma FuseBurns(d: Disk, op: Operation)
    ensures var f := AppliedOne(d, op).0.fuse; f.Sound? || (d.fuse.Armed? && f.fault == d.fuse.fault)
  {
    hide Patch.Patched, Undone, Step, Effect, Halfway, MissingParents;
  }

  lemma {:induction false} ExecutedUnwinds(start: Tree, p: Progress, ops: seq<Operation>, limit: nat)
    requires p.failure.None? && WellFormed(p.disk.t.inner) && Unwinds(start, p.disk.t.inner, p.undos)
    requires Covered(p.disk.fuse, ops)
    ensures var r := Executed(p, ops, limit); Unwinds(start, r.disk.t.inner, r.undos)
    decreases |ops|
  {
    hide AppliedOne, Undoes, WellFormed, SameTree, TooLarge;
    if ops != [] && !TooLarge(ops[0], limit) {
      var (after, r) := AppliedOne(p.disk, ops[0]);
      AppliedRestorable(p.disk, ops[0]);
      match r
      case Failed(_) =>
        if OntoItself(ops[0]) {
          OntoItselfStruckHarmlessly(p.disk, ops[0]);
          SelfSame(p.disk.t.inner);
        }
        UnwindsSame(start, p.disk.t.inner, after.t.inner, p.undos);
      case Done(u) =>
        DoneWellFormed(p.disk, ops[0]);
        FuseBurns(p.disk, ops[0]);
        assert (p.undos + [u])[..|p.undos|] == p.undos;
        assert Undoes(p.disk.t.inner, after.t.inner, (p.undos + [u])[|p.undos|]);
        ExecutedUnwinds(start, Progress(after, p.undos + [u], None), ops[1..], limit);
    }
  }

  /** Every file has the mode that writing gives it. */
  predicate DefaultModes(t: Tree) {
    forall p :: p in t && t[p].FileNode? ==> t[p].mode == FILE_MODE
  }

  /** All or nothing: whichever operation fails, for whatever reason, and whatever its failing mutation left
      behind, the tree is the one before the batch, up to file modes. */
  lemma AllOrNothingRestores(t: Tracked, fuse: Fuse, ops: seq<Operation>, limit: nat)
    requires WellFormed(t.inner) && Covered(fuse, ops)
    ensures var (s, r) := Batch(t, fuse, ops, limit, AllOrNothing);
            r.Aborted? ==> SameTree(t.inner, s.inner)
  {
    hide Executed, AllUndone, SameTree, WellFormed;
    var p0 := Progress(Disk(t, fuse), [], None);
    SelfSame(t.inner);
    assert Unwinds(t.inner, t.inner, []);
    ExecutedUnwinds(t.inner, p0, ops, limit);
    var p := Executed(p0, ops, limit);
    AllUndoneRestores(t.inner, p.disk.t, p.undos);
  }

  // ---------------------------------------------------------------- where the promise ends

  /** Struck after its write took effect, an update onto its own path is restored only if the diff changes
      nothing: that branch has no rollback of its own. */
  lemma OntoItselfRestoredIff(t: Tracked, op: Operation, limit: nat)
    requires WellFormed(t.inner) && OntoItself(op) && !TooLarge(op, limit) && ExistingFile(t.inner, op.path)
    requires Patch.Patched(t.inner[op.path].body, op.diff, Patch.DefaultMode).Some?
    requires op.path != []
    ensures var (s, r) := Batch(t, Armed(0, Complete), [op], limit, AllOrNothing);
            && r.Aborted?
            && (SameTree(t.inner, s.inner)
                <==> Patch.Patched(t.inner[op.path].body, op.diff, Patch.DefaultMode) == Some(t.inner[op.path].body))
  {
    hide Patch.Patched, TooLarge;
    var p := op.path;
    var next := Patch.Patched(t.inner[p].body, op.diff, Patch.DefaultMode).value;
    forall a | a in ParentPaths(p)
      ensures a in t.inner
    {
      AncestorsAreDirectories(t.inner, p, a);
    }
    forall a | a in t.inner && a < p
      ensures t.inner[a].DirNode?
    {
      AncestorsAreDirectories(t.inner, p, a);
    }
    assert WithParents(t.inner, p) == t.inner;
    StepTree(t, Write(p, next));
    assert Step(t, Write(p, next)).inner == t.inner[p := FileNode(next, FILE_MODE)];
    var d := Disk(t, Armed(0, Complete));
    assert AppliedOne(d, op) == (Disk(Step(t, Write(p, next)), Sound), Failed(true));
    assert Executed(Progress(d, [], None), [op], limit) == Progress(Disk(Step(t, Write(p, next)), Sound), [], Some(true));
  }
}
