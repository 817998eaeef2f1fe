/** What a failed all-or-nothing batch leaves in the pending change set. */
module ExecutorPending {
  import opened Types
  import opened MemoryTree
  import opened Tracking
  import opened TrackingRuns
  import opened Executor
  import opened ExecutorTree
  import opened ExecutorRestore
  import opened ExecutorSteps

  // ---------------------------------------------------------------- states a batch passes through

  /** Directories and links, which no operation touches. */
  function FixedOf(t: Tree): set<Path> {
    set p | p in t && !t[p].FileNode?
  }

  /** What was fixed at the start is still there, and nothing is pending for it. */
  ghost predicate FixedSpared(fixed: set<Path>, s: Tracked) {
    forall d :: d in fixed ==> d in s.inner && !s.inner[d].FileNode? && d !in s.upserts && d !in s.deletions
  }

  ghost predicate Tame(fixed: set<Path>, s: Tracked) {
    Faithful(s) && DefaultModes(s.inner) && FixedSpared(fixed, s)
  }

  /** Steps that leave alone what was fixed at the start. */
  ghost predicate Gentle(fixed: set<Path>, s: Tracked, op: Op) {
    match op
    case Write(_, _) => true
    case Mkdir(_, _) => true
    case Rm(p, recursive, _) => p !in fixed && !recursive
    case Mv(source, _) => ExistingFile(s.inner, source)
    case _ => false
  }

  /** Pending uploads of files that are what the baseline already holds. */
  function Excess(s: Tracked): set<Path> {
    set p | p in s.upserts && p in s.baseline && ExistingFile(s.inner, p) && Agrees(s.inner[p], s.baseline[p])
  }

  lemma MatchesIffAgrees(s: Tracked, p: Path)
    requires GoodBaseline(s.baseline) && ExistingFile(s.inner, p)
    ensures MatchesBaseline(s, p) <==> p in s.baseline && Agrees(s.inner[p], s.baseline[p])
  {
    if p in s.baseline {
      assert Honest(s.baseline[p]);
    }
  }

  // ---------------------------------------------------------------- one step

  lemma StepDefaultModes(s: Tracked, op: Op)
    requires Plain(op) && DefaultModes(s.inner)
    ensures DefaultModes(Step(s, op).inner)
  {
    hide Step;
    StepTree(s, op);
  }

  lemma WithinFileIsItself(t: Tree, p: Path)
    requires WellFormed(t) && p in t && (t[p].FileNode? || !HasChildren(t, p)) && p != []
    ensures EntriesWithin(KindsOf(t), p).Keys == {p}
  {
    forall q | q in t && Within(q, p)
      ensures q == p
    {
      if q != p {
        AncestorsAreDirectories(t, q, p);
      }
    }
  }

  lemma WriteSpares(fixed: set<Path>, s: Tracked, p: Path, body: Body)
    requires Faithful(s) && FixedSpared(fixed, s)
    ensures FixedSpared(fixed, Step(s, Write(p, body)))
  {
    hide WithParents, AllParents;
    StepTree(s, Write(p, body));
  }

  lemma MkdirSpares(fixed: set<Path>, s: Tracked, p: Path, recursive: bool)
    requires Faithful(s) && FixedSpared(fixed, s)
    ensures FixedSpared(fixed, Step(s, Mkdir(p, recursive)))
  {
    hide WithParents, AllParents;
    StepTree(s, Mkdir(p, recursive));
  }

  lemma RmSpares(fixed: set<Path>, s: Tracked, p: Path)
    requires Faithful(s) && FixedSpared(fixed, s) && p !in fixed
    ensures FixedSpared(fixed, Step(s, Rm(p, false, false)))
  {
    StepTree(s, Rm(p, false, false));
    if Effect(s.inner, Rm(p, false, false)).Some? && p != [] {
      WithinFileIsItself(s.inner, p);
    }
  }

  /** A moved file: the tree and the tracked changes. */
  lemma MvOfFile(s: Tracked, source: Path, destination: Path)
    requires Faithful(s) && ExistingFile(s.inner, source) && Effect(s.inner, Mv(source, destination)).Some?
    ensures source != destination && (destination in s.inner ==> s.inner[destination].FileNode?)
    ensures var r := Step(s, Mv(source, destination));
            && r.inner == (WithParents(s.inner, destination) - {source})[destination := s.inner[source]]
            && r.upserts == s.upserts - {source} + {destination}
            && r.deletions.Keys == s.deletions.Keys + ({source} * s.baseline.Keys) - {destination}
            && r.baseline == s.baseline
  {
    assert Transferable(s.inner, source, destination);
    hide AllParents, WithParents, Move, RecordUpserts, RecordDeletions, CarriedKinds, KindsOf, WellFormed, Step;
    FaithfulTree(s);
    hide Faithful;
    var moved := EntriesWithin(s.kinds, source);
    OnlyItself(s.inner, source);
    MovedFile(s.inner, source, destination);
    StepMv(s, source, destination);
    hide EntriesWithin, Carried;
    OneCarriedKind(moved, source, destination);
    MoveRecorded(s.(inner := Move(s.inner, source, destination).value), source, CarriedKinds(moved, source, destination));
  }

  lemma StepMv(s: Tracked, source: Path, destination: Path)
    requires Move(s.inner, source, destination).Some?
    ensures var moved := EntriesWithin(s.kinds, source);
            var rest := RecordDeletions(s.(inner := Move(s.inner, source, destination).value), moved.Keys);
            Step(s, Mv(source, destination)) == RecordUpserts(rest, CarriedKinds(moved, source, destination))
  {
    hide Move, RecordUpserts, RecordDeletions, EntriesWithin, CarriedKinds;
  }

  lemma OnlyItself(t: Tree, p: Path)
    requires WellFormed(t) && ExistingFile(t, p)
    ensures EntriesWithin(KindsOf(t), p).Keys == {p}
    ensures forall q :: q in t && Within(q, p) ==> q == p
  {
    WithinFileIsItself(t, p);
    forall q | q in t && Within(q, p)
      ensures q == p
    {
      assert q in EntriesWithin(KindsOf(t), p).Keys;
    }
  }

  lemma OneCarriedKind(moved: map<Path, Kind>, source: Path, destination: Path)
    requires moved.Keys == {source}
    ensures CarriedKinds(moved, source, destination).Keys == {destination}
  {
    assert Carried(source, source, destination) == destination;
    assert Carried(destination, destination, source) == source;
  }

  lemma MoveRecorded(s: Tracked, source: Path, ks: map<Path, Kind>)
    ensures var r := RecordUpserts(RecordDeletions(s, {source}), ks);
            && r.inner == s.inner && r.baseline == s.baseline
            && r.upserts == s.upserts - {source} + ks.Keys
            && r.deletions.Keys == s.deletions.Keys + ({source} * s.baseline.Keys) - ks.Keys
  {
  }

  lemma MvSpares(fixed: set<Path>, s: Tracked, source: Path, destination: Path)
    requires Faithful(s) && FixedSpared(fixed, s) && ExistingFile(s.inner, source)
    ensures FixedSpared(fixed, Step(s, Mv(source, destination)))
  {
    hide Step, WithParents, WellFormed, KindsOf, Move, GoodBaseline, Kept, Agrees;
    if Effect(s.inner, Mv(source, destination)).Some? {
      MvOfFile(s, source, destination);
    } else {
      RefusedChangesNothing(s, Mv(source, destination));
    }
  }

  lemma TameStep(fixed: set<Path>, s: Tracked, op: Op)
    requires Tame(fixed, s) && Plain(op) && Gentle(fixed, s, op)
    ensures Tame(fixed, Step(s, op)) && Step(s, op).baseline == s.baseline
  {
    hide Step, Faithful, FixedSpared, DefaultModes, ExistingFile;
    StepFaithful(s, op);
    StepKeepsBaseline(s, op);
    StepDefaultModes(s, op);
    match op
    case Write(p, body) => WriteSpares(fixed, s, p, body);
    case Mkdir(p, recursive) => MkdirSpares(fixed, s, p, recursive);
    case Rm(p, _, force) => RmSpares(fixed, s, p); RmForce(s, p, force);
    case Mv(source, destination) => MvSpares(fixed, s, source, destination);
  }

  lemma RmForce(s: Tracked, p: Path, force: bool)
    requires Faithful(s)
    ensures Step(s, Rm(p, false, force)) == Step(s, Rm(p, false, false))
  {
    if p !in s.inner {
      NothingWithinAbsent(s.inner, p);
      assert EntriesWithin(s.kinds, p).Keys == {};
      NothingDeleted(s);
    }
  }

  // ---------------------------------------------------------------- how steps change the excess

  /** A write to a path whose change is known, or with a text the baseline does not hold, leaves no excess there. */
  predicate Settles(s: Tracked, p: Path, body: Body) {
    Changed(s, p) || !(p in s.baseline && Agrees(FileNode(body, FILE_MODE), s.baseline[p]))
  }

  lemma WriteExcess(s: Tracked, p: Path, body: Body)
    requires Faithful(s) && Effect(s.inner, Write(p, body)).Some?
    ensures Excess(Step(s, Write(p, body))) == if Settles(s, p, body) then Excess(s) - {p} else Excess(s) + {p}
  {
    hide AllParents, ParentPaths, KindsWith, KindsOf, WellFormed, Honest, HashOf, MatchesBaseline;
    var inner := Effect(s.inner, Write(p, body)).value;
    var u := RecordUpserts(s.(inner := inner), map[p := File]);
    assert (map[p := File]).Keys == {p};
    assert inner[p] == FileNode(body, FILE_MODE);
    MatchesIffAgrees(u, p);
    var r := Step(s, Write(p, body));
    forall q | q != p
      ensures q in Excess(r) <==> q in Excess(s)
    {
    }
  }

  lemma RmExcess(s: Tracked, p: Path)
    requires Faithful(s) && Effect(s.inner, Rm(p, false, false)).Some? && p != []
    ensures Excess(Step(s, Rm(p, false, false))) == Excess(s) - {p}
    ensures forall q :: q != p ==> (Changed(Step(s, Rm(p, false, false)), q) <==> Changed(s, q))
    ensures p in s.baseline ==> Changed(Step(s, Rm(p, false, false)), p)
  {
    WithinFileIsItself(s.inner, p);
    RemoveLeaf(s.inner, p);
    hide WellFormed, KindsOf, GoodBaseline, Agrees, EntriesWithin;
  }

  lemma MkdirExcess(s: Tracked, p: Path, recursive: bool)
    requires Faithful(s)
    ensures Excess(Step(s, Mkdir(p, recursive))) == Excess(s)
    ensures forall q :: Changed(s, q) && q in s.inner ==> Changed(Step(s, Mkdir(p, recursive)), q)
  {
    hide AllParents, ParentPaths, KindsWith, KindsOf, WellFormed, Agrees, WithParents, Placeable;
  }

  lemma MvExcess(s: Tracked, source: Path, destination: Path)
    requires Faithful(s) && ExistingFile(s.inner, source) && Effect(s.inner, Mv(source, destination)).Some?
    ensures Excess(Step(s, Mv(source, destination))) - {source, destination} == Excess(s) - {source, destination}
    ensures source !in Step(s, Mv(source, destination)).inner
  {
    hide Step, WithParents, Faithful, Effect, Agrees;
    MvOfFile(s, source, destination);
  }

  // ---------------------------------------------------------------- undos

  /** Cleaning up parents that are new touches no file. */
  lemma {:induction false} ParentsRemovedTame(fixed: set<Path>, s: Tracked, parents: seq<Path>, strict: bool)
    requires Tame(fixed, s) && forall i :: 0 <= i < |parents| ==> parents[i] != [] && parents[i] !in fixed
    ensures var r := ParentsRemoved(s, parents, strict).0;
            Tame(fixed, r) && r.baseline == s.baseline && Excess(r) == Excess(s)
    decreases |parents|
  {
    hide Tame, Step, HasChildren, Excess, Effect;
    if parents != [] {
      var p, rest := parents[|parents| - 1], parents[..|parents| - 1];
      ParentsRemovedTame(fixed, s, rest, strict);
      if p in s.inner && s.inner[p].DirNode? && !HasChildren(s.inner, p) {
        TameStep(fixed, s, Rm(p, false, false));
        TameFacts(fixed, s);
        DirRemovedExcess(s, p);
        ParentsRemovedTame(fixed, Step(s, Rm(p, false, false)), rest, strict);
      }
    }
  }

  lemma TameFacts(fixed: set<Path>, s: Tracked)
    requires Tame(fixed, s)
    ensures Faithful(s) && DefaultModes(s.inner)
  {
  }

  lemma DirRemovedExcess(s: Tracked, p: Path)
    requires Faithful(s) && p in s.inner && s.inner[p].DirNode? && !HasChildren(s.inner, p) && p != []
    ensures Excess(Step(s, Rm(p, false, false))) == Excess(s)
  {
    hide Step;
    RemoveLeaf(s.inner, p);
    RmExcess(s, p);
  }

  function Source(u: Undo): Path {
    if u.UndoMove? then u.source else u.path
  }

  /** The undo removes nothing that was fixed at the start. */
  ghost predicate Harmless(fixed: set<Path>, u: Undo) {
    match u
    case UndoCreate(p, created) => p != [] && p !in fixed && forall i :: 0 <= i < |created| ==> created[i] != [] && created[i] !in fixed
    case UndoWrite(_, _) => true
    case UndoDelete(_, _) => true
    case UndoMove(source, p, _, created) =>
      source != p && p != [] && p !in fixed && forall i :: 0 <= i < |created| ==> created[i] != [] && created[i] !in fixed
  }

  /** What the undo writes back leaves no excess. */
  predicate UndoSettles(s: Tracked, u: Undo) {
    u.UndoCreate? || Settles(s, Source(u), u.previous)
  }

  lemma RemovedTame(fixed: set<Path>, s: Tracked, p: Path)
    requires Tame(fixed, s) && p != [] && p !in fixed && RemovedIfPresent(s, p).1
    ensures var r := RemovedIfPresent(s, p).0;
            && Tame(fixed, r) && r.baseline == s.baseline && Excess(r) == Excess(s) - {p}
            && forall q :: q != p ==> (Changed(r, q) <==> Changed(s, q))
  {
    hide Step;
    if p in s.inner {
      TameStep(fixed, s, Rm(p, false, false));
      RmExcess(s, p);
    }
  }

  lemma WrittenBackTame(fixed: set<Path>, s: Tracked, p: Path, previous: Body)
    requires Tame(fixed, s) && WrittenBack(s, p, previous).1
    ensures var r := WrittenBack(s, p, previous).0;
            && Tame(fixed, r) && r.baseline == s.baseline
            && Excess(r) == if Settles(s, p, previous) then Excess(s) - {p} else Excess(s) + {p}
  {
    hide Step, Excess, Settles;
    TameStep(fixed, s, Write(p, previous));
    WriteExcess(s, p, previous);
  }

  /** An undo that runs through takes the excess off the paths it rewrites, unless it has to write a file back
      that the tracker holds to be unchanged. */
  lemma UndoneTame(fixed: set<Path>, s: Tracked, u: Undo)
    requires Tame(fixed, s) && Harmless(fixed, u) && Undone(s, u).1
    ensures var r := Undone(s, u).0;
            && Tame(fixed, r) && r.baseline == s.baseline
            && Excess(r) == Excess(s) - PathsOf(u) + if UndoSettles(s, u) then {} else {Source(u)}
  {
    hide Tame, Step, Excess, ParentsRemoved, Effect, Agrees;
    match u
    case UndoCreate(p, created) =>
      RemovedTame(fixed, s, p);
      ParentsRemovedTame(fixed, RemovedIfPresent(s, p).0, created, true);
    case UndoWrite(p, previous) => WrittenBackTame(fixed, s, p, previous);
    case UndoDelete(p, previous) => WrittenBackTame(fixed, s, p, previous);
    case UndoMove(source, destination, previous, created) =>
      RemovedTame(fixed, s, destination);
      var gone := RemovedIfPresent(s, destination).0;
      WrittenBackTame(fixed, gone, source, previous);
      ParentsRemovedTame(fixed, WrittenBack(gone, source, previous).0, created, false);
  }

  // ---------------------------------------------------------------- the steps of one operation

  predicate HasText(t: Tree, p: Path, text: Body) {
    ExistingFile(t, p) && t[p].body == text
  }

  /** What holds after some steps of an operation: the excess has changed on its paths only, and a file that still has
      its text has been written with it once. */
  ghost predicate Midway(fixed: set<Path>, t: Tracked, s: Tracked, u: Undo) {
    && Tame(fixed, s) && s.baseline == t.baseline
    && Excess(s) - PathsOf(u) == Excess(t) - PathsOf(u)
    && (!u.UndoCreate? && HasText(s.inner, Source(u), u.previous) ==>
          (Source(u) in Excess(s) <==> !Settles(t, Source(u), u.previous)))
  }

  /** Where the baseline holds the text, a file is changed if it has another one, or is in excess. */
  lemma ChangedIff(s: Tracked, p: Path, text: Body)
    requires Faithful(s) && DefaultModes(s.inner) && HeldText(s.baseline, p, text)
    ensures Changed(s, p) <==> p in Excess(s) || !HasText(s.inner, p, text)
    ensures Settles(s, p, text) <==> Changed(s, p)
    ensures p in Excess(s) ==> HasText(s.inner, p, text)
  {
    if Changed(s, p) {
      assert p in s.deletions ==> !Kept(s, p);
    } else {
      assert Kept(s, p);
    }
  }

  /** The baseline has the file with this text, and the mode that writing gives. */
  predicate HeldText(baseline: map<Path, RemoteEntry>, p: Path, text: Body) {
    p in baseline && Agrees(FileNode(text, FILE_MODE), baseline[p])
  }

  lemma InPlaceWrite(fixed: set<Path>, s: Tracked, p: Path, body: Body)
    requires Tame(fixed, s) && ExistingFile(s.inner, p)
    ensures var r := Step(s, Write(p, body));
            && Effect(s.inner, Write(p, body)).Some?
            && Tame(fixed, r) && r.baseline == s.baseline && r.inner == s.inner[p := FileNode(body, FILE_MODE)]
            && Excess(r) == if Settles(s, p, body) then Excess(s) - {p} else Excess(s) + {p}
  {
    hide Step, Excess, Settles;
    FaithfulTree(s);
    WriteInPlace(s.inner, p, body);
    TameStep(fixed, s, Write(p, body));
    WriteExcess(s, p, body);
    StepTree(s, Write(p, body));
  }

  lemma FirstWrite(fixed: set<Path>, t: Tracked, p: Path, body: Body, u: Undo)
    requires Tame(fixed, t) && ExistingFile(t.inner, p)
    requires !u.UndoCreate? && Source(u) == p && u.previous == t.inner[p].body
    ensures Midway(fixed, t, Step(t, Write(p, body)), u)
  {
    hide Step, Excess, Settles, Tame;
    InPlaceWrite(fixed, t, p, body);
  }

  lemma FileHasNoChildren(t: Tree, p: Path)
    requires WellFormed(t) && ExistingFile(t, p)
    ensures p != [] && !HasChildren(t, p)
  {
    OnlyItself(t, p);
  }

  lemma FirstRemove(fixed: set<Path>, t: Tracked, p: Path, u: Undo)
    requires Tame(fixed, t) && ExistingFile(t.inner, p) && u == UndoDelete(p, t.inner[p].body)
    ensures Midway(fixed, t, Step(t, Rm(p, false, false)), u)
    ensures Effect(t.inner, Rm(p, false, false)).Some?
  {
    hide Step, Excess, Agrees, Settles, Changed, Effect, HasChildren;
    FaithfulTree(t);
    FileHasNoChildren(t.inner, p);
    RemoveLeaf(t.inner, p);
    StepTree(t, Rm(p, false, false));
    TameStep(fixed, t, Rm(p, false, false));
    RmExcess(t, p);
  }

  lemma FirstCreate(fixed: set<Path>, t: Tracked, p: Path, body: Body, u: Undo)
    requires Tame(fixed, t) && u.UndoCreate? && u.path == p
    ensures Midway(fixed, t, Step(t, Write(p, body)), u)
  {
    hide Step, Excess;
    TameStep(fixed, t, Write(p, body));
    if Effect(t.inner, Write(p, body)).Some? {
      WriteExcess(t, p, body);
    } else {
      RefusedChangesNothing(t, Write(p, body));
    }
  }

  lemma MidwayMkdir(fixed: set<Path>, t: Tracked, s: Tracked, u: Undo, c: Path)
    requires Midway(fixed, t, s, u) && u.UndoMove? && ExistingFile(s.inner, u.source)
    ensures Midway(fixed, t, Step(s, Mkdir(c, true)), u) && ExistingFile(Step(s, Mkdir(c, true)).inner, u.source)
  {
    hide Step, Excess, Agrees;
    TameStep(fixed, s, Mkdir(c, true));
    MkdirExcess(s, c, true);
    StepTree(s, Mkdir(c, true));
  }

  lemma MidwayMv(fixed: set<Path>, t: Tracked, s: Tracked, u: Undo)
    requires Midway(fixed, t, s, u) && u.UndoMove? && ExistingFile(s.inner, u.source)
    ensures Midway(fixed, t, Step(s, Mv(u.source, u.destination)), u)
  {
    hide Step, Excess, Agrees;
    TameStep(fixed, s, Mv(u.source, u.destination));
    if Effect(s.inner, Mv(u.source, u.destination)).Some? {
      MvExcess(s, u.source, u.destination);
    } else {
      RefusedChangesNothing(s, Mv(u.source, u.destination));
    }
  }

  lemma AfterAll(t: Tracked, op: Operation, k: nat)
    requires Script(t.inner, op).Some? && 0 < k <= |Script(t.inner, op).value.0|
    ensures var (ops, u) := Script(t.inner, op).value;
            && (k == 1 ==> After(t, ops, k) == Step(t, ops[0]))
            && (k == 2 ==> After(t, ops, k) == Step(Step(t, ops[0]), ops[1]))
            && (k == 3 ==> After(t, ops, k) == Step(Step(Step(t, ops[0]), ops[1]), ops[2]))
            && |ops| <= 3
  {
    hide Step, Run, Patch.Patched, MissingParents;
    var (ops, u) := Script(t.inner, op).value;
    AfterSteps(t, ops, k);
  }

  lemma AfterSteps(t: Tracked, ops: seq<Op>, k: nat)
    requires 0 < k <= |ops|
    ensures k == 1 ==> After(t, ops, k) == Step(t, ops[0])
    ensures k == 2 ==> After(t, ops, k) == Step(Step(t, ops[0]), ops[1])
    ensures k == 3 ==> After(t, ops, k) == Step(Step(Step(t, ops[0]), ops[1]), ops[2])
  {
    hide Step;
    assert [ops[0]] + ops[1..] == ops;
    AfterOne(t, ops[0], ops[1..]);
    if k > 1 {
      var s := Step(t, ops[0]);
      AfterMore(t, ops[0], ops[1..], k - 1);
      assert [ops[1]] + ops[2..] == ops[1..];
      AfterOne(s, ops[1], ops[2..]);
      if k > 2 {
        AfterMore(s, ops[1], ops[2..], k - 2);
        assert [ops[2]] + ops[3..] == ops[2..];
        AfterOne(Step(s, ops[1]), ops[2], ops[3..]);
      }
    }
  }

  lemma ScriptMidway(fixed: set<Path>, t: Tracked, op: Operation, k: nat)
    requires Tame(fixed, t) && Script(t.inner, op).Some? && 0 < k <= |Script(t.inner, op).value.0|
    ensures var (ops, u) := Script(t.inner, op).value; Midway(fixed, t, After(t, ops, k), u)
  {
    hide Step, Run, Patch.Patched, MissingParents, Midway, Tame, After;
    var (ops, u) := Script(t.inner, op).value;
    AfterAll(t, op, k);
    match op
    case CreateFile(p, _) => FirstCreate(fixed, t, p, ops[0].body, u);
    case DeleteFile(p) => FirstRemove(fixed, t, p, u);
    case UpdateFile(p, _, _) =>
      FirstWrite(fixed, t, p, ops[0].body, u);
      if k > 1 {
        var s := Step(t, ops[0]);
        SourceStays(fixed, t, p, ops[0].body);
        if u.created == [] {
          MidwayMv(fixed, t, s, u);
        } else {
          MidwayMkdir(fixed, t, s, u, ops[1].path);
          if k > 2 {
            MidwayMv(fixed, t, Step(s, ops[1]), u);
          }
        }
      }
  }

  lemma SourceStays(fixed: set<Path>, t: Tracked, p: Path, body: Body)
    requires Tame(fixed, t) && ExistingFile(t.inner, p)
    ensures ExistingFile(Step(t, Write(p, body)).inner, p)
  {
    StepTree(t, Write(p, body));
  }

  // ---------------------------------------------------------------- the steps can be undone

  lemma StepPartway(t: Tracked, op: Op)
    requires Plain(op)
    ensures Partway(t.inner, Step(t, op).inner, op)
    ensures Effect(t.inner, op).Some? ==> Effect(t.inner, op) == Some(Step(t, op).inner)
    ensures Effect(t.inner, op).None? ==> Step(t, op) == t
  {
    hide Step, Effect, WithParents;
    StepTree(t, op);
    RefusedChangesNothing(t, op);
  }

  /** When the parents of a destination cannot be made, nothing can be moved there. */
  lemma NoParentsNoMove(x: Tree, c: Path, source: Path, destination: Path)
    requires c !in x && c != [] && c < destination && Effect(x, Mkdir(c, true)).None?
    ensures Effect(x, Mv(source, destination)).None?
  {
    assert exists a :: a in x && a < c && !x[a].DirNode?;
  }

  lemma EffectOfWrite(t: Tree, p: Path, body: Body)
    ensures Effect(t, Write(p, body)) == WriteFile(t, p, body)
  {
  }

  lemma MoveStepsUndo(t: Tracked, op: Operation, k: nat)
    requires WellFormed(t.inner) && Script(t.inner, op).Some? && 0 < k <= |Script(t.inner, op).value.0|
    requires Script(t.inner, op).value.1.UndoMove?
    ensures var (ops, u) := Script(t.inner, op).value; Undoes(t.inner, After(t, ops, k).inner, u)
  {
    hide Step, Effect, Run, Patch.Patched, MissingParents, After, Partway, Undoes, Underway, WellFormed;
    var (ops, u) := Script(t.inner, op).value;
    var next := ops[0].body;
    AfterAll(t, op, k);
    var s := Step(t, ops[0]);
    StepPartway(t, ops[0]);
    WriteInPlace(t.inner, op.path, next);
    EffectOfWrite(t.inner, op.path, next);
    FirstStage(t.inner, s.inner, u, next);
    if k > 1 {
      StepPartway(s, ops[1]);
      if u.created == [] {
        MvStage(t.inner, s.inner, Step(s, ops[1]).inner, u, next);
      } else {
        MkdirStage(t.inner, s.inner, Step(s, ops[1]).inner, u, next);
        MkdirThenMv(t, s, u, next, k == 3);
      }
    }
  }

  lemma MkdirThenMv(t: Tracked, s: Tracked, u: Undo, next: Body, both: bool)
    requires u.UndoMove? && u.created != [] && Underway(t.inner, s.inner, u, next, 0) && u.source != u.destination
    ensures var made := Mkdir(u.created[|u.created| - 1], true);
            var x := Step(s, made);
            Undoes(t.inner, (if both then Step(x, Mv(u.source, u.destination)) else x).inner, u)
  {
    hide Step, Effect, MissingParents, Partway, Undoes, Underway, WellFormed;
    var c := u.created[|u.created| - 1];
    var made := Mkdir(c, true);
    var x := Step(s, made);
    StepPartway(s, made);
    MkdirStage(t.inner, s.inner, x.inner, u, next);
    var i :| 0 <= i <= |u.created| && Underway(t.inner, x.inner, u, next, i);
    UnderwayUndoes(t.inner, x.inner, u, next, i);
    if both {
      var mv := Mv(u.source, u.destination);
      StepPartway(x, mv);
      if Effect(s.inner, made).None? {
        ParentsToMake(t.inner, s.inner, u, next);
        DeepestParent(t.inner, s.inner, u, next);
        NoParentsNoMove(s.inner, c, u.source, u.destination);
      } else {
        MvStage(t.inner, x.inner, Step(x, mv).inner, u, next);
      }
    }
  }

  lemma DeepestParent(t: Tree, x: Tree, u: Undo, next: Body)
    requires u.UndoMove? && u.created != [] && Underway(t, x, u, next, 0)
    ensures var c := u.created[|u.created| - 1]; c != [] && c < u.destination
  {
    MadeAll(t, u.destination);
  }

  /** From every state within an operation its undo runs through; a refused creation has nothing to undo. */
  lemma ScriptUndone(t: Tracked, op: Operation, k: nat)
    requires WellFormed(t.inner) && Script(t.inner, op).Some? && 0 < k <= |Script(t.inner, op).value.0|
    ensures var (ops, u) := Script(t.inner, op).value;
            Undone(After(t, ops, k), u).1 || (op.CreateFile? && Undone(After(t, ops, k), u).0 == t)
  {
    hide Step, Effect, Run, Patch.Patched, MissingParents, After, Undoes, Undone;
    var (ops, u) := Script(t.inner, op).value;
    AfterAll(t, op, k);
    StepPartway(t, ops[0]);
    var s := After(t, ops, k);
    match u
    case UndoCreate(p, created) =>
      if Effect(t.inner, ops[0]).None? {
        NothingToUndo(t, u);
      } else {
        CreateChangesTree(t, p, ops[0].body);
        CreateUndoes(t.inner, s.inner, p, ops[0].body);
        UndoneRestores(s, t.inner, u);
      }
    case UndoWrite(p, _) =>
      WriteUndoes(t.inner, s.inner, p, ops[0].body);
      WritesBackUndoes(t.inner, s.inner, u);
      UndoneRestores(s, t.inner, u);
    case UndoDelete(p, _) =>
      RmUndoes(t.inner, s.inner, p);
      WritesBackUndoes(t.inner, s.inner, u);
      UndoneRestores(s, t.inner, u);
    case UndoMove(_, _, _, _) =>
      MoveStepsUndo(t, op, k);
      UndoneRestores(s, t.inner, u);
  }

  lemma WritesBackUndoes(t: Tree, x: Tree, u: Undo)
    requires WellFormed(t) && (u.UndoWrite? || u.UndoDelete?) && WritesBack(t, x, u.path, u.previous)
    ensures Undoes(t, x, u)
  {
  }

  lemma CreateChangesTree(t: Tracked, p: Path, body: Body)
    requires p !in t.inner && Effect(t.inner, Write(p, body)).Some?
    ensures Step(t, Write(p, body)).inner != t.inner
  {
    StepTree(t, Write(p, body));
  }

  // ---------------------------------------------------------------- a failed operation

  /** The state from which the rollback of a failing operation runs. */
  function Reached(d: Disk, op: Operation): Tracked
    requires Script(d.t.inner, op).Some?
  {
    var ops := Script(d.t.inner, op).value.0;
    After(d.t, ops, Taken(d, ops))
  }

  /** The two trees have the same file there. */
  predicate SameText(t: Tree, x: Tree, p: Path) {
    ExistingFile(t, p) && HasText(x, p, t[p].body)
  }

  /**
   The file of a failing operation is written once with the text it has: by the rollback of an
   operation struck before it took effect, or by an update onto its own path, which has none.
   */
  predicate WrittenOnce(d: Disk, op: Operation) {
    && !op.CreateFile? && Script(d.t.inner, op).Some?
    && if OntoItself(op) then !StruckFirst(d) && StruckText(d, op).None? else StruckFirst(d)
  }

  /**
   What a failing operation makes of the excess.  Written once, a file that was not changed is in
   excess and one that was is settled; so is one that the operation had changed when it failed; and
   otherwise nothing has happened in the end.  A text that is not rolled back stays.
   */
  ghost function ExcessAfter(d: Disk, op: Operation): set<Path> {
    if op.CreateFile? || Script(d.t.inner, op).None? then Excess(d.t)
    else if StruckText(d, op).Some? then
      if Settles(d.t, op.path, StruckText(d, op).value) then Excess(d.t) - {op.path} else Excess(d.t) + {op.path}
    else if WrittenOnce(d, op) then if Changed(d.t, op.path) then Excess(d.t) - {op.path} else Excess(d.t) + {op.path}
    else if SameText(d.t.inner, Reached(d, op).inner, op.path) then Excess(d.t)
    else Excess(d.t) - {op.path}
  }

  lemma ScriptHarmless(fixed: set<Path>, t: Tracked, op: Operation)
    requires Tame(fixed, t) && Script(t.inner, op).Some?
    ensures Harmless(fixed, Script(t.inner, op).value.1)
  {
    hide Patch.Patched, MissingParents;
    var u := Script(t.inner, op).value.1;
    FaithfulTree(t);
    assert fixed <= t.inner.Keys;
    if u.UndoCreate? {
      MadeAll(t.inner, u.path);
    } else if u.UndoMove? {
      MadeAll(t.inner, u.destination);
    }
  }

  lemma FailedTame(fixed: set<Path>, d: Disk, op: Operation)
    requires Tame(fixed, d.t) && AppliedOne(d, op).1.Failed?
    ensures var after := AppliedOne(d, op).0.t;
            Tame(fixed, after) && after.baseline == d.t.baseline && Excess(after) == ExcessAfter(d, op)
  {
    hide AppliedOne, Undone, Step, Patch.Patched, MissingParents, Excess, After, Midway, Changed, Settles, Harmless, StruckText;
    AppliedIs(d, op);
    var script := Script(d.t.inner, op);
    if script.Some? {
      var (ops, u) := script.value;
      var k := Taken(d, ops);
      if OntoItself(op) {
        OntoItselfTame(fixed, d, op);
      } else {
        ScriptHarmless(fixed, d.t, op);
        OnlyOntoItself(d, op);
        if k == 0 {
          StalledUndone(fixed, d, op);
        } else {
          ScriptUndone(d.t, op, k);
          if Undone(After(d.t, ops, k), u).1 {
            ScriptMidway(fixed, d.t, op, k);
            MidwayUndone(fixed, d.t, After(d.t, ops, k), u);
          }
        }
      }
    }
  }

  lemma OnlyOntoItself(d: Disk, op: Operation)
    ensures !OntoItself(op) ==> StruckText(d, op).None?
  {
  }

  lemma OntoItselfTame(fixed: set<Path>, d: Disk, op: Operation)
    requires Tame(fixed, d.t) && OntoItself(op) && Script(d.t.inner, op).Some? && AppliedOne(d, op).1.Failed?
    ensures var after := After(d.t, Script(d.t.inner, op).value.0, Taken(d, Script(d.t.inner, op).value.0));
            Tame(fixed, after) && after.baseline == d.t.baseline && Excess(after) == ExcessAfter(d, op)
  {
    hide Undone, Step, Patch.Patched, MissingParents, Excess, After, Changed, Settles, Tame;
    var (ops, u) := Script(d.t.inner, op).value;
    TameFacts(fixed, d.t);
    FaithfulTree(d.t);
    OneStepTaken(d, ops);
    assert ops == [ops[0]] + [];
    AfterOne(d.t, ops[0], []);
    InPlaceWrite(fixed, d.t, op.path, ops[0].body);
    if StruckFirst(d) {
      SelfText(d.t.inner, op.path);
      assert Reached(d, op) == d.t;
    } else {
      UnchangedFileAgrees(d.t, op.path);
    }
  }

  lemma SelfText(t: Tree, p: Path)
    ensures ExistingFile(t, p) ==> SameText(t, t, p)
  {
  }

  /** Undone from there, a file that had not changed is in excess if it was before; one that had is not. */
  lemma MidwayUndone(fixed: set<Path>, t: Tracked, s: Tracked, u: Undo)
    requires Tame(fixed, t) && Midway(fixed, t, s, u) && Harmless(fixed, u) && Undone(s, u).1
    requires if u.UndoCreate? then u.path !in t.inner else HasText(t.inner, Source(u), u.previous)
    requires u.UndoMove? ==> u.destination !in t.inner
    ensures var r := Undone(s, u).0;
            && Tame(fixed, r) && r.baseline == t.baseline
            && Excess(r) == if u.UndoCreate? || HasText(s.inner, Source(u), u.previous) then Excess(t) else Excess(t) - {Source(u)}
  {
    hide Undone, Step, Harmless, FixedSpared, Faithful, Settles, Changed;
    UndoneTame(fixed, s, u);
    if !u.UndoCreate? {
      var p := Source(u);
      if HeldText(s.baseline, p, u.previous) {
        ChangedIff(s, p, u.previous);
        ChangedIff(t, p, u.previous);
      } else {
        NotHeldSettles(s, p, u.previous);
      }
    }
  }

  lemma NotHeldSettles(s: Tracked, p: Path, text: Body)
    requires !HeldText(s.baseline, p, text)
    ensures Settles(s, p, text)
  {
  }

  lemma StalledUndone(fixed: set<Path>, d: Disk, op: Operation)
    requires Tame(fixed, d.t) && Script(d.t.inner, op).Some? && StruckFirst(d)
    requires Harmless(fixed, Script(d.t.inner, op).value.1)
    ensures var (ops, u) := Script(d.t.inner, op).value;
            var r := Undone(After(d.t, ops, 0), u).0;
            && Tame(fixed, r) && r.baseline == d.t.baseline
            && Excess(r) == if op.CreateFile? then Excess(d.t)
                            else if Changed(d.t, op.path) then Excess(d.t) - {op.path} else Excess(d.t) + {op.path}
  {
    hide Step, Patch.Patched, MissingParents, Excess, Undone, Undoes, Partway;
    var (ops, u) := Script(d.t.inner, op).value;
    FaithfulTree(d.t);
    assert After(d.t, ops, 0) == d.t by {
      assert ops[..0] == [];
    }
    if u.UndoCreate? {
      NothingToUndo(d.t, u);
    } else {
      FileUndoes(d.t.inner, op);
      UndoneRestores(d.t, d.t.inner, u);
      UndoneTame(fixed, d.t, u);
      UnchangedFileAgrees(d.t, op.path);
      AbsentIsNotExcess(d.t, u);
    }
  }

  lemma AbsentIsNotExcess(t: Tracked, u: Undo)
    ensures u.UndoMove? && u.destination !in t.inner ==> u.destination !in Excess(t)
  {
  }

  lemma FileUndoes(t: Tree, op: Operation)
    requires WellFormed(t) && Script(t, op).Some? && !op.CreateFile?
    ensures Undoes(t, t, Script(t, op).value.1)
  {
    hide Patch.Patched, MissingParents, Effect;
    var (ops, u) := Script(t, op).value;
    if u.UndoMove? {
      assert Partway(t, t, Write(op.path, ops[0].body));
      FirstStage(t, t, u, ops[0].body);
    }
  }

  /** An unchanged live file is what the baseline holds: writing it back settles nothing. */
  lemma UnchangedFileAgrees(t: Tracked, p: Path)
    requires Faithful(t) && DefaultModes(t.inner) && ExistingFile(t.inner, p)
    ensures Settles(t, p, t.inner[p].body) || !Changed(t, p)
    ensures !Changed(t, p) ==> !Settles(t, p, t.inner[p].body)
  {
    assert p in t.upserts || Kept(t, p);
  }

  // ---------------------------------------------------------------- whole batches

  /** The operation left its file changed: another text, or no file at its path any more. */
  ghost predicate Effective(x: Tree, u: Undo) {
    match u
    case UndoCreate(_, _) => true
    case UndoWrite(p, previous) => ExistingFile(x, p) && x[p].body != previous
    case UndoDelete(p, _) => p !in x
    case UndoMove(source, _, _, _) => source !in x
  }

  /** Each undo leads one operation back and leaves alone what was fixed at the start; the one at index `turn`, if
      there is one, leads back an operation that changed its file. */
  ghost predicate Retraces(fixed: set<Path>, x: Tree, undos: seq<Undo>, turn: nat)
    decreases |undos|
  {
    if undos == [] then true
    else
      var u := undos[|undos| - 1];
      var rest := undos[..|undos| - 1];
      exists t: Tree :: Undoes(t, x, u) && Harmless(fixed, u) && (turn == |rest| ==> Effective(x, u)) && Retraces(fixed, t, rest, turn)
  }

  lemma RetracesSame(fixed: set<Path>, x: Tree, y: Tree, undos: seq<Undo>, turn: nat)
    requires Retraces(fixed, x, undos, turn) && SameTree(x, y)
    ensures Retraces(fixed, y, undos, turn)
  {
    hide Undoes, Harmless;
    if undos != [] {
      var u, rest := undos[|undos| - 1], undos[..|undos| - 1];
      var t: Tree :| Undoes(t, x, u) && Harmless(fixed, u) && (turn == |rest| ==> Effective(x, u)) && Retraces(fixed, t, rest, turn);
      UndoesSame(t, x, y, u);
      assert turn == |rest| ==> Effective(y, u);
    }
  }

  lemma EffectiveSettles(s: Tracked, u: Undo)
    requires Faithful(s) && DefaultModes(s.inner) && Effective(s.inner, u)
    ensures UndoSettles(s, u)
  {
    if !u.UndoCreate? {
      var p := Source(u);
      if p in s.inner {
        assert p in s.upserts || Kept(s, p);
      } else {
        assert !Kept(s, p);
      }
    }
  }

  /** How many of the undos write the path. */
  function Rewrites(undos: seq<Undo>, p: Path): nat {
    if undos == [] then 0
    else Rewrites(undos[..|undos| - 1], p) + if p in PathsOf(undos[|undos| - 1]) then 1 else 0
  }

  predicate WritesText(u: Undo, p: Path, text: Body) {
    !u.UndoCreate? && Source(u) == p && u.previous == text
  }

  /** All that the undos do to the path is to write this text. */
  predicate OnlyRewritten(undos: seq<Undo>, p: Path, text: Body) {
    forall i :: 0 <= i < |undos| && p in PathsOf(undos[i]) ==> WritesText(undos[i], p, text)
  }

  lemma {:induction false} AllUndoneTame(fixed: set<Path>, s: Tracked, undos: seq<Undo>, turn: nat)
    requires Tame(fixed, s) && Retraces(fixed, s.inner, undos, turn)
    ensures var r := AllUndone(s, undos).0; Tame(fixed, r) && r.baseline == s.baseline
    decreases |undos|
  {
    hide Undoes, Undone, Harmless, Effective, Faithful, DefaultModes, Excess, UndoSettles, FixedSpared;
    if undos != [] {
      var u, rest := undos[|undos| - 1], undos[..|undos| - 1];
      var t: Tree :| Undoes(t, s.inner, u) && Harmless(fixed, u) && (turn == |rest| ==> Effective(s.inner, u)) && Retraces(fixed, t, rest, turn);
      UndoneRestores(s, t, u);
      UndoneTame(fixed, s, u);
      RetracesSame(fixed, t, Undone(s, u).0.inner, rest, turn);
      AllUndoneTame(fixed, Undone(s, u).0, rest, turn);
    }
  }

  lemma GrownText(t: Tree, x: Tree, extra: set<Path>, p: Path, text: Body)
    requires Grown(t, x, extra)
    ensures HasText(t, p, text) <==> HasText(x, p, text)
  {
  }

  /** What an undo does not touch has the same text before and after. */
  lemma BesideText(t: Tree, x: Tree, u: Undo, p: Path, text: Body)
    requires Undoes(t, x, u) && p !in PathsOf(u)
    ensures HasText(t, p, text) <==> HasText(x, p, text)
  {
    hide MissingParents, WellFormed, Grown;
    match u
    case UndoCreate(q, created) => GrownText(t, x - {q}, Made(created, |created|), p, text);
    case UndoWrite(q, _) => GrownText(t - {q}, x - {q}, {}, p, text);
    case UndoDelete(q, _) => GrownText(t - {q}, x - {q}, {}, p, text);
    case UndoMove(source, destination, _, created) =>
      var i :| 0 <= i <= |created| && Grown(t - {source}, x - {source} - {destination}, Made(created, i));
      GrownText(t - {source}, x - {source} - {destination}, Made(created, i), p, text);
  }

  lemma OneUndone(fixed: set<Path>, s: Tracked, t: Tree, u: Undo, p: Path, text: Body)
    requires Tame(fixed, s) && Undoes(t, s.inner, u) && Harmless(fixed, u) && HeldText(s.baseline, p, text)
    ensures var r := Undone(s, u).0;
            && Tame(fixed, r) && r.baseline == s.baseline && SameTree(t, r.inner)
            && (p !in PathsOf(u) ==> (p in Excess(r) <==> p in Excess(s)) && (HasText(r.inner, p, text) <==> HasText(s.inner, p, text)))
            && (WritesText(u, p, text) ==> HasText(r.inner, p, text))
            && (WritesText(u, p, text) && HasText(s.inner, p, text) ==> (p in Excess(r) <==> p !in Excess(s)))
            && (WritesText(u, p, text) && Effective(s.inner, u) ==> p !in Excess(r))
            && (p in Excess(s) ==> HasText(s.inner, p, text)) && (WritesText(u, p, text) && !HasText(s.inner, p, text) ==> p !in Excess(r))
  {
    hide Undone, Harmless, Effective, Changed, Excess, FixedSpared, WellFormed, MissingParents, Grown;
    UndoneRestores(s, t, u);
    UndoneTame(fixed, s, u);
    ChangedIff(s, p, text);
    if p !in PathsOf(u) {
      BesideText(t, s.inner, u, p, text);
    }
    if Effective(s.inner, u) {
      EffectiveSettles(s, u);
    }
  }

  predicate Odd(n: nat) {
    n % 2 == 1
  }

  lemma Alternates(undos: seq<Undo>, p: Path, text: Body)
    requires undos != [] && OnlyRewritten(undos, p, text)
    ensures var u, rest := undos[|undos| - 1], undos[..|undos| - 1];
            && OnlyRewritten(rest, p, text)
            && (if p in PathsOf(u) then WritesText(u, p, text) && (Odd(Rewrites(undos, p)) <==> !Odd(Rewrites(rest, p))) && Rewrites(undos, p) > 0
                else Rewrites(undos, p) == Rewrites(rest, p))
  {
  }

  /** Written back time and again, a file that agrees with the baseline enters the excess and leaves it by turns. */
  lemma {:induction false} RewrittenExcess(fixed: set<Path>, s: Tracked, undos: seq<Undo>, turn: nat, p: Path, text: Body)
    requires Tame(fixed, s) && HeldText(s.baseline, p, text) && Retraces(fixed, s.inner, undos, turn)
    requires turn >= |undos| && OnlyRewritten(undos, p, text)
    ensures p in Excess(AllUndone(s, undos).0) <==>
              if HasText(s.inner, p, text) then (p in Excess(s)) != Odd(Rewrites(undos, p))
              else Rewrites(undos, p) > 0 && !Odd(Rewrites(undos, p))
    decreases |undos|
  {
    hide Undoes, Undone, Harmless, Effective, Tame, Excess, SameTree, HeldText, HasText, Changed, Settles, OnlyRewritten, PathsOf,
         WritesText;
    TameFacts(fixed, s);
    ChangedIff(s, p, text);
    if undos != [] {
      hide Rewrites, Odd;
      var u, rest := undos[|undos| - 1], undos[..|undos| - 1];
      var t: Tree :| Undoes(t, s.inner, u) && Harmless(fixed, u) && Retraces(fixed, t, rest, turn);
      var r := Undone(s, u).0;
      OneUndone(fixed, s, t, u, p, text);
      RetracesSame(fixed, t, r.inner, rest, turn);
      Alternates(undos, p, text);
      RewrittenExcess(fixed, r, rest, turn, p, text);
    }
  }

  /** Whatever the later undos do, the marked one settles its file, and from there on it is the same. */
  lemma {:induction false} AlteredUndone(fixed: set<Path>, s: Tracked, undos: seq<Undo>, turn: nat, p: Path, text: Body)
    requires Tame(fixed, s) && HeldText(s.baseline, p, text) && Retraces(fixed, s.inner, undos, turn)
    requires turn < |undos| && OnlyRewritten(undos[..turn], p, text) && WritesText(undos[turn], p, text)
    ensures p in Excess(AllUndone(s, undos).0) <==> Odd(Rewrites(undos[..turn], p))
    decreases |undos|
  {
    hide Undoes, Undone, Harmless, Effective, Tame, Excess, SameTree, HeldText, HasText, OnlyRewritten, PathsOf, WritesText,
         Rewrites, Odd;
    var u, rest := undos[|undos| - 1], undos[..|undos| - 1];
    var t: Tree :| Undoes(t, s.inner, u) && Harmless(fixed, u) && (turn == |rest| ==> Effective(s.inner, u)) && Retraces(fixed, t, rest, turn);
    var r := Undone(s, u).0;
    OneUndone(fixed, s, t, u, p, text);
    RetracesSame(fixed, t, r.inner, rest, turn);
    if turn == |rest| {
      RewrittenExcess(fixed, r, rest, turn, p, text);
    } else {
      assert rest[..turn] == undos[..turn];
      AlteredUndone(fixed, r, rest, turn, p, text);
    }
  }

  /**
   The law of writing back.  Written with the text the baseline holds, a file in excess leaves it
   and one that is not changed enters it; a file that was really changed is settled by the undo
   of its change, and from there on it is the same.
   */
  lemma AllUndoneExcess(fixed: set<Path>, s: Tracked, undos: seq<Undo>, turn: nat, p: Path, text: Body)
    requires Tame(fixed, s) && HeldText(s.baseline, p, text) && Retraces(fixed, s.inner, undos, turn)
    requires turn >= |undos| ==> OnlyRewritten(undos, p, text)
    requires turn < |undos| ==> OnlyRewritten(undos[..turn], p, text) && WritesText(undos[turn], p, text)
    ensures p in Excess(AllUndone(s, undos).0) <==>
              if turn < |undos| then Odd(Rewrites(undos[..turn], p))
              else if HasText(s.inner, p, text) then (p in Excess(s)) != Odd(Rewrites(undos, p))
              else Rewrites(undos, p) > 0 && !Odd(Rewrites(undos, p))
  {
    hide *;
    if turn < |undos| {
      AlteredUndone(fixed, s, undos, turn, p, text);
    } else {
      RewrittenExcess(fixed, s, undos, turn, p, text);
    }
  }

  lemma DoneTame(fixed: set<Path>, d: Disk, op: Operation)
    requires Tame(fixed, d.t) && AppliedOne(d, op).1.Done?
    ensures var (after, r) := AppliedOne(d, op);
            && Tame(fixed, after.t) && after.t.baseline == d.t.baseline
            && Undoes(d.t.inner, after.t.inner, r.undo) && Harmless(fixed, r.undo)
            && Midway(fixed, d.t, after.t, r.undo)
            && (r.undo.UndoCreate? || (Effective(after.t.inner, r.undo) <==> !SameText(d.t.inner, after.t.inner, Source(r.undo))))
            && (Effective(after.t.inner, r.undo) || r.undo.UndoWrite?)
  {
    hide AppliedOne, Undone, Step, Patch.Patched, MissingParents, Excess, Undoes, Harmless;
    FaithfulTree(d.t);
    AppliedIs(d, op);
    AppliedRestorable(d, op);
    var (ops, u) := Script(d.t.inner, op).value;
    ScriptMidway(fixed, d.t, op, |ops|);
    ScriptHarmless(fixed, d.t, op);
    DoneEffective(d, op);
  }

  lemma DoneEffective(d: Disk, op: Operation)
    requires Faithful(d.t) && AppliedOne(d, op).1.Done?
    ensures var (after, r) := AppliedOne(d, op);
            && (r.undo.UndoCreate? || (Effective(after.t.inner, r.undo) <==> !SameText(d.t.inner, after.t.inner, Source(r.undo))))
            && (Effective(after.t.inner, r.undo) || r.undo.UndoWrite?)
  {
    hide Undone, Step, Patch.Patched, MissingParents, Effect, Halfway;
    FaithfulTree(d.t);
    match op
    case CreateFile(_, _) =>
    case DeleteFile(p) => FileLeaves(d.t, Rm(p, false, false), p);
    case UpdateFile(p, diff, moveTo) =>
      if moveTo.Some? && moveTo.value != p {
        MovedDone(d, op);
      } else {
        SourceIsFile(d.t, p, Patch.Patched(d.t.inner[p].body, diff, Patch.DefaultMode).value);
      }
  }

  lemma SourceIsFile(t: Tracked, p: Path, body: Body)
    requires Faithful(t) && ExistingFile(t.inner, p)
    ensures ExistingFile(Step(t, Write(p, body)).inner, p)
  {
    FaithfulTree(t);
    WriteInPlace(t.inner, p, body);
    StepTree(t, Write(p, body));
  }

  lemma FileLeaves(t: Tracked, op: Op, p: Path)
    requires WellFormed(t.inner) && Effect(t.inner, op).Some? && p != []
    requires op == Rm(p, false, false) || (op.Mv? && op.source == p)
    ensures p !in Step(t, op).inner
  {
    StepTree(t, op);
  }

  lemma MovedDone(d: Disk, op: Operation)
    requires Faithful(d.t) && AppliedOne(d, op).1.Done? && op.UpdateFile? && op.moveTo.Some? && op.moveTo.value != op.path
    ensures var (after, r) := AppliedOne(d, op);
            Effective(after.t.inner, r.undo) && r.undo.UndoMove? && r.undo.source !in after.t.inner
  {
    hide Undone, Step, Patch.Patched, MissingParents, Effect, Mutated;
    var p := op.path;
    var next := Patch.Patched(d.t.inner[p].body, op.diff, Patch.DefaultMode).value;
    var created := MissingParents(d.t.inner, op.moveTo.value);
    var written := Mutated(d, Write(p, next)).0;
    var made := Mkdir(if created == [] then [] else created[|created| - 1], true);
    var ready := if created == [] then written else Mutated(written, made).0;
    MutatedWellFormed(d, Write(p, next));
    MutatedWellFormed(written, made);
    MutatedMeans(ready, Mv(p, op.moveTo.value));
    FaithfulTree(d.t);
    FileLeaves(ready.t, Mv(p, op.moveTo.value), p);
  }

  lemma FailedInBatch(fixed: set<Path>, d: Disk, op: Operation)
    requires Tame(fixed, d.t) && AppliedOne(d, op).1.Failed?
    ensures var after := AppliedOne(d, op).0.t;
            && Tame(fixed, after) && after.baseline == d.t.baseline && Excess(after) == ExcessAfter(d, op)
            && match StruckText(d, op)
               case None => SameTree(d.t.inner, after.inner)
               case Some(text) => ExistingFile(d.t.inner, op.path) && after.inner == WithText(d.t.inner, op.path, text)
  {
    hide AppliedOne, Excess, ExcessAfter, Script, FixedSpared, DefaultModes, SameTree;
    FaithfulTree(d.t);
    AppliedRestorable(d, op);
    if OntoItself(op) {
      OntoItselfLeaves(d, op);
    }
    FailedTame(fixed, d, op);
  }

  predicate TouchedAfter(undos: seq<Undo>, turn: nat, p: Path) {
    exists i :: turn < i < |undos| && p in PathsOf(undos[i])
  }

  /** The undos lead back from another text at a path just as well, unless it is the one that the marked undo writes. */
  lemma {:induction false} RetracesText(fixed: set<Path>, x: Tree, undos: seq<Undo>, turn: nat, p: Path, text: Body)
    requires Retraces(fixed, x, undos, turn) && ExistingFile(x, p)
    requires turn < |undos| && WritesText(undos[turn], p, text) ==> TouchedAfter(undos, turn, p)
    ensures Retraces(fixed, WithText(x, p, text), undos, turn)
    decreases |undos|
  {
    hide Undoes, Harmless, WithText;
    if undos != [] {
      var u, rest := undos[|undos| - 1], undos[..|undos| - 1];
      var t: Tree :| Undoes(t, x, u) && Harmless(fixed, u) && (turn == |rest| ==> Effective(x, u)) && Retraces(fixed, t, rest, turn);
      EffectiveText(x, u, p, text);
      if p in PathsOf(u) {
        UndoesOver(t, x, u, p, text);
      } else {
        UndoesBeside(t, x, u, p, text);
        RetracesText(fixed, t, rest, turn, p, text);
      }
    }
  }

  lemma EffectiveText(x: Tree, u: Undo, p: Path, text: Body)
    requires ExistingFile(x, p)
    ensures Effective(x, u) && !WritesText(u, p, text) ==> Effective(WithText(x, p, text), u)
  {
  }

  // ---------------------------------------------------------------- what becomes of one file

  /**
   How a file fares in a batch that fails: nothing has changed it; the failing operation has
   written it once with the text it had; some operation has changed or removed it; or an update
   onto its own path, struck without a rollback, gave it the last text the undos find changed.
   */
  datatype Ending = Untouched | Once | Altered | Stranded

  /** `kept` counts the updates in place that finished before that and left the text as it was. */
  datatype Course = Course(kept: nat, ending: Ending)

  function EndingOf(d: Disk, op: Operation, p: Path, text: Body): Ending {
    if op.path != p || op.CreateFile? || Script(d.t.inner, op).None? then Untouched
    else if StruckText(d, op).Some? then Stranded
    else if WrittenOnce(d, op) then Once
    else if HasText(Reached(d, op).inner, p, text) then Untouched
    else Altered
  }

  /** The rest of the batch leaves the file alone until a struck update onto its own path gives it back the text. */
  predicate Reverts(d: Disk, ops: seq<Operation>, limit: nat, p: Path, text: Body)
    decreases |ops|
  {
    if ops == [] || TooLarge(ops[0], limit) then false
    else
      var (after, r) := AppliedOne(d, ops[0]);
      match r
      case Failed(_) => ops[0].path == p && StruckText(d, ops[0]) == Some(text)
      case Done(u) => p !in PathsOf(u) && Reverts(after, ops[1..], limit, p, text)
  }

  function CourseOf(d: Disk, ops: seq<Operation>, limit: nat, p: Path, text: Body): Course
    decreases |ops|
  {
    if ops == [] || TooLarge(ops[0], limit) then Course(0, Untouched)
    else
      var (after, r) := AppliedOne(d, ops[0]);
      match r
      case Failed(_) => Course(0, EndingOf(d, ops[0], p, text))
      case Done(u) =>
        if p !in PathsOf(u) then CourseOf(after, ops[1..], limit, p, text)
        else if HasText(after.t.inner, p, text) then
          var rest := CourseOf(after, ops[1..], limit, p, text);
          rest.(kept := rest.kept + 1)
        else Course(0, if Reverts(after, ops[1..], limit, p, text) then Stranded else Altered)
  }

  /** The parity law. */
  predicate StaysPending(c: Course) {
    match c.ending
    case Untouched => false
    case Once => true
    case Altered => Odd(c.kept)
    case Stranded => !Odd(c.kept)
  }

  lemma {:induction false} ExecutedRetraces(fixed: set<Path>, p: Progress, ops: seq<Operation>, limit: nat, turn: nat, q: Path, text: Body)
    requires p.failure.None? && Tame(fixed, p.disk.t) && Retraces(fixed, p.disk.t.inner, p.undos, turn)
    requires turn < |p.undos| || turn >= |p.undos| + |ops|
    requires turn < |p.undos| ==> WritesText(p.undos[turn], q, text) && HeldText(p.disk.t.baseline, q, text)
    ensures var r := Executed(p, ops, limit);
            && Tame(fixed, r.disk.t) && r.disk.t.baseline == p.disk.t.baseline
            && |p.undos| <= |r.undos| && r.undos[..|p.undos|] == p.undos
            && if turn < |p.undos| && !TouchedAfter(p.undos, turn, q) && Reverts(p.disk, ops, limit, q, text) then
                 && Retraces(fixed, r.disk.t.inner, r.undos, |r.undos|) && !TouchedAfter(r.undos, turn, q)
                 && HasText(r.disk.t.inner, q, text) && q !in Excess(r.disk.t)
               else Retraces(fixed, r.disk.t.inner, r.undos, turn)
    decreases |ops|
  {
    hide AppliedOne, Undoes, Tame, TooLarge, Harmless, Effective, StruckText, SameText, Excess, HeldText, HasText, PathsOf,
         Retraces, Midway;
    if ops != [] && !TooLarge(ops[0], limit) {
      var (after, r) := AppliedOne(p.disk, ops[0]);
      match r
      case Failed(_) => FailedRetraces(fixed, p.disk, ops[0], p.undos, turn, q, text);
      case Done(u) =>
        DoneTame(fixed, p.disk, ops[0]);
        var undos := p.undos + [u];
        RetracesMore(fixed, p.disk.t.inner, after.t.inner, p.undos, u, turn);
        if turn < |p.undos| {
          TouchedMore(p.undos, u, turn, q);
        }
        ExecutedRetraces(fixed, Progress(after, undos, None), ops[1..], limit, turn, q, text);
        assert Executed(p, ops, limit).undos[..|p.undos|] == Executed(p, ops, limit).undos[..|undos|][..|p.undos|];
    }
  }

  lemma TouchedMore(undos: seq<Undo>, u: Undo, turn: nat, p: Path)
    requires turn < |undos|
    ensures TouchedAfter(undos + [u], turn, p) <==> TouchedAfter(undos, turn, p) || p in PathsOf(u)
  {
    assert (undos + [u])[|undos|] == u;
    if TouchedAfter(undos, turn, p) {
      var i :| turn < i < |undos| && p in PathsOf(undos[i]);
      assert (undos + [u])[i] == undos[i];
    }
  }

  /** A changed file that a struck update gives back the text of the baseline is settled. */
  lemma StruckWithHeldText(d: Disk, op: Operation, text: Body)
    requires Faithful(d.t) && DefaultModes(d.t.inner) && StruckText(d, op) == Some(text) && HeldText(d.t.baseline, op.path, text)
    ensures op.path !in ExcessAfter(d, op) && HasText(WithText(d.t.inner, op.path, text), op.path, text)
  {
    hide Faithful, DefaultModes, Changed, Reached, Patch.Patched, MissingParents, Excess;
    ChangedIff(d.t, op.path, text);
    OnlyOntoItself(d, op);
  }

  lemma FailedRetraces(fixed: set<Path>, d: Disk, op: Operation, undos: seq<Undo>, turn: nat, q: Path, text: Body)
    requires Tame(fixed, d.t) && AppliedOne(d, op).1.Failed? && Retraces(fixed, d.t.inner, undos, turn)
    requires turn < |undos| ==> WritesText(undos[turn], q, text) && HeldText(d.t.baseline, q, text)
    ensures var after := AppliedOne(d, op).0.t;
            && Tame(fixed, after) && after.baseline == d.t.baseline
            && if turn < |undos| && !TouchedAfter(undos, turn, q) && op.path == q && StruckText(d, op) == Some(text) then
                 Retraces(fixed, after.inner, undos, |undos|) && HasText(after.inner, q, text) && q !in Excess(after)
               else Retraces(fixed, after.inner, undos, turn)
  {
    hide AppliedOne, Undoes, Tame, Harmless, Effective, Script, Retraces, Excess, TouchedAfter, Changed, HeldText, StruckText,
         ExcessAfter, WithText, HasText, SameTree;
    var after := AppliedOne(d, op).0.t;
    FailedInBatch(fixed, d, op);
    var struck := StruckText(d, op);
    if struck.None? {
      RetracesSame(fixed, d.t.inner, after.inner, undos, turn);
    } else if turn < |undos| && !TouchedAfter(undos, turn, q) && op.path == q && struck == Some(text) {
      RetracesAny(fixed, d.t.inner, undos, turn, |undos|);
      RetracesText(fixed, d.t.inner, undos, |undos|, q, text);
      TameFacts(fixed, d.t);
      StruckWithHeldText(d, op, text);
    } else {
      RetracesText(fixed, d.t.inner, undos, turn, op.path, struck.value);
    }
  }

  /** A finished operation on a file with this text: it writes it again, or changes it. */
  lemma DoneAt(fixed: set<Path>, d: Disk, op: Operation, p: Path, text: Body)
    requires Tame(fixed, d.t) && AppliedOne(d, op).1.Done?
    requires HeldText(d.t.baseline, p, text) && HasText(d.t.inner, p, text)
    ensures var (after, r) := AppliedOne(d, op);
            && (p !in PathsOf(r.undo) ==> HasText(after.t.inner, p, text) && (p in Excess(after.t) <==> p in Excess(d.t)))
            && (p in PathsOf(r.undo) ==> WritesText(r.undo, p, text))
            && (p in PathsOf(r.undo) && HasText(after.t.inner, p, text) ==> (p in Excess(after.t) <==> p !in Excess(d.t)))
            && (p in PathsOf(r.undo) && !HasText(after.t.inner, p, text) ==> Effective(after.t.inner, r.undo))
  {
    hide AppliedOne, Excess, Tame, Settles, Changed, WellFormed, MissingParents, Made;
    DoneTame(fixed, d, op);
    var (after, r) := AppliedOne(d, op);
    TameFacts(fixed, d.t);
    ChangedIff(d.t, p, text);
    if p !in PathsOf(r.undo) {
      BesideText(d.t.inner, after.t.inner, r.undo, p, text);
      assert p in Excess(after.t) - PathsOf(r.undo) <==> p in Excess(d.t) - PathsOf(r.undo);
    }
  }

  lemma {:induction false} RetracesAny(fixed: set<Path>, x: Tree, undos: seq<Undo>, turn: nat, other: nat)
    requires Retraces(fixed, x, undos, turn) && other >= |undos|
    ensures Retraces(fixed, x, undos, other)
    decreases |undos|
  {
    hide Undoes, Harmless, Effective;
    if undos != [] {
      var u, rest := undos[|undos| - 1], undos[..|undos| - 1];
      var t: Tree :| Undoes(t, x, u) && Harmless(fixed, u) && (turn == |rest| ==> Effective(x, u)) && Retraces(fixed, t, rest, turn);
      RetracesAny(fixed, t, rest, turn, other);
    }
  }

  /** The leftover of a batch is at the path. */
  predicate LeftAt(p: Progress, ops: seq<Operation>, limit: nat, q: Path) {
    LeftoverOf(p, ops, limit).Some? && LeftoverOf(p, ops, limit).value.path == q
  }

  lemma {:induction false} LeftoverNotTouched(p: Progress, ops: seq<Operation>, limit: nat, q: Path)
    requires q in Touched(p.undos)
    ensures !LeftAt(p, ops, limit, q)
    decreases |ops|
  {
    hide AppliedOne, StruckText, TooLarge, PathsOf;
    if ops != [] && p.failure.None? && !TooLarge(ops[0], limit) {
      var (after, r) := AppliedOne(p.disk, ops[0]);
      if r.Done? {
        assert (p.undos + [r.undo])[..|p.undos|] == p.undos;
        LeftoverNotTouched(Progress(after, p.undos + [r.undo], None), ops[1..], limit, q);
      }
    }
  }

  lemma {:induction false} RewritesTouched(undos: seq<Undo>, p: Path)
    ensures p in Touched(undos) <==> Rewrites(undos, p) > 0
  {
    if undos != [] {
      RewritesTouched(undos[..|undos| - 1], p);
    }
  }

  lemma {:induction false} OnlyOneMore(undos: seq<Undo>, turn: nat, p: Path, text: Body)
    requires turn < |undos| && OnlyRewritten(undos[..turn], p, text) && WritesText(undos[turn], p, text) && !TouchedAfter(undos, turn, p)
    ensures OnlyRewritten(undos, p, text) && Rewrites(undos, p) == Rewrites(undos[..turn], p) + 1
    decreases |undos|
  {
    var rest := undos[..|undos| - 1];
    forall i | 0 <= i < |undos| && p in PathsOf(undos[i])
      ensures WritesText(undos[i], p, text)
    {
      if i < turn {
        assert undos[..turn][i] == undos[i];
      }
    }
    if turn == |rest| {
      assert rest == undos[..turn];
    } else {
      assert rest[..turn] == undos[..turn] && rest[turn] == undos[turn];
      assert !TouchedAfter(rest, turn, p) by {
        if i :| turn < i < |rest| && p in PathsOf(rest[i]) {
          assert p in PathsOf(undos[i]);
        }
      }
      assert p !in PathsOf(undos[|undos| - 1]);
      OnlyOneMore(rest, turn, p, text);
    }
  }

  lemma {:induction false} ExecutedExcess(fixed: set<Path>, p: Progress, ops: seq<Operation>, limit: nat, q: Path, text: Body)
    requires p.failure.None? && Tame(fixed, p.disk.t) && Retraces(fixed, p.disk.t.inner, p.undos, |p.undos|)
    requires HeldText(p.disk.t.baseline, q, text) && HasText(p.disk.t.inner, q, text) && OnlyRewritten(p.undos, q, text)
    requires q in Excess(p.disk.t) <==> Odd(Rewrites(p.undos, q))
    ensures var r := Executed(p, ops, limit);
            var c := CourseOf(p.disk, ops, limit, q, text);
            (q in Excess(AllUndone(r.disk.t, r.undos).0) || LeftAt(p, ops, limit, q)) <==>
              StaysPending(c.(kept := c.kept + Rewrites(p.undos, q)))
    decreases |ops|
  {
    hide AppliedOne, AllUndone, Undoes, Tame, TooLarge, Harmless, Excess, Effective, StruckText, SameText, HeldText, HasText,
         EndingOf, PathsOf, Changed, Midway, Retraces, Touched;
    if ops == [] || TooLarge(ops[0], limit) {
      AllUndoneExcess(fixed, p.disk.t, p.undos, |p.undos|, q, text);
    } else {
      var (after, r) := AppliedOne(p.disk, ops[0]);
      match r
      case Failed(_) =>
        FailedAt(fixed, p.disk, ops[0], p.undos, q, text);
        AllUndoneExcess(fixed, after.t, p.undos, |p.undos|, q, text);
        RewritesTouched(p.undos, q);
      case Done(u) =>
        DoneAt(fixed, p.disk, ops[0], q, text);
        DoneTame(fixed, p.disk, ops[0]);
        var n := |p.undos|;
        var next := Progress(after, p.undos + [u], None);
        assert next.undos[..n] == p.undos;
        if q in PathsOf(u) && !HasText(after.t.inner, q, text) {
          RetracesAny(fixed, p.disk.t.inner, p.undos, n, n);
          RetracesMore(fixed, p.disk.t.inner, after.t.inner, p.undos, u, n);
          AlteredExcess(fixed, next, ops[1..], limit, q, text);
        } else {
          RetracesAny(fixed, p.disk.t.inner, p.undos, n, n + 1);
          RetracesMore(fixed, p.disk.t.inner, after.t.inner, p.undos, u, n + 1);
          ExecutedExcess(fixed, next, ops[1..], limit, q, text);
        }
    }
  }

  /** The last finished operation has changed the file: from here on the undos decide. */
  lemma AlteredExcess(fixed: set<Path>, p: Progress, ops: seq<Operation>, limit: nat, q: Path, text: Body)
    requires p.failure.None? && Tame(fixed, p.disk.t) && p.undos != [] && HeldText(p.disk.t.baseline, q, text)
    requires var n := |p.undos| - 1;
             && Retraces(fixed, p.disk.t.inner, p.undos, n) && OnlyRewritten(p.undos[..n], q, text)
             && WritesText(p.undos[n], q, text)
    ensures var r := Executed(p, ops, limit);
            var kept := Rewrites(p.undos[..|p.undos| - 1], q);
            && !LeftAt(p, ops, limit, q)
            && (q in Excess(AllUndone(r.disk.t, r.undos).0) <==> Odd(kept) != Reverts(p.disk, ops, limit, q, text))
  {
    hide Executed, AllUndone, Undoes, Tame, Harmless, Excess, Effective, HeldText, HasText, LeftoverOf, Reverts, Retraces;
    var n := |p.undos| - 1;
    LeftoverNotTouched(p, ops, limit, q);
    ExecutedRetraces(fixed, p, ops, limit, n, q, text);
    var e := Executed(p, ops, limit);
    assert e.undos[..n] == e.undos[..n + 1][..n] && e.undos[n] == e.undos[..n + 1][n];
    if Reverts(p.disk, ops, limit, q, text) {
      OnlyOneMore(e.undos, n, q, text);
      AllUndoneExcess(fixed, e.disk.t, e.undos, |e.undos|, q, text);
    } else {
      AllUndoneExcess(fixed, e.disk.t, e.undos, n, q, text);
    }
  }

  lemma RetracesMore(fixed: set<Path>, t: Tree, x: Tree, undos: seq<Undo>, u: Undo, turn: nat)
    requires Retraces(fixed, t, undos, turn) && Undoes(t, x, u) && Harmless(fixed, u) && (turn == |undos| ==> Effective(x, u))
    ensures Retraces(fixed, x, undos + [u], turn)
  {
    hide Undoes, Harmless, Effective;
    assert (undos + [u])[..|undos|] == undos;
  }

  /** A failing operation, for a file with this text. */
  lemma FailedAt(fixed: set<Path>, d: Disk, op: Operation, undos: seq<Undo>, p: Path, text: Body)
    requires Tame(fixed, d.t) && AppliedOne(d, op).1.Failed? && Retraces(fixed, d.t.inner, undos, |undos|)
    requires HeldText(d.t.baseline, p, text) && HasText(d.t.inner, p, text)
    ensures var after := AppliedOne(d, op).0.t;
            && Tame(fixed, after) && after.baseline == d.t.baseline && Retraces(fixed, after.inner, undos, |undos|)
            && (HasText(after.inner, p, text) <==> !EndingOf(d, op, p, text).Stranded?)
            && (EndingOf(d, op, p, text).Stranded? <==> op.path == p && StruckText(d, op).Some?)
            && match EndingOf(d, op, p, text)
               case Untouched => p in Excess(after) <==> p in Excess(d.t)
               case Once => p in Excess(after) <==> p !in Excess(d.t)
               case _ => p !in Excess(after)
  {
    hide AppliedOne, Excess, Tame, Changed, HeldText, Retraces, HasText, EndingOf, ExcessAfter, StruckText, SameTree;
    FailedRetraces(fixed, d, op, undos, |undos|, p, text);
    FailedInBatch(fixed, d, op);
    var after := AppliedOne(d, op).0.t;
    TameFacts(fixed, after);
    ChangedIff(after, p, text);
    TameFacts(fixed, d.t);
    EndingMeans(d, op, p, text);
    SameTexts(d.t.inner, p, text);
    if StruckText(d, op).Some? {
      OtherText(d.t.inner, op.path, StruckText(d, op).value, p, text);
    }
  }

  lemma OtherText(t: Tree, q: Path, other: Body, p: Path, text: Body)
    requires HasText(t, p, text)
    ensures HasText(WithText(t, q, other), p, text) <==> p != q || other == text
  {
  }

  lemma EndingMeans(d: Disk, op: Operation, p: Path, text: Body)
    requires Faithful(d.t) && DefaultModes(d.t.inner) && HeldText(d.t.baseline, p, text) && HasText(d.t.inner, p, text)
    ensures EndingOf(d, op, p, text).Stranded? <==> op.path == p && StruckText(d, op).Some?
    ensures op.path == p && StruckText(d, op).Some? ==> StruckText(d, op).value != text
    ensures match EndingOf(d, op, p, text)
            case Untouched => p in ExcessAfter(d, op) <==> p in Excess(d.t)
            case Once => p in ExcessAfter(d, op) <==> p !in Excess(d.t)
            case Altered => p !in ExcessAfter(d, op)
            case Stranded => true
  {
    hide Changed, HeldText, Reached, Excess, Faithful, DefaultModes, Settles, WrittenOnce, Patch.Patched, MissingParents;
    ChangedIff(d.t, p, text);
    SameTexts(d.t.inner, p, text);
  }

  lemma SameTexts(t: Tree, p: Path, text: Body)
    requires HasText(t, p, text)
    ensures forall x :: SameText(t, x, p) <==> HasText(x, p, text)
    ensures forall x :: SameTree(t, x) ==> HasText(x, p, text)
  {
  }

  /** A workspace with nothing pending, all of whose files have the mode that writing gives. */
  ghost predicate Clean(t: Tracked) {
    Faithful(t) && DefaultModes(t.inner) && t.upserts == {} && t.deletions == map[]
  }

  /** From a clean workspace, when all that differs is the text of one file, that is all that is pending besides uploads
      of files that are what the baseline already holds. */
  lemma OnlyExcessIsLeft(t: Tracked, s: Tracked, left: Option<Leftover>)
    requires Clean(t) && Tame(FixedOf(t.inner), s) && s.baseline == t.baseline && s.inner == Given(t.inner, left)
    requires left.Some? ==> ExistingFile(t.inner, left.value.path) && t.inner[left.value.path].body != left.value.text
    ensures s.deletions == map[] && s.upserts == Excess(s) + if left.Some? then {left.value.path} else {}
  {
    hide GoodBaseline, WellFormed, KindsOf, DefaultModes;
    forall p | p in s.baseline
      ensures p !in s.deletions
    {
      assert Kept(t, p);
    }
    forall p | p in s.upserts
      ensures p in Excess(s) || (left.Some? && p == left.value.path)
    {
      assert p in s.inner && p !in FixedOf(t.inner);
      assert Kept(t, p);
    }
    if left.Some? {
      assert Kept(t, left.value.path);
      assert !Kept(s, left.value.path);
    }
  }

  lemma HeldByBaseline(t: Tracked, p: Path)
    requires Clean(t) && ExistingFile(t.inner, p)
    ensures HeldText(t.baseline, p, t.inner[p].body) && HasText(t.inner, p, t.inner[p].body)
  {
    assert Kept(t, p);
  }

  /** The tree the batch gives back: the one it started from, or that with the text that is not rolled back. */
  function Given(t: Tree, left: Option<Leftover>): Tree {
    if left.None? then t else WithText(t, left.value.path, left.value.text)
  }

  /**
   After any failed all-or-nothing batch on a clean workspace: tracked correctly, with nothing
   pending but uploads of files that are what the baseline already holds, and the text, if any,
   that a struck update onto its own path has left.
   */
  lemma NothingNewAfterFailure(t: Tracked, fuse: Fuse, ops: seq<Operation>, limit: nat)
    requires Clean(t)
    ensures var (s, r) := Batch(t, fuse, ops, limit, AllOrNothing);
            var left := LeftoverOf(Progress(Disk(t, fuse), [], None), ops, limit);
            r.Aborted? ==>
              && s.inner == Given(t.inner, left) && s.baseline == t.baseline && Faithful(s)
              && s.deletions == map[] && s.upserts == Excess(s) + if left.Some? then {left.value.path} else {}
  {
    hide Executed, AllUndone, LeftoverOf, Faithful, Retraces, Excess, DefaultModes, HeldText;
    var fixed := FixedOf(t.inner);
    var p0 := Progress(Disk(t, fuse), [], None);
    FaithfulTree(t);
    CleanIsTame(t);
    ExecutedRetraces(fixed, p0, ops, limit, |ops|, [], "");
    var p := Executed(p0, ops, limit);
    AllUndoneTame(fixed, p.disk.t, p.undos, |ops|);
    BatchLeaves(t, fuse, ops, limit);
    var (s, r) := Batch(t, fuse, ops, limit, AllOrNothing);
    if r.Aborted? {
      var left := LeftoverOf(p0, ops, limit);
      GivenModes(t.inner, left);
      DefaultModesDetermine(Given(t.inner, left), s.inner);
      OnlyExcessIsLeft(t, s, left);
    }
  }

  lemma GivenModes(t: Tree, left: Option<Leftover>)
    requires DefaultModes(t)
    ensures DefaultModes(Given(t, left))
  {
  }

  /**
   Exactly which uploads a failed batch on a clean workspace leaves, whatever fails.  A file stays
   pending if the failing operation wrote it once while nothing had changed it; if an operation
   had changed or removed it after an odd number of finished updates that left its text as it was;
   or, where a struck update onto its own path spoilt that, after an even number of them.
   */
  lemma PendingAfterFailure(t: Tracked, fuse: Fuse, ops: seq<Operation>, limit: nat)
    requires Clean(t)
    ensures var (s, r) := Batch(t, fuse, ops, limit, AllOrNothing);
            r.Aborted? ==>
              && s.inner == Given(t.inner, LeftoverOf(Progress(Disk(t, fuse), [], None), ops, limit)) && s.deletions == map[]
              && s.upserts == set p | p in t.inner && t.inner[p].FileNode?
                                      && StaysPending(CourseOf(Disk(t, fuse), ops, limit, p, t.inner[p].body))
  {
    hide Executed, AllUndone, LeftoverOf, Retraces, Excess, Clean, CourseOf, StaysPending, LeftAt;
    NothingNewAfterFailure(t, fuse, ops, limit);
    var (s, r) := Batch(t, fuse, ops, limit, AllOrNothing);
    if r.Aborted? {
      var p0 := Progress(Disk(t, fuse), [], None);
      forall p | ExistingFile(t.inner, p)
        ensures p in s.upserts <==> StaysPending(CourseOf(Disk(t, fuse), ops, limit, p, t.inner[p].body))
      {
        PendingAt(t, fuse, ops, limit, p);
        assert LeftAt(p0, ops, limit, p) <==> LeftoverOf(p0, ops, limit).Some? && LeftoverOf(p0, ops, limit).value.path == p by {
          LeftAtIs(p0, ops, limit, p);
        }
      }
      BatchLeaves(t, fuse, ops, limit) by { CleanWellFormed(t); }
      ExcessIsFiles(s);
    }
  }

  lemma CleanWellFormed(t: Tracked)
    requires Clean(t)
    ensures WellFormed(t.inner)
  {
  }

  lemma LeftAtIs(p: Progress, ops: seq<Operation>, limit: nat, q: Path)
    ensures LeftAt(p, ops, limit, q) <==> LeftoverOf(p, ops, limit).Some? && LeftoverOf(p, ops, limit).value.path == q
  {
  }

  lemma ExcessIsFiles(s: Tracked)
    ensures forall p :: p in Excess(s) ==> ExistingFile(s.inner, p)
  {
  }

  lemma PendingAt(t: Tracked, fuse: Fuse, ops: seq<Operation>, limit: nat, p: Path)
    requires Clean(t) && ExistingFile(t.inner, p)
    ensures var p0 := Progress(Disk(t, fuse), [], None);
            var e := Executed(p0, ops, limit);
            (p in Excess(AllUndone(e.disk.t, e.undos).0) || LeftAt(p0, ops, limit, p)) <==>
              StaysPending(CourseOf(Disk(t, fuse), ops, limit, p, t.inner[p].body))
  {
    hide Executed, AllUndone, LeftAt, Excess, CourseOf, StaysPending, Clean, HeldText, HasText, Retraces, Tame;
    CleanIsTame(t);
    HeldByBaseline(t, p);
    ExecutedExcess(FixedOf(t.inner), Progress(Disk(t, fuse), [], None), ops, limit, p, t.inner[p].body);
  }

  lemma CleanIsTame(t: Tracked)
    requires Clean(t)
    ensures Tame(FixedOf(t.inner), t) && Excess(t) == {} && forall turn :: Retraces(FixedOf(t.inner), t.inner, [], turn)
  {
  }

  /** With default modes throughout, equal up to file modes is equal. */
  lemma DefaultModesDetermine(a: Tree, b: Tree)
    requires SameTree(a, b) && DefaultModes(a) && DefaultModes(b)
    ensures a == b
  {
    forall p | p in a
      ensures a[p] == b[p]
    {
      assert SameNode(a[p], b[p]);
    }
  }

  // ---------------------------------------------------------------- what does stay pending

  /** On any clean workspace, a deletion struck before it took effect leaves its file pending. */
  lemma StruckDeletionStaysPending(t: Tracked, p: Path, limit: nat)
    requires Clean(t) && ExistingFile(t.inner, p)
    ensures var (s, r) := Batch(t, Armed(0, Nothing), [DeleteFile(p)], limit, AllOrNothing);
            r.Aborted? && s.inner == t.inner && s.upserts == {p}
  {
    hide AllUndone, Executed, CourseOf, LeftoverOf, Clean;
    StruckDeletion(Disk(t, Armed(0, Nothing)), p, limit);
    PendingAfterFailure(t, Armed(0, Nothing), [DeleteFile(p)], limit);
  }

  lemma StruckDeletion(d: Disk, p: Path, limit: nat)
    requires ExistingFile(d.t.inner, p) && d.fuse == Armed(0, Nothing)
    ensures var ops := [DeleteFile(p)];
            && Executed(Progress(d, [], None), ops, limit).failure.Some? && LeftoverOf(Progress(d, [], None), ops, limit).None?
            && forall q: Path, text :: StaysPending(CourseOf(d, ops, limit, q, text)) <==> q == p
  {
    hide Undone, Step, Effect;
    var op := DeleteFile(p);
    assert AppliedOne(d, op).1.Failed?;
    hide AppliedOne;
    assert forall q, text :: CourseOf(d, [op], limit, q, text) == Course(0, EndingOf(d, op, q, text));
  }

  lemma UpdateDone(s: Tracked, p: Path, diff: string, next: Body)
    requires WellFormed(s.inner) && ExistingFile(s.inner, p)
    requires Patch.Patched(s.inner[p].body, diff, Patch.DefaultMode) == Some(next)
    ensures AppliedOne(Disk(s, Sound), UpdateFile(p, diff, None))
         == (Disk(Step(s, Write(p, next)), Sound), Done(UndoWrite(p, s.inner[p].body)))
    ensures Step(s, Write(p, next)).inner == s.inner[p := FileNode(next, FILE_MODE)] && WellFormed(Step(s, Write(p, next)).inner)
  {
    hide Patch.Patched, Step, WellFormed;
    WriteInPlace(s.inner, p, next);
    StepTree(s, Write(p, next));
  }

  /** Without any mutation struck: after one update that leaves the text as it was and one that changes it, a failure
      leaves the file pending. */
  lemma UnchangedThenChangedStaysPending(t: Tracked, p: Path, same: string, other: string, absent: Path, limit: nat)
    requires Clean(t) && ExistingFile(t.inner, p) && absent !in t.inner
    requires Patch.Patched(t.inner[p].body, same, Patch.DefaultMode) == Some(t.inner[p].body)
    requires Patch.Patched(t.inner[p].body, other, Patch.DefaultMode).Some?
    requires Patch.Patched(t.inner[p].body, other, Patch.DefaultMode).value != t.inner[p].body
    requires Utf8Length(same) <= limit && Utf8Length(other) <= limit
    ensures var ops := [UpdateFile(p, same, None), UpdateFile(p, other, None), DeleteFile(absent)];
            var (s, r) := Batch(t, Sound, ops, limit, AllOrNothing);
            r.Aborted? && s.inner == t.inner && s.upserts == {p}
  {
    hide Patch.Patched, Step, Effect, Excess, Utf8Length, AllUndone, Undone, WellFormed;
    var ops := [UpdateFile(p, same, None), UpdateFile(p, other, None), DeleteFile(absent)];
    var next := Patch.Patched(t.inner[p].body, other, Patch.DefaultMode).value;
    FaithfulTree(t);
    UpdateDone(t, p, same, t.inner[p].body);
    var t1 := Step(t, Write(p, t.inner[p].body));
    UpdateDone(t1, p, other, next);
    ThreeOperations(Disk(t, Sound), Disk(t1, Sound), Disk(Step(t1, Write(p, next)), Sound), ops, p, t.inner[p].body, limit);
    hide Executed, CourseOf, LeftoverOf, Clean;
    PendingAfterFailure(t, Sound, ops, limit);
  }

  lemma ThreeOperations(d: Disk, d1: Disk, d2: Disk, ops: seq<Operation>, p: Path, text: Body, limit: nat)
    requires |ops| == 3 && ops[2].DeleteFile? && ops[2].path !in d2.t.inner && !TooLarge(ops[0], limit) && !TooLarge(ops[1], limit)
    requires AppliedOne(d, ops[0]) == (d1, Done(UndoWrite(p, text))) && AppliedOne(d1, ops[1]) == (d2, Done(UndoWrite(p, text)))
    requires HasText(d1.t.inner, p, text) && !HasText(d2.t.inner, p, text)
    ensures Executed(Progress(d, [], None), ops, limit).failure.Some? && LeftoverOf(Progress(d, [], None), ops, limit).None?
    ensures CourseOf(d, ops, limit, p, text) == Course(1, Altered)
    ensures forall q, other :: q != p ==> CourseOf(d, ops, limit, q, other) == Course(0, Untouched)
  {
    var u := UndoWrite(p, text);
    hide Utf8Length, HasText;
    assert AppliedOne(d2, ops[2]) == (d2, Failed(true));
    hide AppliedOne;
    assert ops[1..][0] == ops[1] && ops[1..][1..] == [ops[2]] && ops[2..] == [ops[2]];
    var p1, p2 := Progress(d1, [u], None), Progress(d2, [u, u], None);
    assert [] + [u] == [u] && [u] + [u] == [u, u];
    assert Executed(p2, [ops[2]], limit).failure.Some? && LeftoverOf(p2, [ops[2]], limit).None?;
    assert Executed(p1, ops[1..], limit).failure.Some? && LeftoverOf(p1, ops[1..], limit).None?;
    assert !Reverts(d2, [ops[2]], limit, p, text);
    assert CourseOf(d1, ops[1..], limit, p, text) == Course(0, Altered);
    assert forall q, other :: CourseOf(d2, [ops[2]], limit, q, other) == Course(0, Untouched);
    assert forall q, other :: q != p ==> CourseOf(d1, ops[1..], limit, q, other) == Course(0, Untouched);
  }
}
