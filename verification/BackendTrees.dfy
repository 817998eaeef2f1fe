/** Over whole runs: when a Postgres workspace's snapshot stays what its tracker believes it is. */
module BackendTrees {
  import opened Types
  import opened Commits
  import opened MemoryTree
  import opened Tracking
  import TR = TrackingRuns
  import opened Backend
  import opened BackendRuns

  /** The tracker's delta is correct and its baseline is the snapshot; moves start at paths that are deleted or uploaded. */
  ghost predicate Whole(w: Workspace) {
    Faithful(w.fs) && TR.Consistent(w.fs.baseline) && Based(w)
  }

  predicate MovesCovered(t: Tracked, moves: map<Path, Path>) {
    moves.Keys <= t.deletions.Keys + t.upserts
  }

  /** A commit that was sent, accepted and answered. */
  predicate Acknowledged(w: Workspace, s: Server, e: Event) {
    e.Commit? && e.delivery.Delivered? &&
    match ToSend(w, e.given, e.correlation, e.uuid)
    case Sends(_, input) => Accept(s, input, e.stored).1.Receipt?
    case _ => false
  }

  lemma EntriesPlain(documents: Documents, p: Path)
    requires p in documents
    ensures p in EntriesFrom(documents) && EntriesFrom(documents)[p].kind == File && Honest(EntriesFrom(documents)[p])
    ensures EntriesFrom(documents)[p].mode == FILE_MODE && EntriesFrom(documents)[p].body == documents[p]
  {
  }

  /** Documents can be rebuilt exactly if none lies below another and none is the root. */
  lemma ConsistentIff(documents: Documents)
    ensures TR.Consistent(EntriesFrom(documents)) <==>
            [] !in documents && forall p, q :: p in documents && q in documents ==> !(p < q)
  {
    hide EntriesFrom, ParentPaths;
    forall p | p in documents
      ensures EntriesFrom(documents)[p].kind == File && Honest(EntriesFrom(documents)[p])
    {
      EntriesPlain(documents, p);
    }
    if TR.Consistent(EntriesFrom(documents)) {
      forall p, q | p in documents && q in documents
        ensures !(p < q)
      {
        assert p in ParentPaths(q) <==> p != [] && p < q;
      }
    }
  }

  /** Below a staged directory that can be sent there is a file. */
  lemma FileBelowDirectory(w: Workspace, p: Path) returns (q: Path)
    requires Whole(w) && PreparedTexts(w.fs).Some? && DirectoryInPlace(w, p)
    ensures q in w.fs.inner && w.fs.inner[q].FileNode? && p < q
  {
    hide WellFormed, KindsOf;
    assert p in Uploads(w.fs) ==> Storable(w.fs.inner, p);
    assert Derived(w.fs.inner, p);
    q :| q in w.fs.inner && q != p && Within(q, p) && !w.fs.inner[q].DirNode?;
    if q in w.fs.upserts {
      assert q in Uploads(w.fs);
      assert Storable(w.fs.inner, q);
    } else {
      assert Kept(w.fs, q);
      EntriesPlain(w.snapshot.documents, q);
    }
  }

  /** The committed tree can be rebuilt exactly when no staged directory took the place of a document. */
  lemma NextTreeConsistentIff(w: Workspace)
    requires Whole(w) && PreparedTexts(w.fs).Some?
    ensures TR.Consistent(EntriesFrom(NextTree(w))) <==> !exists p :: DirectoryInPlace(w, p)
  {
    hide TR.Consistent, EntriesFrom, NextTree, PreparedTexts, DirectoryInPlace, Based, Faithful;
    ConsistentIff(NextTree(w));
    if p :| DirectoryInPlace(w, p) {
      var q := FileBelowDirectory(w, p);
      CommittedAt(w, p);
      CommittedAt(w, q);
      PlaceIsDirectory(w, p);
      assert p in NextTree(w) && q in NextTree(w) && p < q;
    } else {
      CommittedTreeIff(w);
      FaithfulTree(w.fs);
      forall p, q | p in NextTree(w) && q in NextTree(w)
        ensures !(p < q)
      {
        if p < q {
          AncestorsAreDirectories(w.fs.inner, q, p);
        }
      }
      RootIsNoFile(w.fs.inner);
    }
  }

  lemma PlaceIsDirectory(w: Workspace, p: Path)
    requires DirectoryInPlace(w, p)
    ensures p in w.fs.inner && !w.fs.inner[p].FileNode?
  {
  }

  lemma RootIsNoFile(t: Tree)
    requires WellFormed(t)
    ensures [] !in LiveFiles(t)
  {
  }

  lemma ResetWhole(w: Workspace)
    requires TR.Consistent(EntriesFrom(w.snapshot.documents)) && w.fs == TR.Reset(EntriesFrom(w.snapshot.documents)) && w.moves == map[]
    ensures Whole(w)
  {
    hide Faithful, TR.Consistent, TR.TreeFrom, KindsOf;
    TR.ResetFaithful(EntriesFrom(w.snapshot.documents));
  }

  lemma RestoredWhole(w: Workspace, s: Server, revision: Revision)
    requires Whole(w)
    ensures Whole(Restored(w, s, revision))
  {
    hide Faithful, TR.Consistent, TR.StageTarget, WellFormed;
    var r := Restored(w, s, revision);
    if r != w {
      var entries := EntriesFrom(s.log[revision].stored);
      WholeBaseline(w);
      NoModeChange(w.snapshot.documents, s.log[revision].stored);
      TR.RestoreFaithfulIff(w.fs, entries);
      StagedBase(w.fs, entries);
    }
  }

  lemma WholeBaseline(w: Workspace)
    requires Whole(w)
    ensures GoodBaseline(w.fs.baseline)
  {
  }

  lemma StagedBase(t: Tracked, entries: map<Path, RemoteEntry>)
    ensures TR.StageTarget(t, entries).baseline == t.baseline
  {
  }

  lemma NoModeChange(a: Documents, b: Documents)
    ensures forall p :: p in EntriesFrom(a) && p in EntriesFrom(b) ==> !TR.ModeOnlyChange(EntriesFrom(a)[p], EntriesFrom(b)[p])
  {
  }

  lemma EditWhole(w: Workspace, op: Op, moves: map<Path, Path>)
    requires Whole(w) && MovesCovered(Step(w.fs, op), moves)
    ensures Whole(w.(fs := Step(w.fs, op), moves := moves))
  {
    hide Faithful, TR.Consistent, Step, EntriesFrom;
    TR.StepFaithful(w.fs, op);
    TR.StepKeepsBaseline(w.fs, op);
  }

  lemma CommitWholeIff(w: Workspace, s: Server, e: Event)
    requires Whole(w) && e.Commit?
    ensures Whole(Next(w, s, e).0) <==> !(Acknowledged(w, s, e) && exists p :: DirectoryInPlace(w, p))
  {
    hide TR.Consistent, TR.Reset, Faithful, Accept, PreparedTexts, Resolved, CommitAttempt, EntriesFrom, DirectoryInPlace,
         NextTree;
    if Acknowledged(w, s, e) {
      SentTree(w, e);
      NextTreeConsistentIff(w);
      var next := Next(w, s, e).0;
      FinishedIs(w, s, e);
      if TR.Consistent(EntriesFrom(NextTree(w))) {
        ResetWhole(next);
      }
    }
  }

  lemma SentTree(w: Workspace, e: Event)
    requires e.Commit? && ToSend(w, e.given, e.correlation, e.uuid).Sends?
    ensures PreparedTexts(w.fs).Some? && ToSend(w, e.given, e.correlation, e.uuid).input.changes.documents == PreparedTexts(w.fs).value
  {
    hide PreparedTexts;
  }

  /** What the workspace keeps of its own commit once the receipt arrives. */
  lemma FinishedIs(w: Workspace, s: Server, e: Event)
    requires e.Commit? && Acknowledged(w, s, e) && PreparedTexts(w.fs).Some?
    ensures var next := Next(w, s, e).0;
            && next.snapshot.documents == NextTree(w)
            && (if TR.Consistent(EntriesFrom(NextTree(w)))
                then next.fs == TR.Reset(EntriesFrom(NextTree(w))) && next.moves == map[]
                else next.fs == w.fs && next.moves == w.moves)
  {
    hide PreparedTexts, TR.Consistent, TR.Reset, Accept, EntriesFrom, Resolved, CommitAttempt;
    SentTree(w, e);
  }

  /**
   An event leaves the tracker whole exactly unless it is a commit acknowledged while a staged
   directory stands in place of a document.
   */
  lemma NextWholeIff(w: Workspace, s: Server, e: Event)
    requires Whole(w) && !e.Open?
    requires e.Edit? && !w.busy ==> MovesCovered(Step(w.fs, e.op), e.moves)
    ensures Whole(Next(w, s, e).0) <==> !(Acknowledged(w, s, e) && exists p :: DirectoryInPlace(w, p))
  {
    hide Whole, TR.Consistent, TR.Reset, Committed, Restored, Step, EntriesFrom, DirectoryInPlace;
    match e
    case Edit(op, moves) => if !w.busy { EditWhole(w, op, moves); }
    case Commit(given, correlation, uuid, stored, delivery) => CommitWholeIff(w, s, e);
    case Discard => DiscardWhole(w);
    case Redact(redaction, delivery, reloads) => RedactWhole(w, s, redaction, delivery, reloads);
    case Restore(revision) => RestoredWhole(w, s, revision);
  }

  lemma DiscardWhole(w: Workspace)
    requires Whole(w)
    ensures Whole(Discarded(w))
  {
    hide Faithful, TR.Consistent, TR.Reset, EntriesFrom;
    if !w.busy {
      ResetWhole(Discarded(w));
    }
  }

  lemma RedactWhole(w: Workspace, s: Server, r: Redaction, delivery: Delivery, reloads: bool)
    requires Whole(w)
    ensures Whole(AfterRedaction(w, s, r, delivery, reloads).0)
  {
    hide Whole, TR.Consistent, TR.Reset, EntriesFrom;
    var next := AfterRedaction(w, s, r, delivery, reloads).0;
    if next != w {
      NoDocuments();
      ResetWhole(next);
    }
  }

  lemma NoDocuments()
    ensures EntriesFrom(map[]) == map[] && TR.Consistent(EntriesFrom(map[]))
  {
  }

  ghost predicate AllWhole(w: World) {
    forall id :: id in w.workspaces ==> Whole(w.workspaces[id])
  }

  /** No edit of the run reaches a corner of the move bookkeeping, and no commit is acknowledged over a directory in place. */
  ghost predicate Clean(w: World, es: seq<(nat, Event)>)
    decreases |es|
  {
    es != [] ==>
      && (es[0].0 in w.workspaces && !es[0].1.Open? ==>
            var ws := w.workspaces[es[0].0];
            && (es[0].1.Edit? && !ws.busy ==> MovesCovered(Step(ws.fs, es[0].1.op), es[0].1.moves))
            && !(Acknowledged(ws, w.server, es[0].1) && exists p :: DirectoryInPlace(ws, p)))
      && Clean(Do(w, es[0].0, es[0].1), es[1..])
  }

  /** Over such runs every workspace stays whole, so that every commit builds exactly the live files. */
  lemma {:induction false} RunStaysWhole(w: World, es: seq<(nat, Event)>)
    requires AllWhole(w) && Clean(w, es)
    ensures AllWhole(BackendRuns.Run(w, es))
    decreases |es|
  {
    hide Whole, Do, Acknowledged, DirectoryInPlace, Step;
    if es != [] {
      DoStaysWhole(w, es[0].0, es[0].1);
      RunStaysWhole(Do(w, es[0].0, es[0].1), es[1..]);
    }
  }

  lemma DoStaysWhole(w: World, id: nat, e: Event)
    requires AllWhole(w)
    requires id in w.workspaces && !e.Open? ==>
               var ws := w.workspaces[id];
               && (e.Edit? && !ws.busy ==> MovesCovered(Step(ws.fs, e.op), e.moves))
               && !(Acknowledged(ws, w.server, e) && exists p :: DirectoryInPlace(ws, p))
    ensures AllWhole(Do(w, id, e))
  {
    hide Whole, Next, Acknowledged, DirectoryInPlace, Step, TR.Consistent, TR.Reset, EntriesFrom, Stamps;
    if e.Open? {
      if TR.Consistent(EntriesFrom(Loaded(w.server).documents)) {
        ResetWhole(Opened(w.server));
      }
    } else if id in w.workspaces {
      NextWholeIff(w.workspaces[id], w.server, e);
    }
  }

  lemma RunCommitsLiveFiles(w: World, es: seq<(nat, Event)>, id: nat)
    requires AllWhole(w) && Clean(w, es) && id in BackendRuns.Run(w, es).workspaces
    requires PreparedTexts(BackendRuns.Run(w, es).workspaces[id].fs).Some?
    ensures var ws := BackendRuns.Run(w, es).workspaces[id];
            NextTree(ws) == LiveFiles(ws.fs.inner) <==> !exists p :: DirectoryInPlace(ws, p)
  {
    hide Faithful, Based, NextTree, PreparedTexts, DirectoryInPlace, BackendRuns.Run, Clean, TR.Consistent;
    RunStaysWhole(w, es);
    CommittedTreeIff(BackendRuns.Run(w, es).workspaces[id]);
  }

  // ---------------------------------------------------------------- the input

  function OneDocument(): Workspace {
    Workspace(TR.Reset(EntriesFrom(map[["a"] := "x"])), map[], false, Snapshot(map[["a"] := "x"], Some(0), Some(0)), None, false, None)
  }

  /** Remove the document, make a directory in its place and write a file there. */
  function Replaced(t: Tracked): Tracked {
    Step(Step(Step(t, Rm(["a"], false, false)), Mkdir(["a"], false)), Write(["a", "b"], "y"))
  }

  lemma ReplacedIs(t: Tracked, p: Path, q: Path, e: RemoteEntry)
    requires p == ["a"] && q == ["a", "b"] && e == EntryFrom("x")
    requires t == Tracked(map[p := e], map[], {}, map[[] := Directory, p := File],
                          map[[] := DirNode(DIR_MODE), p := FileNode("x", FILE_MODE)])
    ensures Replaced(t) == Tracked(map[p := e], map[], {p, q}, map[[] := Directory, p := Directory, q := File],
                                   map[[] := DirNode(DIR_MODE), p := DirNode(DIR_MODE), q := FileNode("y", FILE_MODE)])
  {
    hide Step;
    var removed := Tracked(map[p := e], map[p := e], {}, map[[] := Directory], map[[] := DirNode(DIR_MODE)]);
    var made := Tracked(map[p := e], map[], {p}, map[[] := Directory, p := Directory], map[[] := DirNode(DIR_MODE), p := DirNode(DIR_MODE)]);
    RemovesDocument(t, p, e);
    MakesDirectory(removed, p, e);
    WritesBelow(made, p, q, e);
  }

  lemma RemovesDocument(t: Tracked, p: Path, e: RemoteEntry)
    requires p == ["a"]
    requires t == Tracked(map[p := e], map[], {}, map[[] := Directory, p := File],
                          map[[] := DirNode(DIR_MODE), p := FileNode("x", FILE_MODE)])
    ensures Step(t, Rm(p, false, false)) == Tracked(map[p := e], map[p := e], {}, map[[] := Directory], map[[] := DirNode(DIR_MODE)])
  {
    assert Within(p, p) && !Within([], p);
    assert EntriesWithin(t.kinds, p).Keys == {p};
  }

  lemma MakesDirectory(t: Tracked, p: Path, e: RemoteEntry)
    requires p == ["a"]
    requires t == Tracked(map[p := e], map[p := e], {}, map[[] := Directory], map[[] := DirNode(DIR_MODE)])
    ensures Step(t, Mkdir(p, false)) ==
            Tracked(map[p := e], map[], {p}, map[[] := Directory, p := Directory], map[[] := DirNode(DIR_MODE), p := DirNode(DIR_MODE)])
  {
    NoParents(p);
    assert Parent(p) == [];
    var inner := MakeDirectory(t.inner, p, false).value;
    assert inner == map[[] := DirNode(DIR_MODE), p := DirNode(DIR_MODE)];
    assert (map q | q in inner && q !in t.inner :: Directory) == map[p := Directory];
  }

  lemma NoParents(p: Path)
    requires |p| == 1
    ensures ParentPaths(p) == {} && AllParents({p}) == {}
  {
  }

  lemma WritesBelow(t: Tracked, p: Path, q: Path, e: RemoteEntry)
    requires p == ["a"] && q == ["a", "b"]
    requires t == Tracked(map[p := e], map[], {p}, map[[] := Directory, p := Directory], map[[] := DirNode(DIR_MODE), p := DirNode(DIR_MODE)])
    ensures Step(t, Write(q, "y")) == Tracked(map[p := e], map[], {p, q}, map[[] := Directory, p := Directory, q := File],
                                              map[[] := DirNode(DIR_MODE), p := DirNode(DIR_MODE), q := FileNode("y", FILE_MODE)])
  {
    OneParent(p, q);
    var inner := WriteFile(t.inner, q, "y").value;
    assert inner == map[[] := DirNode(DIR_MODE), p := DirNode(DIR_MODE), q := FileNode("y", FILE_MODE)];
    assert (map[q := File]).Keys == {q};
  }

  lemma OneParent(p: Path, q: Path)
    requires p == ["a"] && q == ["a", "b"]
    ensures p < q && ParentPaths(q) == {p} && AllParents({q}) == {p}
  {
    forall a | a in ParentPaths(q)
      ensures a == p
    {
      assert a == q[..|a|];
    }
    assert p in ParentPaths(q);
  }

  /** The commit of it would store the document and the file below it, which no workspace can rebuild. */
  lemma DirectoryTakesPlace()
    ensures var w := OneDocument().(fs := Replaced(OneDocument().fs));
            && Whole(OneDocument()) && Whole(w) && PreparedTexts(w.fs).Some? && DirectoryInPlace(w, ["a"])
            && NextTree(w) == map[["a"] := "x", ["a", "b"] := "y"]
            && !TR.Consistent(EntriesFrom(NextTree(w)))
  {
    hide Whole, Replaced, TR.Consistent, DirectoryInPlace;
    var documents: Documents := map[["a"] := "x"];
    var p, q := ["a"], ["a", "b"];
    NoParents(p);
    ConsistentIff(documents);
    ResetWhole(OneDocument());
    ListedDocument(documents, p);
    ReplacedIs(OneDocument().fs, p, q, EntryFrom("x"));
    ReplacedWhole(OneDocument());
    var w := OneDocument().(fs := Replaced(OneDocument().fs));
    InPlace(w, p, q);
    ConsistentIff(NextTree(w));
    OneParent(p, q);
  }

  lemma ListedDocument(documents: Documents, p: Path)
    requires p == ["a"] && documents == map[p := "x"]
    ensures EntriesFrom(documents) == map[p := EntryFrom("x")]
    ensures TR.Reset(EntriesFrom(documents)) ==
            Tracked(map[p := EntryFrom("x")], map[], {}, map[[] := Directory, p := File],
                    map[[] := DirNode(DIR_MODE), p := FileNode("x", FILE_MODE)])
  {
    NoParents(p);
    var entries := EntriesFrom(documents);
    assert entries == map[p := EntryFrom("x")];
    assert entries.Keys == {p};
    assert TR.TreeFrom(entries) == map[[] := DirNode(DIR_MODE), p := FileNode("x", FILE_MODE)];
  }

  lemma ReplacedWhole(w: Workspace)
    requires Whole(w) && w.moves == map[]
    ensures Whole(w.(fs := Replaced(w.fs)))
  {
    hide Whole, Step;
    EditWhole(w, Rm(["a"], false, false), map[]);
    EditWhole(w.(fs := Step(w.fs, Rm(["a"], false, false))), Mkdir(["a"], false), map[]);
    EditWhole(w.(fs := Step(Step(w.fs, Rm(["a"], false, false)), Mkdir(["a"], false))), Write(["a", "b"], "y"), map[]);
  }

  lemma InPlace(w: Workspace, p: Path, q: Path)
    requires p == ["a"] && q == ["a", "b"] && w.moves == map[] && w.snapshot.documents == map[p := "x"]
    requires w.fs == Tracked(map[p := EntryFrom("x")], map[], {p, q}, map[[] := Directory, p := Directory, q := File],
                             map[[] := DirNode(DIR_MODE), p := DirNode(DIR_MODE), q := FileNode("y", FILE_MODE)])
    ensures PreparedTexts(w.fs).Some? && DirectoryInPlace(w, p) && NextTree(w) == map[p := "x", q := "y"]
  {
    assert p < q && Within(q, p) && Derived(w.fs.inner, p);
    assert Uploads(w.fs) == {q};
    assert Storable(w.fs.inner, q);
    assert PreparedTexts(w.fs).value == map[q := "y"];
  }
}
