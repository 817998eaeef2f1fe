/** What change tracking promises over whole sessions, at a commit, a restore and a recovery. */
module TrackingRuns {
  import opened Types
  import opened MemoryTree
  import opened Tracking

  lemma StepFaithful(t: Tracked, op: Op)
    requires Faithful(t)
    ensures Faithful(Step(t, op))
  {
    hide Faithful, Placed, WithParents, WellFormed, RecordUpserts, RecordDeletions, Copy, Move, Remove, MakeDirectory;
    FaithfulTree(t);
    match op
    case Write(p, body) =>
      if Effect(t.inner, op).Some? {
        OnePlaced(t.inner, p, FileNode(body, FILE_MODE));
        WriteRecordedFaithful(t, p, Effect(t.inner, op).value);
      }
    case Append(p, body) =>
      if Effect(t.inner, op).Some? {
        if p in t.inner && t.inner[p].FileNode? {
          SamePlaced(t.inner, p, FileNode(t.inner[p].body + body, t.inner[p].mode));
        } else {
          OnePlaced(t.inner, p, FileNode(body, FILE_MODE));
        }
        WriteRecordedFaithful(t, p, Effect(t.inner, op).value);
      }
    case Mkdir(p, recursive) => MkdirFaithful(t, p, recursive);
    case Rm(p, recursive, force) => RmFaithful(t, p, recursive, force);
    case Cp(source, destination, recursive) => CpFaithful(t, source, destination, recursive);
    case Mv(source, destination) => MvFaithful(t, source, destination);
    case Chmod(p, mode) =>
      if Effect(t.inner, op).Some? {
        SamePlaced(t.inner, p, Effect(t.inner, op).value[p]);
        UpsertsFaithful(t, Effect(t.inner, op).value, map[p := KindOf(t.inner[p])]);
      }
    case Symlink(target, p) =>
      if Effect(t.inner, op).Some? {
        OnePlaced(t.inner, p, LinkNode(target, LINK_MODE));
        UpsertsFaithful(t, Effect(t.inner, op).value, map[p := Kind.Symlink]);
      }
  }

  lemma StepKeepsBaseline(t: Tracked, op: Op)
    ensures Step(t, op).baseline == t.baseline
  {
  }

  /** Any sequence of operations, whatever some of them refuse to do, keeps tracking faithful. */
  lemma {:induction false} RunFaithful(t: Tracked, ops: seq<Op>)
    requires Faithful(t)
    ensures Faithful(Run(t, ops)) && Run(t, ops).baseline == t.baseline
    decreases |ops|
  {
    hide Faithful, Step;
    if ops != [] {
      StepFaithful(t, ops[0]);
      StepKeepsBaseline(t, ops[0]);
      RunFaithful(Step(t, ops[0]), ops[1..]);
    }
  }

  // ---------------------------------------------------------------- what a commit would store

  /** uploadDraftFor followed by prepareUpload. */
  function Prepared(n: Node, now: nat): RemoteEntry {
    match n
    case FileNode(body, mode) => PreparedEntry(File, mode, body, Sha256(body), None, now)
    case DirNode(mode) => PreparedEntry(Directory, mode, "", Sha256(""), None, now)
    case LinkNode(target, mode) => PreparedEntry(Kind.Symlink, mode, "", Sha256(target), Some(target), now)
  }

  function PreparedEntry(kind: Kind, mode: nat, body: Body, hash: Hash, target: Option<string>, now: nat): RemoteEntry {
    RemoteEntry(kind, mode, body, Some(hash), target, now, Some(VersionOf(Some(hash), kind, mode, now, target)), None)
  }

  function Drafts(t: Tracked, now: nat): map<Path, RemoteEntry> {
    map p | p in t.upserts && p in t.inner :: Prepared(t.inner[p], now)
  }

  function Staged(t: Tracked, now: nat): map<Path, RemoteEntry> {
    Overlay(t.baseline, t.deletions.Keys, Drafts(t, now))
  }

  lemma PreparedMeans(n: Node, now: nat)
    ensures Meaning(Prepared(n, now)) == n && Honest(Prepared(n, now))
  {
  }

  /**
   The delta is correct: the staged entries are exactly the live files and links with their
   contents, together with live directories; uploads and deletions are disjoint.
   */
  lemma StagedIsLive(t: Tracked, now: nat)
    requires Faithful(t)
    ensures t.upserts !! t.deletions.Keys && Drafts(t, now).Keys == t.upserts
    ensures forall p :: p in Staged(t, now) ==> p in t.inner && Agrees(t.inner[p], Staged(t, now)[p])
    ensures forall p :: p in t.inner && !t.inner[p].DirNode? ==> p in Staged(t, now)
  {
    forall p | p in Staged(t, now)
      ensures p in t.inner && Agrees(t.inner[p], Staged(t, now)[p])
    {
      if p in t.upserts {
        PreparedMeans(t.inner[p], now);
      } else {
        assert Kept(t, p);
      }
    }
    forall p | p in t.inner && !t.inner[p].DirNode?
      ensures p in Staged(t, now)
    {
      assert p in t.upserts || Kept(t, p);
    }
  }

  // ---------------------------------------------------------------- rebuilding the tree

  /** A link is rebuilt with the mode every link has. */
  function Rebuilt(e: RemoteEntry): Node {
    if e.kind == Kind.Symlink then LinkNode(TargetText(e.target), LINK_MODE) else Meaning(e)
  }

  /** rebuildLiveTree: the listed entries, and the directories their paths imply. */
  function TreeFrom(entries: map<Path, RemoteEntry>): Tree {
    map p | p in {[]} + AllParents(entries.Keys) + entries.Keys ::
      if p in entries then Rebuilt(entries[p]) else DirNode(DIR_MODE)
  }

  /** No entry lies below a file or a link, and the root is not an entry. */
  predicate Consistent(entries: map<Path, RemoteEntry>) {
    && GoodBaseline(entries)
    && forall p, a :: p in entries && a in entries && a in ParentPaths(p) ==> entries[a].kind == Directory
  }

  lemma TreeFromWellFormed(entries: map<Path, RemoteEntry>)
    requires Consistent(entries)
    ensures WellFormed(TreeFrom(entries))
    ensures forall p :: p in TreeFrom(entries) && p !in entries ==> TreeFrom(entries)[p].DirNode?
  {
    hide AllParents, ParentPaths;
    var t := TreeFrom(entries);
    forall p | p in t && p != []
      ensures Parent(p) in t && t[Parent(p)].DirNode?
    {
      var q :| q in entries && (p == q || p in ParentPaths(q));
      assert Parent(p) < p && (Parent(p) == [] || Parent(p) in ParentPaths(q));
    }
  }

  function Reset(entries: map<Path, RemoteEntry>): Tracked {
    Tracked(entries, map[], {}, KindsOf(TreeFrom(entries)), TreeFrom(entries))
  }

  lemma ResetFaithful(entries: map<Path, RemoteEntry>)
    requires Consistent(entries)
    ensures Faithful(Reset(entries))
  {
    hide WellFormed, TreeFrom;
    TreeFromWellFormed(entries);
    TreeFromEntries(entries);
    var t := Reset(entries);
    forall p | Kept(t, p)
      ensures p in t.inner && Agrees(t.inner[p], t.baseline[p])
    {
    }
  }

  lemma TreeFromEntries(entries: map<Path, RemoteEntry>)
    ensures forall p :: p in entries ==> p in TreeFrom(entries) && TreeFrom(entries)[p] == Rebuilt(entries[p])
  {
  }

  // ---------------------------------------------------------------- directories nobody staged

  function StagedPaths(t: Tracked): set<Path> {
    (t.baseline.Keys - t.deletions.Keys) + t.upserts
  }

  /** A path that a rebuild of the staged entries brings back as itself or as an implied directory. */
  predicate BroughtBack(t: Tracked, p: Path) {
    p == [] || p in StagedPaths(t) || exists q :: q in StagedPaths(t) && p < q
  }

  predicate DirectoriesCovered(t: Tracked) {
    forall p :: p in t.inner && t.inner[p].DirNode? ==> BroughtBack(t, p)
  }

  /** A live directory with no entry of its own has the mode implied directories are given. */
  predicate PlainImplied(t: Tracked) {
    forall p :: p in t.inner && t.inner[p].DirNode? && p !in StagedPaths(t) ==> t.inner[p] == DirNode(DIR_MODE)
  }

  /** The same tree, the modes of links aside. */
  predicate Alike(a: Tree, b: Tree) {
    && a.Keys == b.Keys
    && forall p :: p in a ==> a[p] == b[p] || (a[p].LinkNode? && b[p].LinkNode? && a[p].target == b[p].target)
  }

  /** What is staged rebuilds to the live tree exactly when every live directory is staged, kept or above a path that is. */
  lemma RebuildsLiveIff(t: Tracked, now: nat)
    requires Faithful(t) && PlainImplied(t)
    ensures Alike(TreeFrom(Staged(t, now)), t.inner) <==> DirectoriesCovered(t)
  {
    hide TreeFrom, Faithful, AllParents, Rebuilt, Agrees;
    forall p
      ensures p in TreeFrom(Staged(t, now)) ==>
                && p in t.inner
                && (TreeFrom(Staged(t, now))[p] == t.inner[p] ||
                    (TreeFrom(Staged(t, now))[p].LinkNode? && t.inner[p].LinkNode? &&
                     TreeFrom(Staged(t, now))[p].target == t.inner[p].target))
      ensures p in t.inner ==> (p in TreeFrom(Staged(t, now)) <==> !t.inner[p].DirNode? || BroughtBack(t, p))
    {
      RebuiltAt(t, now, p);
    }
  }

  lemma StagedKeys(t: Tracked, now: nat)
    requires Faithful(t)
    ensures Staged(t, now).Keys == StagedPaths(t)
    ensures WellFormed(t.inner)
  {
    hide WellFormed, KindsOf;
  }

  lemma RebuiltAt(t: Tracked, now: nat, p: Path)
    requires Faithful(t) && PlainImplied(t)
    ensures p in TreeFrom(Staged(t, now)) ==>
              && p in t.inner
              && (TreeFrom(Staged(t, now))[p] == t.inner[p] ||
                  (TreeFrom(Staged(t, now))[p].LinkNode? && t.inner[p].LinkNode? &&
                   TreeFrom(Staged(t, now))[p].target == t.inner[p].target))
    ensures p in t.inner ==> (p in TreeFrom(Staged(t, now)) <==> !t.inner[p].DirNode? || BroughtBack(t, p))
  {
    hide Faithful, WellFormed, Staged;
    StagedIsLive(t, now);
    StagedKeys(t, now);
    var staged := Staged(t, now);
    if p in TreeFrom(staged) && p !in staged && p != [] {
      var q :| q in staged && p in ParentPaths(q);
      AncestorsAreDirectories(t.inner, q, p);
    }
    RootIsDirectory(t.inner);
    if p in t.inner && BroughtBack(t, p) && p != [] && p !in staged {
      var q :| q in staged && p < q;
      assert p in ParentPaths(q);
    }
  }

  lemma RootIsDirectory(t: Tree)
    requires WellFormed(t)
    ensures [] in t && t[[]].DirNode?
  {
  }

  /** A file written below a new directory and removed again leaves the directory live and nothing staged. */
  lemma DirectoryLeftBehind()
    ensures var t := Run(Reset(map[]), [Write(["a", "b"], ""), Rm(["a", "b"], false, false)]);
            && Faithful(t) && PlainImplied(t) && ["a"] in t.inner && t.inner[["a"]].DirNode?
            && t.upserts == {} && t.deletions == map[]
            && forall now :: Staged(t, now) == map[] && ["a"] !in TreeFrom(Staged(t, now))
  {
    hide Faithful;
    var ops := [Write(["a", "b"], ""), Rm(["a", "b"], false, false)];
    var t0 := Reset(map[]);
    EmptyListing();
    ResetFaithful(map[]);
    PlainReset(map[]);
    RunFaithful(t0, ops);
    RunPlain(t0, ops);
    var t1 := Step(t0, ops[0]);
    WrittenBelow(t0);
    assert ops[1..][1..] == [];
    assert Run(t0, ops) == Run(t1, ops[1..]) == Step(t1, ops[1]);
    RemovedBelow(t1);
  }

  lemma EmptyListing()
    ensures Consistent(map[])
    ensures Reset(map[]) == Tracked(map[], map[], {}, map[[] := Directory], map[[] := DirNode(DIR_MODE)])
  {
    assert AllParents({}) == {};
  }

  lemma FileBelow(t: Tree, p: Path)
    requires t == map[[] := DirNode(DIR_MODE)] && p == ["a", "b"]
    ensures ParentPaths(p) == {["a"]} && AllParents({p}) == {["a"]}
    ensures WriteFile(t, p, "") ==
            Some(map[[] := DirNode(DIR_MODE), ["a"] := DirNode(DIR_MODE), p := FileNode("", FILE_MODE)])
  {
    assert ["a"] == p[..1] && ["a"] < p;
    forall a | a in ParentPaths(p)
      ensures a == ["a"]
    {
      assert a == p[..|a|];
    }
    assert ["a"] in ParentPaths(p);
    assert ParentPaths(p) == {["a"]};
    assert AllParents({p}) == {["a"]};
    assert Placeable(t, p);
    var w := WithParents(t, p)[p := FileNode("", FILE_MODE)];
    assert w.Keys == {[], ["a"], p};
    assert w == map[[] := DirNode(DIR_MODE), ["a"] := DirNode(DIR_MODE), p := FileNode("", FILE_MODE)];
  }

  lemma WrittenBelow(t: Tracked)
    requires t == Tracked(map[], map[], {}, map[[] := Directory], map[[] := DirNode(DIR_MODE)])
    ensures Step(t, Write(["a", "b"], "")) ==
            Tracked(map[], map[], {["a", "b"]}, map[[] := Directory, ["a"] := Directory, ["a", "b"] := File],
                    map[[] := DirNode(DIR_MODE), ["a"] := DirNode(DIR_MODE), ["a", "b"] := FileNode("", FILE_MODE)])
  {
    hide WriteFile, ParentPaths, AllParents;
    var p := ["a", "b"];
    FileBelow(t.inner, p);
    assert (map[p := File]).Keys == {p};
  }

  lemma RemovedBelow(t: Tracked)
    requires t == Tracked(map[], map[], {["a", "b"]}, map[[] := Directory, ["a"] := Directory, ["a", "b"] := File],
                          map[[] := DirNode(DIR_MODE), ["a"] := DirNode(DIR_MODE), ["a", "b"] := FileNode("", FILE_MODE)])
    ensures var u := Step(t, Rm(["a", "b"], false, false));
            && ["a"] in u.inner && u.inner[["a"]].DirNode? && u.upserts == {} && u.deletions == map[]
            && forall now :: Staged(u, now) == map[] && ["a"] !in TreeFrom(Staged(u, now))
  {
    var p := ["a", "b"];
    assert Within(p, p) && !Within(["a"], p) && !Within([], p);
    assert EntriesWithin(t.kinds, p).Keys == {p};
    assert AllParents({}) == {};
    forall now
      ensures Staged(Step(t, Rm(p, false, false)), now) == map[]
    {
    }
  }

  lemma UpsertsPlain(t: Tracked, inner: Tree, ks: map<Path, Kind>)
    requires PlainImplied(t)
    requires forall p :: p in inner && p !in ks ==> (p in t.inner && inner[p] == t.inner[p]) || inner[p] == DirNode(DIR_MODE)
    ensures PlainImplied(RecordUpserts(t.(inner := inner), ks))
  {
  }

  lemma DeletionsPlain(t: Tracked, inner: Tree, ps: set<Path>)
    requires PlainImplied(t)
    requires forall p :: p in inner ==> p !in ps && p in t.inner && inner[p] == t.inner[p]
    ensures PlainImplied(RecordDeletions(t.(inner := inner), ps))
  {
  }

  lemma WritePlain(t: Tracked, p: Path, inner: Tree)
    requires PlainImplied(t) && p in inner && inner[p].FileNode?
    requires forall q :: q in inner && q != p ==> (q in t.inner && inner[q] == t.inner[q]) || inner[q] == DirNode(DIR_MODE)
    ensures PlainImplied(WriteRecorded(t, p, inner))
  {
    UpsertsPlain(t, inner, map[p := File]);
  }

  /** Operations give no mode of their own to directories they only imply. */
  lemma StepPlain(t: Tracked, op: Op)
    requires Sound(t) && PlainImplied(t)
    ensures PlainImplied(Step(t, op))
  {
    hide PlainImplied, RecordUpserts, RecordDeletions, Placeable, WriteRecorded, CarriedTree, CarriedKinds, EntriesWithin,
         KindsOf, Transferable, Sound;
    if Effect(t.inner, op).Some? {
      match op
      case Write(p, body) => WritePlain(t, p, Effect(t.inner, op).value);
      case Append(p, body) => WritePlain(t, p, Effect(t.inner, op).value);
      case Mkdir(p, recursive) =>
        var inner := Effect(t.inner, op).value;
        UpsertsPlain(t, inner, map q | q in inner && q !in t.inner :: Directory);
      case Rm(p, recursive, force) => RemovePlain(t, p, recursive, force);
      case Cp(source, destination, recursive) =>
        CopySource(t.inner, source, destination, recursive);
        SoundKinds(t);
        CarriedKindsAre(t, source, destination);
        KeysOfKinds(CarriedTree(t.inner, source, destination));
        UpsertsPlain(t, Effect(t.inner, op).value, CarriedKinds(EntriesWithin(t.kinds, source), source, destination));
      case Mv(source, destination) => MovePlain(t, source, destination);
      case Chmod(p, mode) =>
        SoundKinds(t);
        KindAt(t.inner, p);
        UpsertsPlain(t, Effect(t.inner, op).value, map[p := t.kinds[p]]);
      case Symlink(target, p) => UpsertsPlain(t, Effect(t.inner, op).value, map[p := Kind.Symlink]);
    }
  }

  lemma SoundKinds(t: Tracked)
    requires Sound(t)
    ensures t.kinds == KindsOf(t.inner) && WellFormed(t.inner)
  {
  }

  lemma RemovePlain(t: Tracked, p: Path, recursive: bool, force: bool)
    requires Sound(t) && PlainImplied(t) && Remove(t.inner, p, recursive, force).Some?
    ensures PlainImplied(Step(t, Rm(p, recursive, force)))
  {
    hide WellFormed, RecordDeletions, PlainImplied, Delta;
    if p !in t.inner {
      NothingWithinAbsent(t.inner, p);
    }
    DeletionsPlain(t, Remove(t.inner, p, recursive, force).value, EntriesWithin(t.kinds, p).Keys);
  }

  lemma PlacedOutside(rest: Tree, destination: Path, carried: Tree)
    ensures var inner := WithParents(rest, destination) + carried;
            forall p :: p in inner && p !in carried ==> (p in rest && inner[p] == rest[p]) || inner[p] == DirNode(DIR_MODE)
  {
    hide ParentPaths;
  }

  lemma MoveStep(t: Tracked, source: Path, destination: Path)
    requires Move(t.inner, source, destination).Some?
    ensures var moved := EntriesWithin(t.kinds, source);
            Step(t, Mv(source, destination)) ==
            RecordUpserts(RecordDeletions(t.(inner := Move(t.inner, source, destination).value), moved.Keys),
                          CarriedKinds(moved, source, destination))
  {
    hide Move, RecordUpserts, RecordDeletions, EntriesWithin, CarriedKinds;
  }

  lemma MovePlain(t: Tracked, source: Path, destination: Path)
    requires Sound(t) && PlainImplied(t) && Move(t.inner, source, destination).Some?
    ensures PlainImplied(Step(t, Mv(source, destination)))
  {
    hide AllParents, ParentPaths, PlainImplied, Move, RecordUpserts, RecordDeletions, CarriedTree, WellFormed, Delta,
         Placeable, Carried, EntriesWithin, CarriedKinds, KindsOf, Transferable, Rest, Sound, WithParents, Step;
    SoundKinds(t);
    MoveStep(t, source, destination);
    var inner := Move(t.inner, source, destination).value;
    var moved := EntriesWithin(t.kinds, source);
    var rest := Rest(t.inner, source);
    MoveSource(t.inner, source, destination);
    RestIsWithout(t, source);
    DeletionsPlain(t, rest, moved.Keys);
    MoveIsCopyOfRest(t.inner, source, destination);
    CarriedKindsAre(t, source, destination);
    KeysOfKinds(CarriedTree(t.inner, source, destination));
    DeletionsLeaveTree(t, moved.Keys, rest, inner);
    PlacedOutside(rest, destination, CarriedTree(t.inner, source, destination));
    UpsertsPlain(RecordDeletions(t.(inner := rest), moved.Keys), inner, CarriedKinds(moved, source, destination));
  }

  lemma {:induction false} RunPlain(t: Tracked, ops: seq<Op>)
    requires Faithful(t) && PlainImplied(t)
    ensures PlainImplied(Run(t, ops))
    decreases |ops|
  {
    hide Faithful, Step, PlainImplied, Sound;
    if ops != [] {
      StepFaithful(t, ops[0]);
      FaithfulIsSound(t);
      StepPlain(t, ops[0]);
      RunPlain(Step(t, ops[0]), ops[1..]);
    }
  }

  lemma PlainReset(entries: map<Path, RemoteEntry>)
    ensures PlainImplied(Reset(entries))
  {
  }

  /** What is rebuilt depends on what the entries mean and on nothing else. */
  lemma TreeFromMeaning(a: map<Path, RemoteEntry>, b: map<Path, RemoteEntry>)
    requires TreeOf(a) == TreeOf(b)
    ensures TreeFrom(a) == TreeFrom(b)
  {
    hide AllParents;
    assert a.Keys == TreeOf(a).Keys == TreeOf(b).Keys == b.Keys;
    forall p | p in a
      ensures Rebuilt(a[p]) == Rebuilt(b[p])
    {
      assert TreeOf(a)[p] == TreeOf(b)[p];
    }
  }

  // ---------------------------------------------------------------- restore

  function SameStagedEntry(baseline: RemoteEntry, target: RemoteEntry): bool {
    baseline.kind == target.kind &&
    match target.kind
    case Directory => baseline.mode == target.mode
    case Symlink => baseline.target == target.target
    case File => baseline.contentHash.Some? && baseline.contentHash == target.contentHash
  }

  /** stageRemoteTree: the target becomes the live tree, its difference the pending changes. */
  function StageTarget(t: Tracked, target: map<Path, RemoteEntry>): Tracked {
    Tracked(
      t.baseline,
      (map p | p in t.baseline && p != [] && p !in target :: t.baseline[p]),
      (set p | p in target && !(p in t.baseline && SameStagedEntry(t.baseline[p], target[p]))),
      KindsOf(TreeFrom(target)),
      TreeFrom(target))
  }

  /** The staged tree has the target's paths, each equal to the target up to SameStagedEntry. */
  lemma RestoreStagesTarget(t: Tracked, target: map<Path, RemoteEntry>, now: nat)
    requires GoodBaseline(t.baseline)
    ensures Staged(StageTarget(t, target), now).Keys == target.Keys
    ensures forall p :: p in target ==>
              var e := Staged(StageTarget(t, target), now)[p];
              Meaning(e) == Rebuilt(target[p]) || (p in t.baseline && e == t.baseline[p] && SameStagedEntry(e, target[p]))
  {
    var u := StageTarget(t, target);
    TreeFromEntries(target);
    forall p | p in target && p in u.upserts
      ensures Meaning(Staged(u, now)[p]) == Rebuilt(target[p])
    {
      PreparedMeans(u.inner[p], now);
    }
  }

  /** A file whose bytes are those of the baseline but whose mode differs. */
  predicate ModeOnlyChange(b: RemoteEntry, e: RemoteEntry) {
    b.kind == File && e.kind == File && b.contentHash.Some? && b.contentHash == e.contentHash && b.mode != e.mode
  }

  /** Restore ignores a change of nothing but a file's mode; apart from that it is exact. */
  lemma RestoreFaithfulIff(t: Tracked, target: map<Path, RemoteEntry>)
    requires GoodBaseline(t.baseline) && Consistent(target)
    ensures Faithful(StageTarget(t, target)) <==>
            !exists p :: p in t.baseline && p in target && ModeOnlyChange(t.baseline[p], target[p])
  {
    hide WellFormed, TreeFrom;
    var u := StageTarget(t, target);
    TreeFromWellFormed(target);
    TreeFromEntries(target);
    forall p | Kept(u, p)
      ensures p in target && (Agrees(u.inner[p], u.baseline[p]) <==> !ModeOnlyChange(t.baseline[p], target[p]))
    {
      assert Honest(t.baseline[p]) && Honest(target[p]);
    }
    forall p | p in t.baseline && p in target && ModeOnlyChange(t.baseline[p], target[p])
      ensures Kept(u, p)
    {
    }
  }

  function OneFile(mode: nat): map<Path, RemoteEntry> {
    map[["run"] := PreparedEntry(File, mode, "#!", Sha256("#!"), None, 0)]
  }

  /** A concrete target that differs from the baseline in a file's mode and yet stages no change. */
  lemma RestoreMissesMode()
    ensures Faithful(Reset(OneFile(0x1A4))) && Consistent(OneFile(0x1ED))
    ensures var u := StageTarget(Reset(OneFile(0x1A4)), OneFile(0x1ED));
            u.upserts == {} && u.deletions == map[] && !Faithful(u)
    ensures TreeOf(OneFile(0x1A4)) != TreeOf(OneFile(0x1ED))
  {
    hide Faithful, TreeFrom, WellFormed;
    assert ParentPaths(["run"]) == {};
    ResetFaithful(OneFile(0x1A4));
    RestoreFaithfulIff(Reset(OneFile(0x1A4)), OneFile(0x1ED));
    assert ["run"] in OneFile(0x1A4) && ModeOnlyChange(OneFile(0x1A4)[["run"]], OneFile(0x1ED)[["run"]]);
    assert TreeOf(OneFile(0x1A4))[["run"]] != TreeOf(OneFile(0x1ED))[["run"]];
  }

  // ---------------------------------------------------------------- after a recovery

  /** refreshBaseline: a new listing becomes the baseline; deletions of vanished paths are dropped. */
  function Refreshed(t: Tracked, next: map<Path, RemoteEntry>): Tracked {
    t.(baseline := next, deletions := map p | p in t.deletions && p in next :: next[p])
  }

  /** The new listing agrees with the live tree on every path without a staged change. */
  predicate UnchangedElsewhere(t: Tracked, next: map<Path, RemoteEntry>) {
    && (forall p :: p in next && !Changed(t, p) ==> p in t.inner && Agrees(t.inner[p], next[p]))
    && (forall p :: p in t.inner && !Changed(t, p) && !t.inner[p].DirNode? ==> p in next)
  }

  lemma RefreshFaithfulIff(t: Tracked, next: map<Path, RemoteEntry>)
    requires Faithful(t) && GoodBaseline(next)
    ensures Faithful(Refreshed(t, next)) <==> UnchangedElsewhere(t, next)
  {
    hide WellFormed, KindsOf;
    var u := Refreshed(t, next);
    forall p
      ensures Kept(u, p) <==> p in next && !Changed(t, p)
    {
    }
    forall p | p in t.deletions && p in t.inner
      ensures t.inner[p].DirNode?
    {
    }
  }

  // ---------------------------------------------------------------- what commit relies on

  /** Uploads name live paths and deletions name baseline entries, and no path is in both. */
  ghost predicate Delta(t: Tracked) {
    && t.upserts <= t.inner.Keys
    && (forall p :: p in t.deletions ==> p in t.baseline && t.deletions[p] == t.baseline[p] && p !in t.upserts)
  }

  /** A delta survives every way the pending changes arise: operations, a restore, a new listing. */
  lemma DeltaHolds(t: Tracked, target: map<Path, RemoteEntry>, next: map<Path, RemoteEntry>)
    ensures Faithful(t) ==> Delta(t)
    ensures Delta(StageTarget(t, target))
    ensures Delta(t) ==> Delta(Refreshed(t, next))
  {
    TreeFromEntries(target);
  }

  /** What holds of every open workspace, also when a recovery has put a new baseline under its staged changes. */
  ghost predicate Sound(t: Tracked) {
    WellFormed(t.inner) && t.kinds == KindsOf(t.inner) && Delta(t)
  }

  lemma FaithfulIsSound(t: Tracked)
    requires Faithful(t)
    ensures Sound(t)
  {
  }

  lemma SoundHolds(t: Tracked, entries: map<Path, RemoteEntry>)
    ensures Sound(t) ==> Sound(Refreshed(t, entries))
    ensures Consistent(entries) ==> Sound(Reset(entries)) && Sound(StageTarget(t, entries))
  {
    hide WellFormed, TreeFrom, Consistent;
    DeltaHolds(t, entries, entries);
    if Consistent(entries) {
      TreeFromWellFormed(entries);
    }
  }

  lemma UpsertsDelta(t: Tracked, inner: Tree, ks: map<Path, Kind>)
    requires Delta(t) && t.inner.Keys + ks.Keys <= inner.Keys
    ensures Delta(RecordUpserts(t.(inner := inner), ks))
  {
  }

  lemma DeletionsDelta(t: Tracked, inner: Tree, ps: set<Path>)
    requires Delta(t) && t.inner.Keys - ps <= inner.Keys
    ensures Delta(RecordDeletions(t.(inner := inner), ps))
  {
  }

  lemma WriteDelta(t: Tracked, p: Path, inner: Tree)
    requires Delta(t) && t.inner.Keys + {p} <= inner.Keys
    ensures Delta(WriteRecorded(t, p, inner))
  {
    UpsertsDelta(t, inner, map[p := File]);
  }

  lemma StepDelta(t: Tracked, op: Op)
    requires Sound(t)
    ensures Delta(Step(t, op))
  {
    hide Delta, WithParents, WellFormed, RecordUpserts, RecordDeletions, Placeable, WriteRecorded, CarriedTree,
         CarriedKinds, EntriesWithin, KindsOf, Transferable;
    if Effect(t.inner, op).Some? {
      match op
      case Write(p, body) => WriteDelta(t, p, Effect(t.inner, op).value);
      case Append(p, body) => WriteDelta(t, p, Effect(t.inner, op).value);
      case Mkdir(p, recursive) =>
        var inner := Effect(t.inner, op).value;
        UpsertsDelta(t, inner, map q | q in inner && q !in t.inner :: Directory);
      case Rm(p, recursive, force) => RemoveDelta(t, p, recursive, force);
      case Cp(source, destination, recursive) =>
        CopySource(t.inner, source, destination, recursive);
        CarriedKindsAre(t, source, destination);
        KeysOfKinds(CarriedTree(t.inner, source, destination));
        UpsertsDelta(t, Effect(t.inner, op).value, CarriedKinds(EntriesWithin(t.kinds, source), source, destination));
      case Mv(source, destination) => MoveDelta(t, source, destination);
      case Chmod(p, mode) => ChmodDelta(t, p, mode);
      case Symlink(target, p) => UpsertsDelta(t, Effect(t.inner, op).value, map[p := Kind.Symlink]);
    }
  }

  lemma KeysOfKinds(t: Tree)
    ensures KindsOf(t).Keys == t.Keys
  {
  }

  lemma CopySource(t: Tree, source: Path, destination: Path, recursive: bool)
    requires Copy(t, source, destination, recursive).Some?
    ensures source != []
  {
  }

  lemma ChmodDelta(t: Tracked, p: Path, mode: nat)
    requires Sound(t)
    ensures Delta(Step(t, Chmod(p, mode)))
  {
    hide WellFormed;
    if p in t.inner {
      UpsertsDelta(t, Effect(t.inner, Chmod(p, mode)).value, map[p := KindOf(t.inner[p])]);
    }
  }

  lemma RemoveDelta(t: Tracked, p: Path, recursive: bool, force: bool)
    requires Sound(t) && Remove(t.inner, p, recursive, force).Some?
    ensures Delta(Step(t, Rm(p, recursive, force)))
  {
    hide WellFormed, RecordDeletions, Delta;
    DeletionsDelta(t, Remove(t.inner, p, recursive, force).value, EntriesWithin(t.kinds, p).Keys);
  }

  lemma MoveSource(t: Tree, source: Path, destination: Path)
    requires Move(t, source, destination).Some?
    ensures source in t && source != []
  {
  }

  lemma MoveDelta(t: Tracked, source: Path, destination: Path)
    requires Sound(t) && Move(t.inner, source, destination).Some?
    ensures Delta(Step(t, Mv(source, destination)))
  {
    hide AllParents, ParentPaths, Delta, Move, RecordUpserts, RecordDeletions, CarriedTree, WellFormed, Placed, WithParents,
         Rest, Placeable, Carried, EntriesWithin, CarriedKinds, KindsOf, Transferable;
    var inner := Move(t.inner, source, destination).value;
    var moved := EntriesWithin(t.kinds, source);
    var rest := Rest(t.inner, source);
    MoveSource(t.inner, source, destination);
    RestIsWithout(t, source);
    DeletionsDelta(t, rest, moved.Keys);
    MoveIsCopyOfRest(t.inner, source, destination);
    CarriedKindsAre(t, source, destination);
    KeysOfKinds(CarriedTree(t.inner, source, destination));
    DeletionsLeaveTree(t, moved.Keys, rest, inner);
    UpsertsDelta(RecordDeletions(t.(inner := rest), moved.Keys), inner, CarriedKinds(moved, source, destination));
  }
}
