/**
 Change tracking on values: the baseline last listed from storage, the staged deletions and
 upserts, the kind index and the live tree.  `Faithful` says that deletions and upserts are a
 correct delta from the baseline to the live tree; every operation keeps it.
 */
module Tracking {
  import opened Types
  import opened MemoryTree

  datatype Tracked = Tracked(
    baseline: map<Path, RemoteEntry>,
    deletions: map<Path, RemoteEntry>,
    upserts: set<Path>,
    kinds: map<Path, Kind>,
    inner: Tree)

  /** The node is what the entry describes; the tree does not keep the mode of a link. */
  predicate Agrees(n: Node, e: RemoteEntry) {
    match e.kind
    case File => n == FileNode(e.body, e.mode)
    case Directory => n == DirNode(e.mode)
    case Symlink => n.LinkNode? && n.target == TargetText(e.target)
  }

  /** A baseline entry with no staged change. */
  predicate Kept(t: Tracked, p: Path) {
    p in t.baseline && p !in t.deletions && p !in t.upserts
  }

  function KindsOf(t: Tree): map<Path, Kind> {
    map p | p in t :: KindOf(t[p])
  }

  predicate GoodBaseline(baseline: map<Path, RemoteEntry>) {
    [] !in baseline && forall p :: p in baseline ==> Honest(baseline[p])
  }

  ghost predicate Faithful(t: Tracked) {
    && GoodBaseline(t.baseline)
    && WellFormed(t.inner)
    && t.kinds == KindsOf(t.inner)
    && t.upserts <= t.inner.Keys
    && (forall p :: p in t.deletions ==> p in t.baseline && t.deletions[p] == t.baseline[p] && p !in t.upserts)
    && (forall p :: Kept(t, p) ==> p in t.inner && Agrees(t.inner[p], t.baseline[p]))
    && (forall p :: p in t.inner && !t.inner[p].DirNode? ==> p in t.upserts || Kept(t, p))
  }

  // ---------------------------------------------------------------- tracked-inspection.ts

  function AllParents(ps: set<Path>): (r: set<Path>)
    ensures forall p, a :: p in ps && a in ParentPaths(p) ==> a in r
    ensures forall a :: a in r ==> exists p :: p in ps && a in ParentPaths(p)
  {
    set p, a | p in ps && a in ParentPaths(p) :: a
  }

  /** The index with `parents` made directories and then `ks` set. */
  function KindsWith(kinds: map<Path, Kind>, parents: set<Path>, ks: map<Path, Kind>): map<Path, Kind> {
    map p | p in kinds.Keys + parents + ks.Keys ::
      if p in ks then ks[p] else if p in parents then Directory else kinds[p]
  }

  /** recordUpsert for each of the given paths. */
  function RecordUpserts(t: Tracked, ks: map<Path, Kind>): (r: Tracked)
    ensures r.baseline == t.baseline && r.inner == t.inner
    ensures t.kinds.Keys + ks.Keys <= r.kinds.Keys
  {
    t.(kinds := KindsWith(t.kinds, AllParents(ks.Keys), ks),
       deletions := t.deletions - ks.Keys,
       upserts := t.upserts + ks.Keys)
  }

  /** recordDeletion for each of the given paths. */
  function RecordDeletions(t: Tracked, ps: set<Path>): (r: Tracked)
    ensures r.baseline == t.baseline && r.inner == t.inner && r.kinds == t.kinds - ps
  {
    t.(deletions := map p | p in t.deletions.Keys + ps * t.baseline.Keys ::
                      if p in ps && p in t.baseline then t.baseline[p] else t.deletions[p],
       upserts := t.upserts - ps,
       kinds := t.kinds - ps)
  }

  function EntriesWithin(kinds: map<Path, Kind>, root: Path): (r: map<Path, Kind>)
    ensures forall p :: p in r <==> p in kinds && p != [] && Within(p, root)
  {
    map p | p in kinds && p != [] && Within(p, root) :: kinds[p]
  }

  function CarriedKinds(ks: map<Path, Kind>, source: Path, destination: Path): map<Path, Kind>
    requires forall p :: p in ks ==> Within(p, source)
  {
    var keys := set p | p in ks :: Carried(p, source, destination);
    map q | q in keys && Within(q, destination) && Carried(q, destination, source) in ks :: ks[Carried(q, destination, source)]
  }

  function HashOf(e: RemoteEntry): Hash {
    if e.contentHash.Some? then e.contentHash.value else Sha256(e.body)
  }

  predicate MatchesBaseline(t: Tracked, p: Path) {
    && p in t.baseline && t.baseline[p].kind == File
    && p in t.inner && t.inner[p].FileNode?
    && Sha256(t.inner[p].body) == HashOf(t.baseline[p])
    && t.inner[p].mode == t.baseline[p].mode
  }

  /** reconcileFile: a file written back to its baseline is no change. */
  function Reconcile(t: Tracked, p: Path): (r: Tracked)
    ensures r.baseline == t.baseline && r.inner == t.inner && r.kinds == t.kinds
  {
    if MatchesBaseline(t, p) then t.(deletions := t.deletions - {p}, upserts := t.upserts - {p}) else t
  }

  // ---------------------------------------------------------------- tracked-file-system.ts

  datatype Op =
    | Write(path: Path, body: Body)
    | Append(path: Path, body: Body)
    | Mkdir(path: Path, recursive: bool)
    | Rm(path: Path, recursive: bool, force: bool)
    | Cp(source: Path, destination: Path, recursive: bool)
    | Mv(source: Path, destination: Path)
    | Chmod(path: Path, mode: nat)
    | Symlink(target: string, path: Path)

  /** What the operation does to the tree alone. */
  function Effect(t: Tree, op: Op): Option<Tree> {
    match op
    case Write(p, body) => WriteFile(t, p, body)
    case Append(p, body) => AppendFile(t, p, body)
    case Mkdir(p, recursive) => MakeDirectory(t, p, recursive)
    case Rm(p, recursive, force) => Remove(t, p, recursive, force)
    case Cp(source, destination, recursive) => Copy(t, source, destination, recursive)
    case Mv(source, destination) => Move(t, source, destination)
    case Chmod(p, mode) => ChangeMode(t, p, mode)
    case Symlink(target, p) => MakeLink(t, p, target)
  }

  function Changed(t: Tracked, p: Path): bool {
    p in t.upserts || p in t.deletions
  }

  function WriteRecorded(t: Tracked, p: Path, inner: Tree): Tracked {
    var u := RecordUpserts(t.(inner := inner), map[p := File]);
    if Changed(t, p) then Reconcile(u, p) else u
  }

  /** A tracked operation: the tree's effect, if it has one, and the bookkeeping for it. */
  function Step(t: Tracked, op: Op): Tracked {
    var effect := Effect(t.inner, op);
    if effect.None? then t
    else
      var next := t.(inner := effect.value);
      match op
      case Write(p, _) => WriteRecorded(t, p, effect.value)
      case Append(p, _) => WriteRecorded(t, p, effect.value)
      case Mkdir(_, _) =>
        RecordUpserts(next, map p | p in effect.value && p !in t.inner :: Directory)
      case Rm(p, _, _) => RecordDeletions(next, EntriesWithin(t.kinds, p).Keys)
      case Cp(source, destination, _) =>
        RecordUpserts(next, CarriedKinds(EntriesWithin(t.kinds, source), source, destination))
      case Mv(source, destination) =>
        var moved := EntriesWithin(t.kinds, source);
        RecordUpserts(RecordDeletions(next, moved.Keys), CarriedKinds(moved, source, destination))
      case Chmod(p, _) => if p in t.kinds then RecordUpserts(next, map[p := t.kinds[p]]) else t
      case Symlink(_, p) => RecordUpserts(next, map[p := Kind.Symlink])
  }

  function Run(t: Tracked, ops: seq<Op>): Tracked
    decreases |ops|
  {
    if ops == [] then t else Run(Step(t, ops[0]), ops[1..])
  }

  // ---------------------------------------------------------------- what every operation keeps

  /** A tree with nodes placed at the paths of `ks`, implied directories added, and the rest untouched. */
  ghost predicate Placed(t: Tree, inner: Tree, ks: map<Path, Kind>) {
    && WellFormed(inner)
    && inner.Keys == t.Keys + AllParents(ks.Keys) + ks.Keys
    && (forall p :: p in ks ==> KindOf(inner[p]) == ks[p])
    && (forall p :: p in t && p !in ks ==> inner[p] == t[p])
    && (forall p :: p in AllParents(ks.Keys) && p !in ks ==> inner[p].DirNode?)
  }

  lemma PlacedKinds(t: Tracked, inner: Tree, ks: map<Path, Kind>)
    requires t.kinds == KindsOf(t.inner) && Placed(t.inner, inner, ks)
    ensures RecordUpserts(t.(inner := inner), ks).kinds == KindsOf(inner) && WellFormed(inner)
  {
    hide AllParents, ParentPaths, WellFormed;
  }

  /** Placing nodes and recording them as upserts, with the directories they imply. */
  lemma UpsertsFaithful(t: Tracked, inner: Tree, ks: map<Path, Kind>)
    requires Faithful(t) && Placed(t.inner, inner, ks)
    ensures Faithful(RecordUpserts(t.(inner := inner), ks))
  {
    PlacedKinds(t, inner, ks);
    hide AllParents, WellFormed, KindsOf;
    var u := RecordUpserts(t.(inner := inner), ks);
    forall p | Kept(u, p)
      ensures p in inner && Agrees(inner[p], u.baseline[p])
    {
      assert Kept(t, p);
    }
    forall p | p in inner && !inner[p].DirNode?
      ensures p in u.upserts || Kept(u, p)
    {
      assert p in t.inner && p !in ks ==> p in t.upserts || Kept(t, p);
    }
  }

  /** Removing nodes and recording the removed paths as deletions. */
  lemma DeletionsFaithful(t: Tracked, ps: set<Path>)
    requires Faithful(t) && WellFormed(t.inner - ps)
    ensures Faithful(RecordDeletions(t.(inner := t.inner - ps), ps))
  {
    var u := RecordDeletions(t.(inner := t.inner - ps), ps);
    forall p | Kept(u, p)
      ensures p in u.inner && Agrees(u.inner[p], u.baseline[p])
    {
      assert Kept(t, p);
    }
    forall p | p in u.inner && !u.inner[p].DirNode?
      ensures p in u.upserts || Kept(u, p)
    {
      assert p in t.upserts || Kept(t, p);
    }
    assert u.kinds == KindsOf(u.inner);
  }

  lemma ReconcileFaithful(t: Tracked, p: Path)
    requires Faithful(t)
    ensures Faithful(Reconcile(t, p))
  {
    var u := Reconcile(t, p);
    if MatchesBaseline(t, p) {
      assert Honest(t.baseline[p]);
      forall q | Kept(u, q)
        ensures q in u.inner && Agrees(u.inner[q], u.baseline[q])
      {
        assert q != p ==> Kept(t, q);
      }
      forall q | q in u.inner && !u.inner[q].DirNode?
        ensures q in u.upserts || Kept(u, q)
      {
        assert q != p ==> q in t.upserts || Kept(t, q);
      }
    }
  }

  lemma OnePlaced(t: Tree, p: Path, n: Node)
    requires WellFormed(t) && Placeable(t, p)
    requires p in t && t[p].DirNode? ==> n.DirNode?
    ensures Placed(t, WithParents(t, p)[p := n], map[p := KindOf(n)])
  {
    hide AllParents, ParentPaths, WellFormed, WithParents;
    WithParentsWellFormed(t, p, n);
    assert (map[p := KindOf(n)]).Keys == {p};
    assert AllParents((map[p := KindOf(n)]).Keys) == ParentPaths(p);
  }

  lemma WriteRecordedFaithful(t: Tracked, p: Path, inner: Tree)
    requires Faithful(t) && Placed(t.inner, inner, map[p := File])
    ensures Faithful(WriteRecorded(t, p, inner))
  {
    UpsertsFaithful(t, inner, map[p := File]);
    ReconcileFaithful(RecordUpserts(t.(inner := inner), map[p := File]), p);
  }

  lemma SamePlaced(t: Tree, p: Path, n: Node)
    requires WellFormed(t) && p in t && KindOf(n) == KindOf(t[p])
    ensures Placed(t, t[p := n], map[p := KindOf(n)])
  {
    forall a | a in AllParents((map[p := KindOf(n)]).Keys)
      ensures a in t && t[a].DirNode?
    {
      AncestorsAreDirectories(t, p, a);
    }
  }

  lemma KindAt(t: Tree, p: Path)
    ensures p in KindsOf(t) <==> p in t
    ensures p in t ==> KindsOf(t)[p] == KindOf(t[p])
  {
  }

  lemma FaithfulTree(t: Tracked)
    requires Faithful(t)
    ensures WellFormed(t.inner) && t.kinds == KindsOf(t.inner)
  {
  }

  lemma MkdirPlaced(t: Tree, p: Path, inner: Tree, ks: map<Path, Kind>)
    requires WellFormed(t) && Placeable(t, p) && p !in t && inner == WithParents(t, p)[p := DirNode(DIR_MODE)]
    requires ks == map q | q in inner && q !in t :: Directory
    ensures Placed(t, inner, ks)
  {
    hide AllParents, ParentPaths, WellFormed;
    WithParentsWellFormed(t, p, DirNode(DIR_MODE));
    forall a | a in AllParents(ks.Keys)
      ensures a in inner && inner[a].DirNode?
    {
      var q :| q in ks && a in ParentPaths(q);
      assert a in ParentPaths(p);
      assert a in t ==> t[a].DirNode?;
    }
  }

  lemma MkdirFaithful(t: Tracked, p: Path, recursive: bool)
    requires Faithful(t)
    ensures Faithful(Step(t, Mkdir(p, recursive)))
  {
    hide AllParents, ParentPaths, Faithful, WellFormed, WithParents, Placed;
    FaithfulTree(t);
    var effect := MakeDirectory(t.inner, p, recursive);
    if effect.Some? {
      var ks := map q | q in effect.value && q !in t.inner :: Directory;
      if p in t.inner {
        assert ks == map[] && effect.value == t.inner;
        NothingPlaced(t.inner);
      } else {
        MkdirPlaced(t.inner, p, effect.value, ks);
      }
      UpsertsFaithful(t, effect.value, ks);
    }
  }

  lemma NothingPlaced(t: Tree)
    requires WellFormed(t)
    ensures Placed(t, t, map[])
  {
    assert AllParents({}) == {};
  }

  lemma RmFaithful(t: Tracked, p: Path, recursive: bool, force: bool)
    requires Faithful(t)
    ensures Faithful(Step(t, Rm(p, recursive, force)))
  {
    var effect := Remove(t.inner, p, recursive, force);
    if effect.Some? {
      var ps := EntriesWithin(t.kinds, p).Keys;
      assert effect.value == t.inner - ps by {
        if p !in t.inner {
          NothingWithinAbsent(t.inner, p);
        }
      }
      WithoutSubtree(t.inner, p);
      DeletionsFaithful(t, ps);
    }
  }

  lemma NothingWithinAbsent(t: Tree, p: Path)
    requires WellFormed(t) && p !in t
    ensures forall q :: q in t ==> !Within(q, p)
  {
    forall q | q in t && Within(q, p)
      ensures false
    {
      assert q != p;
      AncestorsAreDirectories(t, q, p);
    }
  }

  lemma WithoutSubtree(t: Tree, p: Path)
    requires WellFormed(t)
    ensures WellFormed(Rest(t, p))
  {
    var r := Rest(t, p);
    forall q | q in r && q != []
      ensures Parent(q) in r && r[Parent(q)].DirNode?
    {
      assert Parent(q) <= q;
    }
  }

  lemma CarriedPlaced(t: Tree, source: Path, destination: Path, from: Tree)
    requires WellFormed(t) && Placeable(t, destination) && source != []
    requires WellFormed(WithParents(t, destination) + CarriedTree(from, source, destination))
    requires source in from
    requires WellFormed(from)
    ensures Placed(t, WithParents(t, destination) + CarriedTree(from, source, destination),
                   KindsOf(CarriedTree(from, source, destination)))
  {
    hide AllParents, ParentPaths, CarriedTree, WellFormed, Placeable;
    var c := CarriedTree(from, source, destination);
    var r: Tree := WithParents(t, destination) + c;
    assert Carried(source, source, destination) == destination;
    assert destination in c;
    forall a | a in AllParents(c.Keys)
      ensures a in r && r[a].DirNode? && (a in c || a in ParentPaths(destination))
    {
      var p :| p in c && a in ParentPaths(p);
      AncestorsAreDirectories(r, p, a);
      ParentOfCarried(from, source, destination, p, a);
    }
  }

  lemma ParentOfCarried(from: Tree, source: Path, destination: Path, p: Path, a: Path)
    requires WellFormed(from) && p in CarriedTree(from, source, destination) && a != [] && a < p
    ensures a in CarriedTree(from, source, destination) || a < destination
  {
    hide CarriedTree, Carried, WellFormed;
    PrefixesCompare(a, destination, p);
    if Within(a, destination) {
      CarriedPrefix(a, p, destination, source);
      AncestorsAreDirectories(from, Carried(p, destination, source), Carried(a, destination, source));
    }
  }

  lemma PrefixesCompare(a: Path, b: Path, q: Path)
    requires a <= q && b <= q
    ensures a < b || b <= a
  {
    assert a == q[..|a|] && b == q[..|b|];
  }

  lemma CarriedKindsAre(t: Tracked, source: Path, destination: Path)
    requires t.kinds == KindsOf(t.inner) && source != []
    ensures CarriedKinds(EntriesWithin(t.kinds, source), source, destination) == KindsOf(CarriedTree(t.inner, source, destination))
  {
  }

  lemma CpFaithful(t: Tracked, source: Path, destination: Path, recursive: bool)
    requires Faithful(t)
    ensures Faithful(Step(t, Cp(source, destination, recursive)))
  {
    var effect := Copy(t.inner, source, destination, recursive);
    if effect.Some? {
      CopyWellFormed(t.inner, source, destination);
      CarriedPlaced(t.inner, source, destination, t.inner);
      CarriedKindsAre(t, source, destination);
      UpsertsFaithful(t, effect.value, KindsOf(CarriedTree(t.inner, source, destination)));
    }
  }

  lemma MvFaithful(t: Tracked, source: Path, destination: Path)
    requires Faithful(t)
    ensures Faithful(Step(t, Mv(source, destination)))
  {
    hide AllParents, ParentPaths, Faithful, RecordUpserts, RecordDeletions, CarriedTree, WellFormed, Placed, WithParents,
         KindsOf, Rest, Placeable, Carried, EntriesWithin, CarriedKinds;
    FaithfulTree(t);
    if Move(t.inner, source, destination).Some? {
      var inner := Move(t.inner, source, destination).value;
      var ps := EntriesWithin(t.kinds, source).Keys;
      var rest := Rest(t.inner, source);
      RestIsWithout(t, source);
      WithoutSubtree(t.inner, source);
      DeletionsFaithful(t, ps);
      MoveIsCopyOfRest(t.inner, source, destination);
      MoveWellFormed(t.inner, source, destination);
      CarriedPlaced(rest, source, destination, t.inner);
      CarriedKindsAre(t, source, destination);
      var d := RecordDeletions(t.(inner := rest), ps);
      DeletionsLeaveTree(t, ps, rest, inner);
      UpsertsFaithful(d, inner, KindsOf(CarriedTree(t.inner, source, destination)));
    }
  }

  lemma RestIsWithout(t: Tracked, source: Path)
    requires t.kinds == KindsOf(t.inner)
    ensures Rest(t.inner, source) == t.inner - EntriesWithin(t.kinds, source).Keys
  {
  }

  lemma DeletionsLeaveTree(t: Tracked, ps: set<Path>, rest: Tree, inner: Tree)
    ensures RecordDeletions(t.(inner := rest), ps).inner == rest
    ensures RecordDeletions(t.(inner := rest), ps).(inner := inner) == RecordDeletions(t.(inner := inner), ps)
  {
  }

  function Rest(t: Tree, source: Path): Tree {
    map q | q in t && (q == [] || !Within(q, source)) :: t[q]
  }

  lemma MoveIsCopyOfRest(t: Tree, source: Path, destination: Path)
    requires WellFormed(t) && Move(t, source, destination).Some?
    ensures Move(t, source, destination).value == WithParents(Rest(t, source), destination) + CarriedTree(t, source, destination)
    ensures Placeable(Rest(t, source), destination)
  {
    hide ParentPaths, CarriedTree, WellFormed;
    CarriedOutside(t, source, destination);
    RestWithParents(t, source, destination);
  }

  lemma RestWithParents(t: Tree, source: Path, destination: Path)
    requires forall a :: a in ParentPaths(destination) ==> !Within(a, source)
    requires source != []
    ensures var w := WithParents(t, destination);
            WithParents(Rest(t, source), destination) == map q | q in w && !Within(q, source) :: w[q]
  {
    hide ParentPaths;
  }

  lemma CarriedOutside(t: Tree, source: Path, destination: Path)
    requires WellFormed(t) && Transferable(t, source, destination)
    ensures forall a :: a in ParentPaths(destination) ==> !Within(a, source)
    ensures forall q :: q in CarriedTree(t, source, destination) ==> !Within(q, source)
  {
    hide ParentPaths, CarriedTree;
    forall q | q in CarriedTree(t, source, destination)
      ensures !Within(q, source)
    {
      if Within(q, source) {
        PrefixesCompare(destination, source, q);
        AncestorsAreDirectories(t, source, destination);
      }
    }
  }
}
