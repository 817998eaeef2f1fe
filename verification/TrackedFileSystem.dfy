/**
 The tracked file system itself: an object whose maps and sets are updated piecewise by every
 operation, each proved to do what the value-level `Step` says.
 */
module TrackedFs {
  import opened Types
  import opened MemoryTree
  import opened Tracking
  import opened TrackingRuns

  datatype Result = Done | Refused | Busy

  /** The one earlier move that ended at `from`, if there is one, now ends at `to`; else a move of a baseline entry begins. */
  ghost predicate MoveRecorded(before: map<Path, Path>, after: map<Path, Path>, from: Path, to: Path, baseline: set<Path>) {
    if exists f :: f in before && before[f] == from
    then exists f :: f in before && before[f] == from && after == (before - {f}) + if f != to then map[f := to] else map[]
    else after == if from in baseline && from != to then before[from := to] else before
  }

  /** The only recorded move that ends where `f` does. */
  ghost predicate Alone(moves: map<Path, Path>, f: Path)
    requires f in moves
  {
    forall g :: g in moves && moves[g] == moves[f] ==> g == f
  }

  /**
   What a move of everything live below `source` makes of the recorded moves, `todo` still to come.
   If none of them ended there, exactly the baseline entries among the moved ones are added, each
   from where it was to where it goes; an earlier move from elsewhere is continued, or dropped where
   it comes back to its start; and moves to other places are left alone.
   */
  ghost predicate MovesFollow(before: map<Path, Path>, after: map<Path, Path>, moved: set<Path>, todo: set<Path>,
                              baseline: set<Path>, source: Path, destination: Path) {
    && ((forall f :: f in before ==> !Within(before[f], source)) ==>
          Added(before, after, (moved - todo) * baseline, source, destination))
    && (forall f :: f in before ==> Followed(before, after, todo, source, destination, f))
  }

  ghost predicate Added(before: map<Path, Path>, after: map<Path, Path>, new': set<Path>, source: Path, destination: Path) {
    && after.Keys == before.Keys + new'
    && forall f :: f in after ==>
         if f in new' then Within(f, source) && after[f] == Carried(f, source, destination) else after[f] == before[f]
  }

  ghost predicate Followed(before: map<Path, Path>, after: map<Path, Path>, todo: set<Path>, source: Path, destination: Path, f: Path)
    requires f in before
  {
    if Within(f, source) then true
    else if !Within(before[f], source) || before[f] in todo then f in after && after[f] == before[f]
    else
      Alone(before, f) ==>
        if Carried(before[f], source, destination) == f then f !in after
        else f in after && after[f] == Carried(before[f], source, destination)
  }

  class TrackedFileSystem {
    var baseline: map<Path, RemoteEntry>
    var baselineHashes: map<Path, Hash>
    var commitInProgress: bool
    var deletions: map<Path, RemoteEntry>
    var inner: Tree
    var kinds: map<Path, Kind>
    var moves: map<Path, Path>
    var upserts: set<Path>

    function State(): Tracked
      reads this
    {
      Tracked(baseline, deletions, upserts, kinds, inner)
    }

    /**
     The kind index mirrors the tree, the pending sets are a delta from baseline to tree, memoised
     digests are those of the baseline, and moves end at live paths.
     */
    ghost predicate Valid()
      reads this
    {
      Sound(State()) && HashesValid() && MovesEndIn(kinds.Keys)
    }

    ghost predicate HashesValid()
      reads this
    {
      forall p :: p in baselineHashes ==> p in baseline && baselineHashes[p] == HashOf(baseline[p])
    }

    ghost predicate MovesEndIn(live: set<Path>)
      reads this
    {
      forall f :: f in moves ==> moves[f] in live
    }

    constructor (entries: map<Path, RemoteEntry>)
      requires Consistent(entries)
      ensures Valid() && State() == Reset(entries) && !commitInProgress && moves == map[]
    {
      var live, index := RebuildLiveTree(entries);
      inner := live;
      kinds := index;
      baseline := entries;
      baselineHashes, deletions, moves, upserts, commitInProgress := map[], map[], map[], {}, false;
      new;
      SoundHolds(State(), entries);
    }

    // ---------------------------------------------------------------- bookkeeping

    method TrackUpsert(p: Path, kind: Kind)
      modifies this`kinds, this`deletions, this`upserts
      ensures State() == RecordUpserts(old(State()), map[p := kind])
    {
      hide RecordUpserts, KindsWith, ParentPaths, ParentsBelow;
      RecordOne(State(), p, kind);
      var i := 1;
      while i < |p|
        invariant 1 <= i && deletions == old(deletions) && upserts == old(upserts)
        invariant kinds == KindsWith(old(kinds), ParentsBelow(p, i), map[])
      {
        NextParent(old(kinds), p, i);
        kinds := kinds[p[..i] := Directory];
        i := i + 1;
      }
      AllBelow(p, i);
      kinds := kinds[p := kind];
      deletions := deletions - {p};
      upserts := upserts + {p};
    }

    method TrackDeletion(p: Path)
      modifies this`kinds, this`deletions, this`upserts, this`moves
      ensures State() == RecordDeletions(old(State()), {p})
      ensures moves == map f | f in old(moves) && old(moves)[f] != p :: old(moves)[f]
    {
      if p in baseline {
        deletions := deletions[p := baseline[p]];
      }
      upserts := upserts - {p};
      kinds := kinds - {p};
      moves := map f | f in moves && moves[f] != p :: moves[f];
    }

    /** A move of a moved entry continues the earlier move; otherwise only baseline entries count. */
    method TrackMove(from: Path, to: Path)
      modifies this`moves
      ensures MoveRecorded(old(moves), moves, from, to, baseline.Keys)
      ensures forall f :: f in moves ==>
                (f in old(moves) && moves[f] == old(moves)[f]) ||
                (moves[f] == to && (f in old(moves) || (f == from && f in baseline)))
    {
      if exists f :: f in moves && moves[f] == from {
        var f :| f in moves && moves[f] == from;
        moves := moves - {f};
        if f != to {
          moves := moves[f := to];
        }
      } else if from in baseline && from != to {
        moves := moves[from := to];
      }
    }

    method HashForRemote(p: Path) returns (hash: Hash)
      requires p in baseline && HashesValid()
      modifies this`baselineHashes
      ensures hash == HashOf(baseline[p]) && HashesValid()
    {
      if p in baselineHashes {
        return baselineHashes[p];
      }
      hash := if baseline[p].contentHash.Some? then baseline[p].contentHash.value else Sha256(baseline[p].body);
      baselineHashes := baselineHashes[p := hash];
    }

    method ReconcileFile(p: Path)
      requires HashesValid()
      modifies this`baselineHashes, this`deletions, this`upserts
      ensures HashesValid() && State() == Reconcile(old(State()), p)
    {
      if p in baseline && baseline[p].kind == File && p in inner && inner[p].FileNode? {
        var hash := HashForRemote(p);
        if Sha256(inner[p].body) == hash && inner[p].mode == baseline[p].mode {
          deletions := deletions - {p};
          upserts := upserts - {p};
        }
      }
    }

    /** trackDeletion for every path, in whatever order. */
    method TrackDeletions(ps: set<Path>)
      modifies this`kinds, this`deletions, this`upserts, this`moves
      ensures State() == RecordDeletions(old(State()), ps)
      ensures moves == map f | f in old(moves) && old(moves)[f] !in ps :: old(moves)[f]
    {
      var todo := ps;
      while todo != {}
        invariant todo <= ps
        invariant State() == RecordDeletions(old(State()), ps - todo)
        invariant moves == map f | f in old(moves) && old(moves)[f] !in ps - todo :: old(moves)[f]
      {
        var p :| p in todo;
        DeletionsCompose(old(State()), ps - todo, p);
        assert ps - (todo - {p}) == ps - todo + {p};
        TrackDeletion(p);
        todo := todo - {p};
      }
      assert ps - todo == ps;
    }

    method TrackUpserts(ks: map<Path, Kind>)
      requires NestedKinds(ks)
      modifies this`kinds, this`deletions, this`upserts
      ensures State() == RecordUpserts(old(State()), ks)
    {
      ghost var done: map<Path, Kind> := map[];
      hide RecordUpserts, NestedKinds;
      RecordNothing(State());
      var todo := ks.Keys;
      while todo != {}
        invariant todo <= ks.Keys && done == map p | p in ks && p !in todo :: ks[p]
        invariant State() == RecordUpserts(old(State()), done)
      {
        var p :| p in todo;
        NestedPart(ks, done[p := ks[p]]);
        UpsertsCompose(old(State()), done, p, ks[p]);
        TrackUpsert(p, ks[p]);
        done := done[p := ks[p]];
        todo := todo - {p};
      }
      assert done == ks;
    }

    /** The first loop of `mv`: record each move and delete its source. */
    method TrackMoves(moved: map<Path, Kind>, source: Path, destination: Path)
      requires forall p :: p in moved ==> Within(p, source)
      requires MovesEndIn(kinds.Keys) && (forall p :: p in kinds && Within(p, source) ==> p in moved)
      requires !Within(destination, source) && !Within(source, destination)
      modifies this`kinds, this`deletions, this`upserts, this`moves
      ensures MovesFollow(old(moves), moves, moved.Keys, {}, baseline.Keys, source, destination)
      ensures State() == RecordDeletions(old(State()), moved.Keys)
      ensures MovesEndIn(kinds.Keys + CarriedKinds(moved, source, destination).Keys)
      ensures moves.Keys <= old(moves).Keys + baseline.Keys
    {
      hide RecordDeletions, CarriedKinds, MoveRecorded, MovesFollow, NewEndsElsewhere;
      NothingFollows(moves, moved.Keys, baseline.Keys, source, destination);
      var carried := CarriedKinds(moved, source, destination);
      var todo := moved.Keys;
      DeletionsCompose(State(), {}, source);
      assert moved.Keys - todo == {};
      while todo != {}
        invariant todo <= moved.Keys
        invariant State() == RecordDeletions(old(State()), moved.Keys - todo)
        invariant MovesEndIn(kinds.Keys + carried.Keys)
        invariant moves.Keys <= old(moves).Keys + baseline.Keys
        invariant MovesFollow(old(moves), moves, moved.Keys, todo, baseline.Keys, source, destination)
        invariant NewEndsElsewhere(old(moves), moves, source)
      {
        var p :| p in todo;
        DeletionsCompose(old(State()), moved.Keys - todo, p);
        assert moved.Keys - (todo - {p}) == moved.Keys - todo + {p};
        CarriedKey(moved, source, destination, p);
        ghost var before := moves;
        TrackMove(p, Carried(p, source, destination));
        ghost var recorded := moves;
        TrackDeletion(p);
        OneFollows(old(moves), before, recorded, moves, moved.Keys, todo, baseline.Keys, source, destination, p);
        todo := todo - {p};
      }
      assert moved.Keys - todo == moved.Keys;
    }

    // ---------------------------------------------------------------- operations

    method Write(p: Path, body: Body) returns (r: Result)
      requires Valid()
      modifies this
      ensures Valid() && commitInProgress == old(commitInProgress) && baseline == old(baseline)
      ensures moves.Keys <= old(moves).Keys + baseline.Keys
      ensures State() == if r.Busy? then old(State()) else Step(old(State()), Op.Write(p, body))
      ensures (r.Busy? <==> commitInProgress) && (r.Done? ==> WriteFile(old(inner), p, body) == Some(inner))
    {
      hide Delta, RecordUpserts, RecordDeletions, KindsOf, WellFormed, AllParents, ParentPaths, WithParents, Placed,
           Reconcile, NestedKinds, KindsWith;
      if commitInProgress {
        return Busy;
      }
      var wasChanged := p in upserts || p in deletions;
      var next := WriteFile(inner, p, body);
      if next.None? {
        return Refused;
      }
      inner := next.value;
      TrackUpsert(p, File);
      if wasChanged {
        ReconcileFile(p);
      }
      StepSound(old(State()), Op.Write(p, body));
      return Done;
    }

    method Append(p: Path, body: Body) returns (r: Result)
      requires Valid()
      modifies this
      ensures Valid() && commitInProgress == old(commitInProgress) && baseline == old(baseline)
      ensures moves.Keys <= old(moves).Keys + baseline.Keys
      ensures State() == if r.Busy? then old(State()) else Step(old(State()), Op.Append(p, body))
      ensures (r.Busy? <==> commitInProgress) && (r.Done? ==> AppendFile(old(inner), p, body) == Some(inner))
    {
      hide Delta, RecordUpserts, RecordDeletions, KindsOf, WellFormed, AllParents, ParentPaths, WithParents, Placed,
           Reconcile, NestedKinds, KindsWith;
      if commitInProgress {
        return Busy;
      }
      var wasChanged := p in upserts || p in deletions;
      var next := AppendFile(inner, p, body);
      if next.None? {
        return Refused;
      }
      inner := next.value;
      TrackUpsert(p, File);
      if wasChanged {
        ReconcileFile(p);
      }
      StepSound(old(State()), Op.Append(p, body));
      return Done;
    }

    method Mkdir(p: Path, recursive: bool) returns (r: Result)
      requires Valid()
      modifies this
      ensures Valid() && commitInProgress == old(commitInProgress) && baseline == old(baseline)
      ensures moves.Keys <= old(moves).Keys + baseline.Keys
      ensures State() == if r.Busy? then old(State()) else Step(old(State()), Op.Mkdir(p, recursive))
      ensures (r.Busy? <==> commitInProgress) && (r.Done? ==> MakeDirectory(old(inner), p, recursive) == Some(inner))
    {
      hide Delta, RecordUpserts, RecordDeletions, KindsOf, WellFormed, AllParents, ParentPaths, WithParents, Placed,
           Reconcile, NestedKinds, KindsWith;
      if commitInProgress {
        return Busy;
      }
      var before := inner.Keys;
      var next := MakeDirectory(inner, p, recursive);
      if next.None? {
        return Refused;
      }
      var ks := map q | q in next.value && q !in before :: Directory;
      MkdirKinds(State(), p, recursive, ks);
      inner := next.value;
      TrackUpserts(ks);
      StepSound(old(State()), Op.Mkdir(p, recursive));
      return Done;
    }

    method Rm(p: Path, recursive: bool, force: bool) returns (r: Result)
      requires Valid()
      modifies this
      ensures Valid() && commitInProgress == old(commitInProgress) && baseline == old(baseline)
      ensures moves.Keys <= old(moves).Keys + baseline.Keys
      ensures State() == if r.Busy? then old(State()) else Step(old(State()), Op.Rm(p, recursive, force))
      ensures (r.Busy? <==> commitInProgress) && (r.Done? ==> Remove(old(inner), p, recursive, force) == Some(inner))
    {
      hide Delta, RecordUpserts, RecordDeletions, KindsOf, WellFormed, AllParents, ParentPaths, WithParents, Placed,
           Reconcile, NestedKinds, KindsWith;
      if commitInProgress {
        return Busy;
      }
      var removed := EntriesWithin(kinds, p);
      var next := Remove(inner, p, recursive, force);
      if next.None? {
        return Refused;
      }
      inner := next.value;
      TrackDeletions(removed.Keys);
      StepSound(old(State()), Op.Rm(p, recursive, force));
      return Done;
    }

    method Cp(source: Path, destination: Path, recursive: bool) returns (r: Result)
      requires Valid()
      modifies this
      ensures Valid() && commitInProgress == old(commitInProgress) && baseline == old(baseline)
      ensures moves.Keys <= old(moves).Keys + baseline.Keys
      ensures State() == if r.Busy? then old(State()) else Step(old(State()), Op.Cp(source, destination, recursive))
      ensures (r.Busy? <==> commitInProgress) && (r.Done? ==> Copy(old(inner), source, destination, recursive) == Some(inner))
    {
      hide Delta, RecordUpserts, RecordDeletions, KindsOf, WellFormed, AllParents, ParentPaths, WithParents, Placed,
           Reconcile, NestedKinds, KindsWith, CarriedTree, CarriedKinds, EntriesWithin, Transferable;
      if commitInProgress {
        return Busy;
      }
      var copied := EntriesWithin(kinds, source);
      var next := Copy(inner, source, destination, recursive);
      if next.None? {
        return Refused;
      }
      CopyKinds(State(), source, destination);
      inner := next.value;
      TrackUpserts(CarriedKinds(copied, source, destination));
      StepSound(old(State()), Op.Cp(source, destination, recursive));
      return Done;
    }

    method Mv(source: Path, destination: Path) returns (r: Result)
      requires Valid()
      modifies this
      ensures Valid() && commitInProgress == old(commitInProgress) && baseline == old(baseline)
      ensures moves.Keys <= old(moves).Keys + baseline.Keys
      ensures State() == if r.Busy? then old(State()) else Step(old(State()), Op.Mv(source, destination))
      ensures (r.Busy? <==> commitInProgress) && (r.Done? ==> Move(old(inner), source, destination) == Some(inner))
      ensures !r.Done? ==> moves == old(moves)
      ensures r.Done? ==>
                MovesFollow(old(moves), moves, EntriesWithin(old(kinds), source).Keys, {}, baseline.Keys, source, destination)
    {
      hide MovesFollow, Delta, RecordUpserts, RecordDeletions, KindsOf, WellFormed, AllParents, ParentPaths, WithParents,
           Placed, Reconcile, NestedKinds, KindsWith, Move, CarriedKinds, EntriesWithin;
      if commitInProgress {
        return Busy;
      }
      var moved := EntriesWithin(kinds, source);
      var next := Move(inner, source, destination);
      if next.None? {
        return Refused;
      }
      MoveKinds(State(), source, destination);
      MovesApart(inner, source, destination);
      var carried := CarriedKinds(moved, source, destination);
      inner := next.value;
      TrackMoves(moved, source, destination);
      TrackUpserts(carried);
      StepSound(old(State()), Op.Mv(source, destination));
      return Done;
    }

    method Chmod(p: Path, mode: nat) returns (r: Result)
      requires Valid()
      modifies this
      ensures Valid() && commitInProgress == old(commitInProgress) && baseline == old(baseline)
      ensures moves.Keys <= old(moves).Keys + baseline.Keys
      ensures State() == if r.Busy? then old(State()) else Step(old(State()), Op.Chmod(p, mode))
      ensures (r.Busy? <==> commitInProgress) && (r.Done? ==> ChangeMode(old(inner), p, mode) == Some(inner))
    {
      hide Delta, RecordUpserts, RecordDeletions, KindsOf, WellFormed, AllParents, ParentPaths, WithParents, Placed,
           Reconcile, NestedKinds, KindsWith;
      if commitInProgress {
        return Busy;
      }
      var next := ChangeMode(inner, p, mode);
      if next.None? {
        return Refused;
      }
      KindAt(inner, p);
      inner := next.value;
      TrackUpsert(p, kinds[p]);
      StepSound(old(State()), Op.Chmod(p, mode));
      return Done;
    }

    method Symlink(target: string, p: Path) returns (r: Result)
      requires Valid()
      modifies this
      ensures Valid() && commitInProgress == old(commitInProgress) && baseline == old(baseline)
      ensures moves.Keys <= old(moves).Keys + baseline.Keys
      ensures State() == if r.Busy? then old(State()) else Step(old(State()), Op.Symlink(target, p))
      ensures (r.Busy? <==> commitInProgress) && (r.Done? ==> MakeLink(old(inner), p, target) == Some(inner))
    {
      hide Delta, RecordUpserts, RecordDeletions, KindsOf, WellFormed, AllParents, ParentPaths, WithParents, Placed,
           Reconcile, NestedKinds, KindsWith;
      if commitInProgress {
        return Busy;
      }
      var next := MakeLink(inner, p, target);
      if next.None? {
        return Refused;
      }
      inner := next.value;
      TrackUpsert(p, Kind.Symlink);
      StepSound(old(State()), Op.Symlink(target, p));
      return Done;
    }

    // ---------------------------------------------------------------- commit, restore, recovery

    method BeginCommit() returns (ok: bool)
      modifies this`commitInProgress
      ensures ok == !old(commitInProgress) && commitInProgress && (old(Valid()) ==> Valid())
    {
      ok := !commitInProgress;
      commitInProgress := true;
    }

    method FailCommit()
      modifies this`commitInProgress
      ensures !commitInProgress && (old(Valid()) ==> Valid())
    {
      commitInProgress := false;
    }

    /** Rebuilding refuses a listing with an entry below a file, and then changes nothing. */
    method FinishCommit(entries: map<Path, RemoteEntry>) returns (ok: bool)
      modifies this
      ensures ok == Consistent(entries)
      ensures ok ==> Valid() && State() == Reset(entries) && !commitInProgress && moves == map[]
      ensures !ok ==> State() == old(State()) && commitInProgress == old(commitInProgress) && moves == old(moves) && (old(Valid()) ==> Valid())
    {
      hide TreeFrom, KindsOf, WellFormed, Consistent;
      if !Consistent(entries) {
        return false;
      }
      inner, kinds := RebuildLiveTree(entries);
      baseline := entries;
      baselineHashes, deletions, moves, upserts, commitInProgress := map[], map[], map[], {}, false;
      SoundHolds(State(), entries);
      return true;
    }

    /** Discarding goes back to the baseline. */
    method DiscardChanges() returns (r: Result)
      requires Valid() && Consistent(baseline)
      modifies this
      ensures Valid() && (r.Busy? <==> old(commitInProgress))
      ensures State() == if r.Busy? then old(State()) else Reset(old(baseline))
    {
      if commitInProgress {
        return Busy;
      }
      var ok := FinishCommit(baseline);
      return Done;
    }

    method RefreshBaseline(entries: map<Path, RemoteEntry>)
      modifies this
      ensures State() == Refreshed(old(State()), entries) && commitInProgress == old(commitInProgress) && moves == old(moves)
      ensures old(Valid()) ==> Valid()
    {
      SoundHolds(State(), entries);
      baseline := entries;
      baselineHashes := map[];
      deletions := map p | p in deletions && p in entries :: entries[p];
    }

    method StageRemoteTree(entries: map<Path, RemoteEntry>) returns (r: Result)
      requires Valid() && Consistent(entries)
      modifies this
      ensures Valid() && commitInProgress == old(commitInProgress) && (r.Busy? <==> commitInProgress)
      ensures State() == if r.Busy? then old(State()) else StageTarget(old(State()), entries)
      ensures moves == if r.Busy? then old(moves) else map[]
    {
      hide TreeFrom, KindsOf, WellFormed, SameStagedEntry, ParentPaths, Consistent, HashOf;
      NoRoot(entries);
      if commitInProgress {
        return Busy;
      }
      inner, kinds := RebuildLiveTree(entries);
      deletions, upserts := PendingAgainstBaseline(baseline, entries);
      moves := map[];
      SoundHolds(old(State()), entries);
      return Done;
    }
  }

  // ---------------------------------------------------------------- tracked-restore.ts

  method RebuildLiveTree(entries: map<Path, RemoteEntry>) returns (inner: Tree, kinds: map<Path, Kind>)
    requires Consistent(entries)
    ensures inner == TreeFrom(entries) && kinds == KindsOf(inner)
  {
    hide TreeFrom, KindsOf, Consistent, AllParents, ParentPaths, WithParents, Rebuilt;
    inner, kinds := map[[] := DirNode(DIR_MODE)], map[[] := Directory];
    TreeFromNothing();
    var todo := entries.Keys;
    while todo != {}
      invariant todo <= entries.Keys
      invariant inner == TreeFrom(entries - todo) && kinds == KindsOf(inner)
    {
      var p :| p in todo;
      RebuildAddsEntry(entries, entries - todo, p);
      assert (entries - todo)[p := entries[p]] == entries - (todo - {p});
      kinds := KindsWith(kinds, ParentPaths(p), map[p := entries[p].kind]);
      inner := WithParents(inner, p)[p := Rebuilt(entries[p])];
      todo := todo - {p};
    }
    assert entries - todo == entries;
  }

  method PendingAgainstBaseline(baseline: map<Path, RemoteEntry>, entries: map<Path, RemoteEntry>)
    returns (deletions: map<Path, RemoteEntry>, upserts: set<Path>)
    requires [] !in entries
    ensures deletions == map p | p in baseline && p != [] && p !in entries :: baseline[p]
    ensures upserts == set p | p in entries && !(p in baseline && SameStagedEntry(baseline[p], entries[p]))
  {
    deletions, upserts := map[], {};
    var todo := baseline.Keys;
    while todo != {}
      invariant todo <= baseline.Keys
      invariant deletions == map p | p in baseline && p !in todo && p != [] && p !in entries :: baseline[p]
    {
      var p :| p in todo;
      if p != [] && p !in entries {
        deletions := deletions[p := baseline[p]];
      }
      todo := todo - {p};
    }
    todo := entries.Keys;
    while todo != {}
      invariant todo <= entries.Keys
      invariant upserts == set p | p in entries && p !in todo && !(p in baseline && SameStagedEntry(baseline[p], entries[p]))
    {
      var p :| p in todo;
      if p != [] && !(p in baseline && SameStagedEntry(baseline[p], entries[p])) {
        upserts := upserts + {p};
      }
      todo := todo - {p};
    }
  }

  // ---------------------------------------------------------------- how single records compose

  function ParentsBelow(p: Path, i: nat): set<Path> {
    set a | a in ParentPaths(p) && |a| < i
  }

  lemma NextParent(kinds: map<Path, Kind>, p: Path, i: nat)
    requires 1 <= i < |p|
    ensures KindsWith(kinds, ParentsBelow(p, i + 1), map[]) == KindsWith(kinds, ParentsBelow(p, i), map[])[p[..i] := Directory]
  {
    assert ParentsBelow(p, i + 1) == ParentsBelow(p, i) + {p[..i]};
  }

  lemma AllBelow(p: Path, i: nat)
    requires i >= |p|
    ensures ParentsBelow(p, i) == ParentPaths(p)
  {
  }

  lemma RecordOne(t: Tracked, p: Path, k: Kind)
    ensures RecordUpserts(t, map[p := k]) ==
            t.(kinds := KindsWith(t.kinds, ParentPaths(p), map[])[p := k], deletions := t.deletions - {p}, upserts := t.upserts + {p})
    ensures KindsWith(t.kinds, ParentsBelow(p, 1), map[]) == t.kinds
  {
    hide AllParents, ParentPaths;
    ParentsOfMore({}, p);
    assert (map[p := k]).Keys == {p};
    assert KindsWith(t.kinds, ParentPaths(p), map[p := k]) == KindsWith(t.kinds, ParentPaths(p), map[])[p := k];
  }

  lemma DeletionsCompose(t: Tracked, done: set<Path>, p: Path)
    ensures RecordDeletions(RecordDeletions(t, done), {p}) == RecordDeletions(t, done + {p})
    ensures RecordDeletions(t, {}) == t
  {
  }

  /** An ancestor among the recorded paths is recorded as a directory. */
  ghost predicate NestedKinds(ks: map<Path, Kind>) {
    forall p, a :: p in ks && a in ks && a in ParentPaths(p) ==> ks[a] == Directory
  }

  lemma KindsWithTwice(kinds: map<Path, Kind>, parents: set<Path>, done: map<Path, Kind>, more: set<Path>, p: Path, k: Kind)
    requires forall a :: a in done && a in more && a != p ==> done[a] == Directory
    ensures KindsWith(KindsWith(kinds, parents, done), more, map[p := k]) == KindsWith(kinds, parents + more, done[p := k])
  {
  }

  lemma UpsertsCompose(t: Tracked, done: map<Path, Kind>, p: Path, k: Kind)
    requires NestedKinds(done[p := k])
    ensures RecordUpserts(RecordUpserts(t, done), map[p := k]) == RecordUpserts(t, done[p := k])
  {
    hide ParentPaths, AllParents, KindsWith, NestedKinds;
    var all := done[p := k];
    assert all.Keys == done.Keys + {p} && (map[p := k]).Keys == {p};
    ParentsOfMore(done.Keys, p);
    ParentsNested(done, p, k);
    KindsWithTwice(t.kinds, AllParents(done.Keys), done, ParentPaths(p), p, k);
    assert t.deletions - all.Keys == t.deletions - done.Keys - {p};
    assert t.upserts + all.Keys == t.upserts + done.Keys + {p};
  }

  lemma RecordNothing(t: Tracked)
    ensures RecordUpserts(t, map[]) == t
  {
    assert AllParents({}) == {};
  }

  lemma NestedPart(ks: map<Path, Kind>, part: map<Path, Kind>)
    requires NestedKinds(ks) && forall p :: p in part ==> p in ks && part[p] == ks[p]
    ensures NestedKinds(part)
  {
    hide ParentPaths;
  }

  lemma ParentsNested(done: map<Path, Kind>, p: Path, k: Kind)
    requires NestedKinds(done[p := k])
    ensures forall a :: a in done && a in ParentPaths(p) && a != p ==> done[a] == Directory
  {
    hide ParentPaths;
    var all := done[p := k];
    forall a | a in done && a in ParentPaths(p) && a != p
      ensures done[a] == Directory
    {
      assert p in all && a in all && all[a] == done[a];
    }
  }

  lemma ParentsOfMore(ps: set<Path>, p: Path)
    ensures AllParents(ps + {p}) == AllParents(ps) + ParentPaths(p)
    ensures AllParents({p}) == ParentPaths(p)
    ensures p !in ParentPaths(p) && [] !in ParentPaths(p)
  {
    hide AllParents;
  }

  lemma CarriedNested(t: Tree, source: Path, destination: Path)
    requires WellFormed(t)
    ensures NestedKinds(KindsOf(CarriedTree(t, source, destination)))
  {
    hide CarriedTree, ParentPaths;
    var c := CarriedTree(t, source, destination);
    forall p, a | p in c && a in c && a in ParentPaths(p)
      ensures c[a].DirNode?
    {
      var o, oa := Carried(p, destination, source), Carried(a, destination, source);
      CarriedPrefix(a, p, destination, source);
      AncestorsAreDirectories(t, o, oa);
    }
  }

  lemma MkdirKinds(t: Tracked, p: Path, recursive: bool, ks: map<Path, Kind>)
    requires WellFormed(t.inner) && t.kinds == KindsOf(t.inner) && MakeDirectory(t.inner, p, recursive).Some?
    requires ks == map q | q in MakeDirectory(t.inner, p, recursive).value && q !in t.inner :: Directory
    ensures NestedKinds(ks) && WellFormed(MakeDirectory(t.inner, p, recursive).value)
    ensures RecordUpserts(t.(inner := MakeDirectory(t.inner, p, recursive).value), ks).kinds
            == KindsOf(MakeDirectory(t.inner, p, recursive).value)
  {
    hide AllParents, ParentPaths, WellFormed, WithParents, Placed;
    var inner := MakeDirectory(t.inner, p, recursive).value;
    if p in t.inner {
      assert ks == map[] && inner == t.inner;
      NothingPlaced(t.inner);
    } else {
      MkdirPlaced(t.inner, p, inner, ks);
      WithParentsWellFormed(t.inner, p, DirNode(DIR_MODE));
    }
    PlacedKinds(t, inner, ks);
  }

  lemma RemoveKinds(t: Tracked, p: Path, recursive: bool, force: bool)
    requires WellFormed(t.inner) && t.kinds == KindsOf(t.inner) && Remove(t.inner, p, recursive, force).Some?
    ensures WellFormed(Remove(t.inner, p, recursive, force).value)
    ensures t.kinds - EntriesWithin(t.kinds, p).Keys == KindsOf(Remove(t.inner, p, recursive, force).value)
  {
    hide WellFormed;
    WithoutSubtree(t.inner, p);
    if p !in t.inner {
      NothingWithinAbsent(t.inner, p);
    }
  }

  lemma CopyKinds(t: Tracked, source: Path, destination: Path)
    requires WellFormed(t.inner) && t.kinds == KindsOf(t.inner) && Transferable(t.inner, source, destination)
    ensures var inner := WithParents(t.inner, destination) + CarriedTree(t.inner, source, destination);
            var ks := CarriedKinds(EntriesWithin(t.kinds, source), source, destination);
            WellFormed(inner) && NestedKinds(ks) && RecordUpserts(t.(inner := inner), ks).kinds == KindsOf(inner)
  {
    hide AllParents, ParentPaths, WellFormed, WithParents, Placed, CarriedTree, RecordUpserts;
    var inner := WithParents(t.inner, destination) + CarriedTree(t.inner, source, destination);
    CopyWellFormed(t.inner, source, destination);
    CarriedPlaced(t.inner, source, destination, t.inner);
    CarriedKindsAre(t, source, destination);
    var ks := KindsOf(CarriedTree(t.inner, source, destination));
    CarriedNested(t.inner, source, destination);
    PlacedKinds(t, inner, ks);
  }

  lemma MoveKinds(t: Tracked, source: Path, destination: Path)
    requires WellFormed(t.inner) && t.kinds == KindsOf(t.inner) && Move(t.inner, source, destination).Some?
    ensures var inner := Move(t.inner, source, destination).value;
            var moved := EntriesWithin(t.kinds, source);
            var ks := CarriedKinds(moved, source, destination);
            && WellFormed(inner) && NestedKinds(ks)
            && RecordUpserts(RecordDeletions(t.(inner := inner), moved.Keys), ks).kinds == KindsOf(inner)
  {
    hide AllParents, ParentPaths, WellFormed, WithParents, Placed, CarriedTree, RecordUpserts, KindsOf, CarriedKinds,
         Transferable;
    var inner := Move(t.inner, source, destination).value;
    var ps := EntriesWithin(t.kinds, source).Keys;
    var rest := Rest(t.inner, source);
    MoveSource(t.inner, source, destination);
    WithoutSubtree(t.inner, source);
    MoveIsCopyOfRest(t.inner, source, destination);
    MoveWellFormed(t.inner, source, destination);
    CarriedPlaced(rest, source, destination, t.inner);
    CarriedKindsAre(t, source, destination);
    var ks := KindsOf(CarriedTree(t.inner, source, destination));
    CarriedNested(t.inner, source, destination);
    var d := RecordDeletions(t.(inner := rest), ps);
    DeletionsLeaveTree(t, ps, rest, inner);
    RestKinds(t, source);
    PlacedKinds(d, inner, ks);
  }

  lemma RestKinds(t: Tracked, source: Path)
    requires t.kinds == KindsOf(t.inner)
    ensures t.kinds - EntriesWithin(t.kinds, source).Keys == KindsOf(Rest(t.inner, source))
  {
  }

  /** A directory cannot be replaced by something below it, nor carried below itself. */
  lemma MovesApart(t: Tree, source: Path, destination: Path)
    requires WellFormed(t) && Move(t, source, destination).Some?
    ensures source != [] && !Within(destination, source) && !Within(source, destination)
  {
    hide WithParents, CarriedTree, WellFormed;
    if destination < source {
      AncestorsAreDirectories(t, source, destination);
    }
  }

  ghost predicate NewEndsElsewhere(before: map<Path, Path>, now: map<Path, Path>, source: Path) {
    forall f :: f in now ==> (f in before && now[f] == before[f]) || !Within(now[f], source)
  }

  lemma NothingFollows(moves: map<Path, Path>, moved: set<Path>, baseline: set<Path>, source: Path, destination: Path)
    requires forall f :: f in moves && Within(moves[f], source) ==> moves[f] in moved
    ensures MovesFollow(moves, moves, moved, moved, baseline, source, destination) && NewEndsElsewhere(moves, moves, source)
  {
  }

  /** One entry moved and its source deleted: the next step of the loop. */
  lemma OneFollows(before: map<Path, Path>, now: map<Path, Path>, recorded: map<Path, Path>, after: map<Path, Path>,
                   moved: set<Path>, todo: set<Path>, baseline: set<Path>, source: Path, destination: Path, p: Path)
    requires p in todo && todo <= moved && (forall q :: q in moved ==> Within(q, source))
    requires !Within(destination, source) && !Within(source, destination)
    requires MovesFollow(before, now, moved, todo, baseline, source, destination) && NewEndsElsewhere(before, now, source)
    requires MoveRecorded(now, recorded, p, Carried(p, source, destination), baseline)
    requires after == map f | f in recorded && recorded[f] != p :: recorded[f]
    ensures MovesFollow(before, after, moved, todo - {p}, baseline, source, destination) && NewEndsElsewhere(before, after, source)
  {
    hide Added, Followed, NewEndsElsewhere, MoveRecorded;
    var q := Carried(p, source, destination);
    CarriedOutside(p, source, destination);
    StillElsewhere(before, now, recorded, after, source, p, q, baseline);
    forall f | f in before
      ensures Followed(before, after, todo - {p}, source, destination, f)
    {
      FollowedNext(before, now, recorded, after, todo, baseline, source, destination, p, f);
    }
    if forall f :: f in before ==> !Within(before[f], source) {
      var done := (moved - todo) * baseline;
      AddedNext(before, now, recorded, after, done, baseline, source, destination, p);
      assert (moved - (todo - {p})) * baseline == if p in baseline then done + {p} else done;
    }
  }

  lemma StillElsewhere(before: map<Path, Path>, now: map<Path, Path>, recorded: map<Path, Path>, after: map<Path, Path>,
                       source: Path, p: Path, q: Path, baseline: set<Path>)
    requires NewEndsElsewhere(before, now, source) && !Within(q, source)
    requires MoveRecorded(now, recorded, p, q, baseline)
    requires after == map f | f in recorded && recorded[f] != p :: recorded[f]
    ensures NewEndsElsewhere(before, after, source)
  {
  }

  lemma FollowedNext(before: map<Path, Path>, now: map<Path, Path>, recorded: map<Path, Path>, after: map<Path, Path>,
                     todo: set<Path>, baseline: set<Path>, source: Path, destination: Path, p: Path, f: Path)
    requires f in before && Followed(before, now, todo, source, destination, f) && NewEndsElsewhere(before, now, source)
    requires p in todo && Within(p, source) && !Within(Carried(p, source, destination), source)
    requires !Within(destination, source) && !Within(source, destination)
    requires MoveRecorded(now, recorded, p, Carried(p, source, destination), baseline)
    requires after == map g | g in recorded && recorded[g] != p :: recorded[g]
    ensures Followed(before, after, todo - {p}, source, destination, f)
  {
    var q := Carried(p, source, destination);
    if !Within(f, source) {
      if Within(before[f], source) && before[f] !in todo {
        CarriedOutside(before[f], source, destination);
      }
      if exists g :: g in now && now[g] == p {
        var g :| g in now && now[g] == p && recorded == (now - {g}) + if g != q then map[g := q] else map[];
        assert g in before && before[g] == p;
      }
    }
  }

  lemma AddedNext(before: map<Path, Path>, now: map<Path, Path>, recorded: map<Path, Path>, after: map<Path, Path>,
                  done: set<Path>, baseline: set<Path>, source: Path, destination: Path, p: Path)
    requires Added(before, now, done, source, destination) && NewEndsElsewhere(before, now, source)
    requires forall f :: f in before ==> !Within(before[f], source)
    requires Within(p, source) && !Within(Carried(p, source, destination), source)
    requires MoveRecorded(now, recorded, p, Carried(p, source, destination), baseline)
    requires after == map g | g in recorded && recorded[g] != p :: recorded[g]
    ensures Added(before, after, if p in baseline then done + {p} else done, source, destination)
  {
    assert forall f :: f in now ==> !Within(now[f], source);
    var q := Carried(p, source, destination);
    assert recorded == if p in baseline then now[p := q] else now;
    assert forall f :: f in recorded ==> recorded[f] != p;
    assert after == recorded;
  }

  lemma CarriedOutside(p: Path, source: Path, destination: Path)
    requires Within(p, source) && !Within(destination, source) && !Within(source, destination)
    ensures !Within(Carried(p, source, destination), source)
  {
  }

  lemma CarriedKey(moved: map<Path, Kind>, source: Path, destination: Path, p: Path)
    requires (forall q :: q in moved ==> Within(q, source)) && p in moved
    ensures Carried(p, source, destination) in CarriedKinds(moved, source, destination)
  {
    assert Carried(Carried(p, source, destination), destination, source) == p;
  }

  lemma TreeFromNothing()
    ensures forall none: map<Path, RemoteEntry> :: none == map[] ==> TreeFrom(none) == map[[] := DirNode(DIR_MODE)]
    ensures KindsOf(map[[] := DirNode(DIR_MODE)]) == map[[] := Directory]
  {
    assert AllParents({}) == {};
  }

  lemma RebuildAddsEntry(entries: map<Path, RemoteEntry>, done: map<Path, RemoteEntry>, p: Path)
    requires Consistent(entries) && p in entries && p !in done
    requires forall q :: q in done ==> q in entries && done[q] == entries[q]
    ensures WithParents(TreeFrom(done), p)[p := Rebuilt(entries[p])] == TreeFrom(done[p := entries[p]])
    ensures KindsWith(KindsOf(TreeFrom(done)), ParentPaths(p), map[p := entries[p].kind])
            == KindsOf(TreeFrom(done[p := entries[p]]))
  {
    hide ParentPaths, AllParents, WithParents, Consistent, TreeFrom, Rebuilt, WellFormed;
    RebuildAddsNode(entries, done, p);
    ParentsAreDirectories(entries, done, p);
    WithParentsAndNode(TreeFrom(done), p, Rebuilt(entries[p]));
    RebuiltKind();
    forall a | a in ParentPaths(p) && a in TreeFrom(done)
      ensures KindOf(TreeFrom(done)[a]) == Directory
    {
      TreeFromAt(done, a);
    }
    KindsFollow(TreeFrom(done), p, Rebuilt(entries[p]));
  }

  lemma TreeFromAt(entries: map<Path, RemoteEntry>, p: Path)
    requires p in TreeFrom(entries)
    ensures TreeFrom(entries)[p] == if p in entries then Rebuilt(entries[p]) else DirNode(DIR_MODE)
  {
  }

  lemma WithParentsAndNode(t: Tree, p: Path, n: Node)
    ensures WithParents(t, p)[p := n].Keys == t.Keys + ParentPaths(p) + {p}
  {
  }

  lemma KindsFollow(t: Tree, p: Path, n: Node)
    requires forall a :: a in ParentPaths(p) && a in t ==> KindOf(t[a]) == Directory
    ensures KindsWith(KindsOf(t), ParentPaths(p), map[p := KindOf(n)]) == KindsOf(WithParents(t, p)[p := n])
  {
    hide ParentPaths, WithParents;
  }

  lemma NoRoot(entries: map<Path, RemoteEntry>)
    requires Consistent(entries)
    ensures [] !in entries
  {
  }

  lemma RebuiltKind()
    ensures forall e: RemoteEntry :: KindOf(Rebuilt(e)) == e.kind
  {
  }

  lemma ParentsAreDirectories(entries: map<Path, RemoteEntry>, done: map<Path, RemoteEntry>, p: Path)
    requires Consistent(entries) && p in entries
    requires forall q :: q in done ==> q in entries && done[q] == entries[q]
    ensures forall a :: a in ParentPaths(p) && a in done ==> done[a].kind == Directory
  {
    hide ParentPaths;
  }

  lemma RebuildAddsNode(entries: map<Path, RemoteEntry>, done: map<Path, RemoteEntry>, p: Path)
    requires Consistent(entries) && p in entries && p !in done
    ensures WithParents(TreeFrom(done), p)[p := Rebuilt(entries[p])] == TreeFrom(done[p := entries[p]])
  {
    hide ParentPaths, AllParents, Consistent, Rebuilt, WithParents;
    ParentsOfMore(done.Keys, p);
    assert done[p := entries[p]].Keys == done.Keys + {p};
  }

  /** Every operation keeps the tree a tree, the index its mirror and the pending sets a delta. */
  lemma StepSound(t: Tracked, op: Op)
    requires Sound(t)
    ensures Sound(Step(t, op))
  {
    hide Delta, RecordUpserts, RecordDeletions, WellFormed, WithParents, CarriedTree, CarriedKinds, EntriesWithin,
         NestedKinds, KindsOf, Placed, KindsWith, AllParents;
    StepDelta(t, op);
    if Effect(t.inner, op).Some? {
      var inner := Effect(t.inner, op).value;
      match op
      case Write(p, body) =>
        OnePlaced(t.inner, p, FileNode(body, FILE_MODE));
        PlacedKinds(t, inner, map[p := File]);
      case Append(p, body) =>
        AppendKinds(t, p, body);
      case Mkdir(p, recursive) =>
        MkdirKinds(t, p, recursive, map q | q in inner && q !in t.inner :: Directory);
      case Rm(p, recursive, force) =>
        RemoveKinds(t, p, recursive, force);
      case Cp(source, destination, recursive) =>
        CopyKinds(t, source, destination);
      case Mv(source, destination) =>
        MoveKinds(t, source, destination);
      case Chmod(p, mode) =>
        KindAt(t.inner, p);
        SamePlaced(t.inner, p, inner[p]);
        PlacedKinds(t, inner, map[p := t.kinds[p]]);
      case Symlink(target, p) =>
        OnePlaced(t.inner, p, LinkNode(target, LINK_MODE));
        PlacedKinds(t, inner, map[p := Kind.Symlink]);
    }
  }

  lemma AppendKinds(t: Tracked, p: Path, body: Body)
    requires WellFormed(t.inner) && t.kinds == KindsOf(t.inner) && AppendFile(t.inner, p, body).Some?
    ensures var inner := AppendFile(t.inner, p, body).value;
            WellFormed(inner) && RecordUpserts(t.(inner := inner), map[p := File]).kinds == KindsOf(inner)
  {
    hide WellFormed, WithParents, RecordUpserts, KindsOf, Placed;
    var inner := AppendFile(t.inner, p, body).value;
    if p in t.inner && t.inner[p].FileNode? {
      SamePlaced(t.inner, p, inner[p]);
    } else {
      OnePlaced(t.inner, p, FileNode(body, FILE_MODE));
    }
    PlacedKinds(t, inner, map[p := File]);
  }
}
