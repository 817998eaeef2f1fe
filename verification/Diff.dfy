/** The diff of two revisions, with moves detected by a greedy matching (history/diff.ts). */
module Diff {
  import opened Types

  /** An entry of a revision's manifest, as far as a diff looks at it. */
  datatype Version = Version(kind: Kind, hash: Option<Hash>, mode: nat, target: Option<string>)

  type Manifest = map<Path, Version>

  datatype DiffEntry =
    | Added(path: Path, afterHash: Option<Hash>)
    | Deleted(path: Path, beforeHash: Option<Hash>)
    | TypeChange(path: Path, beforeHash: Option<Hash>, afterHash: Option<Hash>)
    | Metadata(path: Path, beforeHash: Option<Hash>, afterHash: Option<Hash>)
    | Modified(path: Path, beforeHash: Option<Hash>, afterHash: Option<Hash>)
    | Moved(path: Path, moveFrom: Path, beforeHash: Option<Hash>, afterHash: Option<Hash>)
    | Unavailable(path: Path)

  function At(m: Manifest, p: Path): Option<Version> {
    if p in m then Some(m[p]) else None
  }

  function DescribeDiff(p: Path, before: Option<Version>, after: Option<Version>): (r: Option<DiffEntry>)
    ensures before.Some? || after.Some? ==> (r.Some? <==> before != after)
    ensures r.Some? && (before.Some? || after.Some?) ==> r.value.path == p && !r.value.Moved?
    ensures r.Some? ==> (r.value.Added? <==> before.None? && after.Some?) && (r.value.Deleted? <==> before.Some? && after.None?)
  {
    if before.None? && after.Some? then Some(Added(p, after.value.hash))
    else if before.Some? && after.None? then Some(Deleted(p, before.value.hash))
    else if before.None? then Some(Unavailable([]))
    else
      var b, a := before.value, after.value;
      if b.kind != a.kind then Some(TypeChange(p, b.hash, a.hash))
      else if b.hash == a.hash && b.mode == a.mode && b.target == a.target then None
      else if b.hash == a.hash then Some(Metadata(p, b.hash, a.hash))
      else Some(Modified(p, b.hash, a.hash))
  }

  /** Equal content: the mode does not matter. */
  predicate SameContent(left: Option<Version>, right: Option<Version>) {
    left.Some? && right.Some? && left.value.kind == right.value.kind && left.value.hash == right.value.hash
    && left.value.target == right.value.target
  }

  // ---------------------------------------------------------------- as functions

  function RawEntries(from: Manifest, to: Manifest, paths: seq<Path>): seq<DiffEntry> {
    if paths == [] then [] else
      var p := paths[|paths| - 1];
      var entry := DescribeDiff(p, At(from, p), At(to, p));
      RawEntries(from, to, paths[..|paths| - 1]) + if entry.Some? then [entry.value] else []
  }

  function DeletedOf(entries: seq<DiffEntry>): seq<DiffEntry> {
    if entries == [] then [] else
      var e := entries[|entries| - 1];
      DeletedOf(entries[..|entries| - 1]) + if e.Deleted? then [e] else []
  }

  function AddedOf(entries: seq<DiffEntry>): seq<DiffEntry> {
    if entries == [] then [] else
      var e := entries[|entries| - 1];
      AddedOf(entries[..|entries| - 1]) + if e.Added? then [e] else []
  }

  /** The first addition, from number `i` on, that is still free and has the content. */
  function FirstFree(additions: seq<DiffEntry>, i: nat, consumed: set<DiffEntry>, source: Option<Version>, after: Manifest): Option<DiffEntry>
    decreases |additions| - i
  {
    if i >= |additions| then None
    else if additions[i] !in consumed && SameContent(source, At(after, additions[i].path)) then Some(additions[i])
    else FirstFree(additions, i + 1, consumed, source, after)
  }

  /** The moves found so far: pairs of a deletion and an addition. */
  type Pairs = seq<(DiffEntry, DiffEntry)>

  function Consumed(pairs: Pairs): set<DiffEntry> {
    if pairs == [] then {} else Consumed(pairs[..|pairs| - 1]) + {pairs[|pairs| - 1].0, pairs[|pairs| - 1].1}
  }

  function Matched(deleted: seq<DiffEntry>, additions: seq<DiffEntry>, before: Manifest, after: Manifest): Pairs {
    if deleted == [] then [] else
      var pairs := Matched(deleted[..|deleted| - 1], additions, before, after);
      var removed := deleted[|deleted| - 1];
      var added := FirstFree(additions, 0, Consumed(pairs), At(before, removed.path), after);
      if added.Some? then pairs + [(removed, added.value)] else pairs
  }

  predicate Paired(pairs: Pairs) {
    forall i :: 0 <= i < |pairs| ==> pairs[i].0.Deleted? && pairs[i].1.Added?
  }

  function MovesOf(pairs: Pairs): seq<DiffEntry>
    requires Paired(pairs)
  {
    seq(|pairs|, i requires 0 <= i < |pairs| =>
      Moved(pairs[i].1.path, pairs[i].0.path, pairs[i].0.beforeHash, pairs[i].1.afterHash))
  }

  function Without(entries: seq<DiffEntry>, consumed: set<DiffEntry>): seq<DiffEntry> {
    if entries == [] then [] else
      var e := entries[|entries| - 1];
      Without(entries[..|entries| - 1], consumed) + if e in consumed then [] else [e]
  }

  lemma {:induction false} MatchedArePaired(deleted: seq<DiffEntry>, additions: seq<DiffEntry>, before: Manifest, after: Manifest)
    requires forall i :: 0 <= i < |deleted| ==> deleted[i].Deleted?
    requires forall i :: 0 <= i < |additions| ==> additions[i].Added?
    ensures Paired(Matched(deleted, additions, before, after))
  {
    if deleted != [] {
      var pairs := Matched(deleted[..|deleted| - 1], additions, before, after);
      MatchedArePaired(deleted[..|deleted| - 1], additions, before, after);
      FreeIsFound(additions, 0, Consumed(pairs), At(before, deleted[|deleted| - 1].path), after);
    }
  }

  lemma {:induction false} FreeIsFound(additions: seq<DiffEntry>, i: nat, consumed: set<DiffEntry>, source: Option<Version>, after: Manifest)
    ensures var r := FirstFree(additions, i, consumed, source, after);
            if r.Some? then r.value in additions && r.value !in consumed && SameContent(source, At(after, r.value.path))
            else forall j :: i <= j < |additions| ==> additions[j] in consumed || !SameContent(source, At(after, additions[j].path))
    decreases |additions| - i
  {
    if i < |additions| && !(additions[i] !in consumed && SameContent(source, At(after, additions[i].path))) {
      FreeIsFound(additions, i + 1, consumed, source, after);
    }
  }

  lemma {:induction false} OnlyDeleted(entries: seq<DiffEntry>)
    ensures forall i :: 0 <= i < |DeletedOf(entries)| ==> DeletedOf(entries)[i].Deleted?
    ensures forall e :: e in DeletedOf(entries) <==> e in entries && e.Deleted?
  {
    if entries != [] {
      OnlyDeleted(entries[..|entries| - 1]);
      assert entries == entries[..|entries| - 1] + [entries[|entries| - 1]];
    }
  }

  lemma {:induction false} OnlyAdded(entries: seq<DiffEntry>)
    ensures forall i :: 0 <= i < |AddedOf(entries)| ==> AddedOf(entries)[i].Added?
    ensures forall e :: e in AddedOf(entries) <==> e in entries && e.Added?
  {
    if entries != [] {
      OnlyAdded(entries[..|entries| - 1]);
      assert entries == entries[..|entries| - 1] + [entries[|entries| - 1]];
    }
  }

  function PairsOf(entries: seq<DiffEntry>, before: Manifest, after: Manifest): (pairs: Pairs)
    ensures Paired(pairs)
  {
    OnlyDeleted(entries);
    OnlyAdded(entries);
    MatchedArePaired(DeletedOf(entries), AddedOf(entries), before, after);
    Matched(DeletedOf(entries), AddedOf(entries), before, after)
  }

  /** The entries that took no part in a move, and the moves. */
  function Detected(entries: seq<DiffEntry>, before: Manifest, after: Manifest): seq<DiffEntry> {
    var pairs := PairsOf(entries, before, after);
    Without(entries, Consumed(pairs)) + MovesOf(pairs)
  }

  // ---------------------------------------------------------------- as loops

  lemma Snoc<T>(xs: seq<T>, i: nat)
    requires i < |xs|
    ensures xs[..i + 1][..i] == xs[..i] && xs[..i + 1][i] == xs[i]
  {
  }

  lemma OneMorePair(pairs: Pairs, removed: DiffEntry, added: DiffEntry)
    requires Paired(pairs) && removed.Deleted? && added.Added?
    ensures Paired(pairs + [(removed, added)])
    ensures Consumed(pairs + [(removed, added)]) == Consumed(pairs) + {removed, added}
    ensures MovesOf(pairs + [(removed, added)])
         == MovesOf(pairs) + [Moved(added.path, removed.path, removed.beforeHash, added.afterHash)]
  {
    assert (pairs + [(removed, added)])[..|pairs|] == pairs;
  }

  lemma MatchedNext(deleted: seq<DiffEntry>, i: nat, additions: seq<DiffEntry>, before: Manifest, after: Manifest)
    requires i < |deleted|
    ensures var pairs := Matched(deleted[..i], additions, before, after);
            var added := FirstFree(additions, 0, Consumed(pairs), At(before, deleted[i].path), after);
            Matched(deleted[..i + 1], additions, before, after) == (if added.Some? then pairs + [(deleted[i], added.value)] else pairs)
  {
    Snoc(deleted, i);
  }

  method MatchMoves(deleted: seq<DiffEntry>, additions: seq<DiffEntry>, before: Manifest, after: Manifest)
    returns (consumed: set<DiffEntry>, moves: seq<DiffEntry>)
    requires forall i :: 0 <= i < |deleted| ==> deleted[i].Deleted?
    requires forall i :: 0 <= i < |additions| ==> additions[i].Added?
    ensures Paired(Matched(deleted, additions, before, after))
    ensures consumed == Consumed(Matched(deleted, additions, before, after))
    ensures moves == MovesOf(Matched(deleted, additions, before, after))
  {
    consumed, moves := {}, [];
    assert Matched(deleted[..0], additions, before, after) == [];
    hide FirstFree, SameContent, At, Matched, Consumed, Paired, MovesOf;
    NoPairs();
    var i := 0;
    while i < |deleted|
      invariant 0 <= i <= |deleted|
      invariant Paired(Matched(deleted[..i], additions, before, after))
      invariant consumed == Consumed(Matched(deleted[..i], additions, before, after))
      invariant moves == MovesOf(Matched(deleted[..i], additions, before, after))
    {
      var removed := deleted[i];
      MatchedNext(deleted, i, additions, before, after);
      var added := FindFree(additions, consumed, At(before, removed.path), after);
      FreeIsFound(additions, 0, consumed, At(before, removed.path), after);
      if added.Some? {
        OneMorePair(Matched(deleted[..i], additions, before, after), removed, added.value);
        consumed := consumed + {removed, added.value};
        moves := moves + [Moved(added.value.path, removed.path, removed.beforeHash, added.value.afterHash)];
      }
      i := i + 1;
    }
    assert deleted[..i] == deleted;
  }

  lemma NoPairs()
    ensures Paired([]) && Consumed([]) == {} && MovesOf([]) == []
  {
  }

  method DetectMoves(entries: seq<DiffEntry>, before: Manifest, after: Manifest) returns (result: seq<DiffEntry>)
    ensures result == Detected(entries, before, after)
  {
    hide Matched, Consumed, Paired, MovesOf, DeletedOf, AddedOf;
    var deleted, additions := SplitEntries(entries);
    OnlyDeleted(entries);
    OnlyAdded(entries);
    var consumed, moves := MatchMoves(deleted, additions, before, after);
    result := Unconsumed(entries, consumed);
    result := result + moves;
  }

  method FindFree(additions: seq<DiffEntry>, consumed: set<DiffEntry>, source: Option<Version>, after: Manifest) returns (r: Option<DiffEntry>)
    ensures r == FirstFree(additions, 0, consumed, source, after)
  {
    var i := 0;
    while i < |additions|
      invariant 0 <= i <= |additions|
      invariant FirstFree(additions, 0, consumed, source, after) == FirstFree(additions, i, consumed, source, after)
    {
      if additions[i] !in consumed && SameContent(source, At(after, additions[i].path)) {
        return Some(additions[i]);
      }
      i := i + 1;
    }
    return None;
  }

  method SplitEntries(entries: seq<DiffEntry>) returns (deleted: seq<DiffEntry>, additions: seq<DiffEntry>)
    ensures deleted == DeletedOf(entries) && additions == AddedOf(entries)
  {
    deleted, additions := [], [];
    var i := 0;
    while i < |entries|
      invariant 0 <= i <= |entries|
      invariant deleted == DeletedOf(entries[..i]) && additions == AddedOf(entries[..i])
    {
      Snoc(entries, i);
      if entries[i].Deleted? {
        deleted := deleted + [entries[i]];
      }
      if entries[i].Added? {
        additions := additions + [entries[i]];
      }
      i := i + 1;
    }
    assert entries[..i] == entries;
  }

  method Unconsumed(entries: seq<DiffEntry>, consumed: set<DiffEntry>) returns (r: seq<DiffEntry>)
    ensures r == Without(entries, consumed)
  {
    r := [];
    var i := 0;
    while i < |entries|
      invariant 0 <= i <= |entries| && r == Without(entries[..i], consumed)
    {
      Snoc(entries, i);
      if entries[i] !in consumed {
        r := r + [entries[i]];
      }
      i := i + 1;
    }
    assert entries[..i] == entries;
  }

  /** All paths of both manifests, each once, in some order. */
  ghost predicate Lists(paths: seq<Path>, from: Manifest, to: Manifest) {
    && (forall p :: p in paths <==> p in from || p in to)
    && forall i, j :: 0 <= i < j < |paths| ==> paths[i] != paths[j]
  }

  method DiffRevisions(from: Manifest, to: Manifest, paths: seq<Path>) returns (entries: seq<DiffEntry>)
    ensures entries == Detected(RawEntries(from, to, paths), from, to)
  {
    hide DescribeDiff, Detected;
    var raw: seq<DiffEntry> := [];
    var i := 0;
    while i < |paths|
      invariant 0 <= i <= |paths| && raw == RawEntries(from, to, paths[..i])
    {
      Snoc(paths, i);
      var entry := DescribeDiff(paths[i], At(from, paths[i]), At(to, paths[i]));
      if entry.Some? {
        raw := raw + [entry.value];
      }
      i := i + 1;
    }
    assert paths[..i] == paths;
    entries := DetectMoves(raw, from, to);
  }
}
