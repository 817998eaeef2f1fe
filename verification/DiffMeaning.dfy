/** What a diff tells: every differing path once, moves of equal content only, and as many moves as possible. */
module DiffMeaning {
  import opened Types
  import opened Diff

  // ---------------------------------------------------------------- matchings

  /** No two keys are mapped to the same value. */
  predicate Injective<A, B(==)>(m: map<A, B>) {
    forall a, b :: a in m && b in m && a != b ==> m[a] != m[b]
  }

  lemma {:induction false} InjectiveSize<A, B>(m: map<A, B>)
    requires Injective(m)
    ensures |m.Values| == |m.Keys|
    decreases |m|
  {
    if m != map[] {
      var a :| a in m;
      var rest := m - {a};
      assert rest.Keys == m.Keys - {a};
      assert forall x :: x in rest ==> rest[x] == m[x];
      InjectiveSize(rest);
      forall v
        ensures v in rest.Values <==> v in m.Values - {m[a]}
      {
        if v in m.Values && v != m[a] {
          var x :| x in m && m[x] == v;
          assert rest[x] == v;
        }
      }
      assert rest.Values == m.Values - {m[a]};
    }
  }

  lemma SubsetSize<T>(a: set<T>, b: set<T>)
    requires a <= b
    ensures |a| <= |b|
  {
    assert b == a + (b - a);
  }

  /** A matching between two sides, injective, of elements with equal keys. */
  ghost predicate Matching<A, B, K>(m: map<A, B>, left: map<A, K>, right: map<B, K>) {
    Injective(m) && forall a :: a in m ==> a in left && m[a] in right && left[a] == right[m[a]]
  }

  /** The part of a matching whose elements have a key among the given ones, and the keys of the rest. */
  function Among<A(!new), B, K(==)>(m: map<A, B>, left: map<A, K>, keys: set<K>): (r: map<A, B>)
    ensures forall a :: a in r <==> a in m && a in left && left[a] in keys
    ensures forall a :: a in r ==> r[a] == m[a]
  {
    map a | a in m && a in left && left[a] in keys :: m[a]
  }

  function Others<A(!new), B, K(==)>(m: map<A, B>, left: map<A, K>, keys: set<K>): (r: set<A>)
    ensures forall a :: a in r <==> a in m && !(a in left && left[a] in keys)
  {
    set a | a in m && !(a in left && left[a] in keys)
  }

  lemma SplitSize<A(!new), B, K>(m: map<A, B>, left: map<A, K>, keys: set<K>)
    requires Injective(m)
    ensures |m| == |Among(m, left, keys).Values| + |Others(m, left, keys)|
  {
    var r := Among(m, left, keys);
    InjectiveSize(r);
    assert m.Keys == r.Keys + Others(m, left, keys) && r.Keys !! Others(m, left, keys);
  }

  ghost predicate Unextendable<A, B, K>(g: map<A, B>, left: map<A, K>, right: map<B, K>) {
    forall a, b :: a in left && a !in g && b in right && b !in g.Values ==> left[a] != right[b]
  }

  lemma OpenKeysTaken<A(!new), B, K>(g: map<A, B>, m: map<A, B>, left: map<A, K>, right: map<B, K>, open: set<K>, b: B)
    requires Matching(g, left, right) && Matching(m, left, right) && Unextendable(g, left, right)
    requires forall k :: k in open ==> exists a :: a in left && a !in g && left[a] == k
    requires b in Among(m, left, open).Values
    ensures b in Among(g, left, open).Values
  {
    var a :| a in Among(m, left, open) && Among(m, left, open)[a] == b;
    var free :| free in left && free !in g && left[free] == left[a];
    assert b in g.Values;
    var c :| c in g && g[c] == b;
    assert c in Among(g, left, open) && Among(g, left, open)[c] == b;
  }

  /** When equality of keys decides what matches, a matching that cannot be extended is as large as any. */
  lemma MaximalIsMaximum<A(!new), B, K>(g: map<A, B>, m: map<A, B>, left: map<A, K>, right: map<B, K>)
    requires Matching(g, left, right) && Matching(m, left, right) && Unextendable(g, left, right)
    ensures |m| <= |g|
  {
    var open := set a | a in left && a !in g :: left[a];
    forall b | b in Among(m, left, open).Values
      ensures b in Among(g, left, open).Values
    {
      OpenKeysTaken(g, m, left, right, open, b);
    }
    SubsetSize(Among(m, left, open).Values, Among(g, left, open).Values);
    SubsetSize(Others(m, left, open), Others(g, left, open));
    SplitSize(m, left, open);
    SplitSize(g, left, open);
  }

  // ---------------------------------------------------------------- the raw entries

  predicate Distinct(entries: seq<DiffEntry>) {
    forall i, j :: 0 <= i < j < |entries| ==> entries[i].path != entries[j].path
  }

  lemma {:induction false} RawMember(from: Manifest, to: Manifest, paths: seq<Path>, e: DiffEntry)
    requires forall p :: p in paths ==> p in from || p in to
    ensures e in RawEntries(from, to, paths) <==>
            e.path in paths && DescribeDiff(e.path, At(from, e.path), At(to, e.path)) == Some(e)
  {
    hide DescribeDiff;
    if paths != [] {
      var init := paths[..|paths| - 1];
      var p := paths[|paths| - 1];
      assert paths == init + [p];
      RawMember(from, to, init, e);
    }
  }

  lemma {:induction false} RawDistinct(from: Manifest, to: Manifest, paths: seq<Path>)
    requires forall p :: p in paths ==> p in from || p in to
    requires forall i, j :: 0 <= i < j < |paths| ==> paths[i] != paths[j]
    ensures Distinct(RawEntries(from, to, paths))
  {
    hide DescribeDiff;
    if paths != [] {
      var init := paths[..|paths| - 1];
      assert paths == init + [paths[|paths| - 1]];
      RawDistinct(from, to, init);
      var raw := RawEntries(from, to, init);
      forall i | 0 <= i < |raw|
        ensures raw[i].path in init
      {
        RawMember(from, to, init, raw[i]);
      }
    }
  }

  // ---------------------------------------------------------------- the greedy matching

  ghost predicate PairsFit(pairs: Pairs, deleted: seq<DiffEntry>, additions: seq<DiffEntry>, before: Manifest, after: Manifest) {
    forall i :: 0 <= i < |pairs| ==>
      && pairs[i].0 in deleted && pairs[i].1 in additions
      && SameContent(At(before, pairs[i].0.path), At(after, pairs[i].1.path))
  }

  ghost predicate PairsApart(pairs: Pairs) {
    forall i, j :: 0 <= i < j < |pairs| ==> pairs[i].0 != pairs[j].0 && pairs[i].1 != pairs[j].1
  }

  /** Nothing is left that could be paired. */
  ghost predicate PairsMaximal(pairs: Pairs, deleted: seq<DiffEntry>, additions: seq<DiffEntry>, before: Manifest, after: Manifest) {
    forall d, a :: d in deleted && d !in Consumed(pairs) && a in additions && a !in Consumed(pairs) ==>
      !SameContent(At(before, d.path), At(after, a.path))
  }

  lemma {:induction false} ConsumedAre(pairs: Pairs)
    ensures forall e :: e in Consumed(pairs) <==> exists i :: 0 <= i < |pairs| && (pairs[i].0 == e || pairs[i].1 == e)
  {
    if pairs != [] {
      var init := pairs[..|pairs| - 1];
      ConsumedAre(init);
      forall e
        ensures e in Consumed(pairs) <==> exists i :: 0 <= i < |pairs| && (pairs[i].0 == e || pairs[i].1 == e)
      {
        if e in Consumed(init) {
          var i :| 0 <= i < |init| && (init[i].0 == e || init[i].1 == e);
          assert pairs[i] == init[i];
        }
        if e in Consumed(pairs) && e !in Consumed(init) {
          assert pairs[|pairs| - 1].0 == e || pairs[|pairs| - 1].1 == e;
        }
      }
    }
  }

  ghost predicate AllDistinct<T>(xs: seq<T>) {
    forall i, j :: 0 <= i < j < |xs| ==> xs[i] != xs[j]
  }

  ghost predicate Greedy(pairs: Pairs, deleted: seq<DiffEntry>, additions: seq<DiffEntry>, before: Manifest, after: Manifest) {
    && PairsFit(pairs, deleted, additions, before, after)
    && PairsApart(pairs)
    && PairsMaximal(pairs, deleted, additions, before, after)
  }

  lemma PairTaken(pairs: Pairs, deleted: seq<DiffEntry>, additions: seq<DiffEntry>, before: Manifest, after: Manifest,
                  removed: DiffEntry, added: DiffEntry)
    requires Greedy(pairs, deleted, additions, before, after) && removed !in deleted
    requires added in additions && added !in Consumed(pairs) && SameContent(At(before, removed.path), At(after, added.path))
    ensures Greedy(pairs + [(removed, added)], deleted + [removed], additions, before, after)
  {
    hide SameContent, At, Consumed;
    ConsumedAre(pairs);
    ConsumedMore(pairs, removed, added);
    assert forall i :: 0 <= i < |pairs| ==> pairs[i].0 in deleted && pairs[i].1 in Consumed(pairs);
  }

  lemma PairMissed(pairs: Pairs, deleted: seq<DiffEntry>, additions: seq<DiffEntry>, before: Manifest, after: Manifest, removed: DiffEntry)
    requires Greedy(pairs, deleted, additions, before, after)
    requires forall a :: a in additions && a !in Consumed(pairs) ==> !SameContent(At(before, removed.path), At(after, a.path))
    ensures Greedy(pairs, deleted + [removed], additions, before, after)
  {
    hide SameContent, At, Consumed;
  }

  /** The matching pairs entries of equal content, uses each once, and leaves nothing that could be paired. */
  lemma {:induction false} GreedyFacts(deleted: seq<DiffEntry>, additions: seq<DiffEntry>, before: Manifest, after: Manifest)
    requires AllDistinct(deleted)
    ensures Greedy(Matched(deleted, additions, before, after), deleted, additions, before, after)
    decreases |deleted|
  {
    NothingIsGreedy(additions, before, after);
    hide SameContent, FirstFree, At, Consumed, Greedy;
    if deleted != [] {
      var init := deleted[..|deleted| - 1];
      var removed := deleted[|deleted| - 1];
      assert deleted == init + [removed];
      GreedyFacts(init, additions, before, after);
      var pairs := Matched(init, additions, before, after);
      FreeIsFound(additions, 0, Consumed(pairs), At(before, removed.path), after);
      var added := FirstFree(additions, 0, Consumed(pairs), At(before, removed.path), after);
      if added.Some? {
        PairTaken(pairs, init, additions, before, after, removed, added.value);
      } else {
        PairMissed(pairs, init, additions, before, after, removed);
      }
    }
  }

  lemma NothingIsGreedy(additions: seq<DiffEntry>, before: Manifest, after: Manifest)
    ensures Greedy([], [], additions, before, after)
  {
  }

  lemma ConsumedMore(pairs: Pairs, removed: DiffEntry, added: DiffEntry)
    ensures Consumed(pairs + [(removed, added)]) == Consumed(pairs) + {removed, added}
  {
    assert (pairs + [(removed, added)])[..|pairs|] == pairs;
  }

  // ---------------------------------------------------------------- the whole diff

  lemma {:induction false} WithoutMember(entries: seq<DiffEntry>, consumed: set<DiffEntry>, e: DiffEntry)
    ensures e in Without(entries, consumed) <==> e in entries && e !in consumed
  {
    if entries != [] {
      assert entries == entries[..|entries| - 1] + [entries[|entries| - 1]];
      WithoutMember(entries[..|entries| - 1], consumed, e);
    }
  }

  lemma {:induction false} WithoutDistinct(entries: seq<DiffEntry>, consumed: set<DiffEntry>)
    requires Distinct(entries)
    ensures Distinct(Without(entries, consumed))
  {
    if entries != [] {
      var init := entries[..|entries| - 1];
      WithoutDistinct(init, consumed);
      var rest := Without(init, consumed);
      forall i | 0 <= i < |rest|
        ensures rest[i].path != entries[|entries| - 1].path
      {
        WithoutMember(init, consumed, rest[i]);
      }
    }
  }

  lemma {:induction false} DeletedDistinct(entries: seq<DiffEntry>)
    requires Distinct(entries)
    ensures AllDistinct(DeletedOf(entries))
  {
    if entries != [] {
      var init := entries[..|entries| - 1];
      DeletedDistinct(init);
      OnlyDeleted(init);
    }
  }

  /** The paths an entry names. */
  function Names(e: DiffEntry): set<Path> {
    if e.Moved? then {e.path, e.moveFrom} else {e.path}
  }

  ghost predicate IsMove(e: DiffEntry, from: Manifest, to: Manifest) {
    && e.Moved? && e.moveFrom in from && e.moveFrom !in to && e.path in to && e.path !in from
    && SameContent(At(from, e.moveFrom), At(to, e.path))
  }

  /** The facts about the raw entries and the matching from which a diff is put together. */
  ghost predicate Assembled(raw: seq<DiffEntry>, pairs: Pairs, from: Manifest, to: Manifest) {
    && Distinct(raw)
    && (forall e :: e in raw <==> At(from, e.path) != At(to, e.path) && DescribeDiff(e.path, At(from, e.path), At(to, e.path)) == Some(e))
    && Paired(pairs) && PairsApart(pairs)
    && (forall i :: 0 <= i < |pairs| ==>
          pairs[i].0 in raw && pairs[i].1 in raw && SameContent(At(from, pairs[i].0.path), At(to, pairs[i].1.path)))
  }

  lemma DiffIsAssembled(from: Manifest, to: Manifest, paths: seq<Path>)
    requires Lists(paths, from, to)
    ensures var raw := RawEntries(from, to, paths);
            var pairs := PairsOf(raw, from, to);
            && Assembled(raw, pairs, from, to)
            && PairsFit(pairs, DeletedOf(raw), AddedOf(raw), from, to)
            && PairsMaximal(pairs, DeletedOf(raw), AddedOf(raw), from, to)
  {
    hide DescribeDiff, SameContent, Matched, Consumed, RawEntries, DeletedOf, AddedOf;
    var raw := RawEntries(from, to, paths);
    RawDistinct(from, to, paths);
    forall e: DiffEntry
      ensures e in raw <==> At(from, e.path) != At(to, e.path) && DescribeDiff(e.path, At(from, e.path), At(to, e.path)) == Some(e)
    {
      RawMember(from, to, paths, e);
      NothingIsNothing(from, to, e.path);
    }
    DeletedDistinct(raw);
    OnlyDeleted(raw);
    OnlyAdded(raw);
    MatchedArePaired(DeletedOf(raw), AddedOf(raw), from, to);
    GreedyFacts(DeletedOf(raw), AddedOf(raw), from, to);
  }

  lemma NothingIsNothing(from: Manifest, to: Manifest, p: Path)
    ensures At(from, p) != At(to, p) ==> p in from || p in to
    ensures p in from || p in to ==> (At(from, p) != At(to, p) <==> DescribeDiff(p, At(from, p), At(to, p)).Some?)
  {
  }

  /** The raw entries that an entry of the diff stands for. */
  function Sources(rest: seq<DiffEntry>, pairs: Pairs, i: nat): set<DiffEntry>
    requires i < |rest| + |pairs|
  {
    if i < |rest| then {rest[i]} else {pairs[i - |rest|].0, pairs[i - |rest|].1}
  }

  lemma SourcesApart(raw: seq<DiffEntry>, pairs: Pairs, i: nat, j: nat)
    requires Distinct(raw) && Paired(pairs) && PairsApart(pairs)
    requires var rest := Without(raw, Consumed(pairs)); i < j < |rest| + |pairs|
    ensures var rest := Without(raw, Consumed(pairs)); Sources(rest, pairs, i) !! Sources(rest, pairs, j)
  {
    hide Without, Consumed;
    var rest := Without(raw, Consumed(pairs));
    WithoutDistinct(raw, Consumed(pairs));
    ConsumedAre(pairs);
    if i < |rest| {
      WithoutMember(raw, Consumed(pairs), rest[i]);
    }
  }

  lemma SourcesNamed(raw: seq<DiffEntry>, pairs: Pairs, from: Manifest, to: Manifest, i: nat)
    requires Assembled(raw, pairs, from, to)
    requires var rest := Without(raw, Consumed(pairs)); i < |rest| + |pairs|
    ensures var rest := Without(raw, Consumed(pairs));
            && (forall e :: e in Sources(rest, pairs, i) ==> e in raw)
            && (forall p :: p in Names((rest + MovesOf(pairs))[i]) ==> exists e :: e in Sources(rest, pairs, i) && e.path == p)
  {
    hide DescribeDiff, SameContent, At, Without, Consumed;
    var rest := Without(raw, Consumed(pairs));
    if i < |rest| {
      WithoutMember(raw, Consumed(pairs), rest[i]);
      RawIsNoMove(raw, pairs, from, to, rest[i]);
    } else {
      assert (rest + MovesOf(pairs))[i] == MovesOf(pairs)[i - |rest|];
      assert pairs[i - |rest|].0 in Sources(rest, pairs, i) && pairs[i - |rest|].1 in Sources(rest, pairs, i);
    }
  }

  /** No path is named by two entries: each deletion and each addition takes part in at most one move. */
  lemma DiffNamesOnce(from: Manifest, to: Manifest, paths: seq<Path>, i: nat, j: nat)
    requires Lists(paths, from, to)
    requires i < j < |Detected(RawEntries(from, to, paths), from, to)|
    ensures var result := Detected(RawEntries(from, to, paths), from, to); Names(result[i]) !! Names(result[j])
  {
    hide RawEntries, Without, Consumed, Sources, Names, PairsFit, PairsMaximal;
    DiffIsAssembled(from, to, paths);
    var raw := RawEntries(from, to, paths);
    var pairs := PairsOf(raw, from, to);
    SourcesApart(raw, pairs, i, j);
    SourcesNamed(raw, pairs, from, to, i);
    SourcesNamed(raw, pairs, from, to, j);
    SamePathSameEntry(raw);
  }

  ghost predicate Named(entries: seq<DiffEntry>, p: Path) {
    exists i :: 0 <= i < |entries| && p in Names(entries[i])
  }

  lemma NamedAt(entries: seq<DiffEntry>, i: nat, p: Path)
    requires i < |entries| && p in Names(entries[i])
    ensures Named(entries, p)
  {
  }

  lemma RawIsNamed(raw: seq<DiffEntry>, pairs: Pairs, from: Manifest, to: Manifest, e: DiffEntry)
    requires Assembled(raw, pairs, from, to) && e in raw
    ensures var result := Without(raw, Consumed(pairs)) + MovesOf(pairs);
            Named(result, e.path)
  {
    assert Paired(pairs);
    hide Named, Names, DescribeDiff, SameContent, At, Without, Consumed, Assembled;
    RawIsNoMove(raw, pairs, from, to, e);
    var rest := Without(raw, Consumed(pairs));
    var result := rest + MovesOf(pairs);
    WithoutMember(raw, Consumed(pairs), e);
    if e in Consumed(pairs) {
      ConsumedAre(pairs);
      var i :| 0 <= i < |pairs| && (pairs[i].0 == e || pairs[i].1 == e);
      PairNames(pairs, i);
      NamedAt(result, |rest| + i, e.path);
    } else {
      var i :| 0 <= i < |rest| && rest[i] == e;
      assert result[i] == e;
      NamesItself(e);
      NamedAt(result, i, e.path);
    }
  }

  lemma NamesItself(e: DiffEntry)
    ensures e.path in Names(e)
  {
  }

  lemma PairNames(pairs: Pairs, i: nat)
    requires Paired(pairs) && i < |pairs|
    ensures Names(MovesOf(pairs)[i]) == {pairs[i].0.path, pairs[i].1.path}
  {
  }

  /** The diff names, as path or as origin of a move, exactly the paths whose kind, hash, mode or target differ. */
  lemma DiffIsComplete(from: Manifest, to: Manifest, paths: seq<Path>, p: Path)
    requires Lists(paths, from, to)
    ensures var result := Detected(RawEntries(from, to, paths), from, to);
            Named(result, p) <==> At(from, p) != At(to, p)
  {
    hide RawEntries, Without, Consumed, Sources, Names, PairsFit, PairsMaximal, At, DescribeDiff;
    DiffIsAssembled(from, to, paths);
    var raw := RawEntries(from, to, paths);
    var pairs := PairsOf(raw, from, to);
    var result := Detected(raw, from, to);
    if At(from, p) != At(to, p) {
      NothingIsNothing(from, to, p);
      RawIsNamed(raw, pairs, from, to, DescribeDiff(p, At(from, p), At(to, p)).value);
    }
    forall i | 0 <= i < |result| && p in Names(result[i])
      ensures At(from, p) != At(to, p)
    {
      SourcesNamed(raw, pairs, from, to, i);
    }
  }

  lemma SamePathSameEntry(raw: seq<DiffEntry>)
    requires Distinct(raw)
    ensures forall d, e :: d in raw && e in raw && d.path == e.path ==> d == e
  {
  }

  lemma RawIsNoMove(raw: seq<DiffEntry>, pairs: Pairs, from: Manifest, to: Manifest, e: DiffEntry)
    requires Assembled(raw, pairs, from, to) && e in raw
    ensures !e.Moved?
  {
  }

  /** What an entry says of the two versions of its path. */
  predicate Tells(e: DiffEntry, before: Option<Version>, after: Option<Version>) {
    match e
    case Added(_, h) => before.None? && after.Some? && h == after.value.hash
    case Deleted(_, h) => before.Some? && after.None? && h == before.value.hash
    case TypeChange(_, b, a) =>
      && before.Some? && after.Some? && before.value.kind != after.value.kind && b == before.value.hash && a == after.value.hash
    case Metadata(_, b, a) =>
      && before.Some? && after.Some? && before.value.kind == after.value.kind
      && (before.value.mode != after.value.mode || before.value.target != after.value.target)
      && b == a == before.value.hash == after.value.hash
    case Modified(_, b, a) =>
      && before.Some? && after.Some? && before.value.kind == after.value.kind
      && b == before.value.hash && a == after.value.hash && b != a
    case _ => false
  }

  /** The content of the path that is gone is that of the new one, their modes aside. */
  predicate TellsMove(e: DiffEntry, from: Manifest, to: Manifest) {
    && e.Moved? && e.moveFrom in from && e.moveFrom !in to && e.path in to && e.path !in from
    && from[e.moveFrom].kind == to[e.path].kind && from[e.moveFrom].target == to[e.path].target
    && e.beforeHash == e.afterHash == from[e.moveFrom].hash == to[e.path].hash
  }

  /** Every entry of a diff tells the truth. */
  lemma EntriesTellTruth(from: Manifest, to: Manifest, paths: seq<Path>, e: DiffEntry)
    requires Lists(paths, from, to) && e in Detected(RawEntries(from, to, paths), from, to)
    ensures if e.Moved? then TellsMove(e, from, to) else Tells(e, At(from, e.path), At(to, e.path))
  {
    hide Matched, Consumed, RawEntries, DeletedOf, AddedOf, Without;
    DiffIsAssembled(from, to, paths);
    var raw := RawEntries(from, to, paths);
    var pairs := PairsOf(raw, from, to);
    WithoutMember(raw, Consumed(pairs), e);
    if e in raw {
      RawIsNoMove(raw, pairs, from, to, e);
    } else {
      assert e in MovesOf(pairs);
      var i :| 0 <= i < |pairs| && MovesOf(pairs)[i] == e;
      assert pairs[i].0 in raw && pairs[i].1 in raw;
    }
  }

  /** Every move reported is one: from a path that is gone to one that is new, with equal content. */
  lemma MovesAreMoves(from: Manifest, to: Manifest, paths: seq<Path>, e: DiffEntry)
    requires Lists(paths, from, to) && e in Detected(RawEntries(from, to, paths), from, to)
    ensures if e.Moved? then IsMove(e, from, to) else DescribeDiff(e.path, At(from, e.path), At(to, e.path)) == Some(e)
  {
    hide Matched, Consumed, RawEntries, DeletedOf, AddedOf, Without;
    DiffIsAssembled(from, to, paths);
    var raw := RawEntries(from, to, paths);
    var pairs := PairsOf(raw, from, to);
    WithoutMember(raw, Consumed(pairs), e);
    if e in raw {
      RawIsNoMove(raw, pairs, from, to, e);
    } else {
      assert e in MovesOf(pairs);
      var i :| 0 <= i < |pairs| && MovesOf(pairs)[i] == e;
      assert pairs[i].0 in raw && pairs[i].1 in raw;
    }
  }

  /** What a move keeps of an entry. */
  type Content = (Kind, Option<Hash>, Option<string>)

  function ContentOf(v: Version): Content {
    (v.kind, v.hash, v.target)
  }

  /** The contents of the paths that are gone from the first manifest in the second. */
  function Gone(from: Manifest, to: Manifest): map<Path, Content> {
    map p | p in from && p !in to :: ContentOf(from[p])
  }

  function MoveOrigins(entries: seq<DiffEntry>): set<Path> {
    set e | e in entries && e.Moved? :: e.moveFrom
  }

  function PairMap(pairs: Pairs): map<Path, Path> {
    if pairs == [] then map[] else
      PairMap(pairs[..|pairs| - 1])[pairs[|pairs| - 1].0.path := pairs[|pairs| - 1].1.path]
  }

  lemma {:induction false} PairMapFacts(pairs: Pairs)
    requires forall i, j :: 0 <= i < j < |pairs| ==>
               pairs[i].0.path != pairs[j].0.path && pairs[i].1.path != pairs[j].1.path
    ensures forall i :: 0 <= i < |pairs| ==> pairs[i].0.path in PairMap(pairs) && PairMap(pairs)[pairs[i].0.path] == pairs[i].1.path
    ensures forall p :: p in PairMap(pairs) ==> exists i :: 0 <= i < |pairs| && pairs[i].0.path == p
  {
    if pairs != [] {
      var init := pairs[..|pairs| - 1];
      PairMapFacts(init);
      var last := pairs[|pairs| - 1];
      forall p | p in PairMap(pairs)
        ensures exists i :: 0 <= i < |pairs| && pairs[i].0.path == p
      {
        if p in PairMap(init) {
          var i :| 0 <= i < |init| && init[i].0.path == p;
          assert pairs[i] == init[i];
        } else {
          assert last.0.path == p;
        }
      }
    }
  }

  lemma PairMapInjective(pairs: Pairs)
    requires forall i, j :: 0 <= i < j < |pairs| ==>
               pairs[i].0.path != pairs[j].0.path && pairs[i].1.path != pairs[j].1.path
    ensures Injective(PairMap(pairs))
  {
    hide PairMap;
    PairMapFacts(pairs);
    forall p, q | p in PairMap(pairs) && q in PairMap(pairs) && p != q
      ensures PairMap(pairs)[p] != PairMap(pairs)[q]
    {
      var i :| 0 <= i < |pairs| && pairs[i].0.path == p;
      var j :| 0 <= j < |pairs| && pairs[j].0.path == q;
    }
  }

  lemma PairsHavePaths(raw: seq<DiffEntry>, pairs: Pairs, from: Manifest, to: Manifest)
    requires Assembled(raw, pairs, from, to)
    ensures forall i, j :: 0 <= i < j < |pairs| ==>
              pairs[i].0.path != pairs[j].0.path && pairs[i].1.path != pairs[j].1.path
  {
    hide DescribeDiff, SameContent, At;
    SamePathSameEntry(raw);
  }

  lemma PairIsMove(raw: seq<DiffEntry>, pairs: Pairs, from: Manifest, to: Manifest, i: nat)
    requires Assembled(raw, pairs, from, to) && i < |pairs|
    ensures pairs[i].0.path in Gone(from, to) && pairs[i].1.path in Gone(to, from)
    ensures Gone(from, to)[pairs[i].0.path] == Gone(to, from)[pairs[i].1.path]
  {
    assert pairs[i].0 in raw && pairs[i].1 in raw;
  }

  lemma GreedyIsMatching(raw: seq<DiffEntry>, pairs: Pairs, from: Manifest, to: Manifest)
    requires Assembled(raw, pairs, from, to)
    ensures Matching(PairMap(pairs), Gone(from, to), Gone(to, from))
  {
    hide Assembled, Gone;
    PairsHavePaths(raw, pairs, from, to);
    PairMapFacts(pairs);
    PairMapInjective(pairs);
    forall p | p in PairMap(pairs)
      ensures p in Gone(from, to) && PairMap(pairs)[p] in Gone(to, from) && Gone(from, to)[p] == Gone(to, from)[PairMap(pairs)[p]]
    {
      var i :| 0 <= i < |pairs| && pairs[i].0.path == p;
      PairIsMove(raw, pairs, from, to, i);
    }
  }

  lemma Unconsumed(raw: seq<DiffEntry>, pairs: Pairs, from: Manifest, to: Manifest, e: DiffEntry)
    requires Assembled(raw, pairs, from, to)
    ensures e.Deleted? && e.path !in PairMap(pairs) ==> e !in Consumed(pairs)
    ensures e.Added? && e.path !in PairMap(pairs).Values ==> e !in Consumed(pairs)
  {
    assert Paired(pairs);
    hide Assembled, PairMap, Consumed;
    ConsumedAre(pairs);
    if e in Consumed(pairs) {
      var i :| 0 <= i < |pairs| && (pairs[i].0 == e || pairs[i].1 == e);
      PairIsMapped(raw, pairs, from, to, i);
    }
  }

  lemma PairIsMapped(raw: seq<DiffEntry>, pairs: Pairs, from: Manifest, to: Manifest, i: nat)
    requires Assembled(raw, pairs, from, to) && i < |pairs|
    ensures pairs[i].0.path in PairMap(pairs) && pairs[i].1.path in PairMap(pairs).Values
  {
    PairsHavePaths(raw, pairs, from, to);
    hide Assembled, PairMap;
    PairMapFacts(pairs);
    assert PairMap(pairs)[pairs[i].0.path] == pairs[i].1.path;
  }

  lemma GreedyIsMaximal(raw: seq<DiffEntry>, pairs: Pairs, from: Manifest, to: Manifest, p: Path, q: Path)
    requires Assembled(raw, pairs, from, to) && PairsMaximal(pairs, DeletedOf(raw), AddedOf(raw), from, to)
    requires p in Gone(from, to) && p !in PairMap(pairs) && q in Gone(to, from) && q !in PairMap(pairs).Values
    ensures Gone(from, to)[p] != Gone(to, from)[q]
  {
    hide DeletedOf, AddedOf, PairMap, Consumed;
    var d, a := Deleted(p, from[p].hash), Added(q, to[q].hash);
    assert d in raw && a in raw;
    OnlyDeleted(raw);
    OnlyAdded(raw);
    Unconsumed(raw, pairs, from, to, d);
    Unconsumed(raw, pairs, from, to, a);
  }

  lemma PairOrigins(raw: seq<DiffEntry>, pairs: Pairs, from: Manifest, to: Manifest)
    requires Assembled(raw, pairs, from, to)
    ensures PairMap(pairs).Keys <= MoveOrigins(Without(raw, Consumed(pairs)) + MovesOf(pairs))
  {
    hide Assembled, Without, Consumed, MovesOf, MoveOrigins, PairMap, Paired;
    AssembledPairs(raw, pairs, from, to);
    PairsHavePaths(raw, pairs, from, to);
    PairMapFacts(pairs);
    forall p | p in PairMap(pairs)
      ensures p in MoveOrigins(Without(raw, Consumed(pairs)) + MovesOf(pairs))
    {
      var i :| 0 <= i < |pairs| && pairs[i].0.path == p;
      OriginOfMove(Without(raw, Consumed(pairs)), pairs, i);
    }
  }

  lemma AssembledPairs(raw: seq<DiffEntry>, pairs: Pairs, from: Manifest, to: Manifest)
    requires Assembled(raw, pairs, from, to)
    ensures Paired(pairs)
  {
  }

  lemma OriginOfMove(rest: seq<DiffEntry>, pairs: Pairs, i: nat)
    requires Paired(pairs) && i < |pairs|
    ensures pairs[i].0.path in MoveOrigins(rest + MovesOf(pairs))
  {
    var e := MovesOf(pairs)[i];
    assert (rest + MovesOf(pairs))[|rest| + i] == e;
    assert e in rest + MovesOf(pairs) && e.Moved? && e.moveFrom == pairs[i].0.path;
  }

  /** No way of pairing deleted and added paths of equal content has more moves than the greedy one reports. */
  lemma MovesAreMaximum(from: Manifest, to: Manifest, paths: seq<Path>, m: map<Path, Path>)
    requires Lists(paths, from, to) && Matching(m, Gone(from, to), Gone(to, from))
    ensures |m| <= |MoveOrigins(Detected(RawEntries(from, to, paths), from, to))|
  {
    hide Assembled, Gone, RawEntries, PairsMaximal, Matching, MoveOrigins;
    DiffIsAssembled(from, to, paths);
    var raw := RawEntries(from, to, paths);
    var pairs := PairsOf(raw, from, to);
    GreedyIsMatching(raw, pairs, from, to);
    forall p, q | p in Gone(from, to) && p !in PairMap(pairs) && q in Gone(to, from) && q !in PairMap(pairs).Values
      ensures Gone(from, to)[p] != Gone(to, from)[q]
    {
      GreedyIsMaximal(raw, pairs, from, to, p, q);
    }
    MaximalIsMaximum(PairMap(pairs), m, Gone(from, to), Gone(to, from));
    PairOrigins(raw, pairs, from, to);
    SubsetSize(PairMap(pairs).Keys, MoveOrigins(Detected(raw, from, to)));
  }
}
