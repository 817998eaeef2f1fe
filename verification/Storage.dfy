/**
 The operations that write the store: recovery (recover.ts), the snapshot that fills the
 object area (snapshot.ts) and the publish sequence (publish.ts, and the uploads and deletes
 of workspace.ts).  `budget` is the number of writes that still succeed; the write that finds
 it exhausted fails, with or without having taken effect.  Every contract holds for every
 budget, so it holds wherever an operation is cut off.
 */
module Storage {
  import opened Types
  import opened Commits
  import opened Protocol
  import opened ProtocolRuns

  datatype Outcome = Receipt | Stopped(intentWritten: bool)

  datatype Recovery = Finished(recovered: bool) | Interrupted | Corrupt

  /** Same history; visible entries may differ. */
  ghost predicate SameHistory(s: State, t: State) {
    && s.objects == t.objects && s.intents == t.intents && s.completes == t.completes
    && s.aborts == t.aborts && s.revisions == t.revisions && s.idempotency == t.idempotency
    && s.head == t.head && s.log == t.log
  }

  /** A steady change of nothing but visible entries. */
  ghost predicate OnlyVisible(s: State, t: State) {
    Inv(t) && Steady(s, t) && SameHistory(s, t) && Unresolved(t) == Unresolved(s)
  }

  lemma OnlyVisibleJoins(a: State, b: State, c: State)
    requires OnlyVisible(a, b) && OnlyVisible(b, c)
    ensures OnlyVisible(a, c)
  {
    hide Inv, Steady;
    SteadyTransitive(a, b, c);
  }

  lemma OnlyVisibleFacts(s: State, t: State)
    requires Inv(s)
    ensures OnlyVisible(s, s)
    ensures OnlyVisible(s, t) ==> Inv(t) && Steady(s, t) && SameHistory(s, t) && Unresolved(t) == Unresolved(s)
  {
    SteadyRefl(s);
  }

  /** The intent of `tx`, once written, carries this revision, key and fingerprint. */
  predicate IntentNames(s: State, tx: Tx, revision: Rev, key: Option<Key>, fingerprint: Fingerprint) {
    tx in s.intents ==>
      s.intents[tx].newRevision == revision && s.intents[tx].key == key && s.intents[tx].fingerprint == fingerprint
  }

  /** Equal but for stored objects, which can only have been added. */
  ghost predicate OnlyObjectsAdded(s: State, t: State) {
    t == s.(objects := t.objects) && forall h :: h in s.objects ==> h in t.objects
  }

  function SameEntry(current: RemoteEntry, target: RevisionEntry): bool {
    current.kind == target.kind && current.mode == target.mode &&
    current.contentHash == target.contentHash && current.target == target.target
  }

  /** What recoveryUpload sends for a manifest entry whose body is at hand. */
  function RecoveryEntry(e: RevisionEntry, body: Body, now: nat): RemoteEntry {
    RemoteEntry(e.kind, e.mode, body, e.contentHash, e.target, now,
                Some(VersionOf(e.contentHash, e.kind, e.mode, now, e.target)), None)
  }

  /** The manifest entry storedEntry records. */
  function StoredEntry(e: RemoteEntry): RevisionEntry {
    var hash := match e.kind
                case File => Some(if e.contentHash.Some? then e.contentHash.value else Sha256(e.body))
                case Symlink => Some(Sha256(TargetText(e.target)))
                case Directory => None;
    RevisionEntry(e.kind, e.mode, hash, e.target)
  }

  lemma StoredEntryMeans(e: RemoteEntry)
    requires Honest(e)
    ensures ManifestNode(StoredEntry(e)) == Meaning(e)
  {
  }

  /** Recovery has finished; the identifiers are new and the key is not bound to a commit. */
  ghost predicate Ready(s: State, tx: Tx, revision: Rev, key: Option<Key>) {
    && Inv(s) && Settled(s) && Unresolved(s) == {}
    && tx !in s.intents
    && (forall u :: u in s.intents ==> s.intents[u].newRevision != revision)
    && (key.Some? ==> forall u :: u in s.completes ==> s.completes[u].intent.key != key)
  }

  /** Targets not in `todo` are restored, entries in `todo` untouched, and nothing else appeared. */
  predicate HalfRestored(current: map<Path, RemoteEntry>, visible: map<Path, RemoteEntry>, target: Manifest, todo: set<Path>) {
    && (forall p :: p in target && p !in todo ==> p in visible && Meaning(visible[p]) == ManifestNode(target[p]))
    && (forall p :: p in visible ==> p in current || p in target)
    && (forall p :: p in current && p in todo ==> p in visible && visible[p] == current[p])
  }

  /** Whatever was done, entries that were as the target records them are untouched and nothing else has appeared. */
  ghost predicate RecordedKept(current: map<Path, RemoteEntry>, visible: map<Path, RemoteEntry>, target: Manifest) {
    && (forall p :: Recorded(target, current, p) ==> p in visible && visible[p] == current[p])
    && (forall p :: p in visible ==> p in current || p in target)
  }

  /** The entries that differed from the target and are restored by now are new ones. */
  ghost predicate OthersReplaced(current: map<Path, RemoteEntry>, visible: map<Path, RemoteEntry>, target: Manifest, todo: set<Path>) {
    forall p :: p in current && p in target && p !in todo && !Recorded(target, current, p) ==>
      p in visible && visible[p] != current[p]
  }

  lemma KeptAndReplaced(before: State, s: State, target: Manifest, todo: set<Path>, p: Path, after: State)
    requires Inv(before) && RecordedKept(before.visible, s.visible, target) && OthersReplaced(before.visible, s.visible, target, todo)
    requires before.issued <= s.issued && p in todo && p in target
    requires after.visible - {p} == s.visible - {p} && !Recorded(target, before.visible, p)
    ensures RecordedKept(before.visible, after.visible, target)
    ensures p in after.visible && after.visible[p].etag == Some(|s.issued|) ==>
              OthersReplaced(before.visible, after.visible, target, todo - {p})
  {
    hide RecordsInv, ChainInv, HeadInv, ManifestInv, PendingInv, KeyInv, ReceiptInv, Published;
    assert forall q :: q != p ==> (q in after.visible <==> q in after.visible - {p}) && (q in s.visible <==> q in s.visible - {p});
    forall q | q != p && q in after.visible
      ensures q in s.visible && after.visible[q] == s.visible[q]
    {
      assert (after.visible - {p})[q] == (s.visible - {p})[q];
    }
    if p in before.visible {
      assert before.visible[p].etag.value < |before.issued|;
    }
  }

  lemma KeptAfterDeletions(current: map<Path, RemoteEntry>, visible: map<Path, RemoteEntry>, target: Manifest, gone: set<Path>)
    requires RecordedKept(current, visible, target) && gone <= current.Keys - target.Keys
    ensures RecordedKept(current, visible - gone, target)
  {
  }

  lemma DeletedSome(before: map<Path, RemoteEntry>, after: map<Path, RemoteEntry>, done: set<Path>, p: Path)
    requires after == before - done || after == before - done - {p}
    ensures after == before - done || after == before - (done + {p})
  {
  }

  predicate BatchSize(batch: set<Path>, todo: set<Path>, concurrency: nat) {
    |batch| <= concurrency && (|batch| == concurrency || batch == todo)
  }

  /** Of a batch that was started, `landed` have been acknowledged and `outstanding` have not. */
  predicate LeftOf(batch: set<Path>, landed: set<Path>, outstanding: set<Path>) {
    landed <= batch && outstanding == batch - landed
  }

  lemma LeftOfBatch(batch: set<Path>, landed: map<Path, RemoteEntry>, outstanding: set<Path>)
    ensures landed == map[] && outstanding == batch ==> LeftOf(batch, landed.Keys, outstanding)
    ensures LeftOf(batch, landed.Keys, outstanding) ==> outstanding <= batch
  {
  }

  lemma OneLess(batch: set<Path>, landed: map<Path, RemoteEntry>, outstanding: set<Path>, p: Path, e: RemoteEntry)
    requires LeftOf(batch, landed.Keys, outstanding) && p in outstanding
    ensures LeftOf(batch, landed[p := e].Keys, outstanding - {p})
  {
    assert landed[p := e].Keys == landed.Keys + {p};
  }

  /** No more than a batch is in flight at any time. */
  predicate Few(outstanding: set<Path>, concurrency: nat) {
    |outstanding| <= concurrency
  }

  lemma FewOutstanding(all: set<Path>, uploaded: map<Path, RemoteEntry>, todo: set<Path>, batch: set<Path>,
                       landed: map<Path, RemoteEntry>, outstanding: set<Path>, concurrency: nat)
    requires batch <= todo <= all && uploaded.Keys == all - todo
    requires LeftOf(batch, landed.Keys, outstanding) && BatchSize(batch, todo, concurrency)
    ensures Few(outstanding, concurrency) && outstanding <= all - uploaded.Keys
  {
    SubsetSize(outstanding, batch);
  }

  /** The next uploads to start together; which ones they are does not matter. */
  method NextBatch(todo: set<Path>, concurrency: nat) returns (batch: set<Path>)
    requires todo != {} && concurrency >= 1
    ensures batch <= todo && batch != {} && BatchSize(batch, todo, concurrency)
  {
    batch := {};
    while |batch| < concurrency && batch != todo
      invariant batch <= todo && |batch| <= concurrency
      decreases concurrency - |batch|
    {
      var p :| p in todo && p !in batch;
      batch := batch + {p};
    }
  }

  /** Some of the uploads are on top of what was visible, with the etags they were given. */
  predicate Landed(before: map<Path, RemoteEntry>, uploads: map<Path, RemoteEntry>,
                   landed: map<Path, RemoteEntry>, after: map<Path, RemoteEntry>) {
    && after == before + landed
    && forall p :: p in landed ==> p in uploads && landed[p] == uploads[p].(etag := landed[p].etag)
  }

  lemma NothingLanded(before: map<Path, RemoteEntry>, uploads: map<Path, RemoteEntry>, concurrency: nat)
    ensures Landed(before, uploads, map[], before) && Few({}, concurrency)
  {
  }

  /** What a write leaves alone stays as it was before the writes before it. */
  lemma BesideMore(a: map<Path, RemoteEntry>, b: map<Path, RemoteEntry>, c: map<Path, RemoteEntry>, all: set<Path>, some: set<Path>)
    requires b - all == a - all && some <= all && c - some == b - some
    ensures c - all == a - all
  {
    assert c - all == c - some - (all - some) && b - all == b - some - (all - some);
  }

  predicate LandsAt(before: map<Path, RemoteEntry>, p: Path, e: RemoteEntry, after: map<Path, RemoteEntry>) {
    p in after && after == before[p := after[p]] && after[p] == e.(etag := after[p].etag)
  }

  lemma LandsOne(before: map<Path, RemoteEntry>, uploads: map<Path, RemoteEntry>, landed: map<Path, RemoteEntry>,
                 between: map<Path, RemoteEntry>, p: Path, after: map<Path, RemoteEntry>)
    requires Landed(before, uploads, landed, between) && p in uploads && LandsAt(between, p, uploads[p], after)
    ensures p in after && Landed(before, uploads, landed[p := after[p]], after)
  {
  }

  lemma TakenOff(all: set<Path>, todo: set<Path>, batch: set<Path>, uploaded: map<Path, RemoteEntry>,
                 landed: map<Path, RemoteEntry>, outstanding: set<Path>)
    requires batch <= todo <= all && uploaded.Keys == all - todo
    requires LeftOf(batch, landed.Keys, outstanding) && outstanding == {}
    ensures (uploaded + landed).Keys == all - (todo - batch)
  {
    forall p | p in batch
      ensures p in landed
    {
      assert p !in batch - landed.Keys;
    }
    assert (uploaded + landed).Keys == uploaded.Keys + landed.Keys;
  }

  lemma LandedMore(before: map<Path, RemoteEntry>, uploads: map<Path, RemoteEntry>, first: map<Path, RemoteEntry>,
                   between: map<Path, RemoteEntry>, second: map<Path, RemoteEntry>, after: map<Path, RemoteEntry>)
    requires Landed(before, uploads, first, between) && Landed(between, uploads, second, after)
    ensures Landed(before, uploads, first + second, after)
  {
  }

  lemma {:induction false} SubsetSize(some: set<Path>, all: set<Path>)
    requires some <= all
    ensures |some| <= |all|
  {
    if some != {} {
      var p :| p in some;
      SubsetSize(some - {p}, all - {p});
    }
  }

  lemma KeptMeans(current: map<Path, RemoteEntry>, visible: map<Path, RemoteEntry>, target: Manifest, todo: set<Path>)
    ensures RecordedKept(current, visible, target) ==>
              && (forall p :: Recorded(target, current, p) ==> p in visible && visible[p] == current[p])
              && (forall p :: p in visible ==> p in current || p in target)
    ensures OthersReplaced(current, visible, target, todo) ==>
              && (forall p :: p in current && p in visible && p in target && p !in todo && visible[p] == current[p] ==> Recorded(target, current, p))
              && (forall p :: Recorded(target, current, p) ==> OthersReplaced(current, visible, target, todo - {p}))
  {
  }

  lemma NothingRestored(current: map<Path, RemoteEntry>, target: Manifest)
    ensures HalfRestored(current, current, target, target.Keys)
    ensures RecordedKept(current, current, target) && OthersReplaced(current, current, target, target.Keys)
  {
  }

  lemma RestoredTree(current: map<Path, RemoteEntry>, visible: map<Path, RemoteEntry>, target: Manifest)
    requires HalfRestored(current, visible, target, {})
    ensures TreeOf(visible - (current.Keys - target.Keys)) == ManifestTree(target)
  {
  }

  lemma RestoredStep(s: State, current: map<Path, RemoteEntry>, target: Manifest, todo: set<Path>, p: Path)
    requires Inv(s) && HalfRestored(current, s.visible, target, todo) && p in todo && p in target
    requires Stored(target, s.objects)
    ensures p in current && SameEntry(current[p], target[p]) ==> HalfRestored(current, s.visible, target, todo - {p})
    ensures forall n: RemoteEntry :: Meaning(n) == ManifestNode(target[p]) ==>
              HalfRestored(current, s.visible[p := n], target, todo - {p})
  {
    if p in current && SameEntry(current[p], target[p]) {
      SameEntryMeans(s, p, target[p]);
    }
  }

  /** compareCompletes: by time, then by transaction. */
  predicate NotLater(t: Tx, at: nat, u: Tx, at': nat) {
    at < at' || (at == at' && t <= u)
  }

  class ScopedStorage {
    var s: State
    var budget: nat

    /** How many writes have failed so far: an operation that does not finish has met a failure. */
    ghost var failures: nat

    method Write(e: Event) returns (ok: bool)
      requires Inv(s) && Allowed(s, e)
      modifies this
      ensures Inv(s) && (s == old(s) || s == Apply(old(s), e))
      ensures ok ==> s == Apply(old(s), e)
      ensures if e.PutComplete? && s != old(s) then Committed(old(s), s, e.tx, TreeOf(old(s).visible)) else Steady(old(s), s)
      ensures failures == if ok then old(failures) else old(failures) + 1
    {
      hide Inv, Extends, RecordsInv;
      StepKeepsInv(s, e);
      StepExtends(s, e);
      PublishedAfter(s, e);
      SteadyRefl(s);
      ok := budget > 0;
      if ok {
        budget := budget - 1;
        s := Apply(s, e);
      } else {
        failures := failures + 1;
        if * {
          s := Apply(s, e);
        }
      }
    }

    // ---------------------------------------------------------------- recover.ts

    method LatestChild(parent: Option<Rev>) returns (child: Option<Tx>)
      ensures child.None? ==> forall t :: t in s.completes ==> s.completes[t].intent.parent != parent
      ensures child.Some? ==>
                && child.value in s.completes && s.completes[child.value].intent.parent == parent
                && forall t :: t in s.completes && s.completes[t].intent.parent == parent ==>
                      NotLater(t, s.completes[t].committedAt, child.value, s.completes[child.value].committedAt)
    {
      child := None;
      var todo := s.completes.Keys;
      while todo != {}
        invariant todo <= s.completes.Keys
        invariant child.None? ==> forall t :: t in s.completes.Keys - todo ==> s.completes[t].intent.parent != parent
        invariant child.Some? ==>
                    && child.value in s.completes && s.completes[child.value].intent.parent == parent
                    && forall t :: t in s.completes.Keys - todo && s.completes[t].intent.parent == parent ==>
                          NotLater(t, s.completes[t].committedAt, child.value, s.completes[child.value].committedAt)
      {
        var t :| t in todo;
        if s.completes[t].intent.parent == parent &&
           (child.None? || NotLater(child.value, s.completes[child.value].committedAt, t, s.completes[t].committedAt)) {
          child := Some(t);
        }
        todo := todo - {t};
      }
    }

    /** From the chain position `at`, the walk ends, and ends at the tip. */
    method NewestDescendant(start: Option<Rev>, ghost at: nat) returns (current: Option<Tx>)
      requires RecordsInv(s) && ChainInv(s) && at <= |s.log|
      requires start == if at == 0 then None else Some(RevisionOf(s, s.log[at - 1]))
      ensures current == if at == |s.log| then None else Some(s.log[|s.log| - 1])
    {
      var revision := start;
      current := None;
      ghost var i := at;
      while true
        invariant at <= i <= |s.log|
        invariant revision == if i == 0 then None else Some(RevisionOf(s, s.log[i - 1]))
        invariant current == if i == at then None else Some(s.log[i - 1])
        decreases |s.log| - i
      {
        NextIsChild(s, i);
        var child := LatestChild(revision);
        if child.None? {
          return;
        }
        ChildIsNext(s, child.value, i);
        current := child;
        revision := Some(s.completes[child.value].intent.newRevision);
        i := i + 1;
      }
    }

    method RecoverIdempotency(t: Tx) returns (ok: bool)
      requires Inv(s) && t in s.completes
      modifies this
      ensures failures >= old(failures) && (failures == old(failures) <==> ok)
      ensures s == old(s).(idempotency := s.idempotency) && Steady(old(s), s)
      ensures t in s.intents && (ok ==> HasReceipt(s, t))
    {
      hide Steady;
      SteadyRefl(s);
      var complete := s.completes[t];
      if complete.intent.key.None? || complete.intent.key.value in s.idempotency {
        return true;
      }
      var record := IdempotencyRecord(Some(complete.intent.fingerprint), complete.intent.newRevision, t);
      ok := Write(PutIdempotency(complete.intent.key.value, record));
    }

    method AdoptedComplete() returns (adopted: Option<Tx>)
      requires Inv(s)
      ensures adopted == if s.log == [] then None else Some(s.log[|s.log| - 1])
    {
      hide ManifestInv, PendingInv, VisibleInv, KeyInv, ReceiptInv, Published;
      TipFacts(s);
      if s.completes == map[] {
        return None;
      }
      if s.head.None? {
        adopted := NewestDescendant(None, 0);
      } else {
        var head := s.head.value.revision;
        adopted := NewestDescendant(Some(head), if Settled(s) then |s.log| else |s.log| - 1);
        if adopted.None? && exists t :: t in s.completes && s.completes[t].intent.newRevision == head {
          var t :| t in s.completes && s.completes[t].intent.newRevision == head;
          adopted := Some(t);
        }
      }
    }

    method RecoverPublishedHead() returns (ok: bool)
      requires Inv(s)
      modifies this
      ensures failures >= old(failures) && (failures == old(failures) <==> ok)
      ensures s == old(s).(idempotency := s.idempotency, head := s.head) && Steady(old(s), s)
      ensures Inv(s) && (ok ==> Settled(s))
    {
      hide Steady, ChainInv, ManifestInv, PendingInv, VisibleInv, KeyInv, ReceiptInv;
      SteadyRefl(s);
      TipFacts(s);
      var adopted := AdoptedComplete();
      if adopted.None? {
        return true;
      }
      ok := RecoverIdempotency(adopted.value);
      SteadyInv(old(s), s);
      if !ok {
        return;
      }
      label receipted:
      var complete := s.completes[adopted.value];
      if s.head.Some? && s.head.value.revision == complete.intent.newRevision {
        HeadAtTip(s);
        return;
      }
      ok := Write(PutHead(Head(complete.intent.newRevision, adopted.value)));
      SteadyTransitive(old(s), old@receipted(s), s);
    }

    /** Upload one manifest entry from the stored objects. */
    method RestoreEntry(p: Path, e: RevisionEntry, now: nat) returns (r: Recovery)
      requires Inv(s) && Unresolved(s) != {}
      requires e.kind == File ==> e.contentHash.Some? && e.contentHash.value in s.objects
      modifies this
      ensures failures >= old(failures) && (failures == old(failures) <==> r.Finished?)
      ensures SameHistory(s, old(s)) && Steady(old(s), s) && r != Corrupt
      ensures r.Finished? ==>
                && p in s.visible && s.visible == old(s).visible[p := s.visible[p]]
                && Meaning(s.visible[p]) == ManifestNode(e) && s.visible[p].etag == Some(|old(s).issued|)
      ensures s.visible - {p} == old(s).visible - {p} && old(s).issued <= s.issued
    {
      hide Inv, RecordsInv, Steady, Allowed;
      SteadyRefl(s);
      if e.kind == File && (e.contentHash.None? || e.contentHash.value !in s.objects) {
        return Corrupt;
      }
      var body := if e.kind == File then s.objects[e.contentHash.value] else "";
      ObjectsHonest(s);
      UploadAllowed(s, p, RecoveryEntry(e, body, now));
      var ok := Write(Upload(p, RecoveryEntry(e, body, now)));
      r := if ok then Finished(true) else Interrupted;
    }

    method DeleteAll(paths: set<Path>) returns (ok: bool)
      requires Inv(s) && Unresolved(s) != {}
      modifies this
      ensures failures >= old(failures) && (failures == old(failures) <==> ok)
      ensures SameHistory(s, old(s)) && Steady(old(s), s)
      ensures s.issued == old(s).issued
      ensures ok ==> s.visible == old(s).visible - paths
      ensures exists gone :: gone <= paths && s.visible == old(s).visible - gone
    {
      hide Inv, RecordsInv, Steady, Allowed;
      SteadyRefl(s);
      var todo := paths;
      while todo != {}
        invariant todo <= paths
        invariant SameHistory(s, old(s)) && Steady(old(s), s) && s.issued == old(s).issued
        invariant s.visible == old(s).visible - (paths - todo)
        invariant failures == old(failures)
      {
        SteadyInv(old(s), s);
        var p :| p in todo;
        DeleteAllowed(s, p);
        label before:
        ok := Write(Delete(p));
        SteadyTransitive(old(s), old@before(s), s);
        if !ok {
          DeletedSome(old(s).visible, s.visible, paths - todo, p);
          return;
        }
        todo := todo - {p};
      }
      ok := true;
    }

    /** Bring the visible tree to the target, whatever state it is in. */
    method RestoreVisibleTree(target: Manifest, now: nat) returns (r: Recovery)
      requires Inv(s) && Unresolved(s) != {} && Stored(target, s.objects)
      modifies this
      ensures failures >= old(failures) && (failures == old(failures) <==> r.Finished?)
      ensures SameHistory(s, old(s)) && Steady(old(s), s)
      ensures r != Corrupt
      ensures r.Finished? ==> TreeOf(s.visible) == ManifestTree(target)
      // an entry is left alone exactly if it already is as the target records it
      ensures forall p ::
                (p in old(s).visible && p in target
                 && old(s).visible[p].kind == target[p].kind && old(s).visible[p].mode == target[p].mode
                 && old(s).visible[p].contentHash == target[p].contentHash && old(s).visible[p].target == target[p].target) ==>
                  p in s.visible && s.visible[p] == old(s).visible[p]
      ensures forall p :: p in s.visible ==> p in old(s).visible || p in target
      ensures r.Finished? ==>
                forall p :: p in old(s).visible && p in s.visible && s.visible[p] == old(s).visible[p] ==>
                  Recorded(target, old(s).visible, p)
    {
      hide Inv, RecordsInv, Steady, Allowed, HalfRestored, RecordedKept, OthersReplaced;
      SteadyRefl(s);
      var current := s.visible;
      var todo := target.Keys;
      NothingRestored(current, target);
      while todo != {}
        invariant todo <= target.Keys
        invariant SameHistory(s, old(s)) && Steady(old(s), s)
        invariant HalfRestored(current, s.visible, target, todo)
        invariant RecordedKept(current, s.visible, target) && OthersReplaced(current, s.visible, target, todo)
        invariant failures == old(failures) && old(s).issued <= s.issued
      {
        SteadyInv(old(s), s);
        var p :| p in todo;
        RestoredStep(s, current, target, todo, p);
        if !(p in current && SameEntry(current[p], target[p])) {
          label before:
          r := RestoreEntry(p, target[p], now);
          KeptAndReplaced(old(s), old@before(s), target, todo, p, s);
          SteadyTransitive(old(s), old@before(s), s);
          if !r.Finished? {
            KeptMeans(current, s.visible, target, {});
            return;
          }
        } else {
          KeptMeans(current, s.visible, target, todo);
        }
        todo := todo - {p};
      }
      SteadyInv(old(s), s);
      RestoredTree(current, s.visible, target);
      label uploaded:
      KeptMeans(current, s.visible, target, {});
      var ok := DeleteAll(current.Keys - target.Keys);
      ghost var gone :| gone <= current.Keys - target.Keys && s.visible == old@uploaded(s).visible - gone;
      KeptAfterDeletions(current, old@uploaded(s).visible, target, gone);
      KeptMeans(current, s.visible, target, {});
      SteadyTransitive(old(s), old@uploaded(s), s);
      r := if ok then Finished(true) else Interrupted;
    }

    /** The tree to roll back to: the head's manifest, or the snapshot the first intent captured. */
    method RecoveryTarget(first: Tx) returns (target: Option<Manifest>)
      requires Inv(s) && first in Unresolved(s)
      ensures target.Some? && ManifestTree(target.value) == Published(s) && Stored(target.value, s.objects)
      ensures target == PublishedManifest(s)
    {
      TargetFacts(s, first);
      TargetIsPublished(s, first);
      if s.head.Some? {
        if s.head.value.revision !in s.revisions {
          return None;
        }
        target := Some(s.revisions[s.head.value.revision].entries);
      } else {
        target := s.intents[first].baseline;
      }
    }

    /**
     Recovery adopts a finished commit or rolls an unfinished one back.  However often it is
     itself cut off, it never changes what is published; when it finishes, the visible tree is
     exactly that, the head names the tip and nothing is in flight.
     */
    method RecoverWorkspace(now: nat) returns (r: Recovery)
      requires Inv(s)
      modifies this
      ensures failures >= old(failures) && (failures == old(failures) <==> r.Finished?)
      ensures Steady(old(s), s) && s.log == old(s).log && s.completes == old(s).completes && s.intents == old(s).intents
      ensures Inv(s) && r != Corrupt
      ensures Unresolved(old(s)) == {} ==> s.visible == old(s).visible
      ensures r.Finished? ==>
                && Settled(s) && Unresolved(s) == {} && TreeOf(s.visible) == Published(s)
                && (r.recovered <==> Unresolved(old(s)) != {})
      ensures LogInIntents(old(s)) && Spares(old(s), s, {})
      ensures r.Finished? && r.recovered ==>
                forall p :: p in old(s).visible && p in s.visible && s.visible[p] == old(s).visible[p] ==> AsPublished(old(s), p)
    {
      hide Steady, Inv, RecordsInv, Allowed, Spares, AsPublished;
      AtRest(s);
      NothingTouched(s, s);
      var ok := RecoverPublishedHead();
      NothingTouched(old(s), s);
      if !ok {
        return Interrupted;
      }
      AtRest(s);
      var unresolved := Unresolved(s);
      if unresolved == {} {
        return Finished(false);
      }
      var first :| first in unresolved;
      TargetFacts(s, first);
      var target := RecoveryTarget(first);
      if target.None? {
        return Corrupt;
      }
      label adopted:
      r := RestoreVisibleTree(target.value, now);
      OnlyUnrecordedTouched(old(s), old@adopted(s), s, target.value);
      SteadyTransitive(old(s), old@adopted(s), s);
      SteadyInv(old(s), s);
      if !r.Finished? {
        return;
      }
      AbortAllowed(s, old@adopted(s), first);
      label restored:
      ok := Write(PutAbort(first));
      SameVisibleSpared(old(s), old@restored(s), s);
      SteadyTransitive(old(s), old@restored(s), s);
      if !ok {
        return Interrupted;
      }
      AtRest(s);
      return Finished(true);
    }

    // ---------------------------------------------------------------- snapshot.ts

    method EnsureObject(p: Path, e: RemoteEntry) returns (ok: bool, hash: Option<Hash>)
      requires Inv(s) && p in s.visible && s.visible[p] == e
      modifies this
      ensures failures >= old(failures) && (failures == old(failures) <==> ok)
      ensures Steady(old(s), s) && OnlyObjectsAdded(old(s), s)
      ensures ok ==> hash == StoredEntry(e).contentHash && (e.kind == File ==> hash.value in s.objects)
    {
      hide Inv, Steady, RecordsInv;
      SteadyRefl(s);
      if e.kind != File {
        return true, if e.kind == Symlink then Some(Sha256(TargetText(e.target))) else None;
      }
      if e.contentHash.Some? && e.contentHash.value in s.objects {
        return true, e.contentHash;
      }
      VisibleHonest(s, p);
      var body := s.visible[p].body;
      hash := if e.contentHash.Some? then e.contentHash else Some(Sha256(body));
      ok := true;
      if hash.value !in s.objects {
        ObjectAllowed(s, body);
        ok := Write(PutObject(body));
      }
    }

    /** Store every file body of the given entries and describe the entries. */
    method RevisionEntriesFrom(next: map<Path, RemoteEntry>) returns (ok: bool, entries: Manifest)
      requires Inv(s) && (forall p :: p in next ==> p in s.visible && s.visible[p] == next[p])
      modifies this
      ensures failures >= old(failures) && (failures == old(failures) <==> ok)
      ensures Inv(s) && Steady(old(s), s) && OnlyObjectsAdded(old(s), s)
      ensures ok ==> ManifestTree(entries) == TreeOf(next) && Stored(entries, s.objects)
      ensures ok ==> forall p :: p in next ==>
                && p in entries && entries[p].kind == next[p].kind && entries[p].mode == next[p].mode && entries[p].target == next[p].target
                && (next[p].contentHash.Some? && next[p].kind == File ==> entries[p].contentHash == next[p].contentHash)
                && (next[p].kind == Symlink ==> entries[p].contentHash == Some(Sha256(TargetText(next[p].target))))
                && (next[p].kind == Directory ==> entries[p].contentHash.None?)
    {
      hide Inv, Steady, RecordsInv;
      SteadyRefl(s);
      entries := map[];
      var todo := next.Keys;
      while todo != {}
        invariant todo <= next.Keys && entries.Keys == next.Keys - todo
        invariant Steady(old(s), s) && OnlyObjectsAdded(old(s), s)
        invariant Stored(entries, s.objects)
        invariant forall p :: p in entries ==> entries[p] == StoredEntry(next[p])
        invariant failures == old(failures)
      {
        SteadyInv(old(s), s);
        var p :| p in todo;
        label before:
        var hash;
        ok, hash := EnsureObject(p, next[p]);
        SteadyTransitive(old(s), old@before(s), s);
        SteadyInv(old(s), s);
        if !ok {
          return;
        }
        entries := entries[p := RevisionEntry(next[p].kind, next[p].mode, hash, next[p].target)];
        todo := todo - {p};
      }
      ok := true;
      SteadyInv(old(s), s);
      forall p | p in next
        ensures ManifestNode(entries[p]) == Meaning(next[p])
      {
        VisibleHonest(old(s), p);
        StoredEntryMeans(next[p]);
      }
    }

    // ---------------------------------------------------------------- publish.ts and commit

    method WriteIntent(tx: Tx, revision: Rev, key: Option<Key>, fingerprint: Fingerprint, now: nat) returns (ok: bool)
      requires Ready(s, tx, revision, key)
      modifies this
      ensures failures >= old(failures) && (failures == old(failures) <==> ok)
      ensures Steady(old(s), s) && s.visible == old(s).visible && s.issued == old(s).issued
      ensures ok ==> Unresolved(s) == {tx} && tx in s.intents
      ensures IntentNames(s, tx, revision, key, fingerprint)
    {
      hide Inv, Steady, RecordsInv, Allowed, Ready;
      ReadyInv(s, tx, revision, key);
      SteadyRefl(s);
      var baseline: Option<Manifest> := None;
      if s.head.None? {
        var entries;
        ok, entries := RevisionEntriesFrom(s.visible);
        if !ok {
          return;
        }
        baseline := Some(entries);
      }
      var parent := if s.head.Some? then Some(s.head.value.revision) else None;
      var intent := Intent(revision, parent, fingerprint, key, now, baseline);
      IntentAllowed(old(s), s, tx, intent);
      label captured:
      ok := Write(PutIntent(tx, intent));
      SteadyTransitive(old(s), old@captured(s), s);
    }

    /**
     Uploads run in concurrent batches and land in any order.  The first failure ends the call
     while the other uploads of its batch may still be in flight: they are `outstanding`.
     */
    method UploadAll(uploads: map<Path, RemoteEntry>, concurrency: nat)
      returns (ok: bool, uploaded: map<Path, RemoteEntry>, ghost outstanding: set<Path>)
      requires Inv(s) && Unresolved(s) != {} && concurrency >= 1
      requires forall p :: p in uploads ==> Honest(uploads[p])
      modifies this
      ensures failures >= old(failures) && (failures == old(failures) <==> ok)
      ensures OnlyVisible(old(s), s) && s.visible - uploads.Keys == old(s).visible - uploads.Keys
      ensures ok ==> uploaded.Keys == uploads.Keys && Landed(old(s).visible, uploads, uploaded, s.visible) && outstanding == {}
      ensures uploaded.Keys <= uploads.Keys
      ensures outstanding <= uploads.Keys - uploaded.Keys && Few(outstanding, concurrency)
    {
      hide Inv, Steady, RecordsInv, Allowed, Few, BatchSize, Landed, OnlyVisible, LeftOf, Honest, SameHistory, Unresolved;
      NothingLanded(s.visible, uploads, concurrency);
      OnlyVisibleFacts(s, s);
      uploaded := map[];
      outstanding := {};
      var todo := uploads.Keys;
      while todo != {}
        invariant todo <= uploads.Keys && uploaded.Keys == uploads.Keys - todo
        invariant OnlyVisible(old(s), s) && s.visible - uploads.Keys == old(s).visible - uploads.Keys
        invariant failures == old(failures) && outstanding == {}
        invariant Landed(old(s).visible, uploads, uploaded, s.visible)
      {
        OnlyVisibleFacts(old(s), s);
        var batch := NextBatch(todo, concurrency);
        label before:
        var landed;
        ok, landed, outstanding := UploadBatch(uploads, batch);
        BesideMore(old(s).visible, old@before(s).visible, s.visible, uploads.Keys, batch);
        OnlyVisibleJoins(old(s), old@before(s), s);
        if !ok {
          FewOutstanding(uploads.Keys, uploaded, todo, batch, landed, outstanding, concurrency);
          return;
        }
        LandedMore(old(s).visible, uploads, uploaded, old@before(s).visible, landed, s.visible);
        TakenOff(uploads.Keys, todo, batch, uploaded, landed, outstanding);
        uploaded := uploaded + landed;
        todo := todo - batch;
      }
      ok := true;
    }

    method UploadOne(p: Path, e: RemoteEntry) returns (ok: bool)
      requires Inv(s) && Unresolved(s) != {} && Honest(e)
      modifies this
      ensures failures >= old(failures) && (failures == old(failures) <==> ok)
      ensures OnlyVisible(old(s), s) && s.visible - {p} == old(s).visible - {p}
      ensures ok ==> LandsAt(old(s).visible, p, e, s.visible)
    {
      hide Inv, Steady, RecordsInv, Allowed;
      UploadAllowed(s, p, e);
      ok := Write(Upload(p, e));
    }

    /** One batch: `Promise.all` waits for every upload, or for the first that fails. */
    method UploadBatch(uploads: map<Path, RemoteEntry>, batch: set<Path>)
      returns (ok: bool, landed: map<Path, RemoteEntry>, ghost outstanding: set<Path>)
      requires Inv(s) && Unresolved(s) != {} && batch <= uploads.Keys && batch != {}
      requires forall p :: p in uploads ==> Honest(uploads[p])
      modifies this
      ensures failures >= old(failures) && (failures == old(failures) <==> ok)
      ensures OnlyVisible(old(s), s) && s.visible - batch == old(s).visible - batch
      ensures ok ==> Landed(old(s).visible, uploads, landed, s.visible)
      ensures LeftOf(batch, landed.Keys, outstanding) && (ok ==> outstanding == {})
    {
      hide Inv, Steady, RecordsInv, Allowed, OnlyVisible, Landed, LandsAt, LeftOf, Honest, SameHistory, Unresolved;
      NothingLanded(s.visible, uploads, 1);
      OnlyVisibleFacts(s, s);
      landed := map[];
      var inFlight := batch;
      LeftOfBatch(batch, landed, inFlight);
      while inFlight != {}
        invariant LeftOf(batch, landed.Keys, inFlight)
        invariant OnlyVisible(old(s), s) && s.visible - batch == old(s).visible - batch
        invariant failures == old(failures)
        invariant Landed(old(s).visible, uploads, landed, s.visible)
      {
        OnlyVisibleFacts(old(s), s);
        var p :| p in inFlight;
        LeftOfBatch(batch, landed, inFlight);
        assert p in batch;
        label before:
        ok := UploadOne(p, uploads[p]);
        BesideMore(old(s).visible, old@before(s).visible, s.visible, batch, {p});
        OnlyVisibleJoins(old(s), old@before(s), s);
        if !ok {
          outstanding := inFlight;
          return;
        }
        LandsOne(old(s).visible, uploads, landed, old@before(s).visible, p, s.visible);
        OneLess(batch, landed, inFlight, p, s.visible[p]);
        landed := landed[p := s.visible[p]];
        inFlight := inFlight - {p};
      }
      outstanding := {};
      ok := true;
    }

    /** The receipt and the head, written once the complete record exists. */
    method WriteReceiptAndHead(tx: Tx, lost: bool) returns (ok: bool)
      requires Inv(s) && tx in s.intents && tx in s.completes && IsTip(s, tx)
      modifies this
      ensures failures >= old(failures) && (failures == old(failures) && !lost ==> ok)
      ensures Steady(old(s), s) && s.visible == old(s).visible
      ensures ok ==> RecordsInv(s) && Settled(s)
    {
      hide Inv, Steady, RecordsInv, Allowed;
      SteadyRefl(s);
      ok := RecordReceipt(tx);
      if !ok || lost {
        return false;
      }
      SteadyInv(old(s), s);
      label receipted:
      HeadAllowed(s, tx);
      ok := Write(PutHead(Head(s.intents[tx].newRevision, tx)));
      SteadyTransitive(old(s), old@receipted(s), s);
      SteadyInv(old(s), s);
    }

    method RecordReceipt(tx: Tx) returns (ok: bool)
      requires Inv(s) && tx in s.intents && tx in s.completes
      modifies this
      ensures failures >= old(failures) && (failures == old(failures) <==> ok)
      ensures s == old(s).(idempotency := s.idempotency) && Steady(old(s), s)
      ensures ok ==> HasReceipt(s, tx)
    {
      hide Inv, Steady, RecordsInv, Allowed;
      SteadyRefl(s);
      var intent := s.intents[tx];
      if intent.key.None? {
        return true;
      }
      ReceiptAllowed(s, tx);
      ok := Write(PutIdempotency(intent.key.value, IdempotencyRecord(Some(intent.fingerprint), intent.newRevision, tx)));
    }

    /** The manifest of the staged tree and the record that completes the revision. */
    method WriteManifestAndComplete(tx: Tx, next: map<Path, RemoteEntry>, now: nat) returns (ok: bool)
      requires Inv(s) && Unresolved(s) == {tx} && tx in s.intents && s.visible == next
      modifies this
      ensures failures >= old(failures) && (failures == old(failures) <==> ok)
      ensures if tx in s.completes then Committed(old(s), s, tx, TreeOf(next)) && Inv(s) && IsTip(s, tx) && tx in s.intents
              else Steady(old(s), s)
      ensures s.visible == next && (ok ==> tx in s.completes)
    {
      hide Inv, Steady, RecordsInv, Allowed, Committed, TreeOf;
      SteadyRefl(s);
      var entries;
      ok, entries := RevisionEntriesFrom(next);
      if !ok {
        return;
      }
      RevisionAllowed(s, tx, entries, now);
      label stored:
      ok := Write(PutRevision(tx, Revision(s.intents[tx].parent, entries, tx, now)));
      SteadyTransitive(old(s), old@stored(s), s);
      if !ok {
        return;
      }
      CompleteAllowed(s, tx, now, next);
      label described:
      ok := Write(PutComplete(tx, now));
      if s != old@described(s) {
        CommittedAfterSteady(old(s), old@described(s), s, tx, TreeOf(next));
        CommittedInv(old(s), s, tx, TreeOf(next));
      }
    }

    method FinalizePublish(tx: Tx, next: map<Path, RemoteEntry>, now: nat, lostFirst: bool, lostLast: bool) returns (ok: bool)
      requires Inv(s) && Unresolved(s) == {tx} && tx in s.intents && s.visible == next
      modifies this
      ensures failures >= old(failures) && (failures == old(failures) && !lostFirst && !lostLast ==> ok)
      ensures if tx in s.completes then Committed(old(s), s, tx, TreeOf(next)) else Steady(old(s), s)
      ensures s.visible == next
      ensures ok ==> tx in s.completes && RecordsInv(s) && Settled(s)
    {
      hide Inv, Steady, RecordsInv, Allowed, Committed, Settled, TreeOf;
      SteadyRefl(s);
      if lostFirst {
        return false;
      }
      ok := WriteManifestAndComplete(tx, next, now);
      if !ok {
        return;
      }
      label completed:
      ok := WriteReceiptAndHead(tx, lostLast);
      SteadyKeepsCompletes(old@completed(s), s);
      CommittedThenSteady(old(s), old@completed(s), s, tx, TreeOf(next));
    }

    /**
     The part of a commit that writes.  Cut off anywhere it either publishes exactly the staged
     tree, and then the complete record exists, or leaves what is published as it was.
     */
    method Publish(tx: Tx, revision: Rev, key: Option<Key>, fingerprint: Fingerprint,
                   deletions: set<Path>, uploads: map<Path, RemoteEntry>,
                   now: nat, concurrency: nat, lostFirst: bool, lostLast: bool)
      returns (r: Outcome, ghost outstanding: set<Path>)
      requires Ready(s, tx, revision, key) && concurrency >= 1
      requires deletions !! uploads.Keys
      requires forall p :: p in uploads ==> Honest(uploads[p])
      modifies this
      ensures var staged := TreeOf(Overlay(old(s).visible, deletions, uploads));
              && (if tx in s.completes then Committed(old(s), s, tx, staged) else Steady(old(s), s))
              && (r.Receipt? ==> tx in s.completes && TreeOf(s.visible) == staged && RecordsInv(s) && Settled(s))
      ensures r == Stopped(false) ==> tx !in s.completes && s.visible == old(s).visible
      ensures s.visible - (deletions + uploads.Keys) == old(s).visible - (deletions + uploads.Keys)
      ensures r != Stopped(false) ==> tx in s.intents
      ensures IntentNames(s, tx, revision, key, fingerprint)
      ensures outstanding <= uploads.Keys && Few(outstanding, concurrency) && (outstanding != {} ==> tx !in s.completes)
      ensures failures >= old(failures) && (failures == old(failures) && !lostFirst && !lostLast ==> r.Receipt?)
    {
      hide Inv, Steady, RecordsInv, Allowed, Committed, Settled, Ready, Few, IntentNames, OnlyVisible, TreeOf, Overlay;
      NothingLanded(s.visible, uploads, concurrency);
      ReadyInv(s, tx, revision, key);
      outstanding := {};
      ghost var before, staged := s, TreeOf(Overlay(s.visible, deletions, uploads));
      var ok := WriteIntent(tx, revision, key, fingerprint, now);
      SteadyKeepsCompletes(before, s);
      SteadyInv(before, s);
      if !ok {
        return Stopped(false), outstanding;
      }
      ghost var begun := s;
      ok, outstanding := ChangeVisible(deletions, uploads, concurrency);
      OnlyVisibleKeeps(before, begun, s, tx, revision, key, fingerprint);
      if !ok {
        return Stopped(true), outstanding;
      }
      ghost var changed := s;
      ok := FinalizePublish(tx, s.visible, now, lostFirst, lostLast);
      PublishedOrNot(before, changed, s, tx, staged, revision, key, fingerprint);
      return if ok then Receipt else Stopped(true), outstanding;
    }

    /** The uploads and then the deletions of the staged changes. */
    method ChangeVisible(deletions: set<Path>, uploads: map<Path, RemoteEntry>, concurrency: nat)
      returns (ok: bool, ghost outstanding: set<Path>)
      requires Inv(s) && Unresolved(s) != {} && concurrency >= 1
      requires deletions !! uploads.Keys && forall p :: p in uploads ==> Honest(uploads[p])
      modifies this
      ensures failures >= old(failures) && (failures == old(failures) <==> ok)
      ensures OnlyVisible(old(s), s) && s.visible - (deletions + uploads.Keys) == old(s).visible - (deletions + uploads.Keys)
      ensures ok ==> outstanding == {} && TreeOf(s.visible) == TreeOf(Overlay(old(s).visible, deletions, uploads))
      ensures outstanding <= uploads.Keys && Few(outstanding, concurrency)
    {
      hide Inv, Steady, RecordsInv, Allowed, Few, OnlyVisible, SameHistory, Unresolved, TreeOf, Overlay;
      ghost var before := s;
      var uploaded;
      ok, uploaded, outstanding := UploadAll(uploads, concurrency);
      OnlyVisibleFacts(before, s);
      BesideMore(before.visible, before.visible, s.visible, deletions + uploads.Keys, uploads.Keys);
      if !ok {
        return;
      }
      ghost var between := s;
      ok := DeleteAll(deletions);
      ghost var gone :| gone <= deletions && s.visible == between.visible - gone;
      assert s.visible - deletions == between.visible - deletions;
      BesideMore(before.visible, between.visible, s.visible, deletions + uploads.Keys, deletions);
      DeletedAfterUploads(before, between, s);
      assert Landed(before.visible, uploads, uploaded, between.visible);
      UploadsThenDeletes(before.visible, deletions, uploads, uploaded);
    }
  }

  lemma DeletedAfterUploads(before: State, between: State, after: State)
    requires OnlyVisible(before, between) && Steady(between, after) && SameHistory(after, between)
    ensures OnlyVisible(before, after)
  {
    hide Inv, Extends;
    SteadyTransitive(before, between, after);
  }

  lemma OnlyVisibleKeeps(before: State, begun: State, s: State, tx: Tx, revision: Rev, key: Option<Key>, fingerprint: Fingerprint)
    requires Steady(before, begun) && OnlyVisible(begun, s) && IntentNames(begun, tx, revision, key, fingerprint)
    requires tx !in before.completes && tx in begun.intents
    ensures Steady(before, s) && Inv(s) && Unresolved(s) == Unresolved(begun) && tx in s.intents && tx !in s.completes
    ensures IntentNames(s, tx, revision, key, fingerprint)
  {
    hide Inv, Extends, Published;
    SteadyTransitive(before, begun, s);
  }

  lemma PublishedOrNot(before: State, changed: State, s: State, tx: Tx, staged: Tree, revision: Rev, key: Option<Key>, fingerprint: Fingerprint)
    requires Steady(before, changed) && tx in changed.intents && IntentNames(changed, tx, revision, key, fingerprint)
    requires TreeOf(changed.visible) == staged
    requires if tx in s.completes then Committed(changed, s, tx, staged) else Steady(changed, s)
    ensures if tx in s.completes then Committed(before, s, tx, staged) else Steady(before, s)
    ensures tx in s.intents && IntentNames(s, tx, revision, key, fingerprint)
  {
    hide Inv, Published;
    if tx in s.completes {
      CommittedAfterSteady(before, changed, s, tx, staged);
    } else {
      SteadyTransitive(before, changed, s);
    }
  }

  /** Uploading first and deleting second gives the overlay, the two sets being disjoint. */
  lemma UploadsThenDeletes(baseline: map<Path, RemoteEntry>, deletions: set<Path>,
                           uploads: map<Path, RemoteEntry>, uploaded: map<Path, RemoteEntry>)
    requires deletions !! uploads.Keys && uploaded.Keys == uploads.Keys
    requires forall p :: p in uploads ==> uploaded[p] == uploads[p].(etag := uploaded[p].etag)
    ensures (baseline + uploaded) - deletions == Overlay(baseline, deletions, uploaded)
    ensures TreeOf(Overlay(baseline, deletions, uploaded)) == TreeOf(Overlay(baseline, deletions, uploads))
  {
  }

  lemma RevisionAllowed(s: State, tx: Tx, entries: Manifest, now: nat)
    requires Inv(s) && tx in s.intents && tx in Unresolved(s) && Stored(entries, s.objects)
    ensures RecordsInv(s) && Allowed(s, PutRevision(tx, Revision(s.intents[tx].parent, entries, tx, now)))
  {
  }

  lemma CompleteAllowed(s: State, tx: Tx, now: nat, next: map<Path, RemoteEntry>)
    requires Inv(s) && tx in s.intents && tx in Unresolved(s) && s.visible == next
    requires Readable(s, tx) && ManifestTree(s.revisions[RevisionOf(s, tx)].entries) == TreeOf(next)
    ensures RecordsInv(s) && Allowed(s, PutComplete(tx, now))
  {
  }

  lemma ReceiptAllowed(s: State, tx: Tx)
    requires Inv(s) && tx in s.intents && tx in s.completes && s.intents[tx].key.Some?
    ensures RecordsInv(s)
    ensures Allowed(s, PutIdempotency(s.intents[tx].key.value,
                                      IdempotencyRecord(Some(s.intents[tx].fingerprint), s.intents[tx].newRevision, tx)))
  {
  }

  lemma HeadAllowed(s: State, tx: Tx)
    requires Inv(s) && s.log != [] && s.log[|s.log| - 1] == tx && tx in s.intents && HasReceipt(s, tx)
    ensures RecordsInv(s) && Allowed(s, PutHead(HeadOf(s, tx)))
  {
  }

  lemma CommittedInv(s: State, s': State, tx: Tx, tree: Tree)
    requires Committed(s, s', tx, tree)
    ensures Inv(s') && RecordsInv(s') && tx in s'.completes && tx in s'.intents
    ensures s'.log != [] && s'.log[|s'.log| - 1] == tx
  {
  }

  lemma CommittedThenSteady(a: State, b: State, c: State, tx: Tx, tree: Tree)
    requires Committed(a, b, tx, tree) && Steady(b, c)
    ensures Committed(a, c, tx, tree)
  {
    SteadyRefl(a);
    CommittedAmidSteady(a, a, b, c, tx, tree);
  }

  lemma CommittedAfterSteady(a: State, b: State, c: State, tx: Tx, tree: Tree)
    requires Steady(a, b) && Committed(b, c, tx, tree)
    ensures Committed(a, c, tx, tree)
  {
    SteadyRefl(c);
    CommittedAmidSteady(a, b, c, c, tx, tree);
  }

  lemma SteadyKeepsCompletes(s: State, s': State)
    requires Steady(s, s')
    ensures s'.completes == s.completes && s'.log == s.log
  {
  }

  lemma ReadyInv(s: State, tx: Tx, revision: Rev, key: Option<Key>)
    requires Ready(s, tx, revision, key)
    ensures Inv(s) && RecordsInv(s) && Unresolved(s) == {} && tx !in s.intents && tx !in s.completes && tx !in s.aborts
  {
  }

  lemma IntentAllowed(before: State, s: State, tx: Tx, intent: Intent)
    requires Ready(before, tx, intent.newRevision, intent.key)
    requires Inv(s) && OnlyObjectsAdded(before, s)
    requires intent.parent == if s.head.Some? then Some(s.head.value.revision) else None
    requires s.head.None? ==>
               && intent.baseline.Some? && Stored(intent.baseline.value, s.objects)
               && ManifestTree(intent.baseline.value) == TreeOf(s.visible)
    ensures RecordsInv(s) && Allowed(s, PutIntent(tx, intent))
  {
  }

  lemma VisibleHonest(s: State, p: Path)
    requires Inv(s) && p in s.visible
    ensures Honest(s.visible[p])
  {
  }

  lemma ObjectAllowed(s: State, body: Body)
    requires Inv(s)
    ensures RecordsInv(s) && Allowed(s, PutObject(body))
  {
  }

  lemma SteadyInv(s: State, s': State)
    requires Steady(s, s')
    ensures Inv(s') && RecordsInv(s') && Published(s') == Published(s)
  {
  }

  lemma HeadAtTip(s: State)
    requires Inv(s) && s.log != [] && s.head.Some? && s.head.value.revision == RevisionOf(s, s.log[|s.log| - 1])
    ensures Settled(s)
  {
    assert |s.log| >= 2 ==> s.log[|s.log| - 2] != s.log[|s.log| - 1];
  }

  lemma AbortAllowed(s: State, before: State, t: Tx)
    requires Steady(before, s) && t in Unresolved(s) && TreeOf(s.visible) == Published(before)
    ensures RecordsInv(s) && Allowed(s, PutAbort(t))
  {
  }

  lemma NextIsChild(s: State, i: nat)
    requires RecordsInv(s) && ChainInv(s) && i <= |s.log|
    ensures i < |s.log| ==>
              s.log[i] in s.completes &&
              s.completes[s.log[i]].intent.parent == if i == 0 then None else Some(RevisionOf(s, s.log[i - 1]))
  {
    if i < |s.log| {
      assert Follows(s, i);
    }
  }

  lemma TipFacts(s: State)
    requires Inv(s)
    ensures s.completes == map[] <==> s.log == []
    ensures s.log != [] ==> s.log[|s.log| - 1] in s.completes
    ensures s.log == [] ==> Settled(s)
    ensures s.head.None? && s.log != [] ==> |s.log| == 1
  {
    if s.log != [] {
      assert s.log[0] in s.completes && s.log[|s.log| - 1] in s.completes;
    }
    if s.completes != map[] {
      var t :| t in s.completes;
      assert t in s.log;
    }
  }

  lemma SameEntryMeans(s: State, p: Path, target: RevisionEntry)
    requires Inv(s) && p in s.visible && SameEntry(s.visible[p], target)
    requires target.kind == File ==> target.contentHash.Some?
    ensures Meaning(s.visible[p]) == ManifestNode(target)
  {
    assert Honest(s.visible[p]);
  }

  lemma ObjectsHonest(s: State)
    requires Inv(s)
    ensures forall h :: h in s.objects ==> s.objects[h] == h.preimage
  {
  }

  lemma UploadAllowed(s: State, p: Path, e: RemoteEntry)
    requires Inv(s) && Unresolved(s) != {} && Honest(e)
    ensures RecordsInv(s) && Allowed(s, Upload(p, e))
  {
  }

  lemma DeleteAllowed(s: State, p: Path)
    requires Inv(s) && Unresolved(s) != {}
    ensures RecordsInv(s) && Allowed(s, Delete(p))
  {
  }

  /** With a transaction in flight, both sources of the recovery target hold the published tree. */
  lemma TargetFacts(s: State, t: Tx)
    requires Inv(s) && t in Unresolved(s)
    ensures Unresolved(s) == {t} && Settled(s)
    ensures s.head.Some? ==>
              && s.head.value.revision in s.revisions
              && ManifestTree(s.revisions[s.head.value.revision].entries) == Published(s)
              && Stored(s.revisions[s.head.value.revision].entries, s.objects)
    ensures s.head.None? ==>
              && s.intents[t].baseline.Some?
              && ManifestTree(s.intents[t].baseline.value) == Published(s)
              && Stored(s.intents[t].baseline.value, s.objects)
  {
    if s.log != [] {
      TipReadable(s);
      assert Readable(s, s.log[|s.log| - 1]);
    }
  }

  lemma TargetIsPublished(s: State, t: Tx)
    requires Inv(s) && t in Unresolved(s)
    ensures PublishedManifest(s) ==
            if s.head.Some? then (if s.head.value.revision in s.revisions then Some(s.revisions[s.head.value.revision].entries) else None)
            else s.intents[t].baseline
  {
    TargetFacts(s, t);
  }

  /** Head and receipts decide nothing about what is published. */
  lemma NothingTouched(s: State, t: State)
    requires Inv(s) && t == s.(idempotency := t.idempotency, head := t.head)
    ensures Spares(s, t, {}) && PublishedManifest(t) == PublishedManifest(s) && Published(t) == Published(s)
    ensures forall p :: AsPublished(t, p) <==> AsPublished(s, p)
  {
    hide ChainInv, HeadInv, ManifestInv, VisibleInv, KeyInv, ReceiptInv;
  }

  lemma OnlyUnrecordedTouched(before: State, adopted: State, s: State, target: Manifest)
    requires Inv(before) && adopted == before.(idempotency := adopted.idempotency, head := adopted.head)
    requires PublishedManifest(adopted) == Some(target) && Unresolved(adopted) != {} && ManifestTree(target) == Published(adopted)
    requires forall p :: Recorded(target, adopted.visible, p) ==> p in s.visible && s.visible[p] == adopted.visible[p]
    requires forall p :: p in s.visible ==> p in adopted.visible || p in target
    ensures Spares(before, s, {})
    ensures (forall p :: p in adopted.visible && p in s.visible && s.visible[p] == adopted.visible[p] ==> Recorded(target, adopted.visible, p)) ==>
              forall p :: p in before.visible && p in s.visible && s.visible[p] == before.visible[p] ==> AsPublished(before, p)
  {
    hide Inv, Published, PublishedManifest, Recorded;
    NothingTouched(before, adopted);
  }

  lemma SameVisibleSpared(before: State, s: State, t: State)
    requires LogInIntents(before) && Spares(before, s, {}) && t.visible == s.visible
    ensures Spares(before, t, {})
  {
    hide AsPublished, Published;
  }
}
