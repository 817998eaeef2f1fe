/**
 The Storage workspace: a tracked file system in front of scoped storage.  `Commit` freezes the
 staged delta, recovers the store, answers retries from history, checks for conflicts and
 publishes; the lease excludes other writers for its duration.  What each call does is stated
 once, as a relation between values; WorkspaceRuns composes it over runs of several workspaces.
 */
module Workspace {
  import opened Types
  import opened Commits
  import opened MemoryTree
  import opened Protocol
  import opened ProtocolRuns
  import opened Storage
  import opened Tracking
  import opened TrackingRuns
  import opened TrackedFs

  datatype CommitResult =
    | NewRevision
    | Replayed(tx: Tx)
    | Conflict(path: Path)
    | KeyConflict
    | InProgress
    | Failed

  /** What a commit is called with, and the identifiers and the time it draws. */
  datatype Request = Request(tx: Tx, revision: Rev, context: Option<Context>, correlation: string, now: nat)

  /** A workspace as a value.  `listing` is the store as it was when the baseline was listed. */
  datatype Client = Client(t: Tracked, moves: map<Path, Path>, partialTx: Option<Tx>, source: Option<Rev>, listing: State)

  /** What every call of every workspace on the store `s` keeps for this one. */
  ghost predicate ClientValid(c: Client, s: State) {
    Inv(s) && Inv(c.listing) && Extends(c.listing, s) && c.t.baseline == c.listing.visible && Sound(c.t)
  }

  predicate Admissible(s: State, req: Request) {
    req.tx !in s.intents && forall u :: u in s.intents ==> s.intents[u].newRevision != req.revision
  }

  // ---------------------------------------------------------------- versions and conflicts

  /** sameRemoteVersion: compare etags if there is one, else version hashes, else size and time. */
  function SameRemoteVersion(b: RemoteEntry, c: RemoteEntry): bool {
    if b.etag.Some? || c.etag.Some? then b.etag == c.etag
    else if b.versionHash.Some? || c.versionHash.Some? then b.versionHash == c.versionHash
    else |b.body| == |c.body| && b.modifiedAt == c.modifiedAt
  }

  /** The stored entry is the upload itself: it already carries the upload's version. */
  predicate AlreadyUploaded(current: RemoteEntry, upload: RemoteEntry) {
    current.versionHash == upload.versionHash
  }

  /** assertNoConflicts refuses the commit because of this path. */
  predicate Conflicting(visible: map<Path, RemoteEntry>, baseline: map<Path, RemoteEntry>,
                        deletions: map<Path, RemoteEntry>, uploads: map<Path, RemoteEntry>, p: Path) {
    || (p in deletions && p in visible && !SameRemoteVersion(deletions[p], visible[p]))
    || (p in uploads && !(p in visible && AlreadyUploaded(visible[p], uploads[p])) &&
        if p in baseline then p !in visible || !SameRemoteVersion(baseline[p], visible[p]) else p in visible)
  }

  /** The baseline is a listing of this store: with fresh etags the same version means the same entry. */
  lemma SameVersionIsSameEntry(listing: State, s: State, p: Path)
    requires Inv(listing) && Inv(s) && Extends(listing, s) && p in listing.visible && p in s.visible
    ensures SameRemoteVersion(listing.visible[p], s.visible[p]) <==> s.visible[p] == listing.visible[p]
  {
    hide Published;
    var e := listing.visible[p].etag.value;
    assert s.issued[e] == listing.issued[e];
  }

  /** A path a commit may overwrite or delete without losing somebody else's change. */
  predicate Unharmed(visible: map<Path, RemoteEntry>, baseline: map<Path, RemoteEntry>, uploads: map<Path, RemoteEntry>, p: Path) {
    || p !in visible
    || (p in baseline && visible[p] == baseline[p])
    || (p in uploads && Meaning(visible[p]) == Meaning(uploads[p]))
  }

  lemma SameUploadSameMeaning(current: RemoteEntry, n: Node, now: nat)
    requires Honest(current) && AlreadyUploaded(current, Prepared(n, now))
    ensures Meaning(current) == n
  {
  }

  /** No conflict means that no staged path has been changed by anyone else since the listing. */
  lemma NothingLost(c: Client, s: State, now: nat)
    requires ClientValid(c, s)
    requires forall p :: !Conflicting(s.visible, c.t.baseline, c.t.deletions, Drafts(c.t, now), p)
    ensures forall p :: p in c.t.deletions || p in c.t.upserts ==>
              Unharmed(s.visible, c.t.baseline, Drafts(c.t, now), p)
  {
    hide Inv, Extends, WellFormed, SameRemoteVersion, AlreadyUploaded;
    var t := c.t;
    forall p | (p in t.deletions || p in t.upserts) && p in s.visible
      ensures Unharmed(s.visible, t.baseline, Drafts(t, now), p)
    {
      assert !Conflicting(s.visible, t.baseline, t.deletions, Drafts(t, now), p);
      if p in t.baseline && SameRemoteVersion(t.baseline[p], s.visible[p]) {
        SameVersionIsSameEntry(c.listing, s, p);
      } else {
        VisibleHonest(s, p);
        SameUploadSameMeaning(s.visible[p], t.inner[p], now);
        PreparedMeans(t.inner[p], now);
      }
    }
  }

  /**
   When a path is in conflict, in terms of the listing.  A staged deletion is, if the entry is there
   but not the listed one; a staged upload is, if the stored entry is not that upload already and
   somebody made, changed or removed an entry there since the listing.
   */
  lemma ConflictIff(c: Client, s: State, now: nat, p: Path)
    requires ClientValid(c, s)
    ensures Conflicting(s.visible, c.t.baseline, c.t.deletions, Drafts(c.t, now), p) <==>
              || (p in c.t.deletions && p in s.visible && !(p in c.listing.visible && s.visible[p] == c.listing.visible[p]))
              || (p in c.t.upserts && p in c.t.inner
                  && !(p in s.visible && s.visible[p].versionHash == Prepared(c.t.inner[p], now).versionHash)
                  && ((p in s.visible && p !in c.listing.visible) || (p !in s.visible && p in c.listing.visible)
                      || (p in s.visible && p in c.listing.visible && s.visible[p] != c.listing.visible[p])))
  {
    hide Inv, Extends, WellFormed, KindsOf, Prepared;
    if p in c.listing.visible && p in s.visible {
      SameVersionIsSameEntry(c.listing, s, p);
    }
  }

  /** A refused commit really met a change: the stored entry is not the listed one, nor the one to be uploaded. */
  lemma ConflictIsReal(c: Client, s: State, now: nat, p: Path)
    requires ClientValid(c, s) && Conflicting(s.visible, c.t.baseline, c.t.deletions, Drafts(c.t, now), p)
    ensures p in c.t.deletions || p in c.t.upserts
    ensures p in s.visible ==> !(p in c.listing.visible && s.visible[p] == c.listing.visible[p])
    ensures p !in s.visible ==> p in c.listing.visible && p in c.t.upserts
  {
    hide Inv, Extends, WellFormed;
    if p in c.listing.visible && p in s.visible {
      SameVersionIsSameEntry(c.listing, s, p);
    }
  }

  /** Against its own listing no workspace is in conflict. */
  lemma NoConflictWithListing(t: Tracked, uploads: map<Path, RemoteEntry>, p: Path)
    requires Delta(t)
    ensures !Conflicting(t.baseline, t.baseline, t.deletions, uploads, p)
  {
  }

  // ---------------------------------------------------------------- fingerprints

  function AuditedHash(e: RemoteEntry): Option<Hash> {
    if e.contentHash.Some? || e.kind == Directory then e.contentHash
    else Some(if e.kind == File then Sha256(e.body) else Sha256(TargetText(e.target)))
  }

  function BeforeOf(e: RemoteEntry): Before {
    Before(AuditedHash(e), e.etag, |e.body|)
  }

  function SizeOf(e: RemoteEntry): Option<nat> {
    if e.kind == File then Some(|e.body|) else None
  }

  /** Every recorded move has an entry to start from and one to end at. */
  predicate MovesResolve(t: Tracked, moves: map<Path, Path>) {
    forall f :: f in moves ==> f in t.baseline && (moves[f] in t.upserts * t.inner.Keys || moves[f] in t.baseline)
  }

  /** changesFrom over the pending changes: what the commit will do, as its fingerprint describes it. */
  function PlannedChanges(t: Tracked, moves: map<Path, Path>, uploads: map<Path, RemoteEntry>): set<Change>
    requires MovesResolve(t, moves) && uploads.Keys == t.upserts * t.inner.Keys
  {
    (set f | f in moves ::
       var after := if moves[f] in uploads then uploads[moves[f]] else t.baseline[moves[f]];
       Relocation(moves[f], after.kind, f, BeforeOf(t.baseline[f]), after.contentHash, SizeOf(after)))
    + (set p | p in t.deletions && p !in moves :: Removal(p, t.deletions[p].kind, BeforeOf(t.deletions[p])))
    + (set p | p in uploads && p !in moves.Values ::
         Placement(p, uploads[p].kind, if p in t.baseline then Some(BeforeOf(t.baseline[p])) else None,
                   uploads[p].contentHash, SizeOf(uploads[p])))
  }

  function ContextOf(c: Client, req: Request): Context {
    Resolved(req.context, c.source, req.correlation)
  }

  function FingerprintFor(c: Client, req: Request): Fingerprint
    requires MovesResolve(c.t, c.moves)
  {
    Current(DigestOf(PlannedChanges(c.t, c.moves, Drafts(c.t, req.now)), ContextOf(c, req)))
  }

  // ---------------------------------------------------------------- what a commit publishes

  /** The tree a commit of the staged delta publishes over the tree `published`. */
  function StagedOver(published: Tree, t: Tracked): Tree {
    Overlay(published, t.deletions.Keys, map p | p in t.upserts && p in t.inner :: t.inner[p])
  }

  lemma StagedOverVisible(visible: map<Path, RemoteEntry>, t: Tracked, deletions: set<Path>, now: nat)
    requires deletions == t.deletions.Keys || deletions == t.deletions.Keys * visible.Keys
    ensures TreeOf(Overlay(visible, deletions, Drafts(t, now))) == StagedOver(TreeOf(visible), t)
  {
    var l, r := TreeOf(Overlay(visible, deletions, Drafts(t, now))), StagedOver(TreeOf(visible), t);
    forall p | p in l
      ensures l[p] == r[p]
    {
      if p in Drafts(t, now) {
        PreparedMeans(t.inner[p], now);
      }
    }
  }

  /**
   What is published is what the user sees: over its own baseline, a faithful workspace stages
   exactly its live files and links, and otherwise only directories that are live as well.
   (The live tree does not keep the mode of a link.)
   */
  lemma PublishesLiveTree(t: Tracked, now: nat)
    requires Faithful(t)
    ensures var staged := StagedOver(TreeOf(t.baseline), t);
            && (forall p :: p in staged ==>
                  && p in t.inner
                  && (staged[p] == t.inner[p] ||
                      (staged[p].LinkNode? && t.inner[p].LinkNode? && staged[p].target == t.inner[p].target)))
            && (forall p :: p in t.inner && !t.inner[p].DirNode? ==> p in staged)
  {
    StagedIsLive(t, now);
    StagedOverVisible(t.baseline, t, t.deletions.Keys, now);
    assert Staged(t, now) == Overlay(t.baseline, t.deletions.Keys, Drafts(t, now));
  }

  // ---------------------------------------------------------------- what a commit does

  /** A completed commit that answers this one: the one left unfinished, else the one its key is bound to. */
  ghost function Prior(partialTx: Option<Tx>, completes: map<Tx, Complete>, key: Option<Key>): (u: Option<Tx>)
    ensures u.Some? ==> u.value in completes
  {
    if partialTx.Some? && partialTx.value in completes then partialTx
    else if key.Some? && exists u :: u in completes && completes[u].intent.key == key then
      var u :| u in completes && completes[u].intent.key == key; Some(u)
    else None
  }

  function ChangedPaths(t: Tracked): set<Path> {
    t.deletions.Keys + t.upserts
  }

  /**
   Once committed, a staged file or link is stored as the manifest records it, and recoveries leave
   it alone; a staged directory is stored with the digest of the empty text, which the manifest
   does not record, so every recovery with work to do uploads it again.
   */
  lemma CommittedAsRecordedIff(n: Node, now: nat, s: State, p: Path)
    ensures var stored := Stamped(s, Prepared(n, now));
            Recorded(map[p := StoredEntry(stored)], map[p := stored], p) <==> !n.DirNode?
  {
  }

  /** Either exactly the staged tree over what was published is published, and the complete record exists, or what was;
      and paths that are not staged keep their entries, etags and all. */
  ghost predicate Atomic(c: Client, s: State, req: Request, r: CommitResult, s': State) {
    && LogInIntents(s) && LogInIntents(s')
    && (if req.tx in s'.completes then Committed(s, s', req.tx, StagedOver(Published(s), c.t)) else Steady(s, s'))
    && (r.NewRevision? ==> req.tx in s'.completes)
    && (r.NewRevision? || r.Replayed? ==> Settled(s') && TreeOf(s'.visible) == Published(s'))
    && Spares(s, s', ChangedPaths(c.t))
  }

  /**
   When its own recovery finds nothing to do, a commit that writes anything harms no other change,
   and one that is refused has written nothing and met such a change.
   */
  ghost predicate LosesNothing(c: Client, s: State, req: Request, r: CommitResult, s': State) {
    && (req.tx in s'.intents && Unresolved(s) == {} ==>
          forall p :: p in c.t.deletions || p in c.t.upserts ==> Unharmed(s.visible, c.t.baseline, Drafts(c.t, req.now), p))
    && (r.Conflict? ==>
          && Unresolved(s) == {} && s'.visible == s.visible && req.tx !in s'.intents
          && Conflicting(s.visible, c.t.baseline, c.t.deletions, Drafts(c.t, req.now), r.path))
  }

  /** The intent, if written, carries the revision, the key and the fingerprint of this commit. */
  ghost predicate Named(c: Client, req: Request, s': State) {
    req.tx in s'.intents ==>
      MovesResolve(c.t, c.moves) && IntentNames(s', req.tx, req.revision, ContextOf(c, req).idempotencyKey, FingerprintFor(c, req))
  }

  /** A commit already answered by an earlier one writes no intent, and is answered with it or refused. */
  ghost predicate AnswersRetries(c: Client, s: State, req: Request, r: CommitResult, s': State) {
    var prior := Prior(c.partialTx, s.completes, ContextOf(c, req).idempotencyKey);
    && (r.Replayed? ==> prior == Some(r.tx))
    && (r.Replayed? || r.KeyConflict? ==> prior.Some?)
    && (prior.Some? ==> req.tx !in s'.intents)
    && (prior.Some? && !r.Failed? ==>
          && MovesResolve(c.t, c.moves)
          && var bound := s.completes[prior.value].intent.fingerprint;
             r == if bound == FingerprintFor(c, req) || (c.partialTx == prior && bound.Legacy?)
                  then Replayed(prior.value) else KeyConflict)
  }

  /** A commit that changed visible files after its recovery remembers its transaction, so that discard and a retry find it. */
  ghost predicate Remembers(s: State, req: Request, c': Client, s': State) {
    if Unresolved(s) == {} then s'.visible != s.visible ==> c'.partialTx == Some(req.tx)
    else req.tx in s'.intents && s'.visible != c'.listing.visible ==> c'.partialTx == Some(req.tx)
  }

  /** What the workspace holds afterwards. */
  ghost predicate LeavesBehind(c: Client, s: State, req: Request, r: CommitResult, c': Client, s': State) {
    if r.NewRevision? || r.Replayed? then
      c' == Client(Reset(s'.visible), map[], None, None, s')
    else
      && c'.moves == c.moves && c'.source == c.source
      && (c'.partialTx != c.partialTx ==> c'.partialTx == Some(req.tx) && req.tx in s'.intents)
      && (req.tx in s'.completes ==> c'.partialTx == Some(req.tx))
      && Remembers(s, req, c', s')
      && if c'.listing == c.listing && c'.t == c.t then true
         else Unresolved(s) != {} && Steady(s, c'.listing) && TreeOf(c'.listing.visible) == Published(s)
              && c'.t == Refreshed(c.t, c'.listing.visible)
  }

  ghost predicate CommitStep(c: Client, s: State, req: Request, r: CommitResult, c': Client, s': State) {
    && Atomic(c, s, req, r, s') && LosesNothing(c, s, req, r, s') && AnswersRetries(c, s, req, r, s')
    && LeavesBehind(c, s, req, r, c', s') && Named(c, req, s') && ClientValid(c', s')
  }

  /**
   How a commit ends: as such a step; in failure only if a write failed, the lease was lost, a
   move has lost an end or the listing is no tree; and with uploads still `outstanding` only in a
   failure without a complete record.
   */
  ghost predicate Ends(c: Client, s: State, req: Request, concurrency: nat, lost: bool, failed: bool,
                       r: CommitResult, outstanding: set<Path>, c': Client, s': State) {
    && CommitStep(c, s, req, r, c', s') && !r.InProgress?
    && outstanding <= Drafts(c.t, req.now).Keys && Few(outstanding, concurrency)
    && (outstanding != {} ==> r.Failed? && req.tx !in s'.completes)
    && (r.Failed? ==> failed || lost || !MovesResolve(c.t, c.moves) || !MovesResolve(c'.t, c'.moves) || !Consistent(s'.visible))
  }

  /** What the baseline listed is what is published. */
  ghost predicate StillPublished(baseline: map<Path, RemoteEntry>, s: State) {
    LogInIntents(s) && Published(s) == TreeOf(baseline)
  }

  /** Nobody else having published since the listing, a commit leaves the live tree alone exactly when all its directories are covered. */
  lemma CommitKeepsTreeIff(c: Client, s: State, req: Request, c': Client, s': State)
    requires CommitStep(c, s, req, NewRevision, c', s')
    requires Faithful(c.t) && PlainImplied(c.t) && StillPublished(c.t.baseline, s)
    ensures Alike(c'.t.inner, c.t.inner) <==> DirectoriesCovered(c.t)
  {
    hide ClientValid, LosesNothing, AnswersRetries, Faithful, PlainImplied, Extends, Inv, Published, StagedOver, TreeFrom, TreeOf,
         Drafts, Alike, DirectoriesCovered;
    StagedOverVisible(c.t.baseline, c.t, c.t.deletions.Keys, req.now);
    TreeFromMeaning(s'.visible, Staged(c.t, req.now));
    RebuildsLiveIff(c.t, req.now);
  }

  lemma KeepsTree(c: Client, s: State, req: Request, concurrency: nat, lost: bool, failed: bool,
                  r: CommitResult, outstanding: set<Path>, c': Client, s': State)
    requires Ends(c, s, req, concurrency, lost, failed, r, outstanding, c', s')
    ensures r.NewRevision? && Faithful(c.t) && PlainImplied(c.t) && StillPublished(c.t.baseline, s) ==>
              (Alike(c'.t.inner, c.t.inner) <==> DirectoriesCovered(c.t))
  {
    hide CommitStep, Faithful, PlainImplied, StillPublished, Alike, DirectoriesCovered;
    if r.NewRevision? && Faithful(c.t) && PlainImplied(c.t) && StillPublished(c.t.baseline, s) {
      CommitKeepsTreeIff(c, s, req, c', s');
    }
  }

  // ---------------------------------------------------------------- discard and restore

  /** Back to the baseline; after a commit that may have been half written, to what recovery leaves. */
  ghost predicate DiscardStep(c: Client, s: State, ok: bool, c': Client, s': State) {
    && Steady(s, s') && ClientValid(c', s')
    && LogInIntents(s) && Spares(s, s', {})
    && (c.partialTx.None? ==> s' == s)
    && if !ok then c' == c
       else if c.partialTx.None? then c' == Client(Reset(c.t.baseline), map[], None, None, c.listing)
       else c' == Client(Reset(s'.visible), map[], None, None, s') && TreeOf(s'.visible) == Published(s)
  }

  /** The entry remoteFromRevision makes of a manifest entry, with the body it would download. */
  function Historical(e: RevisionEntry, objects: map<Hash, Body>): RemoteEntry {
    var body := if e.kind == File && e.contentHash.Some? && e.contentHash.value in objects then objects[e.contentHash.value] else "";
    RemoteEntry(e.kind, e.mode, body, e.contentHash, e.target, 0, None, None)
  }

  function HistoricalEntries(m: Manifest, objects: map<Hash, Body>): map<Path, RemoteEntry> {
    map p | p in m :: Historical(m[p], objects)
  }

  /** What restore needs: a head, the revision's manifest with every body, and no commit under way. */
  predicate Restorable(s: State, revision: Rev) {
    && s.head.Some? && revision in s.revisions && Stored(s.revisions[revision].entries, s.objects)
    && Consistent(HistoricalEntries(s.revisions[revision].entries, s.objects))
  }

  function RestoreStep(c: Client, s: State, revision: Rev): Client
    requires revision in s.revisions
  {
    c.(t := StageTarget(c.t, HistoricalEntries(s.revisions[revision].entries, s.objects)),
       moves := map[], source := Some(revision))
  }

  /** The entries staged by a restore are those of the revision's tree. */
  lemma HistoricalMeans(s: State, revision: Rev)
    requires Inv(s) && revision in s.revisions && Stored(s.revisions[revision].entries, s.objects)
    ensures TreeOf(HistoricalEntries(s.revisions[revision].entries, s.objects)) == ManifestTree(s.revisions[revision].entries)
  {
    hide Published, ChainInv, HeadInv, PendingInv, VisibleInv, KeyInv, ReceiptInv;
  }

  // ---------------------------------------------------------------- why each way a commit ends is a step

  lemma ExtendsRefl(s: State)
    ensures Extends(s, s)
  {
  }

  /** Whatever later writes do to the store, a workspace that does nothing stays valid. */
  lemma ValidLater(c: Client, s: State, s': State)
    requires ClientValid(c, s) && Inv(s')
    requires Steady(s, s') || Extends(s, s')
    ensures ClientValid(c, s')
  {
    hide Inv, Extends, Published, Sound;
    ExtendsTransitive(c.listing, s, s');
  }

  /** So does one that only works on its files, or stages a revision. */
  lemma ValidAfterEdit(c: Client, s: State, op: Op)
    requires ClientValid(c, s)
    ensures ClientValid(c.(t := Step(c.t, op)), s)
  {
    hide Inv, Extends, Sound, Step;
    StepKeepsBaseline(c.t, op);
    StepSound(c.t, op);
  }

  lemma StagedBaseline(t: Tracked, entries: map<Path, RemoteEntry>)
    ensures StageTarget(t, entries).baseline == t.baseline
  {
  }

  lemma ValidAfterRestore(c: Client, s: State, revision: Rev)
    requires ClientValid(c, s) && Restorable(s, revision)
    ensures ClientValid(RestoreStep(c, s, revision), s)
  {
    hide Inv, Extends, Sound, StageTarget, Consistent, HistoricalEntries;
    SoundHolds(c.t, HistoricalEntries(s.revisions[revision].entries, s.objects));
    StagedBaseline(c.t, HistoricalEntries(s.revisions[revision].entries, s.objects));
  }

  lemma ValidOnListing(s: State)
    requires Inv(s) && Consistent(s.visible)
    ensures ClientValid(Client(Reset(s.visible), map[], None, None, s), s)
  {
    hide Inv, Consistent, Sound, TreeFrom;
    ExtendsRefl(s);
    SoundHolds(Reset(s.visible), s.visible);
  }

  lemma DiscardedBaseline(c: Client, s: State, ok: bool, c': Client)
    requires ClientValid(c, s) && c.partialTx.None?
    requires if ok then Consistent(c.t.baseline) && c' == Client(Reset(c.t.baseline), map[], None, None, c.listing) else c' == c
    ensures DiscardStep(c, s, ok, c', s) && ClientValid(c', s)
  {
    StartsQuietly(c, s, 0);
    hide ClientValid, Steady, Reset, Consistent;
    if ok {
      ValidAfterDiscard(c, s);
    }
  }

  lemma DiscardedPartial(c: Client, s: State, ok: bool, c': Client, s': State)
    requires ClientValid(c, s) && c.partialTx.Some? && Steady(s, s') && LogInIntents(s) && Spares(s, s', {})
    requires if ok then Consistent(s'.visible) && TreeOf(s'.visible) == Published(s')
                        && c' == Client(Reset(s'.visible), map[], None, None, s')
             else c' == c
    ensures DiscardStep(c, s, ok, c', s') && ClientValid(c', s')
  {
    SteadyInv(s, s');
    hide ClientValid, Steady, Reset, Consistent, Published;
    if ok {
      ValidOnListing(s');
    } else {
      ValidLater(c, s, s');
    }
  }

  lemma ValidAfterDiscard(c: Client, s: State)
    requires ClientValid(c, s) && Consistent(c.t.baseline)
    ensures ClientValid(Client(Reset(c.t.baseline), map[], None, None, c.listing), s)
  {
    hide Inv, Extends, Consistent, Sound, TreeFrom;
    SoundHolds(c.t, c.t.baseline);
  }

  lemma StartsQuietly(c: Client, s: State, concurrency: nat)
    requires ClientValid(c, s)
    ensures Inv(s) && Steady(s, s) && LogInIntents(s) && Spares(s, s, {}) && Few({}, concurrency)
  {
    hide Inv, Sound, AsPublished, Published;
    SteadyRefl(s);
    LogOf(s, s);
  }

  lemma DraftsAre(t: Tracked, now: nat)
    ensures Drafts(t, now).Keys == t.upserts * t.inner.Keys <= t.upserts
  {
  }

  /** A recovery has finished: nothing is in flight, and if it did anything, its result is the new baseline. */
  ghost predicate Recovered(c: Client, s: State, c1: Client, s1: State) {
    && ClientValid(c, s) && ClientValid(c1, s1) && Steady(s, s1) && s1.intents == s.intents
    && LogInIntents(s1) && Settled(s1) && Unresolved(s1) == {} && TreeOf(s1.visible) == Published(s)
    && Spares(s, s1, {})
    && if Unresolved(s) == {} then c1 == c && s1.visible == s.visible
       else c1 == c.(t := Refreshed(c.t, s1.visible), listing := s1)
  }

  lemma AfterRecovery(c: Client, s: State, c1: Client, s1: State)
    requires ClientValid(c, s) && Steady(s, s1) && s1.intents == s.intents && LogInIntents(s) && Spares(s, s1, {})
    requires Inv(s1) && Settled(s1) && Unresolved(s1) == {} && TreeOf(s1.visible) == Published(s1)
    requires if Unresolved(s) == {} then c1 == c && s1.visible == s.visible
             else c1 == c.(t := Refreshed(c.t, s1.visible), listing := s1)
    ensures Recovered(c, s, c1, s1) && ClientValid(c1, s1) && s1.completes == s.completes
  {
    InvLog(c, s, c, s1) by { hide Inv, Extends, Sound, Published; ValidLater(c, s, s1); }
    hide Inv, Extends, Sound, Settled, Published, LogInIntents;
    ValidLater(c, s, s1);
    ExtendsRefl(s1);
    SoundHolds(c.t, s1.visible);
  }

  lemma RecoveredFacts(c: Client, s: State, c1: Client, s1: State)
    requires Recovered(c, s, c1, s1)
    ensures ClientValid(c, s) && ClientValid(c1, s1) && Inv(s1) && LogInIntents(s1) && Settled(s1)
    ensures s1.completes == s.completes && c1.partialTx == c.partialTx && c1.moves == c.moves && c1.source == c.source
    ensures c1.t.upserts == c.t.upserts && c1.t.inner == c.t.inner
  {
    hide Inv, Extends, Published, Sound, Settled;
  }

  lemma ChecksPassed(c: Client, s: State, req: Request, c1: Client, s1: State)
    requires MovesResolve(c.t, c.moves)
    requires Prior(c.partialTx, s.completes, ContextOf(c, req).idempotencyKey).None?
    requires forall p :: !Conflicting(s1.visible, c1.t.baseline, c1.t.deletions, Drafts(c.t, req.now), p)
    ensures PastChecks(c, s, req, c1, s1)
  {
  }

  lemma EndsAlone(c: Client, s: State, req: Request, concurrency: nat, lost: bool, failed: bool, r: CommitResult, c': Client, s': State)
    requires CommitStep(c, s, req, r, c', s') && !r.InProgress?
    requires r.Failed? ==> failed || lost || !MovesResolve(c.t, c.moves) || !MovesResolve(c'.t, c'.moves) || !Consistent(s'.visible)
    ensures Ends(c, s, req, concurrency, lost, failed, r, {}, c', s')
  {
    hide CommitStep, MovesResolve, Consistent;
  }

  lemma EndsFailing(c: Client, s: State, req: Request, concurrency: nat, lost: bool, failed: bool, outstanding: set<Path>, c': Client, s': State)
    requires CommitStep(c, s, req, Failed, c', s') && (failed || lost)
    requires outstanding <= Drafts(c.t, req.now).Keys && Few(outstanding, concurrency)
    requires outstanding != {} ==> req.tx !in s'.completes
    ensures Ends(c, s, req, concurrency, lost, failed, Failed, outstanding, c', s')
  {
    hide CommitStep, MovesResolve, Consistent;
  }

  lemma PartialStaysValid(c: Client, tx: Tx, s: State)
    requires ClientValid(c, s)
    ensures ClientValid(c.(partialTx := Some(tx)), s)
  {
    hide Inv, Extends, Sound;
  }

  /** Nothing but reads and recoveries has happened: the steady half of Atomic. */
  lemma NothingPublished(c: Client, s: State, req: Request, r: CommitResult, s': State)
    requires ClientValid(c, s) && Admissible(s, req) && Steady(s, s') && s'.intents == s.intents && !r.NewRevision?
    requires LogInIntents(s) && Spares(s, s', {})
    requires r.Replayed? ==> LogInIntents(s') && Settled(s') && TreeOf(s'.visible) == Published(s')
    ensures Atomic(c, s, req, r, s') && req.tx !in s'.intents && req.tx !in s'.completes
  {
    hide Extends, Sound, Settled, Published, ChainInv, HeadInv, ManifestInv, PendingInv, VisibleInv, KeyInv, ReceiptInv, Spares;
    FreshTransaction(s, req.tx);
    SparesMore(s, s', ChangedPaths(c.t));
  }

  /** A commit that fails or answers before it writes its intent. */
  lemma UnwrittenStep(c: Client, s: State, req: Request, r: CommitResult, c': Client, s': State)
    requires Atomic(c, s, req, r, s') && ClientValid(c', s') && req.tx !in s'.intents && req.tx !in s'.completes
    requires AnswersRetries(c, s, req, r, s') && LeavesBehind(c, s, req, r, c', s')
    requires !r.Conflict?
    ensures CommitStep(c, s, req, r, c', s')
  {
    hide Atomic, AnswersRetries, LeavesBehind, ClientValid;
  }

  lemma StoppedStep(c: Client, s: State, req: Request, s': State)
    requires ClientValid(c, s) && Admissible(s, req) && Steady(s, s') && s'.intents == s.intents
    requires Unresolved(s) == {} ==> s'.visible == s.visible
    requires LogInIntents(s) && Spares(s, s', {})
    ensures CommitStep(c, s, req, Failed, c, s') && ClientValid(c, s')
  {
    hide Atomic, Steady, ClientValid, Prior, FingerprintFor, MovesResolve, Admissible, CommitStep;
    NothingPublished(c, s, req, Failed, s');
    SteadyInv(s, s');
    ValidLater(c, s, s');
    UnwrittenStep(c, s, req, Failed, c, s');
  }

  lemma RecoveredLeaves(c: Client, s: State, req: Request, r: CommitResult, c1: Client, s1: State)
    requires Recovered(c, s, c1, s1) && Admissible(s, req) && !r.NewRevision? && !r.Replayed?
    ensures Steady(s, s1) && s1.intents == s.intents && s1.completes == s.completes && ClientValid(c, s) && ClientValid(c1, s1)
    ensures Inv(s1) && LogInIntents(s1) && Settled(s1) && Unresolved(s1) == {}
    ensures LogInIntents(s) && Spares(s, s1, {})
    ensures LeavesBehind(c, s, req, r, c1, s1)
  {
    hide Inv, Extends, Sound, Settled, Published, Refreshed;
    FreshTransaction(s, req.tx);
  }

  lemma FailedStep(c: Client, s: State, req: Request, c1: Client, s1: State)
    requires Recovered(c, s, c1, s1) && Admissible(s, req)
    ensures CommitStep(c, s, req, Failed, c1, s1)
  {
    hide Recovered, LeavesBehind, Steady, ClientValid, Prior, FingerprintFor, MovesResolve, Atomic, Admissible, CommitStep;
    RecoveredLeaves(c, s, req, Failed, c1, s1);
    NothingPublished(c, s, req, Failed, s1);
    UnwrittenStep(c, s, req, Failed, c1, s1);
  }

  lemma AnsweredStep(c: Client, s: State, req: Request, c1: Client, s1: State, r: CommitResult, c': Client)
    requires Recovered(c, s, c1, s1) && Admissible(s, req) && MovesResolve(c.t, c.moves)
    requires Prior(c.partialTx, s.completes, ContextOf(c, req).idempotencyKey).Some?
    requires var prior := Prior(c.partialTx, s.completes, ContextOf(c, req).idempotencyKey);
             var bound := s.completes[prior.value].intent.fingerprint;
             r == if bound == FingerprintFor(c, req) || (c.partialTx == prior && bound.Legacy?) then Replayed(prior.value) else KeyConflict
    requires if r.Replayed? then c' == Client(Reset(s1.visible), map[], None, None, s1) && ClientValid(c', s1) else c' == c1
    ensures CommitStep(c, s, req, r, c', s1)
  {
    hide Recovered, Steady, ClientValid, Prior, FingerprintFor, MovesResolve, Reset, Settled, Published, Atomic,
         Admissible, CommitStep, Inv;
    RecoveredLeaves(c, s, req, KeyConflict, c1, s1);
    RestsOnPublished(s1);
    NothingPublished(c, s, req, r, s1);
    UnwrittenStep(c, s, req, r, c', s1);
  }

  lemma RestsOnPublished(s: State)
    ensures Inv(s) && Unresolved(s) == {} ==> TreeOf(s.visible) == Published(s)
  {
  }

  lemma ConflictStep(c: Client, s: State, req: Request, c1: Client, s1: State, p: Path)
    requires Recovered(c, s, c1, s1) && Admissible(s, req)
    requires Prior(c.partialTx, s.completes, ContextOf(c, req).idempotencyKey).None?
    requires Conflicting(s1.visible, c1.t.baseline, c1.t.deletions, Drafts(c.t, req.now), p)
    ensures CommitStep(c, s, req, Conflict(p), c1, s1)
  {
    hide Recovered, LeavesBehind, Steady, ClientValid, Prior, FingerprintFor, MovesResolve, Conflicting, Atomic, Admissible;
    RecoveredLeaves(c, s, req, Conflict(p), c1, s1);
    ConflictUnrecovered(c, s, c1, s1, req.now, p);
    NothingPublished(c, s, req, Conflict(p), s1);
  }

  lemma ConflictUnrecovered(c: Client, s: State, c1: Client, s1: State, now: nat, p: Path)
    requires Recovered(c, s, c1, s1)
    requires Conflicting(s1.visible, c1.t.baseline, c1.t.deletions, Drafts(c.t, now), p)
    ensures Unresolved(s) == {} && c1 == c && s1.visible == s.visible
  {
    hide Extends, Settled, Published, Conflicting, Reset, KindsOf, WellFormed, Inv, Drafts;
    if Unresolved(s) != {} {
      NoConflictWithListing(c1.t, Drafts(c.t, now), p);
    }
  }

  lemma ReadyToPublish(c: Client, s: State, req: Request, c1: Client, s1: State)
    requires Recovered(c, s, c1, s1) && Admissible(s, req)
    requires PastChecks(c, s, req, c1, s1)
    ensures Ready(s1, req.tx, req.revision, ContextOf(c, req).idempotencyKey)
  {
    hide Inv, Extends, Settled, Published, Sound, Refreshed, Conflicting;
  }

  lemma UploadsDisjoint(c: Client, s: State, c1: Client, s1: State, now: nat)
    requires Recovered(c, s, c1, s1)
    ensures c1.t.deletions.Keys !! Drafts(c.t, now).Keys
    ensures forall p :: p in Drafts(c.t, now) ==> Honest(Drafts(c.t, now)[p])
  {
    hide Inv, Extends, Settled, Published, WellFormed, KindsOf;
    forall p | p in Drafts(c.t, now)
      ensures Honest(Drafts(c.t, now)[p])
    {
      PreparedMeans(c.t.inner[p], now);
    }
  }

  lemma SparedBeside(c: Client, s: State, c1: Client, s1: State, now: nat, s': State)
    requires Recovered(c, s, c1, s1)
    requires var written := c1.t.deletions.Keys + Drafts(c.t, now).Keys; s'.visible - written == s1.visible - written
    ensures LogInIntents(s) && Spares(s, s', ChangedPaths(c.t))
  {
    hide Inv, Extends, Settled, Published, Sound, AsPublished, Steady;
    LogOf(s, s1);
    var written := c1.t.deletions.Keys + Drafts(c.t, now).Keys;
    forall p | p !in ChangedPaths(c.t)
      ensures p in s'.visible <==> p in s1.visible
      ensures p in s1.visible ==> s'.visible[p] == s1.visible[p]
    {
      assert p !in written;
      assert p in s'.visible - written <==> p in s1.visible - written;
    }
  }

  lemma LogOf(s: State, s': State)
    requires Steady(s, s')
    ensures LogInIntents(s)
  {
  }

  lemma SparesMore(s: State, s': State, paths: set<Path>)
    requires LogInIntents(s) && Spares(s, s', {})
    ensures Spares(s, s', paths)
  {
    hide AsPublished, Published;
  }

  lemma PublishedFromRecovered(c: Client, s: State, req: Request, c1: Client, s1: State, s': State)
    requires Recovered(c, s, c1, s1)
    requires var staged := TreeOf(Overlay(s1.visible, c1.t.deletions.Keys, Drafts(c.t, req.now)));
             if req.tx in s'.completes then Committed(s1, s', req.tx, staged) else Steady(s1, s')
    requires var written := c1.t.deletions.Keys + Drafts(c.t, req.now).Keys; s'.visible - written == s1.visible - written
    ensures LogInIntents(s) && Spares(s, s', ChangedPaths(c.t))
    ensures if req.tx in s'.completes then Committed(s, s', req.tx, StagedOver(Published(s), c.t)) else Steady(s, s')
    ensures ClientValid(c1, s') && Inv(s')
  {
    hide Inv, Extends, Settled, Published, Sound, Drafts, StagedOver, Overlay, Spares;
    SparedBeside(c, s, c1, s1, req.now, s');
    StagedOverVisible(s1.visible, c.t, c1.t.deletions.Keys, req.now);
    ValidLater(c1, s1, s');
    if req.tx in s'.completes {
      CommittedAfterSteady(s, s1, s', req.tx, StagedOver(Published(s), c.t));
    } else {
      SteadyTransitive(s, s1, s');
    }
  }

  /** A commit that got past its checks and stopped somewhere in the publication. */
  lemma PartialStep(c: Client, s: State, req: Request, c1: Client, s1: State, c': Client, s': State)
    requires Recovered(c, s, c1, s1) && ClientValid(c', s') && PastChecks(c, s, req, c1, s1)
    requires LogInIntents(s) && Spares(s, s', ChangedPaths(c.t))
    requires if req.tx in s'.completes then Committed(s, s', req.tx, StagedOver(Published(s), c.t)) else Steady(s, s')
    requires c' == c1 || (c' == c1.(partialTx := Some(req.tx)) && req.tx in s'.intents)
    requires req.tx in s'.completes || s'.visible != s1.visible ==> c'.partialTx == Some(req.tx)
    requires Named(c, req, s')
    ensures CommitStep(c, s, req, Failed, c', s')
  {
    hide LeavesBehind, LosesNothing, AnswersRetries, PastChecks, Recovered, ClientValid, Published, StagedOver, Committed,
         Steady, LogInIntents;
    PartialLeaves(c, s, req, c1, s1, c', s');
    UnharmedAfterRecovery(c, s, req, c1, s1, Failed, s');
    InvLog(c, s, c', s');
  }

  /** A commit that got past its checks and published. */
  lemma PublishedStep(c: Client, s: State, req: Request, c1: Client, s1: State, c': Client, s': State)
    requires Recovered(c, s, c1, s1) && ClientValid(c', s') && PastChecks(c, s, req, c1, s1)
    requires LogInIntents(s) && Spares(s, s', ChangedPaths(c.t))
    requires req.tx in s'.completes && Committed(s, s', req.tx, StagedOver(Published(s), c.t))
    requires LogInIntents(s') && Settled(s') && TreeOf(s'.visible) == Published(s')
    requires c' == Client(Reset(s'.visible), map[], None, None, s')
    requires Named(c, req, s')
    ensures CommitStep(c, s, req, NewRevision, c', s')
  {
    hide LosesNothing, AnswersRetries, PastChecks, Recovered, ClientValid, Published, StagedOver, Committed, Settled, Reset,
         LogInIntents;
    UnharmedAfterRecovery(c, s, req, c1, s1, NewRevision, s');
    InvLog(c, s, c', s');
  }

  /** No receipt answers the commit, and no staged path is in conflict. */
  ghost predicate PastChecks(c: Client, s: State, req: Request, c1: Client, s1: State) {
    && MovesResolve(c.t, c.moves)
    && Prior(c.partialTx, s.completes, ContextOf(c, req).idempotencyKey).None?
    && forall p :: !Conflicting(s1.visible, c1.t.baseline, c1.t.deletions, Drafts(c.t, req.now), p)
  }

  lemma PublishedAtRest(s: State, s': State, tx: Tx, staged: Tree)
    requires Committed(s, s', tx, staged) && TreeOf(s'.visible) == staged
    ensures LogInIntents(s') && tx in s'.intents && TreeOf(s'.visible) == Published(s')
  {
    hide Extends, Published;
  }

  lemma InvLog(c: Client, s: State, c': Client, s': State)
    requires ClientValid(c, s) && ClientValid(c', s')
    ensures LogInIntents(s) && LogInIntents(s')
  {
    hide Extends, Sound, Published;
  }

  lemma UnharmedAfterRecovery(c: Client, s: State, req: Request, c1: Client, s1: State, r: CommitResult, s': State)
    requires Recovered(c, s, c1, s1) && PastChecks(c, s, req, c1, s1) && (r.NewRevision? || r.Failed?)
    ensures ClientValid(c, s) && LosesNothing(c, s, req, r, s') && AnswersRetries(c, s, req, r, s')
  {
    hide ClientValid, Inv, Settled, Published, Drafts, Conflicting, Refreshed, Unharmed;
    if Unresolved(s) == {} {
      NothingLost(c, s, req.now);
    }
  }

  lemma PartialLeaves(c: Client, s: State, req: Request, c1: Client, s1: State, c': Client, s': State)
    requires Recovered(c, s, c1, s1)
    requires c' == c1 || (c' == c1.(partialTx := Some(req.tx)) && req.tx in s'.intents)
    requires req.tx in s'.completes || s'.visible != s1.visible ==> c'.partialTx == Some(req.tx)
    ensures LeavesBehind(c, s, req, Failed, c', s')
  {
    hide ClientValid, Inv, Settled, Published, Refreshed, Extends;
  }

  lemma FreshTransaction(s: State, tx: Tx)
    requires Inv(s) && tx !in s.intents
    ensures tx !in s.completes
  {
  }

  /** Once the head is settled a key has a receipt exactly if a completed commit carries it, and the receipt names that commit. */
  lemma ReceiptIffComplete(s: State, k: Key)
    requires Inv(s) && Settled(s)
    ensures k in s.idempotency <==> exists u :: u in s.completes && s.completes[u].intent.key == Some(k)
    ensures k in s.idempotency ==>
              && s.idempotency[k].tx in s.completes
              && s.idempotency[k].fingerprint == Some(s.completes[s.idempotency[k].tx].intent.fingerprint)
              && forall u :: u in s.completes && s.completes[u].intent.key == Some(k) ==> u == s.idempotency[k].tx
  {
    hide ChainInv, HeadInv, ManifestInv, PendingInv, VisibleInv, Published;
    if k in s.idempotency {
      assert Describes(s, k, s.idempotency[k]);
      forall u | u in s.completes && s.completes[u].intent.key == Some(k)
        ensures u == s.idempotency[k].tx
      {
        assert s.intents[u].key == s.intents[s.idempotency[k].tx].key;
      }
    }
    forall u | u in s.completes && s.completes[u].intent.key == Some(k)
      ensures k in s.idempotency
    {
      assert HasReceipt(s, u);
    }
  }

  // ---------------------------------------------------------------- the workspace itself

  class StorageWorkspace {
    const fs: TrackedFileSystem
    const storage: ScopedStorage
    var partialTx: Option<Tx>
    var restoreSource: Option<Rev>
    ghost var listing: State

    constructor (storage: ScopedStorage, fs: TrackedFileSystem)
      ensures this.storage == storage && this.fs == fs
      ensures partialTx == None && restoreSource == None && listing == storage.s
    {
      this.storage := storage;
      this.fs := fs;
      partialTx := None;
      restoreSource := None;
      listing := storage.s;
    }

    ghost function View(): Client
      reads this, fs
    {
      Client(fs.State(), fs.moves, partialTx, restoreSource, listing)
    }

    ghost predicate Valid()
      reads this, fs, storage
    {
      fs.Valid() && ClientValid(View(), storage.s)
    }

    /** assertNoConflicts: a staged path whose stored entry has moved on, exactly if there is one. */
    method FindConflict(deletions: map<Path, RemoteEntry>, uploads: map<Path, RemoteEntry>) returns (conflict: Option<Path>)
      ensures conflict.None? ==> forall p :: !Conflicting(storage.s.visible, fs.baseline, deletions, uploads, p)
      ensures conflict.Some? ==> Conflicting(storage.s.visible, fs.baseline, deletions, uploads, conflict.value)
    {
      hide SameRemoteVersion, AlreadyUploaded;
      var visible := storage.s.visible;
      var todo := deletions.Keys;
      while todo != {}
        invariant todo <= deletions.Keys
        invariant forall p :: p in deletions && p !in todo && p in visible ==> SameRemoteVersion(deletions[p], visible[p])
      {
        var p :| p in todo;
        if p in visible && !SameRemoteVersion(deletions[p], visible[p]) {
          return Some(p);
        }
        todo := todo - {p};
      }
      todo := uploads.Keys;
      while todo != {}
        invariant todo <= uploads.Keys
        invariant forall p :: p in uploads && p !in todo ==> !Conflicting(visible, fs.baseline, map[], uploads, p)
      {
        var p :| p in todo;
        var uploadAlreadyApplied := p in visible && AlreadyUploaded(visible[p], uploads[p]);
        var storageChanged :=
          if p !in fs.baseline then p in visible
          else p !in visible || !SameRemoteVersion(fs.baseline[p], visible[p]);
        if !uploadAlreadyApplied && storageChanged {
          return Some(p);
        }
        todo := todo - {p};
      }
      forall p
        ensures !Conflicting(visible, fs.baseline, deletions, uploads, p)
      {
        assert p in uploads ==> !Conflicting(visible, fs.baseline, map[], uploads, p);
      }
      return None;
    }

    /** receiptForTransaction, then existingIdempotentReceipt: has this commit happened already? */
    method FindReceipt(key: Option<Key>, fingerprint: Fingerprint) returns (found: Option<CommitResult>)
      requires Inv(storage.s) && Settled(storage.s)
      ensures found.None? <==> Prior(partialTx, storage.s.completes, key).None?
      // the commit left unfinished answers with its own fingerprint, or with a legacy one
      ensures forall u :: partialTx == Some(u) && u in storage.s.completes ==>
                var bound := storage.s.completes[u].intent.fingerprint;
                found == Some(if bound == fingerprint || bound.Legacy? then Replayed(u) else KeyConflict)
      // the commit that carries the key answers with its own fingerprint only
      ensures forall u :: !(partialTx.Some? && partialTx.value in storage.s.completes)
                          && u in storage.s.completes && key.Some? && storage.s.completes[u].intent.key == key ==>
                found == Some(if storage.s.completes[u].intent.fingerprint == fingerprint then Replayed(u) else KeyConflict)
    {
      hide Inv, Settled;
      if partialTx.Some? && partialTx.value in storage.s.completes {
        var bound := storage.s.completes[partialTx.value].intent.fingerprint;
        return Some(if bound.Legacy? || bound == fingerprint then Replayed(partialTx.value) else KeyConflict);
      }
      if key.Some? {
        ReceiptIffComplete(storage.s, key.value);
        if key.value in storage.s.idempotency {
          var replay := storage.s.idempotency[key.value];
          if replay.fingerprint.Some? && replay.fingerprint.value != fingerprint {
            return Some(KeyConflict);
          }
          if replay.tx in storage.s.completes {
            var bound := storage.s.completes[replay.tx].intent.fingerprint;
            return Some(if bound.Legacy? || bound == fingerprint then Replayed(replay.tx) else KeyConflict);
          }
        }
      }
      return None;
    }

    /** Nothing is left over from earlier calls, and the baseline is the current listing. */
    method Relist()
      modifies this
      ensures partialTx == None && restoreSource == None && listing == storage.s
    {
      partialTx := None;
      restoreSource := None;
      listing := storage.s;
    }

    /**
     finishPublishedCommit: what is stored becomes the new baseline, with nothing pending.  If
     the listing cannot be rebuilt, the commit fails and the given transaction is kept for a retry.
     */
    method FinishPublishedCommit(onFailure: Option<Tx>) returns (ok: bool)
      requires Valid()
      modifies this, fs
      ensures Valid() && ok == Consistent(storage.s.visible) && !fs.commitInProgress
      ensures View() == if ok then Client(Reset(storage.s.visible), map[], None, None, storage.s)
                        else old(View()).(partialTx := onFailure)
    {
      hide Consistent, TreeFrom, WellFormed, KindsOf, Inv, Extends;
      ExtendsRefl(storage.s);
      ok := fs.FinishCommit(storage.s.visible);
      if ok {
        Relist();
      } else {
        partialTx := onFailure;
        fs.FailCommit();
      }
    }

    /**
     Commit.  Whatever happens it is a step as stated above, and leaves the workspace fit for the
     next call.
     */
    method Commit(req: Request, concurrency: nat, lostFirst: bool, lostLast: bool)
      returns (r: CommitResult, ghost outstanding: set<Path>)
      requires Valid() && Admissible(storage.s, req) && concurrency >= 1
      modifies this, fs, storage
      ensures Valid() && (r.InProgress? <==> old(fs.commitInProgress)) && fs.commitInProgress == r.InProgress?
      ensures r.InProgress? ==> View() == old(View()) && storage.s == old(storage.s)
      ensures !r.InProgress? ==> Ends(old(View()), old(storage.s), req, concurrency, lostFirst || lostLast,
                                      storage.failures > old(storage.failures), r, outstanding, View(), storage.s)
      // published with nobody else's changes in between: the live tree stays, unless a directory was implied by nothing
      ensures r.NewRevision? && Faithful(old(fs.State())) && PlainImplied(old(fs.State())) && StillPublished(old(fs.baseline), old(storage.s)) ==>
                (Alike(fs.inner, old(fs.inner)) <==> DirectoriesCovered(old(fs.State())))
    {
      hide Inv, Steady, Published, RecordsInv, Settled, CommitStep, Recovered, ClientValid, Ends, Spares, AsPublished,
           MovesResolve, PlannedChanges, Drafts, Refreshed, TrackedFileSystem.Valid,
           Faithful, PlainImplied, StillPublished, Alike, DirectoriesCovered;
      ghost var c, s, failures := View(), storage.s, storage.failures;
      StartsQuietly(c, s, concurrency);
      var context := Resolved(req.context, restoreSource, req.correlation);
      var ok := fs.BeginCommit();
      if !ok {
        return InProgress, {};
      }
      var uploads := Drafts(fs.State(), req.now);
      DraftsAre(fs.State(), req.now);
      if !MovesResolve(fs.State(), fs.moves) {
        fs.FailCommit();
        StoppedStep(c, s, req, s);
        EndsAlone(c, s, req, concurrency, lostFirst || lostLast, false, Failed, c, s);
        return Failed, {};
      }
      var fingerprint := Current(DigestOf(PlannedChanges(fs.State(), fs.moves, uploads), context));
      var recovery := storage.RecoverWorkspace(req.now);
      if !recovery.Finished? {
        fs.FailCommit();
        StoppedStep(c, s, req, storage.s);
        EndsAlone(c, s, req, concurrency, lostFirst || lostLast, true, Failed, c, storage.s);
        return Failed, {};
      }
      if recovery.recovered {
        fs.RefreshBaseline(storage.s.visible);
        listing := storage.s;
      }
      AfterRecovery(c, s, View(), storage.s);
      r, outstanding := AnswerOrPublish(req, context, fingerprint, uploads, concurrency, lostFirst, lostLast, c, s, failures);
      KeepsTree(c, s, req, concurrency, lostFirst || lostLast, storage.failures > failures, r, outstanding, View(), storage.s);
    }

    /** The part of a commit after its recovery: a receipt found, a conflict, or the publication. */
    method AnswerOrPublish(req: Request, context: Context, fingerprint: Fingerprint, uploads: map<Path, RemoteEntry>,
                           concurrency: nat, lostFirst: bool, lostLast: bool,
                           ghost c: Client, ghost s: State, ghost failures: nat)
      returns (r: CommitResult, ghost outstanding: set<Path>)
      requires Valid() && Recovered(c, s, View(), storage.s) && Admissible(s, req) && concurrency >= 1
      requires MovesResolve(c.t, c.moves) && fingerprint == FingerprintFor(c, req) && failures <= storage.failures
      requires context == ContextOf(c, req) && uploads == Drafts(c.t, req.now)
      modifies this, fs, storage
      ensures Valid() && !fs.commitInProgress && !r.InProgress?
      ensures Ends(c, s, req, concurrency, lostFirst || lostLast, storage.failures > failures, r, outstanding, View(), storage.s)
    {
      hide Inv, Steady, Published, RecordsInv, Settled, CommitStep, Recovered, ClientValid, Ends,
           MovesResolve, Drafts, FingerprintFor, Conflicting, Reset, TrackedFileSystem.Valid;
      ghost var c1, s1, lost, failed := View(), storage.s, lostFirst || lostLast, storage.failures > failures;
      RecoveredFacts(c, s, c1, s1);
      var found := FindReceipt(context.idempotencyKey, fingerprint);
      ghost var prior := Prior(partialTx, storage.s.completes, context.idempotencyKey);
      if found.Some? {
        r := found.value;
        if r.KeyConflict? {
          fs.FailCommit();
          AnsweredStep(c, s, req, c1, s1, r, c1);
        } else {
          var ok := FinishPublishedCommit(partialTx);
          if ok {
            ValidMeansClient(this);
            AnsweredStep(c, s, req, c1, s1, r, View());
          } else {
            FailedStep(c, s, req, c1, s1);
            r := Failed;
          }
        }
        EndsAlone(c, s, req, concurrency, lost, failed, r, View(), s1);
        return r, {};
      }
      var conflict := FindConflict(fs.deletions, uploads);
      if conflict.Some? {
        fs.FailCommit();
        ConflictStep(c, s, req, c1, s1, conflict.value);
        EndsAlone(c, s, req, concurrency, lost, failed, Conflict(conflict.value), c1, s1);
        return Conflict(conflict.value), {};
      }
      if !MovesResolve(fs.State(), fs.moves) {
        fs.FailCommit();
        FailedStep(c, s, req, c1, s1);
        EndsAlone(c, s, req, concurrency, lost, failed, Failed, c1, s1);
        return Failed, {};
      }
      ChecksPassed(c, s, req, c1, s1);
      r, outstanding := PublishStaged(req, context, fingerprint, uploads, concurrency, lostFirst, lostLast, c, s, failures);
    }

    method PublishStaged(req: Request, context: Context, fingerprint: Fingerprint, uploads: map<Path, RemoteEntry>,
                         concurrency: nat, lostFirst: bool, lostLast: bool,
                         ghost c: Client, ghost s: State, ghost failures: nat)
      returns (r: CommitResult, ghost outstanding: set<Path>)
      requires Valid() && Recovered(c, s, View(), storage.s) && Admissible(s, req) && concurrency >= 1
      requires PastChecks(c, s, req, View(), storage.s) && failures <= storage.failures
      requires MovesResolve(c.t, c.moves) && fingerprint == FingerprintFor(c, req)
      requires context == ContextOf(c, req) && uploads == Drafts(c.t, req.now)
      modifies this, fs, storage
      ensures Valid() && !fs.commitInProgress && !r.InProgress?
      ensures Ends(c, s, req, concurrency, lostFirst || lostLast, storage.failures > failures, r, outstanding, View(), storage.s)
    {
      hide Inv, Steady, Committed, Published, RecordsInv, Settled, CommitStep, Recovered, ClientValid, PastChecks, Ends, Spares,
           Drafts, Ready, Reset, Few, MovesResolve, FingerprintFor, IntentNames, TrackedFileSystem.Valid;
      ghost var c1, s1, lost := View(), storage.s, lostFirst || lostLast;
      ReadyToPublish(c, s, req, c1, s1);
      UploadsDisjoint(c, s, c1, s1, req.now);
      var outcome;
      outcome, outstanding := storage.Publish(req.tx, req.revision, context.idempotencyKey, fingerprint, fs.deletions.Keys,
                                              uploads, req.now, concurrency, lostFirst, lostLast);
      PublishedFromRecovered(c, s, req, c1, s1, storage.s);
      if outcome.Stopped? {
        if outcome.intentWritten {
          partialTx := Some(req.tx);
        }
        fs.FailCommit();
        PartialStaysValid(c1, req.tx, storage.s);
        PartialStep(c, s, req, c1, s1, View(), storage.s);
        EndsFailing(c, s, req, concurrency, lost, storage.failures > failures, outstanding, View(), storage.s);
        return Failed, outstanding;
      }
      PublishedAtRest(s1, storage.s, req.tx, TreeOf(Overlay(s1.visible, c1.t.deletions.Keys, uploads)));
      var ok := FinishPublishedCommit(Some(req.tx));
      ValidMeansClient(this);
      if ok {
        PublishedStep(c, s, req, c1, s1, View(), storage.s);
        r := NewRevision;
      } else {
        PartialStep(c, s, req, c1, s1, View(), storage.s);
        r := Failed;
      }
      EndsAlone(c, s, req, concurrency, lost, storage.failures > failures, r, View(), storage.s);
      outstanding := {};
    }

    /** Discard: back to the baseline, or after a partial commit back to what recovery leaves. */
    method Discard(now: nat) returns (ok: bool)
      requires Valid()
      modifies this, fs, storage
      ensures Valid() && DiscardStep(old(View()), old(storage.s), ok, View(), storage.s)
      ensures !ok ==> || storage.failures > old(storage.failures) || !Consistent(old(fs.baseline)) || !Consistent(storage.s.visible)
                      || (old(fs.commitInProgress) && old(partialTx).None?)
    {
      if partialTx.None? {
        ok := DiscardChanges();
      } else {
        ok := DiscardPartial(now);
      }
    }

    method DiscardChanges() returns (ok: bool)
      requires Valid() && partialTx.None?
      modifies this, fs
      ensures Valid() && DiscardStep(old(View()), storage.s, ok, View(), storage.s)
      ensures ok == (Consistent(old(fs.baseline)) && !old(fs.commitInProgress))
    {
      ghost var c := View();
      hide Inv, Consistent, Reset, ClientValid, DiscardStep, TrackedFileSystem.Valid;
      ok := !fs.commitInProgress;
      if ok {
        ok := fs.FinishCommit(fs.baseline);
      }
      if ok {
        restoreSource := None;
      }
      DiscardedBaseline(c, storage.s, ok, View());
    }

    method DiscardPartial(now: nat) returns (ok: bool)
      requires Valid() && partialTx.Some?
      modifies this, fs, storage
      ensures Valid() && DiscardStep(old(View()), old(storage.s), ok, View(), storage.s)
      ensures !ok ==> storage.failures > old(storage.failures) || !Consistent(storage.s.visible)
    {
      hide Inv, Steady, Published, RecordsInv, Settled, Consistent, Reset, ClientValid, DiscardStep, TrackedFileSystem.Valid,
           Spares, AsPublished;
      ghost var c, s := View(), storage.s;
      StartsQuietly(c, s, 0);
      var recovery := storage.RecoverWorkspace(now);
      ok := recovery.Finished?;
      if ok {
        ok := fs.FinishCommit(storage.s.visible);
      }
      if ok {
        Relist();
      }
      DiscardedPartial(c, s, ok, View(), storage.s);
    }

    /** Restore stages a recorded revision as the new live tree. */
    method Restore(revision: Rev) returns (ok: bool)
      requires Valid()
      modifies this, fs
      ensures Valid() && ok == (Restorable(storage.s, revision) && !fs.commitInProgress)
      ensures View() == if ok then RestoreStep(old(View()), storage.s, revision) else old(View())
      // the next commit names the revision restored, and no move is left over
      ensures ok ==> restoreSource == Some(revision) && fs.moves == map[] && partialTx == old(partialTx)
    {
      hide Inv, Extends, Consistent, TreeFrom, StageTarget, WellFormed, KindsOf, Stored;
      if storage.s.head.None? || revision !in storage.s.revisions || fs.commitInProgress
         || !Stored(storage.s.revisions[revision].entries, storage.s.objects) {
        return false;
      }
      var entries := HistoricalEntries(storage.s.revisions[revision].entries, storage.s.objects);
      if !Consistent(entries) {
        return false;
      }
      StagedBaseline(fs.State(), entries);
      var staged := fs.StageRemoteTree(entries);
      restoreSource := Some(revision);
      return true;
    }
  }

  lemma ValidMeansClient(w: StorageWorkspace)
    requires w.Valid()
    ensures ClientValid(w.View(), w.storage.s)
  {
  }

  /** Opening a workspace recovers the store first; the listing then is what is published. */
  method OpenWorkspace(storage: ScopedStorage, now: nat) returns (w: StorageWorkspace?)
    requires Inv(storage.s)
    modifies storage
    ensures Steady(old(storage.s), storage.s) && Inv(storage.s)
    ensures LogInIntents(old(storage.s)) && Spares(old(storage.s), storage.s, {})
    ensures w != null ==> fresh(w) && fresh(w.fs) && w.storage == storage && w.Valid() && !w.fs.commitInProgress
    ensures w != null ==> w.View() == Client(Reset(storage.s.visible), map[], None, None, storage.s)
    ensures w != null ==> TreeOf(storage.s.visible) == Published(old(storage.s)) && Faithful(w.fs.State())
    ensures w == null ==> storage.failures > old(storage.failures) || !Consistent(storage.s.visible)
  {
    hide Steady, Published, RecordsInv, Consistent, TreeFrom, KindsOf, Inv, Faithful, Extends, WellFormed, Spares, AsPublished;
    SteadyRefl(storage.s);
    var recovery := storage.RecoverWorkspace(now);
    SteadyInv(old(storage.s), storage.s);
    if !recovery.Finished? || !Consistent(storage.s.visible) {
      return null;
    }
    ResetFaithful(storage.s.visible);
    ExtendsRefl(storage.s);
    var fs := new TrackedFileSystem(storage.s.visible);
    w := new StorageWorkspace(storage, fs);
  }
}
