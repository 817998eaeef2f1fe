/** The Postgres workspace: commits, redactions, restores, and an abstract server behind them
    (backend/workspace.ts, commit-attempt.ts, committed-tree.ts). */
module Backend {
  import opened Types
  import opened Commits
  import opened MemoryTree
  import opened Tracking
  import opened TrackingRuns
  import opened TrackedFs

  type Revision = nat
  type TxId = nat
  type Documents = map<Path, Body>

  // ---------------------------------------------------------------- what is sent

  /** The staged changes as the receipt and the fingerprint describe them. */
  datatype Changes = Changes(deletions: map<Path, RemoteEntry>, moves: map<Path, Path>, documents: Documents)

  type Fingerprint = Digest<Changes>

  datatype Attempt = Attempt(context: Context, fingerprint: Fingerprint, tx: TxId)

  datatype CommitInput = CommitInput(
    changes: Changes,
    context: Context,
    expectedRevision: Option<Revision>,
    expectedEpoch: Option<nat>,
    fingerprint: Fingerprint,
    source: Option<Revision>,
    tx: TxId)

  // ---------------------------------------------------------------- the server

  /** An accepted commit and the documents the server stores for it. */
  datatype Accepted = Accepted(input: CommitInput, stored: Documents)

  /** `fence` is the oldest revision that a restore may still start from. */
  datatype Server = Server(log: seq<Accepted>, epoch: nat, fence: nat)

  datatype Reply =
    | Receipt(revision: Revision, replayed: bool)
    | RestoreCrossesRedaction
    | RedactionInvalidated
    | IdempotencyConflict
    | HeadConflict

  function Head(s: Server): Option<Revision> {
    if s.log == [] then None else Some(|s.log| - 1)
  }

  predicate Knows(s: Server, tx: TxId) {
    exists i :: 0 <= i < |s.log| && s.log[i].input.tx == tx
  }

  function Position(s: Server, tx: TxId): (i: nat)
    requires Knows(s, tx)
    ensures i < |s.log| && s.log[i].input.tx == tx
    ensures forall j :: 0 <= j < i ==> s.log[j].input.tx != tx
  {
    FirstPosition(s.log, tx, 0)
  }

  function FirstPosition(log: seq<Accepted>, tx: TxId, from: nat): (i: nat)
    requires exists i :: from <= i < |log| && log[i].input.tx == tx
    ensures from <= i < |log| && log[i].input.tx == tx && forall j :: from <= j < i ==> log[j].input.tx != tx
    decreases |log| - from
  {
    if log[from].input.tx == tx then from else FirstPosition(log, tx, from + 1)
  }

  /** The server's commit: the fence, then the redaction epoch, then the replay of a known transaction, then the head. */
  function Accept(s: Server, input: CommitInput, stored: Documents): (Server, Reply) {
    if input.source.Some? && input.source.value < s.fence then (s, RestoreCrossesRedaction)
    else if input.expectedEpoch != Some(s.epoch) then (s, RedactionInvalidated)
    else if Knows(s, input.tx) then
      var i := Position(s, input.tx);
      (s, if s.log[i].input == input then Receipt(i, true) else IdempotencyConflict)
    else if input.expectedRevision != Head(s) then (s, HeadConflict)
    else (s.(log := s.log + [Accepted(input, stored)]), Receipt(|s.log|, false))
  }

  function Redacted(s: Server, fence: nat): Server {
    s.(epoch := s.epoch + 1, fence := if fence > s.fence then fence else s.fence)
  }

  // ---------------------------------------------------------------- snapshots

  datatype Snapshot = Snapshot(documents: Documents, revision: Option<Revision>, epoch: Option<nat>)

  function Loaded(s: Server): Snapshot {
    Snapshot(if s.log == [] then map[] else s.log[|s.log| - 1].stored, Head(s), Some(s.epoch))
  }

  function EntryFrom(content: Body): RemoteEntry {
    RemoteEntry(File, FILE_MODE, content, Some(Sha256(content)), None, 0, None, None)
  }

  function EntriesFrom(documents: Documents): (r: map<Path, RemoteEntry>)
    ensures r.Keys == documents.Keys
  {
    map p | p in documents :: EntryFrom(documents[p])
  }

  /** committedTree: the previous documents without the deleted and the moved, with the prepared ones on top. */
  function CommittedTree(previous: Documents, deletions: set<Path>, moved: set<Path>, prepared: Documents): Documents {
    (previous - deletions - moved) + prepared
  }

  method WithoutEach(documents: Documents, paths: set<Path>) returns (r: Documents)
    ensures r == documents - paths
  {
    r := documents;
    var todo := paths;
    while todo != {}
      invariant todo <= paths && r == documents - (paths - todo)
    {
      var p :| p in todo;
      r := r - {p};
      todo := todo - {p};
    }
  }

  method WithEach(documents: Documents, prepared: Documents) returns (r: Documents)
    ensures r == documents + prepared
  {
    r := documents;
    var todo := prepared.Keys;
    while todo != {}
      invariant todo <= prepared.Keys
      invariant r == documents + (prepared - todo)
    {
      var p :| p in todo;
      assert prepared - (todo - {p}) == (prepared - todo)[p := prepared[p]];
      r := r[p := prepared[p]];
      todo := todo - {p};
    }
    assert prepared - todo == prepared;
  }

  method BuildCommittedTree(previous: Documents, deletions: set<Path>, moved: set<Path>, prepared: Documents)
    returns (documents: Documents)
    ensures documents == CommittedTree(previous, deletions, moved, prepared)
  {
    documents := WithoutEach(previous, deletions);
    documents := WithoutEach(documents, moved);
    documents := WithEach(documents, prepared);
  }

  // ---------------------------------------------------------------- the workspace as a value

  datatype Workspace = Workspace(
    fs: Tracked,
    moves: map<Path, Path>,
    busy: bool,
    snapshot: Snapshot,
    pending: Option<Attempt>,
    invalidated: bool,
    source: Option<Revision>)

  /** A directory with a file or a link below it comes into being with them and is no change of its own. */
  predicate Derived(t: Tree, p: Path) {
    p in t && t[p].DirNode? && exists q :: q in t && q != p && Within(q, p) && !t[q].DirNode?
  }

  /** persistentPending: what is uploaded. */
  function Uploads(t: Tracked): set<Path> {
    set p | p in t.upserts && !Derived(t.inner, p)
  }

  /** Text files with the usual mode are all the text tree holds. */
  predicate Storable(t: Tree, p: Path) {
    p in t && t[p].FileNode? && t[p].mode == FILE_MODE && '\0' !in t[p].body
  }

  /** prepareChanges with the plain codec. */
  function PreparedTexts(t: Tracked): Option<Documents> {
    if forall p :: p in Uploads(t) ==> Storable(t.inner, p)
    then Some(map p | p in Uploads(t) && Storable(t.inner, p) :: t.inner[p].body)
    else None
  }

  function CommitAttempt(previous: Option<Attempt>, context: Context, fingerprint: Fingerprint, uuid: TxId): Attempt {
    if previous.Some? && previous.value.fingerprint == fingerprint then previous.value
    else Attempt(context, fingerprint, uuid)
  }

  datatype Sending = Barred | Unprepared | Sends(attempt: Attempt, input: CommitInput)

  /** What a commit sends to the backend, if it gets that far. */
  function ToSend(w: Workspace, given: Option<Context>, correlation: string, uuid: TxId): Sending {
    if w.invalidated || w.busy then Barred
    else
      var prepared := PreparedTexts(w.fs);
      if prepared.None? then Unprepared
      else
        var supplied := if given.Some? then given else if w.pending.Some? then Some(w.pending.value.context) else None;
        var context := Resolved(supplied, w.source, correlation);
        var changes := Changes(w.fs.deletions, w.moves, prepared.value);
        var fingerprint := DigestOf(changes, context);
        var attempt := CommitAttempt(w.pending, context, fingerprint, uuid);
        Sends(attempt, CommitInput(changes, context, w.snapshot.revision, w.snapshot.epoch, fingerprint, w.source, attempt.tx))
  }

  /** The network: the reply arrives, or it is lost, or already the request is. */
  datatype Delivery = Delivered | ReplyLost | RequestLost

  function Reached(s: Server, input: CommitInput, stored: Documents, delivery: Delivery): Server {
    if delivery.RequestLost? then s else Accept(s, input, stored).0
  }

  /** What the workspace makes of a receipt: its own copy of the new tree, with nothing pending. */
  function Finished(w: Workspace, prepared: Documents, revision: Revision): Workspace {
    var tree := CommittedTree(w.snapshot.documents, w.fs.deletions.Keys, w.moves.Keys, prepared);
    var next := w.(snapshot := Snapshot(tree, Some(revision), w.snapshot.epoch), pending := None);
    if Consistent(EntriesFrom(tree)) then next.(fs := Reset(EntriesFrom(tree)), moves := map[], source := None) else next
  }

  /** The workspace after a commit and the server after it. */
  function Committed(w: Workspace, s: Server, given: Option<Context>, correlation: string, uuid: TxId,
                     stored: Documents, delivery: Delivery): (Workspace, Server) {
    match ToSend(w, given, correlation, uuid)
    case Barred => (w, s)
    case Unprepared => (w.(pending := None), s)
    case Sends(attempt, input) =>
      var server := Reached(s, input, stored, delivery);
      if !delivery.Delivered? then (w.(pending := Some(attempt)), server)
      else
        var reply := Accept(s, input, stored).1;
        (if reply.Receipt? then Finished(w, input.changes.documents, reply.revision) else w.(pending := None), server)
  }

  function Cleared(w: Workspace): Workspace {
    w.(fs := Reset(map[]), moves := map[], busy := false, snapshot := Snapshot(map[], None, None),
       pending := None, invalidated := true, source := None)
  }

  /** A redaction: refused by the server, or applied there; its reply and the reload may each fail. */
  datatype Redaction = RefusedRedaction | AppliedRedaction(fence: nat)

  function AfterRedaction(w: Workspace, s: Server, r: Redaction, delivery: Delivery, reloads: bool): (Workspace, Server) {
    if w.busy then (w, s)
    else
      var server := if r.AppliedRedaction? && !delivery.RequestLost? then Redacted(s, r.fence) else s;
      if !delivery.Delivered? then (Cleared(w), server)
      else if r.RefusedRedaction? then (w, server)
      else
        var loaded := Loaded(server);
        if reloads && Consistent(EntriesFrom(loaded.documents))
        then (Cleared(w).(fs := Reset(EntriesFrom(loaded.documents)), snapshot := loaded, invalidated := false), server)
        else (Cleared(w), server)
  }

  function Discarded(w: Workspace): Workspace {
    if w.busy || !Consistent(w.fs.baseline) then w
    else w.(fs := Reset(w.fs.baseline), moves := map[], pending := None, source := None)
  }

  predicate Loadable(s: Server, revision: Revision) {
    s.fence <= revision < |s.log|
  }

  function Restored(w: Workspace, s: Server, revision: Revision): Workspace {
    if !Loadable(s, revision) || w.snapshot.revision.None? || w.busy then w
    else
      var entries := EntriesFrom(s.log[revision].stored);
      if !Consistent(entries) then w
      else w.(fs := StageTarget(w.fs, entries), moves := map[], source := Some(revision))
  }

  // ---------------------------------------------------------------- the same, as objects

  class WorkspaceBackend {
    var s: Server

    constructor ()
      ensures s == Server([], 0, 0)
    {
      s := Server([], 0, 0);
    }
  }

  /** What the caller is told: the server's reply, or an error.  `Unbuilt` is the error on a receipt whose tree cannot be rebuilt. */
  datatype CommitOutcome = Answered(reply: Reply) | Unknown | NotSent | Unbuilt

  class BackendWorkspace {
    const backend: WorkspaceBackend
    const fs: TrackedFileSystem
    var snapshot: Snapshot
    var pendingCommit: Option<Attempt>
    var redactionInvalidated: bool
    var restoreSourceRevision: Option<Revision>

    function View(): Workspace
      reads this, fs
    {
      Workspace(fs.State(), fs.moves, fs.commitInProgress, snapshot, pendingCommit, redactionInvalidated, restoreSourceRevision)
    }

    constructor (backend: WorkspaceBackend)
      requires Consistent(EntriesFrom(Loaded(backend.s).documents))
      ensures this.backend == backend && fresh(fs) && fs.Valid()
      ensures var loaded := Loaded(backend.s);
              View() == Workspace(Reset(EntriesFrom(loaded.documents)), map[], false, loaded, None, false, None)
    {
      this.backend := backend;
      var loaded := Loaded(backend.s);
      fs := new TrackedFileSystem(EntriesFrom(loaded.documents));
      snapshot := loaded;
      pendingCommit, redactionInvalidated, restoreSourceRevision := None, false, None;
    }

    method Commit(given: Option<Context>, correlation: string, uuid: TxId, stored: Documents, delivery: Delivery)
      returns (r: CommitOutcome)
      modifies this, fs, backend
      ensures (View(), backend.s) == Committed(old(View()), old(backend.s), given, correlation, uuid, stored, delivery)
      ensures r.NotSent? <==> !ToSend(old(View()), given, correlation, uuid).Sends?
      ensures r.Unknown? <==> ToSend(old(View()), given, correlation, uuid).Sends? && !delivery.Delivered?
      // a receipt names the record of what was sent: the one just added, or an earlier one
      ensures r.Answered? && r.reply.Receipt? ==>
                var input := ToSend(old(View()), given, correlation, uuid).input;
                && r.reply.revision < |backend.s.log| && backend.s.log[r.reply.revision].input == input
                && (r.reply.replayed ==> backend.s == old(backend.s))
                && (!r.reply.replayed ==> r.reply.revision == |old(backend.s).log|
                                          && backend.s.log == old(backend.s).log + [Accepted(input, stored)])
                && snapshot.revision == Some(r.reply.revision) && pendingCommit == None && restoreSourceRevision == None
                && fs.upserts == {} && fs.deletions == map[] && fs.moves == map[]
      // the same record is there when the new tree cannot be rebuilt; what is staged then stays
      ensures r.Unbuilt? ==>
                && (exists n :: 0 <= n < |backend.s.log| && backend.s.log[n].input == ToSend(old(View()), given, correlation, uuid).input)
                && (backend.s == old(backend.s) ||
                    backend.s.log == old(backend.s).log + [Accepted(ToSend(old(View()), given, correlation, uuid).input, stored)])
      // nothing is added by a refusal, by a commit that was not sent, or by a request that was lost
      ensures (r.Answered? && !r.reply.Receipt?) || r.NotSent? || delivery.RequestLost? ==> backend.s == old(backend.s)
      // an attempt stays for the retry exactly while its outcome is unknown
      ensures r.Unknown? ==> pendingCommit == Some(ToSend(old(View()), given, correlation, uuid).attempt)
      ensures r.Answered? || r.Unbuilt? ==> pendingCommit == None
      // and whoever gets no receipt keeps what is staged
      ensures !(r.Answered? && r.reply.Receipt?) ==>
                fs.State() == old(fs.State()) && fs.moves == old(fs.moves) && restoreSourceRevision == old(restoreSourceRevision)
    {
      hide Reset, PreparedTexts, Consistent, Accept, CommittedTree, EntriesFrom, Resolved, CommitAttempt, DigestOf,
           ToSend, Committed, Finished, Reached;
      CommittedIs(View(), backend.s, given, correlation, uuid, stored, delivery);
      if redactionInvalidated {
        return NotSent;
      }
      var supplied := if given.Some? then given else if pendingCommit.Some? then Some(pendingCommit.value.context) else None;
      var context := Resolved(supplied, restoreSourceRevision, correlation);
      var began := fs.BeginCommit();
      if !began {
        return NotSent;
      }
      var prepared := PreparedTexts(fs.State());
      if prepared.None? {
        fs.FailCommit();
        pendingCommit := None;
        return NotSent;
      }
      var changes := Changes(fs.deletions, fs.moves, prepared.value);
      var fingerprint := DigestOf(changes, context);
      var attempt := CommitAttempt(pendingCommit, context, fingerprint, uuid);
      pendingCommit := Some(attempt);
      var input := CommitInput(changes, context, snapshot.revision, snapshot.epoch, fingerprint, restoreSourceRevision, attempt.tx);
      var (server, reply) := Accept(backend.s, input, stored);
      AcceptAdds(backend.s, input, stored);
      SentIsCommitted(old(View()), backend.s, given, correlation, uuid, stored, delivery, attempt, input);
      if !delivery.RequestLost? {
        backend.s := server;
      }
      if !delivery.Delivered? {
        fs.FailCommit();
        return Unknown;
      }
      if !reply.Receipt? {
        fs.FailCommit();
        pendingCommit := None;
        return Answered(reply);
      }
      var tree := BuildCommittedTree(snapshot.documents, fs.deletions.Keys, fs.moves.Keys, prepared.value);
      snapshot := Snapshot(tree, Some(reply.revision), snapshot.epoch);
      var finished := fs.FinishCommit(EntriesFrom(tree));
      pendingCommit := None;
      if !finished {
        fs.FailCommit();
        return Unbuilt;
      }
      restoreSourceRevision := None;
      ResetIsClean(EntriesFrom(tree));
      return Answered(reply);
    }

    method Discard() returns (ok: bool)
      modifies this, fs
      ensures View() == Discarded(old(View()))
      ensures ok == (!old(fs.commitInProgress) && Consistent(old(fs.baseline)))
      ensures fs.baseline == old(fs.baseline) && snapshot == old(snapshot) && redactionInvalidated == old(redactionInvalidated)
      ensures if ok then fs.upserts == {} && fs.deletions == map[] && fs.moves == map[] && pendingCommit == None && restoreSourceRevision == None
              else View() == old(View())
    {
      hide Reset, Consistent;
      ResetIsClean(fs.baseline);
      if fs.commitInProgress {
        return false;
      }
      ok := fs.FinishCommit(fs.baseline);
      if ok {
        pendingCommit := None;
        restoreSourceRevision := None;
      }
    }

    method ClearSnapshot()
      modifies this
      ensures redactionInvalidated && pendingCommit == None && restoreSourceRevision == None
      ensures snapshot == Snapshot(map[], None, None)
    {
      redactionInvalidated := true;
      pendingCommit := None;
      restoreSourceRevision := None;
      snapshot := Snapshot(map[], None, None);
    }

    /** Nothing cached or staged survives a redaction that was, or may have been, applied. */
    method Redact(redaction: Redaction, delivery: Delivery, reloads: bool) returns (ok: bool)
      modifies this, fs, backend
      ensures (View(), backend.s) == AfterRedaction(old(View()), old(backend.s), redaction, delivery, reloads)
      ensures ok <==> && !old(fs.commitInProgress) && redaction.AppliedRedaction? && delivery.Delivered? && reloads
                      && Consistent(EntriesFrom(Loaded(backend.s).documents))
      ensures ok ==> !redactionInvalidated && snapshot == Loaded(backend.s)
      // the server's epoch moves on exactly if a redaction was applied there
      ensures backend.s.log == old(backend.s).log
      ensures backend.s.epoch == old(backend.s).epoch +
                if !old(fs.commitInProgress) && redaction.AppliedRedaction? && !delivery.RequestLost? then 1 else 0
      // after one that was, or may have been, applied nothing is staged, and without a reload nothing may be committed
      ensures !old(fs.commitInProgress) && (redaction.AppliedRedaction? || !delivery.Delivered?) ==>
                && fs.upserts == {} && fs.deletions == map[] && fs.moves == map[] && pendingCommit == None && restoreSourceRevision == None
                && (!ok ==> redactionInvalidated && snapshot == Snapshot(map[], None, None))
    {
      hide Reset, Consistent, EntriesFrom, Loaded, Redacted;
      RedactedIs(backend.s, redaction);
      ResetIsClean(map[]);
      var began := fs.BeginCommit();
      if !began {
        return false;
      }
      if redaction.AppliedRedaction? && !delivery.RequestLost? {
        backend.s := Redacted(backend.s, redaction.fence);
      }
      if !delivery.Delivered? {
        ClearSnapshot();
        EmptyIsConsistent();
        var cleared := fs.FinishCommit(map[]);
        return false;
      }
      if redaction.RefusedRedaction? {
        fs.FailCommit();
        return false;
      }
      ClearSnapshot();
      var loaded := Loaded(backend.s);
      if reloads && Consistent(EntriesFrom(loaded.documents)) {
        snapshot := loaded;
        ResetIsClean(EntriesFrom(loaded.documents));
        ok := fs.FinishCommit(EntriesFrom(loaded.documents));
        redactionInvalidated := false;
        return;
      }
      EmptyIsConsistent();
      var cleared := fs.FinishCommit(map[]);
      return false;
    }

    method Restore(revision: Revision) returns (ok: bool)
      requires fs.Valid()
      modifies this, fs
      ensures View() == Restored(old(View()), backend.s, revision)
      ensures ok <==> && backend.s.fence <= revision < |backend.s.log| && old(snapshot).revision.Some? && !old(fs.commitInProgress)
                      && Consistent(EntriesFrom(backend.s.log[revision].stored))
      ensures if ok then restoreSourceRevision == Some(revision) else View() == old(View())
    {
      hide Reset, StageTarget, Consistent, EntriesFrom;
      if !Loadable(backend.s, revision) || snapshot.revision.None? || fs.commitInProgress {
        return false;
      }
      var entries := EntriesFrom(backend.s.log[revision].stored);
      if !Consistent(entries) {
        return false;
      }
      var staged := fs.StageRemoteTree(entries);
      restoreSourceRevision := Some(revision);
      return true;
    }
  }

  lemma CommittedIs(w: Workspace, s: Server, given: Option<Context>, correlation: string, uuid: TxId, stored: Documents, delivery: Delivery)
    ensures w.invalidated || w.busy ==>
              ToSend(w, given, correlation, uuid).Barred? && Committed(w, s, given, correlation, uuid, stored, delivery) == (w, s)
    ensures !w.invalidated && !w.busy ==>
              var prepared := PreparedTexts(w.fs);
              if prepared.None?
              then ToSend(w, given, correlation, uuid).Unprepared?
                   && Committed(w, s, given, correlation, uuid, stored, delivery) == (w.(pending := None), s)
              else
                var supplied := if given.Some? then given else if w.pending.Some? then Some(w.pending.value.context) else None;
                var context := Resolved(supplied, w.source, correlation);
                var changes := Changes(w.fs.deletions, w.moves, prepared.value);
                var attempt := CommitAttempt(w.pending, context, DigestOf(changes, context), uuid);
                ToSend(w, given, correlation, uuid) ==
                Sends(attempt, CommitInput(changes, context, w.snapshot.revision, w.snapshot.epoch, DigestOf(changes, context), w.source, attempt.tx))
  {
  }

  lemma SentIsCommitted(w: Workspace, s: Server, given: Option<Context>, correlation: string, uuid: TxId, stored: Documents, delivery: Delivery,
                        attempt: Attempt, input: CommitInput)
    requires ToSend(w, given, correlation, uuid) == Sends(attempt, input)
    ensures var (server, reply) := Accept(s, input, stored);
            var next := if delivery.RequestLost? then s else server;
            Committed(w, s, given, correlation, uuid, stored, delivery) ==
            if !delivery.Delivered? then (w.(pending := Some(attempt)), next)
            else if !reply.Receipt? then (w.(pending := None), next)
            else
              var tree := CommittedTree(w.snapshot.documents, w.fs.deletions.Keys, w.moves.Keys, input.changes.documents);
              var kept := w.(snapshot := Snapshot(tree, Some(reply.revision), w.snapshot.epoch), pending := None);
              (if Consistent(EntriesFrom(tree)) then kept.(fs := Reset(EntriesFrom(tree)), moves := map[], source := None) else kept, next)
  {
    hide Accept, ToSend, Reset, Consistent, EntriesFrom, CommittedTree;
  }

  lemma AcceptAdds(s: Server, input: CommitInput, stored: Documents)
    ensures var (server, reply) := Accept(s, input, stored);
            && (!reply.Receipt? || reply.replayed ==> server == s)
            && (reply.Receipt? ==> reply.revision < |server.log| && server.log[reply.revision].input == input)
            && (reply.Receipt? && !reply.replayed ==> reply.revision == |s.log| && server.log == s.log + [Accepted(input, stored)])
  {
  }

  lemma RedactedIs(s: Server, r: Redaction)
    ensures r.AppliedRedaction? ==> Redacted(s, r.fence).log == s.log && Redacted(s, r.fence).epoch == s.epoch + 1
  {
  }

  lemma ResetIsClean(entries: map<Path, RemoteEntry>)
    ensures Reset(entries).upserts == {} && Reset(entries).deletions == map[] && Reset(entries).baseline == entries
  {
  }

  lemma EmptyIsConsistent()
    ensures Consistent(map[])
  {
  }
}
