/** What the Postgres workspaces promise over whole runs: redaction safety, retries, exact trees. */
module BackendRuns {
  import opened Types
  import opened Commits
  import opened MemoryTree
  import opened Tracking
  import TR = TrackingRuns
  import opened Backend

  // ---------------------------------------------------------------- the server

  ghost predicate UniqueTx(s: Server) {
    forall i, j :: 0 <= i < j < |s.log| ==> s.log[i].input.tx != s.log[j].input.tx
  }

  /** Accepting appends at most one revision, never a second one for a transaction, and only under the current epoch. */
  lemma AcceptFacts(s: Server, input: CommitInput, stored: Documents)
    requires UniqueTx(s)
    ensures var (r, reply) := Accept(s, input, stored);
            && UniqueTx(r) && r.epoch == s.epoch && r.fence == s.fence
            && (r == s || r.log == s.log + [Accepted(input, stored)])
            && (r != s ==> !Knows(s, input.tx) && input.expectedEpoch == Some(s.epoch) && input.expectedRevision == Head(s))
            && (reply.Receipt? ==> reply.revision < |r.log| && r.log[reply.revision].input == input)
            && (reply.Receipt? <==> Knows(r, input.tx) && input.expectedEpoch == Some(s.epoch)
                                    && r.log[Position(r, input.tx)].input == input
                                    && (input.source.Some? ==> input.source.value >= s.fence))
  {
    var (r, reply) := Accept(s, input, stored);
    if r != s {
      assert r.log[|s.log|].input == input;
      assert forall i :: 0 <= i < |s.log| ==> r.log[i] == s.log[i] && s.log[i].input.tx != input.tx;
    }
  }

  /** The server may take the commit into account: its source is not behind a redaction, and its snapshot knows of the last one. */
  predicate Admits(s: Server, input: CommitInput) {
    && (input.source.Some? ==> input.source.value >= s.fence)
    && input.expectedEpoch == Some(s.epoch)
  }

  /** When each reply is given. */
  lemma ReplyIff(s: Server, input: CommitInput, stored: Documents, i: nat)
    requires UniqueTx(s)
    ensures var (server, reply) := Accept(s, input, stored);
            && (reply == RestoreCrossesRedaction <==> input.source.Some? && input.source.value < s.fence)
            && (reply == RedactionInvalidated <==>
                  (input.source.Some? ==> input.source.value >= s.fence) && input.expectedEpoch != Some(s.epoch))
            && (reply == Receipt(i, true) <==> Admits(s, input) && i < |s.log| && s.log[i].input == input)
            && (reply == IdempotencyConflict <==>
                  Admits(s, input) && exists j :: 0 <= j < |s.log| && s.log[j].input.tx == input.tx && s.log[j].input != input)
            && (reply == HeadConflict <==>
                  && Admits(s, input) && (forall j :: 0 <= j < |s.log| ==> s.log[j].input.tx != input.tx)
                  && input.expectedRevision != if s.log == [] then None else Some(|s.log| - 1))
            && (reply == Receipt(i, false) <==>
                  && Admits(s, input) && (forall j :: 0 <= j < |s.log| ==> s.log[j].input.tx != input.tx) && i == |s.log|
                  && input.expectedRevision == if s.log == [] then None else Some(|s.log| - 1))
  {
    if Knows(s, input.tx) {
      var at := Position(s, input.tx);
      assert s.log[at].input.tx == input.tx;
      forall j | 0 <= j < |s.log| && s.log[j].input.tx == input.tx
        ensures j == at
      {
      }
    }
  }

  /** What a commit sends: the staged changes and what the workspace believes of the server, under the transaction of an attempt
      with the same fingerprint, or else a new one. */
  lemma SentIs(w: Workspace, given: Option<Context>, correlation: string, uuid: TxId)
    ensures var sending := ToSend(w, given, correlation, uuid);
            && (sending.Sends? <==>
                  && !w.invalidated && !w.busy
                  && forall p :: p in w.fs.upserts && !Derived(w.fs.inner, p) ==>
                       p in w.fs.inner && w.fs.inner[p].FileNode? && w.fs.inner[p].mode == FILE_MODE && '\0' !in w.fs.inner[p].body)
            && (sending.Sends? ==>
                  var input := sending.input;
                  && input.expectedRevision == w.snapshot.revision && input.expectedEpoch == w.snapshot.epoch && input.source == w.source
                  && input.changes.deletions == w.fs.deletions && input.changes.moves == w.moves
                  && (forall p :: p in input.changes.documents <==> p in w.fs.upserts && !Derived(w.fs.inner, p))
                  && (forall p :: p in input.changes.documents ==>
                        p in w.fs.inner && w.fs.inner[p].FileNode? && input.changes.documents[p] == w.fs.inner[p].body)
                  && input.fingerprint == DigestOf(input.changes, input.context)
                  && input.tx == (if w.pending.Some? && w.pending.value.fingerprint == input.fingerprint then w.pending.value.tx else uuid)
                  && (given.Some? && w.source.None? ==> input.context == given.value))
  {
    hide Derived;
    assert forall p :: p in Uploads(w.fs) <==> p in w.fs.upserts && !Derived(w.fs.inner, p);
  }

  // ---------------------------------------------------------------- several workspaces

  /** `stamps` records, per workspace, the server's epochs at which its staged changes were made. */
  datatype World = World(server: Server, workspaces: map<nat, Workspace>, stamps: map<nat, set<nat>>)

  datatype Event =
    | Open
    | Edit(op: Op, moves: map<Path, Path>)
    | Commit(given: Option<Context>, correlation: string, uuid: TxId, stored: Documents, delivery: Delivery)
    | Discard
    | Redact(redaction: Redaction, delivery: Delivery, reloads: bool)
    | Restore(revision: Revision)

  function Opened(s: Server): Workspace {
    Workspace(TR.Reset(EntriesFrom(Loaded(s).documents)), map[], false, Loaded(s), None, false, None)
  }

  /** The workspace and the server after an event of an open workspace. */
  function Next(ws: Workspace, s: Server, e: Event): (Workspace, Server) {
    match e
    case Open => (ws, s)
    case Edit(op, moves) => (if ws.busy then ws else ws.(fs := Step(ws.fs, op), moves := moves), s)
    case Commit(given, correlation, uuid, stored, delivery) => Committed(ws, s, given, correlation, uuid, stored, delivery)
    case Discard => (Discarded(ws), s)
    case Redact(redaction, delivery, reloads) => AfterRedaction(ws, s, redaction, delivery, reloads)
    case Restore(revision) => (Restored(ws, s, revision), s)
  }

  /** One event of one workspace. */
  function Do(w: World, id: nat, e: Event): World {
    if e.Open? then
      if TR.Consistent(EntriesFrom(Loaded(w.server).documents))
      then World(w.server, w.workspaces[id := Opened(w.server)], w.stamps[id := {}]) else w
    else if id !in w.workspaces || id !in w.stamps then w
    else
      var ws := w.workspaces[id];
      var (next, server) := Next(ws, w.server, e);
      World(server, w.workspaces[id := next], w.stamps[id := Stamps(ws, next, e, w.stamps[id], w.server.epoch)])
  }

  /** Nothing pending, nothing staged; a change of the staged state happens now. */
  function Stamps(before: Workspace, after: Workspace, e: Event, stamps: set<nat>, now: nat): set<nat> {
    if after.fs.upserts == {} && after.fs.deletions == map[] then {}
    else if after.fs == before.fs then stamps
    else if e.Restore? then {now}
    else stamps + {now}
  }

  function Run(w: World, es: seq<(nat, Event)>): World
    decreases |es|
  {
    if es == [] then w else Run(Do(w, es[0].0, es[0].1), es[1..])
  }

  /** The attempt kept for a retry was fingerprinted with the context kept beside it. */
  ghost predicate Coherent(w: Workspace) {
    w.pending.Some? ==>
      var a := w.pending.value;
      var f := a.fingerprint;
      f == DigestOf(f.changes, a.context)
  }

  /** A workspace that may commit holds only changes staged since the redaction its snapshot knows of. */
  ghost predicate Sound(s: Server, w: Workspace, stamps: set<nat>) {
    if w.invalidated then w.snapshot == Snapshot(map[], None, None)
    else w.snapshot.epoch.Some? && w.snapshot.epoch.value <= s.epoch
         && forall k :: k in stamps ==> w.snapshot.epoch.value <= k <= s.epoch
  }

  ghost predicate WorldInv(w: World) {
    && UniqueTx(w.server) && w.workspaces.Keys == w.stamps.Keys
    && forall id :: id in w.workspaces ==>
         Sound(w.server, w.workspaces[id], w.stamps[id]) && Coherent(w.workspaces[id])
  }

  lemma CommittedFacts(w: Workspace, s: Server, given: Option<Context>, correlation: string, uuid: TxId,
                       stored: Documents, delivery: Delivery)
    requires UniqueTx(s)
    ensures var (next, server) := Committed(w, s, given, correlation, uuid, stored, delivery);
            && UniqueTx(server) && server.epoch == s.epoch
            && next.invalidated == w.invalidated && next.snapshot.epoch == w.snapshot.epoch
            && (w.invalidated ==> next == w && server == s)
            && (server != s ==> w.snapshot.epoch == Some(s.epoch))
            && (next.fs != w.fs ==> next.fs.upserts == {} && next.fs.deletions == map[])
            && (Coherent(w) ==> Coherent(next))
  {
    hide PreparedTexts, Resolved, Accept, CommittedTree;
    match ToSend(w, given, correlation, uuid)
    case Barred =>
    case Unprepared =>
    case Sends(attempt, input) => AcceptFacts(s, input, stored);
  }

  lemma RedactionFacts(w: Workspace, s: Server, r: Redaction, delivery: Delivery, reloads: bool)
    requires UniqueTx(s)
    ensures var (next, server) := AfterRedaction(w, s, r, delivery, reloads);
            && UniqueTx(server) && s.epoch <= server.epoch && server.log == s.log
            && (next != w ==> next.fs.upserts == {} && next.fs.deletions == map[] && next.pending == None)
            && (next != w ==> next.snapshot == if next.invalidated then Snapshot(map[], None, None) else Loaded(server))
            && (next.invalidated && !w.invalidated ==> next != w)
            && (w.invalidated && !next.invalidated ==> r.AppliedRedaction? && delivery.Delivered? && reloads)
  {
  }

  /** One event of one workspace keeps it sound, and appends only what is staged under the current epoch. */
  lemma NextSound(ws: Workspace, s: Server, stamps: set<nat>, e: Event)
    requires UniqueTx(s) && Sound(s, ws, stamps) && Coherent(ws)
    ensures var (next, server) := Next(ws, s, e);
            && UniqueTx(server) && s.epoch <= server.epoch && Coherent(next)
            && Sound(server, next, Stamps(ws, next, e, stamps, s.epoch))
            && (server.log != s.log ==> e.Commit? && !ws.invalidated && forall k :: k in stamps ==> k == s.epoch)
  {
    hide Committed, AfterRedaction, TR.Reset, TR.Consistent, EntriesFrom, Step, TR.StageTarget;
    match e
    case Commit(given, correlation, uuid, stored, delivery) => CommittedFacts(ws, s, given, correlation, uuid, stored, delivery);
    case Redact(redaction, delivery, reloads) => RedactionFacts(ws, s, redaction, delivery, reloads);
    case _ =>
  }

  lemma StepKeepsWorld(w: World, id: nat, e: Event)
    requires WorldInv(w)
    ensures WorldInv(Do(w, id, e)) && w.server.epoch <= Do(w, id, e).server.epoch
  {
    hide Next, UniqueTx, TR.Reset, TR.Consistent, EntriesFrom, Stamps;
    if id in w.workspaces && !e.Open? {
      NextSound(w.workspaces[id], w.server, w.stamps[id], e);
    }
  }

  /** Redaction safety, one commit: what the server accepts was staged under its current redaction epoch. */
  lemma AcceptedIsCurrent(w: World, id: nat, e: Event)
    requires WorldInv(w) && Do(w, id, e).server.log != w.server.log
    ensures e.Commit? && id in w.workspaces && !w.workspaces[id].invalidated
    ensures forall k :: k in w.stamps[id] ==> k == w.server.epoch
  {
    hide Next, UniqueTx, TR.Reset, TR.Consistent, EntriesFrom, Stamps;
    if id in w.workspaces && !e.Open? {
      NextSound(w.workspaces[id], w.server, w.stamps[id], e);
    }
  }

  lemma {:induction false} RunKeepsWorld(w: World, es: seq<(nat, Event)>)
    requires WorldInv(w)
    ensures WorldInv(Run(w, es)) && w.server.epoch <= Run(w, es).server.epoch
    decreases |es|
  {
    hide Do, WorldInv;
    if es != [] {
      StepKeepsWorld(w, es[0].0, es[0].1);
      RunKeepsWorld(Do(w, es[0].0, es[0].1), es[1..]);
    }
  }

  /** Redaction safety over whole runs: whatever several workspaces did before, in whatever order. */
  lemma RedactionSafety(w: World, es: seq<(nat, Event)>, id: nat, e: Event)
    requires WorldInv(w) && Do(Run(w, es), id, e).server.log != Run(w, es).server.log
    ensures id in Run(w, es).stamps && forall k :: k in Run(w, es).stamps[id] ==> k == Run(w, es).server.epoch
  {
    RunKeepsWorld(w, es);
    AcceptedIsCurrent(Run(w, es), id, e);
  }

  /** The one way out of an invalidated workspace: a redaction that is applied, answered and reloaded; or a new one. */
  predicate Revives(id: nat, e: (nat, Event)) {
    e.0 == id && (e.1.Open? || (e.1.Redact? && e.1.redaction.AppliedRedaction? && e.1.delivery.Delivered? && e.1.reloads))
  }

  lemma {:induction false} InvalidatedIsSilent(w: World, es: seq<(nat, Event)>, id: nat)
    requires WorldInv(w) && id in w.workspaces && w.workspaces[id].invalidated
    requires forall i :: 0 <= i < |es| ==> !Revives(id, es[i])
    ensures id in Run(w, es).workspaces && Run(w, es).workspaces[id].invalidated
    ensures forall e: Event :: e.Commit? ==> Do(Run(w, es), id, e).server == Run(w, es).server
    decreases |es|
  {
    hide WorldInv, Do;
    if es == [] {
      forall e: Event | e.Commit?
        ensures Do(w, id, e).server == w.server
      {
        StaysInvalidated(w, id, e, id);
      }
    } else {
      StaysInvalidated(w, es[0].0, es[0].1, id);
      StepKeepsWorld(w, es[0].0, es[0].1);
      assert !Revives(id, es[0]);
      InvalidatedIsSilent(Do(w, es[0].0, es[0].1), es[1..], id);
    }
  }

  lemma StaysInvalidated(w: World, actor: nat, e: Event, id: nat)
    requires WorldInv(w) && id in w.workspaces && w.workspaces[id].invalidated && !Revives(id, (actor, e))
    ensures id in Do(w, actor, e).workspaces && Do(w, actor, e).workspaces[id].invalidated
    ensures actor == id && e.Commit? ==> Do(w, actor, e).server == w.server
  {
    hide Committed, AfterRedaction, TR.Reset, TR.Consistent, EntriesFrom, Step, TR.StageTarget;
    if actor == id && !e.Open? {
      var ws := w.workspaces[id];
      match e
      case Commit(given, correlation, uuid, stored, delivery) =>
        CommittedFacts(ws, w.server, given, correlation, uuid, stored, delivery);
      case Redact(redaction, delivery, reloads) => RedactionFacts(ws, w.server, redaction, delivery, reloads);
      case _ =>
    }
  }

  // ---------------------------------------------------------------- retries after an unknown outcome

  /** A retry with the same or with no context, nothing staged in between, sends the same transaction and
      fingerprint; and the same request altogether when the first attempt did not itself continue an earlier one. */
  lemma RetrySendsTheSame(w: Workspace, given: Option<Context>, correlation: string, uuid: TxId,
                          retry: Option<Context>, correlation': string, uuid': TxId)
    requires ToSend(w, given, correlation, uuid).Sends?
    requires Coherent(w) && (retry == given || retry == None)
    ensures var first := ToSend(w, given, correlation, uuid);
            var second := ToSend(w.(pending := Some(first.attempt)), retry, correlation', uuid');
            && second.Sends? && second.attempt == first.attempt && second.input.tx == first.input.tx
            && second.input.fingerprint == first.input.fingerprint
            && (w.pending.None? ==> second.input == first.input)
  {
    hide PreparedTexts;
    var first := ToSend(w, given, correlation, uuid);
    var supplied := if given.Some? then given else if w.pending.Some? then Some(w.pending.value.context) else None;
    ResolvedAgain(supplied, w.source, correlation, correlation');
    if w.pending.Some? {
      ResolvedAgain(Some(w.pending.value.context), w.source, correlation, correlation');
    }
  }

  /** What else reaches the server between two retries. */
  datatype Traffic = Other(input: CommitInput, stored: Documents) | OtherRedaction(fence: nat)

  function Served(s: Server, ts: seq<Traffic>): Server
    decreases |ts|
  {
    if ts == [] then s
    else Served(match ts[0]
                case Other(input, stored) => Accept(s, input, stored).0
                case OtherRedaction(fence) => Redacted(s, fence), ts[1..])
  }

  datatype Retry = Retry(given: Option<Context>, correlation: string, uuid: TxId, stored: Documents, delivery: Delivery, before: seq<Traffic>)

  /** Retry after retry until a reply arrives; the result counts the revisions they added. */
  function Retried(w: Workspace, s: Server, rs: seq<Retry>): (nat, Server)
    decreases |rs|
  {
    if rs == [] then (0, s)
    else
      var r := rs[0];
      var before := Served(s, r.before);
      var (next, after) := Committed(w, before, r.given, r.correlation, r.uuid, r.stored, r.delivery);
      var added := if after.log == before.log then 0 else 1;
      if r.delivery.Delivered? then (added, after)
      else
        var (more, last) := Retried(next, after, rs[1..]);
        (added + more, last)
  }

  lemma {:induction false} ServedKeeps(s: Server, ts: seq<Traffic>, tx: TxId)
    requires UniqueTx(s)
    ensures UniqueTx(Served(s, ts)) && (Knows(s, tx) ==> Knows(Served(s, ts), tx))
    decreases |ts|
  {
    hide Accept;
    if ts != [] {
      match ts[0] {
        case Other(input, stored) =>
          AcceptFacts(s, input, stored);
          KnowsMore(s, Accept(s, input, stored).0, tx);
          ServedKeeps(Accept(s, input, stored).0, ts[1..], tx);
        case OtherRedaction(fence) =>
          KnowsMore(s, Redacted(s, fence), tx);
          ServedKeeps(Redacted(s, fence), ts[1..], tx);
      }
    }
  }

  lemma KnowsMore(s: Server, r: Server, tx: TxId)
    requires |s.log| <= |r.log| && r.log[..|s.log|] == s.log
    ensures Knows(s, tx) ==> Knows(r, tx)
  {
    if Knows(s, tx) {
      var i := Position(s, tx);
      assert r.log[..|s.log|][i] == s.log[i];
    }
  }

  /** The attempt that is pending would be continued by the retry. */
  ghost predicate Continues(w: Workspace, a: Attempt, r: Retry) {
    ToSend(w, r.given, r.correlation, r.uuid).Sends? && ToSend(w, r.given, r.correlation, r.uuid).attempt == a
  }

  /** However often a commit of unknown outcome is retried, and whatever else the server serves in between, the retries
      and the commit together add at most one revision: none once the server knows the transaction. */
  lemma {:induction false} RetriesAddOneAtMost(w: Workspace, s: Server, a: Attempt, rs: seq<Retry>)
    requires UniqueTx(s) && w.pending == Some(a)
    requires forall i :: 0 <= i < |rs| ==> Continues(w, a, rs[i])
    ensures Retried(w, s, rs).0 <= if Knows(s, a.tx) then 0 else 1
    ensures UniqueTx(Retried(w, s, rs).1)
    decreases |rs|
  {
    hide Accept, PreparedTexts, Resolved, Finished, ToSend;
    if rs != [] {
      var r := rs[0];
      var before := Served(s, r.before);
      ServedKeeps(s, r.before, a.tx);
      assert Continues(w, a, r);
      var input := ToSend(w, r.given, r.correlation, r.uuid).input;
      SentTx(w, r);
      AcceptFacts(before, input, r.stored);
      var (next, after) := Committed(w, before, r.given, r.correlation, r.uuid, r.stored, r.delivery);
      if !r.delivery.Delivered? {
        assert next == w;
        KnowsMore(before, after, a.tx);
        if after != before {
          assert after.log[|before.log|].input.tx == a.tx;
        }
        RetriesAddOneAtMost(w, after, a, rs[1..]);
      }
    }
  }

  /** A commit and every retry of it with the same or with no context, nothing staged in between, whatever is lost on
      the way and whatever else the server serves: together they add at most one revision. */
  lemma CommitAndRetriesAddOneAtMost(w: Workspace, s: Server, rs: seq<Retry>)
    requires UniqueTx(s) && Coherent(w) && rs != []
    requires ToSend(w, rs[0].given, rs[0].correlation, rs[0].uuid).Sends?
    requires forall i :: 0 < i < |rs| ==> rs[i].given == rs[0].given || rs[i].given == None
    ensures Retried(w, s, rs).0 <= 1
  {
    hide Accept, PreparedTexts, Resolved, Finished, ToSend, UniqueTx, Coherent;
    var r := rs[0];
    var before := Served(s, r.before);
    var sending := ToSend(w, r.given, r.correlation, r.uuid);
    ServedKeeps(s, r.before, sending.attempt.tx);
    SentTx(w, r);
    AcceptFacts(before, sending.input, r.stored);
    var (next, after) := Committed(w, before, r.given, r.correlation, r.uuid, r.stored, r.delivery);
    if !r.delivery.Delivered? {
      forall i | 0 <= i < |rs| - 1
        ensures Continues(next, sending.attempt, rs[1..][i])
      {
        RetrySendsTheSame(w, r.given, r.correlation, r.uuid, rs[i + 1].given, rs[i + 1].correlation, rs[i + 1].uuid);
      }
      NewRevisionKnown(before, after, sending.input, r.stored);
      RetriesAddOneAtMost(next, after, sending.attempt, rs[1..]);
    }
  }

  lemma NewRevisionKnown(before: Server, after: Server, input: CommitInput, stored: Documents)
    requires after == before || after == Accept(before, input, stored).0
    ensures after.log != before.log ==> Knows(after, input.tx)
  {
    if after.log != before.log {
      assert after.log[|before.log|].input.tx == input.tx;
    }
  }

  lemma SentTx(w: Workspace, r: Retry)
    ensures var sending := ToSend(w, r.given, r.correlation, r.uuid); sending.Sends? ==> sending.input.tx == sending.attempt.tx
  {
    hide PreparedTexts;
  }

  // ---------------------------------------------------------------- exact trees

  function LiveFiles(t: Tree): (r: Documents)
    ensures forall p :: p in r <==> p in t && t[p].FileNode?
    ensures forall p :: p in r ==> r[p] == t[p].body
  {
    map p | p in t && t[p].FileNode? :: t[p].body
  }

  /** The staged state a commit builds on: its baseline is the snapshot, and every move started at a path that is
      deleted or uploaded. */
  ghost predicate Based(w: Workspace) {
    && w.fs.baseline == EntriesFrom(w.snapshot.documents)
    && w.moves.Keys <= w.fs.deletions.Keys + w.fs.upserts
  }

  /** A directory made in place of a committed document that was not moved away: the document is neither deleted nor
      overwritten. */
  predicate DirectoryInPlace(w: Workspace, p: Path) {
    p in w.fs.upserts && p !in w.moves && p in w.snapshot.documents && p in w.fs.inner && w.fs.inner[p].DirNode?
  }

  function NextTree(w: Workspace): Documents
    requires PreparedTexts(w.fs).Some?
  {
    CommittedTree(w.snapshot.documents, w.fs.deletions.Keys, w.moves.Keys, PreparedTexts(w.fs).value)
  }

  lemma CommittedAt(w: Workspace, p: Path)
    requires Faithful(w.fs) && Based(w) && PreparedTexts(w.fs).Some?
    ensures p in w.fs.inner && w.fs.inner[p].FileNode? ==> p in NextTree(w) && NextTree(w)[p] == w.fs.inner[p].body
    ensures p in NextTree(w) && !(p in w.fs.inner && w.fs.inner[p].FileNode?) <==> DirectoryInPlace(w, p)
  {
    hide WellFormed, KindsOf, GoodBaseline;
    if p in w.fs.upserts {
      assert p in Uploads(w.fs) ==> Storable(w.fs.inner, p);
    } else if p in w.fs.inner && w.fs.inner[p].FileNode? {
      assert Kept(w.fs, p);
    } else {
      assert p in w.snapshot.documents && p !in w.fs.deletions ==> Kept(w.fs, p);
    }
  }

  /** The committed tree is the live tree's files exactly when no staged directory took the place of a document. */
  lemma CommittedTreeIff(w: Workspace)
    requires Faithful(w.fs) && Based(w) && PreparedTexts(w.fs).Some?
    ensures NextTree(w) == LiveFiles(w.fs.inner) <==> !exists p :: DirectoryInPlace(w, p)
  {
    hide Faithful, Based, NextTree, PreparedTexts, DirectoryInPlace;
    forall p
      ensures p in LiveFiles(w.fs.inner) ==> p in NextTree(w) && NextTree(w)[p] == LiveFiles(w.fs.inner)[p]
      ensures p in NextTree(w) && p !in LiveFiles(w.fs.inner) <==> DirectoryInPlace(w, p)
    {
      CommittedAt(w, p);
    }
    if !exists p :: DirectoryInPlace(w, p) {
      assert forall p :: p in NextTree(w) ==> p in LiveFiles(w.fs.inner);
      assert NextTree(w) == LiveFiles(w.fs.inner);
    }
  }

  lemma FilesFrom(documents: Documents)
    requires TR.Consistent(EntriesFrom(documents))
    ensures LiveFiles(TR.TreeFrom(EntriesFrom(documents))) == documents
  {
    TR.TreeFromEntries(EntriesFrom(documents));
    TR.TreeFromWellFormed(EntriesFrom(documents));
  }

  /** Texts the server can hold. */
  predicate Texts(documents: Documents) {
    forall p :: p in documents ==> '\0' !in documents[p]
  }

  /** Restore is exact: the tree that the next commit builds has exactly the paths and texts of the target. */
  lemma RestoreCommitsTarget(w: Workspace, s: Server, revision: Revision)
    requires w.fs.baseline == EntriesFrom(w.snapshot.documents) && GoodBaseline(w.fs.baseline)
    requires Loadable(s, revision) && w.snapshot.revision.Some? && !w.busy
    requires TR.Consistent(EntriesFrom(s.log[revision].stored)) && Texts(s.log[revision].stored)
    ensures var r := Restored(w, s, revision);
            && PreparedTexts(r.fs).Some? && NextTree(r) == s.log[revision].stored
            && LiveFiles(r.fs.inner) == s.log[revision].stored
  {
    hide TR.TreeFrom, TR.Consistent, TR.StageTarget, PreparedTexts, WellFormed, KindsOf, GoodBaseline;
    var target := s.log[revision].stored;
    var r := Restored(w, s, revision);
    FilesFrom(target);
    StageIsTarget(w.fs, EntriesFrom(target));
    StagedTexts(w.fs, w.snapshot.documents, target);
    assert NextTree(r) == target;
  }

  lemma StageIsTarget(t: Tracked, target: map<Path, RemoteEntry>)
    ensures TR.StageTarget(t, target).inner == TR.TreeFrom(target)
  {
  }

  lemma StagedTexts(t: Tracked, documents: Documents, target: Documents)
    requires t.baseline == EntriesFrom(documents) && GoodBaseline(t.baseline)
    requires TR.Consistent(EntriesFrom(target)) && Texts(target)
    ensures var r := TR.StageTarget(t, EntriesFrom(target));
            && r.deletions.Keys == documents.Keys - target.Keys && r.upserts <= target.Keys
            && (forall p :: p in target && p !in r.upserts ==> p in documents && documents[p] == target[p])
            && PreparedTexts(r).Some? && PreparedTexts(r).value.Keys == r.upserts
            && forall p :: p in r.upserts ==> PreparedTexts(r).value[p] == target[p]
  {
    assert [] !in t.baseline;
    hide TR.TreeFrom, TR.Consistent, WellFormed, KindsOf, GoodBaseline;
    var r := TR.StageTarget(t, EntriesFrom(target));
    TR.TreeFromEntries(EntriesFrom(target));
    forall p | p in r.upserts
      ensures p in Uploads(r) && Storable(r.inner, p) && r.inner[p].body == target[p]
    {
    }
  }
}
