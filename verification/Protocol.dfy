/**
 The Storage commit and recovery protocol as a state machine.  Each event is one atomic
 write to visible storage or to the private history namespace; the store itself offers no
 transaction over several of them, so a crash may fall between any two.
 */
module Protocol {
  import opened Types
  import opened Commits

  type Tx = nat
  type Rev = nat
  type Key = string

  datatype RevisionEntry = RevisionEntry(kind: Kind, mode: nat, contentHash: Option<Hash>, target: Option<string>)

  type Manifest = map<Path, RevisionEntry>

  datatype Intent = Intent(
    newRevision: Rev,
    parent: Option<Rev>,
    fingerprint: Fingerprint,
    key: Option<Key>,
    createdAt: nat,
    baseline: Option<Manifest>)

  datatype Complete = Complete(intent: Intent, committedAt: nat)

  datatype Revision = Revision(parent: Option<Rev>, entries: Manifest, tx: Tx, committedAt: nat)

  datatype Head = Head(revision: Rev, tx: Tx)

  datatype IdempotencyRecord = IdempotencyRecord(fingerprint: Option<Fingerprint>, revision: Rev, tx: Tx)

  /**
   The store: visible entries by path and history records by kind and identifier.
   `log` (the order in which complete records appeared) and `issued` (every entry that was
   ever given an etag, the etag being its position) are auxiliary: no operation reads them.
   */
  datatype State = State(
    visible: map<Path, RemoteEntry>,
    objects: map<Hash, Body>,
    intents: map<Tx, Intent>,
    completes: map<Tx, Complete>,
    aborts: set<Tx>,
    revisions: map<Rev, Revision>,
    idempotency: map<Key, IdempotencyRecord>,
    head: Option<Head>,
    log: seq<Tx>,
    issued: seq<RemoteEntry>)

  datatype Event =
    | PutObject(body: Body)
    | PutIntent(tx: Tx, intent: Intent)
    | Upload(path: Path, entry: RemoteEntry)
    | Delete(path: Path)
    | PutRevision(tx: Tx, revision: Revision)
    | PutComplete(tx: Tx, committedAt: nat)
    | PutIdempotency(key: Key, record: IdempotencyRecord)
    | PutHead(head: Head)
    | PutAbort(tx: Tx)

  /** Storage gives every uploaded entry a fresh etag. */
  function Stamped(s: State, e: RemoteEntry): RemoteEntry {
    e.(etag := Some(|s.issued|))
  }

  function Apply(s: State, e: Event): State {
    match e
    case PutObject(body) => s.(objects := s.objects[Sha256(body) := body])
    case PutIntent(tx, intent) => s.(intents := s.intents[tx := intent])
    case Upload(path, entry) =>
      s.(visible := s.visible[path := Stamped(s, entry)], issued := s.issued + [Stamped(s, entry)])
    case Delete(path) => s.(visible := s.visible - {path})
    case PutRevision(tx, revision) =>
      if tx in s.intents then s.(revisions := s.revisions[s.intents[tx].newRevision := revision]) else s
    case PutComplete(tx, committedAt) =>
      if tx in s.intents
      then s.(completes := s.completes[tx := Complete(s.intents[tx], committedAt)], log := s.log + [tx])
      else s
    case PutIdempotency(key, record) => s.(idempotency := s.idempotency[key := record])
    case PutHead(head) => s.(head := Some(head))
    case PutAbort(tx) => s.(aborts := s.aborts + {tx})
  }

  // ------------------------------------------------------------------ what the records mean

  /** Intents with neither a complete nor an abort record. */
  function Unresolved(s: State): set<Tx> {
    s.intents.Keys - s.completes.Keys - s.aborts
  }

  function ManifestNode(e: RevisionEntry): Node {
    match e.kind
    case File => FileNode(if e.contentHash.Some? then e.contentHash.value.preimage else "", e.mode)
    case Directory => DirNode(e.mode)
    case Symlink => LinkNode(TargetText(e.target), e.mode)
  }

  function ManifestTree(m: Manifest): Tree {
    map p | p in m :: ManifestNode(m[p])
  }

  /** Every file body of the manifest can be read back. */
  predicate Stored(m: Manifest, objects: map<Hash, Body>) {
    forall p :: p in m && m[p].kind == File ==> m[p].contentHash.Some? && m[p].contentHash.value in objects
  }

  function RevisionOf(s: State, tx: Tx): (r: Rev)
    requires tx in s.intents
  {
    s.intents[tx].newRevision
  }

  predicate LogInIntents(s: State) {
    forall i :: 0 <= i < |s.log| ==> s.log[i] in s.intents
  }

  /** The revision of the last entry of the log, if any. */
  function TipRevision(s: State): Option<Rev>
    requires LogInIntents(s)
  {
    if s.log == [] then None else Some(RevisionOf(s, s.log[|s.log| - 1]))
  }

  function HeadOf(s: State, tx: Tx): Head
    requires tx in s.intents
  {
    Head(RevisionOf(s, tx), tx)
  }

  /** The head record names the tip of the chain. */
  predicate Settled(s: State)
    requires LogInIntents(s)
  {
    if s.log == [] then s.head == None else s.head == Some(HeadOf(s, s.log[|s.log| - 1]))
  }

  /**
   The tree that is officially published: the tip's manifest; before the first revision, the
   snapshot captured by the unresolved intent, or else simply what is stored.
   */
  ghost function Published(s: State): Tree
    requires LogInIntents(s)
  {
    if s.log != [] then
      var r := RevisionOf(s, s.log[|s.log| - 1]);
      if r in s.revisions then ManifestTree(s.revisions[r].entries) else map[]
    else if Unresolved(s) != {} then
      var t :| t in Unresolved(s);
      if s.intents[t].baseline.Some? then ManifestTree(s.intents[t].baseline.value) else map[]
    else
      TreeOf(s.visible)
  }

  /** The manifest of what is published: the tip's, or before the first revision the snapshot of the unresolved intent. */
  ghost function PublishedManifest(s: State): Option<Manifest>
    requires LogInIntents(s)
  {
    if s.log != [] then
      var r := RevisionOf(s, s.log[|s.log| - 1]);
      if r in s.revisions then Some(s.revisions[r].entries) else None
    else if Unresolved(s) != {} then
      var t :| t in Unresolved(s);
      s.intents[t].baseline
    else None
  }

  /** The stored entry has the kind, the mode, the digest and the link target that the manifest records for its path. */
  predicate Recorded(m: Manifest, visible: map<Path, RemoteEntry>, p: Path) {
    && p in visible && p in m
    && visible[p].kind == m[p].kind
    && visible[p].mode == m[p].mode
    && visible[p].contentHash == m[p].contentHash
    && visible[p].target == m[p].target
  }

  ghost predicate AsPublished(s: State, p: Path)
    requires LogInIntents(s)
  {
    PublishedManifest(s).Some? && Recorded(PublishedManifest(s).value, s.visible, p)
  }

  /** Everything visible but the given paths is as it was; but what an unfinished commit left there may have been put back. */
  ghost predicate Spares(s: State, s': State, paths: set<Path>)
    requires LogInIntents(s)
  {
    forall p :: p !in paths ==>
      && (p in s.visible && (Unresolved(s) == {} || AsPublished(s, p)) ==> p in s'.visible && s'.visible[p] == s.visible[p])
      && (p !in s.visible && (Unresolved(s) == {} || p !in Published(s)) ==> p !in s'.visible)
  }

  // ------------------------------------------------------------------ the invariant

  ghost predicate RecordsInv(s: State) {
    && LogInIntents(s)
    && s.completes.Keys <= s.intents.Keys
    && s.aborts <= s.intents.Keys
    && s.completes.Keys !! s.aborts
    && (forall t :: t in s.completes ==> s.completes[t].intent == s.intents[t])
    && (forall t, u {:trigger s.intents[t].newRevision, s.intents[u].newRevision} ::
          t in s.intents && u in s.intents && s.intents[t].newRevision == s.intents[u].newRevision ==> t == u)
  }

  predicate NoDuplicates(log: seq<Tx>) {
    forall i, j :: 0 <= i < j < |log| ==> log[i] != log[j]
  }

  /** The i-th completed transaction has the one before it as parent; the first has none. */
  ghost predicate Follows(s: State, i: nat)
    requires LogInIntents(s) && i < |s.log|
  {
    s.intents[s.log[i]].parent == if i == 0 then None else Some(RevisionOf(s, s.log[i - 1]))
  }

  /** Complete records form one parent chain from null, each record appearing once. */
  ghost predicate ChainInv(s: State)
    requires RecordsInv(s)
  {
    && (forall t :: t in s.completes <==> t in s.log)
    && NoDuplicates(s.log)
    && (forall i :: 0 <= i < |s.log| ==> Follows(s, i))
  }

  /** The head names the tip of the chain or the tip's parent. */
  ghost predicate HeadInv(s: State)
    requires RecordsInv(s)
  {
    || Settled(s)
    || (|s.log| == 1 && s.head == None)
    || (|s.log| >= 2 && s.head == Some(HeadOf(s, s.log[|s.log| - 2])))
  }

  /** The transaction's manifest exists and every file body it names is stored. */
  predicate Readable(s: State, t: Tx)
    requires t in s.intents
  {
    var r := RevisionOf(s, t);
    && r in s.revisions
    && s.revisions[r].parent == s.intents[t].parent
    && s.revisions[r].tx == t
    && Stored(s.revisions[r].entries, s.objects)
  }

  /** A manifest is stored under the revision of the transaction it names. */
  ghost predicate Belongs(s: State, r: Rev)
    requires r in s.revisions
  {
    var t := s.revisions[r].tx;
    t in s.intents && s.intents[t].newRevision == r && s.revisions[r].parent == s.intents[t].parent
  }

  ghost predicate ManifestInv(s: State)
    requires RecordsInv(s)
  {
    && (forall h :: h in s.objects ==> s.objects[h] == h.preimage)
    && (forall r :: r in s.revisions ==> Belongs(s, r))
    && (forall t :: t in s.completes ==> Readable(s, t))
  }

  /** At most one transaction is in flight, and it was started from a settled store. */
  ghost predicate PendingInv(s: State)
    requires RecordsInv(s)
  {
    && (forall t, u :: t in Unresolved(s) && u in Unresolved(s) ==> t == u)
    && (forall t :: t in Unresolved(s) ==>
          && Settled(s)
          && s.intents[t].parent == TipRevision(s)
          && (s.log == [] ==> s.intents[t].baseline.Some? && Stored(s.intents[t].baseline.value, s.objects)))
  }

  ghost predicate VisibleInv(s: State)
    requires RecordsInv(s)
  {
    && (Unresolved(s) == {} ==> TreeOf(s.visible) == Published(s))
    && (forall p :: p in s.visible ==>
          Honest(s.visible[p]) && s.visible[p].etag.Some? && s.visible[p].etag.value < |s.issued| &&
          s.issued[s.visible[p].etag.value] == s.visible[p])
  }

  /** At most one complete record per idempotency key, and none for a key in flight. */
  ghost predicate KeyInv(s: State)
    requires RecordsInv(s)
  {
    && (forall t, u {:trigger s.intents[t].key, s.intents[u].key} ::
          t in s.completes && u in s.completes && s.intents[t].key.Some? && s.intents[t].key == s.intents[u].key ==> t == u)
    && (forall t, u {:trigger s.intents[t].key, s.intents[u].key} ::
          t in Unresolved(s) && u in s.completes && s.intents[t].key.Some? ==> s.intents[u].key != s.intents[t].key)
  }

  /** The receipt of a keyed complete record exists once the head is settled, and names it. */
  ghost predicate ReceiptInv(s: State)
    requires RecordsInv(s)
  {
    && (forall t :: t in s.completes ==> HasReceipt(s, t) || (!Settled(s) && IsTip(s, t)))
    && (forall k :: k in s.idempotency ==> Describes(s, k, s.idempotency[k]))
  }

  predicate IsTip(s: State, t: Tx) {
    s.log != [] && s.log[|s.log| - 1] == t
  }

  predicate HasReceipt(s: State, t: Tx)
    requires t in s.intents
  {
    s.intents[t].key.Some? ==> s.intents[t].key.value in s.idempotency
  }

  predicate Describes(s: State, k: Key, r: IdempotencyRecord)
    requires s.completes.Keys <= s.intents.Keys
  {
    r.tx in s.completes && s.intents[r.tx].key == Some(k) && r.fingerprint == Some(s.intents[r.tx].fingerprint)
  }

  ghost predicate Inv(s: State) {
    && RecordsInv(s)
    && ChainInv(s)
    && HeadInv(s)
    && ManifestInv(s)
    && PendingInv(s)
    && VisibleInv(s)
    && KeyInv(s)
    && ReceiptInv(s)
  }

  // ------------------------------------------------------------------ when a write may happen

  ghost predicate Allowed(s: State, e: Event)
    requires RecordsInv(s)
  {
    match e
    case PutObject(_) => true
    case PutIntent(t, i) =>
      && Unresolved(s) == {}
      && Settled(s)
      && t !in s.intents
      && (forall u :: u in s.intents ==> s.intents[u].newRevision != i.newRevision)
      && i.parent == TipRevision(s)
      && (s.log == [] ==>
            i.baseline.Some? && Stored(i.baseline.value, s.objects) &&
            ManifestTree(i.baseline.value) == TreeOf(s.visible))
      && (i.key.Some? ==> forall u :: u in s.completes ==> s.intents[u].key != i.key)
    case Upload(_, entry) => Unresolved(s) != {} && Honest(Stamped(s, entry))
    case Delete(_) => Unresolved(s) != {}
    case PutRevision(t, r) =>
      && t in Unresolved(s)
      && r.parent == s.intents[t].parent
      && r.tx == t
      && Stored(r.entries, s.objects)
    case PutComplete(t, _) =>
      && t in Unresolved(s)
      && Readable(s, t)
      && ManifestTree(s.revisions[RevisionOf(s, t)].entries) == TreeOf(s.visible)
    case PutIdempotency(k, r) => Describes(s, k, r)
    case PutHead(h) =>
      && s.log != []
      && h == HeadOf(s, s.log[|s.log| - 1])
      && HasReceipt(s, s.log[|s.log| - 1])
    case PutAbort(t) => t in Unresolved(s) && TreeOf(s.visible) == Published(s)
  }

  // ------------------------------------------------------------------ one step keeps everything

  lemma RecordsAfter(s: State, e: Event)
    requires RecordsInv(s) && Allowed(s, e)
    ensures RecordsInv(Apply(s, e))
  {
  }

  lemma UnresolvedAfter(s: State, e: Event)
    requires RecordsInv(s) && Allowed(s, e)
    ensures RecordsInv(Apply(s, e))
    ensures Unresolved(Apply(s, e)) ==
            (match e
             case PutIntent(t, _) => Unresolved(s) + {t}
             case PutComplete(t, _) => Unresolved(s) - {t}
             case PutAbort(t) => Unresolved(s) - {t}
             case _ => Unresolved(s))
  {
  }

  lemma PublishedAfterComplete(s: State, e: Event)
    requires Inv(s) && Allowed(s, e) && e.PutComplete?
    ensures RecordsInv(Apply(s, e))
    ensures Published(Apply(s, e)) == TreeOf(s.visible)
  {
    UnresolvedAfter(s, e);
    var s' := Apply(s, e);
    assert s'.log[|s'.log| - 1] == e.tx;
  }

  /** An established revision is untouched by every write that is not its own. */
  lemma TipManifestKept(s: State, e: Event)
    requires RecordsInv(s) && ChainInv(s) && Allowed(s, e) && !e.PutComplete? && s.log != []
    ensures RecordsInv(Apply(s, e))
    ensures Published(Apply(s, e)) == Published(s)
  {
    RecordsAfter(s, e);
    var tip := s.log[|s.log| - 1];
    assert tip in s.completes;
    assert Apply(s, e).log == s.log && Apply(s, e).intents[tip] == s.intents[tip];
  }

  lemma PublishedKept(s: State, e: Event)
    requires RecordsInv(s) && PendingInv(s) && VisibleInv(s) && Allowed(s, e) && !e.PutComplete? && s.log == []
    ensures RecordsInv(Apply(s, e))
    ensures Published(Apply(s, e)) == Published(s)
  {
    UnresolvedAfter(s, e);
    if e.PutIntent? {
      assert Unresolved(Apply(s, e)) == {e.tx};
    } else if e.PutAbort? {
      assert Unresolved(s) == {e.tx};
    } else if Unresolved(s) != {} {
      var t :| t in Unresolved(s);
      assert Unresolved(s) == {t};
    }
  }

  /** Only the complete record changes the published tree, and it publishes what is stored. */
  lemma PublishedAfter(s: State, e: Event)
    requires Inv(s) && Allowed(s, e)
    ensures RecordsInv(Apply(s, e))
    ensures Published(Apply(s, e)) == if e.PutComplete? then TreeOf(s.visible) else Published(s)
  {
    if e.PutComplete? {
      PublishedAfterComplete(s, e);
    } else if s.log == [] {
      PublishedKept(s, e);
    } else {
      TipManifestKept(s, e);
    }
  }

  lemma AppendKeepsNoDuplicates(log: seq<Tx>, t: Tx)
    requires NoDuplicates(log) && t !in log
    ensures NoDuplicates(log + [t])
    ensures forall u :: u in log + [t] <==> u in log || u == t
  {
  }

  lemma FollowsAfterComplete(s: State, t: Tx, i: nat)
    requires LogInIntents(s) && t in s.intents && s.intents[t].parent == TipRevision(s)
    requires i <= |s.log| && (i < |s.log| ==> Follows(s, i))
    ensures Follows(s.(log := s.log + [t]), i)
  {
  }

  lemma ChainAfterComplete(s: State, t: Tx, committedAt: nat)
    requires RecordsInv(s) && ChainInv(s) && Allowed(s, PutComplete(t, committedAt))
    requires s.intents[t].parent == TipRevision(s)
    ensures RecordsInv(Apply(s, PutComplete(t, committedAt))) && ChainInv(Apply(s, PutComplete(t, committedAt)))
  {
    RecordsAfter(s, PutComplete(t, committedAt));
    AppendKeepsNoDuplicates(s.log, t);
    var s' := Apply(s, PutComplete(t, committedAt));
    forall i | 0 <= i < |s'.log|
      ensures Follows(s', i)
    {
      FollowsAfterComplete(s, t, i);
    }
  }

  lemma ChainAfterRest(s: State, e: Event)
    requires RecordsInv(s) && ChainInv(s) && Allowed(s, e) && !e.PutComplete?
    ensures RecordsInv(Apply(s, e)) && ChainInv(Apply(s, e))
  {
    UnresolvedAfter(s, e);
    var s' := Apply(s, e);
    assert s'.log == s.log && s'.completes == s.completes;
    forall i | 0 <= i < |s.log|
      ensures Follows(s', i)
    {
      assert Follows(s, i);
    }
  }

  lemma HeadAfterComplete(s: State, e: Event)
    requires RecordsInv(s) && PendingInv(s) && Allowed(s, e) && e.PutComplete?
    ensures RecordsInv(Apply(s, e)) && HeadInv(Apply(s, e))
  {
    UnresolvedAfter(s, e);
    assert Settled(s);
    assert Apply(s, e).log == s.log + [e.tx];
  }

  lemma HeadAfterRest(s: State, e: Event)
    requires RecordsInv(s) && HeadInv(s) && Allowed(s, e) && !e.PutComplete?
    ensures RecordsInv(Apply(s, e)) && HeadInv(Apply(s, e))
  {
    UnresolvedAfter(s, e);
    var s' := Apply(s, e);
    assert forall i :: 0 <= i < |s.log| ==> s'.intents[s.log[i]] == s.intents[s.log[i]];
  }

  lemma ManifestAfter(s: State, e: Event)
    requires RecordsInv(s) && ManifestInv(s) && Allowed(s, e)
    ensures RecordsInv(Apply(s, e)) && ManifestInv(Apply(s, e))
  {
    RecordsAfter(s, e);
    var s' := Apply(s, e);
    forall t | t in s'.completes
      ensures Readable(s', t)
    {
      assert t in s.completes ==> Readable(s, t);
    }
    forall r | r in s'.revisions
      ensures Belongs(s', r)
    {
      assert r in s.revisions ==> Belongs(s, r);
    }
  }

  lemma PendingAfterIntent(s: State, e: Event)
    requires RecordsInv(s) && Allowed(s, e) && e.PutIntent?
    ensures RecordsInv(Apply(s, e)) && PendingInv(Apply(s, e))
  {
    UnresolvedAfter(s, e);
    assert Unresolved(Apply(s, e)) == {e.tx};
  }

  lemma PendingAfterRest(s: State, e: Event)
    requires RecordsInv(s) && PendingInv(s) && Allowed(s, e) && !e.PutIntent?
    ensures RecordsInv(Apply(s, e)) && PendingInv(Apply(s, e))
  {
    UnresolvedAfter(s, e);
    var s' := Apply(s, e);
    assert s'.intents == s.intents;
    if e.PutComplete? || e.PutAbort? {
      assert Unresolved(s') == {};
    } else if e.PutHead? && Unresolved(s) != {} {
      assert Settled(s);
    }
  }

  lemma VisibleAfter(s: State, e: Event)
    requires Inv(s) && Allowed(s, e)
    ensures RecordsInv(Apply(s, e)) && VisibleInv(Apply(s, e))
  {
    UnresolvedAfter(s, e);
    PublishedAfter(s, e);
  }

  lemma KeyAfter(s: State, e: Event)
    requires RecordsInv(s) && PendingInv(s) && KeyInv(s) && Allowed(s, e)
    ensures RecordsInv(Apply(s, e)) && KeyInv(Apply(s, e))
  {
    UnresolvedAfter(s, e);
    if e.PutComplete? {
      assert Unresolved(Apply(s, e)) == {};
    }
  }

  lemma UnsettledAfterComplete(s: State, e: Event)
    requires RecordsInv(s) && ChainInv(s) && PendingInv(s) && Allowed(s, e) && e.PutComplete?
    ensures RecordsInv(Apply(s, e)) && !Settled(Apply(s, e)) && Settled(s)
    ensures |Apply(s, e).log| == |s.log| + 1 && Apply(s, e).log[|s.log|] == e.tx
  {
    assert Settled(s);
    if s.log != [] {
      assert s.log[|s.log| - 1] in s.completes;
    }
  }

  lemma ReceiptAfterComplete(s: State, e: Event)
    requires RecordsInv(s) && ChainInv(s) && PendingInv(s) && ReceiptInv(s) && Allowed(s, e) && e.PutComplete?
    ensures RecordsInv(Apply(s, e)) && ReceiptInv(Apply(s, e))
  {
    UnresolvedAfter(s, e);
    UnsettledAfterComplete(s, e);
    var s' := Apply(s, e);
    assert s'.completes.Keys == s.completes.Keys + {e.tx} && s'.intents == s.intents && s'.idempotency == s.idempotency;
    forall t | t in s.completes ensures HasReceipt(s', t) {
      assert HasReceipt(s, t);
    }
    forall k | k in s.idempotency ensures Describes(s', k, s.idempotency[k]) {
      assert Describes(s, k, s.idempotency[k]);
    }
  }

  lemma ReceiptAfterRest(s: State, e: Event)
    requires RecordsInv(s) && ReceiptInv(s) && Allowed(s, e) && !e.PutComplete?
    ensures RecordsInv(Apply(s, e)) && ReceiptInv(Apply(s, e))
  {
    UnresolvedAfter(s, e);
    var s' := Apply(s, e);
    assert s'.completes == s.completes && s'.log == s.log;
    forall t | t in s.completes ensures HasReceipt(s', t) || (!Settled(s') && IsTip(s', t)) {
      assert HasReceipt(s, t) || (!Settled(s) && IsTip(s, t));
    }
    forall k | k in s'.idempotency ensures Describes(s', k, s'.idempotency[k]) {
      assert k in s.idempotency ==> Describes(s, k, s.idempotency[k]);
    }
  }

  lemma StepKeepsInv(s: State, e: Event)
    requires Inv(s) && Allowed(s, e)
    ensures Inv(Apply(s, e))
  {
    if e.PutComplete? {
      ChainAfterComplete(s, e.tx, e.committedAt);
      HeadAfterComplete(s, e);
    } else {
      ChainAfterRest(s, e);
      HeadAfterRest(s, e);
    }
    ManifestAfter(s, e);
    if e.PutIntent? {
      PendingAfterIntent(s, e);
    } else {
      PendingAfterRest(s, e);
    }
    VisibleAfter(s, e);
    KeyAfter(s, e);
    if e.PutComplete? {
      ReceiptAfterComplete(s, e);
    } else {
      ReceiptAfterRest(s, e);
    }
  }
}
