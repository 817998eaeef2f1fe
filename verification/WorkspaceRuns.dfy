/**
 Several workspaces on one store.  Every event is one call on one of them, as Workspace states
 it; the lease serialises the calls that write, so a run is a sequence of them in any order.
 */
module WorkspaceRuns {
  import opened Types
  import opened Commits
  import opened MemoryTree
  import opened Protocol
  import opened ProtocolRuns
  import opened Storage
  import opened Tracking
  import opened TrackingRuns
  import opened TrackedFs
  import opened Workspace

  datatype World = World(s: State, clients: map<nat, Client>)

  datatype Event =
    | Open
    | Edit(op: Op, moves: map<Path, Path>)
    | Restore(revision: Rev)
    | Commit(req: Request, r: CommitResult)
    | Discard(ok: bool)

  ghost predicate Opens(w: World, id: nat, w': World) {
    && Inv(w.s) && Inv(w'.s) && Steady(w.s, w'.s) && LogInIntents(w.s) && Spares(w.s, w'.s, {})
    && (w'.clients == w.clients ||
        (Consistent(w'.s.visible) && TreeOf(w'.s.visible) == Published(w.s)
         && w'.clients == w.clients[id := Client(Reset(w'.s.visible), map[], None, None, w'.s)]))
  }

  /** What one call of an open workspace makes of it and of the store. */
  ghost predicate Calls(c: Client, s: State, e: Event, c': Client, s': State)
    requires !e.Open?
  {
    match e
    case Edit(op, moves) => s' == s && c' == c.(t := Step(c.t, op), moves := moves)
    case Restore(revision) => s' == s && Restorable(s, revision) && c' == RestoreStep(c, s, revision)
    case Commit(req, r) => Admissible(s, req) && !r.InProgress? && CommitStep(c, s, req, r, c', s')
    case Discard(ok) => DiscardStep(c, s, ok, c', s')
  }

  ghost predicate Happens(w: World, id: nat, e: Event, w': World) {
    if e.Open? then Opens(w, id, w')
    else
      && id in w.clients && id in w'.clients && w'.clients == w.clients[id := w'.clients[id]]
      && Calls(w.clients[id], w.s, e, w'.clients[id], w'.s)
  }

  /** The worlds of a run, one more than its events. */
  ghost predicate Runs(ws: seq<World>, es: seq<(nat, Event)>) {
    |ws| == |es| + 1 && forall i :: 0 <= i < |es| ==> Happens(ws[i], es[i].0, es[i].1, ws[i + 1])
  }

  ghost predicate WorldInv(w: World) {
    Inv(w.s) && forall id :: id in w.clients ==> ClientValid(w.clients[id], w.s)
  }

  // ---------------------------------------------------------------- every call keeps every workspace

  /** A call leaves the store good and extended, and its own workspace fit for the next call. */
  lemma CallKeeps(c: Client, s: State, e: Event, c': Client, s': State)
    requires !e.Open? && ClientValid(c, s) && Calls(c, s, e, c', s')
    ensures ClientValid(c', s') && Inv(s') && Extends(s, s')
  {
    hide Inv, Extends, Sound, Step, Atomic, LosesNothing, AnswersRetries, LeavesBehind, Steady, RestoreStep, Restorable, Published,
         StageTarget;
    match e
    case Edit(op, moves) =>
      ValidAfterEdit(c, s, op);
      ExtendsRefl(s);
    case Restore(revision) =>
      ValidAfterRestore(c, s, revision);
      ExtendsRefl(s);
    case Commit(req, r) => AtomicExtends(c, s, req, r, s');
    case Discard(ok) => SteadyExtends(s, s');
  }

  lemma SteadyExtends(s: State, s': State)
    requires Steady(s, s')
    ensures Inv(s') && Extends(s, s')
  {
  }

  lemma AtomicExtends(c: Client, s: State, req: Request, r: CommitResult, s': State)
    requires Atomic(c, s, req, r, s')
    ensures Inv(s') && Extends(s, s')
  {
    hide Inv, Extends, Published, Settled, StagedOver;
  }

  lemma HappensKeeps(w: World, id: nat, e: Event, w': World)
    requires WorldInv(w) && Happens(w, id, e, w')
    ensures WorldInv(w') && Extends(w.s, w'.s)
  {
    hide Inv, Extends, ClientValid, Calls, Steady, Reset, Consistent, Published, Opens;
    if e.Open? {
      OpenKeeps(w, id, w');
    } else {
      CallKeeps(w.clients[id], w.s, e, w'.clients[id], w'.s);
      forall other | other in w'.clients
        ensures ClientValid(w'.clients[other], w'.s)
      {
        if other != id {
          ValidLater(w.clients[other], w.s, w'.s);
        }
      }
    }
  }

  lemma OpenKeeps(w: World, id: nat, w': World)
    requires WorldInv(w) && Opens(w, id, w')
    ensures WorldInv(w') && Extends(w.s, w'.s)
  {
    hide Inv, Extends, ClientValid, Steady, Reset, Consistent, Published;
    SteadyExtends(w.s, w'.s);
    forall other | other in w'.clients
      ensures ClientValid(w'.clients[other], w'.s)
    {
      if other in w.clients && w'.clients[other] == w.clients[other] {
        ValidLater(w.clients[other], w.s, w'.s);
      } else {
        ValidOnListing(w'.s);
      }
    }
  }

  /** Over every run every workspace stays fit for its next call, and history only grows. */
  lemma {:induction false} RunKeeps(ws: seq<World>, es: seq<(nat, Event)>, i: nat, j: nat)
    requires Runs(ws, es) && WorldInv(ws[0]) && i <= j < |ws|
    ensures WorldInv(ws[i]) && WorldInv(ws[j]) && Extends(ws[i].s, ws[j].s)
    decreases j
  {
    hide Inv, Extends, ClientValid, Happens;
    if j == 0 {
      ExtendsRefl(ws[0].s);
    } else if i == j {
      RunKeeps(ws, es, j - 1, j - 1);
      HappensKeeps(ws[j - 1], es[j - 1].0, es[j - 1].1, ws[j]);
      ExtendsRefl(ws[j].s);
    } else {
      RunKeeps(ws, es, i, j - 1);
      HappensKeeps(ws[j - 1], es[j - 1].0, es[j - 1].1, ws[j]);
      ExtendsTransitive(ws[i].s, ws[j - 1].s, ws[j].s);
    }
  }

  // ---------------------------------------------------------------- no lost update

  /** At every moment of the run from i to j the path held what the listing shows. */
  predicate UnchangedSince(ws: seq<World>, listing: State, i: nat, j: nat, p: Path)
    requires i <= j < |ws|
  {
    p in listing.visible && forall k :: i <= k <= j ==> p in ws[k].s.visible && ws[k].s.visible[p] == listing.visible[p]
  }

  /**
   No lost update, whatever the other workspaces did since this one listed the store: a commit
   that writes anything, its own recovery having had nothing to do, overwrites or deletes only
   paths that are absent, that never changed since the listing, or that already hold its content.
   */
  lemma NoLostUpdate(ws: seq<World>, es: seq<(nat, Event)>, i: nat, j: nat, p: Path)
    requires Runs(ws, es) && WorldInv(ws[0]) && i <= j < |es| && es[j].1.Commit?
    requires es[j].0 in ws[i].clients && es[j].0 in ws[j].clients
    requires ws[i].clients[es[j].0].listing == ws[j].clients[es[j].0].listing
    requires Unresolved(ws[j].s) == {} && es[j].1.req.tx in ws[j + 1].s.intents
    requires var c := ws[j].clients[es[j].0]; p in c.t.upserts || p in c.t.deletions
    ensures var c := ws[j].clients[es[j].0];
            || p !in ws[j].s.visible
            || UnchangedSince(ws, c.listing, i, j, p)
            || (p in c.t.upserts && p in c.t.inner && Meaning(ws[j].s.visible[p]) == c.t.inner[p])
  {
    hide Inv, Extends, ClientValid, Atomic, AnswersRetries, LeavesBehind, Prepared;
    var c := ws[j].clients[es[j].0];
    assert Happens(ws[j], es[j].0, es[j].1, ws[j + 1]);
    RunKeeps(ws, es, i, j);
    BaselineIsListing(c, ws[j].s);
    if p in ws[j].s.visible && p in c.t.baseline && ws[j].s.visible[p] == c.t.baseline[p] {
      forall k | i <= k <= j
        ensures p in ws[k].s.visible && ws[k].s.visible[p] == c.t.baseline[p]
      {
        RunKeeps(ws, es, i, k);
        RunKeeps(ws, es, k, j);
        StillThere(ws[i].clients[es[j].0], ws[i].s, ws[k].s, ws[j].s, p);
      }
    } else if p in ws[j].s.visible {
      PreparedMeans(c.t.inner[p], es[j].1.req.now);
    }
  }

  lemma BaselineIsListing(c: Client, s: State)
    requires ClientValid(c, s)
    ensures c.t.baseline == c.listing.visible
  {
    hide Inv, Extends, Sound;
  }

  /** An entry listed before `k` that is still there at `j` was there at `k`. */
  lemma StillThere(c: Client, first: State, k: State, j: State, p: Path)
    requires ClientValid(c, first) && Extends(first, k) && Extends(k, j)
    requires p in c.listing.visible && p in j.visible && j.visible[p] == c.listing.visible[p]
    ensures p in k.visible && k.visible[p] == c.listing.visible[p]
  {
    hide Sound, RecordsInv, ChainInv, HeadInv, ManifestInv, PendingInv, KeyInv, ReceiptInv, Published;
    assert c.listing.visible[p].etag.Some? && c.listing.visible[p].etag.value < |c.listing.issued|;
    assert c.listing.issued <= first.issued <= k.issued;
  }

  /**
   A rolled-back commit touches nobody else: a recovery after it leaves every staged path of
   another workspace in the entry it had, and so in the conflict it was in, or in none, if the
   commit did not stage that path and the entry is what the published manifest records.
   (An entry without its digest recorded is uploaded again, see RestoreVisibleTree.)
   */
  lemma RolledBackConflictsIff(c: Client, a: Client, s: State, req: Request, r: CommitResult, a': Client, s1: State, s2: State, now: nat, p: Path)
    requires ClientValid(a, s) && Unresolved(s) == {}
    requires CommitStep(a, s, req, r, a', s1) && req.tx !in s1.completes && LogInIntents(s1)
    requires Steady(s1, s2) && Spares(s1, s2, {})
    requires p !in ChangedPaths(a.t) && (p in s.visible ==> AsPublished(s1, p))
    ensures p in s2.visible <==> p in s.visible
    ensures p in s.visible ==> s2.visible[p] == s.visible[p]
    ensures Conflicting(s2.visible, c.t.baseline, c.t.deletions, Drafts(c.t, now), p) <==>
            Conflicting(s.visible, c.t.baseline, c.t.deletions, Drafts(c.t, now), p)
  {
    hide Inv, Extends, LosesNothing, AnswersRetries, LeavesBehind, Named, Published, AsPublished, Settled, StagedOver,
         WellFormed, KindsOf;
    InvAtRest(a, s);
    SameConflict(c, s.visible, s2.visible, now, p);
  }

  lemma SameConflict(c: Client, before: map<Path, RemoteEntry>, after: map<Path, RemoteEntry>, now: nat, p: Path)
    requires p in after <==> p in before
    requires p in before ==> after[p] == before[p]
    ensures Conflicting(after, c.t.baseline, c.t.deletions, Drafts(c.t, now), p) <==>
            Conflicting(before, c.t.baseline, c.t.deletions, Drafts(c.t, now), p)
  {
  }

  predicate InNoConflict(c: Client, s: State, now: nat) {
    forall p :: p in ChangedPaths(c.t) ==> !Conflicting(s.visible, c.t.baseline, c.t.deletions, Drafts(c.t, now), p)
  }

  /** So a workspace that was in no conflict before somebody else's commit failed is refused none after the next open has rolled that back. */
  lemma RolledBackIsNoConflict(ws: seq<World>, es: seq<(nat, Event)>, i: nat, id: nat)
    requires Runs(ws, es) && WorldInv(ws[0]) && i + 2 < |es|
    requires es[i].1.Commit? && es[i + 1].1.Open? && es[i + 2].1.Commit?
    requires es[i + 2].0 == id && es[i].0 != id && es[i + 1].0 != id && id in ws[i].clients && es[i].0 in ws[i].clients
    requires Unresolved(ws[i].s) == {} && es[i].1.req.tx !in ws[i + 1].s.completes && LogInIntents(ws[i + 1].s)
    requires var c := ws[i].clients[id];
             && (forall p :: p in ChangedPaths(c.t) ==>
                   p !in ChangedPaths(ws[i].clients[es[i].0].t) && (p in ws[i].s.visible ==> AsPublished(ws[i + 1].s, p)))
             && InNoConflict(c, ws[i].s, es[i + 2].1.req.now)
    ensures !es[i + 2].1.r.Conflict?
  {
    hide Inv, ClientValid, Steady, Spares, AsPublished, Published, Atomic, AnswersRetries, LeavesBehind, Named, Conflicting,
         Reset, Consistent;
    RunKeeps(ws, es, 0, i);
    var e := es[i].1;
    assert Happens(ws[i], es[i].0, e, ws[i + 1]) && Happens(ws[i + 1], es[i + 1].0, es[i + 1].1, ws[i + 2]);
    assert Happens(ws[i + 2], id, es[i + 2].1, ws[i + 3]);
    var c, a := ws[i].clients[id], ws[i].clients[es[i].0];
    var r := es[i + 2].1.r;
    if r.Conflict? {
      ConflictStaged(c, ws[i + 2].s, es[i + 2].1.req.now, r.path);
      RolledBackConflictsIff(c, a, ws[i].s, e.req, e.r, ws[i + 1].clients[es[i].0], ws[i + 1].s, ws[i + 2].s, es[i + 2].1.req.now, r.path);
    }
  }

  lemma ConflictStaged(c: Client, s: State, now: nat, p: Path)
    requires Conflicting(s.visible, c.t.baseline, c.t.deletions, Drafts(c.t, now), p)
    ensures p in ChangedPaths(c.t)
  {
  }

  /** The published content the listing did not show and the commit does not stage. */
  ghost predicate Unseen(c: Client, published: Tree, p: Path) {
    && p in published
    && !(p in c.listing.visible && Meaning(c.listing.visible[p]) == published[p])
    && !(p in c.t.upserts && p in c.t.inner && c.t.inner[p] == published[p])
  }

  /** A change somebody else published, which this workspace never listed, is gone after its commit. */
  ghost predicate Lost(c: Client, s: State, s': State, p: Path)
    requires LogInIntents(s) && LogInIntents(s')
  {
    Unseen(c, Published(s), p) && (p !in Published(s') || Published(s')[p] != Published(s)[p])
  }

  /** A completed commit loses exactly what it stages over unseen; that takes a recovery of its own, for otherwise it is in conflict. */
  lemma CommitLosesIff(c: Client, s: State, req: Request, r: CommitResult, c': Client, s': State, p: Path)
    requires ClientValid(c, s) && CommitStep(c, s, req, r, c', s') && req.tx in s'.completes
    ensures LogInIntents(s) && LogInIntents(s')
    ensures Lost(c, s, s', p) <==> (p in c.t.upserts || p in c.t.deletions) && Unseen(c, Published(s), p)
    ensures Lost(c, s, s', p) ==> Unresolved(s) != {}
  {
    hide Inv, Extends, LeavesBehind, AnswersRetries, Settled, Published, WellFormed, KindsOf;
    PublishedTree(c, s, req, r, s');
    if Unresolved(s) == {} && Lost(c, s, s', p) {
      InvAtRest(c, s);
      assert Unharmed(s.visible, c.t.baseline, Drafts(c.t, req.now), p);
      assert TreeOf(s.visible)[p] == Meaning(s.visible[p]);
      if p in Drafts(c.t, req.now) {
        PreparedMeans(c.t.inner[p], req.now);
      }
    }
  }

  lemma InvAtRest(c: Client, s: State)
    requires ClientValid(c, s)
    ensures LogInIntents(s) && (Unresolved(s) == {} ==> TreeOf(s.visible) == Published(s))
  {
    hide Extends, Sound;
    AtRest(s);
  }

  lemma PublishedTree(c: Client, s: State, req: Request, r: CommitResult, s': State)
    requires Atomic(c, s, req, r, s') && req.tx in s'.completes
    ensures req.tx in s'.intents && req.tx !in s.completes && Published(s') == StagedOver(Published(s), c.t)
  {
    hide Extends, Published, StagedOver, Settled, ChainInv, HeadInv, ManifestInv, PendingInv, VisibleInv, KeyInv, ReceiptInv;
  }

  function TextEntry(body: Body, etag: Option<nat>): RemoteEntry {
    RemoteEntry(File, FILE_MODE, body, Some(Sha256(body)), None, 0, None, etag)
  }

  /** A store with one file that nobody has committed to. */
  function FirstListing(): State {
    var e := TextEntry("old", Some(0));
    State(map[["a"] := e], map[], map[], map[], {}, map[], map[], None, [], [e])
  }

  function ManifestOf(body: Body): Manifest {
    map[["a"] := RevisionEntry(File, FILE_MODE, Some(Sha256(body)), None)]
  }

  /** Later somebody has committed another text, and somebody else's commit stopped after its intent. */
  function Stranded(): State {
    var fingerprint := Current(DigestOf({}, Context("workspace", "", None, None, map[])));
    var first := Intent(0, None, fingerprint, None, 0, Some(ManifestOf("old")));
    var second := Intent(1, Some(0), fingerprint, None, 0, None);
    State(map[["a"] := TextEntry("theirs", Some(1))],
          map[Sha256("old") := "old", Sha256("theirs") := "theirs"],
          map[0 := first, 1 := second],
          map[0 := Complete(first, 0)],
          {},
          map[0 := Revision(None, ManifestOf("theirs"), 0, 0)],
          map[],
          Some(Head(0, 0)),
          [0],
          [TextEntry("old", Some(0)), TextEntry("theirs", Some(1))])
  }

  /** A workspace opened on the first listing, with the file rewritten. */
  function Latecomer(): Client {
    var t := Reset(FirstListing().visible);
    Client(Step(t, Write(["a"], "mine")), map[], None, None, FirstListing())
  }

  lemma StrandedRecords()
    ensures RecordsInv(Stranded()) && ChainInv(Stranded()) && Settled(Stranded()) && Unresolved(Stranded()) == {1}
    ensures RevisionOf(Stranded(), 0) == 0
  {
    var s := Stranded();
    assert s.log[0] == 0 && s.intents[0].newRevision == 0 && s.intents[1].newRevision == 1;
    assert Follows(s, 0);
  }

  lemma StrandedIsGood()
    ensures Inv(Stranded()) && Unresolved(Stranded()) == {1}
    ensures Published(Stranded()) == map[["a"] := FileNode("theirs", FILE_MODE)]
  {
    hide RecordsInv, ChainInv, Settled, Unresolved, RevisionOf;
    StrandedRecords();
    StrandedManifests();
    StrandedPending();
    assert ManifestTree(ManifestOf("theirs")) == map[["a"] := FileNode("theirs", FILE_MODE)];
  }

  lemma StrandedManifests()
    ensures RecordsInv(Stranded()) && ManifestInv(Stranded())
  {
    hide RecordsInv, ChainInv, Settled, Unresolved;
    StrandedRecords();
    assert Belongs(Stranded(), 0) && Readable(Stranded(), 0);
  }

  lemma StrandedPending()
    ensures RecordsInv(Stranded()) && PendingInv(Stranded()) && KeyInv(Stranded()) && ReceiptInv(Stranded()) && VisibleInv(Stranded())
  {
    hide RecordsInv, ChainInv, Settled, Unresolved, Published;
    StrandedRecords();
  }

  /** The input: a valid workspace whose commit will recover, find no conflict and write over a text it never saw. */
  lemma LatecomerOverwrites()
    ensures ClientValid(Latecomer(), Stranded()) && Unresolved(Stranded()) != {} && LogInIntents(Stranded())
    ensures ["a"] in Latecomer().t.upserts && Unseen(Latecomer(), Published(Stranded()), ["a"])
  {
    hide Inv, Published, Sound, Step, Reset;
    StrandedIsGood();
    FirstIsGood();
    LatecomerStages();
    StepSound(Reset(FirstListing().visible), Write(["a"], "mine"));
    StepKeepsBaseline(Reset(FirstListing().visible), Write(["a"], "mine"));
  }

  lemma FirstIsGood()
    ensures Inv(FirstListing()) && Sound(Reset(FirstListing().visible)) && Reset(FirstListing().visible).baseline == FirstListing().visible
  {
    NeverCommittedIsGood(FirstListing());
    assert ParentPaths(["a"]) == {};
    SoundHolds(Reset(map[]), FirstListing().visible);
  }

  lemma LatecomerStages()
    ensures ["a"] in Latecomer().t.upserts && ["a"] in Latecomer().t.inner
    ensures Latecomer().t.inner[["a"]] == FileNode("mine", FILE_MODE)
  {
    var t := Reset(FirstListing().visible);
    assert t.inner[["a"]] == FileNode("old", FILE_MODE);
    assert Placeable(t.inner, ["a"]);
  }

  /** On that input every commit that meets no failure publishes, and the text it never saw is lost. */
  lemma LatecomerLoses(req: Request, concurrency: nat, r: CommitResult, outstanding: set<Path>, c': Client, s': State)
    requires Ends(Latecomer(), Stranded(), req, concurrency, false, false, r, outstanding, c', s') && Consistent(s'.visible)
    ensures r.NewRevision? && LogInIntents(Stranded()) && LogInIntents(s') && Lost(Latecomer(), Stranded(), s', ["a"])
  {
    hide Inv, Published, Sound, Step, Reset, StagedOver, Unseen, Lost, Consistent, Extends;
    LatecomerOverwrites();
    assert Latecomer().moves == map[] && Stranded().completes.Keys == {0} && Stranded().completes[0].intent.key == None;
    CommitLosesIff(Latecomer(), Stranded(), req, r, c', s', ["a"]);
  }

  // ---------------------------------------------------------------- what a run publishes

  /** The transaction an event completes, if it is a commit that does. */
  function CompletedBy(e: Event, s': State): Option<Tx> {
    if e.Commit? && e.req.tx in s'.completes then Some(e.req.tx) else None
  }

  /** The staged changes of the commits that completed, in their order, over what was published first. */
  ghost function PublishedBy(ws: seq<World>, es: seq<(nat, Event)>, n: nat): Tree
    requires Runs(ws, es) && n <= |es| && LogInIntents(ws[0].s)
  {
    if n == 0 then Published(ws[0].s)
    else
      var before := PublishedBy(ws, es, n - 1);
      assert Happens(ws[n - 1], es[n - 1].0, es[n - 1].1, ws[n]);
      if CompletedBy(es[n - 1].1, ws[n].s).Some? then StagedOver(before, ws[n - 1].clients[es[n - 1].0].t) else before
  }

  function CompletedIn(ws: seq<World>, es: seq<(nat, Event)>, n: nat): seq<Tx>
    requires |ws| == |es| + 1 && n <= |es|
  {
    if n == 0 then []
    else CompletedIn(ws, es, n - 1) + if CompletedBy(es[n - 1].1, ws[n].s).Some? then [es[n - 1].1.req.tx] else []
  }

  /** Over every run the chain grows by exactly the completed commits, and what is published is their staged changes folded in order. */
  lemma {:induction false} RunPublishes(ws: seq<World>, es: seq<(nat, Event)>, n: nat)
    requires Runs(ws, es) && WorldInv(ws[0]) && n <= |es|
    ensures LogInIntents(ws[0].s) && LogInIntents(ws[n].s)
    ensures ws[n].s.log == ws[0].s.log + CompletedIn(ws, es, n)
    ensures Published(ws[n].s) == PublishedBy(ws, es, n)
  {
    hide Inv, Extends, ClientValid, Happens, Published, StagedOver, WorldInv;
    RunKeeps(ws, es, 0, n);
    WorldLog(ws[0]);
    WorldLog(ws[n]);
    if n > 0 {
      RunPublishes(ws, es, n - 1);
      RunKeeps(ws, es, 0, n - 1);
      EventPublishes(ws[n - 1], es[n - 1].0, es[n - 1].1, ws[n]);
    }
  }

  lemma WorldLog(w: World)
    requires WorldInv(w)
    ensures LogInIntents(w.s)
  {
    hide ClientValid;
  }

  lemma EventPublishes(w: World, id: nat, e: Event, w': World)
    requires WorldInv(w) && Happens(w, id, e, w')
    ensures LogInIntents(w.s) && LogInIntents(w'.s)
    ensures CompletedBy(e, w'.s).Some? ==> id in w.clients
    ensures w'.s.log == w.s.log + if CompletedBy(e, w'.s).Some? then [e.req.tx] else []
    ensures Published(w'.s) == if CompletedBy(e, w'.s).Some? then StagedOver(Published(w.s), w.clients[id].t) else Published(w.s)
  {
    hide ClientValid, Extends, Published, StagedOver, ChainInv, HeadInv, ManifestInv, PendingInv, VisibleInv, KeyInv, ReceiptInv,
         LosesNothing, AnswersRetries, LeavesBehind, Settled, RestoreStep, Restorable, Step, Consistent, Reset;
  }

  /** Over every run no key completes twice. */
  lemma KeyCompletesOnce(ws: seq<World>, es: seq<(nat, Event)>, n: nat, t: Tx, u: Tx)
    requires Runs(ws, es) && WorldInv(ws[0]) && n <= |es|
    requires t in ws[n].s.completes && u in ws[n].s.completes && ws[n].s.completes[t].intent.key.Some?
    requires ws[n].s.completes[t].intent.key == ws[n].s.completes[u].intent.key
    ensures t == u
  {
    hide ClientValid, Happens, ChainInv, HeadInv, ManifestInv, PendingInv, VisibleInv, ReceiptInv, Published, Extends;
    RunKeeps(ws, es, 0, n);
    var s := ws[n].s;
    assert s.intents[t].key == s.intents[u].key;
  }

  // ---------------------------------------------------------------- retries

  predicate Succeeds(e: Event) {
    e.Commit? && (e.r.NewRevision? || e.r.Replayed?)
  }

  /** The workspace is not opened anew or discarded and no commit of it succeeds, whatever it edits and whatever others do. */
  predicate StillTrying(es: seq<(nat, Event)>, id: nat, first: nat, last: nat)
    requires first <= last <= |es|
  {
    forall k :: first <= k < last && es[k].0 == id ==> !es[k].1.Open? && !es[k].1.Discard? && !Succeeds(es[k].1)
  }

  lemma {:induction false} PartialKept(ws: seq<World>, es: seq<(nat, Event)>, id: nat, first: nat, last: nat)
    requires Runs(ws, es) && WorldInv(ws[0]) && first <= last <= |es| && StillTrying(es, id, first, last)
    requires id in ws[first].clients && ws[first].clients[id].partialTx.Some?
    requires ws[first].clients[id].partialTx.value in ws[first].s.completes
    ensures id in ws[last].clients && ws[last].clients[id].partialTx == ws[first].clients[id].partialTx
    ensures ws[first].clients[id].partialTx.value in ws[last].s.completes
    ensures ws[last].s.completes[ws[first].clients[id].partialTx.value] == ws[first].s.completes[ws[first].clients[id].partialTx.value]
    decreases last
  {
    hide WorldInv, Happens;
    if first < last {
      RunKeeps(ws, es, 0, last - 1);
      PartialKept(ws, es, id, first, last - 1);
      assert es[last - 1].0 == id ==> !es[last - 1].1.Open? && !es[last - 1].1.Discard? && !Succeeds(es[last - 1].1);
      PartialStays(ws[last - 1], es[last - 1].0, es[last - 1].1, ws[last], id);
    }
  }

  lemma PartialStays(w: World, actor: nat, e: Event, w': World, id: nat)
    requires WorldInv(w) && Happens(w, actor, e, w') && id in w.clients
    requires w.clients[id].partialTx.Some? && w.clients[id].partialTx.value in w.s.completes
    requires actor == id ==> !e.Open? && !e.Discard? && !Succeeds(e)
    ensures id in w'.clients && w'.clients[id].partialTx == w.clients[id].partialTx
    ensures w.clients[id].partialTx.value in w'.s.completes
    ensures w'.s.completes[w.clients[id].partialTx.value] == w.s.completes[w.clients[id].partialTx.value]
  {
    hide Inv, ClientValid, Published, Atomic, LosesNothing, Steady, Step, StageTarget, Restorable, Consistent, Reset, MovesResolve,
         FingerprintFor, WorldInv;
    HappensKeeps(w, actor, e, w');
  }

  /**
   However often a commit is tried again, whatever is edited in between and whatever other
   workspaces do, once one attempt has published none of the later ones does: it is answered
   with that transaction if it asks for the same commit, and refused otherwise.
   */
  lemma RetriesPublishOnce(ws: seq<World>, es: seq<(nat, Event)>, id: nat, i: nat, j: nat)
    requires Runs(ws, es) && WorldInv(ws[0]) && i < j < |es|
    requires es[i].0 == id && es[i].1.Commit? && !Succeeds(es[i].1) && es[i].1.req.tx in ws[i + 1].s.completes
    requires es[j].0 == id && es[j].1.Commit? && StillTrying(es, id, i + 1, j)
    ensures es[j].1.req.tx !in ws[j + 1].s.intents && es[j].1.req.tx !in ws[j + 1].s.completes
    ensures !es[j].1.r.NewRevision? && !es[j].1.r.Conflict?
    ensures es[j].1.r.Replayed? ==> es[j].1.r.tx == es[i].1.req.tx
    ensures id in ws[j].clients
    ensures !es[j].1.r.Failed? ==>
              && MovesResolve(ws[j].clients[id].t, ws[j].clients[id].moves) && es[i].1.req.tx in ws[j].s.completes
              && var bound := ws[j].s.completes[es[i].1.req.tx].intent.fingerprint;
                 es[j].1.r.Replayed? <==> bound.Legacy? || bound == FingerprintFor(ws[j].clients[id], es[j].1.req)
  {
    hide CommitStep, Happens, MovesResolve, FingerprintFor, WorldInv, Extends;
    AttemptKept(ws, es, id, i, j);
    CommitOf(ws[j], id, es[j].1, ws[j + 1]);
    RunKeeps(ws, es, 0, j + 1);
    CompletesHaveIntents(ws[j + 1], es[j].1.req.tx);
    AnsweredByPartial(ws[j].clients[id], ws[j].s, es[j].1.req, es[j].1.r, ws[j + 1].clients[id], ws[j + 1].s, es[i].1.req.tx);
  }

  lemma CompletesHaveIntents(w: World, tx: Tx)
    requires WorldInv(w)
    ensures tx in w.s.completes ==> tx in w.s.intents
  {
    hide ClientValid, ChainInv, HeadInv, ManifestInv, PendingInv, VisibleInv, KeyInv, ReceiptInv, Published;
  }

  lemma AnsweredByPartial(c: Client, s: State, req: Request, r: CommitResult, c': Client, s': State, tx: Tx)
    requires CommitStep(c, s, req, r, c', s') && c.partialTx == Some(tx) && tx in s.completes
    ensures req.tx !in s'.intents && !r.NewRevision? && !r.Conflict? && (r.Replayed? ==> r.tx == tx)
    ensures !r.Failed? ==>
              && MovesResolve(c.t, c.moves)
              && var bound := s.completes[tx].intent.fingerprint;
                 r.Replayed? <==> bound.Legacy? || bound == FingerprintFor(c, req)
  {
    hide ClientValid, Published, LosesNothing, LeavesBehind, Steady, MovesResolve, FingerprintFor;
    AtomicIntents(c, s, req, r, s');
  }

  lemma AtomicIntents(c: Client, s: State, req: Request, r: CommitResult, s': State)
    requires Atomic(c, s, req, r, s')
    ensures req.tx in s'.completes ==> req.tx in s'.intents
  {
    hide Extends, Published, StagedOver, Settled, ChainInv, HeadInv, ManifestInv, PendingInv, VisibleInv, KeyInv, ReceiptInv;
  }

  // ---------------------------------------------------------------- when a retry is the same commit

  lemma PlannedAlike(t: Tracked, moves: map<Path, Path>, a: map<Path, RemoteEntry>, b: map<Path, RemoteEntry>)
    requires MovesResolve(t, moves) && a.Keys == t.upserts * t.inner.Keys && b.Keys == a.Keys
    requires forall p :: p in a ==> a[p].kind == b[p].kind && a[p].contentHash == b[p].contentHash && SizeOf(a[p]) == SizeOf(b[p])
    ensures PlannedChanges(t, moves, a) == PlannedChanges(t, moves, b)
  {
    hide BeforeOf, SizeOf;
  }

  /** The times of the staged nodes are not part of the planned changes. */
  lemma PlannedIgnoresTime(t: Tracked, moves: map<Path, Path>, now: nat, later: nat)
    requires MovesResolve(t, moves)
    ensures PlannedChanges(t, moves, Drafts(t, now)) == PlannedChanges(t, moves, Drafts(t, later))
  {
    hide MovesResolve, PlannedChanges, SizeOf, Prepared;
    var a, b := Drafts(t, now), Drafts(t, later);
    forall p | p in a
      ensures a[p].kind == b[p].kind && a[p].contentHash == b[p].contentHash && SizeOf(a[p]) == SizeOf(b[p])
    {
      SameDraft(t.inner[p], now, later);
    }
    PlannedAlike(t, moves, a, b);
  }

  lemma SameDraft(n: Node, now: nat, later: nat)
    ensures Prepared(n, now).kind == Prepared(n, later).kind && Prepared(n, now).contentHash == Prepared(n, later).contentHash
    ensures SizeOf(Prepared(n, now)) == SizeOf(Prepared(n, later))
  {
  }

  predicate SameContext(a: Context, b: Context) {
    a.actor == b.actor && a.correlationId == b.correlationId && a.cause == b.cause && a.metadata == b.metadata
  }

  /** The changes planned over one baseline, described as the fingerprint does. */
  function Plan(c: Client): set<Change>
    requires MovesResolve(c.t, c.moves)
  {
    PlannedChanges(c.t, c.moves, Drafts(c.t, 0))
  }

  lemma FingerprintIff(c: Client, req: Request, d: Client, again: Request)
    requires MovesResolve(c.t, c.moves) && MovesResolve(d.t, d.moves)
    ensures FingerprintFor(c, req) == FingerprintFor(d, again) <==>
            Plan(c) == Plan(d) && SameContext(ContextOf(c, req), ContextOf(d, again))
    ensures FingerprintFor(c, req).Current? && FingerprintFor(d, again).Current?
  {
    hide PlannedChanges, MovesResolve;
    PlannedIgnoresTime(c.t, c.moves, req.now, 0);
    PlannedIgnoresTime(d.t, d.moves, again.now, 0);
  }

  lemma IntentFingerprint(c: Client, s: State, req: Request, r: CommitResult, c': Client, s': State)
    requires CommitStep(c, s, req, r, c', s') && req.tx in s'.completes
    ensures MovesResolve(c.t, c.moves) && s'.completes[req.tx].intent.fingerprint == FingerprintFor(c, req)
    ensures s'.completes[req.tx].intent.key == ContextOf(c, req).idempotencyKey
  {
    hide Atomic, LosesNothing, AnswersRetries, LeavesBehind, MovesResolve, FingerprintFor, Published, Extends, Sound, ContextOf,
         ChainInv, HeadInv, ManifestInv, PendingInv, VisibleInv, KeyInv, ReceiptInv;
  }

  /**
   A retry after a commit that published and did not say so is answered with that commit exactly
   if it plans the same changes over the baseline it now has, in the same context.
   */
  lemma RetryMatchesIff(ws: seq<World>, es: seq<(nat, Event)>, id: nat, i: nat, j: nat)
    requires Runs(ws, es) && WorldInv(ws[0]) && i < j < |es|
    requires es[i].0 == id && es[i].1.Commit? && !Succeeds(es[i].1) && es[i].1.req.tx in ws[i + 1].s.completes
    requires es[j].0 == id && es[j].1.Commit? && StillTrying(es, id, i + 1, j) && !es[j].1.r.Failed?
    ensures id in ws[i].clients && id in ws[j].clients
    ensures MovesResolve(ws[i].clients[id].t, ws[i].clients[id].moves) && MovesResolve(ws[j].clients[id].t, ws[j].clients[id].moves)
    ensures es[j].1.r == (if Plan(ws[j].clients[id]) == Plan(ws[i].clients[id])
                             && SameContext(ContextOf(ws[j].clients[id], es[j].1.req), ContextOf(ws[i].clients[id], es[i].1.req))
                          then Replayed(es[i].1.req.tx) else KeyConflict)
  {
    hide WorldInv, CommitStep, MovesResolve, FingerprintFor, Plan, ContextOf, SameContext, Atomic;
    assert Happens(ws[i], id, es[i].1, ws[i + 1]) && Happens(ws[j], id, es[j].1, ws[j + 1]);
    IntentFingerprint(ws[i].clients[id], ws[i].s, es[i].1.req, es[i].1.r, ws[i + 1].clients[id], ws[i + 1].s);
    AttemptKept(ws, es, id, i, j);
    RetriesPublishOnce(ws, es, id, i, j);
    FingerprintIff(ws[j].clients[id], es[j].1.req, ws[i].clients[id], es[i].1.req);
    SettledAnswer(es[j].1.r, ws[j].clients[id], ws[j].s, es[j].1.req, ws[j + 1].clients[id], ws[j + 1].s);
  }

  lemma AttemptKept(ws: seq<World>, es: seq<(nat, Event)>, id: nat, i: nat, j: nat)
    requires Runs(ws, es) && WorldInv(ws[0]) && i < j < |es|
    requires es[i].0 == id && es[i].1.Commit? && !Succeeds(es[i].1) && es[i].1.req.tx in ws[i + 1].s.completes
    requires StillTrying(es, id, i + 1, j)
    ensures id in ws[j].clients && ws[j].clients[id].partialTx == Some(es[i].1.req.tx) && es[i].1.req.tx in ws[j].s.completes
    ensures ws[j].s.completes[es[i].1.req.tx] == ws[i + 1].s.completes[es[i].1.req.tx]
  {
    hide WorldInv, ClientValid, Atomic, LosesNothing, AnswersRetries, Steady, Published, Reset;
    assert Happens(ws[i], id, es[i].1, ws[i + 1]);
    PartialKept(ws, es, id, i + 1, j);
  }

  lemma SettledAnswer(r: CommitResult, c: Client, s: State, req: Request, c': Client, s': State)
    requires CommitStep(c, s, req, r, c', s') && c.partialTx.Some? && c.partialTx.value in s.completes && !r.Failed?
    ensures r == Replayed(c.partialTx.value) || r == KeyConflict
  {
    hide ClientValid, Atomic, LosesNothing, LeavesBehind, Named, MovesResolve, FingerprintFor;
  }

  /** Its key is bound to the completed commit `u`, and it does not retry a completed commit of its own. */
  predicate BoundTo(c: Client, s: State, req: Request, u: Tx) {
    && u in s.completes && s.completes[u].intent.key.Some?
    && ContextOf(c, req).idempotencyKey == s.completes[u].intent.key
    && !(c.partialTx.Some? && c.partialTx.value in s.completes)
  }

  lemma AnsweredByKey(c: Client, s: State, req: Request, r: CommitResult, c': Client, s': State, u: Tx)
    requires ClientValid(c, s) && CommitStep(c, s, req, r, c', s') && BoundTo(c, s, req, u)
    ensures req.tx !in s'.intents && req.tx !in s'.completes && !r.NewRevision? && !r.Conflict?
    ensures !r.Failed? ==>
              && MovesResolve(c.t, c.moves)
              && r == if s.completes[u].intent.fingerprint == FingerprintFor(c, req) then Replayed(u) else KeyConflict
  {
    hide Published, LosesNothing, LeavesBehind, Steady, MovesResolve, FingerprintFor, ChainInv, HeadInv, ManifestInv, PendingInv,
         VisibleInv, ReceiptInv, Extends, Sound, Named;
    AtomicIntents(c, s, req, r, s');
    OneCarrier(s, u);
  }

  lemma OneCarrier(s: State, u: Tx)
    requires Inv(s) && u in s.completes && s.completes[u].intent.key.Some?
    ensures forall v :: v in s.completes && s.completes[v].intent.key == s.completes[u].intent.key ==> v == u
  {
    hide ChainInv, HeadInv, ManifestInv, PendingInv, VisibleInv, ReceiptInv, Published;
    forall v | v in s.completes && s.completes[v].intent.key == s.completes[u].intent.key
      ensures v == u
    {
      assert s.intents[v].key == s.intents[u].key;
    }
  }

  /** A commit that is not answered leaves what is staged in place: live tree, upserts and moves, and every deletion of a path still there. */
  lemma RefusedKeepsStaged(c: Client, s: State, req: Request, r: CommitResult, c': Client, s': State)
    requires CommitStep(c, s, req, r, c', s') && !r.NewRevision? && !r.Replayed?
    ensures c'.t.inner == c.t.inner && c'.t.upserts == c.t.upserts && c'.moves == c.moves && c'.source == c.source
    ensures c'.t.deletions.Keys <= c.t.deletions.Keys
    ensures LogInIntents(s) && forall p :: p in c.t.deletions && p !in c'.t.deletions ==> p !in Published(s)
  {
    hide Inv, Extends, Sound, Published, Steady, LosesNothing, AnswersRetries, Named, Settled, StagedOver;
  }

  lemma CompletesKept(ws: seq<World>, es: seq<(nat, Event)>, i: nat, j: nat, u: Tx)
    requires Runs(ws, es) && WorldInv(ws[0]) && i <= j < |ws| && u in ws[i].s.completes
    ensures WorldInv(ws[j]) && u in ws[j].s.completes && ws[j].s.completes[u] == ws[i].s.completes[u]
  {
    hide Inv, ClientValid, Happens, Published;
    RunKeeps(ws, es, i, j);
  }

  lemma ClientOf(w: World, id: nat)
    requires WorldInv(w) && id in w.clients
    ensures ClientValid(w.clients[id], w.s)
  {
    hide ClientValid, Inv;
  }

  lemma BoundByKey(c: Client, s: State, req: Request, u: Tx)
    requires u in s.completes && s.completes[u].intent.key.Some?
    requires ContextOf(c, req).idempotencyKey == s.completes[u].intent.key
    requires c.partialTx.None? || c.partialTx.value !in s.completes
    ensures BoundTo(c, s, req, u)
  {
  }

  lemma CommitOf(w: World, id: nat, e: Event, w': World)
    requires Happens(w, id, e, w') && e.Commit?
    ensures id in w.clients && id in w'.clients && CommitStep(w.clients[id], w.s, e.req, e.r, w'.clients[id], w'.s)
  {
    hide CommitStep;
  }

  lemma KeyAnswer(c: Client, first: Request, d: Client, s: State, again: Request, r: CommitResult, d': Client, s': State, u: Tx)
    requires ClientValid(d, s) && CommitStep(d, s, again, r, d', s') && BoundTo(d, s, again, u)
    requires MovesResolve(c.t, c.moves) && u in s.completes && s.completes[u].intent.fingerprint == FingerprintFor(c, first)
    ensures again.tx !in s'.intents && again.tx !in s'.completes
    ensures !r.Failed? ==>
              && MovesResolve(d.t, d.moves)
              && r == if Plan(d) == Plan(c) && SameContext(ContextOf(d, again), ContextOf(c, first)) then Replayed(u) else KeyConflict
    ensures r.KeyConflict? ==>
              && d'.t.inner == d.t.inner && d'.t.upserts == d.t.upserts && d'.moves == d.moves && d'.source == d.source
              && d'.t.deletions.Keys <= d.t.deletions.Keys
  {
    hide CommitStep, MovesResolve, FingerprintFor, Plan, ContextOf, SameContext, BoundTo, ClientValid;
    AnsweredByKey(d, s, again, r, d', s', u);
    if r.KeyConflict? {
      RefusedKeepsStaged(d, s, again, r, d', s');
    }
    if !r.Failed? {
      FingerprintIff(d, again, c, first);
    }
  }

  /**
   A commit whose key another commit carries, of whatever workspace, writes nothing.  It is
   answered with that commit exactly if both plan the same changes in the same context, and
   otherwise refused, with everything staged still in place.
   */
  lemma KeyMatchesIff(ws: seq<World>, es: seq<(nat, Event)>, i: nat, j: nat)
    requires Runs(ws, es) && WorldInv(ws[0]) && i < j < |es| && es[i].1.Commit? && es[j].1.Commit?
    requires es[i].0 in ws[i].clients && es[j].0 in ws[j].clients && es[j].0 in ws[j + 1].clients
    requires es[i].1.req.tx in ws[i + 1].s.completes && ContextOf(ws[i].clients[es[i].0], es[i].1.req).idempotencyKey.Some?
    requires ContextOf(ws[j].clients[es[j].0], es[j].1.req).idempotencyKey == ContextOf(ws[i].clients[es[i].0], es[i].1.req).idempotencyKey
    requires var partial := ws[j].clients[es[j].0].partialTx; partial.None? || partial.value !in ws[j].s.completes
    ensures es[j].1.req.tx !in ws[j + 1].s.intents && es[j].1.req.tx !in ws[j + 1].s.completes
    ensures var c, d := ws[i].clients[es[i].0], ws[j].clients[es[j].0];
            !es[j].1.r.Failed? ==>
              && MovesResolve(c.t, c.moves) && MovesResolve(d.t, d.moves)
              && es[j].1.r == if Plan(d) == Plan(c) && SameContext(ContextOf(d, es[j].1.req), ContextOf(c, es[i].1.req))
                              then Replayed(es[i].1.req.tx) else KeyConflict
    ensures var d, d' := ws[j].clients[es[j].0], ws[j + 1].clients[es[j].0];
            es[j].1.r.KeyConflict? ==>
              && d'.t.inner == d.t.inner && d'.t.upserts == d.t.upserts && d'.moves == d.moves && d'.source == d.source
              && d'.t.deletions.Keys <= d.t.deletions.Keys
  {
    hide WorldInv, Happens, CommitStep, MovesResolve, FingerprintFor, Plan, ContextOf, SameContext, BoundTo, ClientValid;
    var u := es[i].1.req.tx;
    var c, d := ws[i].clients[es[i].0], ws[j].clients[es[j].0];
    CommitOf(ws[i], es[i].0, es[i].1, ws[i + 1]);
    IntentFingerprint(c, ws[i].s, es[i].1.req, es[i].1.r, ws[i + 1].clients[es[i].0], ws[i + 1].s);
    CompletesKept(ws, es, i + 1, j, u);
    CommitOf(ws[j], es[j].0, es[j].1, ws[j + 1]);
    ClientOf(ws[j], es[j].0);
    BoundByKey(d, ws[j].s, es[j].1.req, u);
    KeyAnswer(c, es[i].1.req, d, ws[j].s, es[j].1.req, es[j].1.r, ws[j + 1].clients[es[j].0], ws[j + 1].s, u);
  }

  /** With nothing staged in between and the context given again, a retry is answered; with none given either time, it is refused. */
  lemma UnchangedRetry(ws: seq<World>, es: seq<(nat, Event)>, id: nat, i: nat, j: nat)
    requires Runs(ws, es) && WorldInv(ws[0]) && i < j < |es|
    requires es[i].0 == id && es[i].1.Commit? && !Succeeds(es[i].1) && es[i].1.req.tx in ws[i + 1].s.completes
    requires es[j].0 == id && es[j].1.Commit? && StillTrying(es, id, i + 1, j) && !es[j].1.r.Failed?
    requires id in ws[i].clients && id in ws[j].clients
    requires ws[j].clients[id].t == ws[i].clients[id].t && ws[j].clients[id].moves == ws[i].clients[id].moves
    requires ws[j].clients[id].source == ws[i].clients[id].source
    ensures es[i].1.req.context.Some? && es[j].1.req.context == es[i].1.req.context ==> es[j].1.r == Replayed(es[i].1.req.tx)
    ensures es[i].1.req.context.None? && es[j].1.req.context.None? && es[j].1.req.correlation != es[i].1.req.correlation ==>
              es[j].1.r == KeyConflict
  {
    hide Runs, WorldInv, MovesResolve, PlannedChanges, StillTrying;
    RetryMatchesIff(ws, es, id, i, j);
  }

  /**
   A commit begun on a store at rest that fails anywhere, followed by a discard, has done all or
   nothing: the visible tree is the staged tree if the complete record was written, and otherwise
   what was published before.  The user may have edited files or staged a revision in between.
   */
  lemma FailedThenDiscarded(c: Client, s: State, req: Request, r: CommitResult, c': Client, s': State,
                            d: Client, d': Client, s'': State)
    requires ClientValid(c, s) && Unresolved(s) == {}
    requires CommitStep(c, s, req, r, c', s') && !r.NewRevision? && !r.Replayed?
    requires d.partialTx == c'.partialTx && DiscardStep(d, s', true, d', s'')
    ensures LogInIntents(s) && TreeOf(s''.visible) == if req.tx in s'.completes then StagedOver(Published(s), c.t) else Published(s)
  {
    hide ClientValid, LosesNothing, AnswersRetries, Named, Published, StagedOver, TreeOf, Reset, Extends, Inv;
    InvLog(c, s, c', s');
    StartsQuietly(c, s, 0);
    RestsOnPublished(s);
  }

  /** The new baseline describes every entry the staged changes replace as the old one did. */
  predicate SameBefore(t: Tracked, next: map<Path, RemoteEntry>) {
    && (forall p :: p in t.deletions ==>
          p in next && next[p].kind == t.deletions[p].kind && BeforeOf(next[p]) == BeforeOf(t.deletions[p]))
    && (forall p :: p in t.upserts ==>
          (p in next <==> p in t.baseline) && (p in next ==> BeforeOf(next[p]) == BeforeOf(t.baseline[p])))
  }

  /** The relocations of a plan, field by field: one for each move, from the baseline's entry to the staged one, or else the baseline's. */
  lemma PlanMoves(c: Client, q: Path, k: Kind, p: Path, b: Before, h: Option<Hash>, n: Option<nat>)
    requires MovesResolve(c.t, c.moves)
    ensures Relocation(q, k, p, b, h, n) in Plan(c) <==>
              && p in c.moves && q == c.moves[p] && b == BeforeOf(c.t.baseline[p])
              && (if q in c.t.upserts && q in c.t.inner
                  then k == KindOf(c.t.inner[q]) && h == Some(Digested(c.t.inner[q])) && n == TextSize(c.t.inner[q])
                  else k == c.t.baseline[q].kind && h == c.t.baseline[q].contentHash && n == SizeOf(c.t.baseline[q]))
  {
    hide AuditedHash, BeforeOf;
    var x := Relocation(q, k, p, b, h, n);
    var uploads := Drafts(c.t, 0);
    if p in c.moves {
      var after := if c.moves[p] in uploads then uploads[c.moves[p]] else c.t.baseline[c.moves[p]];
      assert Relocation(c.moves[p], after.kind, p, BeforeOf(c.t.baseline[p]), after.contentHash, SizeOf(after)) in Plan(c);
    }
  }

  /** Its removals and placements: one for each deletion, and for each upload, that no move accounts for. */
  lemma PlanRemovals(c: Client, p: Path, k: Kind, b: Before)
    requires MovesResolve(c.t, c.moves)
    ensures Removal(p, k, b) in Plan(c) <==>
              p in c.t.deletions && p !in c.moves && k == c.t.deletions[p].kind && b == BeforeOf(c.t.deletions[p])
  {
    hide AuditedHash, BeforeOf, SizeOf, Prepared;
  }

  lemma PlanPlacements(c: Client, p: Path, k: Kind, b: Option<Before>, h: Option<Hash>, n: Option<nat>)
    requires MovesResolve(c.t, c.moves)
    ensures Placement(p, k, b, h, n) in Plan(c) <==>
              && p in c.t.upserts && p in c.t.inner && p !in c.moves.Values && k == KindOf(c.t.inner[p])
              && b == (if p in c.t.baseline then Some(BeforeOf(c.t.baseline[p])) else None)
              && h == Some(Digested(c.t.inner[p])) && n == TextSize(c.t.inner[p])
  {
    hide AuditedHash, BeforeOf;
  }

  /** What is hashed and measured of a staged node: a file's text, a link's target, nothing of a directory. */
  function Digested(n: Node): Hash {
    match n
    case FileNode(body, _) => Sha256(body)
    case DirNode(_) => Sha256("")
    case LinkNode(target, _) => Sha256(target)
  }

  function TextSize(n: Node): Option<nat> {
    if n.FileNode? then Some(|n.body|) else None
  }

  /** Plans that agree record the same moves, and move the same texts and link targets. */
  lemma SamePlanSameMoves(c: Client, d: Client, p: Path)
    requires MovesResolve(c.t, c.moves) && MovesResolve(d.t, d.moves) && Plan(c) == Plan(d)
    ensures p in c.moves <==> p in d.moves
    ensures p in c.moves ==> d.moves[p] == c.moves[p]
    ensures p in c.moves && c.moves[p] in c.t.upserts * d.t.upserts && c.moves[p] in c.t.inner && c.moves[p] in d.t.inner ==>
              KindOf(c.t.inner[c.moves[p]]) == KindOf(d.t.inner[c.moves[p]]) && Digested(c.t.inner[c.moves[p]]) == Digested(d.t.inner[c.moves[p]])
  {
    hide Plan, BeforeOf, SizeOf, TextSize, Digested;
    if p in c.moves {
      MoveInPlan(c, d, p);
    }
    if p in d.moves {
      MoveInPlan(d, c, p);
    }
  }

  lemma MoveInPlan(c: Client, d: Client, p: Path)
    requires MovesResolve(c.t, c.moves) && MovesResolve(d.t, d.moves) && Plan(c) <= Plan(d) && p in c.moves
    ensures p in d.moves && d.moves[p] == c.moves[p]
    ensures var q := c.moves[p];
            q in c.t.upserts * d.t.upserts && q in c.t.inner && q in d.t.inner ==>
              KindOf(c.t.inner[q]) == KindOf(d.t.inner[q]) && Digested(c.t.inner[q]) == Digested(d.t.inner[q])
  {
    hide Plan, BeforeOf, SizeOf, TextSize, Digested;
    var q, b := c.moves[p], BeforeOf(c.t.baseline[p]);
    var staged := q in c.t.upserts && q in c.t.inner;
    var k := if staged then KindOf(c.t.inner[q]) else c.t.baseline[q].kind;
    var h := if staged then Some(Digested(c.t.inner[q])) else c.t.baseline[q].contentHash;
    var n := if staged then TextSize(c.t.inner[q]) else SizeOf(c.t.baseline[q]);
    PlanMoves(c, q, k, p, b, h, n);
    PlanMoves(d, q, k, p, b, h, n);
  }

  /** A retry that edited the text of a moved file asks for another commit. */
  lemma EditedMoveDiffers(c: Client, d: Client, from: Path)
    requires MovesResolve(c.t, c.moves) && MovesResolve(d.t, d.moves) && from in c.moves && from in d.moves && d.moves[from] == c.moves[from]
    requires var p := c.moves[from]; p in c.t.upserts * d.t.upserts && p in c.t.inner && p in d.t.inner
    requires var p := c.moves[from]; c.t.inner[p].FileNode? && d.t.inner[p].FileNode? && c.t.inner[p].body != d.t.inner[p].body
    ensures Plan(c) != Plan(d)
  {
    hide Plan;
    if Plan(c) == Plan(d) {
      SamePlanSameMoves(c, d, from);
    }
  }

  lemma PlanWithoutMoves(c: Client, p: Path)
    requires Delta(c.t) && c.moves == map[]
    ensures forall x :: x in Plan(c) ==> x.Removal? || x.Placement?
    ensures forall k, b :: Removal(p, k, b) in Plan(c) <==> p in c.t.deletions && k == c.t.deletions[p].kind && b == BeforeOf(c.t.deletions[p])
    ensures forall k, b, h, n :: Placement(p, k, b, h, n) in Plan(c) <==>
              && p in c.t.upserts && k == Prepared(c.t.inner[p], 0).kind
              && b == (if p in c.t.baseline then Some(BeforeOf(c.t.baseline[p])) else None)
              && h == Prepared(c.t.inner[p], 0).contentHash && n == SizeOf(Prepared(c.t.inner[p], 0))
  {
    hide BeforeOf, SizeOf, Prepared;
  }

  lemma RefreshedDelta(t: Tracked, next: map<Path, RemoteEntry>)
    requires Delta(t)
    ensures Delta(Refreshed(t, next))
  {
  }

  /** Over a new baseline the plan is the same exactly if every entry it replaces is described the same. */
  lemma RefreshedPlanIff(c: Client, next: map<Path, RemoteEntry>)
    requires Delta(c.t) && c.moves == map[]
    ensures Plan(c.(t := Refreshed(c.t, next))) == Plan(c) <==> SameBefore(c.t, next)
  {
    hide Plan, BeforeOf, SizeOf, Prepared, Delta;
    RefreshedDelta(c.t, next);
    if Plan(c.(t := Refreshed(c.t, next))) == Plan(c) {
      SamePlanSameBefore(c, next);
    } else {
      if SameBefore(c.t, next) {
        SameBeforeSamePlan(c, next);
      }
    }
  }

  lemma SamePlanSameBefore(c: Client, next: map<Path, RemoteEntry>)
    requires Delta(c.t) && c.moves == map[] && Plan(c.(t := Refreshed(c.t, next))) == Plan(c)
    ensures SameBefore(c.t, next)
  {
    hide Plan, BeforeOf, SizeOf, Prepared, Delta;
    RefreshedDelta(c.t, next);
    var d := c.(t := Refreshed(c.t, next));
    forall p | p in c.t.deletions
      ensures p in next && next[p].kind == c.t.deletions[p].kind && BeforeOf(next[p]) == BeforeOf(c.t.deletions[p])
    {
      PlanWithoutMoves(c, p);
      PlanWithoutMoves(d, p);
      assert Removal(p, c.t.deletions[p].kind, BeforeOf(c.t.deletions[p])) in Plan(d);
    }
    forall p | p in c.t.upserts
      ensures (p in next <==> p in c.t.baseline) && (p in next ==> BeforeOf(next[p]) == BeforeOf(c.t.baseline[p]))
    {
      PlanWithoutMoves(c, p);
      PlanWithoutMoves(d, p);
      var e := Prepared(c.t.inner[p], 0);
      assert Placement(p, e.kind, if p in c.t.baseline then Some(BeforeOf(c.t.baseline[p])) else None, e.contentHash, SizeOf(e)) in Plan(d);
    }
  }

  lemma SameBeforeSamePlan(c: Client, next: map<Path, RemoteEntry>)
    requires Delta(c.t) && c.moves == map[] && SameBefore(c.t, next)
    ensures Plan(c.(t := Refreshed(c.t, next))) == Plan(c)
  {
    hide Plan, BeforeOf, SizeOf, Prepared, Delta;
    RefreshedDelta(c.t, next);
    var d := c.(t := Refreshed(c.t, next));
    forall x
      ensures x in Plan(d) <==> x in Plan(c)
    {
      PlanWithoutMoves(c, x.path);
      PlanWithoutMoves(d, x.path);
    }
  }

  /** The input: the entry under a staged write was restored by a recovery, so it has another etag and the plan another digest. */
  lemma RefreshedRetryDiffers()
    ensures var c := Latecomer(); Delta(c.t) && Plan(c.(t := Refreshed(c.t, map[["a"] := TextEntry("old", Some(2))]))) != Plan(c)
  {
    hide Step, Reset, Sound;
    LatecomerStages();
    FirstIsGood();
    StepSound(Reset(FirstListing().visible), Write(["a"], "mine"));
    StepKeepsBaseline(Reset(FirstListing().visible), Write(["a"], "mine"));
    SoundIsDelta(Latecomer().t);
    RefreshedPlanIff(Latecomer(), map[["a"] := TextEntry("old", Some(2))]);
  }

  lemma SoundIsDelta(t: Tracked)
    requires Sound(t)
    ensures Delta(t)
  {
  }

  // ---------------------------------------------------------------- two workspace objects on one store

  /** A commit of one workspace leaves another one as it was, and fit for its next call. */
  method CommitBeside(a: StorageWorkspace, b: StorageWorkspace, req: Request, concurrency: nat, lostFirst: bool, lostLast: bool)
    returns (r: CommitResult)
    requires a.storage == b.storage && a != b && a.fs != b.fs
    requires a.Valid() && b.Valid() && Admissible(a.storage.s, req) && concurrency >= 1
    modifies a, a.fs, a.storage
    ensures a.Valid() && b.Valid() && b.View() == old(b.View())
    ensures !r.InProgress? ==> CommitStep(old(a.View()), old(a.storage.s), req, r, a.View(), a.storage.s)
  {
    hide Inv, Extends, ClientValid, CommitStep, TrackedFileSystem.Valid;
    ghost var c, d, s := a.View(), b.View(), a.storage.s;
    ghost var outstanding;
    r, outstanding := a.Commit(req, concurrency, lostFirst, lostLast);
    if !r.InProgress? {
      StepKeepsOther(c, d, s, req, r, a.View(), a.storage.s);
    }
  }

  lemma StepKeepsOther(c: Client, d: Client, s: State, req: Request, r: CommitResult, c': Client, s': State)
    requires ClientValid(d, s) && CommitStep(c, s, req, r, c', s')
    ensures ClientValid(d, s')
  {
    hide Inv, Extends, ClientValid, Atomic, LosesNothing, AnswersRetries, LeavesBehind, Named;
    AtomicExtends(c, s, req, r, s');
    ValidLater(d, s, s');
  }

  /** Work on the files of a workspace keeps it fit for its next commit. */
  method WriteAndStayValid(w: StorageWorkspace, p: Path, body: Body) returns (done: bool)
    requires w.Valid()
    modifies w.fs
    ensures w.Valid() && w.storage.s == old(w.storage.s)
    ensures done ==> w.View() == old(w.View()).(t := Step(old(w.fs.State()), Write(p, body)), moves := w.fs.moves)
  {
    hide Inv, Extends, Sound, Step, TrackedFileSystem.Valid;
    var r := w.fs.Write(p, body);
    done := r.Done?;
    SoundOf(w.fs);
  }

  lemma SoundOf(fs: TrackedFileSystem)
    requires fs.Valid()
    ensures Sound(fs.State())
  {
  }
}
