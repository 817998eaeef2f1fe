/** What holds over every run: any sequence of allowed writes, cut off anywhere. */
module ProtocolRuns {
  import opened Types
  import opened Commits
  import opened Protocol

  function Run(s: State, es: seq<Event>): State
    decreases |es|
  {
    if es == [] then s else Run(Apply(s, es[0]), es[1..])
  }

  ghost predicate Legal(s: State, es: seq<Event>)
    decreases |es|
  {
    es != [] ==> RecordsInv(s) && Allowed(s, es[0]) && Legal(Apply(s, es[0]), es[1..])
  }

  lemma {:induction false} RunKeepsInv(s: State, es: seq<Event>)
    requires Inv(s) && Legal(s, es)
    ensures Inv(Run(s, es))
    decreases |es|
  {
    if es != [] {
      StepKeepsInv(s, es[0]);
      RunKeepsInv(Apply(s, es[0]), es[1..]);
    }
  }

  /** Etags are fresh: an entry under an etag issued before `s` has been at its path since before `s`. */
  predicate NothingReturns(s: State, s': State) {
    forall p :: p in s'.visible && s'.visible[p].etag.Some? && s'.visible[p].etag.value < |s.issued| ==>
                  p in s.visible && s.visible[p] == s'.visible[p]
  }

  /**
   History is append-only: completed transactions keep their record, place and manifest, and an
   entry once replaced or deleted does not come back.
   */
  ghost predicate Extends(s: State, s': State) {
    && s.log <= s'.log
    && (forall t :: t in s.intents ==> t in s'.intents && s'.intents[t] == s.intents[t])
    && (forall t :: t in s.completes ==> t in s'.completes && s'.completes[t] == s.completes[t])
    && (forall t :: t in s.completes && t in s.intents && RevisionOf(s, t) in s.revisions ==>
          RevisionOf(s, t) in s'.revisions && s'.revisions[RevisionOf(s, t)] == s.revisions[RevisionOf(s, t)])
    && (forall h :: h in s.objects ==> h in s'.objects)
    && s.issued <= s'.issued
    && NothingReturns(s, s')
  }

  lemma ExtendsTransitive(a: State, b: State, c: State)
    requires Inv(a) && Inv(b) && Extends(a, b) && Extends(b, c)
    ensures Extends(a, c)
  {
    hide ChainInv, HeadInv, ManifestInv, PendingInv, VisibleInv, KeyInv, ReceiptInv, Published;
  }

  lemma StepKeepsManifests(s: State, e: Event, t: Tx)
    requires Inv(s) && Allowed(s, e) && t in s.completes && RevisionOf(s, t) in s.revisions
    ensures RevisionOf(s, t) in Apply(s, e).revisions
    ensures Apply(s, e).revisions[RevisionOf(s, t)] == s.revisions[RevisionOf(s, t)]
  {
    hide ChainInv, HeadInv, ManifestInv, PendingInv, VisibleInv, KeyInv, ReceiptInv, Published;
    if e.PutRevision? {
      assert s.intents[t].newRevision != s.intents[e.tx].newRevision;
    }
  }

  lemma StepReturnsNothing(s: State, e: Event)
    ensures NothingReturns(s, Apply(s, e))
  {
  }

  lemma StepExtends(s: State, e: Event)
    requires Inv(s) && Allowed(s, e)
    ensures Extends(s, Apply(s, e))
  {
    StepReturnsNothing(s, e);
    hide ChainInv, HeadInv, ManifestInv, PendingInv, VisibleInv, KeyInv, ReceiptInv, Published, NothingReturns;
    forall t | t in s.completes && t in s.intents && RevisionOf(s, t) in s.revisions
      ensures RevisionOf(s, t) in Apply(s, e).revisions
      ensures Apply(s, e).revisions[RevisionOf(s, t)] == s.revisions[RevisionOf(s, t)]
    {
      StepKeepsManifests(s, e, t);
    }
  }

  lemma {:induction false} RunExtends(s: State, es: seq<Event>)
    requires Inv(s) && Legal(s, es)
    ensures Inv(Run(s, es)) && Extends(s, Run(s, es))
    decreases |es|
  {
    if es != [] {
      StepKeepsInv(s, es[0]);
      StepExtends(s, es[0]);
      RunExtends(Apply(s, es[0]), es[1..]);
      ExtendsTransitive(s, Apply(s, es[0]), Run(s, es));
    }
  }

  lemma LogGrows(s: State, e: Event, last: State)
    requires Extends(Apply(s, e), last)
    ensures |s.log| <= |Apply(s, e).log| <= |last.log|
    ensures e.PutComplete? && e.tx in s.intents ==> |s.log| < |Apply(s, e).log|
  {
    var m := Apply(s, e);
    assert m.log <= last.log;
    hide Extends;
  }

  lemma CompleteIsKnown(s: State, e: Event)
    requires RecordsInv(s) && Allowed(s, e) && e.PutComplete?
    ensures e.tx in s.intents
  {
  }

  lemma {:induction false} PublishedUntilComplete(s: State, es: seq<Event>)
    requires Inv(s) && Legal(s, es) && |Run(s, es).log| == |s.log|
    ensures Inv(Run(s, es)) && Published(Run(s, es)) == Published(s)
    decreases |es|
  {
    hide Inv, Extends, Published, Allowed, Apply;
    RunKeepsInv(s, es);
    if es != [] {
      StepKeepsInv(s, es[0]);
      PublishedAfter(s, es[0]);
      RunExtends(Apply(s, es[0]), es[1..]);
      LogGrows(s, es[0], Run(s, es));
      if es[0].PutComplete? {
        CompleteIsKnown(s, es[0]);
      }
      PublishedUntilComplete(Apply(s, es[0]), es[1..]);
    }
  }

  /**
   Whatever writes happen, and wherever they stop, once nothing is in flight the visible tree
   is the tree published before the run if no transaction completed during it, and otherwise
   the manifest of the last one that did.
   */
  lemma CrashAtomicity(s: State, es: seq<Event>)
    requires Inv(s) && Legal(s, es) && Unresolved(Run(s, es)) == {}
    ensures var s' := Run(s, es);
            && RecordsInv(s')
            && s.log <= s'.log
            && (s'.log == s.log ==> TreeOf(s'.visible) == Published(s))
            && (s'.log != s.log ==>
                  var r := RevisionOf(s', s'.log[|s'.log| - 1]);
                  r in s'.revisions && TreeOf(s'.visible) == ManifestTree(s'.revisions[r].entries))
  {
    hide Inv, RecordsInv, Legal;
    RunExtends(s, es);
    AtRest(Run(s, es));
    if Run(s, es).log == s.log {
      PublishedUntilComplete(s, es);
    } else {
      TipReadable(Run(s, es));
    }
  }

  lemma AtRest(s: State)
    requires Inv(s)
    ensures RecordsInv(s)
    ensures Unresolved(s) == {} ==> TreeOf(s.visible) == Published(s)
  {
  }

  /** From one good state to a later one that publishes the same tree. */
  ghost predicate Steady(s: State, s': State) {
    && Inv(s) && Inv(s') && Extends(s, s')
    && s'.log == s.log && s'.completes == s.completes
    && Published(s') == Published(s)
  }

  /** From one good state to a later one in which `tx` has completed and publishes `tree`. */
  ghost predicate Committed(s: State, s': State, tx: Tx, tree: Tree) {
    && Inv(s) && Inv(s') && Extends(s, s')
    && tx !in s.completes && s'.log == s.log + [tx]
    && tx in s'.completes && s'.completes == s.completes[tx := s'.completes[tx]]
    && Published(s') == tree
  }

  lemma CommittedAmidSteady(a: State, b: State, c: State, d: State, tx: Tx, tree: Tree)
    requires Steady(a, b) && Committed(b, c, tx, tree) && Steady(c, d)
    ensures Committed(a, d, tx, tree)
  {
    hide Inv, Extends;
    ExtendsTransitive(a, b, c);
    ExtendsTransitive(a, c, d);
  }

  lemma SteadyRefl(s: State)
    requires Inv(s)
    ensures Steady(s, s)
  {
  }

  lemma SteadyTransitive(a: State, b: State, c: State)
    requires Steady(a, b) && Steady(b, c)
    ensures Steady(a, c)
  {
    hide Inv, Extends;
    ExtendsTransitive(a, b, c);
  }

  lemma TipReadable(s: State)
    requires Inv(s) && s.log != []
    ensures RevisionOf(s, s.log[|s.log| - 1]) in s.revisions
    ensures Stored(s.revisions[RevisionOf(s, s.log[|s.log| - 1])].entries, s.objects)
    ensures Published(s) == ManifestTree(s.revisions[RevisionOf(s, s.log[|s.log| - 1])].entries)
  {
    hide HeadInv, PendingInv, VisibleInv, KeyInv, ReceiptInv;
    assert s.log[|s.log| - 1] in s.completes;
    assert Readable(s, s.log[|s.log| - 1]);
  }

  /** Over every run an idempotency key names at most one completed transaction. */
  lemma {:induction false} OneCompletePerKey(s: State, es: seq<Event>, t: Tx, u: Tx)
    requires Inv(s) && Legal(s, es)
    requires t in Run(s, es).completes && u in Run(s, es).completes
    requires Run(s, es).completes[t].intent.key.Some?
    requires Run(s, es).completes[t].intent.key == Run(s, es).completes[u].intent.key
    ensures t == u
  {
    RunKeepsInv(s, es);
    var s' := Run(s, es);
    assert s'.intents[t].key == s'.intents[u].key;
  }

  /** In a chain, the only record whose parent is the i-th position is the record at i. */
  lemma ChildIsNext(s: State, t: Tx, i: nat)
    requires RecordsInv(s) && ChainInv(s) && t in s.completes && i <= |s.log|
    requires s.completes[t].intent.parent == if i == 0 then None else Some(RevisionOf(s, s.log[i - 1]))
    ensures i < |s.log| && s.log[i] == t
  {
    assert t in s.log;
    var j :| 0 <= j < |s.log| && s.log[j] == t;
    assert Follows(s, j);
    if i != 0 && j != 0 {
      assert s.log[j - 1] == s.log[i - 1];
    }
  }

  // ------------------------------------------------------------------ whole histories of operations

  /** Recoveries one after another, each possibly cut short. */
  ghost predicate SteadyRun(states: seq<State>) {
    states != [] && forall i :: 0 <= i < |states| - 1 ==> Steady(states[i], states[i + 1])
  }

  lemma {:induction false} SteadyRunSteady(states: seq<State>)
    requires SteadyRun(states) && Inv(states[0])
    ensures Steady(states[0], states[|states| - 1])
    decreases |states|
  {
    hide Inv, Steady;
    if |states| == 1 {
      SteadyRefl(states[0]);
    } else {
      var init := states[..|states| - 1];
      assert forall i :: 0 <= i < |init| - 1 ==> Steady(init[i], init[i + 1]);
      SteadyRunSteady(init);
      SteadyTransitive(states[0], init[|init| - 1], states[|states| - 1]);
    }
  }

  /**
   A commit cut off anywhere, then any number of recoveries cut off anywhere, then one that
   comes to rest: what is stored is the staged tree if the complete record had been written,
   and otherwise exactly what was published before.
   */
  lemma AtomicAcrossRecoveries(before: State, stopped: State, recoveries: seq<State>, tx: Tx, staged: Tree)
    requires if tx in stopped.completes then Committed(before, stopped, tx, staged) else Steady(before, stopped)
    requires SteadyRun([stopped] + recoveries)
    requires Unresolved(([stopped] + recoveries)[|recoveries|]) == {}
    ensures LogInIntents(before)
    ensures TreeOf(([stopped] + recoveries)[|recoveries|].visible) == if tx in stopped.completes then staged else Published(before)
  {
    hide Inv, SteadyRun, RecordsInv;
    var states := [stopped] + recoveries;
    RestFacts(before, stopped, tx, staged);
    SteadyRunSteady(states);
    AtRest(states[|recoveries|]);
  }

  lemma RestFacts(before: State, stopped: State, tx: Tx, staged: Tree)
    requires if tx in stopped.completes then Committed(before, stopped, tx, staged) else Steady(before, stopped)
    ensures Inv(stopped) && LogInIntents(before) && LogInIntents(stopped)
    ensures Published(stopped) == if tx in stopped.completes then staged else Published(before)
  {
  }

  /** Serialised operations: each leaves what is published alone or completes one transaction. */
  ghost predicate Serialised(states: seq<State>, txs: seq<Option<Tx>>, trees: seq<Tree>) {
    && |states| == |txs| + 1 == |trees| + 1
    && Inv(states[0])
    && forall i :: 0 <= i < |txs| ==>
         if txs[i].Some? then Committed(states[i], states[i + 1], txs[i].value, trees[i]) else Steady(states[i], states[i + 1])
  }

  function Completed(txs: seq<Option<Tx>>): seq<Tx>
    decreases |txs|
  {
    if txs == [] then []
    else Completed(txs[..|txs| - 1]) + if txs[|txs| - 1].Some? then [txs[|txs| - 1].value] else []
  }

  /**
   Over every serialised history the store stays good, the chain grows by exactly the completed
   transactions in their order, earlier history is untouched, and no idempotency key completes twice.
   */
  lemma {:induction false} SerialisedHistory(states: seq<State>, txs: seq<Option<Tx>>, trees: seq<Tree>)
    requires Serialised(states, txs, trees)
    ensures var s, s' := states[0], states[|txs|];
            && Inv(s') && Extends(s, s')
            && s'.log == s.log + Completed(txs)
            && forall t, u :: (t in s'.completes && u in s'.completes && s'.completes[t].intent.key.Some? &&
                               s'.completes[t].intent.key == s'.completes[u].intent.key) ==> t == u
    decreases |txs|
  {
    hide Inv, Extends, Steady, Committed;
    if txs == [] {
      SteadyRefl(states[0]);
      HistoryStep(states[0], states[0], states[0], None, map[]);
    } else {
      var n := |txs| - 1;
      assert forall i :: 0 <= i < n ==> states[..n + 1][i] == states[i] && txs[..n][i] == txs[i] && trees[..n][i] == trees[i];
      SerialisedHistory(states[..n + 1], txs[..n], trees[..n]);
      assert states[..n + 1][n] == states[n];
      HistoryStep(states[0], states[n], states[n + 1], txs[n], trees[n]);
    }
  }

  lemma HistoryStep(first: State, s: State, s': State, tx: Option<Tx>, tree: Tree)
    requires Inv(first) && Inv(s) && (first == s || Extends(first, s))
    requires if tx.Some? then Committed(s, s', tx.value, tree) else Steady(s, s')
    ensures Inv(s') && Extends(first, s') && s'.log == s.log + if tx.Some? then [tx.value] else []
    ensures forall t, u :: (t in s'.completes && u in s'.completes && s'.completes[t].intent.key.Some? &&
                            s'.completes[t].intent.key == s'.completes[u].intent.key) ==> t == u
  {
    hide ChainInv, HeadInv, ManifestInv, PendingInv, VisibleInv, ReceiptInv, Published, Extends;
    if first != s {
      ExtendsTransitive(first, s, s');
    }
    forall t, u | t in s'.completes && u in s'.completes && s'.completes[t].intent.key.Some? &&
                  s'.completes[t].intent.key == s'.completes[u].intent.key
      ensures t == u
    {
      assert s'.completes[t].intent == s'.intents[t] && s'.completes[u].intent == s'.intents[u];
    }
  }

  // ------------------------------------------------------------------ where runs start, and what may follow them

  /** A store nobody has committed to: honest entries, each under the etag it was given, and no history. */
  predicate NeverCommitted(s: State) {
    && s.intents == map[] && s.completes == map[] && s.aborts == {} && s.revisions == map[]
    && s.idempotency == map[] && s.head == None && s.log == [] && s.objects == map[]
    && forall p :: p in s.visible ==>
         Honest(s.visible[p]) && s.visible[p].etag.Some? && s.visible[p].etag.value < |s.issued| &&
         s.issued[s.visible[p].etag.value] == s.visible[p]
  }

  lemma NeverCommittedIsGood(s: State)
    requires NeverCommitted(s)
    ensures Inv(s) && Settled(s) && Unresolved(s) == {} && Published(s) == TreeOf(s.visible)
  {
  }

  /** Uploads of a commit that has given up, landing late, in any order and number. */
  predicate Late(es: seq<Event>, outstanding: map<Path, RemoteEntry>) {
    forall i :: 0 <= i < |es| ==> es[i].Upload? && es[i].path in outstanding && es[i].entry == outstanding[es[i].path]
  }

  predicate AlreadyThere(visible: map<Path, RemoteEntry>, outstanding: map<Path, RemoteEntry>) {
    forall p :: p in outstanding ==> p in visible && Meaning(visible[p]) == Meaning(outstanding[p])
  }

  /** Until it is recovered, a commit's late uploads are like any other: they may land without harm. */
  lemma {:induction false} LateBeforeRecovery(s: State, es: seq<Event>, outstanding: map<Path, RemoteEntry>)
    requires Inv(s) && Unresolved(s) != {} && Late(es, outstanding)
    requires forall p :: p in outstanding ==> Honest(outstanding[p])
    ensures Legal(s, es) && Inv(Run(s, es)) && Unresolved(Run(s, es)) == Unresolved(s)
    decreases |es|
  {
    hide Inv;
    AtRest(s);
    if es != [] {
      StepKeepsInv(s, es[0]);
      UnresolvedAfter(s, es[0]);
      LateBeforeRecovery(Apply(s, es[0]), es[1..], outstanding);
    }
  }

  /**
   Once a recovery has come to rest, the store stays on the published tree whatever lands late
   exactly when every outstanding upload is already there.
   */
  lemma LateUploadsIff(s: State, outstanding: map<Path, RemoteEntry>)
    requires Inv(s) && Unresolved(s) == {}
    ensures LogInIntents(s)
    ensures (forall es :: Late(es, outstanding) ==> TreeOf(Run(s, es).visible) == Published(s)) <==>
            AlreadyThere(s.visible, outstanding)
  {
    hide Inv;
    AtRest(s);
    if AlreadyThere(s.visible, outstanding) {
      forall es | Late(es, outstanding)
        ensures TreeOf(Run(s, es).visible) == Published(s)
      {
        LateIsThere(s, es, outstanding);
      }
    } else {
      var p :| p in outstanding && !(p in s.visible && Meaning(s.visible[p]) == Meaning(outstanding[p]));
      var es := [Upload(p, outstanding[p])];
      assert Late(es, outstanding);
      assert es[1..] == [] && Run(s, es) == Run(Apply(s, es[0]), es[1..]) == Apply(s, es[0]);
      assert TreeOf(Run(s, es).visible)[p] == Meaning(outstanding[p]);
      assert p in TreeOf(s.visible) <==> p in s.visible;
    }
  }

  lemma {:induction false} LateIsThere(s: State, es: seq<Event>, outstanding: map<Path, RemoteEntry>)
    requires Late(es, outstanding) && AlreadyThere(s.visible, outstanding)
    ensures TreeOf(Run(s, es).visible) == TreeOf(s.visible)
    decreases |es|
  {
    if es != [] {
      var next := Apply(s, es[0]);
      assert TreeOf(next.visible) == TreeOf(s.visible);
      LateIsThere(next, es[1..], outstanding);
    }
  }

  /** An empty store whose first commit was rolled back, the upload of its one file still on its way. */
  function RolledBack(): State {
    var intent := Intent(1, None, Current(DigestOf({}, Context("workspace", "", None, None, map[]))), None, 0, Some(map[]));
    State(map[], map[], map[0 := intent], map[], {0}, map[], map[], None, [], [])
  }

  lemma LateUploadLeavesRest()
    ensures Inv(RolledBack()) && Unresolved(RolledBack()) == {} && Published(RolledBack()) == map[]
    ensures var file := RemoteEntry(File, 0x1A4, "late", Some(Sha256("late")), None, 0, None, None);
            TreeOf(Apply(RolledBack(), Upload(["a"], file)).visible) == map[["a"] := FileNode("late", 0x1A4)]
  {
    assert TreeOf(RolledBack().visible) == map[];
  }
}
