/**
 Commits, recoveries and purges one after another.  Between two of them the history is at rest;
 every revision ever committed is still on the head's trail, through its record or the ancestry
 that a purge preserved, so the commits that survive stay in their order and the next ones follow.
 */
module HistoryRuns {
  import opened Types
  import opened Protocol
  import opened ProtocolRuns
  import opened Retention
  import opened Purge
  import opened Paging

  /** A transaction and the revision it made. */
  type Step = (Tx, Rev)

  function Txs(chain: seq<Step>): (ts: seq<Tx>)
    ensures |ts| == |chain| && forall i :: 0 <= i < |chain| ==> ts[i] == chain[i].0
  {
    if chain == [] then [] else Txs(chain[..|chain| - 1]) + [chain[|chain| - 1].0]
  }

  /** The revision before the i-th. */
  function Before(chain: seq<Step>, i: nat): Option<Rev>
    requires i <= |chain|
  {
    if i == 0 then None else Some(chain[i - 1].1)
  }

  /** The i-th revision is known by a record or preserved ancestry, and its parent is the one before it. */
  ghost predicate Linked(h: History, chain: seq<Step>, i: nat)
    requires OneCompletePerRevision(h) && i < |chain|
  {
    && chain[i].1 in CompleteLinks(h).Keys + h.ancestry.Keys
    && ParentOf(CompleteLinks(h), h.ancestry, chain[i].1) == Before(chain, i)
  }

  /** All that was ever committed, oldest first: what is left of it is in this order. */
  ghost predicate Descends(h: History, chain: seq<Step>) {
    && GoodHistory(h)
    && h.head == Before(chain, |chain|)
    && (forall i, j :: 0 <= i < j < |chain| ==> chain[i].0 != chain[j].0 && chain[i].1 != chain[j].1)
    && (forall t :: t in h.completes ==> (t, h.completes[t].intent.newRevision) in chain)
    && (forall i :: 0 <= i < |chain| ==> Linked(h, chain, i))
  }

  // ---------------------------------------------------------------- what happens to a history

  /** The revision was not there before, or was that of an unfinished transaction; it belongs to no earlier commit. */
  ghost predicate NewRevision(h: History, h': History, r: Rev)
    requires r in h'.revisions
  {
    var t := h'.revisions[r].tx;
    && r !in h.ancestry && t !in h.completes && (forall u :: u in h.completes ==> h.completes[u].intent.newRevision != r)
    && (t in h'.completes ==> h'.completes[t].intent.newRevision == r && h'.completes[t].intent.parent == h'.revisions[r].parent)
  }

  /** What every operation but a purge keeps: ancestry, and records of different transactions apart. */
  ghost predicate Records(h: History, h': History) {
    && h'.ancestry == h.ancestry && h'.completes.Keys !! h'.aborts
    && (forall r :: r in h'.revisions ==> (r in h.revisions && h'.revisions[r] == h.revisions[r]) || NewRevision(h, h', r))
    && (forall r, q {:trigger h'.revisions[r].tx, h'.revisions[q].tx} ::
          r in h'.revisions && q in h'.revisions && h'.revisions[r].tx == h'.revisions[q].tx ==> r == q)
  }

  /** The record of a new commit agrees with the manifests, and its revision is not one of a purged commit. */
  ghost predicate Agreeing(h: History, h': History, t: Tx)
    requires t in h'.completes
  {
    var i := h'.completes[t].intent;
    && i.newRevision !in h.ancestry
    && (i.newRevision in h'.revisions ==> h'.revisions[i.newRevision].tx == t)
    && (forall r :: r in h'.revisions && h'.revisions[r].tx == t ==> r == i.newRevision && h'.revisions[r].parent == i.parent)
  }

  /** A commit, with any recovery it needed: one more complete record, whose parent is the head and which becomes the head. */
  ghost predicate Advances(h: History, h': History, t: Tx) {
    && Records(h, h')
    && t !in h.completes && t in h'.completes && h'.completes == h.completes[t := h'.completes[t]]
    && var i := h'.completes[t].intent;
       && i.parent == h.head && h'.head == Some(i.newRevision)
       && (forall u :: u in h.completes ==> h.completes[u].intent.newRevision != i.newRevision)
       && Agreeing(h, h', t)
  }

  /** A recovery, or a commit that was rolled back. */
  ghost predicate Rests(h: History, h': History) {
    Records(h, h') && h'.completes == h.completes && h'.head == h.head
  }

  datatype Event = Commit(tx: Tx) | Recovery | PurgeIt(run: PurgeRun)

  ghost predicate Happens(h: History, e: Event, h': History) {
    match e
    case Commit(t) => Advances(h, h', t)
    case Recovery => Rests(h, h')
    case PurgeIt(p) => Leaves(h, p.gone, p.cutoff, p.links, p.keys) && h' == AfterPurge(h, p)
  }

  /** The histories of a run, one more than its events. */
  ghost predicate Runs(hs: seq<History>, es: seq<Event>)
    decreases |es|
  {
    && |hs| == |es| + 1
    && (es != [] ==> Happens(hs[0], es[0], hs[1]) && Runs(hs[1..], es[1..]))
  }

  /** What has been committed after an event. */
  function Longer(chain: seq<Step>, e: Event, h': History): seq<Step> {
    if e.Commit? && e.tx in h'.completes then chain + [(e.tx, h'.completes[e.tx].intent.newRevision)] else chain
  }

  // ---------------------------------------------------------------- each of them

  lemma RecordsGood(h: History, h': History)
    requires GoodHistory(h) && Records(h, h') && OneCompletePerRevision(h')
    requires forall t :: t in h.completes ==> t in h'.completes && h'.completes[t] == h.completes[t]
    requires forall t :: t in h'.completes && t !in h.completes ==> Agreeing(h, h', t)
    ensures GoodHistory(h')
  {
  }

  lemma LinkOfComplete(h: History, t: Tx)
    requires OneCompletePerRevision(h) && t in h.completes
    ensures h.completes[t].intent.newRevision in CompleteLinks(h)
    ensures CompleteLinks(h)[h.completes[t].intent.newRevision] == h.completes[t].intent.parent
  {
  }

  lemma OneMore(h: History, h': History, t: Tx)
    requires OneCompletePerRevision(h) && Advances(h, h', t)
    ensures OneCompletePerRevision(h')
  {
  }

  lemma NewLink(h: History, h': History, t: Tx)
    requires OneCompletePerRevision(h) && Advances(h, h', t)
    ensures OneCompletePerRevision(h')
    ensures CompleteLinks(h') == CompleteLinks(h)[h'.completes[t].intent.newRevision := h.head]
    ensures h'.completes[t].intent.newRevision !in CompleteLinks(h)
  {
    hide CompleteLinks, OneCompletePerRevision, Records, Agreeing, CompleteOf;
    OneMore(h, h', t);
    var r := h'.completes[t].intent.newRevision;
    LinkOfComplete(h', t);
    forall q | q in CompleteLinks(h)
      ensures q != r
    {
      assert CompleteOf(h, q) in h.completes;
    }
    forall q
      ensures q in CompleteLinks(h') <==> q == r || q in CompleteLinks(h)
      ensures q != r && q in CompleteLinks(h) ==> CompleteLinks(h')[q] == CompleteLinks(h)[q]
    {
      if q in CompleteLinks(h) {
        LinkOfComplete(h, CompleteOf(h, q));
        LinkOfComplete(h', CompleteOf(h, q));
      }
      if q in CompleteLinks(h') && q != r {
        LinkOfComplete(h, CompleteOf(h', q));
      }
    }
  }

  lemma CommitDescends(h: History, h': History, t: Tx, chain: seq<Step>)
    requires Descends(h, chain) && Advances(h, h', t) && forall i :: 0 <= i < |chain| ==> chain[i].0 != t
    ensures Descends(h', chain + [(t, h'.completes[t].intent.newRevision)])
  {
    hide CompleteLinks, ParentOf, OneCompletePerRevision, GoodHistory, Records, Linked;
    var r := h'.completes[t].intent.newRevision;
    var longer := chain + [(t, r)];
    GoodIsOne(h);
    NewLink(h, h', t);
    RecordsGood(h, h');
    RecordsAncestry(h, h');
    assert longer[|chain|] == (t, r);
    NewIsLinked(h, h', t, chain);
    forall i | 0 <= i < |chain|
      ensures Linked(h', longer, i) && chain[i].1 != r
    {
      OldIsLinked(h, h', t, chain, i);
    }
    forall u | u in h'.completes
      ensures (u, h'.completes[u].intent.newRevision) in longer
    {
      if u != t {
        assert (u, h.completes[u].intent.newRevision) in chain;
      }
    }
  }

  lemma RecordsAncestry(h: History, h': History)
    requires Records(h, h')
    ensures h'.ancestry == h.ancestry
  {
  }

  lemma NewIsLinked(h: History, h': History, t: Tx, chain: seq<Step>)
    requires OneCompletePerRevision(h) && OneCompletePerRevision(h') && h.head == Before(chain, |chain|) && t in h'.completes
    requires CompleteLinks(h') == CompleteLinks(h)[h'.completes[t].intent.newRevision := h.head]
    ensures Linked(h', chain + [(t, h'.completes[t].intent.newRevision)], |chain|)
  {
    hide CompleteLinks, OneCompletePerRevision;
  }

  lemma OldIsLinked(h: History, h': History, t: Tx, chain: seq<Step>, i: nat)
    requires OneCompletePerRevision(h) && OneCompletePerRevision(h') && i < |chain| && Linked(h, chain, i) && t in h'.completes
    requires h'.ancestry == h.ancestry
    requires var r := h'.completes[t].intent.newRevision;
             CompleteLinks(h') == CompleteLinks(h)[r := h.head] && r !in CompleteLinks(h) && r !in h.ancestry
    ensures chain[i].1 != h'.completes[t].intent.newRevision
    ensures Linked(h', chain + [(t, h'.completes[t].intent.newRevision)], i)
  {
    hide CompleteLinks, OneCompletePerRevision;
  }

  lemma SameLinks(h: History, h': History)
    requires OneCompletePerRevision(h) && h'.completes == h.completes
    ensures OneCompletePerRevision(h') && CompleteLinks(h') == CompleteLinks(h)
  {
  }

  lemma RecoveryDescends(h: History, h': History, chain: seq<Step>)
    requires Descends(h, chain) && Rests(h, h')
    ensures Descends(h', chain)
  {
    hide ParentOf, OneCompletePerRevision, GoodHistory, CompleteLinks;
    GoodIsOne(h);
    SameLinks(h, h');
    RecordsGood(h, h');
    forall i | 0 <= i < |chain|
      ensures Linked(h', chain, i)
    {
      assert Linked(h, chain, i);
    }
  }

  lemma PurgeDescends(h: History, p: PurgeRun, chain: seq<Step>)
    requires Descends(h, chain) && Leaves(h, p.gone, p.cutoff, p.links, p.keys)
    ensures Descends(AfterPurge(h, p), chain)
  {
    hide CompleteLinks, ParentOf, OneCompletePerRevision, GoodHistory, Leaves, Linked, Without, Preserved;
    var h' := AfterPurge(h, p);
    GoodAgain(h, p.gone, p.cutoff, p.links, p.keys);
    GoodIsOne(h');
    GoodIsOne(h);
    HeadKept(h, p.links, p.keys);
    PurgeShrinks(h, p.links, p.keys);
    forall i | 0 <= i < |chain|
      ensures Linked(h', chain, i)
    {
      LinkedAfterPurge(h, p, chain, i);
    }
    forall t | t in h'.completes
      ensures (t, h'.completes[t].intent.newRevision) in chain
    {
      assert (t, h.completes[t].intent.newRevision) in chain;
    }
  }

  lemma LinkedAfterPurge(h: History, p: PurgeRun, chain: seq<Step>, i: nat)
    requires GoodHistory(h) && Leaves(h, p.gone, p.cutoff, p.links, p.keys) && i < |chain| && Linked(h, chain, i)
    ensures OneCompletePerRevision(AfterPurge(h, p)) && Linked(AfterPurge(h, p), chain, i)
  {
    hide ParentOf, PurgeKeys, CompleteLinks;
    var r := chain[i].1;
    CompleteParents(h, p.gone, p.cutoff, p.links, p.keys, r);
    HeadKept(h, p.links, p.keys);
    LinkStays(h, p, r);
  }

  /** A commit loses its record only once its ancestry is preserved. */
  lemma LinkStays(h: History, p: PurgeRun, r: Rev)
    requires GoodHistory(h) && Leaves(h, p.gone, p.cutoff, p.links, p.keys)
    requires r in CompleteLinks(h) || r in h.ancestry
    ensures OneCompletePerRevision(AfterPurge(h, p))
    ensures r in CompleteLinks(AfterPurge(h, p)) || r in Preserved(h, p.links).ancestry
  {
    hide PurgeKeys;
    StillOnePerRevision(h, p.links, p.keys);
    var h' := AfterPurge(h, p);
    if r in CompleteLinks(h) && r !in CompleteLinks(h') {
      var t :| t in h.completes && h.completes[t].intent.newRevision == r;
      assert t !in h'.completes && CompleteKey(t) in p.keys;
      CompleteKeyPurged(h, p.gone, p.cutoff, t);
      assert r in p.gone;
    }
  }

  lemma EventDescends(h: History, e: Event, h': History, chain: seq<Step>)
    requires Descends(h, chain) && Happens(h, e, h')
    requires e.Commit? ==> forall i :: 0 <= i < |chain| ==> chain[i].0 != e.tx
    ensures Descends(h', Longer(chain, e, h'))
  {
    hide Descends, Rests, Leaves, AfterPurge;
    match e
    case Commit(t) => CommitDescends(h, h', t, chain);
    case Recovery => RecoveryDescends(h, h', chain);
    case PurgeIt(p) => PurgeDescends(h, p, chain);
  }

  // ---------------------------------------------------------------- whole runs

  /** The transactions committed by the events, in order. */
  function Commits(es: seq<Event>): seq<Tx>
    decreases |es|
  {
    if es == [] then [] else (if es[0].Commit? then [es[0].tx] else []) + Commits(es[1..])
  }

  /** Transaction identifiers are not used again, not even those of purged commits. */
  ghost predicate FreshTxs(used: seq<Tx>, es: seq<Event>)
    decreases |es|
  {
    es != [] ==>
      if es[0].Commit? then es[0].tx !in used && FreshTxs(used + [es[0].tx], es[1..]) else FreshTxs(used, es[1..])
  }

  /** All that has been committed after the events. */
  function ChainAfter(chain: seq<Step>, hs: seq<History>, es: seq<Event>): seq<Step>
    requires |hs| == |es| + 1
    decreases |es|
  {
    if es == [] then chain else ChainAfter(Longer(chain, es[0], hs[1]), hs[1..], es[1..])
  }

  lemma LongerTxs(chain: seq<Step>, h: History, e: Event, h': History)
    requires Happens(h, e, h')
    ensures Txs(Longer(chain, e, h')) == Txs(chain) + if e.Commit? then [e.tx] else []
  {
    var longer := Longer(chain, e, h');
    if e.Commit? {
      assert longer[..|chain|] == chain;
    }
  }

  lemma NotAmong(chain: seq<Step>, t: Tx)
    requires t !in Txs(chain)
    ensures forall i :: 0 <= i < |chain| ==> chain[i].0 != t
  {
    forall i | 0 <= i < |chain|
      ensures chain[i].0 != t
    {
      assert Txs(chain)[i] == chain[i].0;
    }
  }

  lemma RunUnfolds(chain: seq<Step>, hs: seq<History>, es: seq<Event>)
    requires Runs(hs, es) && es != [] && FreshTxs(Txs(chain), es)
    ensures |hs| == |es| + 1 && Happens(hs[0], es[0], hs[1]) && Runs(hs[1..], es[1..]) && hs[1..][|es| - 1] == hs[|es|]
    ensures es[0].Commit? ==> es[0].tx !in Txs(chain)
    ensures FreshTxs(Txs(chain) + (if es[0].Commit? then [es[0].tx] else []), es[1..])
    ensures ChainAfter(chain, hs, es) == ChainAfter(Longer(chain, es[0], hs[1]), hs[1..], es[1..])
    ensures Commits(es) == (if es[0].Commit? then [es[0].tx] else []) + Commits(es[1..])
  {
    hide Happens, Longer, Txs;
    assert Txs(chain) + [] == Txs(chain);
  }

  lemma {:induction false} RunDescends(chain: seq<Step>, hs: seq<History>, es: seq<Event>)
    requires Runs(hs, es) && Descends(hs[0], chain) && FreshTxs(Txs(chain), es)
    ensures Descends(hs[|es|], ChainAfter(chain, hs, es))
    ensures Txs(ChainAfter(chain, hs, es)) == Txs(chain) + Commits(es)
    decreases |es|
  {
    hide Descends, Happens, Longer, Txs, FreshTxs;
    if es != [] {
      RunUnfolds(chain, hs, es);
      hide Runs, ChainAfter, Commits;
      if es[0].Commit? {
        NotAmong(chain, es[0].tx);
      }
      EventDescends(hs[0], es[0], hs[1], chain);
      LongerTxs(chain, hs[0], es[0], hs[1]);
      RunDescends(Longer(chain, es[0], hs[1]), hs[1..], es[1..]);
    } else {
      assert Txs(chain) + Commits(es) == Txs(chain);
    }
  }

  // ---------------------------------------------------------------- what is listed

  /** The revisions of the first n steps, newest first. */
  function Back(chain: seq<Step>, n: nat): (r: seq<Rev>)
    requires n <= |chain|
    ensures |r| == n
  {
    if n == 0 then [] else [chain[n - 1].1] + Back(chain, n - 1)
  }

  lemma {:induction false} TrailIsBack(h: History, chain: seq<Step>, n: nat, seen: set<Rev>)
    requires OneCompletePerRevision(h) && n <= |chain| && forall i :: 0 <= i < |chain| ==> Linked(h, chain, i)
    requires forall i, j :: 0 <= i < j < |chain| ==> chain[i].1 != chain[j].1
    requires forall i :: 0 <= i < n ==> chain[i].1 !in seen
    ensures Trail(CompleteLinks(h), h.ancestry, Before(chain, n), seen) == Some(Back(chain, n))
    decreases n
  {
    hide Trail, CompleteLinks, ParentOf, OneCompletePerRevision;
    if n == 0 {
      EndOfTrail(CompleteLinks(h), h.ancestry, None, seen);
    } else {
      assert Linked(h, chain, n - 1);
      TrailUnfolds(CompleteLinks(h), h.ancestry, chain[n - 1].1, seen);
      TrailIsBack(h, chain, n - 1, seen + {chain[n - 1].1});
    }
  }

  /** The record of a step is the one of its transaction, or both are gone. */
  lemma RecordOfStep(h: History, chain: seq<Step>, i: nat)
    requires Descends(h, chain) && i < |chain|
    ensures OneCompletePerRevision(h)
    ensures chain[i].1 in CompleteLinks(h) <==> chain[i].0 in h.completes
    ensures chain[i].1 in CompleteLinks(h) ==> CompleteOf(h, chain[i].1) == chain[i].0
  {
    hide CompleteLinks, GoodHistory, OneCompletePerRevision, Linked, CompleteOf;
    GoodIsOne(h);
    var (t, r) := chain[i];
    if r in CompleteLinks(h) {
      var u := CompleteOf(h, r);
      assert (u, r) in chain;
      var j :| 0 <= j < |chain| && chain[j] == (u, r);
    }
    if t in h.completes {
      LinkOfComplete(h, t);
      assert (t, h.completes[t].intent.newRevision) in chain;
      var j :| 0 <= j < |chain| && chain[j] == (t, h.completes[t].intent.newRevision);
    }
  }

  lemma {:induction false} BackOldestFirst(h: History, chain: seq<Step>, n: nat)
    requires Descends(h, chain) && OneCompletePerRevision(h) && n <= |chain|
    ensures OldestFirst(h, Only(Back(chain, n), CompleteLinks(h).Keys)) == Only(Txs(chain[..n]), h.completes.Keys)
    decreases n
  {
    hide Descends, CompleteLinks, OneCompletePerRevision, CompleteOf;
    if n > 0 {
      var (t, r) := chain[n - 1];
      BackOldestFirst(h, chain, n - 1);
      RecordOfStep(h, chain, n - 1);
      OnlyCons(r, Back(chain, n - 1), CompleteLinks(h).Keys);
      assert chain[..n][..n - 1] == chain[..n - 1] && Txs(chain[..n]) == Txs(chain[..n - 1]) + [t];
      OnlyAppend(Txs(chain[..n - 1]), t, h.completes.Keys);
      var rest := Only(Back(chain, n - 1), CompleteLinks(h).Keys);
      if r in CompleteLinks(h) {
        assert ([r] + rest)[1..] == rest;
      } else {
        assert [] + rest == rest;
      }
    }
  }

  lemma DescendsLists(h: History, chain: seq<Step>)
    requires Descends(h, chain)
    ensures OneCompletePerRevision(h) && CausalCompletes(h) == Some(Only(Txs(chain), h.completes.Keys))
  {
    hide Linked, GoodHistory, CompleteLinks, OneCompletePerRevision, OldestFirst, Trail, Only;
    GoodIsOne(h);
    TrailIsBack(h, chain, |chain|, {});
    BackOldestFirst(h, chain, |chain|);
    assert chain[..|chain|] == chain;
  }

  function StepsUpTo(s: State, n: nat): (chain: seq<Step>)
    requires LogInIntents(s) && n <= |s.log|
    ensures |chain| == n && forall i :: 0 <= i < n ==> chain[i] == (s.log[i], RevisionOf(s, s.log[i]))
  {
    if n == 0 then [] else StepsUpTo(s, n - 1) + [(s.log[n - 1], RevisionOf(s, s.log[n - 1]))]
  }

  /** The log of a store that was never purged. */
  function LogSteps(s: State): (chain: seq<Step>)
    requires LogInIntents(s)
    ensures |chain| == |s.log| && forall i :: 0 <= i < |s.log| ==> chain[i] == (s.log[i], RevisionOf(s, s.log[i]))
  {
    StepsUpTo(s, |s.log|)
  }

  lemma NeverPurgedDescends(s: State)
    requires Inv(s) && RecordsInv(s) && Settled(s)
    ensures Descends(View(s), LogSteps(s)) && Txs(LogSteps(s)) == s.log
  {
    hide Inv, Settled, GoodHistory, CompleteLinks, OneCompletePerRevision, View, Linked;
    ViewIsGood(s);
    GoodIsOne(View(s));
    SettledHead(s);
    LogStepsDistinct(s);
    forall i | 0 <= i < |s.log|
      ensures Linked(View(s), LogSteps(s), i)
    {
      LogStepLinked(s, i);
    }
    assert Txs(LogSteps(s)) == s.log;
  }

  lemma LogStepsDistinct(s: State)
    requires Inv(s)
    ensures var chain := LogSteps(s);
            && (forall i, j :: 0 <= i < j < |chain| ==> chain[i].0 != chain[j].0 && chain[i].1 != chain[j].1)
            && (forall t :: t in View(s).completes ==> (t, View(s).completes[t].intent.newRevision) in chain)
  {
    hide ManifestInv, HeadInv, PendingInv, VisibleInv, KeyInv, ReceiptInv, Published;
    var chain := LogSteps(s);
    forall i, j | 0 <= i < j < |chain|
      ensures chain[i].0 != chain[j].0 && chain[i].1 != chain[j].1
    {
      assert s.log[i] != s.log[j];
    }
    forall t | t in View(s).completes
      ensures (t, View(s).completes[t].intent.newRevision) in chain
    {
      var i :| 0 <= i < |s.log| && s.log[i] == t;
      assert chain[i] == (t, RevisionOf(s, t));
    }
  }

  lemma LogStepLinked(s: State, i: nat)
    requires RecordsInv(s) && ChainInv(s) && i < |s.log| && OneCompletePerRevision(View(s))
    ensures Linked(View(s), LogSteps(s), i)
  {
    hide CompleteLinks, OneCompletePerRevision, RecordsInv, ChainInv;
    LinkOfLog(s, i);
  }

  /**
   Whatever commits, recoveries and purges follow one another on a store, each purge possibly cut
   short, and in whatever order the store lists its records: at rest the history lists exactly
   the surviving ones of all commits there ever were, in the order in which they were made.
   */
  lemma RunLists(s: State, hs: seq<History>, es: seq<Event>)
    requires Inv(s) && RecordsInv(s) && Settled(s) && Runs(hs, es) && hs[0] == View(s) && FreshTxs(s.log, es)
    ensures var h := hs[|es|];
            && OneCompletePerRevision(h) && CausalCompletes(h) == Some(Only(s.log + Commits(es), h.completes.Keys))
            && forall order :: Lists(h, order) ==> CausalListing(h, order) == CausalCompletes(h)
  {
    hide Inv, Settled, Descends, Happens, View, CausalCompletes, OneCompletePerRevision, FreshTxs, Txs, Only, Commits,
         Listed, Lists, CausalListing, ChainAfter;
    NeverPurgedDescends(s);
    RunDescends(LogSteps(s), hs, es);
    DescendsLists(hs[|es|], ChainAfter(LogSteps(s), hs, es));
    forall order | Lists(hs[|es|], order)
      ensures CausalListing(hs[|es|], order) == CausalCompletes(hs[|es|])
    {
      AnyOrder(hs[|es|], order);
    }
  }

  // ---------------------------------------------------------------- the protocol makes such steps

  lemma NewManifest(s: State, s': State, r: Rev)
    requires Inv(s) && Inv(s') && Extends(s, s') && r in s'.revisions
    ensures (r in s.revisions && s'.revisions[r] == s.revisions[r]) || NewRevision(View(s), View(s'), r)
  {
    hide HeadInv, PendingInv, VisibleInv, KeyInv, ReceiptInv, Published, NothingReturns;
    assert Belongs(s', r);
    forall u | u in s.completes && (u == s'.revisions[r].tx || s.completes[u].intent.newRevision == r)
      ensures r in s.revisions && s'.revisions[r] == s.revisions[r]
    {
      assert Readable(s, u) && s'.intents[u] == s.intents[u];
    }
  }

  lemma ProtocolRecords(s: State, s': State)
    requires Inv(s) && Inv(s') && Extends(s, s')
    ensures Records(View(s), View(s'))
  {
    hide HeadInv, PendingInv, VisibleInv, KeyInv, ReceiptInv, Published, Extends, NewRevision;
    forall r | r in s'.revisions
      ensures (r in s.revisions && s'.revisions[r] == s.revisions[r]) || NewRevision(View(s), View(s'), r)
    {
      NewManifest(s, s', r);
    }
    forall r, q | r in s'.revisions && q in s'.revisions && s'.revisions[r].tx == s'.revisions[q].tx
      ensures r == q
    {
      assert Belongs(s', r) && Belongs(s', q);
    }
  }

  lemma ParentOfNew(s: State, s': State, t: Tx)
    requires LogInIntents(s) && RecordsInv(s') && ChainInv(s') && s'.log == s.log + [t]
    requires forall u :: u in s.intents ==> u in s'.intents && s'.intents[u] == s.intents[u]
    ensures t in s'.completes && s'.completes[t].intent.parent == TipRevision(s)
  {
    var n := |s.log|;
    assert s'.log[n] == t && t in s'.log && Follows(s', n);
    if n > 0 {
      assert s'.log[n - 1] == s.log[n - 1];
    }
  }

  lemma CommitRecord(s: State, s': State, t: Tx, tree: Tree)
    requires Committed(s, s', t, tree) && RecordsInv(s) && RecordsInv(s') && Settled(s) && Settled(s')
    ensures t in s'.completes
    ensures s'.completes[t].intent.parent == View(s).head && View(s').head == Some(s'.completes[t].intent.newRevision)
  {
    hide Inv, Settled, Published, NothingReturns;
    SettledHead(s);
    SettledHead(s');
    ParentOfNew(s, s', t);
    assert s'.log[|s'.log| - 1] == t;
  }

  lemma CommitIsNew(s: State, s': State, t: Tx)
    requires RecordsInv(s) && RecordsInv(s') && Extends(s, s') && t in s'.completes && t !in s.intents
    ensures forall u :: u in s.completes ==> s.completes[u].intent.newRevision != s'.completes[t].intent.newRevision
  {
    hide NothingReturns;
    forall u | u in s.completes
      ensures s.completes[u].intent.newRevision != s'.completes[t].intent.newRevision
    {
      assert u in s'.intents && u != t;
    }
  }

  lemma CommitAgrees(s: State, t: Tx)
    requires Inv(s) && t in s.completes
    ensures var i := s.completes[t].intent;
            && (i.newRevision in s.revisions ==> s.revisions[i.newRevision].tx == t)
            && (forall r :: r in s.revisions && s.revisions[r].tx == t ==> r == i.newRevision && s.revisions[r].parent == i.parent)
  {
    hide ChainInv, HeadInv, PendingInv, VisibleInv, KeyInv, ReceiptInv, Published;
    forall r | r in s.revisions && s.revisions[r].tx == t
      ensures r == s.completes[t].intent.newRevision && s.revisions[r].parent == s.completes[t].intent.parent
    {
      assert Belongs(s, r);
    }
    assert Readable(s, t);
  }

  /** On a store at rest, a commit that comes to rest, whatever recoveries it took, is one step of such a run. */
  lemma CommitAdvances(s: State, s': State, t: Tx, tree: Tree)
    requires Committed(s, s', t, tree) && RecordsInv(s) && RecordsInv(s') && Settled(s) && Settled(s') && t !in s.intents
    ensures Happens(View(s), Commit(t), View(s'))
  {
    hide Inv, RecordsInv, Settled, Published, Records, Extends;
    ProtocolRecords(s, s');
    CommitRecord(s, s', t, tree);
    CommitIsNew(s, s', t);
    CommitAgrees(s', t);
  }

  /** So is a recovery, or a commit that was rolled back. */
  lemma RecoveryRests(s: State, s': State)
    requires Steady(s, s') && RecordsInv(s) && RecordsInv(s') && Settled(s) && Settled(s')
    ensures Happens(View(s), Recovery, View(s'))
  {
    hide Inv, RecordsInv, Extends, Records, Published;
    ProtocolRecords(s, s');
    SettledHead(s);
    SettledHead(s');
    if s.log != [] {
      SameTip(s, s');
    }
  }

  lemma SameTip(s: State, s': State)
    requires Inv(s) && Inv(s') && Extends(s, s') && s'.log == s.log && s.log != []
    ensures RevisionOf(s', s'.log[|s.log| - 1]) == RevisionOf(s, s.log[|s.log| - 1])
  {
    hide NothingReturns, Published;
  }

  // ---------------------------------------------------------------- recovery after purges

  /** At rest there is nothing to adopt beyond the head, however much was purged. */
  lemma NothingToAdopt(h: History, chain: seq<Step>, t: Tx)
    requires Descends(h, chain) && t in h.completes
    ensures h.completes[t].intent.parent != h.head
  {
    hide CompleteLinks, GoodHistory, OneCompletePerRevision;
    GoodIsOne(h);
    LinkOfComplete(h, t);
    assert (t, h.completes[t].intent.newRevision) in chain;
    var i :| 0 <= i < |chain| && chain[i] == (t, h.completes[t].intent.newRevision);
    assert Linked(h, chain, i);
  }

  /** A commit cut off with its record written and the head not yet moved: from the head its record is the only child,
      and has none itself, so descending adopts it. */
  lemma CutCommitAdopted(h: History, h': History, t: Tx, chain: seq<Step>)
    requires Descends(h, chain) && Advances(h, h', t) && t !in Txs(chain)
    ensures forall u :: u in h'.completes ==> (h'.completes[u].intent.parent == h.head <==> u == t)
    ensures forall u :: u in h'.completes ==> h'.completes[u].intent.parent != Some(h'.completes[t].intent.newRevision)
  {
    hide Descends, Records, Agreeing;
    NotAmong(chain, t);
    CommitDescends(h, h', t, chain);
    forall u | u in h'.completes
      ensures h'.completes[u].intent.parent == h.head <==> u == t
      ensures h'.completes[u].intent.parent != Some(h'.completes[t].intent.newRevision)
    {
      NothingToAdopt(h', chain + [(t, h'.completes[t].intent.newRevision)], u);
      if u != t {
        NothingToAdopt(h, chain, u);
      }
    }
  }

  // ---------------------------------------------------------------- when a purge may come

  lemma ManifestLinks(s: State, i: nat)
    requires RecordsInv(s) && ChainInv(s) && ManifestInv(s) && i < |s.log|
    ensures RevisionOf(s, s.log[i]) in RevisionLinks(View(s))
    ensures RevisionLinks(View(s))[RevisionOf(s, s.log[i])] == if i == 0 then None else Some(RevisionOf(s, s.log[i - 1]))
  {
    assert s.log[i] in s.completes && Readable(s, s.log[i]) && Follows(s, i);
  }

  /** The manifests lead back from a position of the log through the log. */
  lemma {:induction false} ManifestTrail(s: State, n: nat, seen: set<Rev>)
    requires RecordsInv(s) && ChainInv(s) && ManifestInv(s) && n <= |s.log|
    requires forall i :: 0 <= i < n ==> RevisionOf(s, s.log[i]) !in seen
    ensures Trail(RevisionLinks(View(s)), map[], if n == 0 then None else Some(RevisionOf(s, s.log[n - 1])), seen)
            == Some(Backwards(s, n))
    decreases n
  {
    hide Trail, RevisionLinks, ManifestInv;
    var links := RevisionLinks(View(s));
    if n == 0 {
      EndOfTrail(links, map[], None, seen);
    } else {
      var r := RevisionOf(s, s.log[n - 1]);
      TrailUnfolds(links, map[], r, seen);
      ManifestLinks(s, n - 1);
      forall i | 0 <= i < n - 1
        ensures RevisionOf(s, s.log[i]) != r
      {
        assert s.log[i] != s.log[n - 1];
      }
      ManifestTrail(s, n - 1, seen + {r});
    }
  }

  lemma {:induction false} BackwardsAt(s: State, n: nat, r: Rev)
    requires LogInIntents(s) && n <= |s.log|
    ensures r in Backwards(s, n) <==> exists i :: 0 <= i < n && RevisionOf(s, s.log[i]) == r
  {
    if n > 0 {
      BackwardsAt(s, n - 1, r);
      assert Backwards(s, n) == [RevisionOf(s, s.log[n - 1])] + Backwards(s, n - 1);
    }
  }

  /** A manifest off the trail of the head is removed by every purge, unless a checkpoint holds it. */
  lemma OffTrailGoes(h: History, chain: seq<Rev>, maxRevisions: nat, cutoff: Option<nat>, floor: Option<Rev>, r: Rev)
    requires r in h.revisions && r !in chain && h.head != Some(r) && r !in h.checkpoints
    ensures r in Gone(h, chain, maxRevisions, cutoff, floor)
  {
    assert forall q :: q in Newest(chain, maxRevisions) ==> q in chain;
  }

  lemma HeadInLog(s: State)
    requires Inv(s)
    ensures RecordsInv(s) && ChainInv(s) && ManifestInv(s)
    ensures var n := if Settled(s) then |s.log| else |s.log| - 1;
            n >= 0 && View(s).head == if n == 0 then None else Some(RevisionOf(s, s.log[n - 1]))
  {
    hide PendingInv, VisibleInv, KeyInv, ReceiptInv, ChainInv, ManifestInv, Published;
  }

  lemma TrailOfHead(s: State)
    requires Inv(s)
    ensures var n := if Settled(s) then |s.log| else |s.log| - 1;
            n >= 0 && RetainedChain(RevisionLinks(View(s)), map[], View(s).head) == Some(Backwards(s, n))
  {
    hide Inv, ChainInv, ManifestInv, Settled, Trail, RevisionLinks;
    HeadInLog(s);
    var n := if Settled(s) then |s.log| else |s.log| - 1;
    ManifestTrail(s, n, {});
    forall r | r in Backwards(s, n)
      ensures r in RevisionLinks(View(s))
    {
      BackwardsAt(s, n, r);
      var i :| 0 <= i < n && RevisionOf(s, s.log[i]) == r;
      ManifestLinks(s, i);
    }
    OnlyAll(Backwards(s, n), RevisionLinks(View(s)).Keys);
  }

  /**
   What a purge must not take away, for recovery to find it: the manifest of the last completed
   commit, and the intents that are unresolved.  Every purge keeps them exactly if the head is
   settled and no unresolved intent has written its manifest yet.
   */
  lemma PurgeHarmlessIff(s: State, maxRevisions: nat, cutoff: Option<nat>, floor: Option<Rev>)
    requires Inv(s)
    ensures LogInIntents(s) && RetainedChain(RevisionLinks(View(s)), View(s).ancestry, View(s).head).Some?
    ensures var gone := Gone(View(s), RetainedChain(RevisionLinks(View(s)), View(s).ancestry, View(s).head).value, maxRevisions, cutoff, floor);
            && (TipRevision(s).Some? ==> (TipRevision(s).value in gone <==> !Settled(s)))
            && (forall t :: t in Unresolved(s) ==>
                  (IntentKey(t) in PurgeKeys(View(s), gone, cutoff) <==> RevisionOf(s, t) in s.revisions))
  {
    hide HeadInv, VisibleInv, KeyInv, ReceiptInv, Published, RevisionLinks, Gone, PurgeKeys, RetainedChain, Settled;
    TrailOfHead(s);
    var chain := RetainedChain(RevisionLinks(View(s)), View(s).ancestry, View(s).head).value;
    if s.log != [] {
      TipGoesIff(s, chain, maxRevisions, cutoff, floor);
    }
    forall t | t in Unresolved(s)
      ensures IntentKey(t) in PurgeKeys(View(s), Gone(View(s), chain, maxRevisions, cutoff, floor), cutoff) <==> RevisionOf(s, t) in s.revisions
    {
      IntentGoesIff(s, chain, maxRevisions, cutoff, floor, t);
    }
  }

  lemma TipGoesIff(s: State, chain: seq<Rev>, maxRevisions: nat, cutoff: Option<nat>, floor: Option<Rev>)
    requires Inv(s) && s.log != []
    requires chain == Backwards(s, if Settled(s) then |s.log| else |s.log| - 1)
    ensures RevisionOf(s, s.log[|s.log| - 1]) in Gone(View(s), chain, maxRevisions, cutoff, floor) <==> !Settled(s)
  {
    hide PendingInv, VisibleInv, KeyInv, ReceiptInv, Published, Gone;
    var n := |s.log| - 1;
    var tip := RevisionOf(s, s.log[n]);
    if Settled(s) {
      PinnedStays(View(s), chain, maxRevisions, cutoff, floor, tip);
    } else {
      assert s.log[n] in s.completes && Readable(s, s.log[n]);
      BackwardsAt(s, n, tip);
      forall i | 0 <= i < n
        ensures RevisionOf(s, s.log[i]) != tip
      {
        assert s.log[i] != s.log[n];
      }
      OffTrailGoes(View(s), chain, maxRevisions, cutoff, floor, tip);
    }
  }

  lemma IntentKeyPurged(h: History, gone: set<Rev>, cutoff: Option<nat>, t: Tx)
    requires gone <= h.revisions.Keys && t !in h.aborts
    ensures IntentKey(t) in PurgeKeys(h, gone, cutoff) <==> exists r :: r in gone && h.revisions[r].tx == t
  {
    hide RetainedHashes;
    if r :| r in gone && h.revisions[r].tx == t {
      assert IntentKey(t) in KeysOf(h, r);
    }
  }

  lemma IntentGoesIff(s: State, chain: seq<Rev>, maxRevisions: nat, cutoff: Option<nat>, floor: Option<Rev>, t: Tx)
    requires Inv(s) && t in Unresolved(s) && chain == Backwards(s, |s.log|)
    ensures IntentKey(t) in PurgeKeys(View(s), Gone(View(s), chain, maxRevisions, cutoff, floor), cutoff) <==> RevisionOf(s, t) in s.revisions
  {
    hide HeadInv, PendingInv, VisibleInv, KeyInv, ReceiptInv, Published, PurgeKeys, Removable, Settled;
    var gone := Gone(View(s), chain, maxRevisions, cutoff, floor);
    var r := RevisionOf(s, t);
    IntentKeyPurged(View(s), gone, cutoff, t);
    if r in s.revisions {
      assert Belongs(s, r);
      BackwardsAt(s, |s.log|, r);
      forall i | 0 <= i < |s.log|
        ensures RevisionOf(s, s.log[i]) != r
      {
        assert s.log[i] in s.completes;
      }
      HeadOnTrail(s, r);
      OffTrailGoes(View(s), chain, maxRevisions, cutoff, floor, r);
    }
    forall q | q in gone && s.revisions[q].tx == t
      ensures q == r
    {
      assert Belongs(s, q);
    }
  }

  lemma HeadOnTrail(s: State, r: Rev)
    requires Inv(s) && forall i :: 0 <= i < |s.log| ==> RevisionOf(s, s.log[i]) != r
    ensures View(s).head != Some(r)
  {
    hide ChainInv, ManifestInv, PendingInv, VisibleInv, KeyInv, ReceiptInv, Published;
  }

  /** What a purge that runs to its end makes of a commit completed but not yet the head: its record is gone, the head
      is the commit before it, and recovery finds no record to adopt. */
  lemma PurgeStrands(s: State, maxRevisions: nat, cutoff: Option<nat>, floor: Option<Rev>)
    requires Inv(s) && RecordsInv(s) && !Settled(s)
    ensures s.log != [] && RetainedChain(RevisionLinks(View(s)), View(s).ancestry, View(s).head).Some?
    ensures var gone := Gone(View(s), RetainedChain(RevisionLinks(View(s)), View(s).ancestry, View(s).head).value, maxRevisions, cutoff, floor);
            var left := Without(Preserved(View(s), gone), PurgeKeys(View(s), gone, cutoff));
            && s.log[|s.log| - 1] in s.completes && s.log[|s.log| - 1] !in left.completes
            && left.head == View(s).head
            && forall t :: t in left.completes ==> left.completes[t].intent.parent != left.head
  {
    hide Inv, Settled, Published, RevisionLinks, RetainedChain, Gone, PurgeKeys, Preserved, Backwards, Trail;
    HeadInLog(s);
    TrailOfHead(s);
    var chain := RetainedChain(RevisionLinks(View(s)), View(s).ancestry, View(s).head).value;
    TipGoesIff(s, chain, maxRevisions, cutoff, floor);
    var gone := Gone(View(s), chain, maxRevisions, cutoff, floor);
    var tip := s.log[|s.log| - 1];
    TipKeyPurged(s, gone, cutoff);
    HeadKept(View(s), gone, PurgeKeys(View(s), gone, cutoff));
    PurgeShrinks(View(s), gone, PurgeKeys(View(s), gone, cutoff));
    forall t | t in s.completes && s.completes[t].intent.parent == View(s).head
      ensures t == tip
    {
      ChildIsNext(s, t, |s.log| - 1);
    }
  }

  lemma TipKeyPurged(s: State, gone: set<Rev>, cutoff: Option<nat>)
    requires Inv(s) && s.log != [] && RevisionOf(s, s.log[|s.log| - 1]) in gone
    ensures s.log[|s.log| - 1] in s.completes && CompleteKey(s.log[|s.log| - 1]) in PurgeKeys(View(s), gone, cutoff)
    ensures s.log[|s.log| - 1] !in Without(Preserved(View(s), gone), PurgeKeys(View(s), gone, cutoff)).completes
  {
    hide HeadInv, PendingInv, VisibleInv, KeyInv, ReceiptInv, Published, RetainedHashes, AbortedKeys;
    var tip := s.log[|s.log| - 1];
    assert tip in s.completes && Readable(s, tip);
    assert CompleteKey(tip) in KeysOf(View(s), RevisionOf(s, tip));
  }
}
