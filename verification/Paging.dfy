/** History pages (query.ts): the causal list of commits, and reading it page by page. */
module Paging {
  import opened Types
  import opened Protocol
  import opened ProtocolRuns
  import opened Retention
  import opened Purge

  // ---------------------------------------------------------------- the causal list

  /** The history namespace of a protocol state, before any purge. */
  function View(s: State): History {
    History(if s.head.Some? then Some(s.head.value.revision) else None,
            s.revisions, s.completes, map t | t in s.intents :: s.intents[t].createdAt,
            s.aborts, s.idempotency.Keys, s.objects.Keys, {}, map[])
  }

  lemma ViewIsGood(s: State)
    requires Inv(s)
    ensures GoodHistory(View(s))
  {
    hide HeadInv, PendingInv, VisibleInv, KeyInv, ReceiptInv, Published;
    var h := View(s);
    forall r | r in h.revisions
      ensures h.revisions[r].tx in s.intents && s.intents[h.revisions[r].tx].newRevision == r
      ensures h.revisions[r].parent == s.intents[h.revisions[r].tx].parent
    {
      assert Belongs(s, r);
    }
    forall t | t in h.completes
      ensures h.completes[t].intent.newRevision in h.revisions && h.revisions[h.completes[t].intent.newRevision].tx == t
    {
      assert Readable(s, t);
    }
  }

  /** The revisions of the first n completed transactions, newest first. */
  function Backwards(s: State, n: nat): (r: seq<Rev>)
    requires LogInIntents(s) && n <= |s.log|
    ensures |r| == n
  {
    if n == 0 then [] else [RevisionOf(s, s.log[n - 1])] + Backwards(s, n - 1)
  }

  lemma {:induction false} TrailIsLog(s: State, n: nat, seen: set<Rev>)
    requires RecordsInv(s) && ChainInv(s) && n <= |s.log| && OneCompletePerRevision(View(s))
    requires forall i :: 0 <= i < n ==> RevisionOf(s, s.log[i]) !in seen
    ensures Trail(CompleteLinks(View(s)), map[], if n == 0 then None else Some(RevisionOf(s, s.log[n - 1])), seen)
            == Some(Backwards(s, n))
    decreases n
  {
    hide Trail, CompleteLinks;
    var links := CompleteLinks(View(s));
    if n == 0 {
      EndOfTrail(links, map[], None, seen);
    } else {
      var t := s.log[n - 1];
      var r := RevisionOf(s, t);
      TrailUnfolds(links, map[], r, seen);
      LinkOfLog(s, n - 1);
      forall i | 0 <= i < n - 1
        ensures RevisionOf(s, s.log[i]) != r
      {
        assert s.log[i] != t;
      }
      TrailIsLog(s, n - 1, seen + {r});
    }
  }

  lemma LinkOfLog(s: State, i: nat)
    requires RecordsInv(s) && ChainInv(s) && i < |s.log| && OneCompletePerRevision(View(s))
    ensures var links := CompleteLinks(View(s));
            && RevisionOf(s, s.log[i]) in links
            && links[RevisionOf(s, s.log[i])] == if i == 0 then None else Some(RevisionOf(s, s.log[i - 1]))
  {
    assert s.log[i] in s.completes && Follows(s, i);
  }

  lemma {:induction false} BackwardsRecorded(s: State, n: nat)
    requires RecordsInv(s) && ChainInv(s) && n <= |s.log| && OneCompletePerRevision(View(s))
    ensures Only(Backwards(s, n), CompleteLinks(View(s)).Keys) == Backwards(s, n)
    decreases n
  {
    hide CompleteLinks, OneCompletePerRevision, ChainInv;
    if n > 0 {
      LinkOfLog(s, n - 1);
      BackwardsRecorded(s, n - 1);
      OnlyCons(RevisionOf(s, s.log[n - 1]), Backwards(s, n - 1), CompleteLinks(View(s)).Keys);
    }
  }

  /** Once the head is settled, the causal walk lists exactly the completed transactions, in order. */
  lemma CausalListIsLog(s: State)
    requires Inv(s) && RecordsInv(s) && Settled(s)
    ensures GoodHistory(View(s)) && Grounded(View(s))
    ensures RetainedChain(CompleteLinks(View(s)), View(s).ancestry, View(s).head) == Some(Backwards(s, |s.log|))
  {
    hide Trail, GoodHistory, CompleteLinks, Only;
    ViewIsGood(s);
    GoodIsOne(View(s));
    SettledHead(s);
    TrailIsLog(s, |s.log|, {});
    BackwardsRecorded(s, |s.log|);
    forall r | r in Backwards(s, |s.log|)
      ensures r in CompleteLinks(View(s))
    {
      OnlyKeeps(Backwards(s, |s.log|), CompleteLinks(View(s)).Keys);
    }
  }

  lemma SettledHead(s: State)
    requires Inv(s) && RecordsInv(s) && Settled(s)
    ensures ChainInv(s)
    ensures View(s).head == if s.log == [] then None else Some(RevisionOf(s, s.log[|s.log| - 1]))
  {
  }

  lemma OnlyKeeps(rs: seq<Rev>, keep: set<Rev>)
    requires Only(rs, keep) == rs
    ensures forall r :: r in rs ==> r in keep
  {
  }

  lemma GoodIsOne(h: History)
    requires GoodHistory(h)
    ensures OneCompletePerRevision(h)
  {
  }

  // ---------------------------------------------------------------- the commits on it

  /** The complete record of a revision. */
  function CompleteOf(h: History, r: Rev): (t: Tx)
    requires OneCompletePerRevision(h) && r in CompleteLinks(h)
    ensures t in h.completes && h.completes[t].intent.newRevision == r
  {
    var t :| t in h.completes && h.completes[t].intent.newRevision == r;
    t
  }

  /** The records of a newest-first chain, oldest first. */
  function OldestFirst(h: History, chain: seq<Rev>): (ts: seq<Tx>)
    requires OneCompletePerRevision(h) && forall r :: r in chain ==> r in CompleteLinks(h)
    ensures |ts| == |chain|
  {
    if chain == [] then [] else OldestFirst(h, chain[1..]) + [CompleteOf(h, chain[0])]
  }

  /** The records on the head's chain in parent order, or an error if the ancestry is a cycle. */
  function CausalCompletes(h: History): Option<seq<Tx>>
    requires OneCompletePerRevision(h)
  {
    var chain := RetainedChain(CompleteLinks(h), h.ancestry, h.head);
    if chain.None? then None else Some(OldestFirst(h, chain.value))
  }

  lemma {:induction false} OldestFirstAt(h: History, chain: seq<Rev>, k: nat)
    requires OneCompletePerRevision(h) && (forall r :: r in chain ==> r in CompleteLinks(h)) && k < |chain|
    ensures OldestFirst(h, chain)[|chain| - 1 - k] == CompleteOf(h, chain[k])
  {
    if k > 0 {
      OldestFirstAt(h, chain[1..], k - 1);
    }
  }

  lemma ChainDistinct(h: History)
    requires OneCompletePerRevision(h) && CausalCompletes(h).Some?
    ensures Distinct(CausalCompletes(h).value)
  {
    hide Trail, CompleteLinks, OneCompletePerRevision, CompleteOf, OldestFirst;
    var chain := RetainedChain(CompleteLinks(h), h.ancestry, h.head).value;
    TrailDistinct(CompleteLinks(h), h.ancestry, h.head, {});
    OnlyDistinct(Trail(CompleteLinks(h), h.ancestry, h.head, {}).value, CompleteLinks(h).Keys);
    var ts := OldestFirst(h, chain);
    forall i, j | 0 <= i < j < |ts|
      ensures ts[i] != ts[j]
    {
      OldestFirstAt(h, chain, |chain| - 1 - i);
      OldestFirstAt(h, chain, |chain| - 1 - j);
      assert chain[|chain| - 1 - j] != chain[|chain| - 1 - i];
    }
  }

  // ---------------------------------------------------------------- a listing of the complete records

  /** The order in which the store lists its complete records. */
  predicate Lists(h: History, order: seq<Tx>) {
    (forall i :: 0 <= i < |order| ==> order[i] in h.completes) && (forall t :: t in h.completes ==> t in order)
  }

  /** The records by revision: of several with one revision the last in the listing. */
  function ByRevision(h: History, order: seq<Tx>): (m: map<Rev, Tx>)
    requires forall t :: t in order ==> t in h.completes
    ensures forall r :: r in m ==> m[r] in order && h.completes[m[r]].intent.newRevision == r
    ensures forall t :: t in order ==> h.completes[t].intent.newRevision in m
  {
    if order == [] then map[]
    else
      var last := order[|order| - 1];
      assert order == order[..|order| - 1] + [last];
      ByRevision(h, order[..|order| - 1])[h.completes[last].intent.newRevision := last]
  }

  lemma ByRevisionMore(h: History, order: seq<Tx>, i: nat)
    requires i < |order| && forall t :: t in order ==> t in h.completes
    ensures ByRevision(h, order[..i + 1]) == ByRevision(h, order[..i])[h.completes[order[i]].intent.newRevision := order[i]]
  {
    assert order[..i + 1][..i] == order[..i] && order[..i + 1][i] == order[i];
  }

  /** The history with the records that the walk finds by their revision. */
  function Listed(h: History, order: seq<Tx>): (l: History)
    requires Lists(h, order)
    ensures OneCompletePerRevision(l)
  {
    var m := ByRevision(h, order);
    h.(completes := map t | t in h.completes && m[h.completes[t].intent.newRevision] == t :: h.completes[t])
  }

  /** causalCompletes, on any store and in any order of listing. */
  function CausalListing(h: History, order: seq<Tx>): Option<seq<Tx>>
    requires Lists(h, order)
  {
    CausalCompletes(Listed(h, order))
  }

  /** With one record per revision the order of listing decides nothing. */
  lemma AnyOrder(h: History, order: seq<Tx>)
    requires Lists(h, order) && OneCompletePerRevision(h)
    ensures CausalListing(h, order) == CausalCompletes(h)
  {
    hide CausalCompletes;
    var m := ByRevision(h, order);
    forall t | t in h.completes
      ensures m[h.completes[t].intent.newRevision] == t
    {
      assert t in order;
    }
    assert Listed(h, order).completes == h.completes;
  }

  /** Whatever the store holds, and however it lists it, no commit is listed twice. */
  lemma CausalDistinct(h: History, order: seq<Tx>)
    requires Lists(h, order) && CausalListing(h, order).Some?
    ensures Distinct(CausalListing(h, order).value)
  {
    hide CausalCompletes, Distinct, Listed;
    ChainDistinct(Listed(h, order));
  }

  function LinksOf(h: History, m: map<Rev, Tx>): (links: Links)
    requires forall r :: r in m ==> m[r] in h.completes
    ensures links.Keys == m.Keys
  {
    map r | r in m :: h.completes[m[r]].intent.parent
  }

  lemma ListedAt(h: History, order: seq<Tx>, r: Rev)
    requires Lists(h, order)
    ensures var m, l := ByRevision(h, order), Listed(h, order);
            && (r in CompleteLinks(l) <==> r in m)
            && (r in m ==> CompleteOf(l, r) == m[r] && CompleteLinks(l)[r] == h.completes[m[r]].intent.parent)
  {
    var m, l := ByRevision(h, order), Listed(h, order);
    if r in m {
      assert m[r] in order && m[r] in l.completes && l.completes[m[r]].intent.newRevision == r;
    }
    if r in CompleteLinks(l) {
      assert CompleteOf(l, r) in order;
    }
  }

  lemma ListedLinks(h: History, order: seq<Tx>)
    requires Lists(h, order)
    ensures var m, l := ByRevision(h, order), Listed(h, order);
            && l.ancestry == h.ancestry && l.head == h.head && CompleteLinks(l) == LinksOf(h, m)
            && forall r :: r in m ==> r in CompleteLinks(l) && CompleteOf(l, r) == m[r]
  {
    assert Listed(h, order).ancestry == h.ancestry && Listed(h, order).head == h.head;
    hide Listed, ByRevision, CompleteOf, CompleteLinks, OneCompletePerRevision;
    forall r
      ensures r in CompleteLinks(Listed(h, order)) <==> r in ByRevision(h, order)
      ensures r in ByRevision(h, order) ==>
                && CompleteOf(Listed(h, order), r) == ByRevision(h, order)[r]
                && CompleteLinks(Listed(h, order))[r] == LinksOf(h, ByRevision(h, order))[r]
    {
      ListedAt(h, order, r);
    }
  }

  lemma {:induction false} BackwardsOldestFirst(s: State, n: nat)
    requires RecordsInv(s) && ChainInv(s) && n <= |s.log| && OneCompletePerRevision(View(s))
    ensures forall r :: r in Backwards(s, n) ==> r in CompleteLinks(View(s))
    ensures OldestFirst(View(s), Backwards(s, n)) == s.log[..n]
    decreases n
  {
    hide CompleteLinks, OneCompletePerRevision, CompleteOf, View;
    if n > 0 {
      BackwardsOldestFirst(s, n - 1);
      LinkOfLog(s, n - 1);
      CompleteOfLog(s, n - 1);
      assert Backwards(s, n)[1..] == Backwards(s, n - 1);
      assert s.log[..n] == s.log[..n - 1] + [s.log[n - 1]];
    }
  }

  lemma CompleteOfLog(s: State, i: nat)
    requires RecordsInv(s) && ChainInv(s) && i < |s.log| && OneCompletePerRevision(View(s))
    requires RevisionOf(s, s.log[i]) in CompleteLinks(View(s))
    ensures CompleteOf(View(s), RevisionOf(s, s.log[i])) == s.log[i]
  {
    hide CompleteLinks;
    var t := CompleteOf(View(s), RevisionOf(s, s.log[i]));
    assert s.log[i] in s.completes && s.intents[t].newRevision == s.intents[s.log[i]].newRevision;
  }

  /** On a settled store that was never purged the listed commits are the log of completed transactions. */
  lemma CausalIsLog(s: State)
    requires Inv(s) && RecordsInv(s) && Settled(s)
    ensures GoodHistory(View(s)) && Grounded(View(s)) && CausalCompletes(View(s)) == Some(s.log)
  {
    hide Inv, Settled, RecordsInv, GoodHistory, Grounded, CompleteLinks, RetainedChain, View, OldestFirst, Backwards,
         OneCompletePerRevision;
    CausalListIsLog(s);
    GoodIsOne(View(s));
    SettledHead(s);
    BackwardsOldestFirst(s, |s.log|);
    assert s.log[..|s.log|] == s.log;
  }

  // ---------------------------------------------------------------- across purges

  lemma OnlyAppend(a: seq<Rev>, r: Rev, keep: set<Rev>)
    ensures Only(a + [r], keep) == Only(a, keep) + if r in keep then [r] else []
  {
    if a != [] {
      OnlyAppend(a[1..], r, keep);
      assert (a + [r])[1..] == a[1..] + [r];
    } else {
      assert a + [r] == [r] && [r][1..] == [];
    }
  }

  /** A history with some complete records gone. */
  ghost predicate Shrunk(h: History, h': History) {
    h'.completes.Keys <= h.completes.Keys && forall t :: t in h'.completes ==> h'.completes[t] == h.completes[t]
  }

  lemma SameComplete(h: History, h': History, r: Rev)
    requires OneCompletePerRevision(h) && OneCompletePerRevision(h') && Shrunk(h, h') && r in CompleteLinks(h)
    ensures r in CompleteLinks(h') <==> CompleteOf(h, r) in h'.completes
    ensures r in CompleteLinks(h') ==> CompleteOf(h', r) == CompleteOf(h, r)
  {
    hide CompleteOf;
    assert CompleteOf(h, r) in h.completes;
  }

  lemma {:induction false} SurvivorsOldestFirst(h: History, h': History, chain: seq<Rev>)
    requires OneCompletePerRevision(h) && OneCompletePerRevision(h') && Shrunk(h, h')
    requires forall r :: r in chain ==> r in CompleteLinks(h)
    ensures OldestFirst(h', Only(chain, CompleteLinks(h').Keys)) == Only(OldestFirst(h, chain), h'.completes.Keys)
  {
    hide CompleteOf, CompleteLinks, OneCompletePerRevision, Shrunk;
    if chain != [] {
      var keep := CompleteLinks(h').Keys;
      SurvivorsOldestFirst(h, h', chain[1..]);
      SameComplete(h, h', chain[0]);
      OnlyAppend(OldestFirst(h, chain[1..]), CompleteOf(h, chain[0]), h'.completes.Keys);
      if chain[0] in keep {
        assert Only(chain, keep) == [chain[0]] + Only(chain[1..], keep);
        assert Only(chain, keep)[1..] == Only(chain[1..], keep);
      } else {
        assert Only(chain, keep) == Only(chain[1..], keep);
      }
    }
  }

  lemma PurgeShrinks(h: History, links: set<Rev>, keys: set<HistoryKey>)
    ensures Shrunk(h, Without(Preserved(h, links), keys))
  {
  }

  /** After a purge, wherever it stopped, the listed commits are the surviving ones in their old order. */
  lemma CausalAfterPurge(h: History, gone: set<Rev>, cutoff: Option<nat>, links: set<Rev>, keys: set<HistoryKey>)
    requires GoodHistory(h) && Grounded(h) && Leaves(h, gone, cutoff, links, keys)
    ensures var h' := Without(Preserved(h, links), keys);
            && GoodHistory(h') && Grounded(h') && CausalCompletes(h).Some?
            && CausalCompletes(h') == Some(Only(CausalCompletes(h).value, h'.completes.Keys))
  {
    hide GoodHistory, Grounded, Leaves, Without, Preserved, RetainedChain, CompleteLinks, Shrunk, OneCompletePerRevision,
         OldestFirst;
    GoodAgain(h, gone, cutoff, links, keys);
    GroundedAgain(h, gone, cutoff, links, keys);
    GoodIsOne(h);
    CommitOrderKept(h, gone, cutoff, links, keys);
    PurgeShrinks(h, links, keys);
    RetainedAreLinks(h);
    SurvivorsOldestFirst(h, Without(Preserved(h, links), keys), RetainedChain(CompleteLinks(h), h.ancestry, h.head).value);
  }

  lemma RetainedAreLinks(h: History)
    requires OneCompletePerRevision(h)
    ensures var chain := RetainedChain(CompleteLinks(h), h.ancestry, h.head);
            chain.Some? ==> forall r :: r in chain.value ==> r in CompleteLinks(h)
  {
    hide Trail, CompleteLinks;
  }

  /** One purge after another, each possibly cut short. */
  datatype PurgeRun = PurgeRun(gone: set<Rev>, cutoff: Option<nat>, links: set<Rev>, keys: set<HistoryKey>)

  function AfterPurge(h: History, p: PurgeRun): History {
    Without(Preserved(h, p.links), p.keys)
  }

  function AfterPurges(h: History, ps: seq<PurgeRun>): History
    decreases |ps|
  {
    if ps == [] then h else AfterPurges(AfterPurge(h, ps[0]), ps[1..])
  }

  ghost predicate Purges(h: History, ps: seq<PurgeRun>)
    decreases |ps|
  {
    ps != [] ==> Leaves(h, ps[0].gone, ps[0].cutoff, ps[0].links, ps[0].keys) && Purges(AfterPurge(h, ps[0]), ps[1..])
  }

  lemma {:induction false} CausalAfterPurges(h: History, ps: seq<PurgeRun>)
    requires GoodHistory(h) && Grounded(h) && Purges(h, ps)
    ensures var h' := AfterPurges(h, ps);
            && GoodHistory(h') && Grounded(h') && CausalCompletes(h).Some? && h'.completes.Keys <= h.completes.Keys
            && CausalCompletes(h') == Some(Only(CausalCompletes(h).value, h'.completes.Keys))
    decreases |ps|
  {
    hide GoodHistory, Grounded, Leaves, Without, Preserved, OneCompletePerRevision, CausalCompletes;
    GoodIsOne(h);
    if ps == [] {
      CausalListed(h);
      OnlyAll(CausalCompletes(h).value, h.completes.Keys);
    } else {
      var p := ps[0];
      CausalAfterPurge(h, p.gone, p.cutoff, p.links, p.keys);
      PurgeShrinks(h, p.links, p.keys);
      CausalAfterPurges(AfterPurge(h, p), ps[1..]);
      OnlyOnly(CausalCompletes(h).value, AfterPurge(h, p).completes.Keys, AfterPurges(h, ps).completes.Keys);
    }
  }

  lemma CausalListed(h: History)
    requires GoodHistory(h) && Grounded(h)
    ensures OneCompletePerRevision(h) && CausalCompletes(h).Some?
    ensures forall t :: t in CausalCompletes(h).value ==> t in h.completes
  {
    hide Trail, CompleteLinks, CompleteOf, OldestFirst;
    RetainedAreLinks(h);
    var chain := RetainedChain(CompleteLinks(h), h.ancestry, h.head).value;
    forall t | t in OldestFirst(h, chain)
      ensures t in h.completes
    {
      var i :| 0 <= i < |chain| && OldestFirst(h, chain)[i] == t;
      OldestFirstAt(h, chain, |chain| - 1 - i);
    }
  }

  lemma {:induction false} OnlyAll(rs: seq<Rev>, keep: set<Rev>)
    requires forall r :: r in rs ==> r in keep
    ensures Only(rs, keep) == rs
  {
    if rs != [] {
      OnlyAll(rs[1..], keep);
    }
  }

  /** However often a settled store is purged, its history lists exactly the surviving commits of the log, in order. */
  lemma PurgedLog(s: State, ps: seq<PurgeRun>)
    requires Inv(s) && RecordsInv(s) && Settled(s) && Purges(View(s), ps)
    ensures var h := AfterPurges(View(s), ps);
            OneCompletePerRevision(h) && CausalCompletes(h) == Some(Only(s.log, h.completes.Keys))
  {
    hide Inv, RecordsInv, Settled, GoodHistory, Grounded, View, AfterPurges, Purges, CausalCompletes, OneCompletePerRevision;
    CausalIsLog(s);
    CausalAfterPurges(View(s), ps);
    GoodIsOne(AfterPurges(View(s), ps));
  }

  // ---------------------------------------------------------------- pages

  datatype Page = Page(records: seq<Tx>, nextCursor: Option<Tx>)

  /** The index a page starts at; None when the cursor names no commit and that is an error. */
  function HistoryStart(records: seq<Tx>, cursor: Option<Tx>, oldest: bool): Option<nat> {
    if cursor.None? then Some(0)
    else
      var i := IndexOf(records, cursor.value);
      if i < |records| then Some(i + 1) else if oldest then Some(0) else None
  }

  function IndexOf(records: seq<Tx>, t: Tx): (i: nat)
    ensures i <= |records| && (i < |records| <==> t in records)
    ensures i < |records| ==> records[i] == t && t !in records[..i]
  {
    if records == [] then 0
    else if records[0] == t then 0
    else
      assert records == [records[0]] + records[1..];
      1 + IndexOf(records[1..], t)
  }

  /** The next records from the i-th on, as many as are asked for if there are that many; a cursor to the last of them exactly if more follow. */
  ghost predicate PageAt(records: seq<Tx>, i: nat, limit: nat, page: Page) {
    var n := |page.records|;
    && i + n <= |records| && page.records == records[i..i + n]
    && n <= limit && (page.nextCursor.Some? ==> n == limit)
    && (page.nextCursor.None? <==> i + n == |records|)
    && (page.nextCursor.Some? && n > 0 ==> page.nextCursor == Some(page.records[n - 1]))
  }

  datatype PageResult = Read(page: Page) | CursorNotFound | Corrupt

  /** The map from revisions to records: a later record in the listing replaces an earlier one. */
  method IndexByRevision(h: History, order: seq<Tx>) returns (m: map<Rev, Tx>)
    requires forall t :: t in order ==> t in h.completes
    ensures m == ByRevision(h, order)
  {
    m := map[];
    var i := 0;
    assert order[..0] == [];
    while i < |order|
      invariant i <= |order| && m == ByRevision(h, order[..i])
    {
      ByRevisionMore(h, order, i);
      m := m[h.completes[order[i]].intent.newRevision := order[i]];
      i := i + 1;
    }
    assert order[..|order|] == order;
  }

  /** The retained chain turned round, each revision as its record. */
  method CausalRecords(h: History, order: seq<Tx>) returns (records: Option<seq<Tx>>)
    requires Lists(h, order)
    ensures records == CausalListing(h, order)
  {
    hide RetainedChain, OneCompletePerRevision, CompleteLinks, CompleteOf, Listed, ByRevision, LinksOf, OldestFirst;
    var m := IndexByRevision(h, order);
    ListedLinks(h, order);
    var chain := WalkRetained(LinksOf(h, m), h.ancestry, h.head);
    if chain.None? {
      return None;
    }
    RetainedAreLinks(Listed(h, order));
    var causal := TurnedRound(Listed(h, order), m, chain.value);
    return Some(causal);
  }

  method TurnedRound(ghost l: History, m: map<Rev, Tx>, chain: seq<Rev>) returns (causal: seq<Tx>)
    requires OneCompletePerRevision(l) && forall r :: r in chain ==> r in CompleteLinks(l) && r in m && m[r] == CompleteOf(l, r)
    ensures causal == OldestFirst(l, chain)
  {
    hide OneCompletePerRevision, CompleteLinks, CompleteOf;
    causal := [];
    var i := |chain|;
    assert chain[i..] == [];
    while i > 0
      invariant i <= |chain| && causal == OldestFirst(l, chain[i..])
    {
      i := i - 1;
      assert chain[i..][1..] == chain[i + 1..] && chain[i] in chain;
      causal := causal + [m[chain[i]]];
    }
    assert chain[0..] == chain;
  }

  /**
   readHistoryPage.  A cursor that names the i-th commit is answered with the commits after it; a
   cursor that names none with the oldest ones or an error, as asked.
   */
  method ReadHistoryPage(h: History, order: seq<Tx>, cursor: Option<Tx>, oldest: bool, limit: nat) returns (r: PageResult)
    requires Lists(h, order) && limit >= 1
    ensures r.Corrupt? <==> CausalListing(h, order).None?
    ensures CausalListing(h, order).Some? ==>
              var records := CausalListing(h, order).value;
              && (r.CursorNotFound? <==> cursor.Some? && cursor.value !in records && !oldest)
              && (cursor.None? || (cursor.value !in records && oldest) ==> r.Read? && PageAt(records, 0, limit, r.page))
              && forall i :: 0 <= i < |records| && cursor == Some(records[i]) ==> r.Read? && PageAt(records, i + 1, limit, r.page)
  {
    hide CausalListing, Lists;
    var causal := CausalRecords(h, order);
    if causal.None? {
      return Corrupt;
    }
    var records := causal.value;
    CausalDistinct(h, order);
    var start := HistoryStart(records, cursor, oldest);
    if start.None? {
      return CursorNotFound;
    }
    var end := if start.value + limit < |records| then start.value + limit else |records|;
    var page := records[start.value..end];
    var next := if start.value + |page| < |records| then Some(page[|page| - 1]) else None;
    return Read(Page(page, next));
  }

  lemma NextSeen(records: seq<Tx>, seen: seq<Tx>, limit: nat, page: Page)
    requires |seen| <= |records| && seen == records[..|seen|] && limit >= 1 && PageAt(records, |seen|, limit, page)
    ensures var more := seen + page.records;
            && |more| <= |records| && more == records[..|more|]
            && (page.nextCursor.None? ==> more == records)
            && (page.nextCursor.Some? ==> |more| > |seen| && page.nextCursor == Some(more[|more| - 1]))
  {
    assert records[..|seen|] + page.records == records[..|seen| + |page.records|];
  }

  /**
   Following nextCursor with any page limits ends, and reads every commit of the causal list
   exactly once, in order; with PurgedLog, exactly the survivors of any number of purges.
   */
  method FollowPages(h: History, order: seq<Tx>, limits: nat -> nat, oldest: bool) returns (visited: Option<seq<Tx>>)
    requires Lists(h, order) && forall n :: limits(n) >= 1
    ensures visited == CausalListing(h, order)
  {
    hide CausalListing, Lists, PageAt, Distinct;
    var seen: seq<Tx> := [];
    var cursor: Option<Tx> := None;
    var n := 0;
    if CausalListing(h, order).Some? {
      CausalDistinct(h, order);
    }
    ghost var records := if CausalListing(h, order).Some? then CausalListing(h, order).value else [];
    while true
      invariant |seen| <= |records| && seen == records[..|seen|]
      invariant cursor == if seen == [] then None else Some(seen[|seen| - 1])
      invariant CausalListing(h, order).None? ==> seen == []
      decreases |records| - |seen|, if seen == records then 0 else 1
    {
      var r := ReadHistoryPage(h, order, cursor, oldest, limits(n));
      if r.Corrupt? {
        return None;
      }
      assert PageAt(records, |seen|, limits(n), r.page) by {
        if seen != [] {
          assert cursor == Some(records[|seen| - 1]);
        }
      }
      NextSeen(records, seen, limits(n), r.page);
      seen := seen + r.page.records;
      if r.page.nextCursor.None? {
        return Some(seen);
      }
      cursor := r.page.nextCursor;
      n := n + 1;
    }
  }
}
