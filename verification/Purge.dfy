/** The purge itself: what it keeps, what it removes, and what survives any part of the removal. */
module Purge {
  import opened Types
  import opened Protocol
  import opened Retention

  datatype Result = Purged(keys: set<HistoryKey>) | NotFound | Cycle | Interrupted

  /** Links through complete records, the ones history pages follow. */
  function CompleteLinks(h: History): Links
    requires OneCompletePerRevision(h)
  {
    map t | t in h.completes :: h.completes[t].intent.newRevision := h.completes[t].intent.parent
  }

  predicate OneCompletePerRevision(h: History) {
    forall t, u {:trigger h.completes[t].intent.newRevision, h.completes[u].intent.newRevision} ::
      t in h.completes && u in h.completes && h.completes[t].intent.newRevision == h.completes[u].intent.newRevision ==> t == u
  }

  /** Records about one transaction agree, and preserved ancestry agrees with the records. */
  ghost predicate GoodHistory(h: History) {
    && OneCompletePerRevision(h)
    && h.completes.Keys !! h.aborts
    && (forall r, q {:trigger h.revisions[r].tx, h.revisions[q].tx} ::
          r in h.revisions && q in h.revisions && h.revisions[r].tx == h.revisions[q].tx ==> r == q)
    && (forall t :: t in h.completes && h.completes[t].intent.newRevision in h.revisions ==>
          var r := h.revisions[h.completes[t].intent.newRevision];
          r.tx == t && r.parent == h.completes[t].intent.parent)
    && (forall r :: r in h.revisions && h.revisions[r].tx in h.completes ==> h.completes[h.revisions[r].tx].intent.newRevision == r)
    && (forall r :: r in h.revisions && r in h.ancestry ==> h.ancestry[r] == h.revisions[r].parent)
    && (forall t :: t in h.completes && h.completes[t].intent.newRevision in h.ancestry ==>
          h.ancestry[h.completes[t].intent.newRevision] == h.completes[t].intent.parent)
  }

  // ---------------------------------------------------------------- which revisions go

  /** The chain from the head down to the floor, inclusive. */
  function DownTo(chain: seq<Rev>, floor: Rev): (r: seq<Rev>)
    ensures forall q :: q in r ==> q in chain
  {
    if chain == [] then [] else if chain[0] == floor then [floor] else [chain[0]] + DownTo(chain[1..], floor)
  }

  function Pinned(h: History, chain: seq<Rev>, floor: Option<Rev>): set<Rev> {
    h.checkpoints
    + (if h.head.Some? then {h.head.value} else {})
    + (if floor.Some? then set r | r in DownTo(chain, floor.value) else {})
  }

  function Newest(chain: seq<Rev>, n: nat): seq<Rev> {
    if n < |chain| then chain[..n] else chain
  }

  predicate Removable(h: History, chain: seq<Rev>, maxRevisions: nat, cutoff: Option<nat>, floor: Option<Rev>, r: Rev)
    requires r in h.revisions
  {
    && r !in Pinned(h, chain, floor)
    && ((cutoff.Some? && h.revisions[r].committedAt < cutoff.value) || r !in Newest(chain, maxRevisions))
  }

  function Gone(h: History, chain: seq<Rev>, maxRevisions: nat, cutoff: Option<nat>, floor: Option<Rev>): set<Rev> {
    set r | r in h.revisions && Removable(h, chain, maxRevisions, cutoff, floor, r)
  }

  function RetainedHashes(h: History, gone: set<Rev>): set<Hash> {
    set r, o | r in h.revisions && r !in gone && o in Hashes(h.revisions[r].entries) :: o
  }

  function KeysOf(h: History, r: Rev): (keys: set<HistoryKey>)
    requires r in h.revisions
    ensures forall k :: k in keys ==>
              match k
              case ObjectKey(_) => false
              case AbortKey(_) => false
              case RevisionKey(q) => q == r
              case CompleteKey(t) => t == h.revisions[r].tx
              case IntentKey(t) => t == h.revisions[r].tx
              case IdempotencyKey(_) => true
  {
    var t := h.revisions[r].tx;
    {IntentKey(t), CompleteKey(t), RevisionKey(r)}
    + if t in h.completes && h.completes[t].intent.key.Some? then {IdempotencyKey(h.completes[t].intent.key.value)} else {}
  }

  function AbortedKeys(h: History, cutoff: Option<nat>): (keys: set<HistoryKey>)
    ensures forall k :: k in keys ==> k.IntentKey? || k.AbortKey?
  {
    if cutoff.None? then {}
    else
      (set t | t in h.intents && t in h.aborts && h.intents[t] < cutoff.value :: IntentKey(t))
      + (set t | t in h.intents && t in h.aborts && h.intents[t] < cutoff.value :: AbortKey(t))
  }

  /** Everything a purge of the revisions `gone` removes. */
  function PurgeKeys(h: History, gone: set<Rev>, cutoff: Option<nat>): set<HistoryKey> {
    (set o | o in h.objects && o !in RetainedHashes(h, gone) :: ObjectKey(o))
    + (set r, k | r in gone && r in h.revisions && k in KeysOf(h, r) :: k)
    + AbortedKeys(h, cutoff)
  }

  function Preserved(h: History, rs: set<Rev>): History {
    h.(ancestry := map r | r in h.ancestry.Keys + rs * h.revisions.Keys ::
         if r in rs && r in h.revisions then h.revisions[r].parent else h.ancestry[r])
  }

  /**
   A store a purge may leave behind: ancestry written for `links`, `keys` removed; removal only
   starts once all ancestry is durable.
   */
  ghost predicate Leaves(h: History, gone: set<Rev>, cutoff: Option<nat>, links: set<Rev>, keys: set<HistoryKey>) {
    links <= gone <= h.revisions.Keys && keys <= PurgeKeys(h, gone, cutoff) && (keys == {} || links == gone)
  }

  // ---------------------------------------------------------------- what survives

  lemma RevisionKeyPurged(h: History, gone: set<Rev>, cutoff: Option<nat>, r: Rev)
    requires gone <= h.revisions.Keys
    ensures RevisionKey(r) in PurgeKeys(h, gone, cutoff) ==> r in gone
  {
    hide KeysOf, AbortedKeys, RetainedHashes;
  }

  lemma ObjectKeyPurged(h: History, gone: set<Rev>, cutoff: Option<nat>, o: Hash)
    ensures ObjectKey(o) in PurgeKeys(h, gone, cutoff) ==> o !in RetainedHashes(h, gone)
  {
    hide KeysOf, AbortedKeys, RetainedHashes;
  }

  lemma CompleteKeyPurged(h: History, gone: set<Rev>, cutoff: Option<nat>, t: Tx)
    requires gone <= h.revisions.Keys && CompleteKey(t) in PurgeKeys(h, gone, cutoff)
    ensures exists r :: r in gone && h.revisions[r].tx == t
  {
    hide KeysOf, AbortedKeys, RetainedHashes;
    var r :| r in gone && CompleteKey(t) in KeysOf(h, r);
    assert h.revisions[r].tx == t;
  }

  /** Every retained revision keeps its manifest and every body it had. */
  lemma RetainedStayReadable(h: History, gone: set<Rev>, cutoff: Option<nat>, links: set<Rev>, keys: set<HistoryKey>, r: Rev)
    requires Leaves(h, gone, cutoff, links, keys) && r in h.revisions && r !in gone
    ensures var h' := Without(Preserved(h, links), keys);
            && r in h'.revisions && h'.revisions[r] == h.revisions[r]
            && forall o :: o in Hashes(h.revisions[r].entries) && o in h.objects ==> o in h'.objects
  {
    hide PurgeKeys, Preserved, RetainedHashes, Hashes;
    PreservedKeeps(h, links);
    RevisionKeyPurged(h, gone, cutoff, r);
    forall o | o in Hashes(h.revisions[r].entries) && o in h.objects
      ensures o in Without(Preserved(h, links), keys).objects
    {
      ObjectKeyPurged(h, gone, cutoff, o);
      HashRetained(h, gone, r, o);
    }
  }

  lemma HashRetained(h: History, gone: set<Rev>, r: Rev, o: Hash)
    requires r in h.revisions && r !in gone && o in Hashes(h.revisions[r].entries)
    ensures o in RetainedHashes(h, gone)
  {
  }

  lemma PreservedKeeps(h: History, links: set<Rev>)
    ensures var p := Preserved(h, links); p.revisions == h.revisions && p.completes == h.completes && p.objects == h.objects
  {
  }

  lemma {:induction false} DownToAt(chain: seq<Rev>, floor: Rev, i: nat)
    requires Distinct(chain) && floor in chain && i < |chain|
    ensures chain[i] in DownTo(chain, floor) <==> exists j :: i <= j < |chain| && chain[j] == floor
  {
    var k :| 0 <= k < |chain| && chain[k] == floor;
    if chain[0] != floor {
      var rest := chain[1..];
      assert rest[k - 1] == floor && forall n :: 0 < n < |chain| ==> chain[n] != chain[0];
      if i > 0 {
        DownToAt(rest, floor, i - 1);
        assert rest[i - 1] == chain[i];
        if exists j :: i <= j < |chain| && chain[j] == floor {
          var j :| i <= j < |chain| && chain[j] == floor;
          assert rest[j - 1] == floor;
        }
      }
    }
  }

  /**
   Which revisions go, by their place on the chain from the head: of the chain, those that are
   neither head nor checkpoint nor at or above the floor, and that come after the newest ones or
   are too old; off the chain, all but checkpoints and head.
   */
  ghost predicate GoneByPlace(h: History, chain: seq<Rev>, maxRevisions: nat, cutoff: Option<nat>, floor: Option<Rev>, gone: set<Rev>) {
    && (forall i :: 0 <= i < |chain| ==>
          && chain[i] in h.revisions
          && (chain[i] in gone <==>
                && h.head != Some(chain[i]) && chain[i] !in h.checkpoints
                && !(floor.Some? && exists j :: i <= j < |chain| && chain[j] == floor.value)
                && (i >= maxRevisions || (cutoff.Some? && h.revisions[chain[i]].committedAt < cutoff.value))))
    && (forall r :: r !in chain ==> (r in gone <==> r in h.revisions && h.head != Some(r) && r !in h.checkpoints))
  }

  /** A purge drops exactly those, whatever the store holds. */
  lemma GoneIsByPlace(h: History, chain: seq<Rev>, maxRevisions: nat, cutoff: Option<nat>, floor: Option<Rev>)
    requires RetainedChain(RevisionLinks(h), h.ancestry, h.head) == Some(chain) && (floor.Some? ==> floor.value in chain)
    ensures GoneByPlace(h, chain, maxRevisions, cutoff, floor, Gone(h, chain, maxRevisions, cutoff, floor))
  {
    hide DownTo, RetainedChain;
    RetainedDistinct(RevisionLinks(h), h.ancestry, h.head);
    var gone := Gone(h, chain, maxRevisions, cutoff, floor);
    forall i | 0 <= i < |chain|
      ensures chain[i] in h.revisions
      ensures chain[i] in gone <==>
                && h.head != Some(chain[i]) && chain[i] !in h.checkpoints
                && !(floor.Some? && exists j :: i <= j < |chain| && chain[j] == floor.value)
                && (i >= maxRevisions || (cutoff.Some? && h.revisions[chain[i]].committedAt < cutoff.value))
    {
      assert chain[i] in chain;
      PlaceOf(h, chain, maxRevisions, floor, i);
    }
    OffTheChain(h, chain, maxRevisions, cutoff, floor);
  }

  lemma OffTheChain(h: History, chain: seq<Rev>, maxRevisions: nat, cutoff: Option<nat>, floor: Option<Rev>)
    ensures forall r :: r !in chain ==>
              (r in Gone(h, chain, maxRevisions, cutoff, floor) <==> r in h.revisions && h.head != Some(r) && r !in h.checkpoints)
  {
    assert forall r :: r in Newest(chain, maxRevisions) ==> r in chain;
  }

  lemma PlaceOf(h: History, chain: seq<Rev>, maxRevisions: nat, floor: Option<Rev>, i: nat)
    requires Distinct(chain) && (floor.Some? ==> floor.value in chain) && i < |chain|
    ensures chain[i] in Newest(chain, maxRevisions) <==> i < maxRevisions
    ensures chain[i] in Pinned(h, chain, floor) <==>
              || h.head == Some(chain[i]) || chain[i] in h.checkpoints
              || (floor.Some? && exists j :: i <= j < |chain| && chain[j] == floor.value)
  {
    hide DownTo;
    if i < maxRevisions < |chain| {
      assert chain[..maxRevisions][i] == chain[i];
    }
    if floor.Some? {
      DownToAt(chain, floor.value, i);
    }
  }

  /** A body goes if no retained manifest names it; the records of a removed revision go; so do those of a transaction aborted before the cutoff. */
  lemma PurgeKeysByKind(h: History, gone: set<Rev>, cutoff: Option<nat>)
    requires gone <= h.revisions.Keys
    ensures forall o :: ObjectKey(o) in PurgeKeys(h, gone, cutoff) <==>
              && o in h.objects
              && !exists r, p :: r in h.revisions && r !in gone && p in h.revisions[r].entries && h.revisions[r].entries[p].contentHash == Some(o)
    ensures forall r :: RevisionKey(r) in PurgeKeys(h, gone, cutoff) <==> r in gone
    ensures forall t :: CompleteKey(t) in PurgeKeys(h, gone, cutoff) <==> exists r :: r in gone && h.revisions[r].tx == t
    ensures forall t :: IntentKey(t) in PurgeKeys(h, gone, cutoff) <==>
              || (exists r :: r in gone && h.revisions[r].tx == t)
              || (t in h.intents && t in h.aborts && cutoff.Some? && h.intents[t] < cutoff.value)
    ensures forall t :: AbortKey(t) in PurgeKeys(h, gone, cutoff) <==>
              t in h.intents && t in h.aborts && cutoff.Some? && h.intents[t] < cutoff.value
    ensures forall k :: IdempotencyKey(k) in PurgeKeys(h, gone, cutoff) <==>
              exists r :: r in gone && h.revisions[r].tx in h.completes && h.completes[h.revisions[r].tx].intent.key == Some(k)
  {
    hide PurgeKeys, KeysOf, AbortedKeys;
    UnusedObjects(h, gone, cutoff);
    forall k: HistoryKey
      ensures !k.ObjectKey? ==> (k in PurgeKeys(h, gone, cutoff) <==> (exists r :: r in gone && k in KeysOf(h, r)) || k in AbortedKeys(h, cutoff))
    {
      if !k.ObjectKey? {
        RecordKey(h, gone, cutoff, k);
      }
    }
    forall k: HistoryKey
      ensures k in AbortedKeys(h, cutoff) <==>
                && (k.IntentKey? || k.AbortKey?) && k.tx in h.intents && k.tx in h.aborts && cutoff.Some? && h.intents[k.tx] < cutoff.value
    {
      AbortedKey(h, cutoff, k);
    }
    forall r, k: HistoryKey | r in gone
      ensures k in KeysOf(h, r) <==> OfRevision(h, r, k)
    {
      KeyOf(h, r, k);
    }
  }

  /** The records about a revision. */
  predicate OfRevision(h: History, r: Rev, k: HistoryKey)
    requires r in h.revisions
  {
    match k
    case ObjectKey(_) => false
    case AbortKey(_) => false
    case RevisionKey(q) => q == r
    case CompleteKey(t) => t == h.revisions[r].tx
    case IntentKey(t) => t == h.revisions[r].tx
    case IdempotencyKey(key) => h.revisions[r].tx in h.completes && h.completes[h.revisions[r].tx].intent.key == Some(key)
  }

  lemma KeyOf(h: History, r: Rev, k: HistoryKey)
    requires r in h.revisions
    ensures k in KeysOf(h, r) <==> OfRevision(h, r, k)
  {
  }

  lemma AbortedKey(h: History, cutoff: Option<nat>, k: HistoryKey)
    ensures k in AbortedKeys(h, cutoff) <==>
              && (k.IntentKey? || k.AbortKey?) && k.tx in h.intents && k.tx in h.aborts && cutoff.Some? && h.intents[k.tx] < cutoff.value
  {
  }

  lemma RecordKey(h: History, gone: set<Rev>, cutoff: Option<nat>, k: HistoryKey)
    requires gone <= h.revisions.Keys && !k.ObjectKey?
    ensures k in PurgeKeys(h, gone, cutoff) <==> (exists r :: r in gone && k in KeysOf(h, r)) || k in AbortedKeys(h, cutoff)
  {
    hide KeysOf, AbortedKeys, RetainedHashes;
  }

  lemma UnusedObjects(h: History, gone: set<Rev>, cutoff: Option<nat>)
    ensures forall o :: ObjectKey(o) in PurgeKeys(h, gone, cutoff) <==>
              && o in h.objects
              && !exists r, p :: r in h.revisions && r !in gone && p in h.revisions[r].entries && h.revisions[r].entries[p].contentHash == Some(o)
  {
    hide KeysOf, AbortedKeys;
    forall o
      ensures o in RetainedHashes(h, gone) <==>
              exists r, p :: r in h.revisions && r !in gone && p in h.revisions[r].entries && h.revisions[r].entries[p].contentHash == Some(o)
    {
      if o in RetainedHashes(h, gone) {
        var r :| r in h.revisions && r !in gone && o in Hashes(h.revisions[r].entries);
        var p :| p in h.revisions[r].entries && h.revisions[r].entries[p].contentHash == Some(o);
      }
      forall r, p | r in h.revisions && r !in gone && p in h.revisions[r].entries && h.revisions[r].entries[p].contentHash == Some(o)
        ensures o in RetainedHashes(h, gone)
      {
        assert o in Hashes(h.revisions[r].entries);
      }
    }
  }

  /** The head, every checkpoint, every revision from the head down to the floor and, without a cutoff, the newest ones are retained. */
  lemma PinnedRetained(h: History, chain: seq<Rev>, maxRevisions: nat, cutoff: Option<nat>, floor: Option<Rev>, i: nat)
    requires RetainedChain(RevisionLinks(h), h.ancestry, h.head) == Some(chain) && (floor.Some? ==> floor.value in chain) && i < |chain|
    requires || h.head == Some(chain[i])
             || chain[i] in h.checkpoints
             || (floor.Some? && exists j :: i <= j < |chain| && chain[j] == floor.value)
             || (cutoff.None? && i < maxRevisions)
    ensures chain[i] !in Gone(h, chain, maxRevisions, cutoff, floor)
  {
    hide Gone, RetainedChain;
    GoneIsByPlace(h, chain, maxRevisions, cutoff, floor);
  }

  lemma PinnedStays(h: History, chain: seq<Rev>, maxRevisions: nat, cutoff: Option<nat>, floor: Option<Rev>, r: Rev)
    requires h.head == Some(r) || r in h.checkpoints
    ensures r !in Gone(h, chain, maxRevisions, cutoff, floor)
  {
  }

  /** Dropping records whose ancestry was preserved changes no parent. */
  lemma RevisionParents(h: History, gone: set<Rev>, cutoff: Option<nat>, links: set<Rev>, keys: set<HistoryKey>, r: Rev)
    requires GoodHistory(h) && Leaves(h, gone, cutoff, links, keys)
    ensures var h' := Without(Preserved(h, links), keys);
            && RevisionLinks(h').Keys <= RevisionLinks(h).Keys
            && ParentOf(RevisionLinks(h'), h'.ancestry, r) == ParentOf(RevisionLinks(h), h.ancestry, r)
  {
    hide PurgeKeys;
    RevisionKeyPurged(h, gone, cutoff, r);
  }

  lemma RevisionLinksShrink(h: History, links: set<Rev>, keys: set<HistoryKey>)
    ensures var h' := Without(Preserved(h, links), keys);
            && RevisionLinks(h').Keys == h'.revisions.Keys <= h.revisions.Keys == RevisionLinks(h).Keys
            && h'.head == h.head
  {
  }

  /** The walk from the head returns the surviving revisions in their original parent order. */
  lemma RevisionOrderKept(h: History, gone: set<Rev>, cutoff: Option<nat>, links: set<Rev>, keys: set<HistoryKey>)
    requires GoodHistory(h) && Leaves(h, gone, cutoff, links, keys)
    requires RetainedChain(RevisionLinks(h), h.ancestry, h.head).Some?
    ensures var h' := Without(Preserved(h, links), keys);
            RetainedChain(RevisionLinks(h'), h'.ancestry, h'.head) ==
            Some(Only(RetainedChain(RevisionLinks(h), h.ancestry, h.head).value, h'.revisions.Keys))
  {
    hide Trail, ParentOf, PurgeKeys, Preserved, GoodHistory, Leaves, Without, RevisionLinks;
    var h' := Without(Preserved(h, links), keys);
    RevisionLinksShrink(h, links, keys);
    forall r
      ensures ParentOf(RevisionLinks(h'), h'.ancestry, r) == ParentOf(RevisionLinks(h), h.ancestry, r)
    {
      RevisionParents(h, gone, cutoff, links, keys, r);
    }
    ChainPreserved(RevisionLinks(h), h.ancestry, RevisionLinks(h'), h'.ancestry, h.head);
  }

  /** A revision on the published trail with a manifest has a complete record or preserved ancestry. */
  ghost predicate Grounded(h: History)
    requires OneCompletePerRevision(h)
  {
    var trail := Trail(CompleteLinks(h), h.ancestry, h.head, {});
    trail.Some? && forall r :: r in trail.value && r in h.revisions ==> r in CompleteLinks(h) || r in h.ancestry
  }

  lemma StillOnePerRevision(h: History, links: set<Rev>, keys: set<HistoryKey>)
    requires OneCompletePerRevision(h)
    ensures OneCompletePerRevision(Without(Preserved(h, links), keys))
    ensures CompleteLinks(Without(Preserved(h, links), keys)).Keys <= CompleteLinks(h).Keys
    ensures forall r :: r in CompleteLinks(Without(Preserved(h, links), keys)) ==>
              CompleteLinks(Without(Preserved(h, links), keys))[r] == CompleteLinks(h)[r]
  {
  }

  lemma CompleteParents(h: History, gone: set<Rev>, cutoff: Option<nat>, links: set<Rev>, keys: set<HistoryKey>, r: Rev)
    requires GoodHistory(h) && Leaves(h, gone, cutoff, links, keys) && OneCompletePerRevision(h)
    requires r in h.revisions ==> r in CompleteLinks(h) || r in h.ancestry
    ensures OneCompletePerRevision(Without(Preserved(h, links), keys))
    ensures var h' := Without(Preserved(h, links), keys);
            ParentOf(CompleteLinks(h'), h'.ancestry, r) == ParentOf(CompleteLinks(h), h.ancestry, r)
  {
    hide PurgeKeys, CompleteLinks, GoodHistory, OneCompletePerRevision;
    GoodLinks(h, r);
    StillOnePerRevision(h, links, keys);
    var h' := Without(Preserved(h, links), keys);
    if r in CompleteLinks(h) && r !in CompleteLinks(h') {
      LinkLost(h, gone, cutoff, links, keys, r);
    }
  }

  lemma GoodLinks(h: History, r: Rev)
    requires GoodHistory(h) && OneCompletePerRevision(h)
    ensures r in CompleteLinks(h) && r in h.revisions ==> CompleteLinks(h)[r] == h.revisions[r].parent
    ensures r in CompleteLinks(h) && r in h.ancestry ==> h.ancestry[r] == CompleteLinks(h)[r]
    ensures r in h.revisions && r in h.ancestry ==> h.ancestry[r] == h.revisions[r].parent
  {
  }

  lemma LinkLost(h: History, gone: set<Rev>, cutoff: Option<nat>, links: set<Rev>, keys: set<HistoryKey>, r: Rev)
    requires GoodHistory(h) && Leaves(h, gone, cutoff, links, keys)
    requires OneCompletePerRevision(h) && OneCompletePerRevision(Without(Preserved(h, links), keys))
    requires r in CompleteLinks(h) && r !in CompleteLinks(Without(Preserved(h, links), keys))
    ensures r in gone && links == gone
  {
    hide PurgeKeys;
    var h' := Without(Preserved(h, links), keys);
    var t :| t in h.completes && h.completes[t].intent.newRevision == r;
    assert t !in h'.completes && CompleteKey(t) in keys;
    CompleteKeyPurged(h, gone, cutoff, t);
  }

  /** History pages keep listing the surviving commits in their original parent order. */
  lemma CommitOrderKept(h: History, gone: set<Rev>, cutoff: Option<nat>, links: set<Rev>, keys: set<HistoryKey>)
    requires GoodHistory(h) && Grounded(h) && Leaves(h, gone, cutoff, links, keys)
    ensures var h' := Without(Preserved(h, links), keys);
            && OneCompletePerRevision(h')
            && RetainedChain(CompleteLinks(h), h.ancestry, h.head).Some?
            && RetainedChain(CompleteLinks(h'), h'.ancestry, h'.head) ==
               Some(Only(RetainedChain(CompleteLinks(h), h.ancestry, h.head).value, CompleteLinks(h').Keys))
  {
    hide Trail, ParentOf, PurgeKeys, Preserved, Leaves, Without, CompleteLinks;
    var h' := Without(Preserved(h, links), keys);
    HeadKept(h, links, keys);
    StillOnePerRevision(h, links, keys);
    forall r | r in Trail(CompleteLinks(h), h.ancestry, h.head, {}).value
      ensures ParentOf(CompleteLinks(h'), h'.ancestry, r) == ParentOf(CompleteLinks(h), h.ancestry, r)
    {
      CompleteParents(h, gone, cutoff, links, keys, r);
    }
    ChainPreserved(CompleteLinks(h), h.ancestry, CompleteLinks(h'), h'.ancestry, h.head);
  }

  /** A purge leaves a history that can be purged again. */
  lemma GoodAgain(h: History, gone: set<Rev>, cutoff: Option<nat>, links: set<Rev>, keys: set<HistoryKey>)
    requires GoodHistory(h) && Leaves(h, gone, cutoff, links, keys)
    ensures GoodHistory(Without(Preserved(h, links), keys))
  {
    hide PurgeKeys;
  }

  lemma GroundedAgain(h: History, gone: set<Rev>, cutoff: Option<nat>, links: set<Rev>, keys: set<HistoryKey>)
    requires GoodHistory(h) && Grounded(h) && Leaves(h, gone, cutoff, links, keys)
    ensures OneCompletePerRevision(Without(Preserved(h, links), keys)) && Grounded(Without(Preserved(h, links), keys))
  {
    hide Trail, ParentOf, PurgeKeys, CompleteLinks;
    var h' := Without(Preserved(h, links), keys);
    HeadKept(h, links, keys);
    StillOnePerRevision(h, links, keys);
    var trail := Trail(CompleteLinks(h), h.ancestry, h.head, {});
    forall r | r in trail.value
      ensures ParentOf(CompleteLinks(h'), h'.ancestry, r) == ParentOf(CompleteLinks(h), h.ancestry, r)
    {
      CompleteParents(h, gone, cutoff, links, keys, r);
    }
    TrailPreserved(CompleteLinks(h), h.ancestry, CompleteLinks(h'), h'.ancestry, h.head, {});
    forall r | r in trail.value && r in h'.revisions
      ensures r in CompleteLinks(h') || r in h'.ancestry
    {
      SurvivorGrounded(h, gone, cutoff, links, keys, r);
    }
  }

  lemma SurvivorGrounded(h: History, gone: set<Rev>, cutoff: Option<nat>, links: set<Rev>, keys: set<HistoryKey>, r: Rev)
    requires GoodHistory(h) && Leaves(h, gone, cutoff, links, keys) && r in h.revisions
    requires r in CompleteLinks(h) || r in h.ancestry
    ensures OneCompletePerRevision(Without(Preserved(h, links), keys))
    ensures r in CompleteLinks(Without(Preserved(h, links), keys)) || r in Preserved(h, links).ancestry
  {
    hide PurgeKeys;
    StillOnePerRevision(h, links, keys);
    var h' := Without(Preserved(h, links), keys);
    if r in CompleteLinks(h) && r !in CompleteLinks(h') {
      var t :| t in h.completes && h.completes[t].intent.newRevision == r;
      assert t !in h'.completes && CompleteKey(t) in keys;
      CompleteKeyPurged(h, gone, cutoff, t);
      assert r in gone;
    }
  }

  lemma HeadKept(h: History, links: set<Rev>, keys: set<HistoryKey>)
    ensures Without(Preserved(h, links), keys).head == h.head
    ensures Without(Preserved(h, links), keys).ancestry == Preserved(h, links).ancestry
  {
  }

  // ---------------------------------------------------------------- the operation

  lemma PreservedCompose(h: History, done: set<Rev>, r: Rev)
    ensures Preserved(Preserved(h, done), {r}) == Preserved(h, done + {r})
    ensures Preserved(h, {}) == h && Without(h, {}) == h
  {
    assert Preserved(h, {}).ancestry == h.ancestry;
    var w := Without(h, {});
    assert w.revisions == h.revisions && w.completes == h.completes && w.intents == h.intents;
    assert w.aborts == h.aborts && w.idempotency == h.idempotency && w.objects == h.objects;
    assert Preserved(Preserved(h, done), {r}).ancestry == Preserved(h, done + {r}).ancestry;
  }

  /** The pinning loop over the chain, which stops at the floor. */
  method PinDownTo(chain: seq<Rev>, floor: Rev) returns (pinned: set<Rev>)
    ensures pinned == set r | r in DownTo(chain, floor)
  {
    pinned := {};
    var i := 0;
    assert chain[0..] == chain;
    while i < |chain|
      invariant i <= |chain|
      invariant (set r | r in DownTo(chain, floor)) == pinned + set r | r in DownTo(chain[i..], floor)
    {
      assert chain[i..][1..] == chain[i + 1..];
      DownToMembers(chain[i..], floor);
      pinned := pinned + {chain[i]};
      if chain[i] == floor {
        return;
      }
      i := i + 1;
    }
  }

  lemma DownToMembers(chain: seq<Rev>, floor: Rev)
    requires chain != []
    ensures (set r | r in DownTo(chain, floor)) ==
            {chain[0]} + if chain[0] == floor then {} else set r | r in DownTo(chain[1..], floor)
  {
  }

  class HistoryStore {
    var h: History
    var budget: nat

    /** One durable ancestry link; a failing write may or may not have happened. */
    method PutAncestry(r: Rev) returns (ok: bool)
      modifies this
      ensures h == old(h) || h == Preserved(old(h), {r})
      ensures ok ==> h == Preserved(old(h), {r})
    {
      ok := budget > 0;
      if ok {
        budget := budget - 1;
        h := Preserved(h, {r});
      } else if * {
        h := Preserved(h, {r});
      }
    }

    /** One removal request for many keys; if it fails, any of them may be gone. */
    method Remove(keys: set<HistoryKey>) returns (ok: bool, ghost removed: set<HistoryKey>)
      modifies this
      ensures removed <= keys && h == Without(old(h), removed)
      ensures ok ==> removed == keys
    {
      ok := budget > 0;
      if ok {
        budget := budget - 1;
        removed := keys;
        h := Without(h, keys);
      } else {
        var some :| some <= keys;
        removed := some;
        h := Without(h, some);
      }
    }

    /** preserveAncestry: all links durable, or it stops with some of them written. */
    method PreserveAncestry(gone: set<Rev>) returns (ok: bool, ghost links: set<Rev>)
      modifies this
      ensures links <= gone && h == Preserved(old(h), links)
      ensures ok ==> links == gone
    {
      hide Preserved;
      PreservedCompose(h, {}, 0);
      links := {};
      var todo := gone;
      while todo != {}
        invariant todo <= gone && links == gone - todo
        invariant h == Preserved(old(h), links)
      {
        var r :| r in todo;
        PreservedCompose(old(h), links, r);
        ok := PutAncestry(r);
        if !ok {
          links := if h == Preserved(old(h), links) then links else links + {r};
          return;
        }
        links := links + {r};
        todo := todo - {r};
      }
      ok := true;
    }

    /** The keys of the removed revisions' transactions, gathered one revision at a time. */
    method TransactionKeys(gone: set<Rev>) returns (keys: set<HistoryKey>)
      requires gone <= h.revisions.Keys
      ensures keys == set r, k | r in gone && r in h.revisions && k in KeysOf(h, r) :: k
    {
      hide KeysOf;
      keys := {};
      var todo := gone;
      while todo != {}
        invariant todo <= gone
        invariant keys == set r, k | r in gone - todo && r in h.revisions && k in KeysOf(h, r) :: k
      {
        var r :| r in todo;
        KeysOfMore(h, gone - todo, r);
        assert gone - (todo - {r}) == gone - todo + {r};
        keys := keys + KeysOf(h, r);
        todo := todo - {r};
      }
      assert gone - todo == gone;
    }

    /**
     Purge.  Whatever the options, and wherever it is cut off, the store is left with ancestry
     written for some of the removable revisions and, once it is written for all of them, with
     any part of the removable keys gone.
     */
    method PurgeHistory(maxRevisions: nat, cutoff: Option<nat>, floor: Option<Rev>, dryRun: bool)
      returns (r: Result, ghost gone: set<Rev>, ghost links: set<Rev>, ghost keys: set<HistoryKey>)
      modifies this
      ensures Leaves(old(h), gone, cutoff, links, keys) && h == Without(Preserved(old(h), links), keys)
      ensures RetainedChain(RevisionLinks(old(h)), old(h).ancestry, old(h).head).None? <==> r.Cycle?
      ensures !r.Cycle? ==>
                var chain := RetainedChain(RevisionLinks(old(h)), old(h).ancestry, old(h).head).value;
                && (r.NotFound? <==> floor.Some? && floor.value !in chain)
                && (!r.NotFound? ==> gone == Gone(old(h), chain, maxRevisions, cutoff, floor))
                && (r.Purged? ==> r.keys == PurgeKeys(old(h), gone, cutoff))
      ensures !r.Cycle? && !r.NotFound? ==>
                var chain := RetainedChain(RevisionLinks(old(h)), old(h).ancestry, old(h).head).value;
                GoneByPlace(old(h), chain, maxRevisions, cutoff, floor, gone)
      ensures r.Cycle? || r.NotFound? || dryRun ==> h == old(h)
      ensures r.Purged? && !dryRun && r.keys != {} ==> links == gone && keys == r.keys
    {
      hide Preserved, Without, PurgeKeys, Gone, RetainedChain, GoneByPlace;
      PreservedCompose(h, {}, 0);
      gone, links, keys := {}, {}, {};
      var chain := WalkRetained(RevisionLinks(h), h.ancestry, h.head);
      if chain.None? {
        return Cycle, gone, links, keys;
      }
      var pinned := h.checkpoints + if h.head.Some? then {h.head.value} else {};
      if floor.Some? {
        if floor.value !in chain.value {
          return NotFound, gone, links, keys;
        }
        var down := PinDownTo(chain.value, floor.value);
        pinned := pinned + down;
      }
      var keptByCount := Newest(chain.value, maxRevisions);
      var removable := set q | q in h.revisions && q !in pinned &&
        ((cutoff.Some? && h.revisions[q].committedAt < cutoff.value) || q !in keptByCount);
      GoneIsByPlace(h, chain.value, maxRevisions, cutoff, floor);
      GoneIs(h, chain.value, maxRevisions, cutoff, floor, pinned, removable);
      gone := removable;
      var retained := set q, o | q in h.revisions && q !in removable && o in Hashes(h.revisions[q].entries) :: o;
      var unused := set o | o in h.objects && o !in retained :: ObjectKey(o);
      var transactionKeys := TransactionKeys(removable);
      var objects := unused + transactionKeys + AbortedKeys(h, cutoff);
      PurgeKeysAre(h, removable, cutoff, retained, unused, transactionKeys);
      if !dryRun && objects != {} {
        var ok;
        ok, links := PreserveAncestry(removable);
        if !ok {
          WithoutNothing(h);
          return Interrupted, gone, links, keys;
        }
        ok, keys := Remove(objects);
        if !ok {
          return Interrupted, gone, links, keys;
        }
      }
      r := Purged(objects);
    }
  }

  lemma WithoutNothing(h: History)
    ensures Without(h, {}) == h
  {
    PreservedCompose(h, {}, 0);
  }

  lemma KeysOfMore(h: History, done: set<Rev>, r: Rev)
    requires r in h.revisions && done <= h.revisions.Keys
    ensures (set q, k | q in done + {r} && q in h.revisions && k in KeysOf(h, q) :: k) ==
            (set q, k | q in done && q in h.revisions && k in KeysOf(h, q) :: k) + KeysOf(h, r)
  {
    hide KeysOf;
  }

  lemma GoneIs(h: History, chain: seq<Rev>, maxRevisions: nat, cutoff: Option<nat>, floor: Option<Rev>, pinned: set<Rev>, gone: set<Rev>)
    requires pinned == Pinned(h, chain, floor)
    requires gone == set q | q in h.revisions && q !in pinned &&
               ((cutoff.Some? && h.revisions[q].committedAt < cutoff.value) || q !in Newest(chain, maxRevisions))
    ensures gone == Gone(h, chain, maxRevisions, cutoff, floor)
  {
  }

  lemma PurgeKeysAre(h: History, gone: set<Rev>, cutoff: Option<nat>, retained: set<Hash>, unused: set<HistoryKey>, transactions: set<HistoryKey>)
    requires retained == set q, o | q in h.revisions && q !in gone && o in Hashes(h.revisions[q].entries) :: o
    requires unused == set o | o in h.objects && o !in retained :: ObjectKey(o)
    requires transactions == set r, k | r in gone && r in h.revisions && k in KeysOf(h, r) :: k
    ensures unused + transactions + AbortedKeys(h, cutoff) == PurgeKeys(h, gone, cutoff)
  {
    hide KeysOf, Hashes, AbortedKeys;
  }
}
