/**
 Retention: which revisions a purge keeps, what it removes, and why the revisions it keeps stay
 readable and in causal order (purge.ts, ancestry.ts).
 */
module Retention {
  import opened Types
  import opened Protocol

  /** The history namespace as the purge sees it. */
  datatype History = History(
    head: Option<Rev>,
    revisions: map<Rev, Revision>,
    completes: map<Tx, Complete>,
    intents: map<Tx, nat>,
    aborts: set<Tx>,
    idempotency: set<Key>,
    objects: set<Hash>,
    checkpoints: set<Rev>,
    ancestry: map<Rev, Option<Rev>>)

  datatype HistoryKey =
    | ObjectKey(hash: Hash)
    | RevisionKey(revision: Rev)
    | CompleteKey(tx: Tx)
    | IntentKey(tx: Tx)
    | AbortKey(tx: Tx)
    | IdempotencyKey(key: Key)

  function Without(h: History, keys: set<HistoryKey>): History {
    h.(revisions := map r | r in h.revisions && RevisionKey(r) !in keys :: h.revisions[r],
       completes := map t | t in h.completes && CompleteKey(t) !in keys :: h.completes[t],
       intents := map t | t in h.intents && IntentKey(t) !in keys :: h.intents[t],
       aborts := (set t | t in h.aborts && AbortKey(t) !in keys),
       idempotency := (set k | k in h.idempotency && IdempotencyKey(k) !in keys),
       objects := (set o | o in h.objects && ObjectKey(o) !in keys))
  }

  function Hashes(m: Manifest): set<Hash> {
    set p | p in m && m[p].contentHash.Some? :: m[p].contentHash.value
  }

  // ---------------------------------------------------------------- walking the ancestry

  type Links = map<Rev, Option<Rev>>

  function RevisionLinks(h: History): Links {
    map r | r in h.revisions :: h.revisions[r].parent
  }

  /** The parent of a revision: from its record, else from preserved ancestry, else unknown. */
  function ParentOf(links: Links, ancestry: Links, r: Rev): Option<Rev> {
    if r in links then links[r] else if r in ancestry then ancestry[r] else None
  }

  /** Every revision on the way back from `from`, recorded or purged; None if it runs into itself. */
  function Trail(links: Links, ancestry: Links, from: Option<Rev>, seen: set<Rev>): Option<seq<Rev>>
    decreases |links.Keys + ancestry.Keys - seen|, if from.Some? then 1 else 0
  {
    if from.None? then Some([])
    else if from.value in seen then None
    else
      TrailShrinks(links, ancestry, from.value, seen);
      var rest := Trail(links, ancestry, ParentOf(links, ancestry, from.value), seen + {from.value});
      if rest.None? then None else Some([from.value] + rest.value)
  }

  lemma TrailShrinks(links: Links, ancestry: Links, r: Rev, seen: set<Rev>)
    requires r !in seen
    ensures r in links.Keys + ancestry.Keys ==>
              |links.Keys + ancestry.Keys - (seen + {r})| < |links.Keys + ancestry.Keys - seen|
    ensures r !in links.Keys + ancestry.Keys ==>
              links.Keys + ancestry.Keys - (seen + {r}) == links.Keys + ancestry.Keys - seen
  {
    var a, b := links.Keys + ancestry.Keys - seen, links.Keys + ancestry.Keys - (seen + {r});
    if r in links.Keys + ancestry.Keys {
      assert a == b + {r};
    }
  }

  function Only(rs: seq<Rev>, keep: set<Rev>): (k: seq<Rev>)
    ensures forall r :: r in k ==> r in rs && r in keep
  {
    if rs == [] then [] else (if rs[0] in keep then [rs[0]] else []) + Only(rs[1..], keep)
  }

  /** retainedChain: the recorded revisions of the trail, newest first. */
  function RetainedChain(links: Links, ancestry: Links, head: Option<Rev>): Option<seq<Rev>> {
    var trail := Trail(links, ancestry, head, {});
    if trail.None? then None else Some(Only(trail.value, links.Keys))
  }

  lemma OnlyCons(r: Rev, rs: seq<Rev>, keep: set<Rev>)
    ensures Only([r] + rs, keep) == (if r in keep then [r] else []) + Only(rs, keep)
  {
    assert ([r] + rs)[1..] == rs;
  }

  /** What the walk has collected, followed by what the rest of the trail will yield. */
  function Collected(retained: seq<Rev>, links: Links, ancestry: Links, revision: Option<Rev>, seen: set<Rev>): Option<seq<Rev>> {
    var rest := Trail(links, ancestry, revision, seen);
    if rest.None? then None else Some(retained + Only(rest.value, links.Keys))
  }

  lemma TrailUnfolds(links: Links, ancestry: Links, r: Rev, seen: set<Rev>)
    requires r !in seen
    ensures Trail(links, ancestry, Some(r), seen) ==
            var rest := Trail(links, ancestry, ParentOf(links, ancestry, r), seen + {r});
            if rest.None? then None else Some([r] + rest.value)
  {
  }

  lemma CollectOne(retained: seq<Rev>, links: Links, ancestry: Links, r: Rev, seen: set<Rev>)
    requires r !in seen
    ensures Collected(retained, links, ancestry, Some(r), seen) ==
            Collected(if r in links then retained + [r] else retained, links, ancestry, ParentOf(links, ancestry, r), seen + {r})
  {
    hide ParentOf, Trail;
    TrailUnfolds(links, ancestry, r, seen);
    var rest := Trail(links, ancestry, ParentOf(links, ancestry, r), seen + {r});
    if rest.Some? {
      OnlyCons(r, rest.value, links.Keys);
      assert retained + ([r] + Only(rest.value, links.Keys)) == retained + [r] + Only(rest.value, links.Keys);
      assert retained + ([] + Only(rest.value, links.Keys)) == retained + Only(rest.value, links.Keys);
    }
  }

  /** The loop of retainedChain; it ends on every store, also one whose links form a cycle. */
  method WalkRetained(links: Links, ancestry: Links, head: Option<Rev>) returns (chain: Option<seq<Rev>>)
    ensures chain == RetainedChain(links, ancestry, head)
  {
    hide Trail;
    var retained: seq<Rev> := [];
    var seen: set<Rev> := {};
    var revision := head;
    StartCollecting(links, ancestry, head);
    while revision.Some?
      invariant RetainedChain(links, ancestry, head) == Collected(retained, links, ancestry, revision, seen)
      decreases |links.Keys + ancestry.Keys - seen|, if revision.Some? then 1 else 0
    {
      if revision.value in seen {
        EndOfTrail(links, ancestry, revision, seen);
        return None;
      }
      TrailShrinks(links, ancestry, revision.value, seen);
      CollectOne(retained, links, ancestry, revision.value, seen);
      seen := seen + {revision.value};
      if revision.value in links {
        retained := retained + [revision.value];
        revision := links[revision.value];
      } else {
        revision := if revision.value in ancestry then ancestry[revision.value] else None;
      }
    }
    EndOfTrail(links, ancestry, revision, seen);
    assert retained + [] == retained;
    return Some(retained);
  }

  lemma StartCollecting(links: Links, ancestry: Links, head: Option<Rev>)
    ensures RetainedChain(links, ancestry, head) == Collected([], links, ancestry, head, {})
  {
    hide Trail;
    var trail := Trail(links, ancestry, head, {});
    assert trail.Some? ==> [] + Only(trail.value, links.Keys) == Only(trail.value, links.Keys);
  }

  lemma EndOfTrail(links: Links, ancestry: Links, from: Option<Rev>, seen: set<Rev>)
    ensures from.None? ==> Trail(links, ancestry, from, seen) == Some([])
    ensures from.Some? && from.value in seen ==> Trail(links, ancestry, from, seen) == None
  {
  }

  /** If no revision on the trail changes its parent, the trail stays what it was. */
  lemma {:induction false} TrailPreserved(links: Links, ancestry: Links, links': Links, ancestry': Links, from: Option<Rev>, seen: set<Rev>)
    requires Trail(links, ancestry, from, seen).Some?
    requires forall r :: r in Trail(links, ancestry, from, seen).value ==> ParentOf(links', ancestry', r) == ParentOf(links, ancestry, r)
    ensures Trail(links', ancestry', from, seen) == Trail(links, ancestry, from, seen)
    decreases |Trail(links, ancestry, from, seen).value|
  {
    hide ParentOf, Trail;
    if from.None? || from.value in seen {
      EndOfTrail(links, ancestry, from, seen);
      EndOfTrail(links', ancestry', from, seen);
    } else {
      TrailUnfolds(links, ancestry, from.value, seen);
      TrailUnfolds(links', ancestry', from.value, seen);
      var next := ParentOf(links, ancestry, from.value);
      var rest := Trail(links, ancestry, next, seen + {from.value}).value;
      assert Trail(links, ancestry, from, seen).value == [from.value] + rest;
      assert from.value in [from.value] + rest;
      assert forall r :: r in rest ==> r in [from.value] + rest;
      TrailPreserved(links, ancestry, links', ancestry', next, seen + {from.value});
    }
  }

  lemma {:induction false} OnlyOnly(rs: seq<Rev>, all: set<Rev>, some: set<Rev>)
    requires some <= all
    ensures Only(Only(rs, all), some) == Only(rs, some)
  {
    if rs != [] {
      OnlyOnly(rs[1..], all, some);
      OnlyCons(rs[0], Only(rs[1..], all), some);
      assert Only(rs, all) == if rs[0] in all then [rs[0]] + Only(rs[1..], all) else Only(rs[1..], all);
    }
  }

  /** The surviving revisions are walked in their original order, gaps and all. */
  lemma ChainPreserved(links: Links, ancestry: Links, links': Links, ancestry': Links, head: Option<Rev>)
    requires links'.Keys <= links.Keys && Trail(links, ancestry, head, {}).Some?
    requires forall r :: r in Trail(links, ancestry, head, {}).value ==> ParentOf(links', ancestry', r) == ParentOf(links, ancestry, r)
    ensures RetainedChain(links, ancestry, head).Some?
    ensures RetainedChain(links', ancestry', head) == Some(Only(RetainedChain(links, ancestry, head).value, links'.Keys))
  {
    hide Trail, ParentOf;
    TrailPreserved(links, ancestry, links', ancestry', head, {});
    OnlyOnly(Trail(links, ancestry, head, {}).value, links.Keys, links'.Keys);
  }

  // ---------------------------------------------------------------- no revision is walked twice

  ghost predicate Distinct(rs: seq<nat>) {
    forall i, j :: 0 <= i < j < |rs| ==> rs[i] != rs[j]
  }

  lemma {:induction false} TrailDistinct(links: Links, ancestry: Links, from: Option<Rev>, seen: set<Rev>)
    requires Trail(links, ancestry, from, seen).Some?
    ensures Distinct(Trail(links, ancestry, from, seen).value)
    ensures forall r :: r in Trail(links, ancestry, from, seen).value ==> r !in seen
    decreases |Trail(links, ancestry, from, seen).value|
  {
    hide ParentOf, Trail;
    if from.None? || from.value in seen {
      EndOfTrail(links, ancestry, from, seen);
    } else {
      TrailUnfolds(links, ancestry, from.value, seen);
      TrailDistinct(links, ancestry, ParentOf(links, ancestry, from.value), seen + {from.value});
    }
  }

  lemma {:induction false} OnlyDistinct(rs: seq<Rev>, keep: set<Rev>)
    requires Distinct(rs)
    ensures Distinct(Only(rs, keep))
  {
    if rs != [] {
      OnlyDistinct(rs[1..], keep);
      assert forall r :: r in Only(rs[1..], keep) ==> r in rs[1..];
    }
  }

  lemma RetainedDistinct(links: Links, ancestry: Links, head: Option<Rev>)
    requires RetainedChain(links, ancestry, head).Some?
    ensures Distinct(RetainedChain(links, ancestry, head).value)
    ensures forall r :: r in RetainedChain(links, ancestry, head).value ==> r in links
  {
    hide Trail, Distinct;
    TrailDistinct(links, ancestry, head, {});
    OnlyDistinct(Trail(links, ancestry, head, {}).value, links.Keys);
  }
}
