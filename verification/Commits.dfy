/**
 What a commit says about itself: its context, its planned changes, and the fingerprint of both
 (workspace-changes.ts, fingerprint.ts).
 */
module Commits {
  import opened Types

  datatype MetadataValue = Text(text: string) | SourceRevision(revision: nat)

  datatype Context = Context(
    actor: string,
    correlationId: string,
    cause: Option<string>,
    idempotencyKey: Option<string>,
    metadata: map<string, MetadataValue>)

  /** resolvedCommitContext: the given context, or a new one; a restore adds its source to the metadata. */
  function Resolved(given: Option<Context>, source: Option<nat>, correlation: string): Context {
    var c := if given.Some? then given.value else Context("workspace", correlation, None, None, map[]);
    if source.None? then c else c.(metadata := c.metadata["sourceRevision" := SourceRevision(source.value)])
  }

  /** A restore shows in the metadata, whatever else the context holds. */
  lemma ResolvedNamesSource(given: Option<Context>, source: Option<nat>, correlation: string)
    ensures var c := Resolved(given, source, correlation);
            && (source.Some? ==> "sourceRevision" in c.metadata && c.metadata["sourceRevision"] == SourceRevision(source.value))
            && (given.Some? ==> c.actor == given.value.actor && c.correlationId == given.value.correlationId
                                && c.cause == given.value.cause && c.idempotencyKey == given.value.idempotencyKey)
            && (given.None? ==> c.actor == "workspace" && c.correlationId == correlation && c.cause.None? && c.idempotencyKey.None?)
            && forall k :: k in c.metadata && !(k == "sourceRevision" && source.Some?) ==>
                 given.Some? && k in given.value.metadata && c.metadata[k] == given.value.metadata[k]
  {
  }

  lemma ResolvedAgain(given: Option<Context>, source: Option<nat>, correlation: string, again: string)
    ensures Resolved(Some(Resolved(given, source, correlation)), source, again) == Resolved(given, source, correlation)
    ensures given.Some? ==> Resolved(given, source, again) == Resolved(given, source, correlation)
  {
  }

  /** The entry a change replaces, as far as the fingerprint looks at it. */
  datatype Before = Before(hash: Option<Hash>, etag: Option<nat>, size: nat)

  datatype Change =
    | Removal(path: Path, kind: Kind, before: Before)
    | Placement(path: Path, kind: Kind, replaced: Option<Before>, afterHash: Option<Hash>, afterSize: Option<nat>)
    | Relocation(path: Path, kind: Kind, from: Path, before: Before, afterHash: Option<Hash>, afterSize: Option<nat>)

  /** The digest of the changes and of the context without its idempotency key. */
  datatype Digest<+C> =
    FingerprintOf(changes: C, actor: string, correlationId: string, cause: Option<string>, metadata: map<string, MetadataValue>)

  function DigestOf<C>(changes: C, context: Context): Digest<C> {
    FingerprintOf(changes, context.actor, context.correlationId, context.cause, context.metadata)
  }

  /** Records of an older schema carry a fingerprint that no commit can produce. */
  datatype Fingerprint = Legacy(id: nat) | Current(digest: Digest<set<Change>>)
}
