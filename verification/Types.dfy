/** Values shared by every component: paths, file contents, hashes and stored entries. */
module Types {

  datatype Option<+T> = None | Some(value: T)

  /** A canonical virtual path is its list of segments; the root is the empty list. */
  type Path = seq<string>

  type Body = string

  /** SHA-256 is taken to be injective, so a digest is represented by what was digested. */
  datatype Hash = Sha256(preimage: Body)

  datatype Kind = File | Directory | Symlink

  /** The digest of the JSON record that `prepareUpload` and `recoveryUpload` hash. */
  datatype VersionHash =
    VersionOf(contentHash: Option<Hash>, kind: Kind, mode: nat, modifiedAt: nat, target: Option<string>)

  /** An entry as storage lists it.  `body` is what downloading the entry returns. */
  datatype RemoteEntry = RemoteEntry(
    kind: Kind,
    mode: nat,
    body: Body,
    contentHash: Option<Hash>,
    target: Option<string>,
    modifiedAt: nat,
    versionHash: Option<VersionHash>,
    etag: Option<nat>)

  /** What a user can observe of an entry: etags and times are not part of it. */
  datatype Node =
    | FileNode(body: Body, mode: nat)
    | DirNode(mode: nat)
    | LinkNode(target: string, mode: nat)

  type Tree = map<Path, Node>

  function TargetText(target: Option<string>): string {
    if target.Some? then target.value else ""
  }

  function KindOf(n: Node): Kind {
    match n
    case FileNode(_, _) => File
    case DirNode(_) => Directory
    case LinkNode(_, _) => Symlink
  }

  function Meaning(e: RemoteEntry): Node {
    match e.kind
    case File => FileNode(e.body, e.mode)
    case Directory => DirNode(e.mode)
    case Symlink => LinkNode(TargetText(e.target), e.mode)
  }

  /** Recorded digests, where present, are digests of the entry itself. */
  predicate Honest(e: RemoteEntry) {
    && (e.kind == File ==> e.contentHash.None? || e.contentHash == Some(Sha256(e.body)))
    && (e.versionHash.Some? ==>
          var v := e.versionHash.value;
          v.contentHash == e.contentHash && v.kind == e.kind && v.mode == e.mode && v.target == e.target)
  }

  function TreeOf(entries: map<Path, RemoteEntry>): Tree {
    map p | p in entries :: Meaning(entries[p])
  }

  /** Baseline without the deleted paths, then the upserts on top. */
  function Overlay<T>(baseline: map<Path, T>, deletions: set<Path>, upserts: map<Path, T>): map<Path, T> {
    (baseline - deletions) + upserts
  }
}
