/**
 A small specification of the in-memory file system under the tracker: a tree of nodes keyed
 by path.  An operation the file system refuses yields None and changes nothing.
 */
module MemoryTree {
  import opened Types

  const FILE_MODE: nat := 0x1A4  // 0o644
  const DIR_MODE: nat := 0x1ED   // 0o755
  const LINK_MODE: nat := 0x1FF  // 0o777

  predicate Within(p: Path, root: Path) {
    root <= p
  }

  function Parent(p: Path): Path
    requires p != []
  {
    p[..|p| - 1]
  }

  /** The path, which lies within `source`, carried over to `destination`. */
  function Carried(p: Path, source: Path, destination: Path): Path
    requires Within(p, source)
  {
    destination + p[|source|..]
  }

  /** Proper ancestors other than the root. */
  function ParentPaths(p: Path): (r: set<Path>)
    ensures forall a :: a in r <==> a != [] && a < p
  {
    var r := set i | 0 < i < |p| :: p[..i];
    assert forall a: Path :: a != [] && a < p ==> a == p[..|a|];
    r
  }

  predicate WellFormed(t: Tree) {
    && [] in t && t[[]].DirNode?
    && forall p :: p in t && p != [] ==> Parent(p) in t && t[Parent(p)].DirNode?
  }

  /** Nothing but directories on the way to the path. */
  predicate Placeable(t: Tree, p: Path) {
    p != [] && forall a :: a in t && a < p ==> t[a].DirNode?
  }

  function WithParents(t: Tree, p: Path): (r: Tree)
    ensures r.Keys == t.Keys + ParentPaths(p)
    ensures forall a :: a in r ==> r[a] == if a in t then t[a] else DirNode(DIR_MODE)
  {
    map a | a in t.Keys + ParentPaths(p) :: if a in t then t[a] else DirNode(DIR_MODE)
  }

  lemma WithParentsWellFormed(t: Tree, p: Path, n: Node)
    requires WellFormed(t) && Placeable(t, p)
    requires p in t && t[p].DirNode? ==> n.DirNode?
    ensures WellFormed(WithParents(t, p)) && WellFormed(WithParents(t, p)[p := n])
  {
    var w := WithParents(t, p);
    forall q | q in w && q != []
      ensures Parent(q) in w && w[Parent(q)].DirNode?
    {
      if q !in t {
        assert q < p && Parent(q) < p;
      }
    }
    assert Parent(p) < p;
    assert Parent(p) in w && w[Parent(p)].DirNode?;
    if p in t && !t[p].DirNode? {
      assert forall q :: q in t && q != [] ==> Parent(q) != p;
    } else if p !in t {
      forall q | q in w && q != []
        ensures Parent(q) != p
      {
        assert q in t || q < p;
      }
    }
  }

  // ---------------------------------------------------------------- the primitives

  function WriteFile(t: Tree, p: Path, body: Body): Option<Tree> {
    if Placeable(t, p) && (p in t ==> t[p].FileNode?)
    then Some(WithParents(t, p)[p := FileNode(body, FILE_MODE)])
    else None
  }

  function AppendFile(t: Tree, p: Path, body: Body): Option<Tree> {
    if p in t && t[p].FileNode? then Some(t[p := FileNode(t[p].body + body, t[p].mode)])
    else WriteFile(t, p, body)
  }

  function MakeDirectory(t: Tree, p: Path, recursive: bool): Option<Tree> {
    if !Placeable(t, p) || (p in t && !(recursive && t[p].DirNode?)) || (!recursive && Parent(p) !in t) then None
    else if p in t then Some(t)
    else Some(WithParents(t, p)[p := DirNode(DIR_MODE)])
  }

  function Remove(t: Tree, p: Path, recursive: bool, force: bool): Option<Tree> {
    if p !in t then if force then Some(t) else None
    else if !recursive && exists q :: q in t && q != p && Within(q, p) then None
    else Some(map q | q in t && (q == [] || !Within(q, p)) :: t[q])
  }

  /** The nodes at and below `source`, placed at `destination`. */
  function CarriedTree(t: Tree, source: Path, destination: Path): (r: Tree)
    ensures forall q :: q in t && Within(q, source) ==>
              Carried(q, source, destination) in r && r[Carried(q, source, destination)] == t[q]
    ensures forall p :: p in r ==>
              Within(p, destination) && Carried(p, destination, source) in t && r[p] == t[Carried(p, destination, source)]
  {
    var keys := set q | q in t && Within(q, source) :: Carried(q, source, destination);
    forall q | q in t && Within(q, source)
      ensures Carried(Carried(q, source, destination), destination, source) == q
    {
    }
    map p | p in keys :: t[Carried(p, destination, source)]
  }

  /** Destinations are absent, or plain files that another plain file may replace. */
  predicate Transferable(t: Tree, source: Path, destination: Path) {
    && source in t && source != []
    && !Within(destination, source)
    && Placeable(t, destination)
    && (destination in t ==> t[destination].FileNode? && t[source].FileNode?)
  }

  function Copy(t: Tree, source: Path, destination: Path, recursive: bool): Option<Tree> {
    if !Transferable(t, source, destination) || (t[source].DirNode? && !recursive) then None
    else Some(WithParents(t, destination) + CarriedTree(t, source, destination))
  }

  function Move(t: Tree, source: Path, destination: Path): Option<Tree> {
    if !Transferable(t, source, destination) then None
    else
      var copied := WithParents(t, destination) + CarriedTree(t, source, destination);
      Some(map q | q in copied && !Within(q, source) :: copied[q])
  }

  function ChangeMode(t: Tree, p: Path, mode: nat): Option<Tree> {
    if p !in t then None
    else Some(t[p := match t[p]
                     case FileNode(body, _) => FileNode(body, mode)
                     case DirNode(_) => DirNode(mode)
                     case LinkNode(target, _) => LinkNode(target, mode)])
  }

  function MakeLink(t: Tree, p: Path, target: string): Option<Tree> {
    if Placeable(t, p) && p !in t then Some(WithParents(t, p)[p := LinkNode(target, LINK_MODE)]) else None
  }

  // ---------------------------------------------------------------- every primitive keeps a tree

  /** Carrying keeps prefixes and can be undone. */
  lemma CarriedPrefix(a: Path, p: Path, source: Path, destination: Path)
    requires source <= a <= p
    ensures Carried(a, source, destination) <= Carried(p, source, destination)
    ensures a < p ==> Carried(a, source, destination) < Carried(p, source, destination)
    ensures Within(Carried(a, source, destination), destination)
    ensures Carried(Carried(a, source, destination), destination, source) == a
  {
    assert a == p[..|a|];
    assert a[|source|..] == p[|source|..][..|a| - |source|];
  }

  lemma CarriedParent(t: Tree, source: Path, destination: Path, p: Path)
    requires WellFormed(t) && p in CarriedTree(t, source, destination) && p != destination
    ensures p != [] && Parent(p) in CarriedTree(t, source, destination)
    ensures CarriedTree(t, source, destination)[Parent(p)].DirNode?
  {
    hide CarriedTree, Carried;
    assert destination <= Parent(p) < p;
    CarriedPrefix(Parent(p), p, destination, source);
    AncestorsAreDirectories(t, Carried(p, destination, source), Carried(Parent(p), destination, source));
  }

  lemma NothingBelow(t: Tree, source: Path, destination: Path, p: Path)
    requires WellFormed(t) && Transferable(t, source, destination) && p in t && p != destination
    ensures !Within(p, destination)
  {
    if Within(p, destination) {
      AncestorsAreDirectories(t, p, destination);
    }
  }

  lemma OutsideParent(t: Tree, source: Path, destination: Path, p: Path)
    requires WellFormed(t) && Transferable(t, source, destination) && p != []
    requires p == destination || (p in WithParents(t, destination) && !Within(p, destination))
    ensures Parent(p) in WithParents(t, destination) && WithParents(t, destination)[Parent(p)].DirNode?
    ensures Parent(p) !in CarriedTree(t, source, destination)
  {
    WithParentsWellFormed(t, destination, t[source]);
    if p == destination {
      assert Parent(p) < destination;
      assert Parent(p) == [] || Parent(p) in ParentPaths(destination);
    } else {
      assert Parent(p) <= p;
    }
  }

  lemma CopyWellFormed(t: Tree, source: Path, destination: Path)
    requires WellFormed(t) && Transferable(t, source, destination)
    ensures WellFormed(WithParents(t, destination) + CarriedTree(t, source, destination))
  {
    var w := WithParents(t, destination);
    var c := CarriedTree(t, source, destination);
    var r: Tree := w + c;
    forall q | q in r && q != []
      ensures Parent(q) in r && r[Parent(q)].DirNode?
    {
      if q in c && q != destination {
        CarriedParent(t, source, destination, q);
      } else {
        if q in t && q != destination {
          NothingBelow(t, source, destination, q);
        }
        OutsideParent(t, source, destination, q);
      }
    }
    assert [] !in c;
  }

  lemma {:induction false} AncestorsAreDirectories(t: Tree, p: Path, a: Path)
    requires WellFormed(t) && p in t && a < p
    ensures a in t && t[a].DirNode?
    decreases |p|
  {
    if a != Parent(p) {
      AncestorsAreDirectories(t, Parent(p), a);
    }
  }

  lemma WithoutWithin(t: Tree, source: Path)
    requires WellFormed(t) && source != []
    ensures WellFormed(map q | q in t && !Within(q, source) :: t[q])
  {
    forall q | q in t && q != [] && !Within(q, source)
      ensures !Within(Parent(q), source)
    {
      assert Parent(q) <= q;
    }
  }

  lemma MoveWellFormed(t: Tree, source: Path, destination: Path)
    requires WellFormed(t) && Move(t, source, destination).Some?
    ensures WellFormed(Move(t, source, destination).value)
  {
    CopyWellFormed(t, source, destination);
    var copied := WithParents(t, destination) + CarriedTree(t, source, destination);
    WithoutWithin(copied, source);
  }
}
