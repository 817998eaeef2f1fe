/** Workspaces composed into one file system by mount points, and the translation of paths (mounts/compose.ts).
    Paths in normal form are given by their segments. */
module Mounts {
  import opened Types
  import opened Paths

  const DEV: Path := ["dev"]
  const NULL_DEVICE: Path := ["dev", "null"]

  /** What is asked for, as text. */
  datatype Request = Request(mountPoint: string, root: string, hiddenRoots: seq<string>)

  /** `hidden` is relative to the presented root. */
  datatype Mount = Mount(point: Path, root: Path, hidden: set<Path>)

  predicate Related(a: Path, b: Path) {
    a <= b || b <= a
  }

  function HiddenSet(texts: seq<string>): Option<set<Path>> {
    if texts == [] then Some({})
    else
      var rest := HiddenSet(texts[..|texts| - 1]);
      var last := Normalize(texts[|texts| - 1]);
      if rest.None? || last.Bad? then None else Some(rest.value + {last.segments})
  }

  /** The mount a request describes, given the mounts accepted before it. */
  function Described(r: Request, accepted: seq<Mount>): Option<Mount> {
    var point := Normalize(r.mountPoint);
    var root := Normalize(r.root);
    var hidden := HiddenSet(r.hiddenRoots);
    if point.Bad? || ToText(point.segments) != r.mountPoint || point.segments == [] || Related(point.segments, DEV) then None
    else if exists i :: 0 <= i < |accepted| && Related(point.segments, accepted[i].point) then None
    else if root.Bad? || hidden.None? || [] in hidden.value then None
    else Some(Mount(point.segments, root.segments, hidden.value))
  }

  function Composed(rs: seq<Request>): Option<seq<Mount>> {
    if rs == [] then Some([])
    else
      var before := Composed(rs[..|rs| - 1]);
      if before.None? then None
      else
        var m := Described(rs[|rs| - 1], before.value);
        if m.None? then None else Some(before.value + [m.value])
  }

  method NormalizeHidden(texts: seq<string>) returns (r: Option<set<Path>>)
    ensures r == HiddenSet(texts)
  {
    var hidden: set<Path> := {};
    var i := 0;
    while i < |texts|
      invariant 0 <= i <= |texts| && HiddenSet(texts[..i]) == Some(hidden)
    {
      var path := NormalizeVirtualPath(texts[i]);
      assert texts[..i + 1][..i] == texts[..i];
      if path.Bad? {
        HiddenStaysBad(texts, i + 1);
        return None;
      }
      hidden := hidden + {path.segments};
      i := i + 1;
    }
    assert texts[..i] == texts;
    return Some(hidden);
  }

  lemma {:induction false} HiddenStaysBad(texts: seq<string>, n: nat)
    requires n <= |texts| && HiddenSet(texts[..n]).None?
    ensures HiddenSet(texts).None?
    decreases |texts|
  {
    if n < |texts| {
      assert texts[..|texts| - 1][..n] == texts[..n];
      HiddenStaysBad(texts[..|texts| - 1], n);
    } else {
      assert texts[..n] == texts;
    }
  }

  lemma {:induction false} ComposedStaysBad(rs: seq<Request>, n: nat)
    requires n <= |rs| && Composed(rs[..n]).None?
    ensures Composed(rs).None?
    decreases |rs|
  {
    if n < |rs| {
      assert rs[..|rs| - 1][..n] == rs[..n];
      ComposedStaysBad(rs[..|rs| - 1], n);
    } else {
      assert rs[..n] == rs;
    }
  }

  method CreateMountedFileSystem(rs: seq<Request>) returns (mounts: Option<seq<Mount>>)
    ensures mounts == Composed(rs)
  {
    hide Normalize, HiddenSet, Related, ToText;
    var descriptors: seq<Mount> := [];
    var i := 0;
    while i < |rs|
      invariant 0 <= i <= |rs| && Composed(rs[..i]) == Some(descriptors)
    {
      assert rs[..i + 1][..i] == rs[..i] && rs[..i + 1][i] == rs[i];
      var point := NormalizeVirtualPath(rs[i].mountPoint);
      var root := NormalizeVirtualPath(rs[i].root);
      var hidden := NormalizeHidden(rs[i].hiddenRoots);
      if point.Bad? || ToText(point.segments) != rs[i].mountPoint || point.segments == [] || Related(point.segments, DEV)
         || (exists k :: 0 <= k < |descriptors| && Related(point.segments, descriptors[k].point))
         || root.Bad? || hidden.None? || [] in hidden.value {
        ComposedStaysBad(rs, i + 1);
        return None;
      }
      descriptors := descriptors + [Mount(point.segments, root.segments, hidden.value)];
      i := i + 1;
    }
    assert rs[..i] == rs;
    return Some(descriptors);
  }

  // ---------------------------------------------------------------- disjointness

  ghost predicate Disjoint(ms: seq<Mount>) {
    forall i, j :: 0 <= i < j < |ms| ==> !Related(ms[i].point, ms[j].point)
  }

  ghost predicate Located(ms: seq<Mount>, i: nat, p: Path) {
    i < |ms| && ms[i].point <= p
  }

  lemma PrefixesAreRelated(a: Path, b: Path, p: Path)
    requires a <= p && b <= p
    ensures Related(a, b)
  {
    assert a == p[..|a|] && b == p[..|b|];
  }

  lemma {:induction false} ComposedDisjoint(rs: seq<Request>)
    ensures Composed(rs).Some? ==> Disjoint(Composed(rs).value)
    ensures Composed(rs).Some? ==>
              forall m :: m in Composed(rs).value ==> m.point != [] && !Related(m.point, DEV) && [] !in m.hidden
  {
    hide Normalize, HiddenSet;
    if rs != [] {
      ComposedDisjoint(rs[..|rs| - 1]);
    }
  }

  lemma {:induction false} HiddenIs(texts: seq<string>)
    ensures HiddenSet(texts).Some? <==> forall i :: 0 <= i < |texts| ==> Normalize(texts[i]).Canonical?
    ensures HiddenSet(texts).Some? ==>
              forall p :: p in HiddenSet(texts).value <==> exists i :: 0 <= i < |texts| && Normalize(texts[i]) == Canonical(p)
  {
    hide Normalize;
    if texts != [] {
      var init, last := texts[..|texts| - 1], texts[|texts| - 1];
      HiddenIs(init);
      if HiddenSet(texts).Some? {
        forall p
          ensures p in HiddenSet(texts).value <==> exists i :: 0 <= i < |texts| && Normalize(texts[i]) == Canonical(p)
        {
          if p in HiddenSet(init).value {
            var i :| 0 <= i < |init| && Normalize(init[i]) == Canonical(p);
            assert texts[i] == init[i];
          }
          if exists i :: 0 <= i < |texts| && Normalize(texts[i]) == Canonical(p) {
            var i :| 0 <= i < |texts| && Normalize(texts[i]) == Canonical(p);
            assert i < |init| ==> init[i] == texts[i];
          }
        }
      }
    }
  }

  /** One accepted request and its mount: a canonical point other than the root and the device directory, and no hidden root that
      hides everything. */
  ghost predicate Answers(r: Request, m: Mount) {
    && Normalize(r.mountPoint) == Canonical(m.point) && r.mountPoint == ToText(m.point)
    && m.point != [] && !(m.point <= DEV) && !(DEV <= m.point)
    && Normalize(r.root) == Canonical(m.root)
    && (forall i :: 0 <= i < |r.hiddenRoots| ==> Normalize(r.hiddenRoots[i]).Canonical?)
    && (forall p :: p in m.hidden <==> exists i :: 0 <= i < |r.hiddenRoots| && Normalize(r.hiddenRoots[i]) == Canonical(p))
    && [] !in m.hidden
  }

  lemma DescribedIff(r: Request, accepted: seq<Mount>, m: Mount)
    ensures Described(r, accepted) == Some(m) <==>
              Answers(r, m) && forall i :: 0 <= i < |accepted| ==> !(m.point <= accepted[i].point) && !(accepted[i].point <= m.point)
  {
    hide Normalize, HiddenSet, ToText;
    HiddenIs(r.hiddenRoots);
    if Answers(r, m) && HiddenSet(r.hiddenRoots).Some? {
      assert m.hidden == HiddenSet(r.hiddenRoots).value;
    }
  }

  /** Requests are composed into exactly the mounts that answer them one by one and are pairwise unrelated, and refused when there are none. */
  lemma {:induction false} ComposedIff(rs: seq<Request>, ms: seq<Mount>)
    ensures Composed(rs) == Some(ms) <==>
              && |ms| == |rs| && (forall i :: 0 <= i < |rs| ==> Answers(rs[i], ms[i]))
              && forall i, j :: 0 <= i < j < |ms| ==> !(ms[i].point <= ms[j].point) && !(ms[j].point <= ms[i].point)
    decreases |rs|
  {
    hide Described, Answers;
    if rs != [] && ms != [] {
      var before, last := ms[..|ms| - 1], ms[|ms| - 1];
      ComposedIff(rs[..|rs| - 1], before);
      DescribedIff(rs[|rs| - 1], before, last);
      assert before + [last] == ms;
      if Composed(rs) == Some(ms) {
        var first := Composed(rs[..|rs| - 1]).value;
        assert (first + [Described(rs[|rs| - 1], first).value])[..|first|] == first;
        assert first == before;
      }
    }
  }

  /** The check on mount points is exact: they are accepted pairwise just when no path lies in two mounts. */
  lemma AtMostOneMount(ms: seq<Mount>)
    ensures Disjoint(ms) <==> !exists i, j, p :: i < j && Located(ms, i, p) && Located(ms, j, p)
  {
    forall i, j, p | 0 <= i < j && Located(ms, i, p) && Located(ms, j, p)
      ensures !Disjoint(ms)
    {
      PrefixesAreRelated(ms[i].point, ms[j].point, p);
    }
    forall i: nat, j: nat | i < j < |ms| && Related(ms[i].point, ms[j].point)
      ensures exists i, j, p :: i < j && Located(ms, i, p) && Located(ms, j, p)
    {
      var p := if ms[i].point <= ms[j].point then ms[j].point else ms[i].point;
      assert Located(ms, i, p) && Located(ms, j, p);
    }
  }

  // ---------------------------------------------------------------- translation

  function Locate(ms: seq<Mount>, p: Path): (r: Option<Mount>)
    ensures r.Some? ==> r.value in ms && r.value.point <= p
  {
    if ms == [] then None else if ms[0].point <= p then Some(ms[0]) else Locate(ms[1..], p)
  }

  /** toInnerPath: the null device is itself, every other path is below the root. */
  function ToInner(m: Mount, relative: Path): Path {
    if relative == NULL_DEVICE then NULL_DEVICE else m.root + relative
  }

  predicate Visible(m: Mount, relative: Path) {
    forall h :: h in m.hidden ==> !(ToInner(m, h) <= ToInner(m, relative))
  }

  /** What a hidden root takes away: itself and everything below it; the null device only if a hidden root holds its place in the source. */
  lemma VisibleIff(m: Mount, relative: Path)
    requires NULL_DEVICE !in m.hidden
    ensures relative != NULL_DEVICE ==> (Visible(m, relative) <==> forall h :: h in m.hidden ==> !(h <= relative))
    ensures Visible(m, NULL_DEVICE) <==> forall h :: h in m.hidden ==> !(m.root + h <= NULL_DEVICE)
  {
    if relative != NULL_DEVICE {
      forall h | h in m.hidden
        ensures ToInner(m, h) <= ToInner(m, relative) <==> h <= relative
      {
        if m.root + h <= m.root + relative {
          assert (m.root + relative)[|m.root|..|m.root| + |h|] == (m.root + h)[|m.root|..];
          assert h == (m.root + h)[|m.root|..] && relative[..|h|] == (m.root + relative)[|m.root|..|m.root| + |h|];
        }
      }
    }
  }

  datatype SourcePath = SourcePath(point: Path, path: Path)

  function ToSourcePath(ms: seq<Mount>, p: Path): Option<SourcePath> {
    var m := Locate(ms, p);
    if m.None? then None
    else
      var relative := p[|m.value.point|..];
      if Visible(m.value, relative) then Some(SourcePath(m.value.point, ToInner(m.value, relative))) else None
  }

  function ToVirtualPath(ms: seq<Mount>, point: Path, source: Path): Option<Path> {
    var m := Locate(ms, point);
    if m.None? || m.value.point != point || (source != NULL_DEVICE && !(m.value.root <= source)) then None
    else
      var relative := if m.value.root == [] || source == NULL_DEVICE then source else source[|m.value.root|..];
      if Visible(m.value, relative) then Some(point + relative) else None
  }

  lemma {:induction false} LocateOwn(ms: seq<Mount>, m: Mount, p: Path)
    requires Disjoint(ms) && m in ms && m.point <= p
    ensures Locate(ms, p) == Some(m)
  {
    if ms[0].point <= p {
      var i :| 0 <= i < |ms| && ms[i] == m;
      PrefixesAreRelated(ms[0].point, m.point, p);
      if i > 0 {
        assert false;
      }
    } else {
      assert Disjoint(ms[1..]);
      LocateOwn(ms[1..], m, p);
    }
  }

  /** A visible path has a place in the source exactly if it lies in a mount and no hidden root of it takes it away. */
  lemma SourceIff(ms: seq<Mount>, p: Path)
    ensures ToSourcePath(ms, p).Some? ==>
              exists m :: m in ms && m.point <= p && Visible(m, p[|m.point|..])
                          && ToSourcePath(ms, p) ==
                             Some(SourcePath(m.point, if p[|m.point|..] == NULL_DEVICE then NULL_DEVICE else m.root + p[|m.point|..]))
    ensures Disjoint(ms) ==> forall m :: m in ms && m.point <= p && Visible(m, p[|m.point|..]) ==> ToSourcePath(ms, p).Some?
  {
    if Disjoint(ms) {
      forall m | m in ms && m.point <= p
        ensures Locate(ms, p) == Some(m)
      {
        LocateOwn(ms, m, p);
      }
    }
  }

  /** A path below a mount whose place in the source happens to be the null device. */
  predicate LandsOnNull(m: Mount, relative: Path) {
    relative != NULL_DEVICE && m.root + relative == NULL_DEVICE
  }

  /** Translating to the source and back gives every visible mounted path again, except where the presented root makes
      an ordinary path the null device of the source. */
  lemma RoundTripIff(ms: seq<Mount>, p: Path)
    requires Disjoint(ms) && ToSourcePath(ms, p).Some?
    ensures var m := Locate(ms, p).value;
            var s := ToSourcePath(ms, p).value;
            ToVirtualPath(ms, s.point, s.path) == Some(p) <==> !LandsOnNull(m, p[|m.point|..])
  {
    var m := Locate(ms, p).value;
    var relative := p[|m.point|..];
    LocateOwn(ms, m, m.point);
    assert m.point + relative == p;
    assert relative != NULL_DEVICE ==> (m.root + relative)[|m.root|..] == relative;
    if LandsOnNull(m, relative) {
      assert m.point + NULL_DEVICE != p by {
        assert (m.point + NULL_DEVICE)[|m.point|..] == NULL_DEVICE;
      }
    }
  }

  /** Only a presented root within the device directory, other than the source's own root, can do that. */
  lemma LandsOnNullIff(m: Mount)
    ensures (exists relative :: LandsOnNull(m, relative)) <==> m.root == DEV || m.root == NULL_DEVICE
  {
    if m.root == DEV {
      assert LandsOnNull(m, ["null"]);
    }
    if m.root == NULL_DEVICE {
      assert LandsOnNull(m, []);
    }
    forall relative | LandsOnNull(m, relative)
      ensures m.root == DEV || m.root == NULL_DEVICE
    {
      assert m.root == NULL_DEVICE[..|m.root|];
      assert m.root == [] ==> relative == NULL_DEVICE;
    }
  }
}
