/** Virtual paths: their normal form, containment, and moving a path from one directory to another (core/path.ts). */
module Paths {
  import opened Types
  import opened Text

  datatype PathError = Ambiguous | OutOfRoot | Reserved
  datatype Normal = Canonical(segments: Path) | Bad(error: PathError)

  const RESERVED: set<string> := {".supabash", ".supabash-directory"}

  predicate Control(c: char) {
    c <= '\U{001F}' || c == '\U{007F}'
  }

  /** A percent sign followed by 2e, 2f or 5c in either case. */
  predicate EncodedHere(s: string) {
    |s| >= 3 && s[0] == '%'
    && ((s[1] == '2' && s[2] in {'e', 'E', 'f', 'F'}) || (s[1] == '5' && s[2] in {'c', 'C'}))
  }

  predicate Encoded(s: string) {
    s != "" && (EncodedHere(s) || Encoded(s[1..]))
  }

  predicate Clean(s: string) {
    && (forall i :: 0 <= i < |s| ==> !Control(s[i]) && s[i] != '\\')
    && !Encoded(s)
  }

  /** The segments of a normal path. */
  predicate Proper(segment: string) {
    segment != "" && segment != "." && segment != ".." && segment !in RESERVED && '/' !in segment && Clean(segment)
  }

  predicate AllProper(p: Path) {
    forall i :: 0 <= i < |p| ==> Proper(p[i])
  }

  function ToText(p: Path): string {
    "/" + JoinWith('/', p)
  }

  function AbsoluteSegments(input: string): seq<string> {
    SplitOn('/', if input != "" && input[0] == '/' then input else "/" + input)
  }

  /** One segment on the stack: empty ones and dots do nothing, two dots go up, everything else goes down. */
  function Taken(stack: Path, segment: string): Normal {
    if segment == "" || segment == "." then Canonical(stack)
    else if segment == ".." then if stack == [] then Bad(OutOfRoot) else Canonical(stack[..|stack| - 1])
    else if segment in RESERVED then Bad(Reserved)
    else Canonical(stack + [segment])
  }

  function Walk(stack: Path, segments: seq<string>): Normal
    decreases |segments|
  {
    if segments == [] then Canonical(stack)
    else
      var next := Taken(stack, segments[0]);
      if next.Bad? then next else Walk(next.segments, segments[1..])
  }

  function Normalize(input: string): Normal {
    if input == "" || !Clean(input) then Bad(Ambiguous) else Walk([], AbsoluteSegments(input))
  }

  method NormalizeVirtualPath(input: string) returns (r: Normal)
    ensures r == Normalize(input)
  {
    hide Clean, SplitOn;
    if input == "" {
      return Bad(Ambiguous);
    }
    if !Clean(input) {
      return Bad(Ambiguous);
    }
    var all := AbsoluteSegments(input);
    var segments: Path := [];
    var i := 0;
    while i < |all|
      invariant 0 <= i <= |all|
      invariant Walk([], all) == Walk(segments, all[i..])
    {
      var segment := all[i];
      assert all[i..][1..] == all[i + 1..];
      i := i + 1;
      if segment != "" && segment != "." {
        if segment == ".." {
          if segments == [] {
            return Bad(OutOfRoot);
          }
          segments := segments[..|segments| - 1];
        } else {
          if segment in RESERVED {
            return Bad(Reserved);
          }
          segments := segments + [segment];
        }
      }
    }
    return Canonical(segments);
  }

  // ---------------------------------------------------------------- the normal form

  lemma {:induction false} EncodedPrefix(a: string, b: string)
    ensures Encoded(a) ==> Encoded(a + b)
    ensures Encoded(b) ==> Encoded(a + b)
  {
    if a == "" {
      assert a + b == b;
    } else {
      EncodedPrefix(a[1..], b);
      assert (a + b)[1..] == a[1..] + b;
    }
  }

  /** A slash can be no part of the encoded syntax. */
  lemma {:induction false} EncodedAcrossSlash(a: string, b: string)
    ensures Encoded(a + "/" + b) ==> Encoded(a) || Encoded(b)
  {
    var s := a + "/" + b;
    if a == "" {
      assert s[1..] == b;
    } else {
      EncodedAcrossSlash(a[1..], b);
      assert s[1..] == a[1..] + "/" + b;
      assert |a| < 3 ==> s[|a|] == '/';
    }
  }

  lemma CleanParts(a: string, b: string)
    ensures Clean(a + b) ==> Clean(a) && Clean(b)
    ensures Clean(a) && Clean(b) ==> Clean(a + "/" + b)
  {
    EncodedPrefix(a, b);
    EncodedAcrossSlash(a, b);
    if Clean(a + b) {
      assert forall i :: 0 <= i < |a| ==> (a + b)[i] == a[i];
      assert forall i :: 0 <= i < |b| ==> (a + b)[|a| + i] == b[i];
    }
  }

  /** The pieces of a clean text are clean. */
  lemma {:induction false} CleanPieces(pieces: seq<string>, i: nat)
    requires i < |pieces| && Clean(JoinWith('/', pieces))
    ensures Clean(pieces[i])
  {
    if |pieces| > 1 {
      var rest := JoinWith('/', pieces[1..]);
      assert JoinWith('/', pieces) == pieces[0] + ("/" + rest);
      CleanParts(pieces[0], "/" + rest);
      CleanParts("/", rest);
      if i > 0 {
        CleanPieces(pieces[1..], i - 1);
      }
    }
  }

  lemma {:induction false} CleanJoin(pieces: seq<string>)
    requires forall i :: 0 <= i < |pieces| ==> Clean(pieces[i])
    ensures Clean(JoinWith('/', pieces))
  {
    if |pieces| > 1 {
      CleanJoin(pieces[1..]);
      CleanParts(pieces[0], JoinWith('/', pieces[1..]));
    }
  }

  lemma {:induction false} WalkProper(stack: Path, segments: seq<string>)
    requires AllProper(stack) && forall i :: 0 <= i < |segments| ==> '/' !in segments[i] && Clean(segments[i])
    ensures Walk(stack, segments).Canonical? ==> AllProper(Walk(stack, segments).segments)
    decreases |segments|
  {
    hide Clean;
    if segments != [] {
      var next := Taken(stack, segments[0]);
      if next.Canonical? {
        WalkProper(next.segments, segments[1..]);
      }
    }
  }

  /** A normal path consists of proper segments: none empty, none of dots, none reserved. */
  lemma NormalIsProper(input: string)
    ensures Normalize(input).Canonical? ==> AllProper(Normalize(input).segments)
  {
    if input != "" && Clean(input) {
      var text := if input[0] == '/' then input else "/" + input;
      CleanParts("", input);
      assert "" + "/" + input == "/" + input;
      var pieces := SplitOn('/', text);
      JoinOfSplit('/', text);
      forall i | 0 <= i < |pieces|
        ensures '/' !in pieces[i] && Clean(pieces[i])
      {
        CleanPieces(pieces, i);
      }
      WalkProper([], pieces);
    }
  }

  lemma {:induction false} WalkOn(stack: Path, segments: seq<string>)
    requires AllProper(segments)
    ensures Walk(stack, segments) == Canonical(stack + segments)
    decreases |segments|
  {
    if segments == [] {
      assert stack + segments == stack;
    } else {
      assert Proper(segments[0]);
      WalkOn(stack + [segments[0]], segments[1..]);
      assert stack + [segments[0]] + segments[1..] == stack + segments;
    }
  }

  lemma TextSegments(p: Path)
    requires AllProper(p)
    ensures ToText(p) != "" && ToText(p)[0] == '/' && Clean(ToText(p))
    ensures SplitOn('/', ToText(p)) == [""] + if p == [] then [""] else p
  {
    hide Clean;
    CleanJoin(p);
    SplitFirstPiece('/', "", JoinWith('/', p));
    assert "" + "/" + JoinWith('/', p) == ToText(p);
    CleanSlash();
    CleanParts("", JoinWith('/', p));
    if p != [] {
      SplitOfJoin('/', p);
    } else {
      SplitFirstPiece('/', "", "");
    }
  }

  lemma CleanSlash()
    ensures Clean("")
  {
  }

  /** Written out, a list of proper segments normalises to itself, so its text determines it. */
  lemma TextIsNormal(p: Path)
    requires AllProper(p)
    ensures Normalize(ToText(p)) == Canonical(p)
  {
    TextSegments(p);
    var pieces := SplitOn('/', ToText(p));
    if p == [] {
      assert Walk([], [""]) == Walk([], [""][1..]) == Canonical([]);
      assert pieces[1..] == [""];
    } else {
      assert pieces[1..] == p;
      WalkOn([], p);
      assert [] + p == p;
    }
  }

  /** Normalisation is idempotent: what it returns is its own normal form. */
  lemma NormalizeIdempotent(input: string)
    ensures Normalize(input).Canonical? ==> Normalize(ToText(Normalize(input).segments)) == Normalize(input)
  {
    NormalIsProper(input);
    if Normalize(input).Canonical? {
      TextIsNormal(Normalize(input).segments);
    }
  }

  /** A percent sign and two characters that spell a dot, a slash or a backslash. */
  predicate Spells(a: char, b: char, c: char) {
    a == '%' && ((b == '2' && (c == 'e' || c == 'E' || c == 'f' || c == 'F')) || (b == '5' && (c == 'c' || c == 'C')))
  }

  predicate SpellsAt(s: string, i: int) {
    0 <= i < |s| - 2 && Spells(s[i], s[i + 1], s[i + 2])
  }

  ghost predicate SpellsSomewhere(s: string) {
    exists i :: SpellsAt(s, i)
  }

  lemma {:induction false} EncodedIff(s: string)
    ensures Encoded(s) <==> SpellsSomewhere(s)
  {
    hide EncodedHere, Spells, SpellsSomewhere;
    if s != "" {
      EncodedIff(s[1..]);
      HereIff(s);
      HereOrLater(s);
    } else {
      assert !SpellsSomewhere(s) by { TooShort(s); }
    }
  }

  lemma TooShort(s: string)
    ensures |s| < 3 ==> !SpellsSomewhere(s)
  {
  }

  lemma HereOrLater(s: string)
    requires s != ""
    ensures SpellsSomewhere(s) <==> (|s| >= 3 && Spells(s[0], s[1], s[2])) || SpellsSomewhere(s[1..])
  {
    hide SpellsAt;
    if SpellsSomewhere(s) {
      var i :| SpellsAt(s, i);
      OneFurther(s, i - 1);
    }
    if SpellsSomewhere(s[1..]) {
      var i :| SpellsAt(s[1..], i);
      OneFurther(s, i);
    }
    OneFurther(s, -1);
  }

  lemma OneFurther(s: string, i: int)
    requires s != ""
    ensures SpellsAt(s[1..], i) <==> i >= 0 && SpellsAt(s, i + 1)
    ensures i == -1 ==> (SpellsAt(s, i + 1) <==> |s| >= 3 && Spells(s[0], s[1], s[2]))
    ensures i < -1 ==> !SpellsAt(s, i + 1)
  {
  }

  lemma HereIff(s: string)
    ensures EncodedHere(s) <==> |s| >= 3 && Spells(s[0], s[1], s[2])
  {
  }

  lemma {:induction false} WalkNotAmbiguous(stack: Path, segments: seq<string>)
    ensures Walk(stack, segments) != Bad(Ambiguous)
    decreases |segments|
  {
    if segments != [] && Taken(stack, segments[0]).Canonical? {
      WalkNotAmbiguous(Taken(stack, segments[0]).segments, segments[1..]);
    }
  }

  /** A path is refused as ambiguous exactly if it is empty or holds a control character, a backslash or encoded syntax. */
  lemma AmbiguousIff(input: string)
    ensures Normalize(input) == Bad(Ambiguous) <==>
              || input == ""
              || (exists i :: 0 <= i < |input| && (input[i] as int < 32 || input[i] as int == 127 || input[i] == '\\'))
              || SpellsSomewhere(input)
  {
    EncodedIff(input);
    WalkNotAmbiguous([], AbsoluteSegments(input));
  }

  // ---------------------------------------------------------------- where dots lead

  lemma CleanAt(a: string, b: string)
    ensures Clean(a + "/" + b) <==> Clean(a) && Clean(b)
  {
    hide Clean;
    CleanParts(a, b);
    assert a + "/" + b == a + ("/" + b);
    CleanParts(a, "/" + b);
    CleanParts("/", b);
  }

  lemma AppendedSegments(input: string, more: string)
    requires input != ""
    ensures AbsoluteSegments(input + "/" + more) == AbsoluteSegments(input) + SplitOn('/', more)
  {
    var text := if input[0] == '/' then input else "/" + input;
    SplitTwo('/', text, more);
    assert "/" + (input + "/" + more) == "/" + input + "/" + more;
  }

  lemma {:induction false} WalkConcat(stack: Path, a: seq<string>, b: seq<string>)
    ensures Walk(stack, a + b) == var r := Walk(stack, a); if r.Bad? then r else Walk(r.segments, b)
    decreases |a|
  {
    hide Taken;
    if a == [] {
      assert a + b == b;
    } else {
      assert (a + b)[1..] == a[1..] + b;
      if Taken(stack, a[0]).Canonical? {
        WalkConcat(Taken(stack, a[0]).segments, a[1..], b);
      }
    }
  }

  /** Segments that lead nowhere may be left out, wherever they stand. */
  lemma LeftOut(a: seq<string>, idle: seq<string>, b: seq<string>)
    requires forall stack :: Walk(stack, idle) == Canonical(stack)
    ensures Walk([], a + idle + b) == Walk([], a + b)
  {
    hide Walk;
    WalkConcat([], a + idle, b);
    WalkConcat([], a, idle);
    WalkConcat([], a, b);
  }

  /** The rest of a path: nothing, or a slash and more. */
  predicate Rest(rest: string) {
    rest == "" || rest[0] == '/'
  }

  lemma IdleText(input: string, idle: string, rest: string)
    requires input != "" && Rest(rest) && Clean(idle) && forall stack :: Walk(stack, SplitOn('/', idle)) == Canonical(stack)
    ensures Normalize(input + "/" + idle + rest) == Normalize(input + rest)
  {
    hide Clean, Walk, AbsoluteSegments;
    var a, m := AbsoluteSegments(input), SplitOn('/', idle);
    AppendedSegments(input, idle);
    CleanAt(input, idle);
    if rest == "" {
      LeftOut(a, m, []);
      assert a + m + [] == a + m && a + [] == a;
      assert input + "/" + idle + rest == input + "/" + idle && input + rest == input;
    } else {
      var r := rest[1..];
      assert rest == "/" + r;
      AppendedSegments(input + "/" + idle, r);
      AppendedSegments(input, r);
      CleanAt(input + "/" + idle, r);
      CleanAt(input, r);
      assert input + "/" + idle + rest == input + "/" + idle + "/" + r && input + rest == input + "/" + r;
      LeftOut(a, m, SplitOn('/', r));
    }
  }

  /** A segment that is empty or a dot may be left out. */
  lemma DotsVanish(input: string, rest: string)
    requires input != "" && Rest(rest)
    ensures Normalize(input + "/" + rest) == Normalize(input + rest)
    ensures Normalize(input + "/." + rest) == Normalize(input + rest)
  {
    SplitFirstPiece('/', "", "");
    SplitFirstPiece('/', ".", "");
    CleanSlash();
    assert Clean(".");
    assert forall stack :: Walk(stack, [""]) == Canonical(stack) && Walk(stack, ["."]) == Canonical(stack);
    hide Normalize, Clean, Walk;
    IdleText(input, "", rest);
    IdleText(input, ".", rest);
    assert input + "/" + "" + rest == input + "/" + rest;
    assert input + "/" + "." == input + "/.";
  }

  lemma UpAgain(x: string)
    requires Proper(x)
    ensures forall stack :: Walk(stack, [x, ".."]) == Canonical(stack)
  {
    hide Clean;
    forall stack: Path
      ensures Walk(stack, [x, ".."]) == Canonical(stack)
    {
      assert [x, ".."][1..] == [".."] && [".."][1..] == [];
      assert (stack + [x])[..|stack|] == stack;
      assert Walk(stack + [x], [".."]) == Canonical(stack);
    }
  }

  /** Two dots take the name before them away. */
  lemma TwoDotsGoUp(input: string, x: string, rest: string)
    requires input != "" && Proper(x) && Rest(rest)
    ensures Normalize(input + "/" + x + "/.." + rest) == Normalize(input + rest)
  {
    SplitTwo('/', x, "..");
    SplitFirstPiece('/', x, "");
    SplitFirstPiece('/', "..", "");
    assert Clean("..");
    CleanAt(x, "..");
    UpAgain(x);
    hide Normalize, Clean, Walk, SplitOn;
    assert SplitOn('/', x + "/" + "..") == [x] + [".."] == [x, ".."];
    IdleText(input, x + "/" + "..", rest);
    assert input + "/" + (x + "/" + "..") == input + "/" + x + "/..";
  }

  /** Where no name is left they are refused, and so is a reserved name anywhere. */
  lemma Refused(input: string, segment: string, rest: string)
    requires Rest(rest) && '/' !in segment && Clean(input + "/" + segment + rest) && input != ""
    requires Normalize(input).Canonical?
    ensures segment == ".." && Normalize(input) == Canonical([]) ==> Normalize(input + "/" + segment + rest) == Bad(OutOfRoot)
    ensures segment in RESERVED ==> Normalize(input + "/" + segment + rest) == Bad(Reserved)
  {
    hide Clean, AbsoluteSegments, Walk, SplitOn, RESERVED;
    var more := if rest == "" then [] else SplitOn('/', rest[1..]);
    SegmentsAfter(input, segment, rest);
    WalkConcat([], AbsoluteSegments(input), [segment] + more);
    CleanParts(input, "/" + segment + rest);
    assert input + ("/" + segment + rest) == input + "/" + segment + rest;
    StopsAt(Normalize(input).segments, segment, more);
  }

  lemma SegmentsAfter(input: string, segment: string, rest: string)
    requires Rest(rest) && '/' !in segment && input != ""
    ensures AbsoluteSegments(input + "/" + segment + rest) ==
            AbsoluteSegments(input) + ([segment] + if rest == "" then [] else SplitOn('/', rest[1..]))
  {
    hide AbsoluteSegments, SplitOn;
    SplitFirstPiece('/', segment, "");
    AppendedSegments(input, segment);
    var before := input + "/" + segment;
    if rest == "" {
      assert before + rest == before;
    } else {
      var r := rest[1..];
      AppendedSegments(before, r);
      assert before + rest == before + "/" + r by {
        assert rest == "/" + r;
      }
      Regroup(AbsoluteSegments(input), [segment], SplitOn('/', r));
    }
  }

  lemma Regroup(a: seq<string>, b: seq<string>, c: seq<string>)
    ensures a + b + c == a + (b + c)
  {
  }

  lemma StopsAt(stack: Path, segment: string, more: seq<string>)
    ensures segment == ".." && stack == [] ==> Walk(stack, [segment] + more) == Bad(OutOfRoot)
    ensures segment in RESERVED ==> Walk(stack, [segment] + more) == Bad(Reserved)
  {
  }

  // ---------------------------------------------------------------- containment

  lemma {:induction false} JoinConcat(a: Path, b: Path)
    requires a != [] && b != []
    ensures JoinWith('/', a + b) == JoinWith('/', a) + "/" + JoinWith('/', b)
  {
    if |a| == 1 {
      assert (a + b)[1..] == b;
    } else {
      JoinConcat(a[1..], b);
      assert (a + b)[1..] == a[1..] + b;
    }
  }

  /** isSameOrDescendant on normal texts. */
  predicate SameOrDescendant(candidate: string, parent: string) {
    candidate == parent || (if parent == "/" then "" else parent) + "/" <= candidate
  }

  lemma RootText(p: Path)
    requires AllProper(p)
    ensures ToText(p) == "/" <==> p == []
  {
    TextIsNormal(p);
    TextIsNormal([]);
  }

  /** Containment of texts is containment of segments: a common name prefix is not enough. */
  lemma SameOrDescendantIsPrefix(candidate: Path, parent: Path)
    requires AllProper(candidate) && AllProper(parent)
    ensures SameOrDescendant(ToText(candidate), ToText(parent)) <==> parent <= candidate
  {
    hide Clean, Proper;
    RootText(parent);
    TextIsNormal(candidate);
    TextIsNormal(parent);
    if parent != [] {
      var prefix := ToText(parent) + "/";
      if parent <= candidate && parent != candidate {
        var rest := candidate[|parent|..];
        assert candidate == parent + rest;
        JoinConcat(parent, rest);
        assert ToText(candidate) == prefix + JoinWith('/', rest);
      }
      if prefix <= ToText(candidate) {
        var rest := ToText(candidate)[|prefix|..];
        assert ToText(candidate) == prefix + rest;
        PrefixSegments(candidate, parent, rest);
      }
    }
  }

  lemma PrefixSegments(candidate: Path, parent: Path, rest: string)
    requires AllProper(candidate) && AllProper(parent) && parent != []
    requires ToText(candidate) == ToText(parent) + "/" + rest
    ensures parent <= candidate
  {
    hide Clean, SplitOn, ToText, Proper, AllProper;
    TextSegments(candidate);
    TextSegments(parent);
    FirstIsNamed(parent);
    SplitTwo('/', ToText(parent), rest);
    var tail := SplitOn('/', rest);
    assert [""] + parent + tail == [""] + (parent + tail);
    SamePieces(candidate, parent, tail);
  }

  lemma FirstIsNamed(p: Path)
    requires AllProper(p) && p != []
    ensures p[0] != ""
  {
    assert Proper(p[0]);
  }

  lemma SamePieces(candidate: Path, parent: Path, tail: seq<string>)
    requires parent != [] && parent[0] != ""
    requires [""] + (if candidate == [] then [""] else candidate) == [""] + (parent + tail)
    ensures parent <= candidate
  {
    var pieces := [""] + (parent + tail);
    assert pieces[1] == parent[0];
    assert pieces[1..] == parent + tail;
    assert candidate != [];
    assert ([""] + candidate)[1..] == candidate;
  }

  // ---------------------------------------------------------------- moving

  /** moveDescendant on normal paths: the text after the source is put after the destination and normalised. */
  function MoveDescendant(path: Path, source: Path, destination: Path): Normal {
    if !SameOrDescendant(ToText(path), ToText(source)) || |ToText(path)| < |ToText(source)| then Bad(Ambiguous)
    else Normalize(ToText(destination) + ToText(path)[|ToText(source)|..])
  }

  lemma {:induction false} WalkLength(stack: Path, segments: seq<string>)
    ensures Walk(stack, segments).Canonical? ==> |Walk(stack, segments).segments| <= |stack| + |segments|
    decreases |segments|
  {
    if segments != [] && Taken(stack, segments[0]).Canonical? {
      WalkLength(Taken(stack, segments[0]).segments, segments[1..]);
    }
  }

  lemma TextOfConcat(a: Path, b: Path)
    requires a != [] && b != []
    ensures ToText(a + b) == ToText(a) + "/" + JoinWith('/', b)
  {
    JoinConcat(a, b);
  }

  /** From a directory other than the root, the rest of the path ends up below the destination. */
  lemma MoveFromDirectory(path: Path, source: Path, destination: Path)
    requires AllProper(path) && AllProper(destination) && source <= path && source != []
    ensures MoveDescendant(path, source, destination) == Canonical(destination + path[|source|..])
  {
    hide Clean, Proper;
    var rest := path[|source|..];
    assert path == source + rest;
    SameOrDescendantIsPrefix(path, source);
    if rest == [] {
      assert path == source && ToText(path)[|ToText(source)|..] == "";
      assert ToText(destination) + "" == ToText(destination);
      assert destination + rest == destination;
      TextIsNormal(destination);
    } else {
      TextOfConcat(source, rest);
      assert ToText(path)[|ToText(source)|..] == "/" + JoinWith('/', rest);
      if destination == [] {
        assert destination + rest == rest;
        DoubleSlash(rest);
      } else {
        TextOfConcat(destination, rest);
        assert ToText(destination) + ("/" + JoinWith('/', rest)) == ToText(destination + rest);
        assert AllProper(destination + rest);
        TextIsNormal(destination + rest);
      }
    }
  }

  lemma DoubleSlash(p: Path)
    requires AllProper(p) && p != []
    ensures Normalize(ToText([]) + ("/" + JoinWith('/', p))) == Canonical(p)
  {
    hide Clean, Proper;
    var text := ToText([]) + ("/" + JoinWith('/', p));
    assert text == "/" + ToText(p);
    TextSegments(p);
    CleanSlash();
    CleanParts("", ToText(p));
    assert "" + "/" + ToText(p) == text;
    SplitFirstPiece('/', "", ToText(p));
    var pieces := SplitOn('/', text);
    assert pieces[0] == "" && pieces[1..][0] == "" && pieces[1..][1..] == p;
    assert Walk([], pieces) == Walk([], pieces[1..]) == Walk([], pieces[1..][1..]);
    WalkOn([], p);
    assert [] + p == p;
  }

  lemma GluedPieces(path: Path, destination: Path)
    requires AllProper(path) && AllProper(destination) && path != [] && destination != []
    ensures |SplitOn('/', ToText(destination) + JoinWith('/', path))| == |destination| + |path|
  {
    hide Clean;
    var n := |destination| - 1;
    var glued := destination[..n] + [destination[n] + path[0]] + path[1..];
    assert Proper(destination[n]) && Proper(path[0]);
    assert '/' !in destination[n] + path[0];
    assert forall i :: 0 <= i < |glued| ==> '/' !in glued[i];
    GluedText(destination, path, glued);
    SplitOfJoin('/', glued);
    SplitFirstPiece('/', "", JoinWith('/', glued));
    assert "" + "/" + JoinWith('/', glued) == "/" + JoinWith('/', glued);
  }

  lemma {:induction false} GluedText(a: Path, b: Path, glued: Path)
    requires a != [] && b != [] && glued == a[..|a| - 1] + [a[|a| - 1] + b[0]] + b[1..]
    ensures ToText(a) + JoinWith('/', b) == "/" + JoinWith('/', glued)
    decreases |a|
  {
    if |a| == 1 {
      assert glued == [a[0] + b[0]] + b[1..];
      if |b| > 1 {
        assert glued[1..] == b[1..];
        assert a[0] + (b[0] + "/" + JoinWith('/', b[1..])) == a[0] + b[0] + "/" + JoinWith('/', b[1..]);
      }
    } else {
      var t := a[1..];
      assert glued[1..] == t[..|t| - 1] + [t[|t| - 1] + b[0]] + b[1..];
      GluedText(t, b, glued[1..]);
      assert glued[0] == a[0];
      assert JoinWith('/', t) + JoinWith('/', b) == JoinWith('/', glued[1..]) by {
        assert (ToText(t) + JoinWith('/', b))[1..] == JoinWith('/', t) + JoinWith('/', b);
        assert ("/" + JoinWith('/', glued[1..]))[1..] == JoinWith('/', glued[1..]);
      }
      assert a[0] + "/" + JoinWith('/', t) + JoinWith('/', b) == a[0] + "/" + (JoinWith('/', t) + JoinWith('/', b));
    }
  }

  /** Moving puts the rest of the path below the destination, except from the root into another directory: there the
      separator is lost and the last segment of the destination is glued to the first of the path. */
  lemma MoveDescendantIff(path: Path, source: Path, destination: Path)
    requires AllProper(path) && AllProper(destination) && source <= path
    ensures MoveDescendant(path, source, destination) == Canonical(destination + path[|source|..])
       <==> (source != [] || path == [] || destination == [])
  {
    hide Clean, Proper;
    if source != [] {
      MoveFromDirectory(path, source, destination);
    } else {
      SameOrDescendantIsPrefix(path, source);
      assert ToText([]) == "/";
      assert ToText(path)[1..] == JoinWith('/', path);
      assert path[0..] == path;
      if path == [] {
        assert ToText(destination) + "" == ToText(destination);
        assert destination + path == destination;
        TextIsNormal(destination);
      } else if destination == [] {
        assert ToText([]) + JoinWith('/', path) == ToText(path);
        assert destination + path == path;
        TextIsNormal(path);
      } else {
        GluedIsShorter(path, destination);
      }
    }
  }

  lemma GluedIsShorter(path: Path, destination: Path)
    requires AllProper(path) && AllProper(destination) && path != [] && destination != []
    ensures Normalize(ToText(destination) + JoinWith('/', path)) != Canonical(destination + path)
  {
    hide Clean;
    var text := ToText(destination) + JoinWith('/', path);
    GluedPieces(path, destination);
    var pieces := SplitOn('/', text);
    assert text[0] == '/' && pieces[0] == "";
    WalkLength([], pieces[1..]);
    assert Walk([], pieces) == Walk([], pieces[1..]);
  }

  /** Between two directories other than the root, moving back undoes moving. */
  lemma MoveInverse(path: Path, source: Path, destination: Path)
    requires AllProper(path) && AllProper(destination) && source <= path && source != [] && destination != []
    ensures var moved := MoveDescendant(path, source, destination);
            moved.Canonical? && MoveDescendant(moved.segments, destination, source) == Canonical(path)
  {
    hide Clean, Proper;
    MoveFromDirectory(path, source, destination);
    var moved := destination + path[|source|..];
    assert forall i :: 0 <= i < |source| ==> source[i] == path[i];
    MoveFromDirectory(moved, destination, source);
    assert source + moved[|destination|..] == path;
  }
}
