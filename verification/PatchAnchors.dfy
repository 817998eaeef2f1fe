/** Where the anchors of a diff lead the search, in terms of the lines of the file alone, and what a printed diff with anchors changes. */
module PatchAnchors {
  import opened Types
  import opened PatchText
  import opened Patch
  import opened PatchMeaning
  import opened PatchRoundTrip

  // ---------------------------------------------------------------- one anchor

  /** A line reads as the anchor: the same text, or the same up to blanks at both ends. */
  predicate Reads(line: string, anchor: string, loosely: bool) {
    if loosely then Trim(line) == Trim(anchor) else line == anchor
  }

  ghost predicate Between(input: seq<string>, from: nat, to: nat, anchor: string, loosely: bool) {
    exists k :: from <= k < to && k < |input| && Reads(input[k], anchor, loosely)
  }

  /** The line before `next` is the first, from `cursor` on, that reads as the anchor. */
  ghost predicate JustPastFirst(input: seq<string>, cursor: nat, anchor: string, loosely: bool, next: nat) {
    && cursor < next <= |input| && Reads(input[next - 1], anchor, loosely)
    && !Between(input, cursor, next - 1, anchor, loosely)
  }

  /**
   One anchor moves the search from `cursor` to `next`.  An exact line counts before one that
   differs in blanks.  The first anchor of a section leaves the cursor where it is if such a line
   lies before it; every later one only looks forward.
   */
  ghost predicate Moves(input: seq<string>, cursor: nat, anchor: string, later: bool, required: bool, next: nat) {
    if !later && Between(input, 0, cursor, anchor, false) then next == cursor
    else if Between(input, cursor, |input|, anchor, false) then JustPastFirst(input, cursor, anchor, false, next)
    else if !later && Between(input, 0, cursor, anchor, true) then next == cursor
    else if Between(input, cursor, |input|, anchor, true) then JustPastFirst(input, cursor, anchor, true, next)
    else !required && next == cursor
  }

  /** The anchor is on no line it may be on. */
  ghost predicate Missing(input: seq<string>, cursor: nat, anchor: string, later: bool) {
    !Between(input, if later then cursor else 0, |input|, anchor, false) && !Between(input, if later then cursor else 0, |input|, anchor, true)
  }

  lemma SeenBefore(t: Tier, input: seq<string>, anchor: string, cursor: nat)
    requires cursor <= |input| && t != EndTrimmed
    ensures HasLine(t, input[..cursor], anchor) <==> Between(input, 0, cursor, anchor, t == Trimmed)
  {
    if HasLine(t, input[..cursor], anchor) {
      var k :| 0 <= k < cursor && Mapped(t, input[..cursor][k]) == Mapped(t, anchor);
      assert Reads(input[k], anchor, t == Trimmed);
    }
    if Between(input, 0, cursor, anchor, t == Trimmed) {
      var k :| 0 <= k < cursor && Reads(input[k], anchor, t == Trimmed);
      assert input[..cursor][k] == input[k];
    }
  }

  lemma OneLine(t: Tier, input: seq<string>, anchor: string, k: nat)
    requires t != EndTrimmed
    ensures EqualsSlice(t, input, [anchor], k) <==> k < |input| && Reads(input[k], anchor, t == Trimmed)
  {
    if k < |input| {
      assert [anchor][0] == anchor && input[k + 0] == input[k];
    }
  }

  lemma FoundAhead(t: Tier, input: seq<string>, anchor: string, cursor: nat)
    requires cursor <= |input| && t != EndTrimmed
    ensures Search(t, input, [anchor], cursor).Some? <==> Between(input, cursor, |input|, anchor, t == Trimmed)
    ensures Search(t, input, [anchor], cursor).Some? ==>
              JustPastFirst(input, cursor, anchor, t == Trimmed, Search(t, input, [anchor], cursor).value + 1)
  {
    hide Search, EqualsSlice, Reads;
    var at := Search(t, input, [anchor], cursor);
    if at.Some? {
      OneLine(t, input, anchor, at.value);
      if Between(input, cursor, at.value, anchor, t == Trimmed) {
        var k :| cursor <= k < at.value && Reads(input[k], anchor, t == Trimmed);
        OneLine(t, input, anchor, k);
      }
    } else if Between(input, cursor, |input|, anchor, t == Trimmed) {
      var k :| cursor <= k < |input| && Reads(input[k], anchor, t == Trimmed);
      OneLine(t, input, anchor, k);
    }
  }

  lemma AnchorMoves(input: seq<string>, cursor: nat, anchor: string, later: bool, required: bool)
    requires cursor <= |input|
    ensures var r := Advance(anchor, input, cursor, required, later);
            if r.Some? then Moves(input, cursor, anchor, later, required, r.value) else required && Missing(input, cursor, anchor, later)
  {
    hide Search, HasLine, Between, JustPastFirst;
    SeenBefore(Exact, input, anchor, cursor);
    SeenBefore(Trimmed, input, anchor, cursor);
    FoundAhead(Exact, input, anchor, cursor);
    FoundAhead(Trimmed, input, anchor, cursor);
    Halves(input, cursor, anchor, false);
    Halves(input, cursor, anchor, true);
  }

  lemma Halves(input: seq<string>, cursor: nat, anchor: string, loosely: bool)
    requires cursor <= |input|
    ensures Between(input, 0, |input|, anchor, loosely) <==>
            Between(input, 0, cursor, anchor, loosely) || Between(input, cursor, |input|, anchor, loosely)
  {
    if Between(input, 0, |input|, anchor, loosely) {
      var k :| 0 <= k < |input| && Reads(input[k], anchor, loosely);
      assert k < cursor ==> Between(input, 0, cursor, anchor, loosely);
    }
  }

  lemma MovesOneWay(input: seq<string>, cursor: nat, anchor: string, later: bool, required: bool, a: nat, b: nat)
    requires Moves(input, cursor, anchor, later, required, a) && Moves(input, cursor, anchor, later, required, b)
    ensures a == b
  {
    hide Reads;
  }

  // ---------------------------------------------------------------- the anchors of a section

  /** The anchors one after the other, from the cursor at the first stop to that at the last. */
  ghost predicate Follows(input: seq<string>, anchors: seq<string>, required: bool, stops: seq<nat>) {
    && 1 <= |stops| <= |anchors| + 1
    && forall i :: 0 <= i < |stops| - 1 ==> Moves(input, stops[i], anchors[i], i > 0, required, stops[i + 1])
  }

  /** They lead from `cursor` to `next`. */
  ghost predicate Lead(input: seq<string>, anchors: seq<string>, required: bool, cursor: nat, next: nat) {
    exists stops: seq<nat> ::
      Follows(input, anchors, required, stops) && |stops| == |anchors| + 1 && stops[0] == cursor && stops[|anchors|] == next
  }

  /** One of them, required, is missing where those before it led. */
  ghost predicate OneMissing(input: seq<string>, anchors: seq<string>, required: bool, cursor: nat) {
    exists stops: seq<nat> ::
      && Follows(input, anchors, required, stops) && |stops| <= |anchors| && stops[0] == cursor
      && required && Missing(input, stops[|stops| - 1], anchors[|stops| - 1], |stops| > 1)
  }

  lemma {:induction false} SeekFollows(input: seq<string>, anchors: seq<string>, required: bool, stops: seq<nat>)
    requires Follows(input, anchors, required, stops) && stops[|stops| - 1] <= |input|
    ensures var r := Seek(anchors, |stops| - 1, input, stops[|stops| - 1], required);
            if r.Some? then Lead(input, anchors, required, stops[0], r.value) else OneMissing(input, anchors, required, stops[0])
    decreases |anchors| - |stops|
  {
    hide Advance, Moves, Missing;
    var i := |stops| - 1;
    if i < |anchors| {
      AnchorMoves(input, stops[i], anchors[i], i > 0, required);
      var next := Advance(anchors[i], input, stops[i], required, i > 0);
      if next.Some? {
        SeekFollows(input, anchors, required, stops + [next.value]);
      }
    }
  }

  /** All the anchors of a section: they lead to where its search starts, or a required one is missing. */
  lemma AnchorsLead(input: seq<string>, anchors: seq<string>, required: bool, cursor: nat)
    requires cursor <= |input|
    ensures var r := Seek(anchors, 0, input, cursor, required);
            if r.Some? then Lead(input, anchors, required, cursor, r.value) else OneMissing(input, anchors, required, cursor)
  {
    SeekFollows(input, anchors, required, [cursor]);
  }

  lemma {:induction false} SameStops(input: seq<string>, anchors: seq<string>, required: bool, a: seq<nat>, b: seq<nat>, i: nat)
    requires Follows(input, anchors, required, a) && Follows(input, anchors, required, b) && a[0] == b[0] && i < |a| && i < |b|
    ensures a[i] == b[i]
  {
    hide Moves;
    if i > 0 {
      SameStops(input, anchors, required, a, b, i - 1);
      assert Moves(input, a[i - 1], anchors[i - 1], i - 1 > 0, required, a[i]);
      assert Moves(input, b[i - 1], anchors[i - 1], i - 1 > 0, required, b[i]);
      MovesOneWay(input, a[i - 1], anchors[i - 1], i - 1 > 0, required, a[i], b[i]);
    }
  }

  // ---------------------------------------------------------------- the sections of a diff

  function Whole(s: string): string {
    s
  }

  ghost predicate Fits(input: seq<string>, context: seq<string>, cut: string -> string, at: nat) {
    at + |context| <= |input| && forall j :: 0 <= j < |context| ==> cut(input[at + j]) == cut(context[j])
  }

  ghost predicate Occurs(input: seq<string>, context: seq<string>, from: nat, cut: string -> string) {
    exists k :: from <= k && Fits(input, context, cut, k)
  }

  ghost predicate First(input: seq<string>, context: seq<string>, from: nat, cut: string -> string, at: nat) {
    && from <= at && Fits(input, context, cut, at)
    && forall k :: from <= k < at ==> !Fits(input, context, cut, k)
  }

  /** The first match of a context from a line on: exactly, else but for trailing blanks, else but for blanks at both ends. */
  ghost predicate FirstOf(input: seq<string>, context: seq<string>, from: nat, at: nat) {
    if context == [] then at == from
    else if Occurs(input, context, from, Whole) then First(input, context, from, Whole, at)
    else if Occurs(input, context, from, TrimEnd) then First(input, context, from, TrimEnd, at)
    else First(input, context, from, Trim, at)
  }

  ghost predicate Matches(input: seq<string>, context: seq<string>, from: nat) {
    context == [] || Occurs(input, context, from, Whole) || Occurs(input, context, from, TrimEnd) || Occurs(input, context, from, Trim)
  }

  /** A section marked as the last of its file is looked for among the last lines first. */
  ghost predicate Found(input: seq<string>, context: seq<string>, cursor: nat, eof: bool, at: nat) {
    var tail := if |input| < |context| then 0 else |input| - |context|;
    if eof && Matches(input, context, tail) then FirstOf(input, context, tail, at) else FirstOf(input, context, cursor, at)
  }

  lemma TierFits(t: Tier, cut: string -> string, input: seq<string>, context: seq<string>, from: nat)
    requires forall s :: Mapped(t, s) == cut(s)
    ensures var r := Search(t, input, context, from);
            (r.Some? <==> Occurs(input, context, from, cut)) && (r.Some? ==> First(input, context, from, cut, r.value))
  {
    hide Mapped, Search;
    forall k: nat
      ensures EqualsSlice(t, input, context, k) <==> Fits(input, context, cut, k)
    {
    }
  }

  lemma ContextFound(input: seq<string>, context: seq<string>, from: nat)
    ensures var r := FindContextCore(input, context, from);
            (r.Some? <==> Matches(input, context, from)) && (r.Some? ==> FirstOf(input, context, from, r.value))
  {
    hide Search, Occurs, First;
    TierFits(Exact, Whole, input, context, from);
    TierFits(EndTrimmed, TrimEnd, input, context, from);
    TierFits(Trimmed, Trim, input, context, from);
  }

  lemma FirstOfOnce(input: seq<string>, context: seq<string>, from: nat, a: nat, b: nat)
    requires FirstOf(input, context, from, a) && FirstOf(input, context, from, b)
    ensures a == b && Matches(input, context, from)
  {
    hide Fits;
  }

  /** The search for a context finds what these rules say, or nothing matches. */
  lemma FoundIff(input: seq<string>, context: seq<string>, cursor: nat, eof: bool, at: nat)
    ensures FindContext(input, context, cursor, eof) == Some(at) <==> Found(input, context, cursor, eof, at)
  {
    hide FindContextCore, FirstOf, Matches;
    var tail := if |input| < |context| then 0 else |input| - |context|;
    ContextFound(input, context, cursor);
    ContextFound(input, context, tail);
    if Found(input, context, cursor, eof, at) {
      if eof && Matches(input, context, tail) {
        FirstOfOnce(input, context, tail, at, FindContextCore(input, context, tail).value);
      } else {
        FirstOfOnce(input, context, cursor, at, at);
        FirstOfOnce(input, context, cursor, at, FindContextCore(input, context, cursor).value);
      }
    }
  }

  /**
   The sections of a diff, from a line on to its end, each where its own anchor lines lead from the
   end of the section before it, and its context is found from there.  Only a section at the top of
   the file needs no anchor line, and two or more of them are all required.
   */
  ghost predicate SitInTurn(lines: seq<string>, index: nat, input: seq<string>, cursor: nat, ps: seq<Placed>)
    requires index <= |lines|
    decreases |ps|
  {
    if ps == [] then IsDone(lines, index, END_SECTION_MARKERS)
    else
      var start := AnchorsEnd(lines, index);
      && !IsDone(lines, index, END_SECTION_MARKERS) && (start > index || cursor == 0) && SectionAt(lines, start).Some?
      && ps[0].edits == SectionAt(lines, start).value.edits && ps[0].eof == SectionAt(lines, start).value.eof
      && Lead(input, AnchorTexts(lines[index..start]), start - index > 1, cursor, ps[0].cursor)
      && Found(input, Old(ps[0].edits), ps[0].cursor, ps[0].eof, ps[0].at)
      && SitInTurn(lines, SectionAt(lines, start).value.end, input, WindowEnd(ps[0]), ps[1..])
  }

  lemma LeadOnce(input: seq<string>, anchors: seq<string>, required: bool, cursor: nat, next: nat)
    requires cursor <= |input|
    ensures Lead(input, anchors, required, cursor, next) <==> Seek(anchors, 0, input, cursor, required) == Some(next)
  {
    hide Seek, Follows, OneMissing;
    AnchorsLead(input, anchors, required, cursor);
    var from := Seek(anchors, 0, input, cursor, required);
    if Lead(input, anchors, required, cursor, next) {
      NoneMissing(input, anchors, required, cursor, next);
      LeadsOneWay(input, anchors, required, cursor, next, from.value);
    }
  }

  lemma LeadsOneWay(input: seq<string>, anchors: seq<string>, required: bool, cursor: nat, a: nat, b: nat)
    requires Lead(input, anchors, required, cursor, a) && Lead(input, anchors, required, cursor, b)
    ensures a == b
  {
    hide Follows;
    var s: seq<nat> :| Follows(input, anchors, required, s) && |s| == |anchors| + 1 && s[0] == cursor && s[|anchors|] == a;
    var t: seq<nat> :| Follows(input, anchors, required, t) && |t| == |anchors| + 1 && t[0] == cursor && t[|anchors|] == b;
    SameStops(input, anchors, required, s, t, |anchors|);
  }

  lemma {:induction false} PlacesIff(lines: seq<string>, index: nat, input: seq<string>, cursor: nat, ps: seq<Placed>)
    requires index <= |lines| && cursor <= |input|
    ensures Place(lines, index, input, cursor) == Some(ps) <==> SitInTurn(lines, index, input, cursor, ps)
    decreases |ps|
  {
    hide SectionAt, FindContext, Seek, AnchorsEnd, AnchorTexts, IsDone, Old, Lead, Found;
    if ps != [] && !IsDone(lines, index, END_SECTION_MARKERS) && SectionAt(lines, AnchorsEnd(lines, index)).Some? {
      var start := AnchorsEnd(lines, index);
      var s, p := SectionAt(lines, start).value, ps[0];
      LeadOnce(input, AnchorTexts(lines[index..start]), start - index > 1, cursor, p.cursor);
      FoundIff(input, Old(s.edits), p.cursor, s.eof, p.at);
      if p.cursor <= |input| && FindContext(input, Old(s.edits), p.cursor, s.eof) == Some(p.at) {
        PlacesIff(lines, s.end, input, p.at + |Old(s.edits)|, ps[1..]);
        assert [p] + ps[1..] == ps;
      }
    }
  }

  /** A diff parses into exactly the sections that sit in turn, from its first line to its end, and is refused when none do. */
  lemma ParsesIff(lines: seq<string>, input: string, ps: seq<Placed>)
    ensures ParsedUpdate(lines, input) == Some(ps) <==> SitInTurn(lines + [END_PATCH], 0, Split(input), 0, ps)
  {
    hide Split, SitInTurn, Place;
    PlacesIff(lines + [END_PATCH], 0, Split(input), 0, ps);
  }

  /** With two or more anchor lines, an anchor that is nowhere refuses the diff from this section on. */
  lemma MissingAnchorRefuses(lines: seq<string>, index: nat, input: seq<string>, cursor: nat)
    requires index <= |lines| && cursor <= |input| && !IsDone(lines, index, END_SECTION_MARKERS)
    requires var start := AnchorsEnd(lines, index); OneMissing(input, AnchorTexts(lines[index..start]), start - index > 1, cursor)
    ensures Place(lines, index, input, cursor) == None
  {
    hide SectionAt, FindContext, Seek, AnchorsEnd, AnchorTexts, IsDone, Old, Follows, Moves, Missing;
    var start := AnchorsEnd(lines, index);
    var anchors, required := AnchorTexts(lines[index..start]), start - index > 1;
    AnchorsLead(input, anchors, required, cursor);
    var from := Seek(anchors, 0, input, cursor, required);
    if from.Some? {
      NoneMissing(input, anchors, required, cursor, from.value);
    }
  }

  lemma NoneMissing(input: seq<string>, anchors: seq<string>, required: bool, cursor: nat, next: nat)
    requires Lead(input, anchors, required, cursor, next) && cursor <= |input|
    ensures !OneMissing(input, anchors, required, cursor)
  {
    hide Moves, Missing;
    var a: seq<nat> :| Follows(input, anchors, required, a) && |a| == |anchors| + 1 && a[0] == cursor && a[|anchors|] == next;
    forall b: seq<nat> | Follows(input, anchors, required, b) && |b| <= |anchors| && b[0] == cursor
      ensures !(required && Missing(input, b[|b| - 1], anchors[|b| - 1], |b| > 1))
    {
      var i := |b| - 1;
      SameStops(input, anchors, required, a, b, i);
      assert Moves(input, a[i], anchors[i], i > 0, required, a[i + 1]);
      StopsWithin(input, anchors, required, a, i);
      NotMissing(input, a[i], anchors[i], i > 0, required, a[i + 1]);
    }
  }

  lemma NotMissing(input: seq<string>, cursor: nat, anchor: string, later: bool, required: bool, next: nat)
    requires Moves(input, cursor, anchor, later, required, next) && cursor <= |input|
    ensures !(required && Missing(input, cursor, anchor, later))
  {
    hide Between, JustPastFirst;
    Halves(input, cursor, anchor, false);
    Halves(input, cursor, anchor, true);
  }

  lemma {:induction false} StopsWithin(input: seq<string>, anchors: seq<string>, required: bool, stops: seq<nat>, i: nat)
    requires Follows(input, anchors, required, stops) && stops[0] <= |input| && i < |stops|
    ensures stops[i] <= |input|
  {
    if i > 0 {
      StopsWithin(input, anchors, required, stops, i - 1);
      assert Moves(input, stops[i - 1], anchors[i - 1], i - 1 > 0, required, stops[i]);
    }
  }

  // ---------------------------------------------------------------- a printed diff with anchors

  function AnchorLines(anchors: seq<string>): (r: seq<string>)
    ensures |r| == |anchors|
  {
    seq(|anchors|, i requires 0 <= i < |anchors| => "@@ " + anchors[i])
  }

  /** An anchor that can be printed: one line, and not blank. */
  predicate Printable(anchor: string) {
    Carriable(anchor) && Trim(anchor) != ""
  }

  lemma PrintedAnchor(anchor: string)
    requires Printable(anchor)
    ensures IsAnchor("@@ " + anchor) && AnchorText("@@ " + anchor) == anchor && Carriable("@@ " + anchor)
    ensures ("@@ " + anchor)[0] == '@'
  {
    assert ("@@ " + anchor)[..3] == "@@ " && ("@@ " + anchor)[3..] == anchor;
    assert Trim("") == "";
  }

  lemma {:induction false} PrintedAnchors(anchors: seq<string>, after: seq<string>)
    requires forall i :: 0 <= i < |anchors| ==> Printable(anchors[i])
    ensures forall i :: 0 <= i < |anchors| ==> IsAnchor(AnchorLines(anchors)[i])
    ensures AnchorTexts(AnchorLines(anchors)) == anchors
    decreases |anchors|
  {
    hide Trim, Carriable;
    forall i | 0 <= i < |anchors|
      ensures IsAnchor(AnchorLines(anchors)[i])
    {
      PrintedAnchor(anchors[i]);
    }
    if anchors != [] {
      var before, last := anchors[..|anchors| - 1], anchors[|anchors| - 1];
      PrintedAnchors(before, after);
      PrintedAnchor(last);
      assert AnchorLines(anchors) == AnchorLines(before) + ["@@ " + last];
      AnchorTextsSnoc(AnchorLines(before), "@@ " + last);
    }
  }

  lemma {:induction false} AnchorsRunOn(lines: seq<string>, from: nat, end: nat)
    requires from <= end < |lines| && !IsAnchor(lines[end]) && forall k :: from <= k < end ==> IsAnchor(lines[k])
    ensures AnchorsEnd(lines, from) == end
    decreases end - from
  {
    hide IsAnchor;
    if from < end {
      AnchorsRunOn(lines, from + 1, end);
    }
  }

  /** The diff of a script after its anchors, ended in either way. */
  predicate PrintsAfter(anchors: seq<string>, es: seq<Edit>, diff: string) {
    diff == Join(AnchorLines(anchors) + Print(es)) || diff == Join(AnchorLines(anchors) + Print(es) + [""])
  }

  lemma AnchoredSurvives(anchors: seq<string>, es: seq<Edit>, diff: string)
    requires es != [] && AllCarriable(es) && (forall i :: 0 <= i < |anchors| ==> Printable(anchors[i])) && PrintsAfter(anchors, es, diff)
    ensures NormalizeDiffLines(diff) == AnchorLines(anchors) + Print(es)
  {
    hide NormalizeDiffLines, Join, Printed, Carriable, Trim;
    var lines := AnchorLines(anchors) + Print(es);
    forall i | 0 <= i < |lines|
      ensures Carriable(lines[i]) && lines[i] != ""
    {
      if i < |anchors| {
        PrintedAnchor(anchors[i]);
      } else {
        PrintedLine(es[i - |anchors|]);
      }
    }
    NormalizeKeeps(lines);
    NormalizeDropsFinalNewline(lines);
  }

  /** The lines the anchors name: each the first exact occurrence after the one before. */
  ghost predicate NamedLines(orig: seq<string>, anchors: seq<string>, at: seq<nat>) {
    && |at| == |anchors|
    && forall i :: 0 <= i < |at| ==>
         && (i > 0 ==> at[i - 1] < at[i]) && at[i] < |orig| && orig[at[i]] == anchors[i]
         && forall k :: (if i == 0 then 0 else at[i - 1] + 1) <= k < at[i] ==> orig[k] != anchors[i]
  }

  /** The line after the last named one. */
  function AfterAll(at: seq<nat>): nat {
    if at == [] then 0 else at[|at| - 1] + 1
  }

  lemma {:induction false} SeekNamed(orig: seq<string>, anchors: seq<string>, at: seq<nat>, i: nat, required: bool)
    requires NamedLines(orig, anchors, at) && i <= |anchors|
    ensures AfterAll(at[..i]) <= |orig|
    ensures Seek(anchors, i, orig, AfterAll(at[..i]), required) == Some(AfterAll(at))
    decreases |anchors| - i
  {
    hide Advance, Reads, JustPastFirst;
    if i == |anchors| {
      assert at[..i] == at;
    } else {
      var cursor := AfterAll(at[..i]);
      AnchorMoves(orig, cursor, anchors[i], i > 0, required);
      NamedNext(orig, anchors[i], cursor, i > 0, required, at[i], Advance(anchors[i], orig, cursor, required, i > 0));
      assert at[..i + 1][i] == at[i];
      SeekNamed(orig, anchors, at, i + 1, required);
    }
  }

  lemma NamedNext(orig: seq<string>, anchor: string, cursor: nat, later: bool, required: bool, at: nat, r: Option<nat>)
    requires cursor <= at < |orig| && orig[at] == anchor && (forall k :: cursor <= k < at ==> orig[k] != anchor)
    requires later || cursor == 0
    requires if r.Some? then Moves(orig, cursor, anchor, later, required, r.value) else required && Missing(orig, cursor, anchor, later)
    ensures r == Some(at + 1)
  {
    assert Reads(orig[at], anchor, false);
    assert Between(orig, cursor, |orig|, anchor, false);
  }

  lemma AnchoredIsPlaced(anchors: seq<string>, es: seq<Edit>, input: string, named: seq<nat>, at: nat)
    requires es != [] && anchors != [] && (forall i :: 0 <= i < |anchors| ==> Printable(anchors[i]))
    requires NamedLines(Split(input), anchors, named) && AfterAll(named) <= |Split(input)|
    requires FindContext(Split(input), Old(es), AfterAll(named), false) == Some(at)
    ensures ParsedUpdate(AnchorLines(anchors) + Print(es), input) == Some([Placed(AfterAll(named), at, es, false)])
  {
    hide FindContext, Split, SectionAt, Old, Seek, Carriable, Trim, NamedLines, IsAnchor, IsDone, Place, Printable, EditOf, Stops;
    var before, n := AnchorLines(anchors), |anchors|;
    var lines, orig := before + Print(es) + [END_PATCH], Split(input);
    PrintedAnchor(anchors[0]);
    assert lines[0] == before[0] == "@@ " + anchors[0];
    NotDone(lines, 0);
    PrintedAnchors(anchors, []);
    PrintedLine(es[0]);
    assert lines[n] == Printed(es[0]);
    AnchorsRunOn(lines, 0, n);
    assert lines[0..n] == before;
    SeekNamed(orig, anchors, named, 0, n > 1);
    assert named[..0] == [];
    PrintedSection(before, es);
    EndsAtPatchEnd(lines, n + |es|, orig, at + |Old(es)|);
    PlaceStep(lines, 0, orig, 0, AfterAll(named), Section(es, n + |es|, false), at, []);
    assert [Placed(AfterAll(named), at, es, false)] + [] == [Placed(AfterAll(named), at, es, false)];
  }

  predicate Holds(orig: seq<string>, at: nat, lines: seq<string>) {
    at + |lines| <= |orig| && orig[at..at + |lines|] == lines
  }

  /**
   A printed diff with anchors rewrites the first exact match of its old lines after the line the
   last anchor names, and nothing else: every line before and after that window is kept.
   */
  lemma AnchoredRoundTrip(anchors: seq<string>, es: seq<Edit>, diff: string, orig: seq<string>, named: seq<nat>, at: nat)
    requires anchors != [] && Old(es) != [] && AllCarriable(es) && (forall i :: 0 <= i < |anchors| ==> Printable(anchors[i]))
    requires PrintsAfter(anchors, es, diff) && orig != [] && forall i :: 0 <= i < |orig| ==> '\n' !in orig[i]
    requires NamedLines(orig, anchors, named)
    requires AfterAll(named) <= at && Holds(orig, at, Old(es)) && forall k :: AfterAll(named) <= k < at ==> !Holds(orig, k, Old(es))
    ensures Patched(Join(orig), diff, DefaultMode) == Some(Join(orig[..at] + New(es) + orig[at + |Old(es)|..]))
  {
    hide Join, Split, Rewrite, Rewritten, ParsedUpdate, NormalizeDiffLines, Patched, EofFits, Printed, Carriable, Trim,
         NamedLines;
    SplitJoin(orig);
    AnchoredSurvives(anchors, es, diff);
    ExactContext(orig, Old(es), AfterAll(named), at);
    AnchoredIsPlaced(anchors, es, Join(orig), named, at);
    OneWindow(orig, es, AfterAll(named), at);
    UpdateMeaning(Join(orig), diff);
    RewriteOld(es);
  }

  lemma ExactContext(input: seq<string>, context: seq<string>, from: nat, at: nat)
    requires context != [] && from <= at && Holds(input, at, context) && forall k :: from <= k < at ==> !Holds(input, k, context)
    ensures FindContext(input, context, from, false) == Some(at)
  {
    hide Search, Holds, EqualsSlice;
    forall k: nat
      ensures EqualsSlice(Exact, input, context, k) <==> Holds(input, k, context)
    {
      ExactHolds(input, context, k);
    }
  }

  lemma ExactHolds(input: seq<string>, context: seq<string>, k: nat)
    ensures EqualsSlice(Exact, input, context, k) <==> Holds(input, k, context)
  {
    if Holds(input, k, context) {
      forall j | 0 <= j < |context|
        ensures input[k + j] == context[j]
      {
        assert input[k..k + |context|][j] == context[j];
      }
    }
  }
}
