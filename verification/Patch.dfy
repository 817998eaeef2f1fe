/** The V4A diff parser: sections, anchors, context search and chunk application
    (v4a-section.ts, v4a-context.ts, v4a-parse.ts, apply-diff.ts). `None` stands for a thrown error. */
module Patch {
  import opened Types
  import opened PatchText

  // ---------------------------------------------------------------- edits and sections

  datatype LineMode = Keep | Delete | Add
  datatype Edit = Edit(mode: LineMode, text: string)
  datatype Chunk = Chunk(origIndex: nat, del: seq<string>, ins: seq<string>)

  /** The edit a diff line stands for; an empty line is an empty kept line. */
  function EditOf(raw: string): Option<Edit> {
    if raw == "" then Some(Edit(Keep, ""))
    else if raw[0] == '+' then Some(Edit(Add, raw[1..]))
    else if raw[0] == '-' then Some(Edit(Delete, raw[1..]))
    else if raw[0] == ' ' then Some(Edit(Keep, raw[1..]))
    else None
  }

  /** The lines an edit script expects to find, and the lines it leaves. */
  function Old(es: seq<Edit>): (r: seq<string>)
    ensures |r| <= |es|
  {
    if es == [] then [] else
      var e := es[|es| - 1];
      Old(es[..|es| - 1]) + if e.mode.Add? then [] else [e.text]
  }

  function New(es: seq<Edit>): seq<string> {
    if es == [] then [] else
      var e := es[|es| - 1];
      New(es[..|es| - 1]) + if e.mode.Delete? then [] else [e.text]
  }

  /** The section state after some lines: the context read, the pending deletions and insertions, the chunks flushed. */
  datatype Gathered = Gathered(context: seq<string>, del: seq<string>, ins: seq<string>, mode: LineMode, chunks: seq<Chunk>)

  ghost predicate Balanced(g: Gathered) {
    |g.del| <= |g.context| && (g.mode.Keep? ==> g.del == [] && g.ins == [])
  }

  function Flushed(g: Gathered): Gathered
    requires |g.del| <= |g.context|
  {
    if g.del == [] && g.ins == [] then g
    else g.(del := [], ins := [], chunks := g.chunks + [Chunk(|g.context| - |g.del|, g.del, g.ins)])
  }

  function Consumed(g: Gathered, e: Edit): Gathered
    requires |g.del| <= |g.context|
  {
    var f := if e.mode.Keep? && !g.mode.Keep? then Flushed(g) else g;
    match e.mode
    case Delete => f.(mode := Delete, del := f.del + [e.text], context := f.context + [e.text])
    case Add => f.(mode := Add, ins := f.ins + [e.text])
    case Keep => f.(mode := Keep, context := f.context + [e.text])
  }

  function Gather(es: seq<Edit>): (g: Gathered)
    ensures Balanced(g)
    ensures g.context == Old(es)
  {
    if es == [] then Gathered([], [], [], Keep, []) else Consumed(Gather(es[..|es| - 1]), es[|es| - 1])
  }

  function SectionChunks(es: seq<Edit>): seq<Chunk> {
    Flushed(Gather(es)).chunks
  }

  class SectionState {
    var context: seq<string>
    var delLines: seq<string>
    var insLines: seq<string>
    var mode: LineMode
    var sectionChunks: seq<Chunk>

    function View(): Gathered
      reads this
    {
      Gathered(context, delLines, insLines, mode, sectionChunks)
    }

    constructor ()
      ensures View() == Gather([])
    {
      context, delLines, insLines, mode, sectionChunks := [], [], [], Keep, [];
    }

    method FlushChunk()
      requires |delLines| <= |context|
      modifies this
      ensures View() == Flushed(old(View()))
    {
      if insLines == [] && delLines == [] {
        return;
      }
      sectionChunks := sectionChunks + [Chunk(|context| - |delLines|, delLines, insLines)];
      delLines := [];
      insLines := [];
    }

    /** One line of a section; false stands for the error on a line without a prefix. */
    method ConsumeSectionLine(raw: string) returns (ok: bool)
      requires raw != "" && |delLines| <= |context|
      modifies this
      ensures ok == EditOf(raw).Some?
      ensures ok ==> View() == Consumed(old(View()), EditOf(raw).value)
    {
      var lastMode := mode;
      if raw[0] == '+' {
        mode := Add;
      } else if raw[0] == '-' {
        mode := Delete;
      } else if raw[0] == ' ' {
        mode := Keep;
      } else {
        return false;
      }
      var line := raw[1..];
      if mode.Keep? && lastMode != mode {
        FlushChunk();
      }
      if mode.Delete? {
        delLines := delLines + [line];
        context := context + [line];
      } else if mode.Add? {
        insLines := insLines + [line];
      } else {
        context := context + [line];
      }
      return true;
    }
  }

  predicate IsSectionBoundary(raw: string) {
    || StartsWith(raw, "@@") || StartsWith(raw, END_PATCH) || StartsWith(raw, UPDATE_FILE)
    || StartsWith(raw, DELETE_FILE) || StartsWith(raw, ADD_FILE) || StartsWith(raw, END_FILE)
  }

  predicate Stops(raw: string) {
    IsSectionBoundary(raw) || raw == "***"
  }

  function SectionEnd(lines: seq<string>, from: nat): (r: nat)
    requires from <= |lines|
    ensures from <= r <= |lines|
    ensures forall k :: from <= k < r ==> !Stops(lines[k])
    ensures r < |lines| ==> Stops(lines[r])
    decreases |lines| - from
  {
    if from == |lines| || Stops(lines[from]) then from else SectionEnd(lines, from + 1)
  }

  datatype Section = Section(edits: seq<Edit>, end: nat, eof: bool)

  predicate Legible(lines: seq<string>) {
    forall k :: 0 <= k < |lines| ==> EditOf(lines[k]).Some?
  }

  function EditsOf(lines: seq<string>): (r: seq<Edit>)
    requires Legible(lines)
    ensures |r| == |lines|
  {
    seq(|lines|, i requires 0 <= i < |lines| => EditOf(lines[i]).value)
  }

  /** The section that starts at a line: all lines up to the next boundary must be edits, and an end-of-file
      marker after them belongs to the section; an empty section needs that marker. */
  function SectionAt(lines: seq<string>, from: nat): (r: Option<Section>)
    requires from <= |lines|
    ensures r.Some? ==> from < r.value.end <= |lines|
  {
    var end := SectionEnd(lines, from);
    if !Legible(lines[from..end]) then None
    else if end < |lines| && lines[end] == END_FILE then Some(Section(EditsOf(lines[from..end]), end + 1, true))
    else if end == from then None
    else Some(Section(EditsOf(lines[from..end]), end, false))
  }

  lemma EditsOfSnoc(lines: seq<string>, raw: string)
    requires Legible(lines) && EditOf(raw).Some?
    ensures Legible(lines + [raw])
    ensures EditsOf(lines + [raw]) == EditsOf(lines) + [EditOf(raw).value]
  {
  }

  lemma StarsAreNoEdit(raw: string)
    requires StartsWith(raw, "***")
    ensures EditOf(raw).None?
  {
    assert raw[0] == "***"[0] == '*';
  }

  lemma BlankIsKept(raw: string)
    ensures EditOf(raw) == EditOf(if raw == "" then " " else raw)
  {
    assert " "[1..] == "";
  }

  method ReadSection(lines: seq<string>, startIndex: nat)
    returns (ok: bool, nextContext: seq<string>, sectionChunks: seq<Chunk>, endIndex: nat, eof: bool)
    requires startIndex <= |lines|
    ensures ok == SectionAt(lines, startIndex).Some?
    ensures ok ==>
      var s := SectionAt(lines, startIndex).value;
      nextContext == Old(s.edits) && sectionChunks == SectionChunks(s.edits) && endIndex == s.end && eof == s.eof
  {
    hide Gather, Old, EditsOf, EditOf, Consumed, IsSectionBoundary;
    var state := new SectionState();
    var index := startIndex;
    ok, nextContext, sectionChunks, endIndex, eof := false, [], [], startIndex, false;
    assert EditsOf(lines[startIndex..index]) == [];
    while index < |lines| && !Stops(lines[index])
      invariant startIndex <= index <= |lines|
      invariant SectionEnd(lines, startIndex) == SectionEnd(lines, index)
      invariant Legible(lines[startIndex..index])
      invariant state.View() == Gather(EditsOf(lines[startIndex..index]))
    {
      var raw := lines[index];
      assert raw in lines[startIndex..SectionEnd(lines, startIndex)] by {
        assert lines[startIndex..SectionEnd(lines, startIndex)][index - startIndex] == raw;
      }
      if StartsWith(raw, "***") {
        StarsAreNoEdit(raw);
        return;
      }
      BlankIsKept(raw);
      var consumed := state.ConsumeSectionLine(if raw == "" then " " else raw);
      if !consumed {
        return;
      }
      assert lines[startIndex..index + 1] == lines[startIndex..index] + [raw];
      EditsOfSnoc(lines[startIndex..index], raw);
      GatherSnoc(EditsOf(lines[startIndex..index]), EditOf(raw).value);
      index := index + 1;
    }
    state.FlushChunk();
    nextContext, sectionChunks := state.context, state.sectionChunks;
    if index < |lines| && lines[index] == END_FILE {
      return true, nextContext, sectionChunks, index + 1, true;
    }
    if index == startIndex {
      return;
    }
    return true, nextContext, sectionChunks, index, false;
  }

  lemma GatherSnoc(es: seq<Edit>, e: Edit)
    ensures Gather(es + [e]) == Consumed(Gather(es), e)
  {
    assert (es + [e])[..|es|] == es;
  }

  // ---------------------------------------------------------------- anchors

  predicate IsAnchor(line: string) {
    StartsWith(line, "@@ ") || line == "@@"
  }

  function AnchorText(line: string): string
    requires IsAnchor(line)
  {
    if line == "@@" then "" else line[3..]
  }

  /** The first line, from an index on, that is no anchor. */
  function AnchorsEnd(lines: seq<string>, from: nat): (r: nat)
    requires from <= |lines|
    ensures from <= r <= |lines|
    ensures forall k :: from <= k < r ==> IsAnchor(lines[k])
    ensures r < |lines| ==> !IsAnchor(lines[r])
    decreases |lines| - from
  {
    if from < |lines| && IsAnchor(lines[from]) then AnchorsEnd(lines, from + 1) else from
  }

  /** The anchor texts that are not blank. */
  function AnchorTexts(lines: seq<string>): seq<string>
    requires forall k :: 0 <= k < |lines| ==> IsAnchor(lines[k])
  {
    if lines == [] then [] else
      var text := AnchorText(lines[|lines| - 1]);
      AnchorTexts(lines[..|lines| - 1]) + if Trim(text) == "" then [] else [text]
  }

  lemma AnchorTextIs(line: string)
    requires IsAnchor(line)
    ensures AnchorText(line) == if StartsWith(line, "@@ ") then line[|"@@ "|..] else ""
  {
  }

  lemma AnchorTextsSnoc(lines: seq<string>, line: string)
    requires IsAnchor(line) && forall k :: 0 <= k < |lines| ==> IsAnchor(lines[k])
    ensures AnchorTexts([]) == []
    ensures AnchorTexts(lines + [line])
         == AnchorTexts(lines) + if Trim(AnchorText(line)) == "" then [] else [AnchorText(line)]
  {
    assert (lines + [line])[..|lines|] == lines;
  }

  class ParserState {
    const lines: seq<string>
    var index: nat

    constructor (lines: seq<string>)
      ensures this.lines == lines && index == 0
    {
      this.lines := lines;
      index := 0;
    }

    method ReadStr(prefix: string) returns (r: string)
      requires prefix != ""
      modifies this
      ensures if old(index) < |lines| && StartsWith(lines[old(index)], prefix)
              then index == old(index) + 1 && r == lines[old(index)][|prefix|..]
              else index == old(index) && r == ""
    {
      if index < |lines| && StartsWith(lines[index], prefix) {
        index := index + 1;
        return lines[index - 1][|prefix|..];
      }
      return "";
    }

    method ReadAnchors() returns (anchors: seq<string>, anchorCount: nat)
      requires index <= |lines|
      modifies this
      ensures index == AnchorsEnd(lines, old(index)) && anchors == AnchorTexts(lines[old(index)..index])
      ensures anchorCount == index - old(index)
    {
      hide AnchorTexts, AnchorText, Trim;
      anchors, anchorCount := [], 0;
      assert lines[old(index)..index] == [];
      AnchorTextsSnoc([], "@@");
      var searching := true;
      while searching
        invariant old(index) <= index <= |lines|
        invariant anchorCount == index - old(index)
        invariant AnchorsEnd(lines, old(index)) == AnchorsEnd(lines, index)
        invariant anchors == AnchorTexts(lines[old(index)..index])
        invariant !searching ==> index == |lines| || !IsAnchor(lines[index])
        decreases |lines| - index, searching
      {
        var startIndex := index;
        var anchor := ReadStr("@@ ");
        var consumed := index != startIndex;
        if !consumed && index < |lines| && lines[index] == "@@" {
          index := index + 1;
          consumed := true;
        }
        if consumed {
          anchorCount := anchorCount + 1;
          AnchorTextIs(lines[startIndex]);
          assert lines[old(index)..index] == lines[old(index)..startIndex] + [lines[startIndex]];
          AnchorTextsSnoc(lines[old(index)..startIndex], lines[startIndex]);
          if Trim(anchor) != "" {
            anchors := anchors + [anchor];
          }
        } else {
          searching := false;
        }
      }
    }
  }

  // ---------------------------------------------------------------- searching

  /** The three comparisons of the context search, strictest first. */
  datatype Tier = Exact | EndTrimmed | Trimmed

  function Mapped(t: Tier, s: string): string {
    match t
    case Exact => s
    case EndTrimmed => TrimEnd(s)
    case Trimmed => Trim(s)
  }

  predicate EqualsSlice(t: Tier, source: seq<string>, target: seq<string>, start: nat) {
    && start + |target| <= |source|
    && forall k :: 0 <= k < |target| ==> Mapped(t, source[start + k]) == Mapped(t, target[k])
  }

  /** `at` is the first place, from `start` on, where the target matches. */
  ghost predicate FirstMatch(t: Tier, source: seq<string>, target: seq<string>, start: nat, at: nat) {
    && start <= at && EqualsSlice(t, source, target, at)
    && forall k :: start <= k < at ==> !EqualsSlice(t, source, target, k)
  }

  ghost predicate NoMatch(t: Tier, source: seq<string>, target: seq<string>, start: nat) {
    forall k :: start <= k ==> !EqualsSlice(t, source, target, k)
  }

  function Search(t: Tier, source: seq<string>, target: seq<string>, start: nat): (r: Option<nat>)
    ensures r.Some? ==> FirstMatch(t, source, target, start, r.value)
    ensures r.None? ==> NoMatch(t, source, target, start)
    decreases |source| - start
  {
    if start + |target| > |source| then None
    else if EqualsSlice(t, source, target, start) then Some(start)
    else if start < |source| then Search(t, source, target, start + 1)
    else None
  }

  method Scan(t: Tier, source: seq<string>, target: seq<string>, start: nat) returns (r: Option<nat>)
    requires target != []
    ensures r == Search(t, source, target, start)
  {

    hide FirstMatch, NoMatch, Mapped;
    var index := start;
    while index < |source|
      invariant start <= index
      invariant Search(t, source, target, start) == Search(t, source, target, index)
    {
      if EqualsSlice(t, source, target, index) {
        assert index + |target| <= |source|;
        return Some(index);
      }
      index := index + 1;
    }
    return None;
  }

  /** Where a context is found: an empty one right at the start; otherwise the first exact match, else the first
      match up to trailing blanks, else the first match up to blanks at both ends. */
  function FindContextCore(lines: seq<string>, context: seq<string>, start: nat): (r: Option<nat>)
    ensures r.Some? && start <= |lines| ==> start <= r.value && r.value + |context| <= |lines|
  {
    if context == [] then Some(start)
    else if Search(Exact, lines, context, start).Some? then Search(Exact, lines, context, start)
    else if Search(EndTrimmed, lines, context, start).Some? then Search(EndTrimmed, lines, context, start)
    else Search(Trimmed, lines, context, start)
  }

  /** With an end-of-file marker the context is tried against the last lines of the file first. */
  function FindContext(lines: seq<string>, context: seq<string>, start: nat, eof: bool): (r: Option<nat>)
    ensures r.Some? && start <= |lines| ==> r.value + |context| <= |lines|
  {
    if !eof then FindContextCore(lines, context, start)
    else
      var endStart := if |lines| < |context| then 0 else |lines| - |context|;
      var endMatch := FindContextCore(lines, context, endStart);
      if endMatch.Some? then endMatch else FindContextCore(lines, context, start)
  }

  method SearchContextCore(lines: seq<string>, context: seq<string>, start: nat) returns (r: Option<nat>)
    ensures r == FindContextCore(lines, context, start)
  {
    if context == [] {
      return Some(start);
    }
    r := Scan(Exact, lines, context, start);
    if r.None? {
      r := Scan(EndTrimmed, lines, context, start);
    }
    if r.None? {
      r := Scan(Trimmed, lines, context, start);
    }
  }

  method SearchContext(lines: seq<string>, context: seq<string>, start: nat, eof: bool) returns (r: Option<nat>)
    ensures r == FindContext(lines, context, start, eof)
  {
    if eof {
      var endStart := if |lines| < |context| then 0 else |lines| - |context|;
      r := SearchContextCore(lines, context, endStart);
      if r.Some? {
        return;
      }
    }
    r := SearchContextCore(lines, context, start);
  }

  predicate HasLine(t: Tier, lines: seq<string>, anchor: string) {
    exists k :: 0 <= k < |lines| && Mapped(t, lines[k]) == Mapped(t, anchor)
  }

  /** Seen before the cursor, an anchor leaves it; otherwise the cursor moves past the first occurrence. */
  function AdvanceAt(t: Tier, anchor: string, lines: seq<string>, cursor: nat, force: bool): (r: Option<nat>)
    requires cursor <= |lines|
    ensures r.Some? ==> cursor <= r.value <= |lines|
  {
    if !force && HasLine(t, lines[..cursor], anchor) then Some(cursor)
    else
      var at := Search(t, lines, [anchor], cursor);
      if at.Some? then Some(at.value + 1) else None
  }

  function Advance(anchor: string, lines: seq<string>, cursor: nat, requireMatch: bool, force: bool): (r: Option<nat>)
    requires cursor <= |lines|
    ensures r.Some? ==> cursor <= r.value <= |lines|
  {
    if AdvanceAt(Exact, anchor, lines, cursor, force).Some? then AdvanceAt(Exact, anchor, lines, cursor, force)
    else if AdvanceAt(Trimmed, anchor, lines, cursor, force).Some? then AdvanceAt(Trimmed, anchor, lines, cursor, force)
    else if requireMatch then None
    else Some(cursor)
  }

  method ScanLine(t: Tier, lines: seq<string>, anchor: string, cursor: nat) returns (found: bool, nextCursor: nat)
    requires cursor <= |lines|
    ensures found == Search(t, lines, [anchor], cursor).Some?
    ensures nextCursor == if found then Search(t, lines, [anchor], cursor).value + 1 else cursor
  {
    hide FirstMatch, NoMatch, Mapped;
    var index := cursor;
    while index < |lines|
      invariant cursor <= index <= |lines|
      invariant Search(t, lines, [anchor], cursor) == Search(t, lines, [anchor], index)
    {
      assert EqualsSlice(t, lines, [anchor], index) <==> Mapped(t, lines[index]) == Mapped(t, anchor) by {
        assert [anchor][0] == anchor && lines[index + 0] == lines[index];
      }
      if Mapped(t, lines[index]) == Mapped(t, anchor) {
        return true, index + 1;
      }
      index := index + 1;
    }
    return false, cursor;
  }

  method AdvanceCursorToAnchor(anchor: string, lines: seq<string>, cursor: nat, requireMatch: bool, force: bool)
    returns (r: Option<nat>)
    requires cursor <= |lines|
    ensures r == Advance(anchor, lines, cursor, requireMatch, force)
  {
    hide Search, HasLine, Mapped, FirstMatch, NoMatch;
    var found := false;
    var nextCursor := cursor;
    if !force && HasLine(Exact, lines[..cursor], anchor) {
      found := true;
    } else {
      found, nextCursor := ScanLine(Exact, lines, anchor, cursor);
    }
    if !found {
      if !force && HasLine(Trimmed, lines[..cursor], anchor) {
        found := true;
      } else {
        found, nextCursor := ScanLine(Trimmed, lines, anchor, cursor);
      }
    }
    if requireMatch && !found {
      return None;
    }
    return Some(nextCursor);
  }

  /** The anchors from number `i` on, in turn; all but the first may only move the cursor forward. */
  function Seek(anchors: seq<string>, i: nat, lines: seq<string>, cursor: nat, requireMatch: bool): (r: Option<nat>)
    requires cursor <= |lines| && i <= |anchors|
    ensures r.Some? ==> cursor <= r.value <= |lines|
    decreases |anchors| - i
  {
    if i == |anchors| then Some(cursor)
    else
      var next := Advance(anchors[i], lines, cursor, requireMatch, i > 0);
      if next.None? then None else Seek(anchors, i + 1, lines, next.value, requireMatch)
  }

  // ---------------------------------------------------------------- parsing an update

  /** A section with the cursor its search started from and the place its context was found. */
  datatype Placed = Placed(cursor: nat, at: nat, edits: seq<Edit>, eof: bool)

  function WindowEnd(p: Placed): nat {
    p.at + |Old(p.edits)|
  }

  function Shifted(chunks: seq<Chunk>, offset: nat): (r: seq<Chunk>)
    ensures |r| == |chunks|
  {
    seq(|chunks|, i requires 0 <= i < |chunks| => chunks[i].(origIndex := chunks[i].origIndex + offset))
  }

  function AllChunks(ps: seq<Placed>): seq<Chunk> {
    if ps == [] then [] else
      var p := ps[|ps| - 1];
      AllChunks(ps[..|ps| - 1]) + Shifted(SectionChunks(p.edits), p.at)
  }

  /** What is left to parse decides the outcome: it fails with the rest, or adds the rest to what is done. */
  ghost predicate Continues<T>(whole: Option<seq<T>>, done: seq<T>, rest: Option<seq<T>>) {
    if rest.None? then whole.None? else whole == Some(done + rest.value)
  }

  lemma ContinuesFromStart<T>(whole: Option<seq<T>>)
    ensures Continues(whole, [], whole)
  {
    if whole.Some? {
      assert [] + whole.value == whole.value;
    }
  }

  lemma ContinuesToEnd<T>(whole: Option<seq<T>>, done: seq<T>)
    requires Continues(whole, done, Some([]))
    ensures whole == Some(done)
  {
    assert done + [] == done;
  }

  lemma FailsWithTheRest<T>(whole: Option<seq<T>>, done: seq<T>, rest: Option<seq<T>>)
    requires Continues(whole, done, rest)
    ensures rest.None? ==> whole.None?
  {
  }

  lemma ContinuesWith<T>(whole: Option<seq<T>>, done: seq<T>, x: T, rest: Option<seq<T>>)
    requires Continues(whole, done, if rest.None? then None else Some([x] + rest.value))
    ensures Continues(whole, done + [x], rest)
  {
    if rest.Some? {
      assert done + ([x] + rest.value) == done + [x] + rest.value;
    }
  }

  /** The sections of a diff from a line on, each placed in the input; None when the diff is refused. */
  function Place(lines: seq<string>, index: nat, input: seq<string>, cursor: nat): Option<seq<Placed>>
    requires index <= |lines| && cursor <= |input|
    decreases |lines| - index
  {
    if IsDone(lines, index, END_SECTION_MARKERS) then Some([])
    else
      var sectionStart := AnchorsEnd(lines, index);
      if sectionStart == index && cursor != 0 then None
      else
        var from := Seek(AnchorTexts(lines[index..sectionStart]), 0, input, cursor, sectionStart - index > 1);
        if from.None? then None
        else
          var section := SectionAt(lines, sectionStart);
          if section.None? then None
          else
            var context := Old(section.value.edits);
            var at := FindContext(input, context, from.value, section.value.eof);
            if at.None? then None
            else
              var rest := Place(lines, section.value.end, input, at.value + |context|);
              if rest.None? then None
              else Some([Placed(from.value, at.value, section.value.edits, section.value.eof)] + rest.value)
  }

  function ParsedUpdate(lines: seq<string>, input: string): Option<seq<Placed>> {
    Place(lines + [END_PATCH], 0, Split(input), 0)
  }

  method SeekAnchors(anchors: seq<string>, lines: seq<string>, start: nat, requireMatch: bool) returns (r: Option<nat>)
    requires start <= |lines|
    ensures r == Seek(anchors, 0, lines, start, requireMatch)
  {
    hide Advance;
    var cursor: nat := start;
    for i := 0 to |anchors|
      invariant cursor <= |lines|
      invariant Seek(anchors, 0, lines, start, requireMatch) == Seek(anchors, i, lines, cursor, requireMatch)
    {
      var next := AdvanceCursorToAnchor(anchors[i], lines, cursor, requireMatch, i > 0);
      if next.None? {
        return None;
      }
      cursor := next.value;
    }
    return Some(cursor);
  }

  lemma ParsedUpdateIs(lines: seq<string>, input: string)
    ensures ParsedUpdate(lines, input) == Place(lines + [END_PATCH], 0, Split(input), 0)
  {
  }

  method ParseUpdateDiff(lines: seq<string>, input: string) returns (ok: bool, chunks: seq<Chunk>)
    ensures ok == ParsedUpdate(lines, input).Some?
    ensures ok ==> chunks == AllChunks(ParsedUpdate(lines, input).value)
  {
    ParsedUpdateIs(lines, input);
    hide Split, SectionAt, FindContext, Seek, AnchorsEnd, AnchorTexts, IsDone, AllChunks, Old, SectionChunks, ParsedUpdate,
         Continues;
    var parser := new ParserState(lines + [END_PATCH]);
    var inputLines := Split(input);
    var cursor: nat := 0;
    chunks := [];
    ContinuesFromStart(ParsedUpdate(lines, input));
    ghost var done: seq<Placed> := [];
    AllChunksSnoc([], Placed(0, 0, [], false));
    while !IsDone(parser.lines, parser.index, END_SECTION_MARKERS)
      invariant parser.lines == lines + [END_PATCH] && parser.index <= |parser.lines| && cursor <= |inputLines|
      invariant chunks == AllChunks(done)
      invariant Continues(ParsedUpdate(lines, input), done, Place(parser.lines, parser.index, inputLines, cursor))
      decreases |parser.lines| - parser.index
    {
      FailsWithTheRest(ParsedUpdate(lines, input), done, Place(parser.lines, parser.index, inputLines, cursor));
      var anchors, anchorCount := parser.ReadAnchors();
      if !(anchorCount > 0 || cursor == 0) {
        return false, [];
      }
      var moved := SeekAnchors(anchors, inputLines, cursor, anchorCount > 1);
      if moved.None? {
        return false, [];
      }
      cursor := moved.value;
      var read, nextContext, sectionChunks, endIndex, eof := ReadSection(parser.lines, parser.index);
      if !read {
        return false, [];
      }
      var found := SearchContext(inputLines, nextContext, cursor, eof);
      if found.None? {
        return false, [];
      }
      ghost var placed := Placed(cursor, found.value, SectionAt(parser.lines, parser.index).value.edits, eof);
      AllChunksSnoc(done, placed);
      chunks := chunks + Shifted(sectionChunks, found.value);
      cursor := found.value + |nextContext|;
      parser.index := endIndex;
      ContinuesWith(ParsedUpdate(lines, input), done, placed, Place(parser.lines, parser.index, inputLines, cursor));
      done := done + [placed];
    }
    ContinuesToEnd(ParsedUpdate(lines, input), done);
    return true, chunks;
  }

  lemma AllChunksSnoc(ps: seq<Placed>, p: Placed)
    ensures AllChunks([]) == []
    ensures AllChunks(ps + [p]) == AllChunks(ps) + Shifted(SectionChunks(p.edits), p.at)
  {
    assert (ps + [p])[..|ps|] == ps;
  }

  // ---------------------------------------------------------------- applying chunks

  datatype Progress = Written(dest: seq<string>, origIndex: nat) | Broken

  function EmitOne(orig: seq<string>, p: Progress, c: Chunk): Progress {
    if p.Broken? || c.origIndex > |orig| || p.origIndex > c.origIndex then Broken
    else Written(p.dest + orig[p.origIndex..c.origIndex] + c.ins, c.origIndex + |c.del|)
  }

  function Emit(orig: seq<string>, from: Progress, chunks: seq<Chunk>): Progress {
    if chunks == [] then from
    else EmitOne(orig, Emit(orig, from, chunks[..|chunks| - 1]), chunks[|chunks| - 1])
  }

  /** The rest of a list from an index, empty past its end. */
  function From(lines: seq<string>, index: nat): seq<string> {
    if index <= |lines| then lines[index..] else []
  }

  function ChunksApplied(orig: seq<string>, chunks: seq<Chunk>): Option<seq<string>> {
    match Emit(orig, Written([], 0), chunks)
    case Broken => None
    case Written(dest, origIndex) => Some(dest + From(orig, origIndex))
  }

  lemma {:induction false} BrokenStays(orig: seq<string>, from: Progress, chunks: seq<Chunk>, n: nat)
    requires n <= |chunks| && Emit(orig, from, chunks[..n]).Broken?
    ensures Emit(orig, from, chunks).Broken?
    decreases |chunks|
  {
    if n < |chunks| {
      assert chunks[..|chunks| - 1][..n] == chunks[..n];
      BrokenStays(orig, from, chunks[..|chunks| - 1], n);
    } else {
      assert chunks[..n] == chunks;
    }
  }

  method ApplyChunks(input: string, chunks: seq<Chunk>) returns (ok: bool, output: string)
    ensures ok == ChunksApplied(Split(input), chunks).Some?
    ensures ok ==> output == Join(ChunksApplied(Split(input), chunks).value)
  {
    hide Split, Join;
    var origLines := Split(input);
    var destLines: seq<string> := [];
    var origIndex: nat := 0;
    var i := 0;
    while i < |chunks|
      invariant 0 <= i <= |chunks|
      invariant Emit(origLines, Written([], 0), chunks[..i]) == Written(destLines, origIndex)
    {
      var chunk := chunks[i];
      assert chunks[..i + 1][..i] == chunks[..i];
      if chunk.origIndex > |origLines| || origIndex > chunk.origIndex {
        BrokenStays(origLines, Written([], 0), chunks, i + 1);
        return false, "";
      }
      destLines := destLines + origLines[origIndex..chunk.origIndex];
      origIndex := chunk.origIndex;
      if |chunk.ins| > 0 {
        destLines := destLines + chunk.ins;
      }
      origIndex := origIndex + |chunk.del|;
      i := i + 1;
    }
    assert chunks[..i] == chunks;
    destLines := destLines + From(origLines, origIndex);
    return true, Join(destLines);
  }

  // ---------------------------------------------------------------- creating a file

  function CreatedLines(lines: seq<string>, index: nat): Option<seq<string>>
    requires index <= |lines|
    decreases |lines| - index
  {
    if IsDone(lines, index, SECTION_TERMINATORS) then Some([])
    else if !StartsWith(lines[index], "+") then None
    else
      var rest := CreatedLines(lines, index + 1);
      if rest.None? then None else Some([lines[index][1..]] + rest.value)
  }

  lemma NotDoneIsInside(lines: seq<string>, index: nat, prefixes: seq<string>)
    ensures !IsDone(lines, index, prefixes) ==> index < |lines|
  {
  }

  method ParseCreateDiff(lines: seq<string>) returns (ok: bool, content: string)
    ensures ok == CreatedLines(lines + [END_PATCH], 0).Some?
    ensures ok ==> content == Join(CreatedLines(lines + [END_PATCH], 0).value)
  {
    hide Join, IsDone;
    var all := lines + [END_PATCH];
    var index := 0;
    var output: seq<string> := [];
    ContinuesFromStart(CreatedLines(all, 0));
    while !IsDone(all, index, SECTION_TERMINATORS)
      invariant 0 <= index <= |all|
      invariant Continues(CreatedLines(all, 0), output, CreatedLines(all, index))
      decreases |all| - index
    {
      NotDoneIsInside(all, index, SECTION_TERMINATORS);
      var line := all[index];
      index := index + 1;
      if !StartsWith(line, "+") {
        return false, "";
      }
      ContinuesWith(CreatedLines(all, 0), output, line[1..], CreatedLines(all, index));
      output := output + [line[1..]];
    }
    ContinuesToEnd(CreatedLines(all, 0), output);
    return true, Join(output);
  }

  // ---------------------------------------------------------------- the whole

  datatype DiffMode = CreateMode | DefaultMode

  /** What a diff makes of a text; None when it cannot be applied. */
  function Patched(input: string, diff: string, mode: DiffMode): Option<string> {
    var lines := NormalizeDiffLines(diff);
    match mode
    case CreateMode =>
      var created := CreatedLines(lines + [END_PATCH], 0);
      if created.None? then None else Some(Join(created.value))
    case DefaultMode =>
      var parsed := ParsedUpdate(lines, input);
      if parsed.None? then None
      else
        var applied := ChunksApplied(Split(input), AllChunks(parsed.value));
        if applied.None? then None else Some(Join(applied.value))
  }

  method ApplyDiff(input: string, diff: string, mode: DiffMode) returns (r: Option<string>)
    ensures r == Patched(input, diff, mode)
  {
    hide NormalizeDiffLines, ParsedUpdate, CreatedLines, ChunksApplied, Split, Join, AllChunks;
    var diffLines := NormalizeDiffLines(diff);
    if mode.CreateMode? {
      var ok, content := ParseCreateDiff(diffLines);
      return if ok then Some(content) else None;
    }
    var parsed, chunks := ParseUpdateDiff(diffLines, input);
    if !parsed {
      return None;
    }
    var ok, output := ApplyChunks(input, chunks);
    return if ok then Some(output) else None;
  }
}
