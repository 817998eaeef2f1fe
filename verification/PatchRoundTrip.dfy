/** Diffs written out from a script, and what applying them gives back. */
module PatchRoundTrip {
  import opened Types
  import opened PatchText
  import opened Patch
  import opened PatchMeaning

  function Printed(e: Edit): string {
    match e.mode
    case Keep => " " + e.text
    case Delete => "-" + e.text
    case Add => "+" + e.text
  }

  function Print(es: seq<Edit>): (r: seq<string>)
    ensures |r| == |es|
  {
    seq(|es|, i requires 0 <= i < |es| => Printed(es[i]))
  }

  ghost predicate AllCarriable(es: seq<Edit>) {
    forall i :: 0 <= i < |es| ==> Carriable(es[i].text)
  }

  // ---------------------------------------------------------------- reading a printed script

  lemma DoneAtPatchEnd(lines: seq<string>, index: nat)
    requires index < |lines| && lines[index] == END_PATCH
    ensures IsDone(lines, index, END_SECTION_MARKERS) && IsDone(lines, index, SECTION_TERMINATORS)
  {
    assert StartsWith(END_PATCH, END_SECTION_MARKERS[0]) && StartsWith(END_PATCH, SECTION_TERMINATORS[0]);
  }

  lemma NotDone(lines: seq<string>, index: nat)
    requires index < |lines| && lines[index] != "" && lines[index][0] != '*'
    ensures !IsDone(lines, index, END_SECTION_MARKERS) && !IsDone(lines, index, SECTION_TERMINATORS)
  {
    assert END_PATCH[0] == UPDATE_FILE[0] == DELETE_FILE[0] == ADD_FILE[0] == END_FILE[0] == '*';
  }

  lemma PrintedLine(e: Edit)
    ensures Printed(e) != "" && EditOf(Printed(e)) == Some(e) && !IsAnchor(Printed(e)) && !Stops(Printed(e))
    ensures !IsDone([Printed(e)], 0, END_SECTION_MARKERS)
    ensures Carriable(e.text) ==> Carriable(Printed(e))
  {
    var line := Printed(e);
    assert line[0] == ' ' || line[0] == '-' || line[0] == '+';
    assert line[1..] == e.text;
    forall prefix | StartsWith(line, prefix) && prefix != "" ensures prefix[0] != '*' && prefix[0] != '@' {
      assert prefix[0] == line[0];
    }
    NotDone([line], 0);
    hide IsDone;
    assert END_PATCH[0] == UPDATE_FILE[0] == DELETE_FILE[0] == ADD_FILE[0] == END_FILE[0] == '*';
    assert "@@"[0] == "@@ "[0] == '@';
  }

  lemma {:induction false} SectionRunsOn(lines: seq<string>, from: nat, end: nat)
    requires from <= end < |lines| && Stops(lines[end]) && forall k :: from <= k < end ==> !Stops(lines[k])
    ensures SectionEnd(lines, from) == end
    decreases end - from
  {
    hide Stops;
    if from < end {
      SectionRunsOn(lines, from + 1, end);
    }
  }

  /** A printed script is read back as one section with exactly its edits, whatever lines come before it. */
  lemma PrintedSection(before: seq<string>, es: seq<Edit>)
    requires es != []
    ensures SectionAt(before + Print(es) + [END_PATCH], |before|) == Some(Section(es, |before| + |es|, false))
  {
    hide Printed, Stops, EditOf;
    PatchEndStops();
    var lines, from := before + Print(es) + [END_PATCH], |before|;
    forall k | 0 <= k < |es|
      ensures lines[from + k] == Printed(es[k]) && !Stops(lines[from + k]) && EditOf(lines[from + k]) == Some(es[k])
    {
      PrintedLine(es[k]);
    }
    forall k | from <= k < from + |es|
      ensures !Stops(lines[k])
    {
      assert lines[from + (k - from)] == lines[k];
    }
    SectionRunsOn(lines, from, from + |es|);
    assert lines[from..from + |es|] == Print(es);
    assert EditsOf(Print(es)) == es;
  }

  lemma PatchEndStops()
    ensures Stops(END_PATCH) && END_PATCH != END_FILE
  {
    assert |END_PATCH| != |END_FILE|;
  }

  lemma EndsAtPatchEnd(lines: seq<string>, index: nat, input: seq<string>, cursor: nat)
    requires index < |lines| && lines[index] == END_PATCH && cursor <= |input|
    ensures Place(lines, index, input, cursor) == Some([])
  {
    assert StartsWith(END_PATCH, END_SECTION_MARKERS[0]);
  }

  lemma PlaceStep(lines: seq<string>, index: nat, input: seq<string>, cursor: nat, from: nat, s: Section, at: nat, rest: seq<Placed>)
    requires index <= |lines| && cursor <= |input| && !IsDone(lines, index, END_SECTION_MARKERS)
    requires var start := AnchorsEnd(lines, index);
             && (start > index || cursor == 0)
             && Seek(AnchorTexts(lines[index..start]), 0, input, cursor, start - index > 1) == Some(from)
             && SectionAt(lines, start) == Some(s)
    requires FindContext(input, Old(s.edits), from, s.eof) == Some(at) && from <= |input|
    requires Place(lines, s.end, input, at + |Old(s.edits)|) == Some(rest)
    ensures Place(lines, index, input, cursor) == Some([Placed(from, at, s.edits, s.eof)] + rest)
  {
    hide SectionAt, FindContext, Seek, AnchorsEnd, AnchorTexts, IsDone, Old;
  }

  /** The printed script is placed where its context is first found from the top of the file. */
  lemma PrintedIsPlaced(es: seq<Edit>, input: string, at: nat)
    requires es != [] && FindContext(Split(input), Old(es), 0, false) == Some(at)
    ensures ParsedUpdate(Print(es), input) == Some([Placed(0, at, es, false)])
  {
    hide FindContext, Split, SectionAt, Old;
    var lines := Print(es) + [END_PATCH];
    var orig := Split(input);
    PrintedLine(es[0]);
    assert lines[0] == Printed(es[0]);
    assert !IsDone(lines, 0, END_SECTION_MARKERS) by {
      assert [Printed(es[0])][0] == lines[0];
    }
    assert AnchorsEnd(lines, 0) == 0;
    assert lines[0..0] == [] && Seek(AnchorTexts([]), 0, orig, 0, false) == Some(0);
    assert [] + Print(es) + [END_PATCH] == lines;
    PrintedSection([], es);
    EndsAtPatchEnd(lines, |es|, orig, at + |Old(es)|);
    PlaceStep(lines, 0, orig, 0, 0, Section(es, |es|, false), at, []);
    assert [Placed(0, at, es, false)] + [] == [Placed(0, at, es, false)];
  }

  // ---------------------------------------------------------------- the round trip

  lemma {:induction false} OldLinesCarriable(es: seq<Edit>)
    requires AllCarriable(es)
    ensures forall i :: 0 <= i < |Old(es)| ==> Carriable(Old(es)[i])
  {
    if es != [] {
      OldLinesCarriable(es[..|es| - 1]);
    }
  }

  /** Rewriting the old lines themselves gives the new lines. */
  lemma {:induction false} RewriteOld(es: seq<Edit>)
    ensures Rewrite(Old(es), es) == New(es)
  {
    if es != [] {
      var before := es[..|es| - 1];
      RewriteOld(before);
      assert Old(es)[..|Old(before)|] == Old(before);
    }
  }

  lemma PrintSurvives(es: seq<Edit>)
    requires es != [] && AllCarriable(es)
    ensures NormalizeDiffLines(Join(Print(es))) == Print(es)
    ensures NormalizeDiffLines(Join(Print(es) + [""])) == Print(es)
  {
    hide NormalizeDiffLines, Join, Printed, Carriable;
    forall i | 0 <= i < |es| ensures Print(es)[i] == Printed(es[i]) && Carriable(Print(es)[i]) && Print(es)[i] != "" {
      PrintedLine(es[i]);
    }
    NormalizeKeeps(Print(es));
    NormalizeDropsFinalNewline(Print(es));
  }

  lemma OneWindow(orig: seq<string>, es: seq<Edit>, from: nat, at: nat)
    requires at + |Old(es)| <= |orig|
    ensures var ps := [Placed(from, at, es, false)];
            && Disjoint(ps) && WithinFile(orig, ps) && EofFits(orig, ps)
            && Rewritten(orig, ps) == orig[..at] + Rewrite(orig[at..at + |Old(es)|], es) + orig[at + |Old(es)|..]
  {
    hide Rewrite, Old;
    var ps := [Placed(from, at, es, false)];
    assert ps[..0] == [] && ps[..|ps| - 1] == [];
    assert Disjoint([]) && WithinFile(orig, []) && LastEnd([]) == 0;
    assert UpToLast(orig, ps) == [] + orig[0..at] + Rewrite(orig[at..at + |Old(es)|], es);
    assert [] + orig[0..at] == orig[..at];
  }

  /** Both ways of ending the printed diff: with the last line, or with a newline after it. */
  predicate Prints(es: seq<Edit>, diff: string) {
    diff == Join(Print(es)) || diff == Join(Print(es) + [""])
  }

  lemma PrintedAppliesOnTop(es: seq<Edit>, diff: string, input: string)
    requires es != [] && AllCarriable(es) && Prints(es, diff)
    requires FindContext(Split(input), Old(es), 0, false) == Some(0)
    ensures |Old(es)| <= |Split(input)|
    ensures Patched(input, diff, DefaultMode)
         == Some(Join(Rewrite(Split(input)[..|Old(es)|], es) + Split(input)[|Old(es)|..]))
  {
    hide FindContext, Split, Join, Old, Rewrite, Rewritten, ParsedUpdate, NormalizeDiffLines, Patched, EofFits;
    PrintSurvives(es);
    PrintedIsPlaced(es, input, 0);
    OneWindow(Split(input), es, 0, 0);
    assert Split(input)[..0] == [] && Split(input)[0..|Old(es)|] == Split(input)[..|Old(es)|];
    assert [] + Rewrite(Split(input)[..|Old(es)|], es) == Rewrite(Split(input)[..|Old(es)|], es);
    UpdateMeaning(input, diff);
  }

  /** A script that covers all old lines, printed and applied to the old text, gives exactly the new text. */
  lemma RoundTrip(es: seq<Edit>, diff: string)
    requires Old(es) != [] && AllCarriable(es) && Prints(es, diff)
    ensures Patched(Join(Old(es)), diff, DefaultMode) == Some(Join(New(es)))
  {
    var old' := Old(es);
    OldLinesCarriable(es);
    SplitJoin(old');
    assert FindContext(old', old', 0, false) == Some(0) by {
      assert EqualsSlice(Exact, old', old', 0);
    }
    PrintedAppliesOnTop(es, diff, Join(old'));
    RewriteOld(es);
    assert old'[..|old'|] == old' && New(es) + old'[|old'|..] == New(es);
  }

  /** A script of additions only has nothing to look for: it goes above whatever the file holds. */
  lemma AdditionsGoOnTop(es: seq<Edit>, diff: string, input: string)
    requires es != [] && Old(es) == [] && AllCarriable(es) && Prints(es, diff)
    ensures Patched(input, diff, DefaultMode) == Some(Join(New(es) + Split(input)))
  {
    PrintedAppliesOnTop(es, diff, input);
    RewriteOld(es);
    assert Split(input)[..0] == [] && Split(input)[0..] == Split(input);
  }

  // ---------------------------------------------------------------- creating

  function Plus(lines: seq<string>): (r: seq<string>)
    ensures |r| == |lines|
  {
    seq(|lines|, i requires 0 <= i < |lines| => "+" + lines[i])
  }

  lemma {:induction false} CreatedFrom(lines: seq<string>, index: nat)
    requires index <= |lines|
    ensures CreatedLines(Plus(lines) + [END_PATCH], index) == Some(lines[index..])
    decreases |lines| - index
  {
    hide IsDone;
    var all := Plus(lines) + [END_PATCH];
    if index == |lines| {
      DoneAtPatchEnd(all, index);
      assert lines[index..] == [];
    } else {
      assert all[index] == "+" + lines[index] && all[index][1..] == lines[index];
      NotDone(all, index);
      CreatedFrom(lines, index + 1);
      assert [lines[index]] + lines[index + 1..] == lines[index..];
    }
  }

  function Stripped(lines: seq<string>): (r: seq<string>)
    ensures |r| == |lines|
  {
    seq(|lines|, i requires 0 <= i < |lines| => StripPieces(Plus(lines))[i][1..])
  }

  lemma PlusStripped(lines: seq<string>)
    ensures StripPieces(Plus(lines)) == Plus(Stripped(lines))
    ensures forall i :: 0 <= i < |lines| ==> Stripped(lines)[i] <= lines[i]
    ensures forall i :: 0 <= i < |lines| ==> (Stripped(lines)[i] == lines[i] <==> lines[i] == "" || lines[i][|lines[i]| - 1] != '\r')
  {
    forall i | 0 <= i < |lines|
      ensures StripPieces(Plus(lines))[i] == "+" + Stripped(lines)[i] && Stripped(lines)[i] <= lines[i]
      ensures Stripped(lines)[i] == lines[i] <==> lines[i] == "" || lines[i][|lines[i]| - 1] != '\r'
    {
      StripPlus(lines[i]);
      StripPlus(StripReturn(lines[i]));
    }
  }

  lemma StripPlus(line: string)
    ensures StripReturn("+" + line) == "+" + StripReturn(line)
    ensures StripReturn(line) <= line
  {
    var l := "+" + line;
    if line != "" && line[|line| - 1] == '\r' {
      assert l[..|l| - 1] == "+" + line[..|line| - 1];
    }
  }

  /** A text printed as a creation diff comes back exactly when none of its lines ends in a carriage return. */
  lemma CreateRoundTripIff(text: string, input: string)
    ensures Patched(input, Join(Plus(Split(text))), CreateMode) == Some(text)
       <==> forall i :: 0 <= i < |Split(text)| ==> Carriable(Split(text)[i])
  {
    var lines := Split(text);
    JoinSplit(text);
    CreatedText(lines, input);
    if Join(Stripped(lines)) == text {
      SplitJoin(Stripped(lines));
    }
    if forall i :: 0 <= i < |lines| ==> Carriable(lines[i]) {
      assert Stripped(lines) == lines;
    }
  }

  lemma CreatedText(lines: seq<string>, input: string)
    requires lines != [] && forall i :: 0 <= i < |lines| ==> '\n' !in lines[i]
    ensures forall i :: 0 <= i < |lines| ==>
              '\n' !in Stripped(lines)[i] && (Stripped(lines)[i] == lines[i] <==> Carriable(lines[i]))
    ensures Patched(input, Join(Plus(lines)), CreateMode) == Some(Join(Stripped(lines)))
  {
    hide Split, Join, CreatedLines, Stripped, StripPieces;
    SplitJoin(Plus(lines));
    PlusStripped(lines);
    CreatedFrom(Stripped(lines), 0);
    assert Stripped(lines)[0..] == Stripped(lines);
  }

  // ---------------------------------------------------------------- where a window may lie

  /** A found window matches its context line by line, up to blanks at the two ends of a line; and when the
      context occurs exactly from the cursor on, an unmarked section gets the first such place. */
  lemma WindowMatches(input: seq<string>, p: Placed)
    requires FoundAt(input, p) && Old(p.edits) != []
    ensures EqualsSlice(Trimmed, input, Old(p.edits), p.at)
    ensures !p.eof && Search(Exact, input, Old(p.edits), p.cursor).Some?
        ==> FirstMatch(Exact, input, Old(p.edits), p.cursor, p.at)
  {
  }

  lemma OverlapLines(lines: seq<string>)
    requires lines == ["-a", "@@", "-a", END_FILE, END_PATCH]
    ensures SectionAt(lines, 0) == Some(Section([Edit(Delete, "a")], 1, false))
    ensures SectionAt(lines, 2) == Some(Section([Edit(Delete, "a")], 4, true))
  {
    var e := Edit(Delete, "a");
    PrintedLine(e);
    assert Printed(e) == "-a";
    SectionRunsOn(lines, 0, 1);
    SectionRunsOn(lines, 2, 3);
    assert lines[0..1] == ["-a"] && lines[2..3] == ["-a"];
    assert EditsOf(["-a"]) == [e];
    assert |lines[1]| != |END_FILE|;
  }

  lemma FoundTwice()
    ensures FindContext(["a"], ["a"], 0, false) == FindContext(["a"], ["a"], 1, true) == Some(0)
  {
    assert EqualsSlice(Exact, ["a"], ["a"], 0);
  }

  lemma OverlapPlaces(lines: seq<string>)
    requires lines == ["-a", "@@", "-a", END_FILE, END_PATCH]
    ensures Place(lines, 0, ["a"], 0)
         == Some([Placed(0, 0, [Edit(Delete, "a")], false), Placed(1, 0, [Edit(Delete, "a")], true)])
  {
    hide SectionAt, IsDone, FindContext;
    var e := Edit(Delete, "a");
    OverlapLines(lines);
    NotDone(lines, 0);
    NotDone(lines, 1);
    assert Old([e]) == ["a"];
    FoundTwice();
    DoneAtPatchEnd(lines, 4);
    assert Place(lines, 4, ["a"], 1) == Some([]);
    AnchorTextsSnoc([], "@@");
    assert lines[1..2] == [] + ["@@"] && Trim("") == "";
    assert AnchorTexts(lines[1..2]) == [];
    assert AnchorsEnd(lines, 1) == 2;
    assert Seek([], 0, ["a"], 1, false) == Some(1);
    var second := Placed(1, 0, [e], true);
    PlaceStep(lines, 1, ["a"], 1, 1, Section([e], 4, true), 0, []);
    assert [second] + [] == [second];
    assert lines[0..0] == [];
    PlaceStep(lines, 0, ["a"], 0, 0, Section([e], 1, false), 0, [second]);
    assert [Placed(0, 0, [e], false)] + [second] == [Placed(0, 0, [e], false), second];
  }

  lemma OneDeletion(line: string)
    ensures Old([Edit(Delete, line)]) == [line]
    ensures SectionChunks([Edit(Delete, line)]) == [Chunk(0, [line], [])]
  {
    GatherSnoc([], Edit(Delete, line));
    assert [] + [Edit(Delete, line)] == [Edit(Delete, line)];
  }

  lemma OverlapChunks(first: Placed, second: Placed)
    requires first == Placed(0, 0, [Edit(Delete, "a")], false) && second == Placed(1, 0, [Edit(Delete, "a")], true)
    ensures !EofFits(["a"], [first, second])
    ensures ChunksApplied(["a"], AllChunks([first, second])).None?
  {
    hide SectionChunks, AllChunks, Old, Emit;
    var ps := [first, second];
    OneDeletion("a");
    assert ps[..1] == [first];
    assert ps[1].eof && LastEnd(ps[..1]) == 1;
    var c := Chunk(0, ["a"], []);
    assert Shifted([c], 0) == [c];
    AllChunksSnoc([], first);
    AllChunksSnoc([first], second);
    assert [] + [first] == [first] && [first] + [second] == ps && [] + [c] == [c];
    EmitConcat(["a"], Written([], 0), [c], [c]);
    EmitsOne(["a"], Written([], 0), c);
    EmitsOne(["a"], Written([], 1), c);
    assert [] + ["a"][0..0] + [] == [];
  }

  lemma EmitsOne(orig: seq<string>, from: Progress, c: Chunk)
    ensures Emit(orig, from, [c]) == EmitOne(orig, from, c)
  {
    assert [c][..0] == [];
  }

  /** An end-of-file section may reach back over an earlier one: this diff parses, yet its chunks overlap. */
  lemma EofMayOverlap()
    ensures var parsed := ParsedUpdate(["-a", "@@", "-a", END_FILE], "a");
            && parsed.Some? && !EofFits(Split("a"), parsed.value)
            && ChunksApplied(Split("a"), AllChunks(parsed.value)).None?
  {
    hide Place, EofFits, ChunksApplied, AllChunks;
    var lines := ["-a", "@@", "-a", END_FILE];
    assert lines + [END_PATCH] == ["-a", "@@", "-a", END_FILE, END_PATCH];
    SplitLine("a");
    OverlapPlaces(lines + [END_PATCH]);
    OverlapChunks(Placed(0, 0, [Edit(Delete, "a")], false), Placed(1, 0, [Edit(Delete, "a")], true));
  }
}
