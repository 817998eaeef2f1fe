/** What a parsed update does to the lines of a file: every window found in it is rewritten, the rest is kept. */
module PatchMeaning {
  import opened Types
  import opened PatchText
  import opened Patch

  /** What one edit contributes to the new text, at its place in the window. */
  function Produced(old': seq<string>, at: nat, e: Edit): seq<string>
    requires e.mode.Keep? ==> at < |old'|
  {
    match e.mode
    case Keep => [old'[at]]
    case Delete => []
    case Add => [e.text]
  }

  /** A window rewritten by a script: kept lines stay as the file has them, deleted lines go, added lines come in. */
  function Rewrite(window: seq<string>, es: seq<Edit>): seq<string>
    requires |window| == |Old(es)|
    decreases |es|
  {
    if es == [] then [] else
      var before := es[..|es| - 1];
      var e := es[|es| - 1];
      Rewrite(window[..|Old(before)|], before) + Produced(window, |Old(before)|, e)
  }

  function LastEnd(ps: seq<Placed>): nat {
    if ps == [] then 0 else WindowEnd(ps[|ps| - 1])
  }

  /** Every window starts at or after the end of the one before it. */
  ghost predicate Disjoint(ps: seq<Placed>) {
    forall i :: 0 <= i < |ps| ==> LastEnd(ps[..i]) <= ps[i].at
  }

  ghost predicate WithinFile(orig: seq<string>, ps: seq<Placed>) {
    forall i :: 0 <= i < |ps| ==> WindowEnd(ps[i]) <= |orig|
  }

  lemma Shorter(orig: seq<string>, ps: seq<Placed>)
    requires ps != [] && Disjoint(ps) && WithinFile(orig, ps)
    ensures Disjoint(ps[..|ps| - 1]) && WithinFile(orig, ps[..|ps| - 1])
    ensures LastEnd(ps[..|ps| - 1]) <= ps[|ps| - 1].at <= LastEnd(ps) <= |orig|
  {
    var init := ps[..|ps| - 1];
    forall i | 0 <= i < |init| ensures LastEnd(init[..i]) <= init[i].at {
      assert init[..i] == ps[..i] && init[i] == ps[i];
    }
  }

  /** The new lines up to the end of the last window. */
  function UpToLast(orig: seq<string>, ps: seq<Placed>): seq<string>
    requires Disjoint(ps) && WithinFile(orig, ps)
    decreases |ps|
  {
    if ps == [] then [] else
      Shorter(orig, ps);
      var init := ps[..|ps| - 1];
      var p := ps[|ps| - 1];
      UpToLast(orig, init) + orig[LastEnd(init)..p.at] + Rewrite(orig[p.at..WindowEnd(p)], p.edits)
  }

  function Rewritten(orig: seq<string>, ps: seq<Placed>): seq<string>
    requires Disjoint(ps) && WithinFile(orig, ps)
  {
    UpToLast(orig, ps) + From(orig, LastEnd(ps))
  }

  // ---------------------------------------------------------------- one section

  lemma {:induction false} EmitConcat(orig: seq<string>, from: Progress, a: seq<Chunk>, b: seq<Chunk>)
    ensures Emit(orig, from, a + b) == Emit(orig, Emit(orig, from, a), b)
    decreases |b|
  {
    if b == [] {
      assert a + b == a;
    } else {
      EmitConcat(orig, from, a, b[..|b| - 1]);
      assert (a + b)[..|a + b| - 1] == a + b[..|b| - 1];
    }
  }

  /** The chunks flushed so far, the untouched lines after them and the pending insertions make up `text`. */
  ghost predicate Amounts(orig: seq<string>, from: Progress, n: nat, g: Gathered, text: seq<string>)
    requires |g.del| <= |g.context|
  {
    var m := n + |g.context| - |g.del|;
    var p := Emit(orig, from, Shifted(g.chunks, n));
    && n + |g.context| <= |orig|
    && p.Written? && p.origIndex <= m
    && p.dest + orig[p.origIndex..m] + g.ins == text
  }

  lemma EmitSnoc(orig: seq<string>, from: Progress, chunks: seq<Chunk>, c: Chunk, n: nat)
    ensures Emit(orig, from, Shifted(chunks + [c], n))
         == EmitOne(orig, Emit(orig, from, Shifted(chunks, n)), Chunk(c.origIndex + n, c.del, c.ins))
  {
    assert Shifted(chunks + [c], n)[..|chunks|] == Shifted(chunks, n);
  }

  lemma FlushAmounts(orig: seq<string>, from: Progress, n: nat, g: Gathered, text: seq<string>)
    requires |g.del| <= |g.context| && Amounts(orig, from, n, g, text)
    ensures Amounts(orig, from, n, Flushed(g), text)
  {
    hide Emit, Shifted;
    if g.del != [] || g.ins != [] {
      var m := n + |g.context| - |g.del|;
      EmitSnoc(orig, from, g.chunks, Chunk(|g.context| - |g.del|, g.del, g.ins), n);
      assert orig[m + |g.del|..n + |g.context|] == [];
      assert text + [] + [] == text;
    }
  }

  lemma KeepAmounts(orig: seq<string>, from: Progress, n: nat, g: Gathered, line: string, text: seq<string>)
    requires g.del == [] && g.ins == [] && Amounts(orig, from, n, g, text) && n + |g.context| < |orig|
    ensures Amounts(orig, from, n, g.(mode := Keep, context := g.context + [line]), text + [orig[n + |g.context|]])
  {
    hide Emit, Shifted;
    var p := Emit(orig, from, Shifted(g.chunks, n));
    var m := n + |g.context|;
    assert orig[p.origIndex..m + 1] == orig[p.origIndex..m] + [orig[m]];
    assert p.dest + orig[p.origIndex..m + 1] + [] == p.dest + orig[p.origIndex..m] + [] + [orig[m]];
  }

  lemma AddAmounts(orig: seq<string>, from: Progress, n: nat, g: Gathered, line: string, text: seq<string>)
    requires |g.del| <= |g.context| && Amounts(orig, from, n, g, text)
    ensures Amounts(orig, from, n, g.(mode := Add, ins := g.ins + [line]), text + [line])
  {
    hide Emit, Shifted;
    var p := Emit(orig, from, Shifted(g.chunks, n));
    var m := n + |g.context| - |g.del|;
    assert p.dest + orig[p.origIndex..m] + (g.ins + [line]) == p.dest + orig[p.origIndex..m] + g.ins + [line];
  }

  lemma DeleteAmounts(orig: seq<string>, from: Progress, n: nat, g: Gathered, line: string, text: seq<string>)
    requires |g.del| <= |g.context| && Amounts(orig, from, n, g, text) && n + |g.context| < |orig|
    ensures Amounts(orig, from, n, g.(mode := Delete, del := g.del + [line], context := g.context + [line]), text)
  {
    hide Emit, Shifted;
  }

  lemma ConsumeAmounts(orig: seq<string>, from: Progress, n: nat, g: Gathered, e: Edit, text: seq<string>)
    requires Balanced(g) && Amounts(orig, from, n, g, text)
    requires e.mode.Add? || n + |g.context| < |orig|
    ensures |Consumed(g, e).del| <= |Consumed(g, e).context|
    ensures Amounts(orig, from, n, Consumed(g, e), text + Produced(orig, n + |g.context|, e))
  {
    hide Amounts;
    FlushAmounts(orig, from, n, g, text);
    if e.mode.Keep? {
      KeepAmounts(orig, from, n, if g.mode.Keep? then g else Flushed(g), e.text, text);
    } else if e.mode.Add? {
      AddAmounts(orig, from, n, g, e.text, text);
    } else {
      DeleteAmounts(orig, from, n, g, e.text, text);
      assert text + [] == text;
    }
  }

  lemma NothingAmounts(orig: seq<string>, from: Progress, n: nat)
    requires from.Written? && from.origIndex <= n <= |orig|
    ensures Amounts(orig, from, n, Gather([]), from.dest + orig[from.origIndex..n] + [])
  {
    assert Shifted([], n) == [];
  }

  lemma {:induction false} GatherAmounts(orig: seq<string>, from: Progress, n: nat, es: seq<Edit>)
    requires from.Written? && from.origIndex <= n && n + |Old(es)| <= |orig|
    ensures Amounts(orig, from, n, Gather(es), from.dest + orig[from.origIndex..n] + Rewrite(orig[n..n + |Old(es)|], es))
  {
    hide Amounts, Consumed, Flushed, Emit;
    var text := from.dest + orig[from.origIndex..n];
    if es == [] {
      NothingAmounts(orig, from, n);
    } else {
      var before := es[..|es| - 1];
      var e := es[|es| - 1];
      GatherAmounts(orig, from, n, before);
      assert |Old(before)| <= |Old(es)|;
      assert orig[n..n + |Old(es)|][..|Old(before)|] == orig[n..n + |Old(before)|];
      var done := Rewrite(orig[n..n + |Old(before)|], before);
      ConsumeAmounts(orig, from, n, Gather(before), e, text + done);
      var last := Produced(orig, n + |Old(before)|, e);
      assert Rewrite(orig[n..n + |Old(es)|], es) == done + last;
      assert text + done + last == text + (done + last);
    }
  }

  // ---------------------------------------------------------------- all sections

  lemma {:induction false} EmitSections(orig: seq<string>, ps: seq<Placed>)
    requires Disjoint(ps) && WithinFile(orig, ps)
    ensures LastEnd(ps) <= |orig|
    ensures var p := Emit(orig, Written([], 0), AllChunks(ps));
            p.Written? && p.origIndex <= LastEnd(ps) && p.dest + orig[p.origIndex..LastEnd(ps)] == UpToLast(orig, ps)
    decreases |ps|
  {
    if ps != [] {
      Shorter(orig, ps);
      var init := ps[..|ps| - 1];
      var last := ps[|ps| - 1];
      EmitSections(orig, init);
      EmitSection(orig, Emit(orig, Written([], 0), AllChunks(init)), LastEnd(init), UpToLast(orig, init), last);
      EmitConcat(orig, Written([], 0), AllChunks(init), Shifted(SectionChunks(last.edits), last.at));
    }
  }

  lemma EmitSection(orig: seq<string>, from: Progress, end: nat, done: seq<string>, p: Placed)
    requires from.Written? && from.origIndex <= end <= p.at && WindowEnd(p) <= |orig|
    requires from.dest + orig[from.origIndex..end] == done
    ensures var r := Emit(orig, from, Shifted(SectionChunks(p.edits), p.at));
            && r.Written? && r.origIndex <= WindowEnd(p)
            && r.dest + orig[r.origIndex..WindowEnd(p)]
            == done + orig[end..p.at] + Rewrite(orig[p.at..WindowEnd(p)], p.edits)
  {
    hide Emit, Shifted, Gather, Old, Rewrite;
    var g := Gather(p.edits);
    var new' := Rewrite(orig[p.at..WindowEnd(p)], p.edits);
    GatherAmounts(orig, from, p.at, p.edits);
    FlushAmounts(orig, from, p.at, g, from.dest + orig[from.origIndex..p.at] + new');
    assert orig[from.origIndex..p.at] == orig[from.origIndex..end] + orig[end..p.at];
    assert from.dest + orig[from.origIndex..p.at] == done + orig[end..p.at];
    var r := Emit(orig, from, Shifted(Flushed(g).chunks, p.at));
    assert r.dest + orig[r.origIndex..WindowEnd(p)] + [] == r.dest + orig[r.origIndex..WindowEnd(p)];
  }

  /** Over disjoint windows the chunks never leave the file, never overlap, and rewrite exactly the windows. */
  lemma DisjointWindowsAreRewritten(orig: seq<string>, ps: seq<Placed>)
    requires Disjoint(ps) && WithinFile(orig, ps)
    ensures ChunksApplied(orig, AllChunks(ps)) == Some(Rewritten(orig, ps))
  {
    hide Emit, AllChunks, UpToLast, Disjoint, WithinFile, LastEnd;
    EmitSections(orig, ps);
    var p := Emit(orig, Written([], 0), AllChunks(ps));
    var end := LastEnd(ps);
    assert orig[p.origIndex..] == orig[p.origIndex..end] + orig[end..];
    assert p.dest + orig[p.origIndex..] == p.dest + orig[p.origIndex..end] + orig[end..];
  }

  // ---------------------------------------------------------------- any chunks at all

  function ChunkEnd(c: Chunk): nat {
    c.origIndex + |c.del|
  }

  /** Every chunk starts within the file and no earlier than the one before it ends. */
  ghost predicate ChunksOrdered(orig: seq<string>, chunks: seq<Chunk>) {
    && (forall i :: 0 <= i < |chunks| ==> chunks[i].origIndex <= |orig|)
    && (forall i :: 0 < i < |chunks| ==> ChunkEnd(chunks[i - 1]) <= chunks[i].origIndex)
  }

  /** The chunks cut out and replaced from the last to the first, so that no replacement moves what is still to be cut. */
  function Spliced(orig: seq<string>, chunks: seq<Chunk>): seq<string>
    decreases |chunks|
  {
    if chunks == [] then orig
    else
      var c := chunks[|chunks| - 1];
      Spliced(if c.origIndex <= |orig| then orig[..c.origIndex] else orig, chunks[..|chunks| - 1]) + c.ins + From(orig, ChunkEnd(c))
  }

  lemma {:induction false} EmitWithin(orig: seq<string>, chunks: seq<Chunk>, n: nat)
    requires n <= |orig| && forall i :: 0 <= i < |chunks| ==> chunks[i].origIndex <= n
    ensures Emit(orig[..n], Written([], 0), chunks) == Emit(orig, Written([], 0), chunks)
    decreases |chunks|
  {
    if chunks != [] {
      var init, c := chunks[..|chunks| - 1], chunks[|chunks| - 1];
      EmitWithin(orig, init, n);
      var p := Emit(orig, Written([], 0), init);
      if p.Written? && p.origIndex <= c.origIndex {
        assert orig[..n][p.origIndex..c.origIndex] == orig[p.origIndex..c.origIndex];
      }
    }
  }

  lemma {:induction false} EmitIffOrdered(orig: seq<string>, chunks: seq<Chunk>)
    ensures var p := Emit(orig, Written([], 0), chunks);
            && (p.Written? <==> ChunksOrdered(orig, chunks))
            && (p.Written? ==> p.origIndex == if chunks == [] then 0 else ChunkEnd(chunks[|chunks| - 1]))
    decreases |chunks|
  {
    if chunks != [] {
      var init, c := chunks[..|chunks| - 1], chunks[|chunks| - 1];
      EmitIffOrdered(orig, init);
      if ChunksOrdered(orig, chunks) {
        assert chunks[|chunks| - 1].origIndex <= |orig|;
        if |chunks| > 1 {
          assert ChunkEnd(chunks[|chunks| - 2]) <= c.origIndex;
        }
      }
    }
  }

  lemma {:induction false} EmitSplices(orig: seq<string>, chunks: seq<Chunk>)
    requires ChunksOrdered(orig, chunks)
    ensures var p := Emit(orig, Written([], 0), chunks);
            p.Written? && p.dest + From(orig, p.origIndex) == Spliced(orig, chunks)
    decreases |chunks|
  {
    EmitIffOrdered(orig, chunks);
    if chunks == [] {
      assert [] + orig == orig;
    } else {
      var init, c := chunks[..|chunks| - 1], chunks[|chunks| - 1];
      OrderedBefore(orig, chunks);
      EmitWithin(orig, init, c.origIndex);
      EmitSplices(orig[..c.origIndex], init);
      var p := Emit(orig, Written([], 0), init);
      assert From(orig[..c.origIndex], p.origIndex) == orig[p.origIndex..c.origIndex];
    }
  }

  lemma OrderedBefore(orig: seq<string>, chunks: seq<Chunk>)
    requires ChunksOrdered(orig, chunks) && chunks != []
    ensures var init, c := chunks[..|chunks| - 1], chunks[|chunks| - 1];
            && c.origIndex <= |orig| && ChunksOrdered(orig[..c.origIndex], init)
            && (forall i :: 0 <= i < |init| ==> init[i].origIndex <= c.origIndex)
            && (init != [] ==> ChunkEnd(init[|init| - 1]) <= c.origIndex)
    decreases |chunks|
  {
    var init, c := chunks[..|chunks| - 1], chunks[|chunks| - 1];
    if init != [] {
      assert ChunksOrdered(orig, init);
      OrderedBefore(orig, init);
    }
  }

  /** Whatever the chunks, they apply exactly if none starts past the end or before the end of the one before it,
      and then the result is the file with each of them cut out and replaced. */
  lemma ChunksApplyIff(orig: seq<string>, chunks: seq<Chunk>)
    ensures ChunksApplied(orig, chunks).Some? <==> ChunksOrdered(orig, chunks)
    ensures ChunksOrdered(orig, chunks) ==> ChunksApplied(orig, chunks) == Some(Spliced(orig, chunks))
  {
    hide Emit, ChunksOrdered, Spliced;
    EmitIffOrdered(orig, chunks);
    if ChunksOrdered(orig, chunks) {
      EmitSplices(orig, chunks);
    }
  }

  // ---------------------------------------------------------------- what a parsed diff guarantees

  /** One section was found where the search rules say. */
  ghost predicate FoundAt(input: seq<string>, p: Placed) {
    && p.cursor <= |input|
    && FindContext(input, Old(p.edits), p.cursor, p.eof) == Some(p.at)
  }

  ghost predicate FoundInTurn(input: seq<string>, ps: seq<Placed>, cursor: nat) {
    ps == [] || (cursor <= ps[0].cursor && FoundAt(input, ps[0]) && FoundInTurn(input, ps[1..], WindowEnd(ps[0])))
  }

  lemma {:induction false} PlaceFinds(lines: seq<string>, index: nat, input: seq<string>, cursor: nat)
    requires index <= |lines| && cursor <= |input|
    ensures var r := Place(lines, index, input, cursor); r.Some? ==> FoundInTurn(input, r.value, cursor)
    decreases |lines| - index
  {
    hide SectionAt, FindContext, Seek, AnchorsEnd, AnchorTexts, IsDone, Old;
    var r := Place(lines, index, input, cursor);
    if r.Some? && r.value != [] {
      var s := SectionAt(lines, AnchorsEnd(lines, index)).value;
      PlaceFinds(lines, s.end, input, r.value[0].at + |Old(s.edits)|);
      assert r.value[1..] == Place(lines, s.end, input, r.value[0].at + |Old(s.edits)|).value;
    }
  }

  lemma {:induction false} FoundEach(input: seq<string>, ps: seq<Placed>, cursor: nat, i: nat)
    requires FoundInTurn(input, ps, cursor) && i < |ps|
    ensures FoundAt(input, ps[i]) && WindowEnd(ps[i]) <= |input|
    ensures (if i == 0 then cursor else LastEnd(ps[..i])) <= ps[i].cursor
  {
    if i > 0 {
      FoundEach(input, ps[1..], WindowEnd(ps[0]), i - 1);
      assert ps[..i][i - 1] == ps[i - 1];
      if i > 1 {
        assert ps[1..][..i - 1][i - 2] == ps[i - 1];
      }
    }
  }

  /** Room for an end-of-file section after the section before it. */
  ghost predicate EofFits(input: seq<string>, ps: seq<Placed>) {
    forall i :: 0 <= i < |ps| && ps[i].eof ==> LastEnd(ps[..i]) + |Old(ps[i].edits)| <= |input|
  }

  lemma FoundAfter(input: seq<string>, p: Placed, end: nat)
    requires FoundAt(input, p) && end <= p.cursor
    ensures end <= p.at <==> (p.eof ==> end + |Old(p.edits)| <= |input|)
  {
    hide Search, Old;
  }

  /** Exactly when every end-of-file section has room after the section before it, the windows of a parsed diff
      are disjoint; without end-of-file markers they always are. */
  lemma DisjointIff(lines: seq<string>, input: string)
    requires ParsedUpdate(lines, input).Some?
    ensures var ps := ParsedUpdate(lines, input).value;
            WithinFile(Split(input), ps) && (Disjoint(ps) <==> EofFits(Split(input), ps))
  {
    var orig := Split(input);
    var ps := ParsedUpdate(lines, input).value;
    PlaceFinds(lines + [END_PATCH], 0, orig, 0);
    forall i | 0 <= i < |ps|
      ensures WindowEnd(ps[i]) <= |orig|
      ensures LastEnd(ps[..i]) <= ps[i].at <==> (ps[i].eof ==> LastEnd(ps[..i]) + |Old(ps[i].edits)| <= |orig|)
    {
      FoundEach(orig, ps, 0, i);
      FoundAfter(orig, ps[i], LastEnd(ps[..i]));
    }
  }

  /** The meaning of an update diff: if it parses and its end-of-file sections fit, it applies, and the result is
      the file with each window rewritten. */
  lemma UpdateMeaning(input: string, diff: string)
    requires var parsed := ParsedUpdate(NormalizeDiffLines(diff), input);
             parsed.Some? && EofFits(Split(input), parsed.value)
    ensures var ps := ParsedUpdate(NormalizeDiffLines(diff), input).value;
            && Disjoint(ps) && WithinFile(Split(input), ps)
            && Patched(input, diff, DefaultMode) == Some(Join(Rewritten(Split(input), ps)))
  {
    hide ParsedUpdate, NormalizeDiffLines, Split, Join;
    DisjointIff(NormalizeDiffLines(diff), input);
    DisjointWindowsAreRewritten(Split(input), ParsedUpdate(NormalizeDiffLines(diff), input).value);
  }

  lemma {:induction false} GatheredWithin(es: seq<Edit>)
    ensures forall i :: 0 <= i < |Gather(es).chunks| ==> Gather(es).chunks[i].origIndex <= |Old(es)|
    decreases |es|
  {
    if es != [] {
      GatheredWithin(es[..|es| - 1]);
    }
  }

  lemma {:induction false} ChunksWithin(orig: seq<string>, ps: seq<Placed>)
    requires WithinFile(orig, ps)
    ensures forall i :: 0 <= i < |AllChunks(ps)| ==> AllChunks(ps)[i].origIndex <= |orig|
    decreases |ps|
  {
    hide Gather, Old;
    if ps != [] {
      var init, p := ps[..|ps| - 1], ps[|ps| - 1];
      assert WithinFile(orig, init) by {
        assert forall i :: 0 <= i < |init| ==> init[i] == ps[i];
      }
      ChunksWithin(orig, init);
      GatheredWithin(p.edits);
      assert WindowEnd(p) <= |orig|;
    }
  }

  /** A diff that parses applies exactly if no chunk of it starts before the chunk before it ends, though windows may
      overlap; then the result is the file with every chunk cut out and replaced. */
  lemma UpdateAppliesIff(input: string, diff: string)
    requires ParsedUpdate(NormalizeDiffLines(diff), input).Some?
    ensures var chunks := AllChunks(ParsedUpdate(NormalizeDiffLines(diff), input).value);
            && (Patched(input, diff, DefaultMode).Some? <==>
                forall i :: 0 < i < |chunks| ==> ChunkEnd(chunks[i - 1]) <= chunks[i].origIndex)
            && (Patched(input, diff, DefaultMode).Some? ==>
                Patched(input, diff, DefaultMode) == Some(Join(Spliced(Split(input), chunks))))
  {
    hide ParsedUpdate, NormalizeDiffLines, Split, Join, AllChunks, ChunksApplied, Spliced, Patched, WithinFile, Disjoint, EofFits;
    var ps := ParsedUpdate(NormalizeDiffLines(diff), input).value;
    DisjointIff(NormalizeDiffLines(diff), input);
    ChunksWithin(Split(input), ps);
    ChunksApplyIff(Split(input), AllChunks(ps));
    PatchedParsed(input, diff);
  }

  lemma PatchedParsed(input: string, diff: string)
    requires ParsedUpdate(NormalizeDiffLines(diff), input).Some?
    ensures var applied := ChunksApplied(Split(input), AllChunks(ParsedUpdate(NormalizeDiffLines(diff), input).value));
            Patched(input, diff, DefaultMode) == if applied.None? then None else Some(Join(applied.value))
  {
    hide ParsedUpdate, NormalizeDiffLines, Split, Join, AllChunks, ChunksApplied;
  }
}
