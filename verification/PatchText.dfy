/** Lines and text: splitting, joining, trimming and the normalisation of a diff (v4a-types.ts). */
module PatchText {
  import Text
  import opened Types

  const END_PATCH := "*** End Patch"
  const END_FILE := "*** End of File"
  const UPDATE_FILE := "*** Update File:"
  const DELETE_FILE := "*** Delete File:"
  const ADD_FILE := "*** Add File:"

  /** Split at every newline; there is always at least one piece. */
  function Split(s: string): (r: seq<string>)
    ensures |r| >= 1
  {
    Text.SplitOn('\n', s)
  }

  function Join(lines: seq<string>): string {
    Text.JoinWith('\n', lines)
  }

  lemma JoinSplit(s: string)
    ensures Join(Split(s)) == s
    ensures forall i :: 0 <= i < |Split(s)| ==> '\n' !in Split(s)[i]
  {
    Text.JoinOfSplit('\n', s);
  }

  lemma SplitLine(line: string)
    requires '\n' !in line
    ensures Split(line) == [line]
  {
    Text.SplitFirstPiece('\n', line, "");
  }

  lemma SplitJoin(lines: seq<string>)
    requires lines != [] && forall i :: 0 <= i < |lines| ==> '\n' !in lines[i]
    ensures Split(Join(lines)) == lines
  {
    Text.SplitOfJoin('\n', lines);
  }

  // ---------------------------------------------------------------- trimming

  predicate IsSpace(c: char) {
    || c == ' ' || c == '\t' || c == '\n' || c == '\r' || c == '\U{000B}' || c == '\U{000C}'
    || c == '\U{00A0}' || c == '\U{1680}' || '\U{2000}' <= c <= '\U{200A}' || c == '\U{2028}'
    || c == '\U{2029}' || c == '\U{202F}' || c == '\U{205F}' || c == '\U{3000}' || c == '\U{FEFF}'
  }

  function TrimEnd(s: string): string {
    if s != "" && IsSpace(s[|s| - 1]) then TrimEnd(s[..|s| - 1]) else s
  }

  function TrimStart(s: string): string {
    if s != "" && IsSpace(s[0]) then TrimStart(s[1..]) else s
  }

  function Trim(s: string): string {
    TrimStart(TrimEnd(s))
  }

  ghost predicate AllSpaces(s: string) {
    forall i :: 0 <= i < |s| ==> IsSpace(s[i])
  }

  /** Trimming cuts blanks off the two ends, and all of them. */
  lemma {:induction false} TrimIs(s: string)
    ensures exists before, after :: s == before + Trim(s) + after && AllSpaces(before) && AllSpaces(after)
    ensures Trim(s) != "" ==> !IsSpace(Trim(s)[0]) && !IsSpace(Trim(s)[|Trim(s)| - 1])
  {
    hide IsSpace;
    var after := TrimEndIs(s);
    var before := TrimStartIs(TrimEnd(s));
    assert s == before + Trim(s) + after;
  }

  lemma {:induction false} TrimEndIs(s: string) returns (after: string)
    ensures s == TrimEnd(s) + after && AllSpaces(after)
    ensures TrimEnd(s) != "" ==> !IsSpace(TrimEnd(s)[|TrimEnd(s)| - 1])
  {
    hide IsSpace;
    after := "";
    if s != "" && IsSpace(s[|s| - 1]) {
      after := TrimEndIs(s[..|s| - 1]);
      assert s == s[..|s| - 1] + [s[|s| - 1]];
      after := after + [s[|s| - 1]];
    }
  }

  lemma {:induction false} TrimStartIs(s: string) returns (before: string)
    ensures s == before + TrimStart(s) && AllSpaces(before)
    ensures TrimStart(s) != "" ==> !IsSpace(TrimStart(s)[0]) && s != "" && TrimStart(s)[|TrimStart(s)| - 1] == s[|s| - 1]
  {
    hide IsSpace;
    before := "";
    if s != "" && IsSpace(s[0]) {
      before := TrimStartIs(s[1..]);
      assert s == [s[0]] + s[1..];
      before := [s[0]] + before;
    }
  }

  // ---------------------------------------------------------------- diff lines

  function StripReturn(s: string): string {
    if s != "" && s[|s| - 1] == '\r' then s[..|s| - 1] else s
  }

  /** Every piece but the last lost the carriage return of its line break; then one more is dropped. */
  function StripPieces(ps: seq<string>): (r: seq<string>)
    ensures |r| == |ps|
  {
    seq(|ps|, i requires 0 <= i < |ps| => if i < |ps| - 1 then StripReturn(StripReturn(ps[i])) else StripReturn(ps[i]))
  }

  function NormalizeDiffLines(diff: string): seq<string> {
    var lines := StripPieces(Split(diff));
    if lines[|lines| - 1] == "" then lines[..|lines| - 1] else lines
  }

  /** A line a diff can carry: no newline, and no carriage return at its end. */
  predicate Carriable(line: string) {
    '\n' !in line && (line != "" ==> line[|line| - 1] != '\r')
  }

  lemma StripKeeps(lines: seq<string>)
    requires forall i :: 0 <= i < |lines| ==> Carriable(lines[i])
    ensures StripPieces(lines) == lines
  {
    forall i | 0 <= i < |lines| ensures StripPieces(lines)[i] == lines[i] {
      assert Carriable(lines[i]);
    }
  }

  /** Lines that are not empty survive normalisation. */
  lemma NormalizeKeeps(lines: seq<string>)
    requires lines != [] && lines[|lines| - 1] != "" && forall i :: 0 <= i < |lines| ==> Carriable(lines[i])
    ensures NormalizeDiffLines(Join(lines)) == lines
  {
    hide Split, Join, StripPieces;
    SplitJoin(lines);
    StripKeeps(lines);
  }

  /** They also survive when the diff ends in a newline. */
  lemma NormalizeDropsFinalNewline(lines: seq<string>)
    requires lines != [] && forall i :: 0 <= i < |lines| ==> Carriable(lines[i])
    ensures NormalizeDiffLines(Join(lines + [""])) == lines
  {
    hide Split, Join, StripPieces;
    SplitJoin(lines + [""]);
    StripKeeps(lines + [""]);
  }

  function Returns(n: nat): string {
    seq(n, _ => '\r')
  }

  lemma StripReturns(line: string, n: nat)
    requires Carriable(line)
    ensures StripReturn(line + Returns(n)) == line + Returns(if n == 0 then 0 else n - 1)
  {
    var l := line + Returns(n);
    if n > 0 {
      assert l[..|l| - 1] == line + Returns(n - 1);
    } else {
      assert l == line;
    }
  }

  /** A line break takes up to two carriage returns with it, the end of the diff one; any others stay. */
  lemma NormalizeReturns(lines: seq<string>, returns': seq<nat>)
    requires lines != [] && |returns'| == |lines| && lines[|lines| - 1] != "" && forall i :: 0 <= i < |lines| ==> Carriable(lines[i])
    ensures var sent := seq(|lines|, i requires 0 <= i < |lines| => lines[i] + Returns(returns'[i]));
            var read := NormalizeDiffLines(Join(sent));
            && |read| == |lines|
            && forall i :: 0 <= i < |lines| ==>
                 var taken := if i < |lines| - 1 then 2 else 1;
                 read[i] == lines[i] + Returns(if returns'[i] < taken then 0 else returns'[i] - taken)
  {
    hide Split, Join, StripReturn, Returns;
    var sent := seq(|lines|, i requires 0 <= i < |lines| => lines[i] + Returns(returns'[i]));
    NoBreaks(lines, returns');
    SplitJoin(sent);
    forall i | 0 <= i < |lines|
      ensures var taken := if i < |lines| - 1 then 2 else 1;
              StripPieces(sent)[i] == lines[i] + Returns(if returns'[i] < taken then 0 else returns'[i] - taken)
    {
      StripReturns(lines[i], returns'[i]);
      StripReturns(lines[i], if returns'[i] == 0 then 0 else returns'[i] - 1);
    }
  }

  lemma NoBreaks(lines: seq<string>, returns': seq<nat>)
    requires |returns'| == |lines| && forall i :: 0 <= i < |lines| ==> Carriable(lines[i])
    ensures forall i :: 0 <= i < |lines| ==> '\n' !in lines[i] + Returns(returns'[i])
  {
  }

  predicate StartsWith(s: string, prefix: string) {
    prefix <= s
  }

  /** isDone: at the end, or at a line with one of the prefixes. */
  predicate IsDone(lines: seq<string>, index: nat, prefixes: seq<string>) {
    index >= |lines| || exists i :: 0 <= i < |prefixes| && StartsWith(lines[index], prefixes[i])
  }

  const SECTION_TERMINATORS := [END_PATCH, UPDATE_FILE, DELETE_FILE, ADD_FILE]
  const END_SECTION_MARKERS := [END_PATCH, UPDATE_FILE, DELETE_FILE, ADD_FILE, END_FILE]
}
