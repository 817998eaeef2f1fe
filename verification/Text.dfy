/** Splitting a string at every occurrence of a character, and joining the pieces again. */
module Text {
  /** There is always at least one piece. */
  function SplitOn(sep: char, s: string): (r: seq<string>)
    ensures |r| >= 1
  {
    if s == "" then [""]
    else if s[0] == sep then [""] + SplitOn(sep, s[1..])
    else
      var r := SplitOn(sep, s[1..]);
      [[s[0]] + r[0]] + r[1..]
  }

  function JoinWith(sep: char, pieces: seq<string>): string {
    if pieces == [] then "" else if |pieces| == 1 then pieces[0] else pieces[0] + [sep] + JoinWith(sep, pieces[1..])
  }

  lemma {:induction false} JoinOfSplit(sep: char, s: string)
    ensures JoinWith(sep, SplitOn(sep, s)) == s
    ensures forall i :: 0 <= i < |SplitOn(sep, s)| ==> sep !in SplitOn(sep, s)[i]
  {
    if s != "" {
      JoinOfSplit(sep, s[1..]);
      var r := SplitOn(sep, s[1..]);
      if s[0] == sep {
        assert ([""] + r)[1..] == r;
      } else {
        assert ([[s[0]] + r[0]] + r[1..])[1..] == r[1..];
      }
    }
  }

  lemma {:induction false} SplitFirstPiece(sep: char, piece: string, rest: string)
    requires sep !in piece
    ensures SplitOn(sep, piece + [sep] + rest) == [piece] + SplitOn(sep, rest)
    ensures SplitOn(sep, piece) == [piece]
  {
    if piece == "" {
      assert piece + [sep] + rest == [sep] + rest;
      assert ([sep] + rest)[1..] == rest;
    } else {
      SplitFirstPiece(sep, piece[1..], rest);
      assert (piece + [sep] + rest)[1..] == piece[1..] + [sep] + rest;
      assert [piece[0]] + piece[1..] == piece;
    }
  }

  lemma {:induction false} SplitOfJoin(sep: char, pieces: seq<string>)
    requires pieces != [] && forall i :: 0 <= i < |pieces| ==> sep !in pieces[i]
    ensures SplitOn(sep, JoinWith(sep, pieces)) == pieces
  {
    if |pieces| == 1 {
      SplitFirstPiece(sep, pieces[0], "");
    } else {
      SplitOfJoin(sep, pieces[1..]);
      SplitFirstPiece(sep, pieces[0], JoinWith(sep, pieces[1..]));
    }
  }

  lemma {:induction false} SplitTwo(sep: char, a: string, b: string)
    ensures SplitOn(sep, a + [sep] + b) == SplitOn(sep, a) + SplitOn(sep, b)
  {
    var s := a + [sep] + b;
    if a == "" {
      assert s[1..] == b;
    } else {
      assert s[0] == a[0] && s[1..] == a[1..] + [sep] + b;
      SplitTwo(sep, a[1..], b);
      PiecesMove(a[0], SplitOn(sep, a[1..]), SplitOn(sep, b));
    }
  }

  /** A first piece, new or longer by a character, is the same before and after joining two lists of pieces. */
  lemma PiecesMove(c: char, x: seq<string>, y: seq<string>)
    requires |x| >= 1
    ensures [""] + (x + y) == [""] + x + y
    ensures [[c] + (x + y)[0]] + (x + y)[1..] == [[c] + x[0]] + x[1..] + y
  {
    assert (x + y)[1..] == x[1..] + y;
  }
}
