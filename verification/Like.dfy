/**
 The LIKE matcher: backtracking over text and pattern, and the meaning SQL-92 section 8.5 gives it
 without ESCAPE.
 */
module Like {

  // The text from ti on matches the pattern from pi on.
  predicate GlobLikeChars(t: string, ti: nat, p: string, pi: nat)
    requires ti <= |t| && pi <= |p|
    decreases |p| - pi
  {
    if pi == |p| then ti == |t|
    else if p[pi] == '%' then
      var rest := pi + 1;
      exists next :: ti <= next <= |t| && GlobLikeChars(t, next, p, rest)
    else if p[pi] == '_' then
      ti < |t| && GlobLikeChars(t, ti + 1, p, pi + 1)
    else
      ti < |t| && t[ti] == p[pi] && GlobLikeChars(t, ti + 1, p, pi + 1)
  }

  predicate GlobLike(text: string, pattern: string) {
    GlobLikeChars(text, 0, pattern, 0)
  }

  // ------------------------------------------------------------------------
  // Partitions, as in the general rules of SQL-92 section 8.5
  // ------------------------------------------------------------------------

  ghost predicate Fits(piece: string, c: char) {
    c == '%' || (|piece| == 1 && (c == '_' || piece[0] == c))
  }

  ghost function Concat(pieces: seq<string>): string {
    if pieces == [] then "" else pieces[0] + Concat(pieces[1..])
  }

  // The text is cut into one piece for each pattern character.
  ghost predicate Cuts(pieces: seq<string>, text: string, pattern: string) {
    |pieces| == |pattern| && Concat(pieces) == text &&
    forall i :: 0 <= i < |pattern| ==> Fits(pieces[i], pattern[i])
  }

  ghost predicate Matches(text: string, pattern: string) {
    exists pieces :: Cuts(pieces, text, pattern)
  }

  lemma CutsCons(piece: string, pieces: seq<string>, text: string, pattern: string)
    requires pattern != "" && Fits(piece, pattern[0]) && Cuts(pieces, text, pattern[1..])
    ensures Matches(piece + text, pattern)
  {
    var all := [piece] + pieces;
    assert all[1..] == pieces;
    forall i | 0 <= i < |pattern|
      ensures Fits(all[i], pattern[i])
    {
      if i > 0 {
        assert pattern[1..][i - 1] == pattern[i];
      }
    }
    assert Cuts(all, piece + text, pattern);
  }

  lemma CutsTail(pieces: seq<string>, text: string, pattern: string)
    requires pattern != "" && Cuts(pieces, text, pattern)
    ensures |pieces[0]| <= |text| && pieces[0] == text[..|pieces[0]|]
    ensures Fits(pieces[0], pattern[0])
    ensures Cuts(pieces[1..], text[|pieces[0]|..], pattern[1..])
  {
    assert text == pieces[0] + Concat(pieces[1..]);
    forall i | 0 <= i < |pattern| - 1
      ensures Fits(pieces[1..][i], pattern[1..][i])
    {
      assert Fits(pieces[i + 1], pattern[i + 1]);
    }
  }

  lemma {:induction false} AcceptedIsCut(t: string, ti: nat, p: string, pi: nat)
    requires ti <= |t| && pi <= |p| && GlobLikeChars(t, ti, p, pi)
    ensures Matches(t[ti..], p[pi..])
    decreases |p| - pi
  {
    if pi == |p| {
      assert Cuts([], t[ti..], p[pi..]);
    } else {
      var next := ti + 1;
      if p[pi] == '%' {
        next :| ti <= next <= |t| && GlobLikeChars(t, next, p, pi + 1);
      }
      AcceptedIsCut(t, next, p, pi + 1);
      var pieces :| Cuts(pieces, t[next..], p[pi + 1..]);
      assert p[pi..][1..] == p[pi + 1..];
      CutsCons(t[ti..next], pieces, t[next..], p[pi..]);
      assert t[ti..next] + t[next..] == t[ti..];
    }
  }

  lemma {:induction false} CutIsAccepted(t: string, ti: nat, p: string, pi: nat, pieces: seq<string>)
    requires ti <= |t| && pi <= |p| && Cuts(pieces, t[ti..], p[pi..])
    ensures GlobLikeChars(t, ti, p, pi)
    decreases |p| - pi
  {
    if pi < |p| {
      CutsTail(pieces, t[ti..], p[pi..]);
      var n := |pieces[0]|;
      assert t[ti..][n..] == t[ti + n..] && p[pi..][1..] == p[pi + 1..];
      CutIsAccepted(t, ti + n, p, pi + 1, pieces[1..]);
      assert p[pi..][0] == p[pi];
      assert n == 1 ==> pieces[0][0] == t[ti];
    }
  }

  // The matcher accepts exactly when the text can be cut into one fitting piece for each pattern
  // character.
  lemma GlobLikeIsLike(text: string, pattern: string)
    ensures GlobLike(text, pattern) <==> Matches(text, pattern)
  {
    assert text[0..] == text && pattern[0..] == pattern;
    if GlobLike(text, pattern) {
      AcceptedIsCut(text, 0, pattern, 0);
    }
    if Matches(text, pattern) {
      var pieces :| Cuts(pieces, text, pattern);
      CutIsAccepted(text, 0, pattern, 0, pieces);
    }
  }
}
