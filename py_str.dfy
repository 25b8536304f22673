/**
 * Python's `str.find` and `str.split(sep)` for a non-empty separator:
 * the string is cut at every occurrence of `sep`, scanning left to right.
 */
module PyStr {
  import opened Optional

  /** `sep` occurs in `s` starting at index `i`. */
  predicate OccursAt(s: string, sep: string, i: int)
  {
    0 <= i && i + |sep| <= |s| && s[i..i + |sep|] == sep
  }

  ghost predicate Contains(s: string, sep: string)
  {
    exists i :: OccursAt(s, sep, i)
  }

  /** `i` is the first occurrence of `sep` in `s`. */
  predicate IsFirst(s: string, sep: string, i: int)
  {
    OccursAt(s, sep, i) && forall j :: 0 <= j < i ==> !OccursAt(s, sep, j)
  }

  /** `t` starts at index `b` of `s` and runs up to the next occurrence of `sep`
      at or after `b`, or to the end of `s` when there is none. */
  predicate RunsToNextMarker(s: string, sep: string, b: int, t: string)
  {
    && 0 <= b && b + |t| <= |s| && s[b..b + |t|] == t
    && (b + |t| == |s| || OccursAt(s, sep, b + |t|))
    && forall j :: b <= j < b + |t| ==> !OccursAt(s, sep, j)
  }

  /** `t` is the text between the first and the second occurrence of `sep` in
      `s` (or between the first occurrence and the end). */
  ghost predicate IsSecondPiece(s: string, sep: string, t: string)
  {
    exists i :: IsFirst(s, sep, i) && RunsToNextMarker(s, sep, i + |sep|, t)
  }

  /** Occurrences in a suffix are the occurrences in the whole string, shifted. */
  lemma OccursInSuffix(s: string, sep: string, b: int)
    requires 0 <= b <= |s|
    ensures forall j :: b <= j ==> (OccursAt(s, sep, j) <==> OccursAt(s[b..], sep, j - b))
  {
  }

  /** `s.find(sep)`, with `None` for Python's -1. */
  function Find(s: string, sep: string): (r: Option<nat>)
    requires sep != []
    ensures r.Some? ==> IsFirst(s, sep, r.value)
    ensures r.None? ==> !Contains(s, sep)
    decreases |s|
  {
    if |s| < |sep| then None
    else if s[..|sep|] == sep then Some(0)
    else
      OccursInSuffix(s, sep, 1);
      match Find(s[1..], sep)
      case None => None
      case Some(k) => Some(k + 1)
  }

  /** No occurrence lies wholly before the first one. */
  lemma PrefixBeforeFirst(s: string, sep: string, i: int)
    requires sep != []
    requires IsFirst(s, sep, i)
    ensures !Contains(s[..i], sep)
  {
    forall j | 0 <= j && j + |sep| <= i
      ensures !OccursAt(s[..i], sep, j)
    {
      assert j < i && !OccursAt(s, sep, j);
      assert s[..i][j..j + |sep|] == s[j..j + |sep|];
    }
  }

  /** `s.split(sep)`: the pieces between successive occurrences of `sep`. */
  function Split(s: string, sep: string): (r: seq<string>)
    requires sep != []
    ensures |r| >= 1
    ensures forall k :: 0 <= k < |r| ==> !Contains(r[k], sep)
    decreases |s|
  {
    match Find(s, sep)
    case None => [s]
    case Some(i) =>
      PrefixBeforeFirst(s, sep, i);
      [s[..i]] + Split(s[i + |sep|..], sep)
  }

  /** `sep.join(pieces)`. */
  function Join(pieces: seq<string>, sep: string): string
    requires |pieces| >= 1
  {
    if |pieces| == 1 then pieces[0] else pieces[0] + sep + Join(pieces[1..], sep)
  }

  /** Splitting loses nothing: joining the pieces back gives the string. */
  lemma {:induction false} JoinSplit(s: string, sep: string)
    requires sep != []
    ensures Join(Split(s, sep), sep) == s
    decreases |s|
  {
    var first := Find(s, sep);
    if first.Some? {
      var i := first.value;
      var rest := s[i + |sep|..];
      var pieces := Split(s, sep);
      assert pieces == [s[..i]] + Split(rest, sep);
      assert pieces[1..] == Split(rest, sep);
      JoinSplit(rest, sep);
      assert s == s[..i] + sep + rest;
    }
  }

  /** Piece [1] of a split exists exactly when the separator occurs, and it is
      the text between the first and the second occurrence. */
  lemma SplitSecondPiece(s: string, sep: string)
    requires sep != []
    ensures |Split(s, sep)| >= 2 <==> Contains(s, sep)
    ensures |Split(s, sep)| >= 2 ==> IsSecondPiece(s, sep, Split(s, sep)[1])
  {
    var first := Find(s, sep);
    if first.Some? {
      var i := first.value;
      SplitAtFirst(s, sep, i);
    } else {
      assert Split(s, sep) == [s];
    }
  }

  /** Splitting at a first occurrence `i`: piece [1] runs from just after it
      to the next occurrence. */
  lemma SplitAtFirst(s: string, sep: string, i: nat)
    requires sep != [] && Find(s, sep) == Some(i)
    ensures Contains(s, sep)
    ensures |Split(s, sep)| >= 2
    ensures IsSecondPiece(s, sep, Split(s, sep)[1])
  {
    var b := i + |sep|;
    var rest := s[b..];
    assert OccursAt(s, sep, i);
    assert Split(s, sep) == [s[..i]] + Split(rest, sep);
    var t := Split(rest, sep)[0];
    PieceRunsToNextMarker(s, sep, b);
    assert IsFirst(s, sep, i) && RunsToNextMarker(s, sep, b, t);
  }

  /** The first piece of a suffix runs up to the suffix's first marker. */
  lemma PieceRunsToNextMarker(s: string, sep: string, b: int)
    requires sep != [] && 0 <= b <= |s|
    ensures RunsToNextMarker(s, sep, b, Split(s[b..], sep)[0])
  {
    var rest := s[b..];
    var t := Split(rest, sep)[0];
    OccursInSuffix(s, sep, b);
    var next := Find(rest, sep);
    if next.Some? {
      var e := next.value;
      assert t == rest[..e];
      assert OccursAt(rest, sep, e);
    } else {
      assert t == rest;
    }
    assert s[b..b + |t|] == t;
  }
}
