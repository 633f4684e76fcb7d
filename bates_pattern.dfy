/** The fixed Bates pattern `DTB \d{4}` and what `re.findall` returns for it
    (bates_logger.py:12, 29, 37). A match is an 8-character window: the
    letters "DTB", one space, then four decimal digits. */
module BatesPattern {

  /** Number of characters in every match of the pattern. */
  const TokenLength: nat := 8

  /** `\d`, restricted to the ASCII digits. */
  predicate IsDigit(c: char)
  {
    '0' <= c <= '9'
  }

  /** The pattern matches `s` starting at index `i`. */
  predicate IsBatesAt(s: string, i: nat)
  {
    && i + TokenLength <= |s|
    && s[i] == 'D' && s[i + 1] == 'T' && s[i + 2] == 'B' && s[i + 3] == ' '
    && IsDigit(s[i + 4]) && IsDigit(s[i + 5]) && IsDigit(s[i + 6]) && IsDigit(s[i + 7])
  }

  /** `t` is, in its entirety, one match of the pattern. */
  predicate IsBatesToken(t: string)
  {
    |t| == TokenLength && IsBatesAt(t, 0)
  }

  /** The 8 characters of `s` from index `i` on (empty when they run past the end). */
  function Window(s: string, i: nat): string
  {
    if i + TokenLength <= |s| then s[i..i + TokenLength] else []
  }

  /** The pattern matches somewhere in `s`. */
  ghost predicate HasMatch(s: string)
  {
    exists i :: IsBatesAt(s, i)
  }

  /** `i` starts a match and no earlier index does. */
  ghost predicate IsLeftmost(s: string, i: nat)
  {
    IsBatesAt(s, i) && forall j :: 0 <= j < i ==> !IsBatesAt(s, j)
  }

  /** `i` starts a match and no later index does. */
  ghost predicate IsRightmost(s: string, i: nat)
  {
    IsBatesAt(s, i) && forall j :: i < j ==> !IsBatesAt(s, j)
  }

  /** The scan `re.findall` performs from position `p`: a match at `p` is
      taken whole and the scan resumes after it; otherwise it moves on by one. */
  function FindAllFrom(s: string, p: nat): (r: seq<string>)
    ensures forall k :: 0 <= k < |r| ==> IsBatesToken(r[k])
    decreases |s| - p
  {
    if |s| < p + TokenLength then []
    else if IsBatesAt(s, p) then [s[p..p + TokenLength]] + FindAllFrom(s, p + TokenLength)
    else FindAllFrom(s, p + 1)
  }

  /** `re.findall(BATES_PATTERN, s)`: the windows at every index where the
      pattern matches, in increasing order of index. */
  function FindAll(s: string): seq<string>
  {
    FindAllFrom(s, 0)
  }

  /** Reference definition: every index from `p` on where the pattern
      matches, in increasing order, whether or not matches overlap. */
  ghost function MatchStartsFrom(s: string, p: nat): (r: seq<nat>)
    ensures forall k :: 0 <= k < |r| ==> p <= r[k] && IsBatesAt(s, r[k])
    ensures forall k, l :: 0 <= k < l < |r| ==> r[k] < r[l]
    ensures forall i :: p <= i && IsBatesAt(s, i) ==> i in r
    decreases |s| - p
  {
    if |s| <= p then []
    else if IsBatesAt(s, p) then [p] + MatchStartsFrom(s, p + 1)
    else MatchStartsFrom(s, p + 1)
  }

  ghost function MatchStarts(s: string): seq<nat>
  {
    MatchStartsFrom(s, 0)
  }

  /** The windows of `s` at the given start indices. */
  function Tokens(s: string, starts: seq<nat>): (r: seq<string>)
  {
    seq(|starts|, k requires 0 <= k < |starts| => Window(s, starts[k]))
  }

  /** Two matches never overlap: the 'D' that opens a match occurs nowhere
      else inside one. */
  lemma NoOverlap(s: string, i: nat, j: nat)
    requires IsBatesAt(s, i) && IsBatesAt(s, j) && i < j
    ensures i + TokenLength <= j
  {
  }

  lemma {:induction false} SkipNonMatches(s: string, p: nat, q: nat)
    requires p <= q
    requires forall i :: p <= i < q ==> !IsBatesAt(s, i)
    ensures MatchStartsFrom(s, p) == MatchStartsFrom(s, q)
    decreases q - p
  {
    if p < q && p < |s| {
      SkipNonMatches(s, p + 1, q);
    }
  }

  /** No match starts strictly inside the match at `p`. */
  lemma NoMatchInside(s: string, p: nat)
    requires IsBatesAt(s, p)
    ensures forall i :: p < i < p + TokenLength ==> !IsBatesAt(s, i)
  {
    forall i | p < i < p + TokenLength
      ensures !IsBatesAt(s, i)
    {
      if IsBatesAt(s, i) {
        NoOverlap(s, p, i);
      }
    }
  }

  lemma TokensCons(s: string, p: nat, rest: seq<nat>)
    ensures Tokens(s, [p] + rest) == [Window(s, p)] + Tokens(s, rest)
  {
  }

  /** The regex scan finds exactly the windows at every match start. */
  lemma {:induction false} FindAllFromIsEveryMatch(s: string, p: nat)
    ensures FindAllFrom(s, p) == Tokens(s, MatchStartsFrom(s, p))
    decreases |s| - p
  {
    if |s| < p + TokenLength {
      var starts := MatchStartsFrom(s, p);
      assert |starts| == 0 || IsBatesAt(s, starts[0]);
    } else if IsBatesAt(s, p) {
      NoMatchInside(s, p);
      SkipNonMatches(s, p + 1, p + TokenLength);
      FindAllFromIsEveryMatch(s, p + TokenLength);
      TokensCons(s, p, MatchStartsFrom(s, p + TokenLength));
    } else {
      FindAllFromIsEveryMatch(s, p + 1);
    }
  }

  lemma FindAllIsEveryMatch(s: string)
    ensures FindAll(s) == Tokens(s, MatchStarts(s))
    ensures |FindAll(s)| == |MatchStarts(s)|
  {
    FindAllFromIsEveryMatch(s, 0);
  }

  /** At most one index is leftmost, and at most one rightmost. */
  lemma ExtremesAreUnique(s: string, i: nat, j: nat)
    ensures IsLeftmost(s, i) && IsLeftmost(s, j) ==> i == j
    ensures IsRightmost(s, i) && IsRightmost(s, j) ==> i == j
  {
  }

  /** The start index of the leftmost match. */
  ghost function FirstStart(s: string): (i: nat)
    requires HasMatch(s)
    ensures IsLeftmost(s, i)
  {
    var w :| IsBatesAt(s, w);
    var starts := MatchStarts(s);
    assert w in starts;
    starts[0]
  }

  /** The start index of the rightmost match. */
  ghost function LastStart(s: string): (i: nat)
    requires HasMatch(s)
    ensures IsRightmost(s, i)
  {
    var w :| IsBatesAt(s, w);
    var starts := MatchStarts(s);
    assert w in starts;
    starts[|starts| - 1]
  }

  /** The first and last reference match starts are the leftmost and
      rightmost matches. */
  lemma MatchStartsEnds(s: string)
    requires HasMatch(s)
    ensures |MatchStarts(s)| > 0
    ensures MatchStarts(s)[0] == FirstStart(s)
    ensures MatchStarts(s)[|MatchStarts(s)| - 1] == LastStart(s)
  {
    var starts := MatchStarts(s);
    var i, j := FirstStart(s), LastStart(s);
    assert i in starts;
    assert IsLeftmost(s, starts[0]);
    ExtremesAreUnique(s, starts[0], i);
    assert IsRightmost(s, starts[|starts| - 1]);
    ExtremesAreUnique(s, starts[|starts| - 1], j);
  }

  /** `re.findall` finds something exactly when the pattern matches; its
      first element is the window at the leftmost match and its last
      element the window at the rightmost match. */
  lemma FindAllEnds(s: string)
    ensures FindAll(s) != [] <==> HasMatch(s)
    ensures HasMatch(s) ==> FindAll(s)[0] == Window(s, FirstStart(s))
    ensures HasMatch(s) ==> FindAll(s)[|FindAll(s)| - 1] == Window(s, LastStart(s))
  {
    FindAllIsEveryMatch(s);
    if HasMatch(s) {
      MatchStartsEnds(s);
    }
    assert |MatchStarts(s)| == 0 || IsBatesAt(s, MatchStarts(s)[0]);
  }

  /** The leftmost match never starts after the rightmost one, and they are
      the same match exactly when `re.findall` returns a single match. */
  lemma FirstNotAfterLast(s: string)
    requires HasMatch(s)
    ensures FirstStart(s) <= LastStart(s)
    ensures FirstStart(s) == LastStart(s) <==> |FindAll(s)| == 1
  {
    FindAllIsEveryMatch(s);
    MatchStartsEnds(s);
  }
}
