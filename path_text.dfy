/** The string operations the logger applies to paths and list-file lines:
    `str.strip()`, the case-insensitive ".pdf" test, `str.endswith` and
    `os.path.basename`. */
module PathText {

  /** Python's `str.isspace()` for one character: the ASCII tab, line feed,
      vertical tab, form feed, carriage return, the separators 0x1C-0x1F and
      space, plus the Unicode white-space code points. */
  predicate IsSpace(c: char)
  {
    var n := c as int;
    || 0x09 <= n <= 0x0D
    || 0x1C <= n <= 0x20
    || n == 0x85 || n == 0xA0 || n == 0x1680
    || 0x2000 <= n <= 0x200A
    || n == 0x2028 || n == 0x2029 || n == 0x202F || n == 0x205F || n == 0x3000
  }

  /** Neither end of `t` is white space (so `str.strip()` leaves it alone). */
  predicate IsStripped(t: string)
  {
    |t| == 0 || (!IsSpace(t[0]) && !IsSpace(t[|t| - 1]))
  }

  /** How many white-space characters open `s`. */
  function LeadingSpace(s: string): (n: nat)
    ensures n <= |s|
    ensures forall k :: 0 <= k < n ==> IsSpace(s[k])
    ensures n < |s| ==> !IsSpace(s[n])
  {
    if |s| > 0 && IsSpace(s[0]) then 1 + LeadingSpace(s[1..]) else 0
  }

  /** How many white-space characters close `s`. */
  function TrailingSpace(s: string): (n: nat)
    ensures n <= |s|
    ensures forall k :: |s| - n <= k < |s| ==> IsSpace(s[k])
    ensures n < |s| ==> !IsSpace(s[|s| - n - 1])
  {
    if |s| > 0 && IsSpace(s[|s| - 1]) then 1 + TrailingSpace(s[..|s| - 1]) else 0
  }

  /** `str.strip()`: the stripped slice of `s` that starts after its leading
      white space, with only white space after it. */
  function Strip(s: string): (r: string)
    ensures IsStripped(r)
    ensures LeadingSpace(s) + |r| <= |s|
    ensures r == s[LeadingSpace(s)..LeadingSpace(s) + |r|]
    ensures forall k :: LeadingSpace(s) + |r| <= k < |s| ==> IsSpace(s[k])
  {
    var t := s[LeadingSpace(s)..];
    t[..|t| - TrailingSpace(t)]
  }

  /** A stripped string is its own strip, so stripping is idempotent. */
  lemma StripFixesStripped(t: string)
    requires IsStripped(t)
    ensures Strip(t) == t
  {
  }

  lemma StripIdempotent(s: string)
    ensures Strip(Strip(s)) == Strip(s)
  {
    StripFixesStripped(Strip(s));
  }

  /** `str.endswith(suffix)`. */
  predicate EndsWith(s: string, suffix: string)
  {
    |suffix| <= |s| && s[|s| - |suffix|..] == suffix
  }

  /** `str.lower()` on one character, for the ASCII letters. */
  function LowerChar(c: char): char
  {
    if 'A' <= c <= 'Z' then (c as int + 32) as char else c
  }

  /** `str.lower()`, character by character. */
  function Lower(s: string): (r: string)
  {
    seq(|s|, k requires 0 <= k < |s| => LowerChar(s[k]))
  }

  /** `path.lower().endswith('.pdf')` (bates_logger.py:56). */
  predicate EndsWithPdfIgnoreCase(path: string)
  {
    EndsWith(Lower(path), ".pdf")
  }

  /** The case-insensitive test accepts exactly the paths whose last four
      characters spell ".pdf" in any mix of letter case. */
  lemma PdfSuffixAnyCase(path: string)
    ensures EndsWithPdfIgnoreCase(path) <==>
              && |path| >= 4 && path[|path| - 4] == '.'
              && path[|path| - 3] in {'p', 'P'} && path[|path| - 2] in {'d', 'D'}
              && path[|path| - 1] in {'f', 'F'}
  {
    var low := Lower(path);
    if |path| >= 4 {
      var n := |path|;
      assert low[n - 4..] == [low[n - 4], low[n - 3], low[n - 2], low[n - 1]];
    }
  }

  /** `os.path.basename(path)` with `seps` as the directory separators: the
      longest tail of `path` holding no separator. */
  function BaseName(path: string, seps: set<char>): (r: string)
    ensures |r| <= |path| && r == path[|path| - |r|..]
    ensures forall k :: 0 <= k < |r| ==> r[k] !in seps
    ensures |r| < |path| ==> path[|path| - |r| - 1] in seps
  {
    if |path| == 0 || path[|path| - 1] in seps then []
    else BaseName(path[..|path| - 1], seps) + [path[|path| - 1]]
  }

  /** The file name of a path is the segment after its last separator. */
  lemma {:induction false} BaseNameOfJoin(dir: string, sep: char, name: string, seps: set<char>)
    requires sep in seps
    requires forall k :: 0 <= k < |name| ==> name[k] !in seps
    ensures BaseName(dir + [sep] + name, seps) == name
  {
    var path := dir + [sep] + name;
    if |name| > 0 {
      var init := name[..|name| - 1];
      BaseNameOfJoin(dir, sep, init, seps);
      assert path[..|path| - 1] == dir + [sep] + init;
      assert name == init + [name[|name| - 1]];
    }
  }
}
