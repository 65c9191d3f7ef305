/**
 * The JavaScript string operations the rule uses on source text, written out
 * with their JavaScript semantics: `indexOf` answers -1 when nothing is found,
 * `slice` accepts negative bounds, `replace` with a string pattern replaces the
 * first occurrence only, `trim` strips the whitespace class `\s`, `split` and
 * `join` work on one separator character.  Strings are `seq<char>`; the
 * whitespace class is its ASCII part.
 */
module SourceText {

  /** A character of the ASCII part of the regular-expression class `\s`. */
  predicate IsSpace(c: char) {
    c == ' ' || c == '\t' || c == '\n' || c == '\r' || c == '\U{000B}' || c == '\U{000C}'
  }

  /** A line terminator as ESLint splits `sourceCode.lines`. */
  predicate IsLineBreak(c: char) {
    c == '\n' || c == '\r' || c == '\U{2028}' || c == '\U{2029}'
  }

  predicate AllSpace(s: string) {
    forall k :: 0 <= k < |s| ==> IsSpace(s[k])
  }

  /** The number of whitespace characters `s` starts with. */
  function LeadingSpaceCount(s: string): (n: nat)
    ensures n <= |s|
    ensures AllSpace(s[..n])
    ensures n < |s| ==> !IsSpace(s[n])
  {
    if |s| > 0 && IsSpace(s[0]) then
      var n := 1 + LeadingSpaceCount(s[1..]);
      assert s[..n] == [s[0]] + s[1..][..n - 1];
      n
    else 0
  }

  /** The number of whitespace characters `s` ends with. */
  function TrailingSpaceCount(s: string): (n: nat)
    ensures n <= |s|
    ensures AllSpace(s[|s| - n..])
    ensures n < |s| ==> !IsSpace(s[|s| - n - 1])
  {
    if |s| > 0 && IsSpace(s[|s| - 1]) then
      var n := 1 + TrailingSpaceCount(s[..|s| - 1]);
      assert s[|s| - n..] == s[..|s| - 1][|s| - n..] + [s[|s| - 1]];
      n
    else 0
  }

  // `s.match(/^\s*/)[0]`: the whitespace prefix of `s`.
  function LeadingSpace(s: string): string {
    s[..LeadingSpaceCount(s)]
  }

  /** `s.trim()`: `s` with its whitespace prefix and suffix removed, and nothing else. */
  function Trim(s: string): (r: string)
    ensures r == [] || (!IsSpace(r[0]) && !IsSpace(r[|r| - 1]))
    ensures var lead := LeadingSpaceCount(s);
      && lead + |r| <= |s| && r == s[lead..lead + |r|]
      && AllSpace(s[..lead]) && AllSpace(s[lead + |r|..])
  {
    var lead := LeadingSpaceCount(s);
    var rest := s[lead..];
    var trail := TrailingSpaceCount(rest);
    assert rest != [] ==> !IsSpace(rest[0]);
    assert s[lead + |rest| - trail..] == rest[|rest| - trail..];
    rest[..|rest| - trail]
  }

  /** `!s.trim()`: the string holds whitespace only. */
  predicate IsBlank(s: string) {
    Trim(s) == []
  }

  /** The three facts about `LeadingSpaceCount` pin it down. */
  lemma {:induction false} LeadingSpaceCountUnique(s: string, m: nat)
    requires m <= |s| && AllSpace(s[..m]) && (m < |s| ==> !IsSpace(s[m]))
    ensures LeadingSpaceCount(s) == m
  {
    if m > 0 {
      assert s[..m][0] == s[0];
      assert s[1..][..m - 1] == s[..m][1..];
      LeadingSpaceCountUnique(s[1..], m - 1);
    }
  }

  /** A string trims to nothing exactly when it is whitespace only. */
  lemma BlankIffAllSpace(s: string)
    ensures IsBlank(s) <==> AllSpace(s)
  {
    if AllSpace(s) {
      assert s[..|s|] == s;
      LeadingSpaceCountUnique(s, |s|);
    } else {
      var lead := LeadingSpaceCount(s);
      LeadBeforeNonSpace(s);
      TrailAfterNonSpace(s[lead..]);
    }
  }

  /** A string with a non-whitespace character does not start with whitespace only. */
  lemma LeadBeforeNonSpace(s: string)
    requires !AllSpace(s)
    ensures LeadingSpaceCount(s) < |s|
  {
    assert s[..|s|] == s;
  }

  /** A string starting with a non-whitespace character does not end with whitespace only. */
  lemma TrailAfterNonSpace(rest: string)
    requires rest != [] && !IsSpace(rest[0])
    ensures TrailingSpaceCount(rest) < |rest|
  {
    assert rest[0..] == rest;
  }

  /** Trimming keeps no character the string did not have. */
  lemma TrimKeepsOut(s: string, c: char)
    requires c !in s
    ensures c !in Trim(s)
  {
    var lead := LeadingSpaceCount(s);
    var rest := s[lead..];
    var trail := TrailingSpaceCount(rest);
    var r := rest[..|rest| - trail];
    assert forall k :: 0 <= k < |r| ==> r[k] == s[lead + k];
  }

  /** A concatenation of whitespace-only strings is whitespace only. */
  lemma AllSpaceConcat(a: string, b: string)
    requires AllSpace(a) && AllSpace(b)
    ensures AllSpace(a + b)
  {
    assert forall k :: |a| <= k < |a + b| ==> (a + b)[k] == b[k - |a|];
  }

  /** `s.replace('', '')` leaves `s` unchanged. */
  lemma ReplaceFirstEmpty(s: string)
    ensures ReplaceFirst(s, "", "") == s
  {
    assert OccursAt(s, "", 0);
    assert s[..0] + "" + s[0..] == s;
  }

  /** Trimming whitespace put in front of an already trimmed, non-empty string removes exactly it. */
  lemma TrimSpacePrefix(ws: string, x: string)
    requires AllSpace(ws)
    requires x != [] && !IsSpace(x[0]) && !IsSpace(x[|x| - 1])
    ensures Trim(ws + x) == x
    ensures SearchNonSpace(ws + x) == |ws|
  {
    var s := ws + x;
    assert s[..|ws|] == ws;
    assert s[|ws|] == x[0];
    LeadingSpaceCountUnique(s, |ws|);
    assert s[|ws|..] == x;
    assert TrailingSpaceCount(x) == 0;
    assert x[..|x|] == x;
  }

  /** `s.search(/\S/)`: the index of the first non-whitespace character, or -1. */
  function SearchNonSpace(s: string): (r: int)
    ensures r == -1 <==> AllSpace(s)
    ensures !AllSpace(s) ==> r >= 0
    ensures r >= 0 ==> r < |s| && !IsSpace(s[r]) && AllSpace(s[..r])
  {
    var n := LeadingSpaceCount(s);
    if n == |s| then
      assert s[..n] == s;
      -1
    else n
  }

  /** `' '.repeat(n)`. */
  function Spaces(n: nat): (r: string)
    ensures |r| == n && forall k :: 0 <= k < n ==> r[k] == ' '
  {
    if n == 0 then "" else Spaces(n - 1) + " "
  }

  predicate StartsWith(s: string, p: string) {
    |p| <= |s| && s[..|p|] == p
  }

  predicate EndsWith(s: string, p: string) {
    |p| <= |s| && s[|s| - |p|..] == p
  }

  /** `p` occurs in `s` at index `j`. */
  predicate OccursAt(s: string, p: string, j: int) {
    0 <= j && j + |p| <= |s| && s[j..j + |p|] == p
  }

  /** The first index at or after `k` where `p` occurs in `s`, or -1. */
  function IndexOfFrom(s: string, p: string, k: nat): (r: int)
    requires k <= |s|
    ensures r == -1 || (k <= r && OccursAt(s, p, r))
    ensures r >= 0 ==> forall j :: k <= j < r ==> !OccursAt(s, p, j)
    ensures r == -1 ==> forall j :: k <= j ==> !OccursAt(s, p, j)
    decreases |s| - k
  {
    if k + |p| > |s| then -1
    else if s[k..k + |p|] == p then k
    else IndexOfFrom(s, p, k + 1)
  }

  /** `s.indexOf(p, from)`: the start position is clamped to `[0, |s|]`. */
  function IndexOf(s: string, p: string, from: int): (r: int)
    ensures r == -1 || (OccursAt(s, p, r) && (from <= r || (p == [] && r == |s|)))
    ensures r >= 0 ==> forall j :: from <= j < r ==> !OccursAt(s, p, j)
    ensures r == -1 ==> forall j :: from <= j ==> !OccursAt(s, p, j)
    ensures p == [] ==> r == (if from < 0 then 0 else if from > |s| then |s| else from)
  {
    IndexOfFrom(s, p, if from < 0 then 0 else if from > |s| then |s| else from)
  }

  /** Resolves one bound of `slice` the way JavaScript does. */
  function SliceBound(len: nat, b: int): (r: nat)
    ensures r <= len
  {
    if b < 0 then (if len + b < 0 then 0 else len + b)
    else if b > len then len else b
  }

  /** `s.slice(a, b)`. */
  function Slice(s: string, a: int, b: int): string {
    var lo := SliceBound(|s|, a);
    var hi := SliceBound(|s|, b);
    if lo >= hi then "" else s[lo..hi]
  }

  /** `s.replace(p, r)` with a string pattern: only the first occurrence is replaced. */
  function ReplaceFirst(s: string, p: string, r: string): string {
    var k := IndexOf(s, p, 0);
    if k < 0 then s else s[..k] + r + s[k + |p|..]
  }

  /** The first index of `c` in `s`. */
  function FirstIndexOf(s: string, c: char): (k: nat)
    requires c in s
    ensures k < |s| && s[k] == c && c !in s[..k]
  {
    if s[0] == c then 0
    else
      var k := 1 + FirstIndexOf(s[1..], c);
      assert s[..k] == [s[0]] + s[1..][..k - 1];
      k
  }

  /** `s.split(sep)` for a one-character separator. */
  function Split(s: string, sep: char): (r: seq<string>)
    ensures |r| >= 1
    ensures forall k :: 0 <= k < |r| ==> sep !in r[k]
    decreases |s|
  {
    if sep !in s then [s]
    else
      var k := FirstIndexOf(s, sep);
      [s[..k]] + Split(s[k + 1..], sep)
  }

  /** The first piece of a split starts with the string's first character when that is not the separator. */
  lemma SplitFirstPiece(s: string, sep: char)
    requires s != [] && s[0] != sep
    ensures Split(s, sep)[0] != [] && Split(s, sep)[0][0] == s[0]
  {
    if sep in s {
      var k := FirstIndexOf(s, sep);
      assert k > 0;
    }
  }

  /** `(x + y).replace(y, '')` gives back `x` when `y` does not occur earlier. */
  lemma ReplaceFirstSuffix(x: string, y: string)
    requires forall j :: 0 <= j < |x| ==> !OccursAt(x + y, y, j)
    ensures ReplaceFirst(x + y, y, "") == x
  {
    var s := x + y;
    assert OccursAt(s, y, |x|) by {
      assert s[|x|..|x| + |y|] == y;
    }
    var k := IndexOf(s, y, 0);
    assert k == |x|;
    assert s[..k] == x;
  }

  /** A slice of a slice is a slice of the whole. */
  lemma SliceOfSlice(s: string, a: nat, b: nat, c: nat, d: nat)
    requires a <= c <= d <= b <= |s|
    ensures s[a..b][c - a..d - a] == s[c..d]
  {
    var inner := s[a..b][c - a..d - a];
    assert |inner| == d - c;
    forall k | 0 <= k < d - c
      ensures inner[k] == s[c..d][k]
    {
      assert inner[k] == s[a..b][c - a + k];
    }
  }

  /** `d` occurs in `x + d + y` right after `x`. */
  lemma OccursAfterPrefix(x: string, d: string, y: string)
    ensures OccursAt(x + d + y, d, |x|)
  {
    assert (x + d + y)[|x|..|x| + |d|] == d;
  }

  /** `lines.join(sep)`. */
  function Join(lines: seq<string>, sep: char): string {
    if |lines| == 0 then ""
    else if |lines| == 1 then lines[0]
    else lines[0] + [sep] + Join(lines[1..], sep)
  }

  /** Joining the pieces of a split gives back the string. */
  lemma {:induction false} JoinSplit(s: string, sep: char)
    ensures Join(Split(s, sep), sep) == s
    decreases |s|
  {
    if sep in s {
      var k := FirstIndexOf(s, sep);
      var rest := Split(s[k + 1..], sep);
      assert Split(s, sep) == [s[..k]] + rest;
      JoinCons(s[..k], rest, sep);
      JoinSplit(s[k + 1..], sep);
      assert s == s[..k] + [sep] + s[k + 1..];
    }
  }

  /** Joining a piece in front of at least one more puts the separator between them. */
  lemma JoinCons(first: string, rest: seq<string>, sep: char)
    requires |rest| >= 1
    ensures Join([first] + rest, sep) == first + [sep] + Join(rest, sep)
  {
    var pieces := [first] + rest;
    assert pieces[0] == first && pieces[1..] == rest;
  }

  /** Splitting a join of separator-free pieces gives back the pieces. */
  lemma {:induction false} SplitJoin(lines: seq<string>, sep: char)
    requires |lines| >= 1
    requires forall k :: 0 <= k < |lines| ==> sep !in lines[k]
    ensures Split(Join(lines, sep), sep) == lines
  {
    if |lines| > 1 {
      var s := Join(lines, sep);
      var rest := Join(lines[1..], sep);
      assert s == lines[0] + [sep] + rest;
      assert s[|lines[0]|] == sep;
      assert s[..|lines[0]|] == lines[0];
      var k := FirstIndexOf(s, sep);
      assert forall j :: 0 <= j < |lines[0]| ==> s[j] == lines[0][j];
      assert k == |lines[0]|;
      assert s[k + 1..] == rest;
      SplitJoin(lines[1..], sep);
    }
  }

  /** The offset where the line containing offset `o` begins. */
  function LineStart(src: string, o: nat): (r: nat)
    requires o <= |src|
    ensures r <= o
    ensures r == 0 || IsLineBreak(src[r - 1])
    ensures forall k :: r <= k < o ==> !IsLineBreak(src[k])
  {
    if o == 0 || IsLineBreak(src[o - 1]) then o else LineStart(src, o - 1)
  }

  /** The offset where the line containing offset `o` ends (its terminator, or the end). */
  function LineEnd(src: string, o: nat): (r: nat)
    requires o <= |src|
    ensures o <= r <= |src|
    ensures r == |src| || IsLineBreak(src[r])
    ensures forall k :: o <= k < r ==> !IsLineBreak(src[k])
    decreases |src| - o
  {
    if o == |src| || IsLineBreak(src[o]) then o else LineEnd(src, o + 1)
  }

  /**
   * `sourceCode.lines[loc.start.line - 1]` for a token starting at `o`: the
   * whole line holding `o`, without its terminator.
   */
  function LineAt(src: string, o: nat): (line: string)
    requires o <= |src|
    ensures forall k :: 0 <= k < |line| ==> !IsLineBreak(line[k])
    ensures exists a, b ::
      && 0 <= a <= o <= b <= |src| && line == src[a..b]
      && (a == 0 || IsLineBreak(src[a - 1])) && (b == |src| || IsLineBreak(src[b]))
  {
    src[LineStart(src, o)..LineEnd(src, o)]
  }

  // `lines[loc.start.line - 1].match(/^\s*/)[0]` for a token starting at `o`.
  function IndentationAt(src: string, o: nat): (ind: string)
    requires o <= |src|
    ensures AllSpace(ind)
    ensures forall k :: 0 <= k < |ind| ==> !IsLineBreak(ind[k])
    ensures var line := LineAt(src, o);
      |ind| <= |line| && ind == line[..|ind|] && (|ind| < |line| ==> !IsSpace(line[|ind|]))
  {
    var line := LineAt(src, o);
    assert forall k :: 0 <= k < LeadingSpaceCount(line) ==> line[..LeadingSpaceCount(line)][k] == line[k];
    LeadingSpace(line)
  }
}
