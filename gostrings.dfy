/**
 * The parts of Go's `strings` and `unicode` packages that the loader uses.
 * A Go string is modelled as the sequence of its Unicode scalar values
 * (the text is assumed to be valid UTF-8); `ByteLen` recovers the byte
 * length that Go's `len` reports.  Every separator the loader uses is a
 * single ASCII character, so `Cut` and `Split` take a `char`.
 */
module GoStrings {

  /** unicode.IsSpace: ASCII \t \n \v \f \r and space, U+0085, U+00A0, and
      the White_Space characters above Latin-1. */
  predicate IsSpace(c: char) {
    c == ' ' || ('\t' <= c <= '\r') || c == '\U{0085}' || c == '\U{00A0}' ||
    c == '\U{1680}' || ('\U{2000}' <= c <= '\U{200A}') || c == '\U{2028}' ||
    c == '\U{2029}' || c == '\U{202F}' || c == '\U{205F}' || c == '\U{3000}'
  }

  predicate AllSpace(s: string) {
    forall k | 0 <= k < |s| :: IsSpace(s[k])
  }

  /** strings.Contains with a one-character needle. */
  function Contains(s: string, c: char): bool
  {
    s != [] && (s[0] == c || Contains(s[1..], c))
  }

  lemma {:induction false} ContainsIn(s: string, c: char)
    ensures Contains(s, c) <==> c in s
  {
    if s != [] {
      ContainsIn(s[1..], c);
      assert s == [s[0]] + s[1..];
    }
  }

  /** `r` occurs in `s` as a contiguous run: it starts some suffix of `s`. */
  predicate IsSubstring(r: string, s: string)
    decreases |s|
  {
    r <= s || (s != [] && IsSubstring(r, s[1..]))
  }

  /** `r` is `s` with its leading and trailing white space removed, and
      nothing else removed. */
  ghost predicate TrimmedOf(r: string, s: string) {
    (r == [] || (!IsSpace(r[0]) && !IsSpace(r[|r| - 1]))) &&
    exists i, j | 0 <= i <= j <= |s| ::
      s[i..j] == r && AllSpace(s[..i]) && AllSpace(s[j..])
  }

  /** Number of bytes of the UTF-8 encoding of `c`. */
  function RuneLen(c: char): (n: nat)
    ensures 1 <= n <= 4
    ensures n == 1 <==> c < '\U{80}'
  {
    if c < '\U{80}' then 1
    else if c < '\U{800}' then 2
    else if c < '\U{10000}' then 3
    else 4
  }

  /** len(s) in Go: the number of bytes of the UTF-8 encoding of `s`. */
  function ByteLen(s: string): (n: nat)
    ensures n >= |s|
    ensures n <= 1 <==> s == [] || (|s| == 1 && s[0] < '\U{80}')
  {
    if s == [] then 0 else RuneLen(s[0]) + ByteLen(s[1..])
  }

  /** strings.Cut(s, string(sep)). */
  datatype CutResult = CutResult(before: string, after: string, found: bool)

  function Cut(s: string, sep: char): (r: CutResult)
    ensures r.found <==> sep in s
    ensures sep !in r.before
    ensures r.found ==> s == r.before + [sep] + r.after
    ensures !r.found ==> r.before == s && r.after == ""
  {
    if s == [] then CutResult("", "", false)
    else if s[0] == sep then CutResult("", s[1..], true)
    else
      var r := Cut(s[1..], sep);
      CutResult([s[0]] + r.before, r.after, r.found)
  }

  /** The first occurrence of `sep` is the one Cut splits at. */
  lemma {:induction false} CutAt(a: string, sep: char, b: string)
    requires sep !in a
    ensures Cut(a + [sep] + b, sep) == CutResult(a, b, true)
  {
    if a == [] {
      assert a + [sep] + b == [sep] + b;
    } else {
      assert (a + [sep] + b)[1..] == a[1..] + [sep] + b;
      CutAt(a[1..], sep, b);
      assert [a[0]] + a[1..] == a;
    }
  }

  /** strings.Split(s, string(sep)): the pieces between occurrences of sep. */
  function Split(s: string, sep: char): (pieces: seq<string>)
    ensures |pieces| >= 1
    ensures forall k | 0 <= k < |pieces| :: sep !in pieces[k]
    ensures Join(pieces, sep) == s
    decreases |s|
  {
    var c := Cut(s, sep);
    if c.found then [c.before] + Split(c.after, sep) else [s]
  }

  /** strings.Join(pieces, string(sep)). */
  function Join(pieces: seq<string>, sep: char): string
  {
    if |pieces| == 0 then ""
    else if |pieces| == 1 then pieces[0]
    else pieces[0] + [sep] + Join(pieces[1..], sep)
  }

  /** Split inverts Join on pieces free of the separator. */
  lemma {:induction false} SplitJoin(pieces: seq<string>, sep: char)
    requires |pieces| >= 1
    requires forall k | 0 <= k < |pieces| :: sep !in pieces[k]
    ensures Split(Join(pieces, sep), sep) == pieces
  {
    if |pieces| > 1 {
      CutAt(pieces[0], sep, Join(pieces[1..], sep));
      SplitJoin(pieces[1..], sep);
    } else {
      assert Join(pieces, sep) == pieces[0];
    }
  }

  function LeadingSpaces(s: string): (n: nat)
    ensures n <= |s|
    ensures forall k | 0 <= k < n :: IsSpace(s[k])
    ensures n < |s| ==> !IsSpace(s[n])
  {
    if s == [] || !IsSpace(s[0]) then 0
    else 1 + LeadingSpaces(s[1..])
  }

  function TrailingSpaces(s: string): (n: nat)
    ensures n <= |s|
    ensures forall k | |s| - n <= k < |s| :: IsSpace(s[k])
    ensures n < |s| ==> !IsSpace(s[|s| - 1 - n])
  {
    if s == [] || !IsSpace(s[|s| - 1]) then 0
    else 1 + TrailingSpaces(s[..|s| - 1])
  }

  /** strings.TrimSpace. */
  function TrimSpace(s: string): (r: string)
    ensures TrimmedOf(r, s)
  {
    var i := LeadingSpaces(s);
    var t := s[i..];
    var n := TrailingSpaces(t);
    var r := t[..|t| - n];
    var j := i + |r|;
    assert s[i..j] == r;
    assert AllSpace(s[..i]) by {
      forall k | 0 <= k < i ensures IsSpace(s[..i][k]) {
        assert s[..i][k] == s[k];
      }
    }
    assert AllSpace(s[j..]) by {
      forall k | 0 <= k < |s| - j ensures IsSpace(s[j..][k]) {
        assert s[j..][k] == t[|t| - n + k];
      }
    }
    assert r != [] ==> r[0] == s[i] && r[|r| - 1] == t[|t| - 1 - n];
    r
  }

  /** A trimmed result is a substring of its input. */
  lemma TrimmedIsSubstring(r: string, s: string)
    requires TrimmedOf(r, s)
    ensures IsSubstring(r, s)
  {
    var i, j :| 0 <= i <= j <= |s| && s[i..j] == r && AllSpace(s[..i]) && AllSpace(s[j..]);
    SubstringAt(r, s, i, j);
  }

  /** Trimming keeps a contiguous part of its input, so it adds no
      character. */
  lemma TrimSpaceInside(s: string, c: char)
    ensures IsSubstring(TrimSpace(s), s)
    ensures c !in s ==> c !in TrimSpace(s)
  {
    TrimmedIsSubstring(TrimSpace(s), s);
    if c in TrimSpace(s) {
      SubstringChars(TrimSpace(s), s, c);
    }
  }

  /** A string already free of surrounding white space is its own trim. */
  lemma TrimSpaceNoop(s: string)
    requires s == [] || (!IsSpace(s[0]) && !IsSpace(s[|s| - 1]))
    ensures TrimSpace(s) == s
  {
    assert LeadingSpaces(s) == 0;
    assert s[0..] == s;
    assert TrailingSpaces(s) == 0;
  }

  /** One blank before a string free of surrounding white space is
      trimmed away. */
  lemma TrimSpaceBlankPrefix(s: string)
    requires s != [] && !IsSpace(s[0]) && !IsSpace(s[|s| - 1])
    ensures TrimSpace(" " + s) == s
  {
    assert (" " + s)[1..] == s;
    assert LeadingSpaces(s) == 0;
    assert LeadingSpaces(" " + s) == 1;
    assert TrailingSpaces(s) == 0;
  }

  /** Every slice is a substring ... */
  lemma {:induction false} SubstringAt(r: string, s: string, i: int, j: int)
    requires 0 <= i <= j <= |s| && s[i..j] == r
    ensures IsSubstring(r, s)
    decreases i
  {
    if i == 0 {
      assert s[..j] == r;
    } else {
      assert s[1..][i - 1..j - 1] == s[i..j];
      SubstringAt(r, s[1..], i - 1, j - 1);
    }
  }

  /** ... and every substring is a slice. */
  lemma {:induction false} SubstringSlice(r: string, s: string) returns (i: int, j: int)
    requires IsSubstring(r, s)
    ensures 0 <= i <= j <= |s| && s[i..j] == r
    decreases |s|
  {
    if r <= s {
      i, j := 0, |r|;
      assert s[..|r|] == r;
    } else {
      var i', j' := SubstringSlice(r, s[1..]);
      i, j := i' + 1, j' + 1;
      assert s[1..][i'..j'] == s[i..j];
    }
  }

  /** Characters of a substring come from the enclosing string. */
  lemma SubstringChars(r: string, s: string, c: char)
    requires IsSubstring(r, s) && c in r
    ensures c in s
  {
    var i, j := SubstringSlice(r, s);
    var k :| 0 <= k < |r| && r[k] == c;
    assert s[i + k] == c;
  }

  /** A substring of a substring is a substring. */
  lemma SubstringTransitive(a: string, b: string, c: string)
    requires IsSubstring(a, b) && IsSubstring(b, c)
    ensures IsSubstring(a, c)
  {
    var i, j := SubstringSlice(a, b);
    var k, l := SubstringSlice(b, c);
    SliceOfSlice(c, b, k, l, i, j);
    SubstringAt(a, c, k + i, k + j);
  }

  /** A slice of the slice `s[k..l]` is a slice of `s`. */
  lemma SliceOfSlice(s: string, b: string, k: int, l: int, i: int, j: int)
    requires 0 <= k <= l <= |s| && s[k..l] == b && 0 <= i <= j <= |b|
    ensures b[i..j] == s[k + i..k + j]
  {
    forall t | 0 <= t < j - i
      ensures b[i..j][t] == s[k + i..k + j][t]
    {
      assert b[i + t] == s[k + i + t];
    }
  }
}
