/**
 * The string operations of Python's `str` that the modelled code relies on:
 * `strip`, `lower`, `split` on one separator, `join`, slicing and `str(int)`.
 */
module Text {
  import opened Common

  /** The characters for which Python's `str.isspace()` holds; `str.strip()` removes these. */
  const Whitespace: set<char> := {
    '\t', '\n', '\U{b}', '\U{c}', '\r', '\U{1c}', '\U{1d}', '\U{1e}', '\U{1f}', ' ',
    '\U{85}', '\U{a0}', '\U{1680}', '\U{2000}', '\U{2001}', '\U{2002}', '\U{2003}',
    '\U{2004}', '\U{2005}', '\U{2006}', '\U{2007}', '\U{2008}', '\U{2009}', '\U{200a}',
    '\U{2028}', '\U{2029}', '\U{202f}', '\U{205f}', '\U{3000}'
  }

  predicate StartsWith(s: string, p: string) {
    |p| <= |s| && s[..|p|] == p
  }

  predicate EndsWith(s: string, p: string) {
    |p| <= |s| && s[|s| - |p|..] == p
  }

  /** Neither end of `s` is a character of `cs`: what stripping `cs` guarantees. */
  predicate Trimmed(s: string, cs: set<char>) {
    |s| == 0 || (s[0] !in cs && s[|s| - 1] !in cs)
  }

  /** `s` without its longest prefix made of characters of `cs` (Python's `s.lstrip(cs)`). */
  function TrimStart(s: string, cs: set<char>): (r: string)
    ensures EndsWith(s, r)
    ensures forall i :: 0 <= i < |s| - |r| ==> s[i] in cs
    ensures |r| == 0 || r[0] !in cs
    decreases |s|
  {
    if |s| > 0 && s[0] in cs then TrimStart(s[1..], cs) else s
  }

  /** `s` without its longest suffix made of characters of `cs` (Python's `s.rstrip(cs)`). */
  function TrimEnd(s: string, cs: set<char>): (r: string)
    ensures StartsWith(s, r)
    ensures forall i :: |r| <= i < |s| ==> s[i] in cs
    ensures |r| == 0 || r[|r| - 1] !in cs
    decreases |s|
  {
    if |s| > 0 && s[|s| - 1] in cs then TrimEnd(s[..|s| - 1], cs) else s
  }

  /** How many characters of `cs` lead `s`: where `s.strip(cs)` starts. */
  function LeadLength(s: string, cs: set<char>): (n: nat)
    ensures n <= |s|
  {
    |s| - |TrimStart(s, cs)|
  }

  /** Python's `s.strip(cs)`: the slice of `s` left once both ends are cleared of characters of `cs`. */
  function StripChars(s: string, cs: set<char>): (r: string)
    ensures Trimmed(r, cs)
    ensures LeadLength(s, cs) + |r| <= |s|
    ensures r == s[LeadLength(s, cs)..LeadLength(s, cs) + |r|]
    ensures forall k :: 0 <= k < LeadLength(s, cs) ==> s[k] in cs
    ensures forall k :: LeadLength(s, cs) + |r| <= k < |s| ==> s[k] in cs
  {
    var t := TrimStart(s, cs);
    var r := TrimEnd(t, cs);
    StripSlice(s, cs, t, r);
    r
  }

  /** Clearing the front and then the back of `s` leaves a slice of `s` with only `cs` around it. */
  lemma StripSlice(s: string, cs: set<char>, t: string, r: string)
    requires t == TrimStart(s, cs) && r == TrimEnd(t, cs)
    ensures Trimmed(r, cs)
    ensures |s| - |t| + |r| <= |s|
    ensures r == s[|s| - |t|..|s| - |t| + |r|]
    ensures forall k :: |s| - |t| + |r| <= k < |s| ==> s[k] in cs
  {
    var lo := |s| - |t|;
    assert t == s[lo..];
    assert r == t[..|r|];
    if |r| > 0 {
      assert r[0] == t[0];
    }
    forall k | lo + |r| <= k < |s|
      ensures s[k] in cs
    {
      assert s[k] == t[k - lo];
    }
  }

  /** Python's `s.strip()`. */
  function Strip(s: string): (r: string)
    ensures Trimmed(r, Whitespace)
  {
    StripChars(s, Whitespace)
  }

  /** Stripping a string whose ends are already clear of `cs` changes nothing. */
  lemma StripCharsTrimmed(s: string, cs: set<char>)
    requires Trimmed(s, cs)
    ensures StripChars(s, cs) == s
  {
  }

  /** Stripping is idempotent. */
  lemma StripCharsIdempotent(s: string, cs: set<char>)
    ensures StripChars(StripChars(s, cs), cs) == StripChars(s, cs)
  {
  }

  function LowerChar(c: char): char {
    if 'A' <= c <= 'Z' then (c as int + 32) as char else c
  }

  /** Python's `s.lower()`, restricted to the ASCII letters. */
  function Lower(s: string): (r: string)
    ensures |r| == |s|
    ensures forall i :: 0 <= i < |s| ==> r[i] == LowerChar(s[i])
  {
    seq(|s|, i requires 0 <= i < |s| => LowerChar(s[i]))
  }

  /** No ASCII capital letter occurs in `s`. */
  predicate IsLower(s: string) {
    forall i :: 0 <= i < |s| ==> !('A' <= s[i] <= 'Z')
  }

  lemma LowerIsLower(s: string)
    ensures IsLower(Lower(s))
  {
  }

  /** Whitespace is not a capital letter, so lower-casing leaves it alone. */
  lemma LowerCharWhitespace(c: char)
    requires c in Whitespace
    ensures LowerChar(c) == c
  {
  }

  /** Lower-casing never turns a whitespace character into another character, nor creates one. */
  lemma LowerKeepsTrimmed(s: string)
    requires Trimmed(s, Whitespace)
    ensures Trimmed(Lower(s), Whitespace)
  {
  }

  /** The index of the first occurrence of `c` in `s`, if any. */
  function IndexOf(s: string, c: char): (r: Option<nat>)
    ensures r.Some? ==> r.value < |s| && s[r.value] == c && c !in s[..r.value]
    ensures r.None? <==> c !in s
  {
    if |s| == 0 then None
    else if s[0] == c then Some(0)
    else
      match IndexOf(s[1..], c)
      case None => None
      case Some(i) => Some(i + 1)
  }

  /** The first occurrence of `c` is the one with no `c` before it. */
  lemma IndexOfFirst(s: string, c: char, i: nat)
    requires i < |s| && s[i] == c && c !in s[..i]
    ensures IndexOf(s, c) == Some(i)
  {
  }

  /** How many times `c` occurs in `s`. */
  function Count(s: string, c: char): nat {
    multiset(s)[c]
  }

  /** Python's `sep.join(xs)`. */
  function Join(xs: seq<string>, sep: string): string
    decreases |xs|
  {
    if |xs| == 0 then ""
    else if |xs| == 1 then xs[0]
    else xs[0] + sep + Join(xs[1..], sep)
  }

  /** Joining one more item appends the separator and that item: `join` is a left fold as well. */
  lemma {:induction false} JoinSnoc(xs: seq<string>, y: string, sep: string)
    requires |xs| > 0
    ensures Join(xs + [y], sep) == Join(xs, sep) + sep + y
    decreases |xs|
  {
    if |xs| == 1 {
      assert xs + [y] == [xs[0], y];
      assert (xs + [y])[1..] == [y];
    } else {
      assert (xs + [y])[1..] == xs[1..] + [y];
      JoinSnoc(xs[1..], y, sep);
    }
  }

  /** The last item joined is a suffix of the joined string. */
  lemma {:induction false} JoinEndsWithLast(xs: seq<string>, sep: string)
    requires |xs| > 0
    ensures EndsWith(Join(xs, sep), xs[|xs| - 1])
    decreases |xs|
  {
    if |xs| > 1 {
      JoinEndsWithLast(xs[1..], sep);
    }
  }

  function DigitChar(d: nat): (c: char)
    requires d < 10
    ensures '0' <= c <= '9'
  {
    ('0' as int + d) as char
  }

  /** Python's `str(n)` for a natural number: its decimal digits without leading zeros. */
  function NatToString(n: nat): (r: string)
    ensures |r| > 0
    ensures forall i :: 0 <= i < |r| ==> '0' <= r[i] <= '9'
    ensures n > 0 ==> r[0] != '0'
  {
    if n < 10 then [DigitChar(n)] else NatToString(n / 10) + [DigitChar(n % 10)]
  }
}
