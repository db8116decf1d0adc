/**
 * Character-level helpers that stand for the Python string operations the
 * loader uses: `str.strip()` with no argument and `", ".join(...)`.
 */
module Strings {

  /** The characters Python's `str.isspace()` accepts, which `str.strip()` removes. */
  const Whitespace: set<char> :=
    {'\t', '\n', '\U{0B}', '\U{0C}', '\r', '\U{1C}', '\U{1D}', '\U{1E}', '\U{1F}', ' ',
     '\U{85}', '\U{A0}', '\U{1680}',
     '\U{2000}', '\U{2001}', '\U{2002}', '\U{2003}', '\U{2004}', '\U{2005}', '\U{2006}',
     '\U{2007}', '\U{2008}', '\U{2009}', '\U{200A}',
     '\U{2028}', '\U{2029}', '\U{202F}', '\U{205F}', '\U{3000}'}

  predicate IsSpace(c: char)
  {
    c in Whitespace
  }

  predicate AllSpace(s: string)
  {
    forall i | 0 <= i < |s| :: IsSpace(s[i])
  }

  /** Every character of `s` from index `lo` up to `hi` is whitespace. */
  predicate SpaceBetween(s: string, lo: nat, hi: nat)
    requires lo <= hi <= |s|
  {
    forall k | lo <= k < hi :: IsSpace(s[k])
  }

  /** Number of whitespace characters at the front of `s`. */
  function Leading(s: string): (n: nat)
    ensures n <= |s| && SpaceBetween(s, 0, n)
    ensures n < |s| ==> !IsSpace(s[n])
  {
    if |s| > 0 && IsSpace(s[0]) then
      var n := 1 + Leading(s[1..]);
      assert forall k | 1 <= k < n :: s[k] == s[1..][k - 1];
      n
    else 0
  }

  /** Number of whitespace characters at the back of `s`. */
  function Trailing(s: string): (n: nat)
    ensures n <= |s| && SpaceBetween(s, |s| - n, |s|)
    ensures n < |s| ==> !IsSpace(s[|s| - n - 1])
  {
    if |s| > 0 && IsSpace(s[|s| - 1]) then
      var n := 1 + Trailing(s[..|s| - 1]);
      assert forall k | |s| - n <= k < |s| - 1 :: s[k] == s[..|s| - 1][k];
      n
    else 0
  }

  /**
   * Python's `s.strip()`: the slice of `s` left after removing whitespace at
   * both ends.  The result neither starts nor ends with whitespace, and what
   * was removed is whitespace only.
   */
  function Strip(s: string): (r: string)
    ensures |r| <= |s|
    ensures r == [] || (!IsSpace(r[0]) && !IsSpace(r[|r| - 1]))
    ensures exists i | 0 <= i <= |s| - |r| ::
              r == s[i..i + |r|] && SpaceBetween(s, 0, i) && SpaceBetween(s, i + |r|, |s|)
  {
    var lead := Leading(s);
    if lead == |s| then
      assert s[|s|..|s|] == [];
      []
    else
      var end := |s| - Trailing(s);
      var r := s[lead..end];
      assert r[0] == s[lead] && r[|r| - 1] == s[end - 1];
      assert r == s[lead..lead + |r|];
      r
  }

  /** `Strip` yields the empty string exactly when `s` is whitespace only. */
  lemma StripEmptyIff(s: string)
    ensures Strip(s) == [] <==> AllSpace(s)
  {
  }

  /** Stripping is idempotent: a stripped value is its own stripped form. */
  lemma StripIdempotent(s: string)
    ensures Strip(Strip(s)) == Strip(s)
  {
  }

  /** Python's `sep.join(xs)`. */
  function Join(xs: seq<string>, sep: string): string
  {
    if |xs| == 0 then ""
    else if |xs| == 1 then xs[0]
    else xs[0] + sep + Join(xs[1..], sep)
  }

  /** Number of occurrences of `c` in `s`. */
  function Count(c: char, s: string): nat
  {
    if s == [] then 0 else (if s[0] == c then 1 else 0) + Count(c, s[1..])
  }

  lemma {:induction false} CountAppend(c: char, a: string, b: string)
    ensures Count(c, a + b) == Count(c, a) + Count(c, b)
  {
    if a == [] {
      assert a + b == b;
    } else {
      assert (a + b)[1..] == a[1..] + b;
      CountAppend(c, a[1..], b);
    }
  }

  /** A character that the string does not contain occurs zero times. */
  lemma {:induction false} CountAbsent(c: char, s: string)
    requires c !in s
    ensures Count(c, s) == 0
  {
    if s != [] {
      assert c !in s[1..];
      CountAbsent(c, s[1..]);
    }
  }

  /** A joined list contains `c` once per list entry when each entry holds exactly one `c`. */
  lemma {:induction false} CountJoin(c: char, xs: seq<string>, sep: string)
    requires c !in sep
    requires forall k | 0 <= k < |xs| :: Count(c, xs[k]) == 1
    ensures Count(c, Join(xs, sep)) == |xs|
  {
    if |xs| > 1 {
      CountJoin(c, xs[1..], sep);
      CountAppend(c, xs[0] + sep, Join(xs[1..], sep));
      CountAppend(c, xs[0], sep);
      CountAbsent(c, sep);
    }
  }

  /** Index of the first `c` in `s`, or `|s|` when there is none. */
  function Find(s: string, c: char): (r: nat)
    ensures r <= |s|
    ensures r < |s| ==> s[r] == c
    ensures forall k | 0 <= k < r :: s[k] != c
  {
    if s == [] then 0 else if s[0] == c then 0 else 1 + Find(s[1..], c)
  }

  /**
   * Splits a comma-and-space separated list back into its entries: the
   * partner of `Join(xs, ", ")` for entries that contain no comma.
   */
  function SplitList(s: string): seq<string>
    decreases |s|
  {
    var i := Find(s, ',');
    if i == |s| then [s]
    else if i + 2 <= |s| then [s[..i]] + SplitList(s[i + 2..])
    else [s[..i], ""]
  }

  /** Joining names with `", "` loses nothing: the names and their order come back. */
  lemma {:induction false} SplitJoin(xs: seq<string>)
    requires |xs| > 0
    requires forall k | 0 <= k < |xs| :: ',' !in xs[k]
    ensures SplitList(Join(xs, ", ")) == xs
  {
    var s := Join(xs, ", ");
    if |xs| == 1 {
      assert Find(s, ',') == |s|;
    } else {
      var x := xs[0];
      var rest := Join(xs[1..], ", ");
      assert s == x + ", " + rest;
      assert s[|x|] == ',';
      assert forall k | 0 <= k < |x| :: s[k] == x[k];
      assert Find(s, ',') == |x|;
      assert s[..|x|] == x;
      assert s[|x| + 2..] == rest;
      SplitJoin(xs[1..]);
    }
  }
}
