/** The string operations the app relies on: Python's `str.strip()`, the
    `"\n".join(...)` that builds the prompt blocks, its inverse `str.split`, and
    `str(n)` for the entry counts. A Python `str` is modelled as a `string` of
    Unicode scalar values; the lone surrogates a Python `str` may also hold are
    not modelled. */
module Text {

  /** The characters Python's `str.isspace()` accepts, which `str.strip()`
      with no argument removes from both ends. */
  const Whitespace: set<char> :=
    {'\t', '\n', '\U{b}', '\U{c}', '\r', '\U{1c}', '\U{1d}', '\U{1e}', '\U{1f}', ' ',
     '\U{85}', '\U{a0}', '\U{1680}', '\U{2000}', '\U{2001}', '\U{2002}', '\U{2003}',
     '\U{2004}', '\U{2005}', '\U{2006}', '\U{2007}', '\U{2008}', '\U{2009}', '\U{200a}',
     '\U{2028}', '\U{2029}', '\U{202f}', '\U{205f}', '\U{3000}'}

  predicate IsSpace(c: char)
  {
    c in Whitespace
  }

  predicate AllSpace(s: string)
  {
    forall k :: 0 <= k < |s| ==> IsSpace(s[k])
  }

  /** Number of whitespace characters at the front of `s`. */
  function LeadingSpace(s: string): (n: nat)
    ensures n <= |s|
    ensures forall k :: 0 <= k < n ==> IsSpace(s[k])
    ensures n < |s| ==> !IsSpace(s[n])
  {
    if s == [] || !IsSpace(s[0]) then 0
    else
      var n := 1 + LeadingSpace(s[1..]);
      assert forall k :: 1 <= k < n ==> s[k] == s[1..][k - 1];
      n
  }

  /** Number of whitespace characters at the back of `s`. */
  function TrailingSpace(s: string): (n: nat)
    ensures n <= |s|
    ensures forall k :: |s| - n <= k < |s| ==> IsSpace(s[k])
    ensures n < |s| ==> !IsSpace(s[|s| - n - 1])
  {
    if s == [] || !IsSpace(s[|s| - 1]) then 0
    else
      var n := 1 + TrailingSpace(s[..|s| - 1]);
      assert forall k :: |s| - n <= k < |s| - 1 ==> s[k] == s[..|s| - 1][k];
      n
  }

  /** Python's `s.strip()`: `s` without its leading and trailing whitespace.
      The result is empty exactly when `s` is all whitespace, and otherwise
      starts and ends with a non-whitespace character. */
  function Strip(s: string): (r: string)
    ensures AllSpace(s) <==> r == []
    ensures r != [] ==> !IsSpace(r[0]) && !IsSpace(r[|r| - 1])
  {
    var i := LeadingSpace(s);
    if i == |s| then []
    else
      var j := |s| - TrailingSpace(s);
      assert i < j;
      s[i..j]
  }

  /** Python's `not s.strip()`: the input has no non-whitespace character. */
  predicate IsBlank(s: string): (b: bool)
    ensures b <==> AllSpace(s)
  {
    Strip(s) == []
  }

  /** What Strip removes is a whitespace margin on each side of the result. */
  lemma StripMargins(s: string)
    ensures exists i, j :: 0 <= i <= j <= |s| && s[i..j] == Strip(s) &&
                           AllSpace(s[..i]) && AllSpace(s[j..])
  {
    var i := LeadingSpace(s);
    if i == |s| {
      assert s[..i] == s && s[i..i] == Strip(s) && s[i..] == [];
    } else {
      var j := |s| - TrailingSpace(s);
      assert s[i..j] == Strip(s);
      assert AllSpace(s[..i]) && AllSpace(s[j..]);
    }
  }

  /** Leading whitespace is counted up to the first non-whitespace character. */
  lemma LeadingSpaceOf(a: string, b: string)
    requires AllSpace(a) && b != [] && !IsSpace(b[0])
    ensures LeadingSpace(a + b) == |a|
  {
    var s := a + b;
    var n := LeadingSpace(s);
    assert s[|a|] == b[0];
    assert forall k :: 0 <= k < |a| ==> s[k] == a[k];
  }

  /** Trailing whitespace is counted back to the last non-whitespace character. */
  lemma TrailingSpaceOf(a: string, b: string)
    requires a != [] && !IsSpace(a[|a| - 1]) && AllSpace(b)
    ensures TrailingSpace(a + b) == |b|
  {
    var s := a + b;
    var n := TrailingSpace(s);
    assert s[|a| - 1] == a[|a| - 1];
    assert forall k :: |a| <= k < |s| ==> s[k] == b[k - |a|];
  }

  /** Strip removes exactly whitespace margins: padding a string whose ends are
      not whitespace and stripping it gives that string back. */
  lemma StripPadded(pre: string, core: string, post: string)
    requires AllSpace(pre) && AllSpace(post)
    requires core != [] ==> !IsSpace(core[0]) && !IsSpace(core[|core| - 1])
    ensures Strip(pre + core + post) == core
  {
    if core == [] {
      AllSpaceConcat(pre + core, post);
    } else {
      StripPaddedCore(pre, core, post);
    }
  }

  lemma AllSpaceConcat(a: string, b: string)
    requires AllSpace(a) && AllSpace(b)
    ensures AllSpace(a + b)
  {
    assert forall k :: |a| <= k < |a + b| ==> (a + b)[k] == b[k - |a|];
  }

  lemma StripPaddedCore(pre: string, core: string, post: string)
    requires AllSpace(pre) && AllSpace(post)
    requires core != [] && !IsSpace(core[0]) && !IsSpace(core[|core| - 1])
    ensures Strip(pre + core + post) == core
  {
    var s := pre + core + post;
    assert s == pre + (core + post);
    LeadingSpaceOf(pre, core + post);
    assert s == (pre + core) + post;
    TrailingSpaceOf(pre + core, post);
    assert s[|pre|..|pre| + |core|] == core;
  }

  /** Python's `sep.join(parts)`. */
  function Join(parts: seq<string>, sep: string): (r: string)
    ensures parts == [] ==> r == []
    ensures parts != [] ==> parts[0] <= r
  {
    if parts == [] then []
    else if |parts| == 1 then parts[0]
    else parts[0] + sep + Join(parts[1..], sep)
  }

  /** Position of the first `c` in `s`. */
  function IndexOf(s: string, c: char): (i: nat)
    requires c in s
    ensures i < |s| && s[i] == c && c !in s[..i]
  {
    if s[0] == c then 0
    else
      var i := 1 + IndexOf(s[1..], c);
      assert s[..i] == [s[0]] + s[1..][..i - 1];
      i
  }

  /** Python's `s.split(c)` for a one-character separator: the pieces between
      the separators, one more piece than there are separators. */
  function Split(s: string, c: char): (r: seq<string>)
    ensures |r| >= 1
    decreases |s|
  {
    if c in s then
      var i := IndexOf(s, c);
      [s[..i]] + Split(s[i + 1..], c)
    else [s]
  }

  /** Splitting a `c`-join of pieces that contain no `c` gives the pieces back:
      the joined text holds one line per piece, in order. */
  lemma {:induction false} SplitJoin(parts: seq<string>, c: char)
    requires parts != []
    requires forall k :: 0 <= k < |parts| ==> c !in parts[k]
    ensures Split(Join(parts, [c]), c) == parts
  {
    if |parts| > 1 {
      var s := Join(parts, [c]);
      var rest := Join(parts[1..], [c]);
      assert s == parts[0] + [c] + rest;
      assert s[|parts[0]|] == c;
      var i := IndexOf(s, c);
      assert forall k :: 0 <= k < |parts[0]| ==> s[k] == parts[0][k];
      assert i <= |parts[0]| ==> s[..i] == parts[0][..i];
      assert i == |parts[0]|;
      assert s[..i] == parts[0];
      assert s[i + 1..] == rest;
      SplitJoin(parts[1..], c);
    }
  }

  /** The decimal digit for `d`. */
  function Digit(d: nat): (c: char)
    requires d < 10
    ensures '0' <= c <= '9'
  {
    ('0' as int + d) as char
  }

  predicate AllDigits(s: string)
  {
    forall k :: 0 <= k < |s| ==> '0' <= s[k] <= '9'
  }

  /** Python's `str(n)` for a non-negative integer: decimal digits without
      leading zeros. */
  function Decimal(n: nat): (s: string)
    ensures s != [] && AllDigits(s)
    ensures s[0] == '0' ==> n == 0
  {
    if n < 10 then [Digit(n)] else Decimal(n / 10) + [Digit(n % 10)]
  }

  /** Python's `int(s)` for a string of decimal digits. */
  function DecimalValue(s: string): nat
    requires AllDigits(s)
  {
    if s == [] then 0
    else DecimalValue(s[..|s| - 1]) * 10 + (s[|s| - 1] as int - '0' as int)
  }

  /** `int(str(n)) == n`. */
  lemma {:induction false} DecimalRoundTrip(n: nat)
    ensures DecimalValue(Decimal(n)) == n
  {
    if n >= 10 {
      var s := Decimal(n);
      assert s[..|s| - 1] == Decimal(n / 10);
      DecimalRoundTrip(n / 10);
    }
  }
}
