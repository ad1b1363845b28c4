/** String helpers with JavaScript semantics: white space as `trim()` and the
    regex class `\s` see it, prefix/suffix tests, substring search, ASCII
    lower-casing, and decimal printing of integers as `String(n)` does it. */
module Text {

  /** The characters JavaScript's `trim()` removes and `\s` matches
      (WhiteSpace and LineTerminator of ECMA-262). */
  predicate IsSpace(c: char) {
    || c == ' ' || c == '\t' || c == '\n' || c == '\r'
    || c == '\U{000B}' || c == '\U{000C}' || c == '\U{00A0}' || c == '\U{1680}'
    || ('\U{2000}' <= c <= '\U{200A}')
    || c == '\U{2028}' || c == '\U{2029}' || c == '\U{202F}' || c == '\U{205F}'
    || c == '\U{3000}' || c == '\U{FEFF}'
  }

  predicate AllSpace(s: string) {
    forall i :: 0 <= i < |s| ==> IsSpace(s[i])
  }

  /** Neither end of `s` is white space. */
  predicate IsTrimmed(s: string) {
    s == [] || (!IsSpace(s[0]) && !IsSpace(s[|s| - 1]))
  }

  /** Length of the longest all-space prefix. */
  function SpacePrefixLen(s: string): (n: nat)
    ensures n <= |s|
    ensures forall k :: 0 <= k < n ==> IsSpace(s[k])
    ensures n < |s| ==> !IsSpace(s[n])
  {
    if s == [] || !IsSpace(s[0]) then 0 else 1 + SpacePrefixLen(s[1..])
  }

  /** Length of the longest all-space suffix. */
  function SpaceSuffixLen(s: string): (n: nat)
    ensures n <= |s|
    ensures forall k :: |s| - n <= k < |s| ==> IsSpace(s[k])
    ensures n < |s| ==> !IsSpace(s[|s| - 1 - n])
  {
    if s == [] || !IsSpace(s[|s| - 1]) then 0 else 1 + SpaceSuffixLen(s[..|s| - 1])
  }

  /** JavaScript `s.trim()`: `s` without its leading and trailing white space. */
  function Trim(s: string): (r: string)
    ensures IsTrimmed(r)
    ensures r == [] <==> AllSpace(s)
    ensures r != [] ==> r == s[SpacePrefixLen(s) .. |s| - SpaceSuffixLen(s)]
    ensures AllSpace(s[..SpacePrefixLen(s)])
  {
    var a := SpacePrefixLen(s);
    if a == |s| then
      []
    else
      var b := SpaceSuffixLen(s);
      assert !IsSpace(s[a]);
      s[a .. |s| - b]
  }

  /** Trimming removes exactly the surrounding white space: a trimmed string
      is left alone, and trimming twice is trimming once. */
  lemma TrimOfTrimmed(s: string)
    requires IsTrimmed(s)
    ensures Trim(s) == s
  {
    if s != [] {
      assert SpacePrefixLen(s) == 0;
      assert SpaceSuffixLen(s) == 0;
    }
  }

  lemma TrimIdempotent(s: string)
    ensures Trim(Trim(s)) == Trim(s)
  {
    TrimOfTrimmed(Trim(s));
  }

  /** Surrounding white space is exactly what trimming removes. */
  lemma TrimSurrounded(pre: string, core: string, post: string)
    requires AllSpace(pre) && AllSpace(post)
    requires core != [] && IsTrimmed(core)
    ensures Trim(pre + core + post) == core
  {
    var s := pre + core + post;
    var a := SpacePrefixLen(s);
    var b := SpaceSuffixLen(s);
    assert s[|pre|] == core[0];
    assert s[|pre| + |core| - 1] == core[|core| - 1];
    assert forall k :: 0 <= k < |pre| ==> s[k] == pre[k];
    assert a == |pre|;
    assert forall k :: |s| - |post| <= k < |s| ==> s[k] == post[k - (|s| - |post|)];
    assert b == |post|;
    assert s[a .. |s| - b] == core;
  }

  /** `s` starts with `p` (JavaScript `s.startsWith(p)`). */
  predicate StartsWith(s: string, p: string) {
    |p| <= |s| && s[..|p|] == p
  }

  /** `s` ends with `p` (JavaScript `s.endsWith(p)`). */
  predicate EndsWith(s: string, p: string) {
    |p| <= |s| && s[|s| - |p|..] == p
  }

  /** `p` occurs in `s` starting at index `i`. */
  predicate OccursAt<T(==)>(s: seq<T>, p: seq<T>, i: int) {
    0 <= i && i + |p| <= |s| && s[i .. i + |p|] == p
  }

  /** JavaScript `s.includes(p)`, as a left-to-right scan. */
  predicate Contains<T(==)>(s: seq<T>, p: seq<T>)
    decreases |s|
  {
    (|p| <= |s| && s[..|p|] == p) || (s != [] && Contains(s[1..], p))
  }

  /** A sequence is its two slices at `i` put back together, and the
      prefix up to `i` extends the one up to `i - 1`. */
  lemma SliceTwo<T>(s: seq<T>, i: nat)
    requires 0 < i <= |s|
    ensures s == s[..i] + s[i..]
    ensures s[..i][..i - 1] == s[..i - 1]
  {
  }

  /** A sequence is its three slices at `i` and `j` put back together. */
  lemma SliceThree<T>(s: seq<T>, i: nat, j: nat)
    requires i <= j <= |s|
    ensures s == s[..i] + s[i .. j] + s[j..]
  {
  }

  /** The middle part of a three-part concatenation occurs right after the
      first part. */
  lemma OccursInMiddle<T>(x: seq<T>, y: seq<T>, z: seq<T>)
    ensures OccursAt(x + y + z, y, |x|)
  {
    assert (x + y + z)[|x| .. |x| + |y|] == y;
  }

  /** The scan finds `p` exactly when `p` occurs at some index of `s`. */
  lemma {:induction false} ContainsIff<T>(s: seq<T>, p: seq<T>)
    ensures Contains(s, p) <==> exists i :: OccursAt(s, p, i)
    decreases |s|
  {
    if |p| <= |s| && s[..|p|] == p {
      assert OccursAt(s, p, 0);
    } else if s != [] {
      ContainsIff(s[1..], p);
      forall i | OccursAt(s[1..], p, i)
        ensures OccursAt(s, p, i + 1)
      {
        assert s[i + 1 .. i + 1 + |p|] == s[1..][i .. i + |p|];
      }
      forall i | OccursAt(s, p, i) && i > 0
        ensures OccursAt(s[1..], p, i - 1)
      {
        assert s[1..][i - 1 .. i - 1 + |p|] == s[i .. i + |p|];
      }
    }
  }

  /** A witness of an occurrence makes the scan succeed. */
  lemma ContainsFromOccurrence<T>(s: seq<T>, p: seq<T>, i: int)
    requires OccursAt(s, p, i)
    ensures Contains(s, p)
  {
    ContainsIff(s, p);
  }

  /** Text containing `x + y` contains `x` and contains `y`. */
  lemma ContainsParts<T>(s: seq<T>, x: seq<T>, y: seq<T>)
    ensures Contains(s, x + y) ==> Contains(s, x) && Contains(s, y)
  {
    ContainsIff(s, x + y);
    if Contains(s, x + y) {
      var i :| OccursAt(s, x + y, i);
      assert s[i .. i + |x|] == (x + y)[..|x|] == x;
      assert s[i + |x| .. i + |x| + |y|] == (x + y)[|x|..] == y;
      ContainsFromOccurrence(s, x, i);
      ContainsFromOccurrence(s, y, i + |x|);
    }
  }

  /** JavaScript `s.indexOf(c)`: the first index holding `c`, or -1. */
  function IndexOf(s: string, c: char): (i: int)
    ensures -1 <= i < |s|
    ensures i == -1 <==> c !in s
    ensures 0 <= i ==> s[i] == c && c !in s[..i]
  {
    if s == [] then -1
    else if s[0] == c then 0
    else
      var j := IndexOf(s[1..], c);
      assert s[1..][..j + 1] == s[1..j + 2] by { if j >= 0 {} }
      if j == -1 then -1 else 1 + j
  }

  /** The first `c` in text that starts with a `c`-free piece and then `c`. */
  lemma IndexOfFirst(a: string, c: char, b: string)
    requires c !in a
    ensures IndexOf(a + [c] + b, c) == |a|
  {
    var s := a + [c] + b;
    assert s[..|a|] == a;
    assert s[|a|] == c;
    var i := IndexOf(s, c);
    assert i <= |a| by { assert c in s[..|a| + 1]; }
  }

  /** JavaScript `s.split(c)` for a one-character separator. */
  function Split(s: string, c: char): (r: seq<string>)
    ensures |r| >= 1
    decreases |s|
  {
    var i := IndexOf(s, c);
    if i == -1 then [s] else [s[..i]] + Split(s[i + 1..], c)
  }

  /** Splitting text free of the separator gives the text itself. */
  lemma SplitWithout(a: string, c: char)
    requires c !in a
    ensures Split(a, c) == [a]
  {
  }

  /** Splitting at the first separator peels off the piece before it. */
  lemma SplitFirst(a: string, c: char, b: string)
    requires c !in a
    ensures Split(a + [c] + b, c) == [a] + Split(b, c)
  {
    var s := a + [c] + b;
    assert s[..|a|] == a;
    assert s[|a|] == c;
    var i := IndexOf(s, c);
    assert i == |a| by {
      assert i <= |a| by { assert c in s[..|a| + 1]; }
    }
    assert s[i + 1..] == b;
  }

  /** JavaScript `parts.join(c)`. */
  function Join(parts: seq<string>, c: char): string {
    if parts == [] then ""
    else if |parts| == 1 then parts[0]
    else parts[0] + [c] + Join(parts[1..], c)
  }

  /** Splitting undoes joining when no part holds the separator. */
  lemma {:induction false} SplitJoin(parts: seq<string>, c: char)
    requires |parts| >= 1
    requires forall k :: 0 <= k < |parts| ==> c !in parts[k]
    ensures Split(Join(parts, c), c) == parts
    decreases |parts|
  {
    if |parts| == 1 {
      SplitWithout(parts[0], c);
    } else {
      SplitFirst(parts[0], c, Join(parts[1..], c));
      SplitJoin(parts[1..], c);
      assert parts == [parts[0]] + parts[1..];
    }
  }

  /** Joining separator-free parts loses nothing: equal joins come from
      equal part lists. */
  lemma JoinInjective(a: seq<string>, b: seq<string>, c: char)
    requires |a| >= 1 && |b| >= 1
    requires forall k :: 0 <= k < |a| ==> c !in a[k]
    requires forall k :: 0 <= k < |b| ==> c !in b[k]
    ensures Join(a, c) == Join(b, c) ==> a == b
  {
    SplitJoin(a, c);
    SplitJoin(b, c);
  }

  /** ASCII lower-casing, the part of `toLowerCase()` that matters to the
      ASCII keywords searched for after it. */
  function ToLowerChar(c: char): char {
    if 'A' <= c <= 'Z' then (c as int + 32) as char else c
  }

  function ToLower(s: string): (r: string)
    ensures |r| == |s|
    ensures forall i :: 0 <= i < |s| ==> r[i] == ToLowerChar(s[i])
  {
    seq(|s|, i requires 0 <= i < |s| => ToLowerChar(s[i]))
  }

  predicate IsDigit(c: char) {
    '0' <= c <= '9'
  }

  predicate AllDigits(s: string) {
    forall i :: 0 <= i < |s| ==> IsDigit(s[i])
  }

  function DigitChar(d: nat): (c: char)
    requires d < 10
    ensures IsDigit(c)
  {
    (48 + d) as char
  }

  function DigitValue(c: char): (d: nat)
    requires IsDigit(c)
    ensures d < 10
  {
    c as int - 48
  }

  /** Decimal rendering of a natural number, as JavaScript `String(n)` writes it:
      digits only, no leading zero. */
  function NatToString(n: nat): (s: string)
    ensures |s| >= 1
    ensures AllDigits(s)
    ensures |s| > 1 ==> s[0] != '0'
    decreases n
  {
    if n < 10 then [DigitChar(n)] else NatToString(n / 10) + [DigitChar(n % 10)]
  }

  /** The value of a decimal digit string (the inverse of `NatToString`). */
  function ParseNat(s: string): nat
    requires AllDigits(s)
  {
    if s == [] then 0 else ParseNat(s[..|s| - 1]) * 10 + DigitValue(s[|s| - 1])
  }

  lemma {:induction false} ParseNatToString(n: nat)
    ensures ParseNat(NatToString(n)) == n
    decreases n
  {
    var s := NatToString(n);
    if n >= 10 {
      ParseNatToString(n / 10);
      assert s[..|s| - 1] == NatToString(n / 10);
    }
  }

  /** Distinct numbers print differently. */
  lemma NatToStringInjective(a: nat, b: nat)
    ensures NatToString(a) == NatToString(b) ==> a == b
  {
    ParseNatToString(a);
    ParseNatToString(b);
  }

  /** JavaScript `String(i)` for an integer: an optional minus sign, then digits. */
  function IntToString(i: int): (s: string)
    ensures |s| >= 1
    ensures forall k :: 0 <= k < |s| ==> IsDigit(s[k]) || s[k] == '-'
    ensures i >= 0 ==> s == NatToString(i)
  {
    if i < 0 then "-" + NatToString(-i) else NatToString(i)
  }
}
