/** Small string utilities with Python's meaning: prefix and suffix tests,
    substring search, `''.join`, `sep.join`, `s.split(sep)` and `str(n)`
    for a non-negative integer. */
module Text {

  /** Python's `s.startswith(p)`. */
  predicate StartsWith(s: string, p: string) {
    |p| <= |s| && s[..|p|] == p
  }

  /** Python's `s.endswith(p)`. */
  predicate EndsWith(s: string, p: string) {
    |p| <= |s| && s[|s| - |p|..] == p
  }

  /** Python's `p in s` on strings. */
  predicate Contains(s: string, p: string)
    decreases |s|
  {
    StartsWith(s, p) || (s != [] && Contains(s[1..], p))
  }

  /** Python's `''.join(parts)`. */
  function Concat(parts: seq<string>): string {
    if parts == [] then "" else parts[0] + Concat(parts[1..])
  }

  /** Concatenation regroups freely. */
  lemma AppendAssociates(a: string, b: string, c: string)
    ensures a + b + c == a + (b + c)
  {
  }

  lemma AppendEmpty(a: string)
    ensures a + "" == a
  {
  }

  lemma AppendExtends(a: string, b: string)
    ensures StartsWith(a + b, a)
  {
    assert (a + b)[..|a|] == a;
  }

  lemma PrefixTransitive(r: string, t: string, s: string)
    requires StartsWith(r, t) && StartsWith(t, s)
    ensures StartsWith(r, s)
  {
    assert r[..|t|][..|s|] == r[..|s|];
  }

  lemma ConcatSingle(part: string)
    ensures Concat([part]) == part
  {
    assert Concat([part]) == part + Concat([]);
    AppendEmpty(part);
  }

  lemma {:induction false} ConcatAppend(a: seq<string>, b: seq<string>)
    ensures Concat(a + b) == Concat(a) + Concat(b)
  {
    if a == [] {
      assert a + b == b;
    } else {
      assert (a + b)[1..] == a[1..] + b;
      ConcatAppend(a[1..], b);
    }
  }

  /** Concatenating a slice of the parts gives exactly the matching span of
      the concatenation of all parts. */
  lemma ConcatSlice(parts: seq<string>, a: nat, b: nat)
    requires a <= b <= |parts|
    ensures |Concat(parts[..a])| <= |Concat(parts[..b])| <= |Concat(parts)|
    ensures Concat(parts[a..b]) == Concat(parts)[|Concat(parts[..a])|..|Concat(parts[..b])|]
  {
    assert parts[..b] == parts[..a] + parts[a..b];
    ConcatAppend(parts[..a], parts[a..b]);
    assert parts == parts[..b] + parts[b..];
    ConcatAppend(parts[..b], parts[b..]);
  }

  /** Python's `sep.join(parts)`. */
  function Join(sep: string, parts: seq<string>): string {
    if |parts| == 0 then ""
    else if |parts| == 1 then parts[0]
    else parts[0] + sep + Join(sep, parts[1..])
  }

  /** The first index at which `sep` occurs in `s`, or `|s|` if it does not occur. */
  function Find(s: string, sep: string): (i: nat)
    requires sep != []
    ensures i <= |s|
    ensures i < |s| ==> StartsWith(s[i..], sep)
    ensures forall k | 0 <= k < i :: !StartsWith(s[k..], sep)
    decreases |s|
  {
    if s == [] || StartsWith(s, sep) then 0
    else
      var i := Find(s[1..], sep);
      assert forall k | 1 <= k <= i :: s[k..] == s[1..][k - 1..];
      1 + i
  }

  /** Python's `s.split(sep)` for a non-empty separator. */
  function Split(s: string, sep: string): (parts: seq<string>)
    requires sep != []
    ensures |parts| >= 1
    decreases |s|
  {
    var i := Find(s, sep);
    if i == |s| then [s]
    else [s[..i]] + Split(s[i + |sep|..], sep)
  }

  /** No character of any part is the first character of `sep`. */
  ghost predicate FreeOf(parts: seq<string>, c: char) {
    forall i, k | 0 <= i < |parts| && 0 <= k < |parts[i]| :: parts[i][k] != c
  }

  lemma {:induction false} FindAt(s: string, sep: string, i: nat)
    requires sep != [] && i <= |s|
    requires forall k | 0 <= k < i :: s[k] != sep[0]
    requires i == |s| || StartsWith(s[i..], sep)
    ensures Find(s, sep) == i
  {
    if i > 0 {
      assert !StartsWith(s, sep);
      assert s[1..][i - 1..] == s[i..];
      FindAt(s[1..], sep, i - 1);
    }
  }

  /** Splitting a join gives the parts back, as long as no part holds the
      separator's first character. */
  lemma {:induction false} SplitJoin(parts: seq<string>, sep: string)
    requires sep != [] && parts != []
    requires FreeOf(parts, sep[0])
    ensures Split(Join(sep, parts), sep) == parts
  {
    var s := Join(sep, parts);
    if |parts| == 1 {
      FindAt(s, sep, |s|);
    } else {
      var rest := Join(sep, parts[1..]);
      assert s == parts[0] + sep + rest;
      assert s[|parts[0]|..] == sep + rest;
      FindAt(s, sep, |parts[0]|);
      assert s[|parts[0]| + |sep|..] == rest;
      assert s[..|parts[0]|] == parts[0];
      SplitJoin(parts[1..], sep);
    }
  }

  function DigitChar(d: nat): char
    requires d < 10
  {
    "0123456789"[d]
  }

  function DigitValue(c: char): nat {
    if '0' <= c <= '9' then (c as int - '0' as int) as nat else 0
  }

  /** Python's `str(n)` for a non-negative integer. */
  function DecimalString(n: nat): (s: string)
    ensures |s| >= 1 && forall k | 0 <= k < |s| :: '0' <= s[k] <= '9'
  {
    if n < 10 then [DigitChar(n)] else DecimalString(n / 10) + [DigitChar(n % 10)]
  }

  /** Python's `int(s)` on a string of decimal digits. */
  function DecimalValue(s: string): nat {
    if s == [] then 0 else 10 * DecimalValue(s[..|s| - 1]) + DigitValue(s[|s| - 1])
  }

  lemma {:induction false} DecimalRoundTrip(n: nat)
    ensures DecimalValue(DecimalString(n)) == n
  {
    var s := DecimalString(n);
    if n < 10 {
      DigitRoundTrip(n);
      assert s[..0] == [];
    } else {
      assert s[..|s| - 1] == DecimalString(n / 10);
      DecimalRoundTrip(n / 10);
      DigitRoundTrip(n % 10);
      assert DecimalValue(s) == 10 * (n / 10) + n % 10;
    }
  }

  lemma DigitRoundTrip(d: nat)
    requires d < 10
    ensures DigitValue(DigitChar(d)) == d
  {
  }
}
