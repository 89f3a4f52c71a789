/** The Python string operations the organiser relies on, over `seq<char>`. */
module Text {

  /** `p` is a prefix of `s` (Python `s.startswith(p)`). */
  predicate StartsWith(s: string, p: string) {
    |p| <= |s| && s[..|p|] == p
  }

  /** `sub` occurs in `s` at position `k`. */
  predicate OccursAt(s: string, sub: string, k: int) {
    0 <= k && k + |sub| <= |s| && s[k..k + |sub|] == sub
  }

  /** `sub` occurs in `s` (Python `sub in s`). */
  predicate Contains(s: string, sub: string) {
    exists k :: 0 <= k <= |s| && OccursAt(s, sub, k)
  }

  /** Python `s.replace(pat, rep)` for a non-empty `pat`: every non-overlapping
      occurrence, scanned from the left, is replaced. */
  function ReplaceAll(s: string, pat: string, rep: string): string
    requires pat != []
    decreases |s|
  {
    if |s| < |pat| then s
    else if s[..|pat|] == pat then rep + ReplaceAll(s[|pat|..], pat, rep)
    else [s[0]] + ReplaceAll(s[1..], pat, rep)
  }

  /** `s` does not start with `p` when they differ at a position of `p`. */
  lemma DiffersAt(s: string, p: string, i: nat)
    requires i < |p| && (i >= |s| || s[i] != p[i])
    ensures !StartsWith(s, p)
  {
    if |p| <= |s| {
      assert s[..|p|][i] == s[i];
    }
  }

  /** Python `sep.join(xs)`. */
  function Join(sep: string, xs: seq<string>): string
    decreases |xs|
  {
    if xs == [] then ""
    else if |xs| == 1 then xs[0]
    else xs[0] + sep + Join(sep, xs[1..])
  }

  lemma {:induction false} JoinAppend(sep: string, xs: seq<string>, x: string)
    ensures Join(sep, xs + [x]) == if xs == [] then x else Join(sep, xs) + sep + x
    decreases |xs|
  {
    if |xs| > 1 {
      assert (xs + [x])[1..] == xs[1..] + [x];
      JoinAppend(sep, xs[1..], x);
    } else if |xs| == 1 {
      assert (xs + [x])[1..] == [x];
    }
  }

  /** Joining is associative across a split of the list: the separator appears
      exactly once between the two halves. */
  lemma {:induction false} JoinConcat(sep: string, xs: seq<string>, ys: seq<string>)
    requires xs != [] && ys != []
    ensures Join(sep, xs + ys) == Join(sep, xs) + sep + Join(sep, ys)
    decreases |xs|
  {
    if |xs| == 1 {
      assert (xs + ys)[1..] == ys;
    } else {
      assert (xs + ys)[1..] == xs[1..] + ys;
      JoinConcat(sep, xs[1..], ys);
    }
  }

  /** Characters for which Python's `str.isspace()` holds. */
  predicate IsSpace(c: char) {
    ('\t' <= c <= '\r') || ('\U{1c}' <= c <= ' ') || c == '\U{85}' || c == '\U{a0}' ||
    c == '\U{1680}' || ('\U{2000}' <= c <= '\U{200a}') || c == '\U{2028}' || c == '\U{2029}' ||
    c == '\U{202f}' || c == '\U{205f}' || c == '\U{3000}'
  }

  /** Leading whitespace removed. */
  function TrimLeft(s: string): string
    decreases |s|
  {
    if s != [] && IsSpace(s[0]) then TrimLeft(s[1..]) else s
  }

  /** Trailing whitespace removed. */
  function TrimRight(s: string): string
    decreases |s|
  {
    if s != [] && IsSpace(s[|s| - 1]) then TrimRight(s[..|s| - 1]) else s
  }

  /** `TrimLeft` keeps the longest suffix that starts with a non-space. */
  lemma {:induction false} TrimLeftSpec(s: string)
    ensures |TrimLeft(s)| <= |s| && TrimLeft(s) == s[|s| - |TrimLeft(s)|..]
    ensures TrimLeft(s) != [] ==> !IsSpace(TrimLeft(s)[0])
    ensures forall k :: 0 <= k < |s| - |TrimLeft(s)| ==> IsSpace(s[k])
    decreases |s|
  {
    if s != [] && IsSpace(s[0]) {
      TrimLeftSpec(s[1..]);
    }
  }

  /** `TrimRight` keeps the longest prefix that ends with a non-space. */
  lemma {:induction false} TrimRightSpec(s: string)
    ensures |TrimRight(s)| <= |s| && TrimRight(s) == s[..|TrimRight(s)|]
    ensures TrimRight(s) != [] ==> !IsSpace(TrimRight(s)[|TrimRight(s)| - 1])
    ensures forall k :: |TrimRight(s)| <= k < |s| ==> IsSpace(s[k])
    decreases |s|
  {
    if s != [] && IsSpace(s[|s| - 1]) {
      TrimRightSpec(s[..|s| - 1]);
    }
  }

  /** Python `s.strip()` with no argument. */
  function Strip(s: string): string {
    TrimRight(TrimLeft(s))
  }

  /** `Strip` keeps a contiguous piece of its input, removes only whitespace,
      and leaves no whitespace at either end. */
  lemma StripIsTrimmedSlice(s: string)
    ensures exists a, b :: (0 <= a <= b <= |s| && Strip(s) == s[a..b]
      && (forall k :: 0 <= k < a ==> IsSpace(s[k]))
      && (forall k :: b <= k < |s| ==> IsSpace(s[k])))
    ensures Strip(s) != [] ==> !IsSpace(Strip(s)[0]) && !IsSpace(Strip(s)[|Strip(s)| - 1])
  {
    var l := TrimLeft(s);
    TrimLeftSpec(s);
    var r := TrimRight(l);
    TrimRightSpec(l);
    var a := |s| - |l|;
    assert r == s[a..a + |r|];
    forall k | a + |r| <= k < |s| ensures IsSpace(s[k]) {
      assert s[k] == l[k - a];
    }
    if r != [] {
      assert r[0] == l[0];
    }
  }

  /** Stripping twice is stripping once. */
  lemma StripIdempotent(s: string)
    ensures Strip(Strip(s)) == Strip(s)
  {
    var r := Strip(s);
    StripIsTrimmedSlice(s);
    if r != [] {
      assert TrimLeft(r) == r;
      assert TrimRight(r) == r;
    } else {
      assert TrimLeft(r) == r;
    }
  }

  predicate IsDigit(c: char) { '0' <= c <= '9' }

  /** A character matched by `\w` in the ASCII range. */
  predicate IsWordChar(c: char) {
    IsDigit(c) || ('a' <= c <= 'z') || ('A' <= c <= 'Z') || c == '_'
  }

  predicate AllDigits(s: string) {
    forall k :: 0 <= k < |s| ==> IsDigit(s[k])
  }

  /** Number of consecutive decimal digits in `s` starting at `i`. */
  function DigitRun(s: string, i: nat): (n: nat)
    requires i <= |s|
    ensures i + n <= |s| && AllDigits(s[i..i + n])
    ensures i + n < |s| ==> !IsDigit(s[i + n])
    decreases |s| - i
  {
    if i < |s| && IsDigit(s[i]) then
      var n := DigitRun(s, i + 1);
      assert s[i..i + 1 + n] == [s[i]] + s[i + 1..i + 1 + n];
      1 + n
    else 0
  }

  function DigitChar(d: nat): (c: char)
    requires d < 10
    ensures IsDigit(c)
  {
    "0123456789"[d]
  }

  function DigitValue(c: char): (d: nat)
    requires IsDigit(c)
    ensures d < 10 && DigitChar(d) == c
  {
    (c as int - '0' as int) as nat
  }

  /** Decimal text of a natural number, as Python `str(n)` prints it. */
  function NatToString(n: nat): (r: string)
    ensures r != [] && AllDigits(r)
    ensures |r| > 1 ==> r[0] != '0'
    decreases n
  {
    if n < 10 then [DigitChar(n)] else NatToString(n / 10) + [DigitChar(n % 10)]
  }

  /** Python `str(i)` for an integer. */
  function IntToString(i: int): string {
    if i < 0 then "-" + NatToString(-i) else NatToString(i)
  }

  /** Value of a string of decimal digits (Python `int(s)` on such a string). */
  function ParseDigits(s: string): nat
    requires AllDigits(s)
    decreases |s|
  {
    if s == [] then 0 else 10 * ParseDigits(s[..|s| - 1]) + DigitValue(s[|s| - 1])
  }

  /** Reading back the decimal text gives the number again. */
  lemma {:induction false} ParseNatToString(n: nat)
    ensures ParseDigits(NatToString(n)) == n
    decreases n
  {
    if n >= 10 {
      var r := NatToString(n);
      assert r[..|r| - 1] == NatToString(n / 10);
      ParseNatToString(n / 10);
    }
  }

  /** Distinct naturals print differently. */
  lemma NatToStringInjective(m: nat, n: nat)
    requires NatToString(m) == NatToString(n)
    ensures m == n
  {
    ParseNatToString(m);
    ParseNatToString(n);
  }
}
