/** String helpers standing for the Python built-ins the catalog code relies on:
    str.lower(), the `in` substring test, str.join, str(int), int(str), slicing with
    a possibly negative bound, list.index, list.count, list.remove and the
    code-point ordering of str comparisons. */
module Strings {

  /** ASCII lower-casing of one character (non-ASCII case mapping is not modelled). */
  function LowerChar(c: char): (r: char)
    ensures 'A' <= c <= 'Z' ==> r as int == c as int + 32
    ensures !('A' <= c <= 'Z') ==> r == c
    ensures !('A' <= r <= 'Z')
  {
    if 'A' <= c <= 'Z' then (c as int + 32) as char else c
  }

  /** str.lower() */
  function Lower(s: string): (r: string)
    ensures |r| == |s|
    ensures forall i | 0 <= i < |s| :: r[i] == LowerChar(s[i])
  {
    seq(|s|, i requires 0 <= i < |s| => LowerChar(s[i]))
  }

  predicate IsLower(s: string) {
    forall i | 0 <= i < |s| :: !('A' <= s[i] <= 'Z')
  }

  lemma LowerIsLower(s: string)
    ensures IsLower(Lower(s))
    ensures Lower(Lower(s)) == Lower(s)
  {
  }

  /** `sub in s` for two Python strings. */
  function Contains(s: string, sub: string): bool
    decreases |s|
  {
    |sub| <= |s| && (s[..|sub|] == sub || (|s| > 0 && Contains(s[1..], sub)))
  }

  lemma {:induction false} ContainsPrefix(pre: string, rest: string)
    ensures Contains(pre + rest, pre)
  {
    assert (pre + rest)[..|pre|] == pre;
  }

  /** A text that contains `sub` contains its first character. */
  lemma {:induction false} ContainsFirst(s: string, sub: string)
    requires |sub| > 0 && Contains(s, sub)
    ensures sub[0] in s
    decreases |s|
  {
    if s[..|sub|] != sub {
      ContainsFirst(s[1..], sub);
    } else {
      assert s[0] == sub[0];
    }
  }

  /** sep.join(xs) */
  function Join(xs: seq<string>, sep: string): string {
    if xs == [] then ""
    else if |xs| == 1 then xs[0]
    else xs[0] + sep + Join(xs[1..], sep)
  }

  /** str.split(sep) for a non-empty separator: the text is cut at every occurrence of
      `sep`, found left to right without overlap; the empty text gives [""]. */
  function Split(s: string, sep: string): (r: seq<string>)
    requires |sep| > 0
    ensures |r| > 0
    decreases |s|
  {
    if |s| < |sep| then [s]
    else if s[..|sep|] == sep then [""] + Split(s[|sep|..], sep)
    else
      var rest := Split(s[1..], sep);
      [[s[0]] + rest[0]] + rest[1..]
  }

  /** A text without capitals is never cut by a separator that starts with a capital. */
  lemma {:induction false} SplitLower(s: string, sep: string)
    requires |sep| > 0 && 'A' <= sep[0] <= 'Z'
    requires IsLower(s)
    ensures Split(s, sep) == [s]
    decreases |s|
  {
    if |s| >= |sep| {
      assert s[..|sep|][0] != sep[0];
      SplitLower(s[1..], sep);
      assert [s[0]] + s[1..] == s;
    }
  }

  /** A text without capitals, then the separator: the first piece is that text. */
  lemma {:induction false} SplitAfterLower(s: string, sep: string, t: string)
    requires |sep| > 0 && 'A' <= sep[0] <= 'Z'
    requires IsLower(s)
    ensures Split(s + sep + t, sep) == [s] + Split(t, sep)
    decreases |s|
  {
    var w := s + sep + t;
    if s == [] {
      assert w[..|sep|] == sep;
      assert w[|sep|..] == t;
    } else {
      assert w[..|sep|][0] == s[0] != sep[0];
      assert w[1..] == s[1..] + sep + t;
      SplitAfterLower(s[1..], sep, t);
      assert [s[0]] + s[1..] == s;
    }
  }

  /** Splitting a join of texts without capitals, at a separator that starts with a
      capital, gives the list back, except that the empty list comes back as [""]. */
  lemma {:induction false} SplitJoin(xs: seq<string>, sep: string)
    requires |sep| > 0 && 'A' <= sep[0] <= 'Z'
    requires forall i | 0 <= i < |xs| :: IsLower(xs[i])
    ensures Split(Join(xs, sep), sep) == SplitView(xs)
  {
    if |xs| == 1 {
      SplitLower(xs[0], sep);
    } else if |xs| > 1 {
      SplitAfterLower(xs[0], sep, Join(xs[1..], sep));
      SplitJoin(xs[1..], sep);
      assert [xs[0]] + xs[1..] == xs;
    }
  }

  /** The list that `split` gives back for a join whose elements never contain the
      separator: the list itself, except that splitting the empty string yields [""]. */
  function SplitView(xs: seq<string>): seq<string> {
    if xs == [] then [""] else xs
  }

  function Digit(d: nat): char
    requires d < 10
  {
    "0123456789"[d]
  }

  predicate IsDigit(c: char) {
    '0' <= c <= '9'
  }

  /** str(n) for n >= 0 */
  function NatToString(n: nat): (r: string)
    ensures |r| > 0
    ensures forall i | 0 <= i < |r| :: IsDigit(r[i])
  {
    if n < 10 then [Digit(n)] else NatToString(n / 10) + [Digit(n % 10)]
  }

  /** str(n) */
  function IntToString(n: int): (r: string)
    ensures |r| > 0
  {
    if n < 0 then "-" + NatToString(-n) else NatToString(n)
  }

  lemma IntToStringZero(n: int)
    ensures IntToString(n) == "0" <==> n == 0
  {
    if n < 0 {
      assert IntToString(n)[0] == '-';
    } else if n >= 10 {
      assert |NatToString(n / 10)| > 0;
      assert |IntToString(n)| > 1;
    }
  }

  /** The body of a Python integer literal: digits, single underscores allowed
      between two digits. */
  predicate PyDigits(s: string) {
    && |s| > 0
    && IsDigit(s[0]) && IsDigit(s[|s| - 1])
    && (forall i | 0 <= i < |s| :: IsDigit(s[i]) || s[i] == '_')
    && (forall i | 0 <= i < |s| - 1 :: s[i] == '_' ==> s[i + 1] != '_')
  }

  /** Decimal value of a digit string, underscores skipped. */
  function DigitsValue(s: string): nat {
    if s == [] then 0
    else if IsDigit(s[|s| - 1]) then DigitsValue(s[..|s| - 1]) * 10 + (s[|s| - 1] as int - '0' as int)
    else DigitsValue(s[..|s| - 1])
  }

  /** int(s) for the strings this model feeds it; None stands for the ValueError.
      Surrounding white space, which Python also accepts, is not modelled. */
  function ParsePyInt(s: string): Option<int> {
    if |s| > 0 && (s[0] == '-' || s[0] == '+') then
      (if PyDigits(s[1..]) then
         var v: int := DigitsValue(s[1..]);
         Some(if s[0] == '-' then -v else v)
       else None)
    else if PyDigits(s) then Some(DigitsValue(s))
    else None
  }

  lemma {:induction false} DigitsValueOfNat(n: nat)
    ensures DigitsValue(NatToString(n)) == n
  {
    var r := NatToString(n);
    if n < 10 {
      assert r[..|r| - 1] == [];
    } else {
      DigitsValueOfNat(n / 10);
      assert r[..|r| - 1] == NatToString(n / 10);
      assert r[|r| - 1] == Digit(n % 10);
    }
  }

  /** int(str(n)) == n, the round trip that char lengths rely on. */
  lemma ParseIntToString(n: int)
    ensures ParsePyInt(IntToString(n)) == Some(n)
  {
    var d := NatToString(if n < 0 then -n else n);
    assert PyDigits(d);
    DigitsValueOfNat(if n < 0 then -n else n);
    if n < 0 {
      var s := IntToString(n);
      assert s == "-" + d;
      assert s[1..] == d;
    } else {
      assert !(d[0] == '-' || d[0] == '+');
    }
  }

  /** s[:k] */
  function PySliceTo(s: string, k: int): (r: string)
    ensures 0 <= k <= |s| ==> r == s[..k]
    ensures k >= |s| ==> r == s
  {
    if k >= 0 then (if k <= |s| then s[..k] else s)
    else if |s| + k > 0 then s[..|s| + k]
    else ""
  }

  /** s[k:] for k >= 0 */
  function PySliceFrom(s: string, k: nat): string {
    if k <= |s| then s[k..] else ""
  }

  /** The index of the first occurrence (list.index); the caller checks membership. */
  function IndexOf<T(==)>(xs: seq<T>, x: T): (i: nat)
    requires x in xs
    ensures i < |xs| && xs[i] == x
    ensures forall j | 0 <= j < i :: xs[j] != x
  {
    if xs[0] == x then 0 else 1 + IndexOf(xs[1..], x)
  }

  /** list.count */
  function Count<T(==)>(xs: seq<T>, x: T): nat {
    if xs == [] then 0 else (if xs[0] == x then 1 else 0) + Count(xs[1..], x)
  }

  lemma {:induction false} CountOne<T>(xs: seq<T>, x: T)
    requires x in xs
    ensures Count(xs, x) == 1 <==> forall j | 0 <= j < |xs| && xs[j] == x :: j == IndexOf(xs, x)
  {
    if xs[0] == x {
      CountZero(xs[1..], x);
      if Count(xs, x) != 1 {
        var j :| 0 <= j < |xs[1..]| && xs[1..][j] == x;
        assert xs[j + 1] == x;
      }
    } else {
      CountOne(xs[1..], x);
      forall j | 0 <= j < |xs| && xs[j] == x
        ensures j > 0 && xs[1..][j - 1] == x
      {
      }
    }
  }

  lemma {:induction false} CountZero<T>(xs: seq<T>, x: T)
    ensures Count(xs, x) == 0 <==> x !in xs
  {
    if xs != [] {
      CountZero(xs[1..], x);
      assert xs == [xs[0]] + xs[1..];
    }
  }

  /** list.remove: drop the first occurrence, if any. */
  function RemoveFirst<T(==)>(xs: seq<T>, x: T): (r: seq<T>)
    ensures x in xs ==> |r| == |xs| - 1
    ensures x !in xs ==> r == xs
    ensures multiset(r) == multiset(xs) - multiset{x}
  {
    if xs == [] then []
    else
      assert xs == [xs[0]] + xs[1..];
      if xs[0] == x then xs[1..]
      else [xs[0]] + RemoveFirst(xs[1..], x)
  }

  /** Python str comparison `a < b`: lexicographic by code point. */
  function StrLess(a: string, b: string): bool {
    if b == [] then false
    else if a == [] then true
    else if a[0] != b[0] then a[0] < b[0]
    else StrLess(a[1..], b[1..])
  }

  datatype Option<+T> = None | Some(value: T)
}
