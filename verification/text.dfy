/** String helpers standing in for the Python `str` methods the core calls:
    ASCII `lower()`, single-character `replace()`, the `in` substring test,
    `strip()` emptiness, slicing and `str(int)`. */
module Text {

  predicate IsAsciiUpper(c: char) {
    'A' <= c <= 'Z'
  }

  /** `c.lower()` restricted to ASCII: other characters are left as they are. */
  function LowerChar(c: char): (r: char)
    ensures !IsAsciiUpper(r)
    ensures !IsAsciiUpper(c) ==> r == c
    ensures IsAsciiUpper(c) ==> 'a' <= r <= 'z' && r as int - c as int == 32
  {
    if IsAsciiUpper(c) then (c as int + 32) as char else c
  }

  /** `s.lower()` over ASCII. */
  function Lower(s: string): (r: string)
    ensures |r| == |s|
    ensures forall i :: 0 <= i < |s| ==> r[i] == LowerChar(s[i])
    ensures forall i :: 0 <= i < |r| ==> !IsAsciiUpper(r[i])
  {
    seq(|s|, i requires 0 <= i < |s| => LowerChar(s[i]))
  }

  lemma LowerIdempotent(s: string)
    ensures Lower(Lower(s)) == Lower(s)
  {
  }

  /** `s.replace(c, rep)` for a one-character pattern: every occurrence of `c`
      becomes `rep`, every other character stays. */
  function ReplaceChar(s: string, c: char, rep: string): (r: string)
    ensures |r| == |s| + Count(s, c) * (|rep| - 1)
    ensures c !in rep ==> c !in r
    ensures forall x :: x in r ==> x in s || x in rep
    decreases |s|
  {
    if s == [] then []
    else (if s[0] == c then rep else [s[0]]) + ReplaceChar(s[1..], c, rep)
  }

  /** With a one-character replacement the length is kept and the change is
      pointwise. */
  lemma {:induction false} ReplaceCharPointwise(s: string, c: char, d: char)
    ensures |ReplaceChar(s, c, [d])| == |s|
    ensures forall i :: 0 <= i < |s| ==> ReplaceChar(s, c, [d])[i] == if s[i] == c then d else s[i]
    decreases |s|
  {
    if s != [] {
      ReplaceCharPointwise(s[1..], c, d);
    }
  }

  /** Number of occurrences of `c` in `s`. */
  function Count(s: string, c: char): nat
    decreases |s|
  {
    if s == [] then 0 else (if s[0] == c then 1 else 0) + Count(s[1..], c)
  }

  lemma {:induction false} ReplaceCharAppend(a: string, b: string, c: char, rep: string)
    ensures ReplaceChar(a + b, c, rep) == ReplaceChar(a, c, rep) + ReplaceChar(b, c, rep)
    decreases |a|
  {
    if a != [] {
      assert (a + b)[1..] == a[1..] + b;
      ReplaceCharAppend(a[1..], b, c, rep);
    } else {
      assert a + b == b;
    }
  }

  /** `sub` occurs in `s` starting at index `i`. */
  predicate OccursAt(s: string, sub: string, i: nat) {
    i + |sub| <= |s| && s[i..i + |sub|] == sub
  }

  /** Python's `sub in s`. */
  predicate Contains(s: string, sub: string) {
    exists i: nat :: i <= |s| && OccursAt(s, sub, i)
  }

  /** The characters Python's `str.strip()` removes when called without arguments
      (those for which `str.isspace()` holds). */
  predicate IsPythonSpace(c: char) {
    || '\t' <= c <= '\r' || '\U{1C}' <= c <= ' '
    || c == '\U{85}' || c == '\U{A0}' || c == '\U{1680}'
    || '\U{2000}' <= c <= '\U{200A}' || c == '\U{2028}' || c == '\U{2029}'
    || c == '\U{202F}' || c == '\U{205F}' || c == '\U{3000}'
  }

  /** `not s.strip()`: the string is empty or whitespace only. */
  predicate IsBlank(s: string) {
    forall i :: 0 <= i < |s| ==> IsPythonSpace(s[i])
  }

  /** `s[:n]`. */
  function Take<T>(s: seq<T>, n: nat): (r: seq<T>)
    ensures |r| == if |s| < n then |s| else n
    ensures r <= s
  {
    if |s| <= n then s else s[..n]
  }

  /** `str(n)` for an integer: decimal digits, with a leading `-` when negative,
      whose value is `n` and that carry no leading zero. */
  function IntToString(n: int): (r: string)
    ensures r != []
    ensures n >= 0 ==> (forall i :: 0 <= i < |r| ==> '0' <= r[i] <= '9')
    ensures n >= 0 ==> DigitsValue(r) == n && (r[0] == '0' ==> r == "0")
    ensures n < 0 ==> |r| >= 2 && r[0] == '-' && r[1] != '0'
    ensures n < 0 ==> (forall i :: 1 <= i < |r| ==> '0' <= r[i] <= '9') && DigitsValue(r[1..]) == -n
  {
    if n < 0 then
      var d := NatToDigits(-n);
      assert ("-" + d)[1..] == d;
      "-" + d
    else NatToDigits(n)
  }

  function NatToDigits(n: nat): (r: string)
    ensures r != []
    ensures forall i :: 0 <= i < |r| ==> '0' <= r[i] <= '9'
    ensures DigitsValue(r) == n
    ensures r[0] == '0' ==> n == 0 && r == "0"
    decreases n
  {
    var d := ['0' + (n % 10) as char];
    if n < 10 then d
    else
      var p := NatToDigits(n / 10);
      assert (p + d)[..|p|] == p;
      p + d
  }

  /** The number a string of decimal digits denotes, most significant first. */
  function DigitsValue(s: string): int
    decreases |s|
  {
    if s == [] then 0 else DigitsValue(s[..|s| - 1]) * 10 + (s[|s| - 1] as int - '0' as int)
  }
}
