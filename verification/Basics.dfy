/** Small shared vocabulary: optional values and decimal numerals. */
module Basics {

  datatype Option<+T> = None | Some(value: T)

  function Max(a: int, b: int): int {
    if a > b then a else b
  }

  /** The decimal digit for 0..9. */
  function Digit(n: nat): char
    requires n < 10
  {
    "0123456789"[n]
  }

  /** `str(n)` for a natural number. */
  function Dec(n: nat): (s: string)
    ensures |s| >= 1
  {
    if n < 10 then [Digit(n)] else Dec(n / 10) + [Digit(n % 10)]
  }

  predicate IsDigit(c: char) {
    '0' <= c <= '9'
  }

  lemma {:induction false} DecIsDigits(n: nat)
    ensures forall c :: c in Dec(n) ==> IsDigit(c)
  {
    if n >= 10 {
      DecIsDigits(n / 10);
    }
  }

  lemma {:induction false} DecInjective(m: nat, n: nat)
    requires Dec(m) == Dec(n)
    ensures m == n
  {
    var s, t := Dec(m), Dec(n);
    assert s[|s| - 1] == Digit(m % 10) && t[|t| - 1] == Digit(n % 10);
    assert m % 10 == n % 10;
    if m >= 10 && n >= 10 {
      assert s[..|s| - 1] == Dec(m / 10) && t[..|t| - 1] == Dec(n / 10);
      DecInjective(m / 10, n / 10);
    }
  }

  /** Where a separator occurs in neither tail, equal texts split at it in the same way. */
  lemma SplitAtLast(a: string, b: string, c: string, d: string, sep: char)
    requires a + [sep] + b == c + [sep] + d
    requires sep !in b && sep !in d
    ensures a == c && b == d
  {
    var whole := a + [sep] + b;
    assert whole == c + [sep] + d;
    assert forall k :: |a| < k < |whole| ==> whole[k] == b[k - |a| - 1];
    assert forall k :: |c| < k < |whole| ==> whole[k] == d[k - |c| - 1];
    assert whole[|a|] == sep && whole[|c|] == sep;
    assert |a| == |c|;
    assert a == whole[..|a|] && c == whole[..|c|];
    assert b == whole[|a| + 1..] && d == whole[|c| + 1..];
  }
}
