/** Small value types and the pieces of JavaScript number semantics the pages rely on:
    decimal rendering (`String(n)`), the truncating `%` operator and `Math.round` of a quotient. */
module Common {

  datatype Option<T> = None | Some(value: T)

  /** The "easy" | "medium" | "hard" label shared by quiz questions, flashcards and sessions. */
  datatype Difficulty = Easy | Medium | Hard

  predicate IsDigit(c: char) {
    '0' <= c <= '9'
  }

  predicate AllDigits(s: string) {
    forall i :: 0 <= i < |s| ==> IsDigit(s[i])
  }

  function DigitChar(d: nat): (c: char)
    requires d < 10
    ensures IsDigit(c) && c as int - '0' as int == d
  {
    ('0' as int + d) as char
  }

  /** `String(n)` for a non-negative integer: decimal digits, no leading zero. */
  function NatToString(n: nat): (s: string)
    ensures |s| > 0 && AllDigits(s)
    ensures |s| > 1 ==> s[0] != '0'
  {
    if n < 10 then [DigitChar(n)] else NatToString(n / 10) + [DigitChar(n % 10)]
  }

  /** `String(i)` for any integer: a minus sign in front of the digits of a negative value. */
  function IntToString(i: int): (s: string)
    ensures |s| > 0
    ensures i < 0 <==> s[0] == '-'
  {
    if i < 0 then "-" + NatToString(-i) else NatToString(i)
  }

  /** Reads a string of decimal digits back as a number (used as the inverse of NatToString). */
  function ParseNat(s: string): nat
    requires AllDigits(s)
  {
    if s == [] then 0 else 10 * ParseNat(s[..|s| - 1]) + (s[|s| - 1] as int - '0' as int)
  }

  /** Reads an optionally signed decimal string back as an integer. */
  function ParseInt(s: string): int
    requires |s| > 0
    requires s[0] == '-' ==> AllDigits(s[1..])
    requires s[0] != '-' ==> AllDigits(s)
  {
    if s[0] == '-' then 0 - ParseNat(s[1..]) else ParseNat(s)
  }

  lemma {:induction false} ParseNatToString(n: nat)
    ensures ParseNat(NatToString(n)) == n
  {
    if n >= 10 {
      var s := NatToString(n);
      assert s[..|s| - 1] == NatToString(n / 10);
      ParseNatToString(n / 10);
    }
  }

  lemma ParseIntToString(i: int)
    ensures var s := IntToString(i);
            (s[0] == '-' ==> AllDigits(s[1..])) && (s[0] != '-' ==> AllDigits(s)) &&
            ParseInt(s) == i
  {
    if i < 0 {
      assert IntToString(i)[1..] == NatToString(-i);
      ParseNatToString(-i);
    } else {
      ParseNatToString(i);
    }
  }

  /** Distinct numbers render as distinct strings, so `String(idx + 1)` gives distinct ids. */
  lemma NatToStringInjective(a: nat, b: nat)
    ensures NatToString(a) == NatToString(b) ==> a == b
  {
    if NatToString(a) == NatToString(b) {
      ParseNatToString(a);
      ParseNatToString(b);
    }
  }

  /** JavaScript's `a % b` for a positive divisor: the sign follows the dividend. */
  function JsRem(a: int, b: int): (r: int)
    requires b > 0
    ensures -b < r < b
    ensures a >= 0 ==> r == a % b
    ensures a < 0 ==> r <= 0
    ensures (a - r) % b == 0
  {
    if a >= 0 then
      DivModUnique(a - a % b, b, a / b, 0);
      a % b
    else
      var q := (-a) / b;
      assert -a == q * b + (-a) % b;
      DivModUnique(a + (-a) % b, b, -q, 0);
      -((-a) % b)
  }

  /** `Math.round(a / b)` for b > 0 on exact rationals: the nearest integer, halves rounded up. */
  function RoundDiv(a: int, b: int): (r: int)
    requires b > 0
    ensures 2 * b * r - b <= 2 * a < 2 * b * r + b
  {
    var q := (2 * a + b) / (2 * b);
    assert 2 * b * q <= 2 * a + b < 2 * b * q + 2 * b;
    q
  }

  lemma MulMonotone(b: int, x: int, y: int)
    requires b > 0 && x <= y
    ensures b * x <= b * y
  {
    var d := y - x;
    assert b * y == b * x + b * d;
  }

  /** Quotient and remainder are determined by any decomposition x == a * n + b with 0 <= b < n. */
  lemma DivModUnique(x: int, n: int, a: int, b: int)
    requires n > 0 && 0 <= b < n && x == a * n + b
    ensures x % n == b && x / n == a
  {
    var q, r := x / n, x % n;
    assert (a - q) * n == r - b;
    if a > q {
      MulMonotone(n, 1, a - q);
    }
    if a < q {
      MulMonotone(n, 1, q - a);
    }
  }

  /** A quotient that lies between lo and hi rounds to a value between lo and hi. */
  lemma RoundDivBetween(a: int, b: int, lo: int, hi: int)
    requires b > 0 && lo * b <= a <= hi * b
    ensures lo <= RoundDiv(a, b) <= hi
  {
    var r := RoundDiv(a, b);
    if r > hi {
      MulMonotone(b, hi + 1, r);
      assert false;
    }
    if r < lo {
      MulMonotone(b, r, lo - 1);
      assert false;
    }
  }

  /** An exact quotient is left alone by rounding. */
  lemma RoundDivExact(k: int, b: int)
    requires b > 0
    ensures RoundDiv(k * b, b) == k
  {
    RoundDivBetween(k * b, b, k, k);
  }

  /** `Math.round((part / whole) * 100)` on exact rationals: the quiz score and the category shares. */
  function Percentage(part: int, whole: int): (p: int)
    requires whole > 0
    ensures 0 <= part <= whole ==> 0 <= p <= 100
    ensures part == whole ==> p == 100
    ensures part == 0 ==> p == 0
  {
    PercentageBounds(part, whole);
    RoundDiv(100 * part, whole)
  }

  lemma PercentageBounds(part: int, whole: int)
    requires whole > 0
    ensures 0 <= part <= whole ==> 0 <= RoundDiv(100 * part, whole) <= 100
    ensures part == whole ==> RoundDiv(100 * part, whole) == 100
    ensures part == 0 ==> RoundDiv(100 * part, whole) == 0
  {
    if 0 <= part <= whole {
      MulMonotone(100, part, whole);
      RoundDivBetween(100 * part, whole, 0, 100);
    }
    if part == whole {
      RoundDivExact(100, whole);
    }
    if part == 0 {
      RoundDivExact(0, whole);
    }
  }

  /** A larger part never shows a lower percentage. */
  lemma PercentageMonotone(s1: int, s2: int, whole: int)
    requires whole > 0 && s1 <= s2
    ensures Percentage(s1, whole) <= Percentage(s2, whole)
  {
    var p1, p2 := Percentage(s1, whole), Percentage(s2, whole);
    if p1 > p2 {
      MulMonotone(2 * whole, p2 + 1, p1);
      assert false;
    }
  }
}
