/** Definitions shared by several parts of the model. */
module Base {
  /** The size of a thread's call stack, one more than it ever holds. */
  const MAX_CALLDEPTH := 100

  datatype Option<+T> = None | Some(value: T)

  /** Under -c, one return: the function's name and the time charged to it. */
  datatype Charge = Charge(name: string, sec: nat, usec: nat)

  function Spaces(n: nat): (s: string)
    ensures |s| == n && forall i :: 0 <= i < n ==> s[i] == ' '
  {
    if n == 0 then "" else " " + Spaces(n - 1)
  }

  function Digit(d: nat): (c: char)
    requires d < 10
    ensures '0' <= c <= '9' && c as int - '0' as int == d
  {
    '0' + d as char
  }

  /** `n` printed with "%d" or "%u". */
  function Decimal(n: nat): (s: string)
    ensures |s| > 0 && forall i :: 0 <= i < |s| ==> '0' <= s[i] <= '9'
  {
    if n < 10 then [Digit(n)] else Decimal(n / 10) + [Digit(n % 10)]
  }

  predicate IsDigit(c: char) {
    '0' <= c <= '9'
  }

  /** The number a string of digits stands for. */
  function Atoi(digits: string): nat
    requires forall j :: 0 <= j < |digits| ==> IsDigit(digits[j])
  {
    if digits == "" then 0
    else
      var last := digits[|digits| - 1];
      assert IsDigit(last);
      10 * Atoi(digits[..|digits| - 1]) + (last as int - '0' as int)
  }

  lemma {:induction false} AtoiDecimal(n: nat)
    ensures Atoi(Decimal(n)) == n
  {
    if n >= 10 {
      AtoiDecimal(n / 10);
      var s := Decimal(n);
      assert s[..|s| - 1] == Decimal(n / 10);
    } else {
      var s := Decimal(n);
      assert s[..0] == "";
    }
  }

  function Pow10(d: nat): (p: nat)
    ensures p > 0
  {
    if d == 0 then 1 else 10 * Pow10(d - 1)
  }

  lemma {:induction false} DecimalLength(n: nat, d: nat)
    requires d > 0
    ensures |Decimal(n)| <= d <==> n < Pow10(d)
    decreases n
  {
    if n < 10 {
      PowAtLeast(d);
    } else if d == 1 {
      assert Pow10(1) == 10 * Pow10(0);
    } else {
      DecimalLength(n / 10, d - 1);
    }
  }

  lemma {:induction false} PowAtLeast(d: nat)
    requires d > 0
    ensures Pow10(d) >= 10
  {
    if d > 1 {
      PowAtLeast(d - 1);
    }
  }

  /** `s` right-aligned in a field of `width` characters. */
  function PadLeft(width: nat, s: string): (r: string)
  {
    if |s| < width then Spaces(width - |s|) + s else s
  }

  function Min(a: int, b: int): int {
    if a < b then a else b
  }
}
