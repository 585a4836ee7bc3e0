/** Decimal text, both ways. */
module Text {
  import opened Wrappers

  predicate IsDigit(c: char) {
    '0' <= c <= '9'
  }

  function DigitChar(d: nat): (c: char)
    requires d < 10
    ensures IsDigit(c)
  {
    '0' + d as char
  }

  function DigitValue(c: char): (d: nat)
    requires IsDigit(c)
    ensures d < 10
  {
    c as int - '0' as int
  }

  predicate AllDigits(s: string) {
    forall i :: 0 <= i < |s| ==> IsDigit(s[i])
  }

  /** `push_u64`: the shortest decimal form. */
  function Decimal(n: nat): (s: string)
    ensures |s| > 0 && AllDigits(s)
  {
    if n < 10 then [DigitChar(n)] else Decimal(n / 10) + [DigitChar(n % 10)]
  }

  /** `push_u8_pad2`: two digits. */
  function Decimal2(n: nat): (s: string)
    requires n < 100
    ensures |s| == 2 && AllDigits(s)
  {
    [DigitChar(n / 10), DigitChar(n % 10)]
  }

  function ValueOf(s: string): nat
    requires AllDigits(s)
  {
    if s == [] then 0 else 10 * ValueOf(s[..|s| - 1]) + DigitValue(s[|s| - 1])
  }

  /** `str::parse` for an unsigned integer below `bound`: an optional plus, then digits. */
  function ParseBelow(s: string, bound: nat): Option<nat> {
    var digits := if s != [] && s[0] == '+' then s[1..] else s;
    if digits == [] || !AllDigits(digits) || ValueOf(digits) >= bound then None else Some(ValueOf(digits))
  }

  lemma {:induction false} DecimalValue(n: nat)
    ensures ValueOf(Decimal(n)) == n
  {
    var s := Decimal(n);
    if n >= 10 {
      DecimalValue(n / 10);
      assert s[..|s| - 1] == Decimal(n / 10);
    }
  }

  lemma Decimal2Value(n: nat)
    requires n < 100
    ensures ValueOf(Decimal2(n)) == n
  {
    var s := Decimal2(n);
    assert s[..1] == [DigitChar(n / 10)];
    assert s[..1][..0] == [];
    assert ValueOf(s[..1]) == n / 10;
  }

  /** What was printed parses back to itself, plain or padded. */
  lemma PrintedNumbersParse(n: nat, bound: nat)
    requires n < bound
    ensures ParseBelow(Decimal(n), bound) == Some(n)
    ensures n < 100 ==> ParseBelow(Decimal2(n), bound) == Some(n)
  {
    DecimalValue(n);
    assert IsDigit(Decimal(n)[0]);
    if n < 100 {
      Decimal2Value(n);
      assert IsDigit(Decimal2(n)[0]);
    }
  }

  function Power10(n: nat): nat {
    if n == 0 then 1 else 10 * Power10(n - 1)
  }

  /** A number has at most `k` digits exactly when it is below the `k`th power of ten. */
  lemma {:induction false} DecimalLength(n: nat, k: nat)
    requires k >= 1
    ensures |Decimal(n)| <= k <==> n < Power10(k)
    decreases k
  {
    if k == 1 {
      assert Power10(1) == 10 * Power10(0);
    } else if n >= 10 {
      DecimalLength(n / 10, k - 1);
    } else {
      TenBelow(k);
    }
  }

  lemma {:induction false} TenBelow(k: nat)
    requires k >= 1
    ensures Power10(k) >= 10
  {
    if k > 1 {
      TenBelow(k - 1);
    }
  }
}
