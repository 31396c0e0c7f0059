/** Decimal numerals, as strconv writes and reads them. */
module Numerals {

  function Digit(n: nat): char
    requires n < 10
  {
    ('0' as int + n) as char
  }

  function Digits(n: nat): string {
    if n < 10 then [Digit(n)] else Digits(n / 10) + [Digit(n % 10)]
  }

  /** strconv.AppendInt(b, n, 10) appends this. */
  function Decimal(n: int): string {
    if n < 0 then "-" + Digits(-n) else Digits(n)
  }

  function DigitsValue(t: string): int {
    if t == "" then 0 else DigitsValue(t[..|t| - 1]) * 10 + (t[|t| - 1] as int - '0' as int)
  }

  function IntValue(t: string): int {
    if t != "" && t[0] == '-' then -DigitsValue(t[1..]) else DigitsValue(t)
  }

  lemma {:induction false} DigitsRead(n: nat)
    ensures DigitsValue(Digits(n)) == n
    ensures Digits(n) != "" && forall c | c in Digits(n) :: '0' <= c <= '9'
  {
    if n >= 10 {
      DigitsRead(n / 10);
      var t := Digits(n);
      assert t[..|t| - 1] == Digits(n / 10);
    } else {
      assert Digits(n)[..0] == "";
    }
  }

  function Power10(k: nat): nat {
    if k == 0 then 1 else 10 * Power10(k - 1)
  }

  /** The leading digit counts most. */
  lemma {:induction false} LeadingDigit(c: char, t: string)
    ensures DigitsValue([c] + t) == (c as int - '0' as int) * Power10(|t|) + DigitsValue(t)
  {
    var all := [c] + t;
    if t == "" {
      assert all[..0] == "";
    } else {
      var front := t[..|t| - 1];
      assert all[..|t|] == [c] + front;
      LeadingDigit(c, front);
      var d, p := c as int - '0' as int, Power10(|front|);
      assert (d * p) * 10 == d * (10 * p);
    }
  }

  lemma DecimalRead(n: int)
    ensures IntValue(Decimal(n)) == n
    ensures Decimal(n) != "" && forall c | c in Decimal(n) :: '0' <= c <= '9' || c == '-'
  {
    DigitsRead(if n < 0 then -n else n);
    if n < 0 {
      assert Decimal(n)[1..] == Digits(-n);
    } else {
      assert Digits(n)[0] in Digits(n);
    }
  }
}
