/** Numbers in decimal, as `std::to_string` writes them, and a decoder. */
module Decimals {

  predicate IsDigit(c: char) {
    '0' <= c <= '9'
  }

  function Digit(d: nat): (c: char)
    requires d < 10
    ensures IsDigit(c)
  {
    '0' + d as char
  }

  function Decimal(n: nat): (s: string)
    ensures s != [] && forall c <- s :: IsDigit(c)
  {
    if n < 10 then [Digit(n)] else Decimal(n / 10) + [Digit(n % 10)]
  }

  /** The value of a string of digits. */
  function Value(s: string): nat
    requires forall c <- s :: IsDigit(c)
  {
    if s == [] then 0 else
      assert IsDigit(s[|s| - 1]);
      Value(s[..|s| - 1]) * 10 + (s[|s| - 1] as int - '0' as int)
  }

  lemma {:induction false} ValueOfDecimal(n: nat)
    ensures Value(Decimal(n)) == n
  {
    if n >= 10 {
      ValueOfDecimal(n / 10);
      var s := Decimal(n);
      assert s[..|s| - 1] == Decimal(n / 10);
    }
  }

  /** Zero is the one number whose decimal form starts with a zero. */
  lemma {:induction false} NoLeadingZero(n: nat)
    ensures Decimal(n)[0] == '0' <==> n == 0
  {
    if n >= 10 {
      NoLeadingZero(n / 10);
    }
  }

  lemma LastDigit(q: nat, d: nat)
    requires d < 10
    ensures (10 * q + d) / 10 == q && (10 * q + d) % 10 == d
  {
  }

  /** The decimal form of a number is the one digit string of its value that has
      no superfluous zero in front. */
  lemma {:induction false} DecimalExactly(s: string)
    requires forall c <- s :: IsDigit(c)
    ensures s == Decimal(Value(s)) <==> s != [] && (|s| > 1 ==> s[0] != '0')
  {
    if s != [] && (|s| > 1 ==> s[0] != '0') {
      var front, d := s[..|s| - 1], s[|s| - 1] as int - '0' as int;
      assert IsDigit(s[|s| - 1]);
      LastDigit(Value(front), d);
      if front != [] {
        DecimalExactly(front);
        NoLeadingZero(Value(front));
        assert s == front + [Digit(d)];
      }
    } else if s != [] {
      NoLeadingZero(Value(s));
      ZeroIs();
    }
  }

  lemma ZeroIs()
    ensures Decimal(0) == "0"
  {
  }

  /** `std::to_string` of a signed number. */
  function Signed(n: int): string {
    if n < 0 then ['-'] + Decimal(-n) else Decimal(n)
  }
}
