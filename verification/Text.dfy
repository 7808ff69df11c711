/** Characters and decimal numbers in source text. */
module Text {

  predicate IsSpace(c: char) { c == ' ' || '\t' <= c <= '\r' }

  predicate IsDigit(c: char) { '0' <= c <= '9' }

  function Digit(d: nat): char
    requires d < 10
  {
    "0123456789"[d]
  }

  function DigitValue(c: char): nat
    requires IsDigit(c)
  {
    c as int - '0' as int
  }

  function NatText(n: nat): string {
    if n < 10 then [Digit(n)] else NatText(n / 10) + [Digit(n % 10)]
  }

  /** What `printf("%d")` writes. */
  function IntText(x: int): string {
    if x < 0 then "-" + NatText(-x) else NatText(x)
  }

  /** The number that the leading digits of `s` continue. */
  function DigitsValue(acc: nat, s: string): nat
    decreases |s|
  {
    if s == [] || !IsDigit(s[0]) then acc else DigitsValue(acc * 10 + DigitValue(s[0]), s[1..])
  }

  /** `atoi` */
  function Atoi(s: string): int {
    if s == [] then 0
    else if IsSpace(s[0]) then Atoi(s[1..])
    else if s[0] == '-' then -(DigitsValue(0, s[1..]) as int)
    else if s[0] == '+' then DigitsValue(0, s[1..])
    else DigitsValue(0, s)
  }

  predicate AllDigits(s: string) {
    forall i :: 0 <= i < |s| ==> IsDigit(s[i])
  }

  lemma {:induction false} NatTextDigits(n: nat)
    ensures NatText(n) != [] && AllDigits(NatText(n))
  {
    if n >= 10 {
      NatTextDigits(n / 10);
    }
  }

  /** Nothing follows that would continue a number. */
  predicate EndsNumber(s: string) {
    s == [] || !IsDigit(s[0])
  }

  lemma {:induction false} DigitsValueAppend(acc: nat, s: string, d: nat, t: string)
    requires AllDigits(s) && d < 10 && EndsNumber(t)
    ensures DigitsValue(acc, s + [Digit(d)] + t) == 10 * DigitsValue(acc, s) + d
    decreases |s|
  {
    var all := s + [Digit(d)] + t;
    if s == [] {
      assert all[1..] == t;
    } else {
      assert all[1..] == s[1..] + [Digit(d)] + t;
      DigitsValueAppend(acc * 10 + DigitValue(s[0]), s[1..], d, t);
    }
  }

  lemma {:induction false} DigitsValueOfNat(n: nat, t: string)
    requires EndsNumber(t)
    ensures DigitsValue(0, NatText(n) + t) == n
  {
    if n >= 10 {
      DigitsValueOfNat(n / 10, []);
      NatTextDigits(n / 10);
      assert NatText(n / 10) + [] == NatText(n / 10);
      DigitsValueAppend(0, NatText(n / 10), n % 10, t);
    } else {
      assert ([] + [Digit(n)]) + t == NatText(n) + t;
      DigitsValueAppend(0, [], n, t);
    }
  }

  /** Reading a printed number gives it back, whatever non-digit follows. */
  lemma AtoiOfText(x: int, t: string)
    requires EndsNumber(t)
    ensures Atoi(IntText(x) + t) == x
  {
    var n := if x < 0 then -x else x;
    NatTextDigits(n);
    DigitsValueOfNat(n, t);
    if x < 0 {
      assert (IntText(x) + t)[1..] == NatText(n) + t;
    }
  }

  /** A printed number is made of digits after its first character, which may be a minus sign. */
  lemma IntTextChars(x: int)
    ensures IntText(x) != []
    ensures IsDigit(IntText(x)[0]) || (x < 0 && IntText(x)[0] == '-')
    ensures forall i :: 0 < i < |IntText(x)| ==> IsDigit(IntText(x)[i])
  {
    NatTextDigits(if x < 0 then -x else x);
  }
}
