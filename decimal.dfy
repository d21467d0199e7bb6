/**
 * Base-10 text of the integers the serializer writes (Rust's `i32` Display):
 * an optional `-` followed by the digits, without leading zeros.
 */
module Decimal {
  import opened Strings

  predicate IsI32(i: int)
  {
    -0x8000_0000 <= i < 0x8000_0000
  }

  predicate IsDigit(c: char)
  {
    '0' <= c <= '9'
  }

  function DigitChar(d: nat): (c: char)
    requires d < 10
    ensures IsDigit(c) && c as int - '0' as int == d
  {
    ('0' as int + d) as char
  }

  /** The digits of `n`, most significant first. */
  function Digits(n: nat): (s: string)
    ensures |s| >= 1
    ensures forall k :: 0 <= k < |s| ==> IsDigit(s[k])
    ensures |s| > 1 ==> s[0] != '0'
    decreases n
  {
    if n < 10 then [DigitChar(n)] else Digits(n / 10) + [DigitChar(n % 10)]
  }

  /** The text Rust writes for an integer. */
  function Render(i: int): string
  {
    if i < 0 then "-" + Digits(-i) else Digits(i)
  }

  /** The text of an integer: a `-` exactly when it is negative, then digits only. */
  lemma RenderShape(i: int)
    ensures |Render(i)| >= 1 && (Render(i)[0] == '-' <==> i < 0)
    ensures forall k | 0 <= k < |Render(i)| && (k > 0 || i >= 0) :: IsDigit(Render(i)[k])
  {
    if i < 0 {
      var d := Digits(-i);
      assert forall k | 1 <= k < |d| + 1 :: ("-" + d)[k] == d[k - 1];
    }
  }

  /** The number a run of digits stands for (the reading direction of Digits). */
  function DigitsValue(s: string): nat
    requires forall k :: 0 <= k < |s| ==> IsDigit(s[k])
  {
    if s == [] then 0
    else
      assert IsDigit(s[|s| - 1]);
      DigitsValue(s[..|s| - 1]) * 10 + (s[|s| - 1] as int - '0' as int)
  }

  /** Read back an integer written by Render; anything else is rejected. */
  function Parse(s: string): Option<int>
  {
    if |s| >= 2 && s[0] == '-' && (forall k :: 1 <= k < |s| ==> IsDigit(s[k])) then
      var magnitude: int := DigitsValue(s[1..]);
      Some(-magnitude)
    else if |s| >= 1 && forall k :: 0 <= k < |s| ==> IsDigit(s[k]) then
      Some(DigitsValue(s))
    else
      None
  }

  lemma {:induction false} DigitsValueOfDigits(n: nat)
    ensures DigitsValue(Digits(n)) == n
    decreases n
  {
    var s := Digits(n);
    if n >= 10 {
      DigitsValueOfDigits(n / 10);
      assert s[..|s| - 1] == Digits(n / 10);
    }
  }

  /** Rendering is faithful: the text of `i` reads back as `i`. */
  lemma ParseRender(i: int)
    ensures Parse(Render(i)) == Some(i)
  {
    var s := Render(i);
    if i < 0 {
      var d := Digits(-i);
      assert s == "-" + d;
      assert s[1..] == d;
      assert forall k | 1 <= k < |s| :: s[k] == d[k - 1];
      DigitsValueOfDigits(-i);
    } else {
      assert s == Digits(i);
      assert IsDigit(s[0]);
      DigitsValueOfDigits(i);
    }
  }
}
