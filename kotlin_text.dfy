/** Decimal text and `Int`: Kotlin's `String.toIntOrNull()` and
    `Int.toString()`, restricted to ASCII digits. */
module KotlinText {
  import opened Kotlin

  predicate IsDigit(c: char)
  {
    '0' <= c <= '9'
  }

  /** Every character is an ASCII decimal digit (true of ""). */
  predicate AllDigits(s: string)
  {
    forall i :: 0 <= i < |s| ==> IsDigit(s[i])
  }

  function DigitValue(c: char): (d: nat)
    requires IsDigit(c)
    ensures d < 10
  {
    (c as int) - ('0' as int)
  }

  function DigitChar(d: nat): (c: char)
    requires d < 10
    ensures IsDigit(c) && DigitValue(c) == d
  {
    (('0' as int) + d) as char
  }

  /** The number a string of decimal digits denotes, most significant first;
      leading zeros are allowed. */
  function DigitsValue(s: string): nat
    requires AllDigits(s)
  {
    if |s| == 0 then 0 else DigitsValue(s[..|s| - 1]) * 10 + DigitValue(s[|s| - 1])
  }

  /** The shortest decimal spelling of n: one digit below 10, and a leading
      '0' only for 0 itself. */
  function NatToString(n: nat): (s: string)
    ensures |s| > 0 && AllDigits(s)
    ensures DigitsValue(s) == n
    ensures s[0] == '0' <==> n == 0
    ensures n < 10 ==> |s| == 1
  {
    if n < 10 then [DigitChar(n)]
    else
      var init := NatToString(n / 10);
      var s := init + [DigitChar(n % 10)];
      assert s[..|s| - 1] == init;
      s
  }

  /** `Int.toString()`: the canonical spelling, a minus sign before the
      magnitude of a negative value and no leading zeros. */
  function IntToString(i: Int32): (s: string)
    ensures |s| > 0
    ensures i >= 0 ==> AllDigits(s) && DigitsValue(s) == i
    ensures i < 0 ==> |s| > 1 && s[0] == '-' && AllDigits(s[1..]) && DigitsValue(s[1..]) == -(i as int)
    ensures |s| > 1 ==> s[0] != '0'
    ensures i < 0 ==> s[1] != '0'
  {
    if i < 0 then
      var magnitude := NatToString(-(i as int));
      var s := "-" + magnitude;
      assert s[1..] == magnitude;
      s
    else NatToString(i)
  }

  /** The digits after an optional leading sign. */
  function Unsigned(s: string): string
  {
    if |s| > 0 && (s[0] == '-' || s[0] == '+') then s[1..] else s
  }

  /** `String.toIntOrNull()` in radix 10: an optional '+' or '-', then one or
      more digits whose signed value fits in an `Int` (down to -2^31 after a
      '-', up to 2^31 - 1 otherwise); anything else, overflow included, is
      null. */
  function ToIntOrNull(s: string): (r: Nullable<Int32>)
    ensures r.NonNull? <==>
      && |Unsigned(s)| > 0 && AllDigits(Unsigned(s))
      && DigitsValue(Unsigned(s)) <= IntMax + (if |s| > 0 && s[0] == '-' then 1 else 0)
    ensures r.NonNull? && |s| > 0 && s[0] == '-' ==> r.value == -(DigitsValue(Unsigned(s)) as int)
    ensures r.NonNull? && (|s| == 0 || s[0] != '-') ==> r.value == DigitsValue(Unsigned(s))
  {
    if |s| == 0 then Null
    else
      var digits := Unsigned(s);
      if |digits| == 0 || !AllDigits(digits) then Null
      else
        var magnitude := DigitsValue(digits);
        var v := if s[0] == '-' then -(magnitude as int) else magnitude as int;
        if IntMin <= v <= IntMax then NonNull(v) else Null
  }

  /** Reading back what `toString()` printed gives the same `Int`. */
  lemma ParseShow(i: Int32)
    ensures ToIntOrNull(IntToString(i)) == NonNull(i)
  {
    var s := IntToString(i);
    if i < 0 {
      assert Unsigned(s) == NatToString(-(i as int));
    } else {
      var d := NatToString(i);
      assert d[0] != '-' && d[0] != '+' by { assert IsDigit(d[0]); }
      assert Unsigned(s) == d;
    }
  }
}
