/** Decimal and hexadecimal text of integers, as strconv formats and parses it. */
module Numerals {
  import opened Bytes
  import opened GoTime
  import Hex

  predicate IsBase(base: nat) {
    base == 10 || base == 16
  }

  function Render(n: nat, base: nat): (s: bytes)
    requires IsBase(base)
    ensures |s| > 0 && forall i :: 0 <= i < |s| ==> Hex.IsLowerHex(s[i])
  {
    if n < base then [Hex.Digit(n)] else Render(n / base, base) + [Hex.Digit(n % base)]
  }

  /** The value of a digit string, read from the left; None if some byte is not a digit of the base. */
  function Eval(s: bytes, base: nat): Option<nat>
    requires IsBase(base)
  {
    if s == [] then Some(0)
    else
      var high := Eval(s[..|s| - 1], base);
      var digit := Hex.Value(s[|s| - 1]);
      if high.None? || digit.None? || digit.value >= base then None
      else Some(high.value * base + digit.value)
  }

  lemma {:induction false} EvalRender(n: nat, base: nat)
    requires IsBase(base)
    ensures Eval(Render(n, base), base) == Some(n)
  {
    var s := Render(n, base);
    if n >= base {
      EvalRender(n / base, base);
      assert s[..|s| - 1] == Render(n / base, base);
      if base == 10 {
        assert n / 10 * 10 + n % 10 == n;
      } else {
        assert n / 16 * 16 + n % 16 == n;
      }
    } else {
      assert s[..0] == [];
    }
  }

  lemma {:induction false} RenderInjective(a: nat, b: nat, base: nat)
    requires IsBase(base) && Render(a, base) == Render(b, base)
    ensures a == b
  {
    EvalRender(a, base);
    EvalRender(b, base);
  }

  /** strconv.ParseUint with an explicit base and a bound in place of the bit size. */
  function ParseUint(s: bytes, base: nat, bound: nat): Option<nat>
    requires IsBase(base)
  {
    if s == [] then None
    else
      var v := Eval(s, base);
      if v.Some? && v.value < bound then v else None
  }

  /** strconv.FormatInt in base 10. */
  function FormatInt(x: int): bytes {
    if x < 0 then ['-'] + Render(-x, 10) else Render(x, 10)
  }

  /** strconv.ParseInt(s, 10, 64). */
  function ParseInt64(s: bytes): Option<int> {
    if s == [] then None
    else if s[0] == '-' then Signed(ParseUint(s[1..], 10, TWO64), true)
    else Signed(ParseUint(if s[0] == '+' then s[1..] else s, 10, TWO64), false)
  }

  /** The magnitude with its sign, if it fits 64 bits. */
  function Signed(v: Option<nat>, negative: bool): Option<int> {
    if v.None? then None
    else
      var magnitude: int := v.value;
      var x := if negative then -magnitude else magnitude;
      if -TWO63 <= x < TWO63 then Some(x) else None
  }

  lemma {:induction false} ParseUintRender(n: nat, base: nat, bound: nat)
    requires IsBase(base)
    ensures ParseUint(Render(n, base), base, bound) == if n < bound then Some(n) else None
  {
    EvalRender(n, base);
  }

  /** Exactly the 64-bit integers survive formatting and parsing. */
  lemma {:induction false} ParseInt64FormatInt(x: int)
    ensures ParseInt64(FormatInt(x)) == if -TWO63 <= x < TWO63 then Some(x) else None
  {
    var magnitude := if x < 0 then -x else x;
    ParseUintRender(magnitude, 10, TWO64);
    var digits := Render(magnitude, 10);
    assert Hex.IsLowerHex(digits[0]);
    hide Render, ParseUint;
    if x < 0 {
      assert FormatInt(x)[1..] == digits;
    }
  }

  // -------------------------------------------------------- the texts, said outright

  predicate IsDigitOf(c: byte, base: nat) {
    if base == 10 then c in "0123456789" else Hex.IsHexDigit(c)
  }

  lemma {:induction false} DigitOfIs(c: byte, base: nat)
    requires IsBase(base)
    ensures IsDigitOf(c, base) <==> Hex.Value(c).Some? && Hex.Value(c).value < base
    ensures IsDigitOf(c, base) ==> Hex.Lower(c) == Hex.Digit(Hex.Value(c).value)
  {
    Hex.ValueIs(c);
    if IsDigitOf(c, base) {
      Hex.DigitIs(Hex.Value(c).value);
    }
    hide Hex.IsHexDigit;
    if base == 10 && '0' <= c <= '9' {
      assert c == "0123456789"[c as int - '0' as int];
    }
  }

  /** No leading zero but in "0" itself. */
  lemma {:induction false} NoLeadingZero(n: nat, base: nat)
    requires IsBase(base)
    ensures Render(n, base)[0] == '0' ==> n == 0 && Render(n, base) == "0"
    ensures n < base ==> |Render(n, base)| == 1
  {
    if n >= base {
      NoLeadingZero(n / base, base);
    }
  }

  /** Zeros and then the numeral of v, but for the case of the digits. */
  predicate Spells(s: bytes, v: nat, base: nat)
    requires IsBase(base)
  {
    var t := Render(v, base);
    |t| <= |s|
    && (forall i :: 0 <= i < |s| - |t| ==> s[i] == '0')
    && (forall i :: 0 <= i < |t| ==> Hex.Lower(s[|s| - |t| + i]) == t[i])
  }

  lemma {:induction false} ZeroIs(c: byte, base: nat)
    requires IsBase(base)
    ensures Render(0, base) == "0"
    ensures Hex.Lower(c) == '0' ==> c == '0'
  {
  }

  lemma {:induction false} RenderNext(v: nat, d: nat, base: nat)
    requires IsBase(base) && v > 0 && d < base
    ensures Render(v * base + d, base) == Render(v, base) + [Hex.Digit(d)]
  {
    hide Hex.Digit;
    if base == 10 {
      assert (v * 10 + d) / 10 == v && (v * 10 + d) % 10 == d;
    } else {
      assert (v * 16 + d) / 16 == v && (v * 16 + d) % 16 == d;
    }
  }

  lemma {:induction false} OnlyZeros(s: bytes, base: nat)
    requires IsBase(base) && Spells(s, 0, base)
    ensures forall i :: 0 <= i < |s| ==> s[i] == '0'
  {
    hide Hex.Lower, Render;
    ZeroIs(s[|s| - 1], base);
    assert Hex.Lower(s[|s| - 1 + 0]) == Render(0, base)[0];
  }

  lemma {:induction false} SpellsOneMore(s: bytes, v: nat, d: nat, base: nat)
    requires IsBase(base) && s != [] && d < base && Hex.Lower(s[|s| - 1]) == Hex.Digit(d)
    requires if |s| == 1 then v == 0 else Spells(s[..|s| - 1], v, base)
    ensures Spells(s, v * base + d, base)
  {
    hide Hex.Digit, Hex.Lower;
    var init := s[..|s| - 1];
    if v == 0 {
      assert Render(d, base) == [Hex.Digit(d)];
      if |s| > 1 {
        OnlyZeros(init, base);
      }
    } else {
      RenderNext(v, d, base);
      hide Render;
      var t := Render(v, base);
      assert forall i :: 0 <= i < |t| ==> Hex.Lower(s[|init| - |t| + i]) == t[i];
    }
  }

  /** A text is a numeral exactly when it consists of digits, and its value is what it spells. */
  lemma {:induction false} EvalIs(s: bytes, base: nat)
    requires IsBase(base)
    ensures Eval(s, base).Some? <==> forall i :: 0 <= i < |s| ==> IsDigitOf(s[i], base)
    ensures Eval(s, base).Some? && s != [] ==> Spells(s, Eval(s, base).value, base)
    decreases |s|
  {
    hide IsDigitOf, Spells, Hex.Value, Hex.Lower, Hex.Digit;
    if s != [] {
      var init, last := s[..|s| - 1], s[|s| - 1];
      EvalIs(init, base);
      DigitOfIs(last, base);
      assert s == init + [last];
      if Eval(s, base).Some? {
        SpellsOneMore(s, Eval(init, base).value, Hex.Value(last).value, base);
      }
    }
  }

  lemma {:induction false} NoSign(digits: bytes)
    requires digits != [] && Eval(digits, 10).Some?
    ensures digits[0] != '+' && digits[0] != '-'
  {
    EvalIs(digits, 10);
    hide Eval, Spells;
    assert IsDigitOf(digits[0], 10);
  }

  /** Decimal digits alone, with a plus sign and with a minus sign. */
  lemma {:induction false} SignsAre(digits: bytes, v: nat)
    requires digits != [] && Eval(digits, 10) == Some(v)
    ensures ParseInt64(digits) == if v <= 9_223_372_036_854_775_807 then Some(v) else None
    ensures ParseInt64(['+'] + digits) == ParseInt64(digits)
    ensures ParseInt64(['-'] + digits) == if v <= 9_223_372_036_854_775_808 then Some(0 - v) else None
  {
    hide Eval;
    NoSign(digits);
    assert (['+'] + digits)[1..] == digits && (['-'] + digits)[1..] == digits;
  }

  /** Without a digit there is no number. */
  lemma {:induction false} NoDigits(base: nat, bound: nat)
    requires IsBase(base)
    ensures ParseUint("", base, bound) == None
    ensures ParseInt64("") == None && ParseInt64("-") == None && ParseInt64("+") == None
  {
    assert "-"[1..] == "" && "+"[1..] == "";
  }

  /** A minus sign for negative numbers only. */
  lemma {:induction false} FormatIntIs(n: nat)
    ensures FormatInt(n) == Render(n, 10) && FormatInt(0) == "0"
    ensures n > 0 ==> FormatInt(0 - n) == ['-'] + Render(n, 10)
  {
  }
}
