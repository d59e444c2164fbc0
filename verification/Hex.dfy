/** Hexadecimal text of bytes, as encoding/hex writes and reads it. */
module Hex {
  import opened Bytes

  function Digit(n: nat): (c: byte)
    requires n < 16
    ensures IsLowerHex(c) && Value(c) == Some(n)
  {
    if n < 10 then ('0' as int + n) as char else ('a' as int + n - 10) as char
  }

  predicate IsLowerHex(c: byte) {
    '0' <= c <= '9' || 'a' <= c <= 'f'
  }

  function Value(c: byte): (v: Option<nat>)
    ensures v.Some? ==> v.value < 16
  {
    if '0' <= c <= '9' then Some(c as int - '0' as int)
    else if 'a' <= c <= 'f' then Some(c as int - 'a' as int + 10)
    else if 'A' <= c <= 'F' then Some(c as int - 'A' as int + 10)
    else None
  }

  function Encode(b: bytes): (s: bytes)
    ensures |s| == 2 * |b| && forall i :: 0 <= i < |s| ==> IsLowerHex(s[i])
  {
    if b == [] then [] else [Digit(b[0] as int / 16), Digit(b[0] as int % 16)] + Encode(b[1..])
  }

  /** DecodeString: either case of digit, an even number of them. */
  function Decode(s: bytes): Option<bytes> {
    if s == [] then Some([])
    else if |s| == 1 || Value(s[0]).None? || Value(s[1]).None? then None
    else
      var rest := Decode(s[2..]);
      if rest.None? then None
      else Some([(16 * Value(s[0]).value + Value(s[1]).value) as char] + rest.value)
  }

  lemma {:induction false} DecodeEncode(b: bytes)
    ensures Decode(Encode(b)) == Some(b)
  {
    if b != [] {
      DecodeEncode(b[1..]);
      assert Encode(b)[2..] == Encode(b[1..]);
      assert 16 * (b[0] as int / 16) + b[0] as int % 16 == b[0] as int;
      assert b == [b[0]] + b[1..];
    }
  }

  lemma {:induction false} EncodeInjective(a: bytes, b: bytes)
    requires Encode(a) == Encode(b)
    ensures a == b
  {
    DecodeEncode(a);
    DecodeEncode(b);
  }

  // ------------------------------------------------------------ the text, said outright

  const DIGITS: bytes := "0123456789abcdef"

  lemma {:induction false} DigitIs(n: nat)
    requires n < 16
    ensures Digit(n) == DIGITS[n]
  {
  }

  lemma {:induction false} LowerHexIs(c: byte)
    ensures IsLowerHex(c) <==> c in DIGITS
  {
    if IsLowerHex(c) {
      assert DIGITS[Value(c).value] == c;
    }
  }

  lemma {:induction false} EncodeAt(b: bytes, i: nat)
    requires i < |b|
    ensures Encode(b)[2 * i] == Digit(b[i] as int / 16) && Encode(b)[2 * i + 1] == Digit(b[i] as int % 16)
  {
    hide Digit;
    if i > 0 {
      EncodeAt(b[1..], i - 1);
    }
  }

  /** Byte i of the input is written as digits 2i and 2i + 1, the high half first. */
  lemma {:induction false} EncodeIs(b: bytes, i: nat)
    requires i < |b|
    ensures Encode(b)[2 * i] == DIGITS[b[i] as int / 16] && Encode(b)[2 * i + 1] == DIGITS[b[i] as int % 16]
  {
    hide Encode, Digit;
    EncodeAt(b, i);
    DigitIs(b[i] as int / 16);
    DigitIs(b[i] as int % 16);
  }

  /** A digit of either case. */
  predicate IsHexDigit(c: byte) {
    c in DIGITS || c in "ABCDEF"
  }

  /** The digit in lower case. */
  function Lower(c: byte): byte {
    if 'A' <= c <= 'F' then (c as int + 32) as char else c
  }

  lemma {:induction false} ValueIs(c: byte)
    ensures Value(c).Some? <==> IsHexDigit(c)
    ensures Value(c).Some? ==> DIGITS[Value(c).value] == Lower(c)
  {
    if Value(c).Some? {
      assert DIGITS[Value(c).value] == Lower(c);
      assert 'A' <= c <= 'F' ==> c == "ABCDEF"[c as int - 'A' as int];
    }
  }

  function InLowerCase(s: bytes): bytes {
    if s == [] then [] else [Lower(s[0])] + InLowerCase(s[1..])
  }

  /** Two digits in front of a text. */
  lemma {:induction false} DecodePair(s: bytes)
    requires |s| >= 2 && Decode(s).Some?
    ensures Decode(s[2..]).Some?
    ensures Encode(Decode(s).value) == [Lower(s[0]), Lower(s[1])] + Encode(Decode(s[2..]).value)
  {
    hide IsHexDigit, Lower;
    ValueIs(s[0]);
    ValueIs(s[1]);
    DigitIs(Value(s[0]).value);
    DigitIs(Value(s[1]).value);
    hide Value, Digit;
    var b := Decode(s).value;
    assert b[1..] == Decode(s[2..]).value;
    assert b[0] as int / 16 == Value(s[0]).value && b[0] as int % 16 == Value(s[1]).value;
  }

  lemma {:induction false} EmptyText()
    ensures Encode([]) == []
  {
  }

  /** A text is decoded exactly when it is an even number of digits; writing the bytes again gives it in lower case. */
  lemma {:induction false} DecodeIs(s: bytes)
    ensures Decode(s).Some? <==> |s| % 2 == 0 && forall i :: 0 <= i < |s| ==> IsHexDigit(s[i])
    ensures Decode(s).Some? ==> Encode(Decode(s).value) == InLowerCase(s)
  {
    hide IsHexDigit, Lower, Encode, Value;
    if |s| >= 2 {
      DecodeIs(s[2..]);
      ValueIs(s[0]);
      ValueIs(s[1]);
      assert s == [s[0], s[1]] + s[2..];
      if Decode(s).Some? {
        DecodePair(s);
        assert s[1..][1..] == s[2..];
      }
    } else if |s| == 1 {
    } else {
      EmptyText();
    }
  }
}
