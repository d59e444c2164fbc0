/** Base 64 with the URL and filename safe alphabet, section 5 of RFC 4648, with and without padding. */
module Base64 {
  import opened Bytes

  function Char(v: nat): (c: byte)
    requires v < 64
    ensures Value(c) == Some(v)
  {
    if v < 26 then ('A' as int + v) as char
    else if v < 52 then ('a' as int + v - 26) as char
    else if v < 62 then ('0' as int + v - 52) as char
    else if v == 62 then '-'
    else '_'
  }

  function Value(c: byte): (v: Option<nat>)
    ensures v.Some? ==> v.value < 64
  {
    if 'A' <= c <= 'Z' then Some(c as int - 'A' as int)
    else if 'a' <= c <= 'z' then Some(c as int - 'a' as int + 26)
    else if '0' <= c <= '9' then Some(c as int - '0' as int + 52)
    else if c == '-' then Some(62)
    else if c == '_' then Some(63)
    else None
  }

  /** The four sextets of three bytes. */
  function Sextet(a: byte, b: byte, c: byte, i: nat): (v: nat)
    requires i < 4
    ensures v < 64
  {
    match i
    case 0 => a as int / 4
    case 1 => a as int % 4 * 16 + b as int / 16
    case 2 => b as int % 16 * 4 + c as int / 64
    case _ => c as int % 64
  }

  function Quad(a: byte, b: byte, c: byte, n: nat): (s: bytes)
    requires n <= 4
    ensures |s| == n && forall i :: 0 <= i < n ==> s[i] == Char(Sextet(a, b, c, i))
  {
    if n == 0 then [] else Quad(a, b, c, n - 1) + [Char(Sextet(a, b, c, n - 1))]
  }

  function Encode(b: bytes, pad: bool): bytes {
    if b == [] then []
    else if |b| == 1 then Quad(b[0], NUL, NUL, 2) + if pad then "==" else []
    else if |b| == 2 then Quad(b[0], b[1], NUL, 3) + if pad then "=" else []
    else Quad(b[0], b[1], b[2], 4) + Encode(b[3..], pad)
  }

  function WithoutNewlines(s: bytes): bytes {
    if s == [] then []
    else (if s[0] == '\r' || s[0] == '\n' then [] else [s[0]]) + WithoutNewlines(s[1..])
  }

  /** The first two or three bytes or all three that sextets w, x, y, z stand for. */
  function Triple(w: nat, x: nat, y: nat, z: nat, n: nat): (b: bytes)
    requires w < 64 && x < 64 && y < 64 && z < 64 && 1 <= n <= 3
    ensures |b| == n
  {
    [(w * 4 + x / 16) as char, (x % 16 * 16 + y / 4) as char, (y % 4 * 64 + z) as char][..n]
  }

  /** A last, incomplete group: n bytes in n + 1 characters. Left-over bits are ignored. */
  function DecodeLast(s: bytes): Option<bytes>
    requires |s| == 2 || |s| == 3
  {
    var w, x := Value(s[0]), Value(s[1]);
    var y := if |s| == 3 then Value(s[2]) else Some(0);
    if w.None? || x.None? || y.None? then None else Some(Triple(w.value, x.value, y.value, 0, |s| - 1))
  }

  function DecodeGroups(s: bytes, pad: bool): Option<bytes> {
    if s == [] then Some([])
    else if pad && |s| == 4 && s[3] == '=' then DecodeLast(if s[2] == '=' then s[..2] else s[..3])
    else if !pad && (|s| == 2 || |s| == 3) then DecodeLast(s)
    else if |s| < 4 then None
    else
      var w, x, y, z := Value(s[0]), Value(s[1]), Value(s[2]), Value(s[3]);
      if w.None? || x.None? || y.None? || z.None? then None
      else
        var rest := DecodeGroups(s[4..], pad);
        if rest.None? then None else Some(Triple(w.value, x.value, y.value, z.value, 3) + rest.value)
  }

  /** DecodeString: line ends anywhere in the text are skipped. */
  function Decode(s: bytes, pad: bool): Option<bytes> {
    DecodeGroups(WithoutNewlines(s), pad)
  }

  lemma {:induction false} TripleOfSextets(a: byte, b: byte, c: byte, n: nat)
    requires 1 <= n <= 3
    ensures Triple(Sextet(a, b, c, 0), Sextet(a, b, c, 1), Sextet(a, b, c, 2), Sextet(a, b, c, 3), n) == [a, b, c][..n]
  {
    assert a as int / 4 * 4 + (a as int % 4 * 16 + b as int / 16) / 16 == a as int;
    assert (a as int % 4 * 16 + b as int / 16) % 16 * 16 + (b as int % 16 * 4 + c as int / 64) / 4 == b as int;
    assert (b as int % 16 * 4 + c as int / 64) % 4 * 64 + c as int % 64 == c as int;
  }

  lemma {:induction false} NoNewlinesToSkip(s: bytes)
    requires forall i :: 0 <= i < |s| ==> s[i] != '\r' && s[i] != '\n'
    ensures WithoutNewlines(s) == s
  {
    if s != [] {
      NoNewlinesToSkip(s[1..]);
    }
  }

  lemma {:induction false} EncodeChars(b: bytes, pad: bool)
    ensures forall i :: 0 <= i < |Encode(b, pad)| ==> Value(Encode(b, pad)[i]).Some? || Encode(b, pad)[i] == '='
    ensures (b == []) == (Encode(b, pad) == [])
  {
    if |b| > 2 {
      EncodeChars(b[3..], pad);
    }
  }

  lemma {:induction false} LastGroup(b: bytes, pad: bool)
    requires |b| == 1 || |b| == 2
    ensures DecodeGroups(Encode(b, pad), pad) == Some(b)
  {
    var second := if |b| == 2 then b[1] else NUL;
    TripleOfSextets(b[0], second, NUL, |b|);
    var s := Encode(b, pad);
    if pad {
      assert s[..|b| + 1] == Quad(b[0], second, NUL, |b| + 1);
    } else {
      assert s == Quad(b[0], second, NUL, |b| + 1);
    }
    assert [b[0], second, NUL][..|b|] == b;
  }

  /** A whole group in front of a text is decoded on its own. */
  lemma {:induction false} GroupInFront(a: byte, b: byte, c: byte, rest: bytes, pad: bool)
    requires DecodeGroups(rest, pad).Some?
    ensures DecodeGroups(Quad(a, b, c, 4) + rest, pad) == Some([a, b, c] + DecodeGroups(rest, pad).value)
  {
    var q := Quad(a, b, c, 4);
    var s := q + rest;
    TripleOfSextets(a, b, c, 3);
    assert s[4..] == rest && s[0] == q[0] && s[1] == q[1] && s[2] == q[2] && s[3] == q[3];
    hide Triple;
    assert [a, b, c][..3] == [a, b, c];
  }

  lemma {:induction false} DecodeGroupsEncode(b: bytes, pad: bool)
    ensures DecodeGroups(Encode(b, pad), pad) == Some(b)
  {
    if b == [] {
    } else if |b| < 3 {
      LastGroup(b, pad);
    } else {
      DecodeGroupsEncode(b[3..], pad);
      GroupInFront(b[0], b[1], b[2], Encode(b[3..], pad), pad);
      hide DecodeGroups, Quad;
      assert b == [b[0], b[1], b[2]] + b[3..];
    }
  }

  lemma {:induction false} EncodedWithoutNewlines(b: bytes, pad: bool)
    ensures WithoutNewlines(Encode(b, pad)) == Encode(b, pad)
  {
    EncodeChars(b, pad);
    hide Encode, WithoutNewlines;
    NoNewlinesToSkip(Encode(b, pad));
  }

  lemma {:induction false} DecodeEncode(b: bytes, pad: bool)
    ensures Decode(Encode(b, pad), pad) == Some(b)
  {
    EncodedWithoutNewlines(b, pad);
    DecodeGroupsEncode(b, pad);
    hide Encode, DecodeGroups, WithoutNewlines;
  }

  // ------------------------------------------------------------ the text, said outright

  const UPPER: bytes := "ABCDEFGHIJKLMNOPQRSTUVWXYZ"
  const LOWER: bytes := "abcdefghijklmnopqrstuvwxyz"
  const OTHERS: bytes := "0123456789-_"

  /** Table 2 of RFC 4648. */
  const ALPHABET: bytes := UPPER + LOWER + OTHERS

  lemma {:induction false} UpperIs(v: nat)
    requires v < 26
    ensures |UPPER| == 26 && UPPER[v] == Char(v)
  {
    hide LOWER, OTHERS, ALPHABET;
  }

  lemma {:induction false} LowerIs(v: nat)
    requires v < 26
    ensures |LOWER| == 26 && LOWER[v] == Char(26 + v)
  {
    hide UPPER, OTHERS, ALPHABET;
  }

  lemma {:induction false} OtherIs(v: nat)
    requires v < 12
    ensures |OTHERS| == 12 && OTHERS[v] == Char(52 + v)
  {
    hide UPPER, LOWER, ALPHABET;
  }

  lemma {:induction false} CharIs(v: nat)
    requires v < 64
    ensures |ALPHABET| == 64 && Char(v) == ALPHABET[v]
  {
    hide UPPER, LOWER, OTHERS, Char;
    UpperIs(if v < 26 then v else 0);
    LowerIs(if 26 <= v < 52 then v - 26 else 0);
    OtherIs(if 52 <= v then v - 52 else 0);
  }

  lemma {:induction false} ValueInverts(c: byte)
    requires Value(c).Some?
    ensures Char(Value(c).value) == c
  {
    hide UPPER, LOWER, OTHERS, ALPHABET;
  }

  lemma {:induction false} ValueIs(c: byte)
    ensures Value(c).Some? <==> c in ALPHABET
    ensures Value(c).Some? ==> |ALPHABET| == 64 && ALPHABET[Value(c).value] == c
  {
    hide UPPER, LOWER, OTHERS, ALPHABET, Char, Value;
    CharIs(0);
    if Value(c).Some? {
      CharIs(Value(c).value);
      ValueInverts(c);
    }
    if c in ALPHABET {
      var v :| 0 <= v < |ALPHABET| && ALPHABET[v] == c;
      CharIs(v);
    }
  }

  /** Byte i, or zero where the input has ended. */
  function ByteAt(b: bytes, i: nat): (n: nat)
    ensures n < 256
  {
    if i < |b| then b[i] as int else 0
  }

  /** The 24 bits of group g, zero bits where the input has ended. */
  function Word(b: bytes, g: nat): nat {
    65536 * ByteAt(b, 3 * g) + 256 * ByteAt(b, 3 * g + 1) + ByteAt(b, 3 * g + 2)
  }

  /** The six bits at place j of 24, from the left. */
  function SixBits(n: nat, j: nat): (v: nat)
    requires j < 4
    ensures v < 64
  {
    n / (match j case 0 => 262144 case 1 => 4096 case 2 => 64 case _ => 1) % 64
  }

  lemma {:induction false} DigitsOf(w: nat, x: nat, y: nat, z: nat)
    requires w < 64 && x < 64 && y < 64 && z < 64
    ensures var n := 262144 * w + 4096 * x + 64 * y + z;
            n / 262144 % 64 == w && n / 4096 % 64 == x && n / 64 % 64 == y && n % 64 == z
  {
    var n := 262144 * w + 4096 * x + 64 * y + z;
    assert n / 64 == 4096 * w + 64 * x + y;
    assert n / 4096 == 64 * w + x;
    assert n / 262144 == w;
  }

  lemma {:induction false} SextetIs(a: byte, b: byte, c: byte, j: nat)
    requires j < 4
    ensures Sextet(a, b, c, j) == SixBits(65536 * a as int + 256 * b as int + c as int, j)
  {
    var w, x, y, z := Sextet(a, b, c, 0), Sextet(a, b, c, 1), Sextet(a, b, c, 2), Sextet(a, b, c, 3);
    assert 65536 * a as int + 256 * b as int + c as int == 262144 * w + 4096 * x + 64 * y + z;
    hide Sextet;
    DigitsOf(w, x, y, z);
  }

  /** Character i: six bits of the input if it reaches there, else padding. */
  predicate CharacterIs(b: bytes, s: bytes, i: nat)
    requires i < |s|
  {
    |ALPHABET| == 64
    && s[i] == if 3 * (i / 4) + i % 4 <= |b| then ALPHABET[SixBits(Word(b, i / 4), i % 4)] else '='
  }

  lemma {:induction false} FirstGroupIs(b: bytes, pad: bool, i: nat)
    requires i < |Encode(b, pad)| && i < 4
    ensures CharacterIs(b, Encode(b, pad), i)
  {
    hide ALPHABET, Char, Sextet, SixBits;
    var second, third := if |b| > 1 then b[1] else NUL, if |b| > 2 then b[2] else NUL;
    SextetIs(b[0], second, third, i);
    CharIs(Sextet(b[0], second, third, i));
    CharIs(0);
  }

  lemma {:induction false} NextGroupIs(b: bytes, s: bytes, t: bytes, i: nat)
    requires |b| > 3 && i + 4 < |t| && t[4..] == s && CharacterIs(b[3..], s, i)
    ensures CharacterIs(b, t, i + 4)
  {
    hide ALPHABET, SixBits;
    assert Word(b, i / 4 + 1) == Word(b[3..], i / 4);
    assert (i + 4) / 4 == i / 4 + 1 && (i + 4) % 4 == i % 4;
    assert t[i + 4] == s[i];
  }

  /** What every character of the encoded text is, and how many there are. */
  lemma {:induction false} EncodeIs(b: bytes, pad: bool)
    ensures |Encode(b, pad)| == if pad then (|b| + 2) / 3 * 4 else (4 * |b| + 2) / 3
    ensures forall i :: 0 <= i < |Encode(b, pad)| ==> CharacterIs(b, Encode(b, pad), i)
  {
    hide CharacterIs, Quad;
    var t := Encode(b, pad);
    if |b| > 3 {
      EncodeIs(b[3..], pad);
      forall i | 4 <= i < |t| ensures CharacterIs(b, t, i) {
        NextGroupIs(b, t[4..], t, i - 4);
      }
    }
    forall i | 0 <= i < 4 && i < |t| ensures CharacterIs(b, t, i) {
      FirstGroupIs(b, pad, i);
    }
  }

  predicate IsCharacter(c: byte) {
    c in ALPHABET
  }

  predicate AllIn(s: bytes) {
    forall i :: 0 <= i < |s| ==> IsCharacter(s[i])
  }

  /** The text without its last one or two '='. */
  function Unpadded(s: bytes): bytes {
    if s == [] || s[|s| - 1] != '=' then s
    else if |s| > 1 && s[|s| - 2] == '=' then s[..|s| - 2]
    else s[..|s| - 1]
  }

  /** Unpadded text is anything but one left-over character; padded text is whole groups, the last with up to two '='. */
  predicate WellFormed(s: bytes, pad: bool) {
    if pad then |s| % 4 == 0 && AllIn(Unpadded(s)) else |s| % 4 != 1 && AllIn(s)
  }

  lemma {:induction false} NoPadding()
    ensures !IsCharacter('=')
  {
    hide ALPHABET;
    ValueIs('=');
  }

  lemma {:induction false} AllInEmpty()
    ensures AllIn([])
  {
  }

  lemma {:induction false} ReadIffCharacter(c: byte)
    ensures Value(c).Some? <==> IsCharacter(c)
  {
    hide ALPHABET, Value;
    ValueIs(c);
  }

  lemma {:induction false} LastDecodesExactly(s: bytes)
    requires |s| == 2 || |s| == 3
    ensures DecodeLast(s).Some? <==> AllIn(s)
  {
    hide Value, IsCharacter, Triple;
    ReadIffCharacter(s[0]);
    ReadIffCharacter(s[1]);
    ReadIffCharacter(s[|s| - 1]);
  }

  /** A whole group in front of a text. */
  lemma {:induction false} HeadDecodesExactly(s: bytes, pad: bool)
    requires |s| >= 4 && (pad && |s| == 4 ==> s[3] != '=')
    requires DecodeGroups(s[4..], pad).Some? <==> WellFormed(s[4..], pad)
    ensures DecodeGroups(s, pad).Some? <==> AllIn(s[..4]) && WellFormed(s[4..], pad)
  {
    hide Value, IsCharacter, Triple, WellFormed;
    ReadIffCharacter(s[0]);
    ReadIffCharacter(s[1]);
    ReadIffCharacter(s[2]);
    ReadIffCharacter(s[3]);
  }

  lemma {:induction false} AllInParts(a: bytes, b: bytes)
    ensures AllIn(a + b) <==> AllIn(a) && AllIn(b)
  {
    hide IsCharacter;
    assert AllIn(a + b) ==> AllIn(a) by {
      assert forall i :: 0 <= i < |a| ==> (a + b)[i] == a[i];
    }
    assert AllIn(a + b) ==> AllIn(b) by {
      assert forall i :: 0 <= i < |b| ==> (a + b)[|a| + i] == b[i];
    }
  }

  lemma {:induction false} HeadIsWellFormed(s: bytes, pad: bool)
    requires |s| >= 4 && (pad && |s| == 4 ==> s[3] != '=')
    ensures WellFormed(s, pad) <==> AllIn(s[..4]) && WellFormed(s[4..], pad)
  {
    hide IsCharacter, AllIn;
    assert s == s[..4] + s[4..];
    AllInParts(s[..4], s[4..]);
    if pad && |s| % 4 == 0 {
      assert Unpadded(s) == s[..4] + Unpadded(s[4..]);
      AllInParts(s[..4], Unpadded(s[4..]));
    }
  }

  /** Exactly the well-formed texts are decoded. */
  lemma {:induction false} DecodesExactly(s: bytes, pad: bool)
    ensures DecodeGroups(s, pad).Some? <==> WellFormed(s, pad)
  {
    hide AllIn, Value, DecodeLast;
    if pad && |s| == 4 && s[3] == '=' {
      hide WellFormed;
      LastDecodesExactly(Unpadded(s));
    } else if |s| >= 4 {
      hide WellFormed, DecodeGroups;
      DecodesExactly(s[4..], pad);
      HeadDecodesExactly(s, pad);
      HeadIsWellFormed(s, pad);
    } else if !pad && |s| >= 2 {
      LastDecodesExactly(s);
    } else if s == [] {
      assert AllIn(s) by {
        AllInEmpty();
      }
    }
  }

  lemma {:induction false} LineEndIsSkipped(a: bytes, c: byte, b: bytes)
    requires c as int == 0x0A || c as int == 0x0D
    ensures WithoutNewlines(a + [c] + b) == WithoutNewlines(a + b)
  {
    if a == [] {
      assert a + [c] + b == [c] + b && a + b == b;
    } else {
      LineEndIsSkipped(a[1..], c, b);
      assert (a + [c] + b)[1..] == a[1..] + [c] + b && (a + b)[1..] == a[1..] + b;
    }
  }

  /** A line end anywhere in the text makes no difference. */
  lemma {:induction false} LineEndsAreSkipped(a: bytes, c: byte, b: bytes, pad: bool)
    requires c as int == 0x0A || c as int == 0x0D
    ensures Decode(a + [c] + b, pad) == Decode(a + b, pad)
  {
    LineEndIsSkipped(a, c, b);
    hide DecodeGroups, WithoutNewlines;
  }
}
