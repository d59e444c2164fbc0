/**
  Consistency tokens, platform/zookie/zookie.go: a log sequence number or an instant as opaque
  text and back. Instants are nanoseconds since the Unix epoch.
 */
module Zookie {
  import opened Bytes
  import opened GoTime
  import Hex
  import Base64
  import Numerals

  const V1: bytes := "v1"
  const V2: bytes := "v2"

  /** time.Time{}: the first instant of year 1. */
  const ZERO_TIME := -62135596800 * SECOND

  /** An LSN is a uint64. */
  type uint64 = x: nat | x < TWO64

  datatype Token = Token(version: bytes, lsn: uint64, timestamp: int)

  function NewV1(t: int): Token {
    Token(V1, 0, t)
  }

  // ------------------------------------------------------------- LSN strings

  /** An ASCII character with ink. */
  predicate IsVisible(c: byte) {
    '!' <= c <= '~'
  }

  /** What is used of strings.TrimSpace: text that starts and ends visibly is left alone. */
  ghost predicate TrimsSpace(trim: bytes -> bytes) {
    forall s :: s != [] && IsVisible(s[0]) && IsVisible(s[|s| - 1]) ==> trim(s) == s
  }

  function UpperDigit(n: nat): (c: byte)
    requires n < 16
    ensures Hex.Value(c) == Some(n) && c != '/' && IsVisible(c)
  {
    if n < 10 then ('0' as int + n) as char else ('A' as int + n - 10) as char
  }

  /** "%X" of a 32-bit word: upper-case hexadecimal. */
  function UpperHex(n: nat): (s: bytes)
    ensures |s| > 0 && '/' !in s && IsVisible(s[0]) && IsVisible(s[|s| - 1])
  {
    if n < 16 then [UpperDigit(n)] else UpperHex(n / 16) + [UpperDigit(n % 16)]
  }

  lemma {:induction false} EvalUpperHex(n: nat)
    ensures Numerals.Eval(UpperHex(n), 16) == Some(n)
  {
    var s := UpperHex(n);
    if n >= 16 {
      EvalUpperHex(n / 16);
      assert s[..|s| - 1] == UpperHex(n / 16);
    } else {
      assert s[..0] == [];
    }
  }

  function FormatLSN(lsn: uint64): bytes {
    UpperHex(lsn / 0x1_0000_0000) + ['/'] + UpperHex(lsn % 0x1_0000_0000)
  }

  /** ParseLSN; `trim` is strings.TrimSpace. */
  function ParseLSN(s: bytes, trim: bytes -> bytes): Option<uint64> {
    var parts := Split(trim(s), '/');
    if |parts| != 2 then None
    else
      var high := Numerals.ParseUint(parts[0], 16, 0x1_0000_0000);
      var low := Numerals.ParseUint(parts[1], 16, 0x1_0000_0000);
      if high.None? || low.None? then None
      else
        assert high.value < 0x1_0000_0000 && low.value < 0x1_0000_0000;
        Some(high.value * 0x1_0000_0000 + low.value)
  }

  lemma {:induction false} UpperHexParses(n: nat)
    requires n < 0x1_0000_0000
    ensures Numerals.ParseUint(UpperHex(n), 16, 0x1_0000_0000) == Some(n)
  {
    EvalUpperHex(n);
  }

  /** Two words without a slash, joined by one. */
  lemma {:induction false} JoinedWordsParse(high: bytes, low: bytes, trim: bytes -> bytes)
    requires TrimsSpace(trim) && '/' !in high && '/' !in low && high != [] && low != []
    requires IsVisible(high[0]) && IsVisible(low[|low| - 1])
    ensures Split(trim(high + ['/'] + low), '/') == [high, low]
  {
    var s := high + ['/'] + low;
    assert s[0] == high[0] && s[|s| - 1] == low[|low| - 1];
    hide Split, IsVisible;
    SplitAtSeparator(high, '/', low);
    SplitWithout(low, '/');
    assert trim(s) == s;
  }

  lemma {:induction false} WordsParse(high: bytes, low: bytes, h: nat, l: nat, trim: bytes -> bytes)
    requires Split(trim(high + ['/'] + low), '/') == [high, low]
    requires h < 0x1_0000_0000 && l < 0x1_0000_0000
    requires Numerals.ParseUint(high, 16, 0x1_0000_0000) == Some(h)
    requires Numerals.ParseUint(low, 16, 0x1_0000_0000) == Some(l)
    ensures ParseLSN(high + ['/'] + low, trim) == Some(h * 0x1_0000_0000 + l)
  {
    hide Split, Numerals.ParseUint;
  }

  lemma {:induction false} WordsOf(lsn: uint64)
    ensures lsn / 0x1_0000_0000 < 0x1_0000_0000
    ensures lsn / 0x1_0000_0000 * 0x1_0000_0000 + lsn % 0x1_0000_0000 == lsn
  {
  }

  lemma {:induction false} UpperDigitIs(n: nat)
    requires n < 16
    ensures UpperDigit(n) == "0123456789ABCDEF"[n]
  {
  }

  /** The word is the numeral of base 16, without leading zeros, in upper case. */
  lemma {:induction false} UpperHexIs(n: nat)
    ensures |UpperHex(n)| == |Numerals.Render(n, 16)|
    ensures forall i :: 0 <= i < |UpperHex(n)| ==>
              Hex.Lower(UpperHex(n)[i]) == Numerals.Render(n, 16)[i] && UpperHex(n)[i] !in "abcdef"
  {
    if n >= 16 {
      UpperHexIs(n / 16);
    }
  }

  /** The high word is 32 bits away from the low one. */
  lemma {:induction false} LSNTextIs(high: nat, low: nat)
    requires high < 4_294_967_296 && low < 4_294_967_296
    ensures FormatLSN(4_294_967_296 * high + low) == UpperHex(high) + "/" + UpperHex(low)
  {
    hide UpperHex;
    assert (4_294_967_296 * high + low) / 4_294_967_296 == high;
  }

  /** Postgres LSN text survives the trip for every 64-bit value. */
  lemma {:induction false} LSNRoundTrip(lsn: uint64, trim: bytes -> bytes)
    requires TrimsSpace(trim)
    ensures ParseLSN(FormatLSN(lsn), trim) == Some(lsn)
  {
    var h, l := lsn / 0x1_0000_0000, lsn % 0x1_0000_0000;
    WordsOf(lsn);
    hide Split, UpperHex, Numerals.ParseUint, TrimsSpace, ParseLSN;
    UpperHexParses(h);
    UpperHexParses(l);
    JoinedWordsParse(UpperHex(h), UpperHex(l), trim);
    WordsParse(UpperHex(h), UpperHex(l), h, l, trim);
  }

  // ------------------------------------------------------------------ tokens

  function ToString(t: Token): bytes {
    if t.version == V2 || t.lsn > 0 then "zk_" + V2 + ['_'] + Base64.Encode(Numerals.Render(t.lsn, 16), false)
    else "zk_" + V1 + ['_'] + Base64.Encode(Numerals.FormatInt(Wrap64(t.timestamp)), false)
  }

  function Parse(raw: bytes): Option<Token> {
    if !HasPrefix(raw, "zk_") then None
    else
      var parts := Split(raw, '_');
      if |parts| != 3 then None
      else
        var decoded := Base64.Decode(parts[2], false);
        if decoded.None? then None
        else if parts[1] == V2 then
          var lsn := Numerals.ParseUint(decoded.value, 16, TWO64);
          if lsn.None? then None else Some(Token(V2, lsn.value, ZERO_TIME))
        else
          var nano := Numerals.ParseInt64(decoded.value);
          if nano.None? then None else Some(Token(parts[1], 0, nano.value))
  }

  /** The text of a token: its LSN in hexadecimal, or the nanoseconds of its instant in decimal, as base64url. */
  lemma {:induction false} TokenTextIs(lsn: uint64, t: int)
    ensures ToString(Token("v2", lsn, t)) == "zk_v2_" + Base64.Encode(Numerals.Render(lsn, 16), false)
    ensures lsn > 0 ==> ToString(Token("v1", lsn, t)) == "zk_v2_" + Base64.Encode(Numerals.Render(lsn, 16), false)
    ensures ToString(Token("v1", 0, t)) == "zk_v1_" + Base64.Encode(Numerals.FormatInt(Wrap64(t)), false)
    ensures NewV1(t) == Token("v1", 0, t)
  {
    hide Base64.Encode, Numerals.Render, Numerals.FormatInt, Wrap64;
    assert "v1"[1] != "v2"[1];
    assert "zk_" + V2 + ['_'] == "zk_v2_" && "zk_" + V1 + ['_'] == "zk_v1_";
  }

  /** The zero time lies 1969 years before the epoch, 477 of them leap years. */
  lemma {:induction false} ZeroTimeIs()
    ensures ZERO_TIME == -(1969 * 365 + 1969 / 4 - 1969 / 100 + 1969 / 400) * 86_400 * 1_000_000_000
  {
  }

  lemma {:induction false} MarkIs(mark: bytes, rest: bytes)
    requires '_' !in mark
    ensures HasPrefix(mark + ['_'] + rest, "zk_") <==> mark == "zk"
  {
    var raw := mark + ['_'] + rest;
    assert raw[|mark|] == '_';
    if HasPrefix(raw, "zk_") {
      assert raw[0] == 'z' && raw[1] == 'k' && raw[2] == '_';
      assert forall i :: 0 <= i < |mark| ==> raw[i] == mark[i];
    }
  }

  /** Texts of three parts: the mark has to be "zk", any version but "v2" is read as an instant. */
  lemma {:induction false} ThreePartsAre(mark: bytes, version: bytes, encoded: bytes)
    requires '_' !in mark && '_' !in version && '_' !in encoded
    ensures var text := Base64.Decode(encoded, false);
            Parse(mark + "_" + version + "_" + encoded)
            == if mark != "zk" || text.None? then None
               else if version == "v2"
               then (match Numerals.ParseUint(text.value, 16, 18_446_744_073_709_551_616)
                     case None => None
                     case Some(lsn) => Some(Token("v2", lsn, ZERO_TIME)))
               else (match Numerals.ParseInt64(text.value)
                     case None => None
                     case Some(nano) => Some(Token(version, 0, nano)))
  {
    var raw := mark + "_" + version + "_" + encoded;
    hide Split, Base64.Decode, Numerals.ParseUint, Numerals.ParseInt64;
    MarkIs(mark, version + ['_'] + encoded);
    assert raw == mark + ['_'] + (version + ['_'] + encoded);
    SplitAtSeparator(mark, '_', version + ['_'] + encoded);
    SplitAtSeparator(version, '_', encoded);
    SplitWithout(encoded, '_');
  }

  /** Fewer than three parts, or more, are refused. */
  lemma {:induction false} OtherPartsAreRefused(a: bytes, b: bytes, c: bytes, rest: bytes)
    requires '_' !in a && '_' !in b && '_' !in c
    ensures Parse(a) == None && Parse(a + ['_'] + b) == None
    ensures Parse(a + ['_'] + (b + ['_'] + (c + ['_'] + rest))) == None
  {
    hide Split, Base64.Decode, Numerals.ParseUint, Numerals.ParseInt64;
    SplitWithout(a, '_');
    SplitWithout(b, '_');
    SplitAtSeparator(a, '_', b);
    SplitAtSeparator(a, '_', b + ['_'] + (c + ['_'] + rest));
    SplitAtSeparator(b, '_', c + ['_'] + rest);
    SplitAtSeparator(c, '_', rest);
  }

  /** The bytes of hexadecimal and decimal numerals. */
  predicate IsNumeralByte(c: byte) {
    Hex.IsLowerHex(c) || c == '-'
  }

  /** No sextet of numeral text is 63, the value written as an underscore. */
  lemma {:induction false} NumeralSextets(a: byte, b: byte, c: byte, i: nat)
    requires i < 4 && IsNumeralByte(a)
    requires IsNumeralByte(b) || b == NUL
    requires IsNumeralByte(c) || c == NUL
    ensures Base64.Char(Base64.Sextet(a, b, c, i)) != '_'
  {
  }

  lemma {:induction false} QuadHasNoUnderscore(a: byte, b: byte, c: byte, n: nat)
    requires n <= 4 && IsNumeralByte(a)
    requires IsNumeralByte(b) || b == NUL
    requires IsNumeralByte(c) || c == NUL
    ensures '_' !in Base64.Quad(a, b, c, n)
  {
    forall i | 0 <= i < n ensures Base64.Quad(a, b, c, n)[i] != '_' {
      NumeralSextets(a, b, c, i);
    }
  }

  /** The encoded part of a token holds no underscore, so the token splits into exactly three parts. */
  lemma {:induction false} EncodedNumeralHasNoUnderscore(s: bytes)
    requires forall i :: 0 <= i < |s| ==> IsNumeralByte(s[i])
    ensures '_' !in Base64.Encode(s, false)
    decreases |s|
  {
    if s == [] {
    } else if |s| == 1 {
      QuadHasNoUnderscore(s[0], NUL, NUL, 2);
    } else if |s| == 2 {
      QuadHasNoUnderscore(s[0], s[1], NUL, 3);
    } else {
      QuadHasNoUnderscore(s[0], s[1], s[2], 4);
      EncodedNumeralHasNoUnderscore(s[3..]);
    }
  }

  lemma {:induction false} TokenSplits(version: bytes, encoded: bytes)
    requires version == V1 || version == V2
    requires '_' !in encoded
    ensures var raw := "zk_" + version + ['_'] + encoded;
            HasPrefix(raw, "zk_") && Split(raw, '_') == ["zk", version, encoded]
  {
    var raw := "zk_" + version + ['_'] + encoded;
    var rest := version + ['_'] + encoded;
    assert raw == "zk" + ['_'] + rest;
    hide Split;
    SplitAtSeparator("zk", '_', rest);
    assert '_' !in V1 && '_' !in V2;
    SplitAtSeparator(version, '_', encoded);
    SplitWithout(encoded, '_');
  }

  lemma {:induction false} TokenParts(version: bytes, numeral: bytes)
    requires version == V1 || version == V2
    requires forall i :: 0 <= i < |numeral| ==> IsNumeralByte(numeral[i])
    ensures var raw := "zk_" + version + ['_'] + Base64.Encode(numeral, false);
            HasPrefix(raw, "zk_") && Split(raw, '_') == ["zk", version, Base64.Encode(numeral, false)]
            && Base64.Decode(Base64.Encode(numeral, false), false) == Some(numeral)
  {
    EncodedNumeralHasNoUnderscore(numeral);
    Base64.DecodeEncode(numeral, false);
    TokenSplits(version, Base64.Encode(numeral, false));
  }

  /** Every token with an LSN comes back with the same LSN, as a v2 token. */
  lemma {:induction false} LSNTokenRoundTrip(t: Token)
    requires t.version == V2 || t.lsn > 0
    ensures Parse(ToString(t)) == Some(Token(V2, t.lsn, ZERO_TIME))
  {
    var hex := Numerals.Render(t.lsn, 16);
    TokenParts(V2, hex);
    Numerals.ParseUintRender(t.lsn, 16, TWO64);
  }

  lemma {:induction false} FormatIntIsNumeral(x: int)
    ensures forall i :: 0 <= i < |Numerals.FormatInt(x)| ==> IsNumeralByte(Numerals.FormatInt(x)[i])
  {
  }

  /** A v1 token comes back with its instant reduced to 64-bit nanoseconds. */
  lemma {:induction false} TimeTokenParses(t: Token)
    requires t.version != V2 && t.lsn == 0
    ensures Parse(ToString(t)) == Some(Token(V1, 0, Wrap64(t.timestamp)))
  {
    var nano := Wrap64(t.timestamp);
    FormatIntIsNumeral(nano);
    TokenParts(V1, Numerals.FormatInt(nano));
    Numerals.ParseInt64FormatInt(nano);
    assert V1[1] != V2[1];
  }

  /** The instant of a v1 token is recovered exactly when it fits 64-bit nanoseconds. */
  lemma {:induction false} TimeTokenRoundTripIff(t: int)
    ensures Parse(ToString(NewV1(t))) == Some(NewV1(t)) <==> -TWO63 <= t < TWO63
  {
    assert V1[1] != V2[1];
    TimeTokenParses(NewV1(t));
  }

  /** IsAtLeastFresh. */
  predicate IsAtLeastFresh(requested: Token, candidate: Token) {
    if requested.lsn > 0 && candidate.lsn > 0 then candidate.lsn >= requested.lsn
    else if requested.timestamp != ZERO_TIME && candidate.timestamp != ZERO_TIME
    then candidate.timestamp >= requested.timestamp
    else true
  }

  /** Freshness between two LSN tokens is not changed by sending either over the wire. */
  lemma {:induction false} FreshnessSurvivesTrip(a: Token, b: Token)
    requires a.lsn > 0 && b.lsn > 0
    ensures Parse(ToString(a)).Some? && Parse(ToString(b)).Some?
    ensures IsAtLeastFresh(Parse(ToString(a)).value, Parse(ToString(b)).value) <==> IsAtLeastFresh(a, b)
    ensures IsAtLeastFresh(a, b) <==> b.lsn >= a.lsn
  {
    LSNTokenRoundTrip(a);
    LSNTokenRoundTrip(b);
  }

  /**
    Between instants it survives when both are 64-bit; the zero time, which the comparison reads
    as "no instant", lies outside that range.
   */
  lemma {:induction false} TimeFreshnessSurvivesTrip(a: int, b: int)
    requires -TWO63 <= a < TWO63 && -TWO63 <= b < TWO63
    ensures Parse(ToString(NewV1(a))).Some? && Parse(ToString(NewV1(b))).Some?
    ensures IsAtLeastFresh(Parse(ToString(NewV1(a))).value, Parse(ToString(NewV1(b))).value) <==> b >= a
  {
    TimeTokenRoundTripIff(a);
    TimeTokenRoundTripIff(b);
  }

  /** The token is written with its LSN, and then without its instant. */
  predicate WritesLSN(t: Token) {
    t.version == V2 || t.lsn > 0
  }

  /** What comes back of a token. */
  function Trip(t: Token): Token {
    if WritesLSN(t) then Token(V2, t.lsn, ZERO_TIME) else Token(V1, 0, Wrap64(t.timestamp))
  }

  lemma {:induction false} TripIs(t: Token)
    ensures Parse(ToString(t)) == Some(Trip(t))
  {
    hide Parse, ToString;
    if WritesLSN(t) {
      LSNTokenRoundTrip(t);
    } else {
      TimeTokenParses(t);
    }
  }

  /** How often the instant leaves the 64-bit range, upwards or downwards. */
  function Era(t: int): int {
    (t + TWO63) / TWO64
  }

  lemma {:induction false} EraIs(t: int)
    ensures t == Era(t) * TWO64 + Wrap64(t) && Wrap64(t) != ZERO_TIME
  {
  }

  /** Reducing both instants to 64 bits leaves the answer as it was. */
  predicate OrderKept(a: int, b: int) {
    if a == ZERO_TIME || b == ZERO_TIME || Era(a) < Era(b) then Wrap64(a) <= Wrap64(b)
    else if Era(a) > Era(b) then Wrap64(b) < Wrap64(a)
    else true
  }

  lemma {:induction false} WrappedOrder(a: int, b: int)
    ensures Era(a) == Era(b) ==> (a <= b <==> Wrap64(a) <= Wrap64(b))
    ensures Era(a) < Era(b) ==> a < b
  {
    EraIs(a);
    EraIs(b);
    hide Era, Wrap64;
  }

  /**
    Any two tokens compare as before after both were sent over the wire if and only if both have an
    LSN; or one is written with its LSN, and the comparison by instants, which then can no longer be
    made, would not have failed; or neither is, and reduction to 64 bits keeps their order.
   */
  lemma {:induction false} FreshnessSurvivesTripIff(a: Token, b: Token)
    ensures Parse(ToString(a)).Some? && Parse(ToString(b)).Some?
    ensures (IsAtLeastFresh(Parse(ToString(a)).value, Parse(ToString(b)).value) <==> IsAtLeastFresh(a, b)) <==>
            (a.lsn > 0 && b.lsn > 0)
            || (if WritesLSN(a) || WritesLSN(b)
                then a.timestamp == ZERO_TIME || b.timestamp == ZERO_TIME || a.timestamp <= b.timestamp
                else OrderKept(a.timestamp, b.timestamp))
  {
    TripIs(a);
    TripIs(b);
    EraIs(a.timestamp);
    EraIs(b.timestamp);
    WrappedOrder(a.timestamp, b.timestamp);
    WrappedOrder(b.timestamp, a.timestamp);
    hide Parse, ToString, Era, Wrap64;
  }

  /** A token with an LSN and an instant is not met by one that is a nanosecond older, until both are sent. */
  lemma {:induction false} OlderBecomesFresh(lsn: uint64, t: int)
    requires lsn > 0 && t != ZERO_TIME && t - 1 != ZERO_TIME
    ensures var a, b := Token(V2, lsn, t), NewV1(t - 1);
            !IsAtLeastFresh(a, b) && Parse(ToString(a)).Some? && Parse(ToString(b)).Some?
            && IsAtLeastFresh(Parse(ToString(a)).value, Parse(ToString(b)).value)
  {
    FreshnessSurvivesTripIff(Token(V2, lsn, t), NewV1(t - 1));
    hide Parse, ToString;
  }
}
