/**
  Attenuable tokens, vulcan/internal/macaroon/macaroon.go: a chain of keyed hashes over a list of
  caveats. The keyed hash is any function to 32 bytes.
 */
module Macaroon {
  import opened Bytes
  import Hex

  type Mac = b: bytes | |b| == 32 witness Zeros(32)

  /** HMAC-SHA-256, strings.TrimSpace, time.Parse with RFC 3339, and strings.EqualFold. */
  datatype Lib = Lib(hmac: (bytes, bytes) -> Mac, trim: bytes -> bytes, parseTime: bytes -> Option<int>,
                     equalFold: (bytes, bytes) -> bool)

  datatype Token = Token(location: bytes, keyID: bytes, caveats: seq<bytes>, signature: bytes)

  datatype Context = Context(now: int, ipAddress: bytes, verb: bytes, path: bytes)

  function NewToken(lib: Lib, location: bytes, keyID: bytes, rootKey: bytes): Token {
    Token(location, keyID, [], Hex.Encode(lib.hmac(rootKey, keyID)))
  }

  /** None: the signature is not hexadecimal. */
  function Attenuate(lib: Lib, m: Token, caveat: bytes): Option<Token> {
    var current := Hex.Decode(m.signature);
    if current.None? then None
    else Some(m.(caveats := m.caveats + [caveat], signature := Hex.Encode(lib.hmac(current.value, caveat))))
  }

  /** A token as the object it is in memory, its caveats in an array that others might share. */
  class TokenObject {
    const location: bytes
    const keyID: bytes
    const caveats: array<bytes>
    const signature: bytes

    function Value(): Token
      reads caveats
    {
      Token(location, keyID, caveats[..], signature)
    }

    constructor (location: bytes, keyID: bytes, caveats: array<bytes>, signature: bytes)
      ensures Value() == Token(location, keyID, caveats[..], signature) && this.caveats == caveats
    {
      this.location, this.keyID, this.caveats, this.signature := location, keyID, caveats, signature;
    }

    /** Nothing is modified, and the child shares no memory with its parent. */
    method AttenuateObject(lib: Lib, caveat: bytes) returns (child: TokenObject?)
      ensures child == null <==> Attenuate(lib, Value(), caveat).None?
      ensures child != null ==> fresh(child) && fresh(child.caveats)
                                && child.Value() == Attenuate(lib, Value(), caveat).value
    {
      var current := Hex.Decode(signature);
      if current.None? {
        return null;
      }
      var n := caveats.Length;
      var newCaveats := new bytes[n + 1];
      for i := 0 to n
        invariant newCaveats[..i] == caveats[..i]
      {
        newCaveats[i] := caveats[i];
      }
      newCaveats[n] := caveat;
      assert newCaveats[..] == newCaveats[..n] + [caveat] && caveats[..n] == caveats[..];
      child := new TokenObject(location, keyID, newCaveats, Hex.Encode(lib.hmac(current.value, caveat)));
    }
  }

  /** The chained signature over a list of caveats. */
  function Chain(lib: Lib, key: Mac, caveats: seq<bytes>): Mac {
    if caveats == [] then key
    else lib.hmac(Chain(lib, key, caveats[..|caveats| - 1]), caveats[|caveats| - 1])
  }

  predicate SignatureOk(lib: Lib, m: Token, rootKey: bytes) {
    m.signature == Hex.Encode(Chain(lib, lib.hmac(rootKey, m.keyID), m.caveats))
  }

  // -------------------------------------------------------------- caveats

  /** strings.SplitN(s, "=", 2): the parts around the first equals sign. */
  function Cut(s: bytes): Option<(bytes, bytes)> {
    if s == [] then None
    else if s[0] == '=' then Some(([], s[1..]))
    else
      var rest := Cut(s[1..]);
      if rest.None? then None else Some(([s[0]] + rest.value.0, rest.value.1))
  }

  predicate CaveatHolds(lib: Lib, caveat: bytes, c: Context) {
    var cut := Cut(caveat);
    cut.Some?
    && var key, val := lib.trim(cut.value.0), lib.trim(cut.value.1);
       if key == "time_before" then lib.parseTime(val).Some? && c.now <= lib.parseTime(val).value
       else if key == "ip" then c.ipAddress == [] || c.ipAddress == val
       else if key == "method" then c.verb == [] || lib.equalFold(c.verb, val)
       else if key == "path_prefix" then c.path == [] || HasPrefix(c.path, val)
       else true
  }

  datatype Answer = Valid | InvalidSignature | CaveatFailed(caveat: bytes)

  /** The verdict Verify owes: the signature first, then the first caveat that does not hold. */
  function FirstFailing(lib: Lib, caveats: seq<bytes>, c: Context): Option<bytes> {
    if caveats == [] then None
    else if CaveatHolds(lib, caveats[0], c) then FirstFailing(lib, caveats[1..], c)
    else Some(caveats[0])
  }

  function Verdict(lib: Lib, m: Token, rootKey: bytes, ctx: Option<Context>): Answer {
    if !SignatureOk(lib, m, rootKey) then InvalidSignature
    else if ctx.None? || FirstFailing(lib, m.caveats, ctx.value).None? then Valid
    else CaveatFailed(FirstFailing(lib, m.caveats, ctx.value).value)
  }

  method Verify(lib: Lib, m: Token, rootKey: bytes, ctx: Option<Context>) returns (v: Answer)
    ensures v == Verdict(lib, m, rootKey, ctx)
  {
    var currentSig := lib.hmac(rootKey, m.keyID);
    for i := 0 to |m.caveats|
      invariant currentSig == Chain(lib, lib.hmac(rootKey, m.keyID), m.caveats[..i])
    {
      assert m.caveats[..i + 1][..i] == m.caveats[..i];
      currentSig := lib.hmac(currentSig, m.caveats[i]);
    }
    assert m.caveats[..|m.caveats|] == m.caveats;
    if m.signature != Hex.Encode(currentSig) {
      return InvalidSignature;
    }
    if ctx.Some? {
      var i := 0;
      assert m.caveats[0..] == m.caveats;
      while i < |m.caveats|
        invariant i <= |m.caveats|
        invariant FirstFailing(lib, m.caveats[i..], ctx.value) == FirstFailing(lib, m.caveats, ctx.value)
      {
        assert m.caveats[i..][1..] == m.caveats[i + 1..];
        if !CaveatHolds(lib, m.caveats[i], ctx.value) {
          return CaveatFailed(m.caveats[i]);
        }
        i := i + 1;
      }
    }
    return Valid;
  }

  // ---------------------------------------------------- what Verify accepts

  /** The token obtained from New by attenuating with these caveats in turn. */
  function Minted(lib: Lib, location: bytes, keyID: bytes, rootKey: bytes, caveats: seq<bytes>): Option<Token> {
    if caveats == [] then Some(NewToken(lib, location, keyID, rootKey))
    else
      var parent := Minted(lib, location, keyID, rootKey, caveats[..|caveats| - 1]);
      if parent.None? then None else Attenuate(lib, parent.value, caveats[|caveats| - 1])
  }

  lemma {:induction false} MintedIsChain(lib: Lib, location: bytes, keyID: bytes, rootKey: bytes, caveats: seq<bytes>)
    ensures Minted(lib, location, keyID, rootKey, caveats)
            == Some(Token(location, keyID, caveats, Hex.Encode(Chain(lib, lib.hmac(rootKey, keyID), caveats))))
    decreases |caveats|
  {
    if caveats != [] {
      var init := caveats[..|caveats| - 1];
      MintedIsChain(lib, location, keyID, rootKey, init);
      Hex.DecodeEncode(Chain(lib, lib.hmac(rootKey, keyID), init));
      assert caveats == init + [caveats[|caveats| - 1]];
    }
  }

  /** The signature check accepts exactly what New and Attenuate can produce over the same caveats. */
  lemma {:induction false} SignatureOkIffMinted(lib: Lib, m: Token, rootKey: bytes)
    ensures SignatureOk(lib, m, rootKey) <==> Minted(lib, m.location, m.keyID, rootKey, m.caveats) == Some(m)
  {
    MintedIsChain(lib, m.location, m.keyID, rootKey, m.caveats);
  }

  /** Attenuating keeps the parent's caveats in front and the signature in order. */
  lemma {:induction false} AttenuateExtends(lib: Lib, m: Token, rootKey: bytes, caveat: bytes)
    requires SignatureOk(lib, m, rootKey)
    ensures var child := Attenuate(lib, m, caveat);
            child.Some? && SignatureOk(lib, child.value, rootKey)
            && child.value.caveats == m.caveats + [caveat] && child.value.keyID == m.keyID
  {
    Hex.DecodeEncode(Chain(lib, lib.hmac(rootKey, m.keyID), m.caveats));
    assert (m.caveats + [caveat])[..|m.caveats|] == m.caveats;
  }

  /**
    A child verifies exactly when the parent's signature, read as bytes, is the chain so far or
    hashes with the new caveat to the same value: case of the hexadecimal digits is not checked.
   */
  lemma {:induction false} ChildVerifiesIff(lib: Lib, m: Token, rootKey: bytes, caveat: bytes)
    requires Hex.Decode(m.signature).Some?
    ensures var chain := Chain(lib, lib.hmac(rootKey, m.keyID), m.caveats);
            SignatureOk(lib, Attenuate(lib, m, caveat).value, rootKey) <==>
            lib.hmac(Hex.Decode(m.signature).value, caveat) == lib.hmac(chain, caveat)
  {
    var chain := Chain(lib, lib.hmac(rootKey, m.keyID), m.caveats);
    assert (m.caveats + [caveat])[..|m.caveats|] == m.caveats;
    if SignatureOk(lib, Attenuate(lib, m, caveat).value, rootKey) {
      Hex.EncodeInjective(lib.hmac(Hex.Decode(m.signature).value, caveat), lib.hmac(chain, caveat));
    }
  }

  /** The signature check spelled out for two caveats: the root key signs the key id, each result the next caveat. */
  lemma {:induction false} SignatureOfTwo(lib: Lib, m: Token, rootKey: bytes, first: bytes, second: bytes)
    requires m.caveats == [first, second]
    ensures SignatureOk(lib, m, rootKey) <==>
            m.signature == Hex.Encode(lib.hmac(lib.hmac(lib.hmac(rootKey, m.keyID), first), second))
  {
    assert m.caveats[..1] == [first] && [first][..0] == [];
    assert Chain(lib, lib.hmac(rootKey, m.keyID), [first]) == lib.hmac(lib.hmac(rootKey, m.keyID), first);
  }

  // ------------------------------------------------ what a caveat admits

  lemma {:induction false} CutAtEquals(left: bytes, right: bytes)
    requires '=' !in left
    ensures Cut(left + "=" + right) == Some((left, right))
  {
    if left == [] {
      assert left + "=" + right == "=" + right;
      assert ("=" + right)[1..] == right;
    } else {
      var s := left + "=" + right;
      assert s[1..] == left[1..] + "=" + right && s[0] == left[0];
      CutAtEquals(left[1..], right);
      assert [left[0]] + left[1..] == left;
    }
  }

  lemma {:induction false} NoCut(s: bytes)
    requires '=' !in s
    ensures Cut(s) == None
  {
    if s != [] {
      NoCut(s[1..]);
    }
  }

  lemma {:induction false} VerdictOfOne(lib: Lib, m: Token, rootKey: bytes, caveat: bytes, c: Context)
    requires SignatureOk(lib, m, rootKey) && m.caveats == [caveat]
    ensures Verdict(lib, m, rootKey, Some(c)) == if CaveatHolds(lib, caveat, c) then Valid else CaveatFailed(caveat)
    ensures Verdict(lib, m, rootKey, None) == Valid
  {
    assert m.caveats[1..] == [];
    assert FirstFailing(lib, [], c) == None;
  }

  /**
    The answer for a well-signed token with the one caveat `left=right`, where left has no equals sign
    and reads as the key and right as the value. A time_before caveat admits every instant up to its
    own and none after; ip, method and path_prefix admit a request that does not say, or that fits;
    any other key admits all.
   */
  lemma {:induction false} CaveatAdmits(lib: Lib, m: Token, rootKey: bytes, left: bytes, right: bytes, c: Context)
    requires '=' !in left && SignatureOk(lib, m, rootKey) && m.caveats == [left + "=" + right]
    ensures var key, val := lib.trim(left), lib.trim(right);
            var v := Verdict(lib, m, rootKey, Some(c));
            v in {Valid, CaveatFailed(left + "=" + right)}
            && (key == "time_before" ==>
                  match lib.parseTime(val)
                  case None => v != Valid
                  case Some(t) => v == Valid <==> c.now - t <= 0)
            && (key == "ip" ==> (v != Valid <==> c.ipAddress != [] && c.ipAddress != val))
            && (key == "method" ==> (v != Valid <==> c.verb != [] && !lib.equalFold(c.verb, val)))
            && (key == "path_prefix" ==>
                  (v != Valid <==> c.path != [] && !exists rest: bytes :: c.path == val + rest))
            && (key !in {"time_before", "ip", "method", "path_prefix"} ==> v == Valid)
  {
    CutAtEquals(left, right);
    VerdictOfOne(lib, m, rootKey, left + "=" + right, c);
    PrefixIsSplit(c.path, lib.trim(right));
    KeysDiffer();
    hide Cut, FirstFailing, SignatureOk, HasPrefix;
  }

  lemma {:induction false} KeysDiffer()
    ensures "time_before" != "ip" && "time_before" != "method" && "time_before" != "path_prefix"
    ensures "ip" != "method" && "ip" != "path_prefix" && "method" != "path_prefix"
  {
    assert "time_before"[0] != "ip"[0] && "time_before"[0] != "method"[0] && "time_before"[0] != "path_prefix"[0];
    assert "ip"[0] != "method"[0] && "ip"[0] != "path_prefix"[0] && "method"[0] != "path_prefix"[0];
  }

  lemma {:induction false} PrefixIsSplit(s: bytes, prefix: bytes)
    ensures HasPrefix(s, prefix) <==> exists rest: bytes :: s == prefix + rest
  {
    if HasPrefix(s, prefix) {
      assert s == prefix + s[|prefix|..];
    }
  }

  /** A caveat without an equals sign admits nothing; without a context no caveat is asked. */
  lemma {:induction false} CaveatWithoutEquals(lib: Lib, m: Token, rootKey: bytes, caveat: bytes, c: Context)
    requires '=' !in caveat && SignatureOk(lib, m, rootKey) && m.caveats == [caveat]
    ensures Verdict(lib, m, rootKey, Some(c)) == CaveatFailed(caveat)
    ensures Verdict(lib, m, rootKey, None) == Valid
  {
    NoCut(caveat);
    VerdictOfOne(lib, m, rootKey, caveat, c);
  }

  // ------------------------------------------------- caveats only restrict

  lemma {:induction false} NoneFailsIffAllHold(lib: Lib, caveats: seq<bytes>, c: Context)
    ensures FirstFailing(lib, caveats, c).None? <==> forall x :: x in caveats ==> CaveatHolds(lib, x, c)
    decreases |caveats|
  {
    if caveats != [] {
      NoneFailsIffAllHold(lib, caveats[1..], c);
      assert caveats == [caveats[0]] + caveats[1..];
    }
  }

  /** With a context the verdict is the signature and the conjunction of all caveats. */
  lemma {:induction false} ValidIffAllHold(lib: Lib, m: Token, rootKey: bytes, c: Context)
    ensures Verdict(lib, m, rootKey, Some(c)) == Valid <==>
            SignatureOk(lib, m, rootKey) && forall x :: x in m.caveats ==> CaveatHolds(lib, x, c)
  {
    NoneFailsIffAllHold(lib, m.caveats, c);
  }

  /** Minting with the same caveats in another order accepts the same contexts. */
  lemma {:induction false} OrderDoesNotMatter(lib: Lib, location: bytes, keyID: bytes, rootKey: bytes,
                           a: seq<bytes>, b: seq<bytes>, c: Context)
    requires multiset(a) == multiset(b)
    ensures var x, y := Minted(lib, location, keyID, rootKey, a), Minted(lib, location, keyID, rootKey, b);
            x.Some? && y.Some?
            && (Verdict(lib, x.value, rootKey, Some(c)) == Valid <==> Verdict(lib, y.value, rootKey, Some(c)) == Valid)
  {
    MintedIsChain(lib, location, keyID, rootKey, a);
    MintedIsChain(lib, location, keyID, rootKey, b);
    ValidIffAllHold(lib, Minted(lib, location, keyID, rootKey, a).value, rootKey, c);
    ValidIffAllHold(lib, Minted(lib, location, keyID, rootKey, b).value, rootKey, c);
    forall x ensures x in a <==> x in b {
      assert x in multiset(a) <==> x in multiset(b);
    }
  }

  /** An attenuated token is valid where its parent is and the new caveat holds, and nowhere else. */
  lemma {:induction false} AttenuateOnlyRestricts(lib: Lib, m: Token, rootKey: bytes, caveat: bytes, c: Context)
    requires SignatureOk(lib, m, rootKey)
    ensures var child := Attenuate(lib, m, caveat);
            child.Some?
            && (Verdict(lib, child.value, rootKey, Some(c)) == Valid <==>
                  Verdict(lib, m, rootKey, Some(c)) == Valid && CaveatHolds(lib, caveat, c))
  {
    AttenuateExtends(lib, m, rootKey, caveat);
    ValidIffAllHold(lib, m, rootKey, c);
    ValidIffAllHold(lib, Attenuate(lib, m, caveat).value, rootKey, c);
  }
}
