/** Go strings are byte sequences; a byte is written here as the character with the same code. */
module Bytes {
  type byte = c: char | c as int < 256
  type bytes = seq<byte>

  datatype Option<+T> = None | Some(value: T)

  const NUL: byte := '\0'

  function Zeros(n: nat): (b: bytes)
    ensures |b| == n && forall i :: 0 <= i < n ==> b[i] as int == 0
  {
    if n == 0 then [] else [NUL] + Zeros(n - 1)
  }

  predicate HasPrefix(s: bytes, prefix: bytes) {
    prefix <= s
  }

  predicate HasSuffix(s: bytes, suffix: bytes) {
    |suffix| <= |s| && s[|s| - |suffix|..] == suffix
  }

  /** Index of the first occurrence of pat in s at or after position i. */
  function IndexFrom(s: bytes, pat: bytes, i: nat): (r: Option<nat>)
    requires i <= |s|
    ensures r.Some? ==> i <= r.value <= |s| - |pat| && s[r.value..r.value + |pat|] == pat
    ensures r.Some? ==> forall k :: i <= k < r.value ==> !(pat <= s[k..])
    ensures r.None? ==> forall k :: i <= k <= |s| ==> !(pat <= s[k..])
    decreases |s| - i
  {
    if pat <= s[i..] then Some(i)
    else if i == |s| then None
    else IndexFrom(s, pat, i + 1)
  }

  function TrimPrefix(s: bytes, prefix: bytes): bytes {
    if HasPrefix(s, prefix) then s[|prefix|..] else s
  }

  /** strings.Split with a one-byte separator. */
  function Split(s: bytes, sep: byte): (parts: seq<bytes>)
    ensures |parts| >= 1
  {
    if s == [] then [[]]
    else
      var rest := Split(s[1..], sep);
      if s[0] == sep then [[]] + rest else [[s[0]] + rest[0]] + rest[1..]
  }

  lemma {:induction false} SplitWithout(s: bytes, sep: byte)
    requires sep !in s
    ensures Split(s, sep) == [s]
  {
    if s != [] {
      SplitWithout(s[1..], sep);
      assert s == [s[0]] + s[1..];
    }
  }

  lemma {:induction false} SplitAtSeparator(a: bytes, sep: byte, b: bytes)
    requires sep !in a
    ensures Split(a + [sep] + b, sep) == [a] + Split(b, sep)
  {
    var s := a + [sep] + b;
    if a == [] {
      assert s[1..] == b;
    } else {
      assert s[1..] == a[1..] + [sep] + b;
      SplitAtSeparator(a[1..], sep, b);
      assert a == [a[0]] + a[1..];
    }
  }
}
