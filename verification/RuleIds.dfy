/**
  Generated rule ids, aegis/internal/rule/store.go:305-339: the slug of a description, made unique
  with a numeric suffix by a loop that has no bound of its own.
 */
module RuleIds {
  import opened Bytes
  import Numerals
  import Sets

  /** unicode.ToLower and unicode.IsSpace. */
  datatype Unicode = Unicode(lower: char -> char, isSpace: char -> bool)

  /** On lower-case letters, digits and the dash they are what they must be. */
  ghost predicate FixesSlugs(u: Unicode) {
    forall c: char :: IsSlugChar(c) ==> u.lower(c) == c && !u.isSpace(c)
  }

  predicate IsWordChar(c: char) {
    'a' <= c <= 'z' || '0' <= c <= '9'
  }

  predicate IsSlugChar(c: char) {
    IsWordChar(c) || c == '-'
  }

  // ----------------------------------------------------------------- slugs

  function TrimLeft(s: string, drop: char -> bool): string {
    if s != [] && drop(s[0]) then TrimLeft(s[1..], drop) else s
  }

  function TrimRight(s: string, drop: char -> bool): string {
    if s != [] && drop(s[|s| - 1]) then TrimRight(s[..|s| - 1], drop) else s
  }

  function Lower(u: Unicode, s: string): (t: string)
    ensures |t| == |s| && forall i :: 0 <= i < |s| ==> t[i] == u.lower(s[i])
  {
    seq(|s|, i requires 0 <= i < |s| => u.lower(s[i]))
  }

  /** The builder after the loop has read s: runs of other characters become single dashes. */
  function Dashed(s: string): string {
    if s == [] then []
    else
      var b := Dashed(s[..|s| - 1]);
      var r := s[|s| - 1];
      if IsWordChar(r) then b + [r]
      else if b != [] && b[|b| - 1] != '-' then b + ['-']
      else b
  }

  function Slugify(u: Unicode, s: string): string {
    TrimRight(TrimLeft(Dashed(Lower(u, TrimRight(TrimLeft(s, u.isSpace), u.isSpace))), c => c == '-'), c => c == '-')
  }

  /** Words of [a-z0-9] joined by single dashes. */
  predicate IsSlug(s: string) {
    (forall i :: 0 <= i < |s| ==> IsSlugChar(s[i]))
    && (s != [] ==> s[0] != '-' && s[|s| - 1] != '-')
    && forall i, j :: 0 <= i < |s| && 0 <= j < |s| && j == i + 1 ==> !(s[i] == '-' && s[j] == '-')
  }

  method SlugifyLoop(u: Unicode, description: string) returns (slug: string)
    ensures slug == Slugify(u, description)
  {
    var s := Lower(u, TrimRight(TrimLeft(description, u.isSpace), u.isSpace));
    var b: string := [];
    var lastDash := false;
    for i := 0 to |s|
      invariant b == Dashed(s[..i]) && lastDash == (b != [] && b[|b| - 1] == '-')
    {
      assert s[..i + 1][..i] == s[..i];
      var r := s[i];
      if IsWordChar(r) {
        b := b + [r];
        lastDash := false;
      } else if !lastDash && |b| > 0 {
        b := b + ['-'];
        lastDash := true;
      }
    }
    assert s[..|s|] == s;
    slug := TrimRight(TrimLeft(b, c => c == '-'), c => c == '-');
  }

  /** The builder never starts with a dash and never holds two in a row. */
  lemma {:induction false} DashedShape(s: string)
    ensures var b := Dashed(s);
            (forall i :: 0 <= i < |b| ==> IsSlugChar(b[i])) && (b != [] ==> b[0] != '-')
            && forall i, j :: 0 <= i < |b| && 0 <= j < |b| && j == i + 1 ==> !(b[i] == '-' && b[j] == '-')
  {
    if s != [] {
      DashedShape(s[..|s| - 1]);
    }
  }

  lemma {:induction false} SlugifyIsSlug(u: Unicode, s: string)
    ensures IsSlug(Slugify(u, s))
  {
    var b := Dashed(Lower(u, TrimRight(TrimLeft(s, u.isSpace), u.isSpace)));
    DashedShape(b);
    DashedShape(Lower(u, TrimRight(TrimLeft(s, u.isSpace), u.isSpace)));
    var isDash := c => c == '-';
    assert TrimLeft(b, isDash) == b;
    if b != [] && b[|b| - 1] == '-' {
      var c := b[..|b| - 1];
      assert c == [] || c[|c| - 1] != '-' by {
        if c != [] {
          assert b[|c| - 1] == c[|c| - 1];
        }
      }
      assert TrimRight(b, isDash) == TrimRight(c, isDash) == c;
    } else {
      assert TrimRight(b, isDash) == b;
    }
  }

  lemma {:induction false} DashedKeepsSlugPrefix(s: string, n: nat)
    requires IsSlug(s) && n <= |s|
    ensures Dashed(s[..n]) == s[..n]
    decreases n
  {
    if n > 0 {
      DashedKeepsSlugPrefix(s, n - 1);
      assert s[..n][..n - 1] == s[..n - 1];
      assert s[..n] == s[..n - 1] + [s[n - 1]];
      assert n > 1 && s[n - 1] == '-' ==> s[n - 2] != '-';
    }
  }

  /** A slug is its own slug, so slugify is idempotent. */
  lemma {:induction false} SlugifyKeepsSlugs(u: Unicode, s: string)
    requires FixesSlugs(u) && IsSlug(s)
    ensures Slugify(u, s) == s
  {
    if s != [] {
      assert IsSlugChar(s[0]) && IsSlugChar(s[|s| - 1]);
    }
    assert TrimRight(TrimLeft(s, u.isSpace), u.isSpace) == s;
    assert Lower(u, s) == s;
    DashedKeepsSlugPrefix(s, |s|);
    assert s[..|s|] == s;
  }

  lemma {:induction false} SlugifyIsIdempotent(u: Unicode, s: string)
    requires FixesSlugs(u)
    ensures Slugify(u, Slugify(u, s)) == Slugify(u, s)
  {
    SlugifyIsSlug(u, s);
    SlugifyKeepsSlugs(u, Slugify(u, s));
  }

  // ------------------------------------------------- a slug is its words

  /** The words of a text: its longest runs of a to z and 0 to 9. */
  function Words(s: string): (ws: seq<string>)
    ensures s != [] && ('a' <= s[|s| - 1] <= 'z' || '0' <= s[|s| - 1] <= '9') ==> ws != []
  {
    if s == [] then []
    else
      var init, c := s[..|s| - 1], s[|s| - 1];
      var ws := Words(init);
      if !('a' <= c <= 'z' || '0' <= c <= '9') then ws
      else if init != [] && ('a' <= init[|init| - 1] <= 'z' || '0' <= init[|init| - 1] <= '9') then
        ws[..|ws| - 1] + [ws[|ws| - 1] + [c]]
      else ws + [[c]]
  }

  function Joined(ws: seq<string>): string {
    if |ws| == 0 then "" else if |ws| == 1 then ws[0] else Joined(ws[..|ws| - 1]) + "-" + ws[|ws| - 1]
  }

  lemma {:induction false} JoinedExtends(ws: seq<string>, c: char)
    requires ws != []
    ensures Joined(ws[..|ws| - 1] + [ws[|ws| - 1] + [c]]) == Joined(ws) + [c]
  {
    var out := ws[..|ws| - 1] + [ws[|ws| - 1] + [c]];
    assert out[..|out| - 1] == ws[..|ws| - 1];
  }

  lemma {:induction false} JoinedAppends(ws: seq<string>, w: string)
    ensures Joined(ws + [w]) == if ws == [] then w else Joined(ws) + "-" + w
  {
    assert (ws + [w])[..|ws|] == ws;
  }

  lemma {:induction false} JoinedEnds(ws: seq<string>)
    requires ws != [] && forall w :: w in ws ==> w != [] && forall i :: 0 <= i < |w| ==> IsWordChar(w[i])
    ensures Joined(ws) != [] && Joined(ws)[0] != '-' && Joined(ws)[|Joined(ws)| - 1] != '-'
    decreases |ws|
  {
    var last := ws[|ws| - 1];
    assert last in ws;
    if |ws| > 1 {
      JoinedEnds(ws[..|ws| - 1]);
    }
  }

  lemma {:induction false} WordsAreWords(s: string)
    ensures forall w :: w in Words(s) ==> w != [] && forall i :: 0 <= i < |w| ==> IsWordChar(w[i])
  {
    if s != [] {
      WordsAreWords(s[..|s| - 1]);
    }
  }

  lemma {:induction false} OneMoreWord(s: string, c: char)
    ensures var ws := Words(s);
            Words(s + [c]) ==
            if !IsWordChar(c) then ws
            else if s != [] && IsWordChar(s[|s| - 1]) then ws[..|ws| - 1] + [ws[|ws| - 1] + [c]]
            else ws + [[c]]
    ensures Dashed(s + [c]) ==
            var b := Dashed(s);
            if IsWordChar(c) then b + [c] else if b != [] && b[|b| - 1] != '-' then b + ['-'] else b
  {
    assert (s + [c])[..|s|] == s;
  }

  predicate EndsInWord(s: string) {
    s != [] && IsWordChar(s[|s| - 1])
  }

  /** The builder holds the words read so far, and a dash if something else follows the last one. */
  lemma {:induction false} DashedIsWords(s: string)
    ensures Dashed(s) == if Words(s) != [] && !EndsInWord(s) then Joined(Words(s)) + "-" else Joined(Words(s))
    ensures EndsInWord(s) ==> Words(s) != []
    decreases |s|
  {
    if s != [] {
      var init, c := s[..|s| - 1], s[|s| - 1];
      assert s == init + [c];
      DashedIsWords(init);
      OneMoreWord(init, c);
      BuilderStep(init, c);
    }
  }

  lemma {:induction false} BuilderStep(init: string, c: char)
    requires Dashed(init) == if Words(init) != [] && !EndsInWord(init) then Joined(Words(init)) + "-" else Joined(Words(init))
    requires EndsInWord(init) ==> Words(init) != []
    ensures var s := init + [c];
            Dashed(s) == if Words(s) != [] && !EndsInWord(s) then Joined(Words(s)) + "-" else Joined(Words(s))
  {
    OneMoreWord(init, c);
    WordsAreWords(init);
    var ws := Words(init);
    if ws != [] {
      JoinedEnds(ws);
      JoinedExtends(ws, c);
    }
    JoinedAppends(ws, [c]);
    hide Words, Dashed, Joined, IsWordChar;
    assert EndsInWord(init + [c]) <==> IsWordChar(c);
  }

  lemma {:induction false} WordsIgnoreFront(c: char, s: string)
    requires !IsWordChar(c)
    ensures Words([c] + s) == Words(s)
    decreases |s|
  {
    var t := [c] + s;
    if s == [] {
      assert t[..|t| - 1] == [];
    } else {
      assert t[..|t| - 1] == [c] + s[..|s| - 1];
      WordsIgnoreFront(c, s[..|s| - 1]);
    }
  }

  lemma {:induction false} WordsIgnoreLeft(u: Unicode, s: string)
    requires forall c: char :: u.isSpace(c) ==> !IsWordChar(u.lower(c))
    ensures Words(Lower(u, TrimLeft(s, u.isSpace))) == Words(Lower(u, s))
    decreases |s|
  {
    hide Words, IsWordChar;
    if s != [] && u.isSpace(s[0]) {
      WordsIgnoreLeft(u, s[1..]);
      WordsIgnoreFront(u.lower(s[0]), Lower(u, s[1..]));
      assert Lower(u, s) == [u.lower(s[0])] + Lower(u, s[1..]);
    }
  }

  lemma {:induction false} WordsIgnoreRight(u: Unicode, s: string)
    requires forall c: char :: u.isSpace(c) ==> !IsWordChar(u.lower(c))
    ensures Words(Lower(u, TrimRight(s, u.isSpace))) == Words(Lower(u, s))
    decreases |s|
  {
    hide Words, IsWordChar;
    if s != [] && u.isSpace(s[|s| - 1]) {
      var n := |s| - 1;
      WordsIgnoreRight(u, s[..n]);
      OneMoreWord(Lower(u, s[..n]), u.lower(s[n]));
      assert Lower(u, s) == Lower(u, s[..n]) + [u.lower(s[n])];
    }
  }

  lemma {:induction false} DashesTrim(ws: seq<string>, tail: string)
    requires forall w :: w in ws ==> w != [] && forall i :: 0 <= i < |w| ==> IsWordChar(w[i])
    requires tail == "" || (tail == "-" && ws != [])
    ensures TrimRight(TrimLeft(Joined(ws) + tail, c => c == '-'), c => c == '-') == Joined(ws)
  {
    var isDash := c => c == '-';
    var b := Joined(ws) + tail;
    if ws != [] {
      JoinedEnds(ws);
    }
    hide Joined;
    assert TrimLeft(b, isDash) == b;
    if tail == "-" {
      assert b[..|b| - 1] == Joined(ws);
      assert TrimRight(b, isDash) == TrimRight(Joined(ws), isDash);
    } else {
      assert b == Joined(ws);
    }
    assert TrimRight(Joined(ws), isDash) == Joined(ws);
  }

  /**
    The slug of a text is its words, lower-cased, with one dash between any two: whatever stands between
    words separates them and nothing of a word is lost.
   */
  lemma {:induction false} SlugIsItsWords(u: Unicode, s: string)
    requires forall c: char :: u.isSpace(c) ==> !('a' <= u.lower(c) <= 'z' || '0' <= u.lower(c) <= '9')
    ensures Slugify(u, s) == Joined(Words(Lower(u, s)))
  {
    var t := Lower(u, TrimRight(TrimLeft(s, u.isSpace), u.isSpace));
    WordsIgnoreLeft(u, s);
    WordsIgnoreRight(u, TrimLeft(s, u.isSpace));
    DashedIsWords(t);
    WordsAreWords(t);
    hide Words, Joined, Dashed, TrimLeft, TrimRight, Lower;
    assert Joined(Words(t)) + "" == Joined(Words(t));
    DashesTrim(Words(t), if Words(t) != [] && !EndsInWord(t) then "-" else "");
  }

  /** With no word there is no slug, and the id is made of the word `rule`. */
  lemma {:induction false} BaseIs(u: Unicode, s: string)
    requires forall c: char :: u.isSpace(c) ==> !('a' <= u.lower(c) <= 'z' || '0' <= u.lower(c) <= '9')
    ensures Words(Lower(u, s)) == [] ==> Base(u, s) == "rule"
    ensures Words(Lower(u, s)) != [] ==> Base(u, s) == Joined(Words(Lower(u, s)))
  {
    SlugIsItsWords(u, s);
    WordsAreWords(Lower(u, s));
    if Words(Lower(u, s)) != [] {
      JoinedEnds(Words(Lower(u, s)));
    }
    hide Words, Joined, Slugify, Lower;
  }

  // ------------------------------------------------------------- fresh ids

  lemma {:induction false} SlugIsAscii(u: Unicode, s: string)
    ensures forall i :: 0 <= i < |Slugify(u, s)| ==> Slugify(u, s)[i] as int < 128
  {
    SlugifyIsSlug(u, s);
  }

  /** The slug, or "rule" when nothing is left of the description. */
  function Base(u: Unicode, seed: string): (b: bytes)
    ensures b != []
  {
    SlugifyIsSlug(u, seed);
    var s := Slugify(u, seed);
    if s == [] then "rule" else s
  }

  /** The k-th id tried: base, base-2, base-3, ... */
  function Candidate(base: bytes, k: nat): bytes {
    if k == 0 then base else base + (['-'] + Numerals.Render(k + 1, 10))
  }

  /** The base itself, then the base with "-2", "-3" and so on. */
  lemma {:induction false} CandidatesAre(base: bytes, n: nat)
    requires n >= 2
    ensures Candidate(base, 0) == base && Candidate(base, n - 1) == base + "-" + Numerals.Render(n, 10)
    ensures Numerals.Render(2, 10) == "2" && Numerals.Render(10, 10) == "10"
  {
    assert Numerals.Render(10, 10) == Numerals.Render(1, 10) + Numerals.Render(0, 10);
  }

  lemma {:induction false} CandidatesDistinct(base: bytes, i: nat, j: nat)
    requires i != j
    ensures Candidate(base, i) != Candidate(base, j)
  {
    var x, y := Candidate(base, i), Candidate(base, j);
    if i == 0 || j == 0 {
      assert |x| != |y|;
    } else if x == y {
      assert x[|base| + 1..] == Numerals.Render(i + 1, 10);
      assert y[|base| + 1..] == Numerals.Render(j + 1, 10);
      Numerals.RenderInjective(i + 1, j + 1, 10);
    }
  }

  function Tried(base: bytes, k: nat): set<bytes> {
    if k == 0 then {} else Tried(base, k - 1) + {Candidate(base, k - 1)}
  }

  lemma {:induction false} TriedAreCandidates(base: bytes, k: nat)
    ensures forall x :: x in Tried(base, k) ==> exists i :: 0 <= i < k && Candidate(base, i) == x
    decreases k
  {
    hide Candidate;
    if k > 0 {
      TriedAreCandidates(base, k - 1);
    }
  }

  lemma {:induction false} TriedCount(base: bytes, k: nat)
    ensures |Tried(base, k)| == k
    decreases k
  {
    hide Candidate;
    if k > 0 {
      TriedCount(base, k - 1);
      TriedAreCandidates(base, k - 1);
      if Candidate(base, k - 1) in Tried(base, k - 1) {
        var i :| 0 <= i < k - 1 && Candidate(base, i) == Candidate(base, k - 1);
        CandidatesDistinct(base, i, k - 1);
      }
    }
  }

  /** If the first k candidates are all taken then k is at most the number of ids. */
  lemma {:induction false} Pigeonhole(base: bytes, taken: set<bytes>, k: nat)
    requires forall i :: 0 <= i < k ==> Candidate(base, i) in taken
    ensures k <= |taken|
  {
    TriedCount(base, k);
    TriedAreCandidates(base, k);
    hide Candidate, Tried;
    Sets.SubsetSize(Tried(base, k), taken);
  }

  /** The first candidate from the k-th on that is not taken. */
  function FirstFree(base: bytes, taken: set<bytes>, k: nat): (id: bytes)
    requires forall i :: 0 <= i < k ==> Candidate(base, i) in taken
    ensures id !in taken && (base != [] ==> id != [])
    decreases |taken| + 1 - k
  {
    if Candidate(base, k) !in taken then Candidate(base, k)
    else
      Pigeonhole(base, taken, k + 1);
      FirstFree(base, taken, k + 1)
  }

  /** The loop without a bound ends within n + 1 tries for n ids, on the first free candidate. */
  lemma {:induction false} FirstFreeIsNear(base: bytes, taken: set<bytes>, k: nat)
    requires forall i :: 0 <= i < k ==> Candidate(base, i) in taken
    ensures exists j :: k <= j <= |taken| && FirstFree(base, taken, k) == Candidate(base, j)
                        && forall i :: 0 <= i < j ==> Candidate(base, i) in taken
    decreases |taken| + 1 - k
  {
    if Candidate(base, k) !in taken {
      Pigeonhole(base, taken, k);
    } else {
      Pigeonhole(base, taken, k + 1);
      FirstFreeIsNear(base, taken, k + 1);
    }
  }

  method ChooseBase(u: Unicode, seed: string) returns (base: bytes)
    ensures base == Base(u, seed)
  {
    hide Slugify, IsSlug;
    var slug := SlugifyLoop(u, seed);
    SlugIsAscii(u, seed);
    base := slug;
    if base == [] {
      base := "rule";
    }
  }

  method GenerateId(u: Unicode, seed: string, taken: set<bytes>) returns (id: bytes, ghost tries: nat)
    ensures id == FirstFree(Base(u, seed), taken, 0) && id !in taken
    ensures 1 <= tries <= |taken| + 1 && id == Candidate(Base(u, seed), tries - 1)
  {
    hide Base, Numerals.Render;
    var base := ChooseBase(u, seed);
    id := base;
    var n := 2;
    while id in taken
      invariant n >= 2 && id == Candidate(base, n - 2)
      invariant forall i :: 0 <= i < n - 2 ==> Candidate(base, i) in taken
      invariant FirstFree(base, taken, n - 2) == FirstFree(base, taken, 0)
      decreases |taken| + 2 - n
    {
      Pigeonhole(base, taken, n - 1);
      id := base + (['-'] + Numerals.Render(n, 10));
      n := n + 1;
    }
    tries := n - 1;
    Pigeonhole(base, taken, n - 2);
  }
}
