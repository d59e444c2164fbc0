/**
  The Argus audit trail, argus/internal/storage/postgres/governance.go:22-84 and 187-269 with the
  hash of argus/internal/core/governance.go:43-49: a table read in key order in which every row
  carries the hash of the row before it.

  The digest is any function to 32 bytes. Nothing is assumed about collisions: where two hashes
  could only agree by a collision, the statements name the two distinct strings that collide.
 */
module AuditChain {
  import opened Bytes
  import Hex

  type Digest = b: bytes | |b| == 32 witness Zeros(32)
  type UUID = b: bytes | |b| == 16 witness Zeros(16)

  const NIL_UUID: UUID := Zeros(16)
  const MICROSECOND := 1000

  /** SHA-256 and the RFC 3339 formatting of a time given in nanoseconds since the zero time. */
  datatype Env = Env(digest: bytes -> Digest, format: nat -> bytes)

  /** `actor` stands for all columns that are stored but not hashed. */
  datatype Row = Row(id: UUID, action: bytes, resourceType: bytes, resourceID: bytes, outcome: bytes,
                     createdAt: nat, prevHash: bytes, recordHash: bytes, actor: bytes)

  // ------------------------------------------------------------ the hash

  function UuidString(id: UUID): (s: bytes)
    ensures |s| == 36 && s[8] == '-'
  {
    var hex := Hex.Encode(id);
    hex[..8] + "-" + hex[8..12] + "-" + hex[12..16] + "-" + hex[16..20] + "-" + hex[20..]
  }

  function Truncate(t: nat): nat {
    t - t % MICROSECOND
  }

  /** Everything hashed after the id, run together without separators. */
  function Payload(env: Env, r: Row): bytes {
    r.action + r.resourceType + r.resourceID + r.outcome + env.format(Truncate(r.createdAt))
  }

  function Raw(env: Env, r: Row): bytes {
    r.prevHash + (UuidString(r.id) + Payload(env, r))
  }

  function RecordHash(env: Env, r: Row): (h: bytes)
    ensures |h| == 64 && forall i :: 0 <= i < |h| ==> Hex.IsLowerHex(h[i])
  {
    Hex.Encode(env.digest(Raw(env, r)))
  }

  lemma {:induction false} UuidStringInjective(a: UUID, b: UUID)
    requires UuidString(a) == UuidString(b)
    ensures a == b
  {
    var s, x, y := UuidString(a), Hex.Encode(a), Hex.Encode(b);
    assert x[..8] == s[..8] == y[..8];
    assert x[8..12] == s[9..13] == y[8..12];
    assert x[12..16] == s[14..18] == y[12..16];
    assert x[16..20] == s[19..23] == y[16..20];
    assert x[20..] == s[24..] == y[20..];
    assert x == x[..8] + x[8..12] + x[12..16] + x[16..20] + x[20..];
    assert y == y[..8] + y[8..12] + y[12..16] + y[16..20] + y[20..];
    Hex.EncodeInjective(a, b);
  }

  /** A previous hash as the chain produces it: empty, or 64 hexadecimal digits. */
  predicate IsLink(prev: bytes) {
    prev == [] || (|prev| == 64 && forall i :: 0 <= i < 64 ==> Hex.IsLowerHex(prev[i]))
  }

  /** At offset 8 the id has a dash where a previous hash has a hexadecimal digit. */
  lemma {:induction false} DashTellsFirstRow(env: Env, r: Row)
    requires IsLink(r.prevHash)
    ensures |Raw(env, r)| > 8 && (Raw(env, r)[8] == '-' <==> r.prevHash == [])
  {
  }

  lemma {:induction false} RawSplits(env: Env, r: Row)
    ensures var s, n := Raw(env, r), |r.prevHash|;
            |s| >= n + 36 && s[..n] == r.prevHash && s[n..n + 36] == UuidString(r.id) && s[n + 36..] == Payload(env, r)
  {
    hide Payload, UuidString;
  }

  /** The layout is unambiguous up to the payload. */
  lemma {:induction false} RawDetermines(env: Env, a: Row, b: Row)
    requires IsLink(a.prevHash) && IsLink(b.prevHash) && Raw(env, a) == Raw(env, b)
    ensures a.prevHash == b.prevHash && a.id == b.id && Payload(env, a) == Payload(env, b)
  {
    DashTellsFirstRow(env, a);
    DashTellsFirstRow(env, b);
    RawSplits(env, a);
    RawSplits(env, b);
    hide Raw, Payload, UuidString;
    assert |a.prevHash| == |b.prevHash|;
    UuidStringInjective(a.id, b.id);
  }

  // -------------------------------------------------------- verification

  datatype BrokenLink = BrokenLink(id: UUID, sequence: nat, expected: bytes, actual: bytes)

  datatype Verification = Verification(verified: bool, chainLength: nat, headHash: bytes,
                                       genesisHash: bytes, broken: Option<BrokenLink>)

  /** The hash a row at position i must link to. */
  function Before(rows: seq<Row>, i: nat): bytes
    requires i <= |rows|
  {
    if i == 0 then [] else rows[i - 1].recordHash
  }

  predicate LinkOk(env: Env, rows: seq<Row>, i: nat)
    requires i < |rows|
  {
    rows[i].prevHash == Before(rows, i) && rows[i].recordHash == RecordHash(env, rows[i])
  }

  predicate Intact(env: Env, rows: seq<Row>) {
    forall i :: 0 <= i < |rows| ==> LinkOk(env, rows, i)
  }

  /** The first position from i on whose link is not in order, or the end. */
  function FirstBroken(env: Env, rows: seq<Row>, i: nat): (k: nat)
    requires i <= |rows|
    ensures i <= k <= |rows| && (k < |rows| ==> !LinkOk(env, rows, k))
    ensures forall j :: i <= j < k ==> LinkOk(env, rows, j)
    decreases |rows| - i
  {
    if i < |rows| && LinkOk(env, rows, i) then FirstBroken(env, rows, i + 1) else i
  }

  /** The answer owed for a table: success, or the first row out of order and what is wrong there. */
  function Verdict(env: Env, rows: seq<Row>): Verification {
    var k := FirstBroken(env, rows, 0);
    var genesis := if rows == [] then [] else rows[0].recordHash;
    Verification(k == |rows|, k, Before(rows, k), genesis,
                 if k == |rows| then None else Some(LinkError(env, rows, k)))
  }

  function LinkError(env: Env, rows: seq<Row>, k: nat): BrokenLink
    requires k < |rows|
  {
    var r := rows[k];
    if r.prevHash != Before(rows, k) then BrokenLink(r.id, k, Before(rows, k), r.prevHash)
    else BrokenLink(r.id, k, RecordHash(env, r), r.recordHash)
  }

  predicate Succeeds(v: Verification, length: nat, head: bytes) {
    v.verified && v.chainLength == length && v.headHash == head && v.broken.None?
  }

  predicate Reports(v: Verification, link: BrokenLink) {
    !v.verified && v.chainLength == link.sequence && v.broken == Some(link)
  }

  lemma {:induction false} VerdictOfBroken(env: Env, rows: seq<Row>, k: nat)
    requires k < |rows| && !LinkOk(env, rows, k) && forall j :: 0 <= j < k ==> LinkOk(env, rows, j)
    ensures Verdict(env, rows) ==
            Verification(false, k, Before(rows, k), rows[0].recordHash, Some(LinkError(env, rows, k)))
  {
  }

  lemma {:induction false} VerdictOfIntact(env: Env, rows: seq<Row>)
    requires Intact(env, rows)
    ensures Verdict(env, rows) ==
            Verification(true, |rows|, Before(rows, |rows|), if rows == [] then [] else rows[0].recordHash, None)
  {
  }

  lemma {:induction false} FirstBrokenIs(env: Env, rows: seq<Row>, k: nat)
    requires k <= |rows| && (k < |rows| ==> !LinkOk(env, rows, k)) && forall j :: 0 <= j < k ==> LinkOk(env, rows, j)
    ensures FirstBroken(env, rows, 0) == k
  {
  }

  /**
    The read does not ask whether the rows ended for want of rows or for want of a connection. Cut
    short behind the first broken link it gives the answer for the whole table; cut short before it,
    or anywhere in an intact table, it reports success with the length and the head it got to.
   */
  lemma {:induction false} TruncatedVerdict(env: Env, rows: seq<Row>, got: nat)
    requires got <= |rows|
    ensures var v := Verdict(env, rows[..got]);
            if FirstBroken(env, rows, 0) < got then v == Verdict(env, rows)
            else Succeeds(v, got, Before(rows, got)) && (v == Verdict(env, rows) <==> got == |rows|)
  {
    var part := rows[..got];
    var k := FirstBroken(env, rows, 0);
    forall j | 0 <= j < got ensures LinkOk(env, part, j) == LinkOk(env, rows, j) {
      assert part[j] == rows[j] && Before(part, j) == Before(rows, j);
    }
    hide LinkOk;
    FirstBrokenIs(env, part, if k < got then k else got);
    if k < got {
      assert part[k] == rows[k] && part[0] == rows[0] && Before(part, k) == Before(rows, k);
    } else if got == |rows| {
      assert part == rows;
    }
  }

  // ------------------------------------------------- what the head pins

  /** Same ids, links, hashes and payloads, row by row. */
  predicate SameChain(env: Env, a: seq<Row>, b: seq<Row>) {
    |a| == |b| && forall i :: 0 <= i < |a| ==> SameLink(env, a[i], b[i])
  }

  predicate SameLink(env: Env, x: Row, y: Row) {
    x.id == y.id && x.prevHash == y.prevHash && x.recordHash == y.recordHash
    && x.action + x.resourceType + x.resourceID + x.outcome + env.format(x.createdAt - x.createdAt % 1000)
       == y.action + y.resourceType + y.resourceID + y.outcome + env.format(y.createdAt - y.createdAt % 1000)
  }

  lemma {:induction false} SameLinkByPayload(env: Env, x: Row, y: Row)
    requires x.id == y.id && x.prevHash == y.prevHash && x.recordHash == y.recordHash
    ensures SameLink(env, x, y) <==> Payload(env, x) == Payload(env, y)
  {
  }

  lemma {:induction false} SameChainLast(env: Env, a: seq<Row>, b: seq<Row>)
    requires a != [] && b != [] && SameLink(env, a[|a| - 1], b[|b| - 1])
    requires SameChain(env, a[..|a| - 1], b[..|b| - 1])
    ensures SameChain(env, a, b)
  {
  }

  /** Walks both tables back from their last rows and returns the first two hashed strings that differ. */
  function FirstDifference(env: Env, a: seq<Row>, b: seq<Row>): Option<(bytes, bytes)> {
    if a == [] || b == [] then None
    else
      var x, y := a[|a| - 1], b[|b| - 1];
      if Raw(env, x) != Raw(env, y) then Some((Raw(env, x), Raw(env, y)))
      else FirstDifference(env, a[..|a| - 1], b[..|b| - 1])
  }

  predicate Collides(env: Env, pair: (bytes, bytes)) {
    pair.0 != pair.1 && env.digest(pair.0) == env.digest(pair.1)
  }

  lemma {:induction false} IntactPrefix(env: Env, rows: seq<Row>)
    requires Intact(env, rows) && rows != []
    ensures Intact(env, rows[..|rows| - 1])
    ensures Before(rows[..|rows| - 1], |rows| - 1) == rows[|rows| - 1].prevHash
  {
    var p := rows[..|rows| - 1];
    assert LinkOk(env, rows, |rows| - 1);
    forall i | 0 <= i < |p| ensures LinkOk(env, p, i) {
      assert LinkOk(env, rows, i);
      assert Before(p, i) == Before(rows, i);
    }
  }

  /** In an intact chain the link before a row is empty exactly for the first row. */
  lemma {:induction false} IntactLinks(env: Env, rows: seq<Row>, i: nat)
    requires Intact(env, rows) && i <= |rows|
    ensures IsLink(Before(rows, i)) && (Before(rows, i) == [] <==> i == 0)
  {
    if i > 0 {
      assert LinkOk(env, rows, i - 1);
    }
  }

  lemma {:induction false} IntactChainsAgree(env: Env, a: seq<Row>, b: seq<Row>)
    requires Intact(env, a) && Intact(env, b)
    requires Before(a, |a|) == Before(b, |b|)
    ensures match FirstDifference(env, a, b)
            case None => SameChain(env, a, b)
            case Some(pair) => Collides(env, pair)
    decreases |a|
  {
    IntactLinks(env, a, |a|);
    IntactLinks(env, b, |b|);
    if a != [] {
      var x, y := a[|a| - 1], b[|b| - 1];
      LastLinks(env, a, b);
      hide Intact, RecordHash, Raw, Payload, SameLink;
      if Raw(env, x) == Raw(env, y) {
        RawDetermines(env, x, y);
        SameLinkByPayload(env, x, y);
        var a', b' := a[..|a| - 1], b[..|b| - 1];
        IntactPrefix(env, a);
        IntactPrefix(env, b);
        IntactChainsAgree(env, a', b');
        if FirstDifference(env, a', b').None? {
          SameChainLast(env, a, b);
        }
      }
    }
  }

  /** Equal heads: the last rows carry proper links and their digests agree. */
  lemma {:induction false} LastLinks(env: Env, a: seq<Row>, b: seq<Row>)
    requires Intact(env, a) && Intact(env, b) && a != [] && b != []
    requires a[|a| - 1].recordHash == b[|b| - 1].recordHash
    ensures IsLink(a[|a| - 1].prevHash) && IsLink(b[|b| - 1].prevHash)
    ensures env.digest(Raw(env, a[|a| - 1])) == env.digest(Raw(env, b[|b| - 1]))
  {
    assert LinkOk(env, a, |a| - 1) && LinkOk(env, b, |b| - 1);
    IntactLinks(env, a, |a| - 1);
    IntactLinks(env, b, |b| - 1);
    hide Raw, Intact;
    Hex.EncodeInjective(env.digest(Raw(env, a[|a| - 1])), env.digest(Raw(env, b[|b| - 1])));
  }

  /**
    The head hash pins the whole chain. If two tables both verify and report the same head, they
    agree on length, ids, order, links and payloads, or walking back from the head yields two
    distinct strings with the same digest.
   */
  lemma {:induction false} HeadPinsChain(env: Env, a: seq<Row>, b: seq<Row>)
    requires Verdict(env, a).verified && Verdict(env, b).verified
    requires Verdict(env, a).headHash == Verdict(env, b).headHash
    ensures match FirstDifference(env, a, b)
            case None => SameChain(env, a, b)
            case Some(pair) => Collides(env, pair)
  {
    IntactChainsAgree(env, a, b);
  }

  lemma {:induction false} SameRowSameLink(env: Env, a: seq<Row>, b: seq<Row>, i: nat)
    requires SameChain(env, a, b) && i < |a|
    ensures |a| == |b| && LinkOk(env, a, i) == LinkOk(env, b, i) && LinkError(env, a, i) == LinkError(env, b, i)
  {
    assert SameLink(env, a[i], b[i]);
    SameLinkByPayload(env, a[i], b[i]);
    if i > 0 {
      assert SameLink(env, a[i - 1], b[i - 1]);
    }
    hide Payload, SameLink;
  }

  /**
    And it pins no more than that: columns that are not hashed, and where one hashed field ends
    and the next begins, can change without any change in the answer.
   */
  lemma {:induction false} VerdictSeesOnlyChain(env: Env, a: seq<Row>, b: seq<Row>)
    requires SameChain(env, a, b)
    ensures Verdict(env, a) == Verdict(env, b)
  {
    forall i | 0 <= i < |a| ensures LinkOk(env, a, i) == LinkOk(env, b, i) {
      SameRowSameLink(env, a, b, i);
    }
    var k := FirstBroken(env, a, 0);
    hide LinkOk, SameLink, RecordHash;
    assert FirstBroken(env, b, 0) == k;
    if k < |a| {
      SameRowSameLink(env, a, b, k);
    }
  }

  // ------------------------------------------------------- tampering

  /** The string that is hashed for a row, column by column, the time to the microsecond. */
  lemma {:induction false} RawIs(env: Env, r: Row)
    ensures Raw(env, r) == r.prevHash + UuidString(r.id) + r.action + r.resourceType + r.resourceID + r.outcome
                           + env.format(r.createdAt - r.createdAt % 1000)
    ensures RecordHash(env, r) == Hex.Encode(env.digest(Raw(env, r)))
  {
    hide UuidString;
    Regroup(r.prevHash, UuidString(r.id), r.action, r.resourceType, r.resourceID, r.outcome,
            env.format(r.createdAt - r.createdAt % 1000));
  }

  lemma {:induction false} Regroup(p: bytes, u: bytes, a: bytes, b: bytes, c: bytes, d: bytes, t: bytes)
    ensures p + (u + (a + b + c + d + t)) == p + u + a + b + c + d + t
  {
    Associate(p, u, a + b + c + d + t);
    Associate(p + u, a + b + c + d, t);
    Associate(p + u, a + b + c, d);
    Associate(p + u, a + b, c);
    Associate(p + u, a, b);
  }

  lemma {:induction false} Associate(a: bytes, b: bytes, c: bytes)
    ensures a + (b + c) == (a + b) + c
  {
  }

  /**
    Another row in the place of row k of an intact table. It is reported unless it links to the row
    before and hashes to what it says; if it does, its successor is reported unless the hash is the
    old one; and otherwise the table verifies.
   */
  lemma {:induction false} ReplacedVerdict(env: Env, rows: seq<Row>, k: nat, r: Row)
    requires Intact(env, rows) && k < |rows|
    ensures var v := Verdict(env, rows[k := r]);
            if r.prevHash != rows[k].prevHash then Reports(v, BrokenLink(r.id, k, rows[k].prevHash, r.prevHash))
            else if r.recordHash != RecordHash(env, r) then Reports(v, BrokenLink(r.id, k, RecordHash(env, r), r.recordHash))
            else if k + 1 < |rows| && r.recordHash != rows[k].recordHash then
              Reports(v, BrokenLink(rows[k + 1].id, k + 1, r.recordHash, rows[k].recordHash))
            else Succeeds(v, |rows|, if k + 1 == |rows| then r.recordHash else rows[|rows| - 1].recordHash)
  {
    hide RecordHash, Verdict, FirstBroken, LinkOk, Intact;
    var out := rows[k := r];
    OtherLinksStay(env, rows, k, r);
    if !LinkOk(env, out, k) {
      VerdictOfBroken(env, out, k);
    } else if k + 1 < |rows| && r.recordHash != rows[k].recordHash {
      VerdictOfBroken(env, out, k + 1);
    } else {
      AllLinksAreIntact(env, out, k);
      VerdictOfIntact(env, out);
    }
    LinkMeans(env, out, k);
  }

  lemma {:induction false} LinkMeans(env: Env, rows: seq<Row>, i: nat)
    requires i < |rows|
    ensures LinkOk(env, rows, i) <==>
            rows[i].prevHash == Before(rows, i) && rows[i].recordHash == RecordHash(env, rows[i])
  {
  }

  lemma {:induction false} AllLinksAreIntact(env: Env, rows: seq<Row>, k: nat)
    requires k < |rows| && LinkOk(env, rows, k) && (k + 1 < |rows| ==> LinkOk(env, rows, k + 1))
    requires forall j :: 0 <= j < |rows| && j != k && j != k + 1 ==> LinkOk(env, rows, j)
    ensures Intact(env, rows)
  {
    hide LinkOk;
  }

  /** Only the links of the row itself and of its successor depend on it. */
  lemma {:induction false} OtherLinksStay(env: Env, rows: seq<Row>, k: nat, r: Row)
    requires Intact(env, rows) && k < |rows|
    ensures var out := rows[k := r];
            (forall j :: 0 <= j < |rows| && j != k && j != k + 1 ==> LinkOk(env, out, j))
            && Before(out, k) == rows[k].prevHash
            && (k + 1 < |rows| ==>
                  rows[k + 1].prevHash == rows[k].recordHash
                  && (LinkOk(env, out, k + 1) <==> r.recordHash == rows[k].recordHash))
  {
    hide RecordHash;
    var out := rows[k := r];
    assert LinkOk(env, rows, k);
    if k + 1 < |rows| {
      assert LinkOk(env, rows, k + 1);
    }
    forall j | 0 <= j < |rows| && j != k && j != k + 1 ensures LinkOk(env, out, j) {
      assert LinkOk(env, rows, j);
      assert out[j] == rows[j] && Before(out, j) == Before(rows, j);
    }
  }

  /** One hashed column was changed: the time counts from the microsecond on, and where its text changes. */
  predicate OneColumnChanged(env: Env, r: Row, t: Row) {
    (t == r.(action := t.action) && t.action != r.action)
    || (t == r.(resourceType := t.resourceType) && t.resourceType != r.resourceType)
    || (t == r.(resourceID := t.resourceID) && t.resourceID != r.resourceID)
    || (t == r.(outcome := t.outcome) && t.outcome != r.outcome)
    || (t == r.(createdAt := t.createdAt)
        && env.format(t.createdAt - t.createdAt % 1000) != env.format(r.createdAt - r.createdAt % 1000))
  }

  /** Every other value of every one of the five columns counts as a change. */
  lemma {:induction false} EachColumnCounts(env: Env, r: Row, text: bytes, time: nat)
    ensures text != r.action ==> OneColumnChanged(env, r, r.(action := text))
    ensures text != r.resourceType ==> OneColumnChanged(env, r, r.(resourceType := text))
    ensures text != r.resourceID ==> OneColumnChanged(env, r, r.(resourceID := text))
    ensures text != r.outcome ==> OneColumnChanged(env, r, r.(outcome := text))
    ensures env.format(time - time % 1000) != env.format(r.createdAt - r.createdAt % 1000) ==>
              OneColumnChanged(env, r, r.(createdAt := time))
  {
  }

  lemma {:induction false} ChangedText(env: Env, r: Row, t: Row)
    requires OneColumnChanged(env, r, t)
    ensures Raw(env, r) != Raw(env, t)
  {
    hide UuidString;
    RawIs(env, r);
    RawIs(env, t);
    hide Raw, RecordHash;
    var head := r.prevHash + UuidString(r.id);
    var a, b, c, d := r.action, r.resourceType, r.resourceID, r.outcome;
    var e := env.format(r.createdAt - r.createdAt % 1000);
    if t.outcome != d {
      CancelEnds(head + a + b + c, d, t.outcome, e);
    } else if t.resourceID != c {
      CancelEnds(head + a + b, c, t.resourceID, d + e);
      Associate(head + a + b + c, d, e);
      Associate(head + a + b + t.resourceID, d, e);
    } else if t.resourceType != b {
      CancelEnds(head + a, b, t.resourceType, c + (d + e));
      ThreeAfter(head + a + b, c, d, e);
      ThreeAfter(head + a + t.resourceType, c, d, e);
    } else if t.action != a {
      CancelEnds(head, a, t.action, b + (c + (d + e)));
      FourAfter(head + a, b, c, d, e);
      FourAfter(head + t.action, b, c, d, e);
    } else {
      var f := env.format(t.createdAt - t.createdAt % 1000);
      CancelEnds(head + a + b + c + d, e, f, []);
      assert head + a + b + c + d + e + [] == head + a + b + c + d + e;
      assert head + a + b + c + d + f + [] == head + a + b + c + d + f;
    }
  }

  lemma {:induction false} ThreeAfter(p: bytes, c: bytes, d: bytes, e: bytes)
    ensures p + c + d + e == p + (c + (d + e))
  {
  }

  lemma {:induction false} FourAfter(p: bytes, b: bytes, c: bytes, d: bytes, e: bytes)
    ensures p + b + c + d + e == p + (b + (c + (d + e)))
  {
    ThreeAfter(p + b, c, d, e);
    Associate(p, b, c + (d + e));
  }

  /** What is the same as a whole, with the same ends, is the same in the middle. */
  lemma {:induction false} CancelEnds(p: bytes, x: bytes, y: bytes, q: bytes)
    ensures p + x + q == p + y + q ==> x == y
  {
    var s, t := p + x + q, p + y + q;
    assert s[|p|..|s| - |q|] == x && t[|p|..|t| - |q|] == y;
  }

  /**
    Tampering is seen. If one hashed column of one row of an intact table is changed, verification
    reports just that row, with the hash its columns now have and the one that is stored, or the old
    and the new hashed string collide.
   */
  lemma {:induction false} TamperedRowIsReported(env: Env, rows: seq<Row>, k: nat, t: Row)
    requires Intact(env, rows) && k < |rows| && OneColumnChanged(env, rows[k], t)
    ensures Reports(Verdict(env, rows[k := t]), BrokenLink(rows[k].id, k, RecordHash(env, t), rows[k].recordHash))
            || (Raw(env, rows[k]) != Raw(env, t) && env.digest(Raw(env, rows[k])) == env.digest(Raw(env, t)))
  {
    assert LinkOk(env, rows, k);
    ChangedText(env, rows[k], t);
    ReplacedVerdict(env, rows, k, t);
    if RecordHash(env, t) == RecordHash(env, rows[k]) {
      Hex.EncodeInjective(env.digest(Raw(env, t)), env.digest(Raw(env, rows[k])));
    }
    hide Verdict, Raw, Intact;
  }

  // ---------------------------------------------------------- the table

  /** Byte order on ids, as the database sorts them. */
  predicate BytesLess(a: bytes, b: bytes) {
    a != [] && b != [] && (a[0] < b[0] || (a[0] == b[0] && BytesLess(a[1..], b[1..])))
  }

  /** The order (created_at, id). */
  predicate KeyLess(a: Row, b: Row) {
    a.createdAt < b.createdAt || (a.createdAt == b.createdAt && BytesLess(a.id, b.id))
  }

  predicate Sorted(rows: seq<Row>) {
    forall i, j :: 0 <= i < j < |rows| ==> KeyLess(rows[i], rows[j])
  }

  predicate IdsDistinct(rows: seq<Row>) {
    forall i, j :: 0 <= i < j < |rows| ==> rows[i].id != rows[j].id
  }

  predicate HasId(rows: seq<Row>, id: UUID) {
    exists i :: 0 <= i < |rows| && rows[i].id == id
  }

  lemma {:induction false} BytesLessTotal(a: bytes, b: bytes)
    requires |a| == |b|
    ensures BytesLess(a, b) || BytesLess(b, a) || a == b
    ensures !(BytesLess(a, b) && BytesLess(b, a))
  {
    if a != [] {
      BytesLessTotal(a[1..], b[1..]);
      assert a == [a[0]] + a[1..] && b == [b[0]] + b[1..];
    }
  }

  lemma {:induction false} BytesLessTransitive(a: bytes, b: bytes, c: bytes)
    requires BytesLess(a, b) && BytesLess(b, c)
    ensures BytesLess(a, c)
  {
    if a[0] == b[0] && b[0] == c[0] {
      BytesLessTransitive(a[1..], b[1..], c[1..]);
    }
  }

  lemma {:induction false} KeyLessTransitive(a: Row, b: Row, c: Row)
    requires KeyLess(a, b) && KeyLess(b, c)
    ensures KeyLess(a, c)
  {
    if a.createdAt == b.createdAt == c.createdAt {
      BytesLessTransitive(a.id, b.id, c.id);
    }
  }

  /** Where a row goes: before the first row with a larger key. */
  function Slot(rows: seq<Row>, r: Row, i: nat): (k: nat)
    requires i <= |rows|
    ensures i <= k <= |rows| && (k < |rows| ==> KeyLess(r, rows[k]))
    ensures forall j :: i <= j < k ==> !KeyLess(r, rows[j])
    decreases |rows| - i
  {
    if i < |rows| && !KeyLess(r, rows[i]) then Slot(rows, r, i + 1) else i
  }

  function Insert(rows: seq<Row>, r: Row): (out: seq<Row>)
    ensures |out| == |rows| + 1
  {
    var k := Slot(rows, r, 0);
    rows[..k] + [r] + rows[k..]
  }

  lemma {:induction false} SlotSplits(rows: seq<Row>, r: Row)
    requires Sorted(rows) && !HasId(rows, r.id)
    ensures forall j :: 0 <= j < Slot(rows, r, 0) ==> KeyLess(rows[j], r)
    ensures forall j :: Slot(rows, r, 0) <= j < |rows| ==> KeyLess(r, rows[j])
  {
    var k := Slot(rows, r, 0);
    forall j | 0 <= j < k ensures KeyLess(rows[j], r) {
      BytesLessTotal(r.id, rows[j].id);
    }
    forall j | k <= j < |rows| ensures KeyLess(r, rows[j]) {
      if j > k {
        KeyLessTransitive(r, rows[k], rows[j]);
      }
    }
  }

  lemma {:induction false} InsertKeepsOrder(rows: seq<Row>, r: Row)
    requires Sorted(rows) && IdsDistinct(rows) && !HasId(rows, r.id)
    ensures Sorted(Insert(rows, r)) && IdsDistinct(Insert(rows, r))
  {
    SlotSplits(rows, r);
    hide KeyLess, Slot;
  }

  // -------------------------------------------------------------- appends

  /** What a caller of RecordAudit supplies; a nil id, zero time or empty outcome asks for a default. */
  datatype Draft = Draft(id: UUID, action: bytes, resourceType: bytes, resourceID: bytes, outcome: bytes,
                         createdAt: nat, actor: bytes)

  /** A call of RecordAudit with the id and the time it would draw for the defaults. */
  datatype Append = Append(draft: Draft, freshId: UUID, now: nat)

  function IdOf(q: Append): UUID {
    if q.draft.id == NIL_UUID then q.freshId else q.draft.id
  }

  function TimeOf(q: Append): nat {
    Truncate(if q.draft.createdAt == 0 then q.now else q.draft.createdAt)
  }

  /** The row RecordAudit builds on top of a previous hash. */
  function Complete(env: Env, q: Append, prev: bytes): (r: Row)
    ensures r.prevHash == prev && r.recordHash == RecordHash(env, r)
    ensures r.id == IdOf(q) && r.createdAt == TimeOf(q)
  {
    var d := q.draft;
    var blank := Row(IdOf(q), d.action, d.resourceType, d.resourceID,
                     if d.outcome == [] then "success" else d.outcome, TimeOf(q), prev, [], d.actor);
    var hash := RecordHash(env, blank);
    assert Raw(env, blank.(recordHash := hash)) == Raw(env, blank);
    blank.(recordHash := hash)
  }

  /**
    What a recorded row says: what the caller supplied, with the defaults for what was left out, and
    the time cut to the microsecond.
   */
  lemma {:induction false} CompleteSays(env: Env, q: Append, prev: bytes)
    ensures var r, d := Complete(env, q, prev), q.draft;
            var time := if d.createdAt == 0 then q.now else d.createdAt;
            r.action == d.action && r.resourceType == d.resourceType && r.resourceID == d.resourceID && r.actor == d.actor
            && (d.outcome != "" ==> r.outcome == d.outcome) && (d.outcome == "" ==> r.outcome == "success")
            && r.id == (if forall i :: 0 <= i < 16 ==> d.id[i] as int == 0 then q.freshId else d.id)
            && r.createdAt <= time < r.createdAt + 1000 && exists micros: nat :: r.createdAt == 1000 * micros
  {
    hide RecordHash;
    NilIsZeros(q.draft.id);
    var d := q.draft;
    var time := if d.createdAt == 0 then q.now else d.createdAt;
    assert Complete(env, q, prev).createdAt == 1000 * (time / 1000);
  }

  lemma {:induction false} NilIsZeros(id: UUID)
    ensures id == NIL_UUID <==> forall i :: 0 <= i < 16 ==> id[i] as int == 0
  {
    assert forall i :: 0 <= i < 16 ==> NIL_UUID[i] as int == 0;
  }

  lemma {:induction false} InsertPrefix(env: Env, rows: seq<Row>, r: Row)
    requires Intact(env, rows)
    ensures var k := Slot(rows, r, 0);
            var out := Insert(rows, r);
            out[k] == r && Before(out, k) == Before(rows, k)
            && (forall j :: 0 <= j < k ==> LinkOk(env, out, j))
            && (k < |rows| ==> out[k + 1] == rows[k] && LinkOk(env, rows, k))
  {
    var k := Slot(rows, r, 0);
    var out := Insert(rows, r);
    forall j | 0 <= j < k ensures LinkOk(env, out, j) {
      assert LinkOk(env, rows, j);
      assert out[j] == rows[j] && Before(out, j) == Before(rows, j);
    }
  }

  /** A row whose hash is the one already expected behind it goes unnoticed. */
  lemma {:induction false} InsertKeepsIntact(env: Env, rows: seq<Row>, r: Row)
    requires Intact(env, rows) && r.recordHash == RecordHash(env, r) && Slot(rows, r, 0) < |rows|
    requires r.prevHash == Before(rows, Slot(rows, r, 0)) == r.recordHash
    ensures Slot(rows, r, 0) > 0 && Intact(env, Insert(rows, r))
    ensures Before(Insert(rows, r), |rows| + 1) == Before(rows, |rows|)
  {
    InsertPrefix(env, rows, r);
    var k := Slot(rows, r, 0);
    var out := Insert(rows, r);
    hide RecordHash;
    forall j | 0 <= j < |out| ensures LinkOk(env, out, j) {
      if j > k {
        assert out[j] == rows[j - 1] && LinkOk(env, rows, j - 1);
      }
    }
  }

  /**
    Inserting a row into an intact table. The table stays intact when the row links to the row
    before its slot and no row follows, or its hash is the one the row that follows expects.
    Otherwise the first row out of order is the new one, or its successor if the new one links.
   */
  lemma {:induction false} InsertVerdict(env: Env, rows: seq<Row>, r: Row)
    requires Intact(env, rows) && r.recordHash == RecordHash(env, r)
    ensures var k := Slot(rows, r, 0);
            var v := Verdict(env, Insert(rows, r));
            if r.prevHash != Before(rows, k) then Reports(v, BrokenLink(r.id, k, Before(rows, k), r.prevHash))
            else if k == |rows| then Succeeds(v, |rows| + 1, r.recordHash)
            else if Before(rows, k) != r.recordHash then
              Reports(v, BrokenLink(rows[k].id, k + 1, r.recordHash, rows[k].prevHash))
            else k > 0 && Succeeds(v, |rows| + 1, Before(rows, |rows|))
  {
    InsertPrefix(env, rows, r);
    var k := Slot(rows, r, 0);
    var out := Insert(rows, r);
    hide Verdict, Slot, Insert, RecordHash, FirstBroken, Intact, LinkError;
    if r.prevHash != Before(rows, k) {
      VerdictOfBroken(env, out, k);
    } else {
      assert LinkOk(env, out, k);
      if k == |rows| {
        VerdictOfIntact(env, out);
      } else if Before(rows, k) != r.recordHash {
        assert !LinkOk(env, out, k + 1);
        VerdictOfBroken(env, out, k + 1);
      } else {
        InsertKeepsIntact(env, rows, r);
        VerdictOfIntact(env, out);
      }
    }
  }

  /** Distinct ids give distinct hashed strings, so equal record hashes are a digest collision. */
  lemma {:induction false} EqualHashesCollide(env: Env, a: Row, b: Row)
    requires IsLink(a.prevHash) && IsLink(b.prevHash) && a.id != b.id
    requires RecordHash(env, a) == RecordHash(env, b)
    ensures Collides(env, (Raw(env, a), Raw(env, b)))
  {
    Hex.EncodeInjective(env.digest(Raw(env, a)), env.digest(Raw(env, b)));
    if Raw(env, a) == Raw(env, b) {
      RawDetermines(env, a, b);
    }
  }

  /**
    One append to a verified table. With the largest key it extends the chain. With any other key
    verification reports precisely the new row, or two rows of the table collide.
   */
  lemma {:induction false} AppendVerdict(env: Env, rows: seq<Row>, q: Append)
    requires Intact(env, rows) && IdsDistinct(rows)
    ensures var head := Before(rows, |rows|);
            var r := Complete(env, q, head);
            var k := Slot(rows, r, 0);
            var v := Verdict(env, Insert(rows, r));
            if k == |rows| then Succeeds(v, |rows| + 1, r.recordHash)
            else
              Reports(v, BrokenLink(r.id, k, Before(rows, k), head))
              || (k > 0 && Collides(env, (Raw(env, rows[k - 1]), Raw(env, rows[|rows| - 1]))))
  {
    var head := Before(rows, |rows|);
    var r := Complete(env, q, head);
    var k := Slot(rows, r, 0);
    InsertVerdict(env, rows, r);
    hide *;
    if k == |rows| {
    } else if head == Before(rows, k) {
      RepeatedLinkCollides(env, rows, k);
    } else {
    }
  }

  lemma {:induction false} IntactRow(env: Env, rows: seq<Row>, i: nat)
    requires Intact(env, rows) && i < |rows|
    ensures IsLink(rows[i].prevHash) && rows[i].recordHash == RecordHash(env, rows[i])
  {
    hide RecordHash, IsLink;
    IntactLinks(env, rows, i);
    assert LinkOk(env, rows, i);
  }

  /** The head hash also stands before an earlier row only if two rows collide. */
  lemma {:induction false} RepeatedLinkCollides(env: Env, rows: seq<Row>, k: nat)
    requires Intact(env, rows) && IdsDistinct(rows) && k < |rows| && Before(rows, |rows|) == Before(rows, k)
    ensures k > 0 && Collides(env, (Raw(env, rows[k - 1]), Raw(env, rows[|rows| - 1])))
  {
    hide Intact, RecordHash, IsLink, Collides, Raw;
    IntactLinks(env, rows, |rows|);
    IntactLinks(env, rows, k);
    IntactRow(env, rows, k - 1);
    IntactRow(env, rows, |rows| - 1);
    EqualHashesCollide(env, rows[k - 1], rows[|rows| - 1]);
  }

  lemma {:induction false} LastSlot(rows: seq<Row>, r: Row)
    requires Sorted(rows) && (rows != [] ==> KeyLess(rows[|rows| - 1], r))
    ensures Slot(rows, r, 0) == |rows| && Insert(rows, r) == rows + [r]
    ensures Sorted(rows + [r])
  {
    forall j | 0 <= j < |rows| ensures KeyLess(rows[j], r) && !KeyLess(r, rows[j]) {
      if j < |rows| - 1 {
        KeyLessTransitive(rows[j], rows[|rows| - 1], r);
      }
      BytesLessTotal(rows[j].id, r.id);
    }
  }

  lemma {:induction false} SlotIs(rows: seq<Row>, r: Row, k: nat)
    requires k <= |rows| && (forall j :: 0 <= j < k ==> !KeyLess(r, rows[j]))
    requires k < |rows| ==> KeyLess(r, rows[k])
    ensures Slot(rows, r, 0) == k
  {
  }

  function Both(rows: seq<Row>, low: Row, high: Row, k: nat, l: nat): seq<Row>
    requires k <= l <= |rows|
  {
    rows[..k] + [low] + rows[k..l] + [high] + rows[l..]
  }

  /** Two inserts commute: the smaller key first, or the larger. */
  lemma {:induction false} TwoInserts(rows: seq<Row>, low: Row, high: Row)
    requires Sorted(rows) && KeyLess(low, high)
    ensures var k, l := Slot(rows, low, 0), Slot(rows, high, 0);
            k <= l && Insert(Insert(rows, low), high) == Insert(Insert(rows, high), low) == Both(rows, low, high, k, l)
  {
    var k, l := Slot(rows, low, 0), Slot(rows, high, 0);
    if l < |rows| {
      KeyLessTransitive(low, high, rows[l]);
    }
    hide KeyLess, Slot, Sorted;
    HighAfterLow(rows, low, high, k, l);
    LowAfterHigh(rows, low, high, k, l);
    BothInserted(rows, low, high, k, l);
  }

  lemma {:induction false} HighAfterLow(rows: seq<Row>, low: Row, high: Row, k: nat, l: nat)
    requires k <= l <= |rows| && KeyLess(low, high) && Slot(rows, high, 0) == l
    ensures Slot(rows[..k] + [low] + rows[k..], high, 0) == l + 1
  {
    var a := rows[..k] + [low] + rows[k..];
    BytesLessTotal(low.id, high.id);
    assert !KeyLess(high, low);
    hide KeyLess, Slot;
    forall j | 0 <= j < l + 1 ensures !KeyLess(high, a[j]) {
      assert a[j] == if j < k then rows[j] else if j == k then low else rows[j - 1];
    }
    assert l < |rows| ==> a[l + 1] == rows[l];
    SlotIs(a, high, l + 1);
  }

  lemma {:induction false} LowAfterHigh(rows: seq<Row>, low: Row, high: Row, k: nat, l: nat)
    requires k <= l <= |rows| && KeyLess(low, high) && Slot(rows, low, 0) == k
    ensures Slot(rows[..l] + [high] + rows[l..], low, 0) == k
  {
    var b := rows[..l] + [high] + rows[l..];
    hide KeyLess, Slot;
    assert b[k] == if k < l then rows[k] else high;
    SlotIs(b, low, k);
  }

  lemma {:induction false} BothInserted(rows: seq<Row>, low: Row, high: Row, k: nat, l: nat)
    requires k <= l <= |rows|
    ensures var a, b := rows[..k] + [low] + rows[k..], rows[..l] + [high] + rows[l..];
            a[..l + 1] + [high] + a[l + 1..] == b[..k] + [low] + b[k..] == Both(rows, low, high, k, l)
  {
    var a, b := rows[..k] + [low] + rows[k..], rows[..l] + [high] + rows[l..];
    assert a[..l + 1] == rows[..k] + [low] + rows[k..l] && a[l + 1..] == rows[l..];
    assert b[..k] == rows[..k] && b[k..] == rows[k..l] + [high] + rows[l..];
  }

  lemma {:induction false} BothVerdict(env: Env, rows: seq<Row>, low: Row, high: Row, k: nat, l: nat)
    requires Intact(env, rows) && k <= l <= |rows|
    requires low.recordHash == RecordHash(env, low) && high.recordHash == RecordHash(env, high)
    requires low.prevHash == high.prevHash == Before(rows, |rows|)
    ensures var head := Before(rows, |rows|);
            var v := Verdict(env, Both(rows, low, high, k, l));
            if Before(rows, k) != head then Reports(v, BrokenLink(low.id, k, Before(rows, k), head))
            else k == |rows| && low.recordHash != head ==>
              Reports(v, BrokenLink(high.id, |rows| + 1, low.recordHash, head))
  {
    var out := Both(rows, low, high, k, l);
    assert out[k] == low && Before(out, k) == Before(rows, k);
    forall j | 0 <= j < k ensures LinkOk(env, out, j) {
      assert LinkOk(env, rows, j);
      assert out[j] == rows[j] && Before(out, j) == Before(rows, j);
    }
    hide Verdict, RecordHash, Intact, Both;
    if Before(rows, k) != Before(rows, |rows|) {
      VerdictOfBroken(env, out, k);
    } else if k == |rows| && low.recordHash != Before(rows, |rows|) {
      BothAtEnd(rows, low, high);
      assert LinkOk(env, out, k) && !LinkOk(env, out, k + 1);
      VerdictOfBroken(env, out, k + 1);
    }
  }

  lemma {:induction false} BothAtEnd(rows: seq<Row>, low: Row, high: Row)
    ensures Both(rows, low, high, |rows|, |rows|) == rows + [low] + [high]
  {
  }

  /**
    The read of the last hash and the insert are two statements, and the time is taken before both.
    Of two appends that read the same head, in whichever order they land, verification reports the
    one with the larger key, which should link to the other; or the one with the smaller key, if
    that sorts in among the old rows; or else two rows collide.
   */
  lemma {:induction false} StaleReadBreaksChain(env: Env, rows: seq<Row>, p: Append, q: Append)
    requires Sorted(rows) && Intact(env, rows) && IdsDistinct(rows)
    requires IdOf(p) != IdOf(q) && !HasId(rows, IdOf(p)) && !HasId(rows, IdOf(q))
    ensures var head := Before(rows, |rows|);
            var won, late := Complete(env, p, head), Complete(env, q, head);
            var v := Verdict(env, Insert(Insert(rows, won), late));
            var low, high := if KeyLess(won, late) then won else late, if KeyLess(won, late) then late else won;
            var k := Slot(rows, low, 0);
            if k < |rows| then
              Reports(v, BrokenLink(low.id, k, Before(rows, k), head))
              || (k > 0 && Collides(env, (Raw(env, rows[k - 1]), Raw(env, rows[|rows| - 1]))))
            else
              Reports(v, BrokenLink(high.id, |rows| + 1, low.recordHash, head))
              || (rows != [] && Collides(env, (Raw(env, rows[|rows| - 1]), Raw(env, low))))
  {
    var head := Before(rows, |rows|);
    var won, late := Complete(env, p, head), Complete(env, q, head);
    BytesLessTotal(won.id, late.id);
    var low, high := if KeyLess(won, late) then won else late, if KeyLess(won, late) then late else won;
    assert KeyLess(low, high) && !HasId(rows, low.id) && low.recordHash == RecordHash(env, low);
    assert high.recordHash == RecordHash(env, high) && low.prevHash == high.prevHash == head;
    var k := Slot(rows, low, 0);
    hide Verdict, Slot, Insert, RecordHash, Raw, Complete, KeyLess, Both, Collides;
    TwoInserts(rows, low, high);
    BothVerdict(env, rows, low, high, k, Slot(rows, high, 0));
    if k < |rows| {
      if Before(rows, k) == head {
        RepeatedLinkCollides(env, rows, k);
      }
    } else if low.recordHash == head {
      LinkToItselfCollides(env, rows, low);
    }
  }

  /** A new row whose hash is the old head. */
  lemma {:induction false} LinkToItselfCollides(env: Env, rows: seq<Row>, r: Row)
    requires Intact(env, rows) && !HasId(rows, r.id)
    requires r.prevHash == Before(rows, |rows|) == r.recordHash == RecordHash(env, r)
    ensures rows != [] && Collides(env, (Raw(env, rows[|rows| - 1]), Raw(env, r)))
  {
    IntactLinks(env, rows, |rows|);
    var last := rows[|rows| - 1];
    assert LinkOk(env, rows, |rows| - 1) && last.id != r.id;
    IntactLinks(env, rows, |rows| - 1);
    EqualHashesCollide(env, last, r);
  }

  /** The table after one-at-a-time appends. */
  function AppendAll(env: Env, rows: seq<Row>, qs: seq<Append>): seq<Row>
    decreases |qs|
  {
    if qs == [] then rows
    else AppendAll(env, Insert(rows, Complete(env, qs[0], Before(rows, |rows|))), qs[1..])
  }

  predicate ComesAfter(time: nat, id: UUID, q: Append) {
    time < TimeOf(q) || (time == TimeOf(q) && BytesLess(id, IdOf(q)))
  }

  /** The row with the later time has the larger key, and of equal times the one with the larger id. */
  lemma {:induction false} KeysOrder(time: nat, id: UUID, q: Append)
    ensures TimeOf(q) > time ==> ComesAfter(time, id, q)
    ensures TimeOf(q) < time ==> !ComesAfter(time, id, q)
    ensures TimeOf(q) == time ==> (ComesAfter(time, id, q) <==> BytesLess(id, IdOf(q)))
  {
  }

  /** Keys strictly increase along the appends, starting above the last row. */
  predicate Ascending(rows: seq<Row>, qs: seq<Append>) {
    (forall i :: 0 < i < |qs| ==> ComesAfter(TimeOf(qs[i - 1]), IdOf(qs[i - 1]), qs[i]))
    && (rows != [] && qs != [] ==> ComesAfter(rows[|rows| - 1].createdAt, rows[|rows| - 1].id, qs[0]))
  }

  lemma {:induction false} AppendStep(env: Env, rows: seq<Row>, qs: seq<Append>)
    requires Sorted(rows) && Intact(env, rows) && Ascending(rows, qs) && qs != []
    ensures var r := Complete(env, qs[0], Before(rows, |rows|));
            Insert(rows, r) == rows + [r] && Sorted(rows + [r]) && Intact(env, rows + [r])
            && Ascending(rows + [r], qs[1..]) && r.id == IdOf(qs[0])
  {
    var r := Complete(env, qs[0], Before(rows, |rows|));
    LastSlot(rows, r);
    var next := rows + [r];
    forall i | 0 <= i < |next| ensures LinkOk(env, next, i) {
      if i < |rows| {
        assert LinkOk(env, rows, i);
        assert Before(next, i) == Before(rows, i);
      }
    }
    var rest := qs[1..];
    forall i | 0 < i < |rest| ensures ComesAfter(TimeOf(rest[i - 1]), IdOf(rest[i - 1]), rest[i]) {
      assert rest[i - 1] == qs[i] && rest[i] == qs[i + 1];
    }
    if |qs| > 1 {
      assert ComesAfter(TimeOf(qs[0]), IdOf(qs[0]), qs[1]);
    }
  }

  /**
    Over every run of appends with strictly increasing keys, verification succeeds, counts every
    append, and reports the hash of the last one.
   */
  lemma {:induction false} AscendingAppendsVerify(env: Env, rows: seq<Row>, qs: seq<Append>)
    requires Sorted(rows) && Intact(env, rows) && Ascending(rows, qs)
    ensures var out := AppendAll(env, rows, qs);
            Sorted(out) && Intact(env, out) && AddsIds(rows, qs, out)
            && Succeeds(Verdict(env, out), |rows| + |qs|, Before(out, |out|))
    decreases |qs|
  {
    hide Verdict, Intact, Sorted, Complete, Insert, Ascending, AddsIds;
    if qs == [] {
      VerdictOfIntact(env, rows);
      NothingAdded(rows);
    } else {
      AppendStep(env, rows, qs);
      var next := rows + [Complete(env, qs[0], Before(rows, |rows|))];
      AscendingAppendsVerify(env, next, qs[1..]);
      OneMoreAdded(rows, qs, next, AppendAll(env, rows, qs));
    }
  }

  /** The old rows, and after them one row for each append, in order. */
  predicate AddsIds(rows: seq<Row>, qs: seq<Append>, out: seq<Row>) {
    rows <= out && |out| == |rows| + |qs| && forall i :: 0 <= i < |qs| ==> out[|rows| + i].id == IdOf(qs[i])
  }

  lemma {:induction false} NothingAdded(rows: seq<Row>)
    ensures AddsIds(rows, [], rows)
  {
  }

  lemma {:induction false} OneMoreAdded(rows: seq<Row>, qs: seq<Append>, next: seq<Row>, out: seq<Row>)
    requires qs != [] && rows <= next && |next| == |rows| + 1 && next[|rows|].id == IdOf(qs[0])
    requires AddsIds(next, qs[1..], out)
    ensures AddsIds(rows, qs, out)
  {
    hide IdOf;
    assert out[|rows|] == next[|rows|];
    forall i | 0 <= i < |qs| ensures out[|rows| + i].id == IdOf(qs[i]) {
      if i > 0 {
        assert out[|next| + (i - 1)].id == IdOf(qs[1..][i - 1]);
      }
    }
  }

  // --------------------------------------------------- the repository object

  class AuditLog {
    const env: Env
    var rows: seq<Row>

    ghost predicate Valid()
      reads this
    {
      Sorted(rows) && IdsDistinct(rows)
    }

    constructor (env: Env)
      ensures Valid() && this.env == env && rows == []
    {
      this.env, rows := env, [];
    }

    /** None when the id is taken: the insert violates the primary key. */
    method RecordAudit(q: Append) returns (record: Option<Row>)
      requires Valid()
      modifies this
      ensures Valid()
      ensures var r := Complete(env, q, Before(old(rows), |old(rows)|));
              if HasId(old(rows), r.id) then record.None? && rows == old(rows)
              else record == Some(r) && rows == Insert(old(rows), r)
    {
      var prevHash: bytes := [];
      if |rows| > 0 {
        prevHash := rows[|rows| - 1].recordHash;
      }
      var r := Complete(env, q, prevHash);
      if HasId(rows, r.id) {
        return None;
      }
      InsertKeepsOrder(rows, r);
      rows := Insert(rows, r);
      return Some(r);
    }

    /** The answer for the `got` rows that the read delivers: all of them, or the first ones. */
    method VerifyAuditChainDetailed(got: nat) returns (v: Verification)
      requires got <= |rows|
      ensures v == Verdict(env, rows[..got])
    {
      var read := rows[..got];
      var count, expectedPrev, headHash, genesisHash := 0, [], [], [];
      while count < |read|
        invariant count <= |read| && expectedPrev == headHash == Before(read, count)
        invariant forall j :: 0 <= j < count ==> LinkOk(env, read, j)
        invariant genesisHash == if count == 0 then [] else read[0].recordHash
      {
        var row := read[count];
        if count == 0 {
          genesisHash := row.recordHash;
        }
        if row.prevHash != expectedPrev {
          VerdictOfBroken(env, read, count);
          return Verification(false, count, headHash, genesisHash,
                              Some(BrokenLink(row.id, count, expectedPrev, row.prevHash)));
        }
        var recalculated := RecordHash(env, row);
        if row.recordHash != recalculated {
          VerdictOfBroken(env, read, count);
          return Verification(false, count, headHash, genesisHash,
                              Some(BrokenLink(row.id, count, recalculated, row.recordHash)));
        }
        expectedPrev := row.recordHash;
        headHash := row.recordHash;
        count := count + 1;
      }
      VerdictOfIntact(env, read);
      return Verification(true, count, headHash, genesisHash, None);
    }
  }
}
