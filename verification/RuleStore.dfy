/**
  The file-backed rule store, aegis/internal/rule/store.go:50-303: an ordered rule list, its
  compiled matcher and its file. Every mutation replaces all three, or fails and leaves the list and
  the matcher alone; a write that fails may leave anything in the file. And the cursor pagination
  of its admin API, aegis/internal/transport/http/server.go:101-114.
 */
module RuleStore {
  import opened Bytes
  import opened RuleMatcher
  import RuleIds
  import Base64

  datatype Error = NotFound | DuplicateId | InvalidRules | NotPersisted | InvalidCursor

  datatype Result<+T> = Ok(value: T) | Fail(error: Error)

  // ----------------------------------------------------- rule lists as values

  predicate IdsDistinct(rules: seq<Rule>) {
    forall i, j :: 0 <= i < j < |rules| ==> rules[i].id != rules[j].id
  }

  function IdSet(rules: seq<Rule>): set<bytes> {
    set i | 0 <= i < |rules| :: rules[i].id
  }

  /** The position of the first rule with this id, or the end. */
  function IndexOf(rules: seq<Rule>, id: bytes): (k: nat)
    ensures k <= |rules| && (k < |rules| ==> rules[k].id == id)
    ensures forall j :: 0 <= j < k ==> rules[j].id != id
    ensures k == |rules| <==> id !in IdSet(rules)
  {
    if rules == [] then 0
    else if rules[0].id == id then 0
    else 1 + IndexOf(rules[1..], id)
  }

  /** The rule Create stores: the given id, or a generated one. */
  function WithId(u: RuleIds.Unicode, rules: seq<Rule>, r: Rule): Rule {
    if r.id == [] then r.(id := RuleIds.FirstFree(RuleIds.Base(u, r.description), IdSet(rules), 0)) else r
  }

  /** The last rule with each id, as the map built by Reorder has it. */
  function ById(rules: seq<Rule>): (m: map<bytes, Rule>)
    ensures m.Keys == IdSet(rules) && forall id :: id in m ==> m[id].id == id && m[id] in rules
  {
    if rules == [] then map[]
    else
      var init := rules[..|rules| - 1];
      var last := rules[|rules| - 1];
      assert rules == init + [last];
      ById(init)[last.id := last]
  }

  /** The listed rules, in list order; unknown ids are passed over. */
  function Listed(m: map<bytes, Rule>, ids: seq<bytes>): seq<Rule> {
    if ids == [] then []
    else
      var id := ids[|ids| - 1];
      Listed(m, ids[..|ids| - 1]) + if id in m then [m[id]] else []
  }

  /** The rules not listed, in their old order. */
  function Unlisted(rules: seq<Rule>, ids: seq<bytes>): seq<Rule> {
    if rules == [] then []
    else
      var last := rules[|rules| - 1];
      Unlisted(rules[..|rules| - 1], ids) + if last.id in ids then [] else [last]
  }

  /** Each rule with its position written into order_idx. */
  function Numbered(rules: seq<Rule>): (out: seq<Rule>)
    ensures |out| == |rules| && forall i :: 0 <= i < |rules| ==> out[i] == rules[i].(orderIdx := i)
  {
    seq(|rules|, i requires 0 <= i < |rules| => rules[i].(orderIdx := i))
  }

  function Reordered(rules: seq<Rule>, ids: seq<bytes>): seq<Rule> {
    Numbered(Listed(ById(rules), ids) + Unlisted(rules, ids))
  }

  datatype Op =
    | Create(rule: Rule) | Update(id: bytes, rule: Rule) | Delete(id: bytes) | Reorder(ids: seq<bytes>)
    | Import(rules: seq<Rule>)

  /** The list an operation proposes, or why it proposes none. */
  function Proposed(u: RuleIds.Unicode, rules: seq<Rule>, op: Op): Result<seq<Rule>> {
    match op
    case Create(r) =>
      var r' := WithId(u, rules, r);
      if r'.id in IdSet(rules) then Fail(DuplicateId) else Ok(rules + [r'])
    case Update(id, r) =>
      var k := IndexOf(rules, id);
      if k == |rules| then Fail(NotFound) else Ok(rules[k := r.(id := id)])
    case Delete(id) =>
      var k := IndexOf(rules, id);
      if k == |rules| then Fail(NotFound) else Ok(rules[..k] + rules[k + 1..])
    case Reorder(ids) => Ok(Reordered(rules, ids))
    case Import(all) => Ok(all)
  }

  /** What is in the file: a whole rule list, or part of one. */
  datatype Disk = Whole(rules: seq<Rule>) | Torn

  /** How writing the file goes, and what a failure leaves there. */
  datatype Write = Written | Broken(left: Disk)

  /** What an operation leads to: the proposal if it compiles and is written, else an error. */
  function Outcome(lib: Lib, u: RuleIds.Unicode, rules: seq<Rule>, op: Op, w: Write): Result<seq<Rule>> {
    var p := Proposed(u, rules, op);
    if p.Fail? then p
    else if !Compiles(lib, p.value) then Fail(InvalidRules)
    else if w.Broken? then Fail(NotPersisted)
    else p
  }

  function After(lib: Lib, u: RuleIds.Unicode, rules: seq<Rule>, op: Op, w: Write): seq<Rule> {
    var out := Outcome(lib, u, rules, op, w);
    if out.Ok? then out.value else rules
  }

  /** The file after an operation: an operation that proposes nothing valid does not touch it. */
  function FileAfter(lib: Lib, u: RuleIds.Unicode, rules: seq<Rule>, file: Disk, op: Op, w: Write): Disk {
    match Outcome(lib, u, rules, op, w)
    case Ok(next) => Whole(next)
    case Fail(NotPersisted) => w.left
    case Fail(_) => file
  }

  /** What each operation leaves of rules and file: nothing changes but by a list whose patterns all compile. */
  lemma {:induction false} OperationWrites(
      lib: Lib, u: RuleIds.Unicode, rules: seq<Rule>, file: Disk, op: Op, w: Write)
    ensures var proposed := Proposed(u, rules, op);
            var (out, after, disk) :=
              (Outcome(lib, u, rules, op, w), After(lib, u, rules, op, w), FileAfter(lib, u, rules, file, op, w));
            match proposed
            case Fail(why) => why in {NotFound, DuplicateId} && out == Fail(why) && after == rules && disk == file
            case Ok(next) =>
              if exists r :: r in next && lib.compile(Pattern(r.url)) == None then
                out == Fail(InvalidRules) && after == rules && disk == file
              else if w == Written then out == Ok(next) && after == next && disk == Whole(next)
              else out == Fail(NotPersisted) && after == rules && disk == w.left
  {
    var proposed := Proposed(u, rules, op);
    if proposed.Ok? {
      CompilesIffPatternsDo(lib, proposed.value);
    }
    hide Compiles, WithId, Reordered;
  }

  // --------------------------------------------------------------- the store

  class FileStore {
    const lib: Lib
    const unicode: RuleIds.Unicode
    var rules: seq<Rule>
    var matcher: Matcher
    var file: Disk

    /** The matcher is that of the rule list. */
    predicate Valid()
      reads this
    {
      IsMatcherOf(lib, matcher, rules)
    }

    constructor (lib: Lib, unicode: RuleIds.Unicode, rules: seq<Rule>, matcher: Matcher)
      requires IsMatcherOf(lib, matcher, rules)
      ensures Valid() && this.lib == lib && this.unicode == unicode && this.rules == rules && file == Whole(rules)
    {
      this.lib, this.unicode := lib, unicode;
      this.rules, this.matcher, file := rules, matcher, Whole(rules);
    }

    /** NewStore on a file with these rules; null when they do not compile. */
    static method Load(lib: Lib, unicode: RuleIds.Unicode, rules: seq<Rule>) returns (store: FileStore?)
      ensures store != null <==> Compiles(lib, rules)
      ensures store != null ==> fresh(store) && store.Valid() && store.rules == rules && store.lib == lib
                                && store.file == Whole(rules)
    {
      var m := CompileRules(lib, rules);
      if m.None? {
        return null;
      }
      store := new FileStore(lib, unicode, rules, m.value);
    }

    method ApplyLocked(next: seq<Rule>, w: Write) returns (error: Option<Error>)
      requires Valid()
      modifies this
      ensures Valid()
      ensures error == if !Compiles(lib, next) then Some(InvalidRules) else if w.Broken? then Some(NotPersisted) else None
      ensures rules == if error.None? then next else old(rules)
      ensures error.Some? ==> matcher == old(matcher)
      ensures file == if error.None? then Whole(next) else if error == Some(NotPersisted) then w.left else old(file)
    {
      var m := CompileRules(lib, next);
      if m.None? {
        return Some(InvalidRules);
      }
      if w.Broken? {
        file := w.left;
        return Some(NotPersisted);
      }
      file := Whole(next);
      rules := next;
      matcher := m.value;
      return None;
    }

    method IndexOfLocked(id: bytes) returns (idx: int)
      ensures idx == if IndexOf(rules, id) < |rules| then IndexOf(rules, id) else -1
    {
      var i := 0;
      assert rules[0..] == rules;
      while i < |rules|
        invariant i <= |rules| && IndexOf(rules, id) == i + IndexOf(rules[i..], id)
      {
        if rules[i].id == id {
          return i;
        }
        assert rules[i..][1..] == rules[i + 1..];
        i := i + 1;
      }
      return -1;
    }

    method CreateRule(r: Rule, w: Write) returns (res: Result<Rule>)
      requires Valid()
      modifies this
      ensures Valid() && rules == After(lib, unicode, old(rules), Create(r), w)
      ensures res == match Outcome(lib, unicode, old(rules), Create(r), w)
                     case Ok(_) => Ok(WithId(unicode, old(rules), r))
                     case Fail(e) => Fail(e)
      ensures res.Fail? ==> matcher == old(matcher)
      ensures file == FileAfter(lib, unicode, old(rules), old(file), Create(r), w)
    {
      hide IsMatcherOf, Compiles, RuleIds.Base, RuleIds.FirstFree, RuleIds.Candidate;
      var r' := r;
      if r.id == [] {
        var id, tries := RuleIds.GenerateId(unicode, r.description, IdSet(rules));
        r' := r.(id := id);
      }
      var idx := IndexOfLocked(r'.id);
      if idx != -1 {
        return Fail(DuplicateId);
      }
      var error := ApplyLocked(rules + [r'], w);
      if error.Some? {
        return Fail(error.value);
      }
      return Ok(r');
    }

    method UpdateRule(id: bytes, r: Rule, w: Write) returns (res: Result<Rule>)
      requires Valid()
      modifies this
      ensures Valid() && rules == After(lib, unicode, old(rules), Update(id, r), w)
      ensures res == match Outcome(lib, unicode, old(rules), Update(id, r), w)
                     case Ok(_) => Ok(r.(id := id))
                     case Fail(e) => Fail(e)
      ensures res.Fail? ==> matcher == old(matcher)
      ensures file == FileAfter(lib, unicode, old(rules), old(file), Update(id, r), w)
    {
      hide IsMatcherOf, Compiles;
      var idx := IndexOfLocked(id);
      if idx == -1 {
        return Fail(NotFound);
      }
      var error := ApplyLocked(rules[idx := r.(id := id)], w);
      if error.Some? {
        return Fail(error.value);
      }
      return Ok(r.(id := id));
    }

    method DeleteRule(id: bytes, w: Write) returns (res: Result<()>)
      requires Valid()
      modifies this
      ensures Valid() && rules == After(lib, unicode, old(rules), Delete(id), w)
      ensures res == match Outcome(lib, unicode, old(rules), Delete(id), w)
                     case Ok(_) => Ok(())
                     case Fail(e) => Fail(e)
      ensures res.Fail? ==> matcher == old(matcher)
      ensures file == FileAfter(lib, unicode, old(rules), old(file), Delete(id), w)
    {
      hide IsMatcherOf, Compiles;
      var idx := IndexOfLocked(id);
      if idx == -1 {
        return Fail(NotFound);
      }
      var error := ApplyLocked(rules[..idx] + rules[idx + 1..], w);
      return if error.None? then Ok(()) else Fail(error.value);
    }

    method BuildIndex() returns (ruleMap: map<bytes, Rule>)
      ensures ruleMap == ById(rules)
    {
      ruleMap := map[];
      for i := 0 to |rules|
        invariant ruleMap == ById(rules[..i])
      {
        assert rules[..i + 1][..i] == rules[..i];
        ruleMap := ruleMap[rules[i].id := rules[i]];
      }
      assert rules[..|rules|] == rules;
    }

    method ReorderRules(ids: seq<bytes>, w: Write) returns (res: Result<()>)
      requires Valid()
      modifies this
      ensures Valid() && rules == After(lib, unicode, old(rules), Reorder(ids), w)
      ensures res == match Outcome(lib, unicode, old(rules), Reorder(ids), w)
                     case Ok(_) => Ok(())
                     case Fail(e) => Fail(e)
      ensures res.Fail? ==> matcher == old(matcher)
      ensures file == FileAfter(lib, unicode, old(rules), old(file), Reorder(ids), w)
    {
      hide IsMatcherOf, Compiles, ById, Listed, Unlisted, Numbered;
      var ruleMap := BuildIndex();
      var next, seen := CollectListed(ruleMap, ids);
      next := AppendUnlisted(ids, seen, next, Listed(ruleMap, ids));
      var error := ApplyLocked(next, w);
      return if error.None? then Ok(()) else Fail(error.value);
    }

    method ImportRules(all: seq<Rule>, w: Write) returns (res: Result<()>)
      requires Valid()
      modifies this
      ensures Valid() && rules == After(lib, unicode, old(rules), Import(all), w)
      ensures res == match Outcome(lib, unicode, old(rules), Import(all), w)
                     case Ok(_) => Ok(())
                     case Fail(e) => Fail(e)
      ensures res.Fail? ==> matcher == old(matcher)
      ensures file == FileAfter(lib, unicode, old(rules), old(file), Import(all), w)
    {
      hide IsMatcherOf, Compiles;
      var error := ApplyLocked(all, w);
      return if error.None? then Ok(()) else Fail(error.value);
    }

    method CollectListed(ruleMap: map<bytes, Rule>, ids: seq<bytes>) returns (next: seq<Rule>, seen: set<bytes>)
      ensures next == Numbered(Listed(ruleMap, ids))
      ensures forall id :: id in seen <==> id in ids && id in ruleMap
    {
      next, seen := [], {};
      for i := 0 to |ids|
        invariant next == Numbered(Listed(ruleMap, ids[..i]))
        invariant forall id :: id in seen <==> id in ids[..i] && id in ruleMap
      {
        assert ids[..i + 1][..i] == ids[..i];
        if ids[i] in ruleMap {
          next := next + [ruleMap[ids[i]].(orderIdx := |next|)];
          seen := seen + {ids[i]};
        }
      }
      assert ids[..|ids|] == ids;
    }

    method AppendUnlisted(ids: seq<bytes>, seen: set<bytes>, first: seq<Rule>, ghost listed: seq<Rule>)
      returns (next: seq<Rule>)
      requires first == Numbered(listed)
      requires forall id :: id in seen <==> id in ids && id in IdSet(rules)
      ensures next == Numbered(listed + Unlisted(rules, ids))
    {
      next := first;
      assert listed + [] == listed;
      for i := 0 to |rules|
        invariant next == Numbered(listed + Unlisted(rules[..i], ids))
      {
        assert rules[..i + 1][..i] == rules[..i];
        var r := rules[i];
        assert r.id in IdSet(rules);
        if r.id !in seen {
          next := next + [r.(orderIdx := |next|)];
        }
      }
      assert rules[..|rules|] == rules;
    }

    method MatchRequest(verb: bytes, path: bytes) returns (r: Option<Rule>)
      requires Valid()
      ensures r == Choose(lib, matcher, verb, path)
    {
      r := Match(lib, matcher, verb, path);
    }

    /** limit rules after the cursor's rule, and whether more follow. */
    method ListPage(limit: nat, cursor: bytes) returns (res: Result<Page>)
      ensures res == PageAt(rules, limit, cursor)
    {
      hide IndexOf, Base64.Decode;
      var start := 0;
      if cursor != [] {
        var id := Base64.Decode(cursor, true);
        if id.None? {
          return Fail(InvalidCursor);
        }
        var idx := IndexOfLocked(id.value);
        if idx == -1 {
          return Fail(InvalidCursor);
        }
        start := idx + 1;
      }
      var end := start + limit;
      var hasMore := end < |rules|;
      if end > |rules| {
        end := |rules|;
      }
      return Ok(Page(rules[start..end], hasMore));
    }
  }

  // -------------------------------------------------------------- pagination

  datatype Page = Page(rules: seq<Rule>, hasMore: bool)

  function PageAt(rules: seq<Rule>, limit: nat, cursor: bytes): Result<Page> {
    if cursor == [] then Ok(PageFrom(rules, limit, 0))
    else
      var id := Base64.Decode(cursor, true);
      if id.None? || IndexOf(rules, id.value) == |rules| then Fail(InvalidCursor)
      else Ok(PageFrom(rules, limit, IndexOf(rules, id.value) + 1))
  }

  function PageFrom(rules: seq<Rule>, limit: nat, start: nat): Page
    requires start <= |rules|
  {
    var end := if start + limit > |rules| then |rules| else start + limit;
    Page(rules[start..end], start + limit < |rules|)
  }

  /** The cursor handed out with a page: the id of its last rule, encoded, if more follow. */
  function NextCursor(p: Page): bytes {
    if p.hasMore && p.rules != [] then Base64.Encode(p.rules[|p.rules| - 1].id, true) else []
  }

  /** A cursor that is no text of an id, or of an id no rule has, is refused; without one the first page is given. */
  lemma {:induction false} CursorIsChecked(rules: seq<Rule>, limit: nat, cursor: bytes)
    ensures cursor == "" ==>
              PageAt(rules, limit, cursor) == Ok(Page(rules[..if limit < |rules| then limit else |rules|], limit < |rules|))
    ensures cursor != "" ==>
              (PageAt(rules, limit, cursor) == Fail(InvalidCursor) <==>
                 Base64.Decode(cursor, true) == None
                 || forall i :: 0 <= i < |rules| ==> rules[i].id != Base64.Decode(cursor, true).value)
  {
    hide Base64.Decode;
    if Base64.Decode(cursor, true).Some? {
      var id := Base64.Decode(cursor, true).value;
      var k := IndexOf(rules, id);
      assert k < |rules| ==> rules[k].id == id;
      hide IndexOf;
    }
  }

  datatype Walk = Walk(visited: seq<Rule>, pages: nat, finished: bool)

  /** A client that follows cursors until has_more is false, for at most `fuel` pages. */
  function Follow(rules: seq<Rule>, limit: nat, cursor: bytes, fuel: nat): Walk
    decreases fuel
  {
    if fuel == 0 then Walk([], 0, false)
    else
      var res := PageAt(rules, limit, cursor);
      if res.Fail? then Walk([], 1, false)
      else if !res.value.hasMore then Walk(res.value.rules, 1, true)
      else
        var rest := Follow(rules, limit, NextCursor(res.value), fuel - 1);
        Walk(res.value.rules + rest.visited, 1 + rest.pages, rest.finished)
  }

  /** max(1, ceil(n / limit)). */
  function PageCount(n: nat, limit: nat): nat
    requires limit >= 1
  {
    if n <= limit then 1 else 1 + PageCount(n - limit, limit)
  }

  lemma {:induction false} PageCountIsCeiling(n: nat, limit: nat)
    requires limit >= 1
    ensures PageCount(n, limit) >= 1
    ensures n > 0 ==> (PageCount(n, limit) - 1) * limit < n <= PageCount(n, limit) * limit
  {
    if n > limit {
      PageCountIsCeiling(n - limit, limit);
      var k := PageCount(n - limit, limit);
      assert k * limit == (k - 1) * limit + limit;
      assert (k + 1) * limit == k * limit + limit;
    }
  }

  predicate IdsNonEmpty(rules: seq<Rule>) {
    forall i :: 0 <= i < |rules| ==> rules[i].id != []
  }

  lemma {:induction false} IndexOfDistinct(rules: seq<Rule>, k: nat)
    requires IdsDistinct(rules) && k < |rules|
    ensures IndexOf(rules, rules[k].id) == k
  {
  }

  /** The cursor after the rule at k - 1 leads to the page from k on. */
  lemma {:induction false} CursorLeadsOn(rules: seq<Rule>, limit: nat, k: nat)
    requires IdsDistinct(rules) && IdsNonEmpty(rules) && 0 < k <= |rules|
    ensures PageAt(rules, limit, Base64.Encode(rules[k - 1].id, true)) == Ok(PageFrom(rules, limit, k))
  {
    Base64.DecodeEncode(rules[k - 1].id, true);
    Base64.EncodeChars(rules[k - 1].id, true);
    IndexOfDistinct(rules, k - 1);
  }

  /** The page after a page that is not the last. */
  lemma {:induction false} NextPage(rules: seq<Rule>, limit: nat, start: nat)
    requires IdsDistinct(rules) && IdsNonEmpty(rules) && limit >= 1 && start + limit < |rules|
    ensures var p := PageFrom(rules, limit, start);
            p.rules == rules[start..start + limit] && p.hasMore
            && PageAt(rules, limit, NextCursor(p)) == Ok(PageFrom(rules, limit, start + limit))
            && rules[start..] == p.rules + rules[start + limit..]
  {
    hide PageAt, IndexOf, Base64.Encode, IdsDistinct, IdsNonEmpty;
    var p := PageFrom(rules, limit, start);
    var k := start + limit;
    assert p.rules[|p.rules| - 1] == rules[k - 1];
    CursorLeadsOn(rules, limit, k);
  }

  lemma {:induction false} FollowFrom(rules: seq<Rule>, limit: nat, cursor: bytes, start: nat, fuel: nat)
    requires IdsDistinct(rules) && IdsNonEmpty(rules) && limit >= 1 && start <= |rules|
    requires PageAt(rules, limit, cursor) == Ok(PageFrom(rules, limit, start))
    ensures var w := Follow(rules, limit, cursor, fuel);
            var n := PageCount(|rules| - start, limit);
            if fuel >= n then w == Walk(rules[start..], n, true)
            else !w.finished && w.pages == fuel
    decreases fuel
  {
    hide PageAt, NextCursor, IdsDistinct, IdsNonEmpty;
    if fuel > 0 {
      var p := PageFrom(rules, limit, start);
      if start + limit < |rules| {
        NextPage(rules, limit, start);
        FollowFrom(rules, limit, NextCursor(p), start + limit, fuel - 1);
      } else {
        assert p.rules == rules[start..];
      }
    }
  }

  /**
    Complete pagination: following cursors visits every rule exactly once in list order and ends
    after exactly max(1, ceil(n / limit)) pages.
   */
  lemma {:induction false} PaginationIsComplete(rules: seq<Rule>, limit: nat, fuel: nat)
    requires IdsDistinct(rules) && IdsNonEmpty(rules) && limit >= 1
    ensures var n := PageCount(|rules|, limit);
            var w := Follow(rules, limit, [], fuel);
            if fuel >= n then w == Walk(rules, n, true) else !w.finished && w.pages == fuel
  {
    FollowFrom(rules, limit, [], 0, fuel);
    assert rules[0..] == rules;
  }

  // ------------------------------------------------------- runs of mutations

  /** No id of an existing rule occurs twice in the list. */
  predicate NoRepeats(rules: seq<Rule>, ids: seq<bytes>) {
    KnownOnce(IdSet(rules), ids)
  }

  lemma {:induction false} ListedMembers(m: map<bytes, Rule>, ids: seq<bytes>)
    requires forall id :: id in m ==> m[id].id == id
    ensures forall r :: r in Listed(m, ids) <==> r.id in ids && r.id in m && r == m[r.id]
    decreases |ids|
  {
    if ids != [] {
      var init, id := ids[..|ids| - 1], ids[|ids| - 1];
      assert ids == init + [id];
      ListedMembers(m, init);
    }
  }

  /** No id with a rule occurs twice. */
  predicate KnownOnce(known: set<bytes>, ids: seq<bytes>) {
    forall i, j :: 0 <= i < j < |ids| && ids[i] in known ==> ids[i] != ids[j]
  }

  lemma {:induction false} KnownOnceLast(known: set<bytes>, ids: seq<bytes>)
    requires ids != []
    ensures var init, id := ids[..|ids| - 1], ids[|ids| - 1];
            KnownOnce(known, ids) <==> KnownOnce(known, init) && (id in known ==> id !in init)
  {
  }

  lemma {:induction false} DistinctLast(before: seq<Rule>, r: Rule)
    ensures IdsDistinct(before + [r]) <==> IdsDistinct(before) && forall x :: x in before ==> x.id != r.id
  {
    var all := before + [r];
    if IdsDistinct(all) {
      forall i, j | 0 <= i < j < |before| ensures before[i].id != before[j].id {
        assert all[i].id != all[j].id;
      }
      forall x | x in before ensures x.id != r.id {
        var i :| 0 <= i < |before| && before[i] == x;
        assert all[i].id != all[|before|].id;
      }
    }
  }

  lemma {:induction false} ListedDistinct(m: map<bytes, Rule>, ids: seq<bytes>)
    requires forall id :: id in m ==> m[id].id == id
    ensures IdsDistinct(Listed(m, ids)) <==> KnownOnce(m.Keys, ids)
    decreases |ids|
  {
    if ids != [] {
      var init, id := ids[..|ids| - 1], ids[|ids| - 1];
      ListedDistinct(m, init);
      ListedMembers(m, init);
      KnownOnceLast(m.Keys, ids);
      if id in m {
        DistinctLast(Listed(m, init), m[id]);
        if id in init {
          assert m[id] in Listed(m, init);
        }
      } else {
        assert Listed(m, ids) == Listed(m, init);
      }
    }
  }

  lemma {:induction false} UnlistedMembers(rules: seq<Rule>, ids: seq<bytes>)
    ensures forall r :: r in Unlisted(rules, ids) <==> r in rules && r.id !in ids
    ensures IdsDistinct(rules) ==> IdsDistinct(Unlisted(rules, ids))
    decreases |rules|
  {
    if rules != [] {
      var init, last := rules[..|rules| - 1], rules[|rules| - 1];
      assert rules == init + [last];
      UnlistedMembers(init, ids);
      var before := Unlisted(init, ids);
      forall i | 0 <= i < |before| && IdsDistinct(rules) ensures before[i].id != last.id {
        assert before[i] in before;
      }
    }
  }

  lemma {:induction false} DistinctAppend(a: seq<Rule>, b: seq<Rule>)
    requires forall x, y :: x in a && y in b ==> x.id != y.id
    ensures IdsDistinct(a + b) <==> IdsDistinct(a) && IdsDistinct(b)
  {
    var all := a + b;
    if IdsDistinct(all) {
      forall i, j | 0 <= i < j < |a| ensures a[i].id != a[j].id {
        assert all[i].id != all[j].id;
      }
      forall i, j | 0 <= i < j < |b| ensures b[i].id != b[j].id {
        assert all[|a| + i].id != all[|a| + j].id;
      }
    }
    if IdsDistinct(a) && IdsDistinct(b) {
      forall i, j | 0 <= i < j < |all| ensures all[i].id != all[j].id {
        if i < |a| <= j {
          assert a[i] in a && b[j - |a|] in b;
        }
      }
    }
  }

  /**
    A reorder keeps ids distinct exactly when its list names no existing rule twice: a rule named
    twice is stored twice.
   */
  lemma {:induction false} ReorderDistinctIffNoRepeats(rules: seq<Rule>, ids: seq<bytes>)
    requires IdsDistinct(rules)
    ensures IdsDistinct(Reordered(rules, ids)) <==> NoRepeats(rules, ids)
  {
    hide ById, Listed, Unlisted, Numbered, IdsDistinct, KnownOnce;
    var m := ById(rules);
    var a, b := Listed(m, ids), Unlisted(rules, ids);
    ListedMembers(m, ids);
    ListedDistinct(m, ids);
    UnlistedMembers(rules, ids);
    DistinctAppend(a, b);
    NumberedDistinct(a + b);
  }

  lemma {:induction false} NumberedDistinct(rules: seq<Rule>)
    ensures IdsDistinct(Numbered(rules)) <==> IdsDistinct(rules)
  {
    hide Numbered;
    assert forall i :: 0 <= i < |rules| ==> Numbered(rules)[i].id == rules[i].id;
  }

  /** The position of an id in a list of ids. */
  function Place(ids: seq<bytes>, id: bytes): nat
    requires id in ids
  {
    if ids[0] == id then 0 else 1 + Place(ids[1..], id)
  }

  lemma {:induction false} PlaceAppend(ids: seq<bytes>, last: bytes, id: bytes)
    requires id in ids + [last]
    ensures Place(ids + [last], id) == if id in ids then Place(ids, id) else |ids|
    ensures id in ids ==> Place(ids, id) < |ids|
    decreases |ids|
  {
    if ids != [] && ids[0] != id {
      assert (ids + [last])[1..] == ids[1..] + [last];
      PlaceAppend(ids[1..], last, id);
    }
  }

  /** Listed rules stand in the order of the list. */
  lemma {:induction false} ListedInOrder(m: map<bytes, Rule>, ids: seq<bytes>)
    requires forall id :: id in m ==> m[id].id == id
    requires KnownOnce(m.Keys, ids)
    ensures var a := Listed(m, ids);
            (forall r :: r in a ==> r.id in ids)
            && forall i, j :: 0 <= i < j < |a| ==> Place(ids, a[i].id) < Place(ids, a[j].id)
    decreases |ids|
  {
    ListedMembers(m, ids);
    if ids != [] {
      var init, id := ids[..|ids| - 1], ids[|ids| - 1];
      assert ids == init + [id];
      KnownOnceLast(m.Keys, ids);
      ListedInOrder(m, init);
      ListedMembers(m, init);
      var a := Listed(m, ids);
      forall i, j | 0 <= i < j < |a| ensures Place(ids, a[i].id) < Place(ids, a[j].id) {
        assert a[i] in Listed(m, init);
        PlaceAppend(init, id, a[i].id);
        assert a[j] in a;
        PlaceAppend(init, id, a[j].id);
      }
    }
  }

  /** b takes its rules from `rules` in the order they have there. */
  predicate InOrderOf(rules: seq<Rule>, b: seq<Rule>) {
    forall i, j :: 0 <= i < j < |b| ==> IndexOf(rules, b[i].id) < IndexOf(rules, b[j].id)
  }

  /** The other rules keep their old order. */
  lemma {:induction false} UnlistedInOrder(rules: seq<Rule>, ids: seq<bytes>)
    requires IdsDistinct(rules)
    ensures InOrderOf(rules, Unlisted(rules, ids))
    decreases |rules|
  {
    if rules != [] {
      var init, last := rules[..|rules| - 1], rules[|rules| - 1];
      assert rules == init + [last];
      UnlistedInOrder(init, ids);
      UnlistedMembers(init, ids);
      hide InOrderOf, IdsDistinct;
      var before := Unlisted(init, ids);
      OrderExtends(init, last, before);
      assert Unlisted(rules, ids) == before + if last.id in ids then [] else [last];
      assert before + [] == before;
    }
  }

  lemma {:induction false} OrderExtends(init: seq<Rule>, last: Rule, before: seq<Rule>)
    requires IdsDistinct(init + [last]) && InOrderOf(init, before) && forall r :: r in before ==> r in init
    ensures InOrderOf(init + [last], before) && InOrderOf(init + [last], before + [last])
  {
    forall i | 0 <= i < |before|
      ensures IndexOf(init + [last], before[i].id) == IndexOf(init, before[i].id) < |init|
    {
      IndexOfInit(init, last, before[i]);
    }
    IndexOfDistinct(init + [last], |init|);
    hide IndexOf;
  }

  lemma {:induction false} IndexOfInit(init: seq<Rule>, last: Rule, r: Rule)
    requires IdsDistinct(init + [last]) && r in init
    ensures IndexOf(init + [last], r.id) == IndexOf(init, r.id) < |init|
  {
    var rules := init + [last];
    var k :| 0 <= k < |init| && init[k] == r;
    assert rules[k] == r;
    IndexOfDistinct(rules, k);
    forall i, j | 0 <= i < j < |init| ensures init[i].id != init[j].id {
      assert rules[i].id != rules[j].id;
    }
    IndexOfDistinct(init, k);
  }

  lemma {:induction false} ByIdFinds(rules: seq<Rule>, k: nat)
    requires IdsDistinct(rules) && k < |rules|
    ensures rules[k].id in ById(rules) && ById(rules)[rules[k].id] == rules[k]
    decreases |rules|
  {
  }

  lemma {:induction false} DistinctSameMembers(a: seq<Rule>, b: seq<Rule>)
    requires IdsDistinct(a) && IdsDistinct(b) && forall r :: r in a <==> r in b
    ensures multiset(a) == multiset(b)
  {
    forall r ensures multiset(a)[r] == multiset(b)[r] {
      DistinctCount(a, r);
      DistinctCount(b, r);
    }
  }

  lemma {:induction false} DistinctCount(a: seq<Rule>, r: Rule)
    requires IdsDistinct(a)
    ensures multiset(a)[r] == if r in a then 1 else 0
    decreases |a|
  {
    if a != [] {
      var init, last := a[..|a| - 1], a[|a| - 1];
      assert a == init + [last];
      DistinctCount(init, r);
      forall i | 0 <= i < |init| ensures init[i] != last {
        assert a[i].id != a[|a| - 1].id;
      }
    }
  }

  /**
    With no repeats a reorder is a permutation: the rules named, in the order named, then all the
    others in their old order, each carrying its new position.
   */
  lemma {:induction false} ReorderPermutes(rules: seq<Rule>, ids: seq<bytes>)
    requires IdsDistinct(rules) && NoRepeats(rules, ids)
    ensures var a, b := Listed(ById(rules), ids), Unlisted(rules, ids);
            multiset(a + b) == multiset(rules)
            && |Reordered(rules, ids)| == |rules|
            && (forall i :: 0 <= i < |rules| ==> Reordered(rules, ids)[i] == (a + b)[i].(orderIdx := i))
            && (forall r :: r in a ==> r.id in ids) && (forall r :: r in b ==> r.id !in ids)
            && (forall i, j :: 0 <= i < j < |a| ==> Place(ids, a[i].id) < Place(ids, a[j].id))
            && InOrderOf(rules, b)
  {
    var m := ById(rules);
    var a, b := Listed(m, ids), Unlisted(rules, ids);
    ListedInOrder(m, ids);
    UnlistedInOrder(rules, ids);
    ListedMembers(m, ids);
    ListedDistinct(m, ids);
    UnlistedMembers(rules, ids);
    DistinctAppend(a, b);
    forall r ensures r in a + b <==> r in rules {
      if r in rules {
        var k :| 0 <= k < |rules| && rules[k] == r;
        ByIdFinds(rules, k);
      }
    }
    DistinctSameMembers(a + b, rules);
    assert |multiset(a + b)| == |multiset(rules)|;
  }

  /** The store read as a map from ids to rules. */
  function Find(rules: seq<Rule>, id: bytes): Option<Rule> {
    var k := IndexOf(rules, id);
    if k < |rules| then Some(rules[k]) else None
  }

  lemma {:induction false} FindIs(rules: seq<Rule>, k: nat)
    requires IdsDistinct(rules) && k < |rules|
    ensures Find(rules, rules[k].id) == Some(rules[k])
  {
  }

  /** Create adds one entry to that map; a generated id is never taken. */
  lemma {:induction false} CreateAddsOne(u: RuleIds.Unicode, rules: seq<Rule>, r: Rule, id: bytes)
    requires IdsDistinct(rules)
    ensures r.id == [] ==> Proposed(u, rules, Create(r)).Ok?
    ensures Proposed(u, rules, Create(r)).Ok? ==>
              var next := Proposed(u, rules, Create(r)).value;
              var r' := WithId(u, rules, r);
              Find(next, id) == if id == r'.id then Some(r') else Find(rules, id)
  {
    var r' := WithId(u, rules, r);
    var next := rules + [r'];
    if r'.id !in IdSet(rules) {
      DistinctLast(rules, r');
      SameFind(rules, next, id, r'.id);
      FindIs(next, |rules|);
    }
  }

  /** Update replaces one entry, and only under its own id. */
  lemma {:induction false} UpdateReplacesOne(u: RuleIds.Unicode, rules: seq<Rule>, x: bytes, r: Rule, id: bytes)
    requires IdsDistinct(rules)
    ensures Proposed(u, rules, Update(x, r)).Ok? <==> Find(rules, x).Some?
    ensures Find(rules, x).Some? ==>
              var next := Proposed(u, rules, Update(x, r)).value;
              Find(next, id) == if id == x then Some(r.(id := x)) else Find(rules, id)
  {
    var k := IndexOf(rules, x);
    if k < |rules| {
      var next := rules[k := r.(id := x)];
      ProposalKeepsDistinct(u, rules, Update(x, r));
      FindIs(next, k);
      if id != x {
        forall i | 0 <= i < |rules| && rules[i].id != x ensures next[i] == rules[i] && rules[i] in next {
          assert next[i] in next;
        }
        SameFind(rules, next, id, x);
      }
    }
  }

  lemma {:induction false} WithoutMembers(rules: seq<Rule>, k: nat)
    requires IdsDistinct(rules) && k < |rules|
    ensures var next := rules[..k] + rules[k + 1..];
            forall r :: r in next <==> r in rules && r.id != rules[k].id
  {
    var next := rules[..k] + rules[k + 1..];
    forall r ensures r in next <==> r in rules && r.id != rules[k].id {
      if r in next {
        var j :| 0 <= j < |next| && next[j] == r;
        assert r == rules[if j < k then j else j + 1];
      }
      if r in rules && r.id != rules[k].id {
        var i :| 0 <= i < |rules| && rules[i] == r;
        assert next[if i < k then i else i - 1] == r;
      }
    }
  }

  /** Delete removes one entry. */
  lemma {:induction false} DeleteRemovesOne(u: RuleIds.Unicode, rules: seq<Rule>, x: bytes, id: bytes)
    requires IdsDistinct(rules)
    ensures Proposed(u, rules, Delete(x)).Ok? <==> Find(rules, x).Some?
    ensures Find(rules, x).Some? ==>
              Find(Proposed(u, rules, Delete(x)).value, id) == if id == x then None else Find(rules, id)
  {
    var k := IndexOf(rules, x);
    if k < |rules| {
      var next := rules[..k] + rules[k + 1..];
      WithoutMembers(rules, k);
      ProposalKeepsDistinct(u, rules, Delete(x));
      assert Proposed(u, rules, Delete(x)).value == next;
      hide IdsDistinct, Proposed;
      if id == x {
        FindsNothing(next, x);
      } else {
        SameFind(rules, next, id, x);
      }
    }
  }

  lemma {:induction false} FindsNothing(rules: seq<Rule>, id: bytes)
    requires forall r :: r in rules ==> r.id != id
    ensures Find(rules, id) == None
  {
  }

  /** In the list a new rule goes last, a replacement where the old one stood, and a removal closes the gap. */
  lemma {:induction false} ProposalPlaces(u: RuleIds.Unicode, rules: seq<Rule>, r: Rule, x: bytes) returns (k: nat)
    ensures Proposed(u, rules, Create(r)).Ok? ==> Proposed(u, rules, Create(r)).value == rules + [WithId(u, rules, r)]
    ensures k <= |rules| && (forall j :: 0 <= j < k ==> rules[j].id != x) && (k < |rules| ==> rules[k].id == x)
    ensures k == |rules| ==> Proposed(u, rules, Update(x, r)) == Proposed(u, rules, Delete(x)) == Fail(NotFound)
    ensures k < |rules| ==>
              var updated, deleted := Proposed(u, rules, Update(x, r)), Proposed(u, rules, Delete(x));
              updated.Ok? && |updated.value| == |rules|
              && (forall i :: 0 <= i < |rules| ==> updated.value[i] == if i == k then r.(id := x) else rules[i])
              && deleted.Ok? && |deleted.value| == |rules| - 1
              && forall i :: 0 <= i < |rules| - 1 ==> deleted.value[i] == if i < k then rules[i] else rules[i + 1]
  {
    k := IndexOf(rules, x);
    hide WithId, IndexOf;
  }

  /** The rule that is stored is the one given, but for an id when it has none. */
  lemma {:induction false} StoredRuleIs(u: RuleIds.Unicode, rules: seq<Rule>, r: Rule)
    ensures r.id != "" ==> WithId(u, rules, r) == r
    ensures r.id == "" ==>
              WithId(u, rules, r) == r.(id := WithId(u, rules, r).id) && WithId(u, rules, r).id != ""
              && (forall i :: 0 <= i < |rules| ==> rules[i].id != WithId(u, rules, r).id)
              && exists n: nat :: WithId(u, rules, r).id == RuleIds.Candidate(RuleIds.Base(u, r.description), n)
                                  && forall j :: 0 <= j < n ==> RuleIds.Candidate(RuleIds.Base(u, r.description), j) in IdSet(rules)
  {
    if r.id == "" {
      RuleIds.FirstFreeIsNear(RuleIds.Base(u, r.description), IdSet(rules), 0);
      hide RuleIds.Candidate, RuleIds.Base, RuleIds.FirstFree;
      forall i | 0 <= i < |rules| ensures rules[i].id in IdSet(rules) {
      }
    }
  }

  /** Two lists that hold the same rules but for one id give the same answer for every other id. */
  lemma {:induction false} SameFind(a: seq<Rule>, b: seq<Rule>, id: bytes, except: bytes)
    requires IdsDistinct(a) && IdsDistinct(b)
    requires forall r: Rule :: r.id != except ==> (r in a <==> r in b)
    ensures id != except ==> Find(a, id) == Find(b, id)
  {
  }

  /** Reorder lists name no existing rule twice, and imported rules have ids of their own. */
  predicate OpOk(rules: seq<Rule>, op: Op) {
    (op.Reorder? ==> NoRepeats(rules, op.ids))
    && (op.Import? ==> IdsDistinct(op.rules) && IdsNonEmpty(op.rules))
  }

  lemma {:induction false} WithoutIsDistinct(rules: seq<Rule>, k: nat)
    requires IdsDistinct(rules) && k < |rules|
    ensures IdsDistinct(rules[..k] + rules[k + 1..])
  {
    var next := rules[..k] + rules[k + 1..];
    assert forall i :: 0 <= i < |next| ==> next[i] == rules[if i < k then i else i + 1];
  }

  lemma {:induction false} ReplacedIsDistinct(rules: seq<Rule>, k: nat, r: Rule)
    requires IdsDistinct(rules) && k < |rules| && r.id == rules[k].id
    ensures IdsDistinct(rules[k := r])
  {
    assert forall i :: 0 <= i < |rules| ==> rules[k := r][i].id == rules[i].id;
  }

  lemma {:induction false} ProposalKeepsDistinct(u: RuleIds.Unicode, rules: seq<Rule>, op: Op)
    requires IdsDistinct(rules) && OpOk(rules, op) && Proposed(u, rules, op).Ok?
    ensures IdsDistinct(Proposed(u, rules, op).value)
  {
    match op
    case Reorder(ids) => ReorderDistinctIffNoRepeats(rules, ids);
    case Create(r) => DistinctLast(rules, WithId(u, rules, r));
    case Update(id, r) => ReplacedIsDistinct(rules, IndexOf(rules, id), r.(id := id));
    case Delete(id) => WithoutIsDistinct(rules, IndexOf(rules, id));
    case Import(_) =>
  }

  lemma {:induction false} ReorderKeepsNonEmpty(rules: seq<Rule>, ids: seq<bytes>)
    requires IdsNonEmpty(rules)
    ensures IdsNonEmpty(Reordered(rules, ids))
  {
    var m := ById(rules);
    var a, b := Listed(m, ids), Unlisted(rules, ids);
    ListedMembers(m, ids);
    UnlistedMembers(rules, ids);
    hide ById, Listed, Unlisted, IdsDistinct;
    forall r | r in rules ensures r.id != [] {
      var k :| 0 <= k < |rules| && rules[k] == r;
    }
    var all: seq<Rule> := a + b;
    forall i | 0 <= i < |all| ensures all[i].id != [] {
      assert all[i] in a || all[i] in b;
    }
  }

  lemma {:induction false} CreateKeepsNonEmpty(u: RuleIds.Unicode, rules: seq<Rule>, r: Rule)
    requires IdsNonEmpty(rules)
    ensures IdsNonEmpty(rules + [WithId(u, rules, r)])
  {
    assert WithId(u, rules, r).id != [];
    hide WithId;
  }

  lemma {:induction false} ProposalKeepsNonEmpty(u: RuleIds.Unicode, rules: seq<Rule>, op: Op)
    requires IdsNonEmpty(rules) && OpOk(rules, op) && Proposed(u, rules, op).Ok?
    ensures IdsNonEmpty(Proposed(u, rules, op).value)
  {
    hide WithId, Reordered, IdsDistinct, NoRepeats;
    match op
    case Reorder(ids) => ReorderKeepsNonEmpty(rules, ids);
    case Create(r) => CreateKeepsNonEmpty(u, rules, r);
    case _ =>
  }

  lemma {:induction false} StepKeepsDistinct(lib: Lib, u: RuleIds.Unicode, rules: seq<Rule>, op: Op, w: Write)
    requires IdsDistinct(rules) && OpOk(rules, op)
    ensures IdsDistinct(After(lib, u, rules, op, w))
  {
    if Proposed(u, rules, op).Ok? {
      ProposalKeepsDistinct(u, rules, op);
    }
  }

  /** The mutations in turn, each with how its write goes. */
  type Calls = seq<(Op, Write)>

  predicate CallsOk(lib: Lib, u: RuleIds.Unicode, rules: seq<Rule>, calls: Calls)
    decreases |calls|
  {
    calls != [] ==>
      OpOk(rules, calls[0].0) && CallsOk(lib, u, After(lib, u, rules, calls[0].0, calls[0].1), calls[1..])
  }

  function AfterAll(lib: Lib, u: RuleIds.Unicode, rules: seq<Rule>, calls: Calls): seq<Rule>
    decreases |calls|
  {
    if calls == [] then rules else AfterAll(lib, u, After(lib, u, rules, calls[0].0, calls[0].1), calls[1..])
  }

  /** The mutations take effect one after another, the last one last. */
  lemma {:induction false} RunEndsWith(lib: Lib, u: RuleIds.Unicode, rules: seq<Rule>, calls: Calls, op: Op, w: Write)
    ensures AfterAll(lib, u, rules, calls + [(op, w)]) == After(lib, u, AfterAll(lib, u, rules, calls), op, w)
    decreases |calls|
  {
    hide After;
    if calls != [] {
      assert (calls + [(op, w)])[1..] == calls[1..] + [(op, w)];
      RunEndsWith(lib, u, After(lib, u, rules, calls[0].0, calls[0].1), calls[1..], op, w);
    } else {
      assert [(op, w)][1..] == [];
    }
  }

  /** Every run of mutations keeps ids distinct and not empty and the stored rules compilable. */
  lemma {:induction false} RunsKeepRulesSound(lib: Lib, u: RuleIds.Unicode, rules: seq<Rule>, calls: Calls)
    requires IdsDistinct(rules) && IdsNonEmpty(rules) && Compiles(lib, rules) && CallsOk(lib, u, rules, calls)
    ensures var out := AfterAll(lib, u, rules, calls);
            IdsDistinct(out) && IdsNonEmpty(out) && Compiles(lib, out)
    decreases |calls|
  {
    if calls != [] {
      var op := calls[0].0;
      StepKeepsDistinct(lib, u, rules, op, calls[0].1);
      if Proposed(u, rules, op).Ok? {
        ProposalKeepsNonEmpty(u, rules, op);
      }
      hide Proposed, IdsDistinct, IdsNonEmpty, Compiles, OpOk;
      RunsKeepRulesSound(lib, u, After(lib, u, rules, op, calls[0].1), calls[1..]);
    }
  }

  /** So on every store that such a run leads to, following cursors is complete. */
  lemma {:induction false} ReachablePagesAreComplete(lib: Lib, u: RuleIds.Unicode, rules: seq<Rule>, calls: Calls,
                                                     limit: nat, fuel: nat)
    requires IdsDistinct(rules) && IdsNonEmpty(rules) && Compiles(lib, rules) && CallsOk(lib, u, rules, calls)
    requires limit >= 1
    ensures var out := AfterAll(lib, u, rules, calls);
            var n := PageCount(|out|, limit);
            var walk := Follow(out, limit, [], fuel);
            if fuel >= n then walk == Walk(out, n, true) else !walk.finished && walk.pages == fuel
  {
    RunsKeepRulesSound(lib, u, rules, calls);
    PaginationIsComplete(AfterAll(lib, u, rules, calls), limit, fuel);
  }

  /** Create never changes the rule chosen for a request that already matched one. */
  lemma {:induction false} CreateKeepsChoices(lib: Lib, u: RuleIds.Unicode, rules: seq<Rule>, r: Rule,
                           w: Write, before: Matcher, after: Matcher, verb: bytes, path: bytes)
    requires IsMatcherOf(lib, before, rules) && IsMatcherOf(lib, after, After(lib, u, rules, Create(r), w))
    requires Choose(lib, before, verb, path).Some?
    ensures Choose(lib, after, verb, path) == Choose(lib, before, verb, path)
  {
    hide IsMatcherOf, Choose, Compiles, WithId;
    var next := After(lib, u, rules, Create(r), w);
    assert rules <= next;
    MatcherExtends(lib, rules, next, before, after);
    AppendKeepsChoice(lib, before, after[|rules|..], verb, path);
  }

  lemma {:induction false} MatcherExtends(lib: Lib, rules: seq<Rule>, next: seq<Rule>, before: Matcher, after: Matcher)
    requires IsMatcherOf(lib, before, rules) && IsMatcherOf(lib, after, next) && rules <= next
    ensures |rules| <= |after| && after == before + after[|rules|..]
  {
  }
}
