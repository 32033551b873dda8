/** Community search: the builder of the query parts, the builder of the count queries, and what both mean. */
module Search {
  import opened Wrappers
  import opened Paging

  // ----- Tables -----

  datatype Kind = Issue | Discussion | WikiPage | Proposal

  function Name(k: Kind): string {
    match k
    case Issue => "ISSUE"
    case Discussion => "DISCUSSION"
    case WikiPage => "WIKI_PAGE"
    case Proposal => "PROPOSAL"
  }

  /** A row as a condition sees it; `body` may be NULL. */
  datatype Row = Row(id: nat, skillId: int, title: string, body: Option<string>)

  datatype Wiki = Wiki(id: nat, skillId: int, title: string, currentVersionId: Option<nat>)

  datatype Version = Version(id: nat, body: string)

  datatype Database = Database(
    issues: seq<Row>, discussions: seq<Row>, wikis: seq<Wiki>, versions: seq<Version>, proposals: seq<Row>)

  /** The primary key of the wiki version table. */
  ghost predicate UniqueIds(versions: seq<Version>) {
    forall i, j :: 0 <= i < j < |versions| ==> versions[i].id != versions[j].id
  }

  datatype Item = Item(kind: string, id: nat, skillId: int, title: string, snippet: string)

  // ----- Queries -----

  /** Conditions over a row; `$n` are the numbered parameters. */
  datatype Cond =
    | SkillIs(n: nat)
    | IsEmpty(n: nat)
    | TitleLike(n: nat)
    | BodyLike(n: nat)
    | And(a: Cond, b: Cond)
    | Or(a: Cond, b: Cond)

  datatype Value = Number(number: int) | Text(text: string)

  /** A `SELECT` over one table; `joined` adds the left join of a wiki page with its current version. */
  datatype Select = Select(kind: Kind, joined: bool, cond: Cond)

  function Params(c: Cond): set<nat> {
    match c
    case SkillIs(n) => {n}
    case IsEmpty(n) => {n}
    case TitleLike(n) => {n}
    case BodyLike(n) => {n}
    case And(a, b) => Params(a) + Params(b)
    case Or(a, b) => Params(a) + Params(b)
  }

  /** Every parameter is bound, to a value of the right type. */
  predicate Bound(c: Cond, args: seq<Value>) {
    match c
    case SkillIs(n) => 1 <= n <= |args| && args[n - 1].Number?
    case IsEmpty(n) => 1 <= n <= |args| && args[n - 1].Text?
    case TitleLike(n) => 1 <= n <= |args| && args[n - 1].Text?
    case BodyLike(n) => 1 <= n <= |args| && args[n - 1].Text?
    case And(a, b) => Bound(a, args) && Bound(b, args)
    case Or(a, b) => Bound(a, args) && Bound(b, args)
  }

  /** Three-valued logic. */
  datatype Truth = True | False | Unknown

  function Known(b: bool): Truth {
    if b then True else False
  }

  /** The value of a condition; `like` is the case-insensitive containment test, whatever its wildcards mean. */
  function Eval(c: Cond, row: Row, args: seq<Value>, like: (string, string) -> bool): Truth
    requires Bound(c, args)
  {
    match c
    case SkillIs(n) => Known(row.skillId == args[n - 1].number)
    case IsEmpty(n) => Known(args[n - 1].text == "")
    case TitleLike(n) => Known(like(row.title, args[n - 1].text))
    case BodyLike(n) => if row.body.None? then Unknown else Known(like(row.body.value, args[n - 1].text))
    case And(a, b) =>
      var x, y := Eval(a, row, args, like), Eval(b, row, args, like);
      if x.False? || y.False? then False else if x.True? && y.True? then True else Unknown
    case Or(a, b) =>
      var x, y := Eval(a, row, args, like), Eval(b, row, args, like);
      if x.True? || y.True? then True else if x.False? && y.False? then False else Unknown
  }

  /** The rows kept by a condition: those where it is true, not unknown. */
  function Kept(rows: seq<Row>, c: Cond, args: seq<Value>, like: (string, string) -> bool): seq<Row>
    requires Bound(c, args)
  {
    if rows == [] then []
    else
      (if Eval(c, rows[0], args, like).True? then [rows[0]] else []) + Kept(rows[1..], c, args, like)
  }

  /** The versions with a page's current version id. */
  function Bodies(id: Option<nat>, versions: seq<Version>): seq<string> {
    if versions == [] then []
    else (if Some(versions[0].id) == id then [versions[0].body] else []) + Bodies(id, versions[1..])
  }

  function Row1(w: Wiki, body: Option<string>): Row {
    Row(w.id, w.skillId, w.title, body)
  }

  /** The rows of one page: one per matching version, or one with a NULL body. */
  function PageRows(w: Wiki, versions: seq<Version>): seq<Row> {
    var bodies := Bodies(w.currentVersionId, versions);
    if bodies == [] then [Row1(w, None)]
    else seq(|bodies|, i requires 0 <= i < |bodies| => Row1(w, Some(bodies[i])))
  }

  function LeftJoin(wikis: seq<Wiki>, versions: seq<Version>): seq<Row> {
    if wikis == [] then [] else PageRows(wikis[0], versions) + LeftJoin(wikis[1..], versions)
  }

  function Plain(wikis: seq<Wiki>): seq<Row> {
    if wikis == [] then [] else [Row1(wikis[0], None)] + Plain(wikis[1..])
  }

  function From(db: Database, kind: Kind, joined: bool): seq<Row> {
    match kind
    case Issue => db.issues
    case Discussion => db.discussions
    case WikiPage => if joined then LeftJoin(db.wikis, db.versions) else Plain(db.wikis)
    case Proposal => db.proposals
  }

  function Items(kind: Kind, rows: seq<Row>): (items: seq<Item>)
    ensures |items| == |rows|
  {
    seq(|rows|, i requires 0 <= i < |rows| =>
      Item(Name(kind), rows[i].id, rows[i].skillId, rows[i].title,
           if rows[i].body.Some? then rows[i].body.value else ""))
  }

  function Execute(db: Database, q: Select, args: seq<Value>, like: (string, string) -> bool): seq<Item>
    requires Bound(q.cond, args)
  {
    Items(q.kind, Kept(From(db, q.kind, q.joined), q.cond, args, like))
  }

  function UnionAll(db: Database, parts: seq<Select>, args: seq<Value>, like: (string, string) -> bool): seq<Item>
    requires forall i :: 0 <= i < |parts| ==> Bound(parts[i].cond, args)
  {
    if parts == [] then [] else Execute(db, parts[0], args, like) + UnionAll(db, parts[1..], args, like)
  }

  // ----- The reference: what a search is meant to find -----

  predicate UseTable(types: seq<string>, name: string) {
    types == [] || name in types
  }

  predicate Matches(row: Row, skillId: int, query: string, like: (string, string) -> bool) {
    && row.skillId == skillId
    && (query == "" || like(row.title, query) || (row.body.Some? && like(row.body.value, query)))
  }

  function Matching(rows: seq<Row>, skillId: int, query: string, like: (string, string) -> bool): seq<Row> {
    if rows == [] then []
    else (if Matches(rows[0], skillId, query, like) then [rows[0]] else []) + Matching(rows[1..], skillId, query, like)
  }

  function Pick(types: seq<string>, kind: Kind): seq<Kind> {
    if UseTable(types, Name(kind)) then [kind] else []
  }

  /** The chosen kinds, in order. */
  function Chosen(types: seq<string>): seq<Kind> {
    [] + Pick(types, Issue) + Pick(types, Discussion) + Pick(types, WikiPage) + Pick(types, Proposal)
  }

  function Found(
    db: Database, kinds: seq<Kind>, skillId: int, query: string, like: (string, string) -> bool): seq<Item>
  {
    if kinds == [] then []
    else
      Items(kinds[0], Matching(From(db, kinds[0], true), skillId, query, like)) +
      Found(db, kinds[1..], skillId, query, like)
  }

  // ----- The builders -----

  predicate Typed(args: seq<Value>, n: nat) {
    2 <= n <= |args| && args[0].Number? && args[n - 1].Text?
  }

  function LikeCond(n: nat): (c: Cond)
    ensures Params(c) == {n}
    ensures forall args: seq<Value> :: Typed(args, n) ==> Bound(c, args)
  {
    Or(TitleLike(n), BodyLike(n))
  }

  function SearchCond(n: nat): (c: Cond)
    ensures Params(c) == {1, n}
    ensures forall args: seq<Value> :: Typed(args, n) ==> Bound(c, args)
  {
    var like := LikeCond(n);
    var text := Or(IsEmpty(n), like);
    assert Params(text) == {n};
    assert forall args: seq<Value> :: Typed(args, n) ==> Bound(text, args);
    And(SkillIs(1), text)
  }

  function CountCond(): (c: Cond)
    ensures forall args: seq<Value> :: Typed(args, 2) ==> Bound(c, args)
  {
    And(SkillIs(1), LikeCond(2))
  }

  /** One part per chosen kind; part `i` uses parameter `i + 2` beside the skill's `$1`. */
  function Parts(kinds: seq<Kind>): (parts: seq<Select>)
    ensures |parts| == |kinds|
  {
    seq(|kinds|, i requires 0 <= i < |kinds| => Select(kinds[i], kinds[i].WikiPage?, SearchCond(i + 2)))
  }

  predicate AllText(args: seq<Value>, query: string, n: nat) {
    |args| == n && forall i :: 0 <= i < n ==> args[i] == Text(query)
  }

  lemma AllTextNext(args: seq<Value>, query: string, n: nat)
    requires AllText(args, query, n)
    ensures AllText(args + [Text(query)], query, n + 1)
  {
  }

  method BuildSearchParts(query: string, types: seq<string>) returns (parts: seq<Select>, args: seq<Value>)
    ensures parts == Parts(Chosen(types))
    ensures AllText(args, query, |parts|)
  {
    BuiltNone(query);
    hide Built, SearchCond, UseTable, Pick;
    parts, args := [], [];
    var next := 2;
    ghost var kinds: seq<Kind> := [];
    BuiltNext(query, types, kinds, Issue, parts, args, next);
    if UseTable(types, "ISSUE") {
      parts := parts + [Select(Issue, false, SearchCond(next))];
      args := args + [Text(query)];
      next := next + 1;
    }
    kinds := kinds + Pick(types, Issue);
    BuiltNext(query, types, kinds, Discussion, parts, args, next);
    if UseTable(types, "DISCUSSION") {
      parts := parts + [Select(Discussion, false, SearchCond(next))];
      args := args + [Text(query)];
      next := next + 1;
    }
    kinds := kinds + Pick(types, Discussion);
    BuiltNext(query, types, kinds, WikiPage, parts, args, next);
    if UseTable(types, "WIKI_PAGE") {
      parts := parts + [Select(WikiPage, true, SearchCond(next))];
      args := args + [Text(query)];
      next := next + 1;
    }
    kinds := kinds + Pick(types, WikiPage);
    BuiltNext(query, types, kinds, Proposal, parts, args, next);
    if UseTable(types, "PROPOSAL") {
      parts := parts + [Select(Proposal, false, SearchCond(next))];
      args := args + [Text(query)];
      next := next + 1;
    }
    kinds := kinds + Pick(types, Proposal);
    AllBuilt(query, kinds, parts, args, next);
  }

  /** The parts for these kinds, an argument for each, and the number of the next parameter. */
  predicate Built(query: string, kinds: seq<Kind>, parts: seq<Select>, args: seq<Value>, next: int) {
    parts == Parts(kinds) && AllText(args, query, |parts|) && next == |parts| + 2
  }

  lemma BuiltNone(query: string)
    ensures Built(query, [], [], [], 2)
  {
    PartsNone();
  }

  lemma BuiltNext(query: string, types: seq<string>, kinds: seq<Kind>, kind: Kind, parts: seq<Select>,
    args: seq<Value>, next: int)
    requires Built(query, kinds, parts, args, next)
    ensures if UseTable(types, Name(kind)) then
              Built(query, kinds + Pick(types, kind), parts + [Select(kind, kind.WikiPage?, SearchCond(next))],
                    args + [Text(query)], next + 1)
            else
              Built(query, kinds + Pick(types, kind), parts, args, next)
  {
    PartsNext(types, kinds, kind);
    AllTextNext(args, query, |parts|);
    hide Parts, AllText, SearchCond, UseTable, Pick, Name;
    assert parts + [] == parts;
  }

  lemma AllBuilt(query: string, kinds: seq<Kind>, parts: seq<Select>, args: seq<Value>, next: int)
    requires Built(query, kinds, parts, args, next)
    ensures parts == Parts(kinds) && AllText(args, query, |parts|)
  {
  }

  lemma PartsNext(types: seq<string>, kinds: seq<Kind>, kind: Kind)
    ensures Parts(kinds + Pick(types, kind)) == Parts(kinds) +
      if UseTable(types, Name(kind)) then [Select(kind, kind.WikiPage?, SearchCond(|kinds| + 2))] else []
  {
    hide Parts, UseTable, Name, SearchCond;
    PartsAppend(kinds, kind);
    assert kinds + [] == kinds;
    assert Parts(kinds) + [] == Parts(kinds);
  }

  lemma PartsNone()
    ensures Parts([]) == []
  {
  }

  lemma PartsAppend(kinds: seq<Kind>, kind: Kind)
    ensures Parts(kinds + [kind]) == Parts(kinds) + [Select(kind, kind.WikiPage?, SearchCond(|kinds| + 2))]
  {
    hide SearchCond;
  }

  // ----- Search -----

  /** The arguments of the whole query: the skill, one text per part, then the limit and the offset. */
  function AllArgs(skillId: int, args: seq<Value>, limit: nat, offset: nat): seq<Value> {
    [Number(skillId)] + args + [Number(limit), Number(offset)]
  }

  /** Part `i` uses `$1` and `$(i+2)` alone, bound to the skill and the query; the limit and the offset come next. */
  lemma ParametersBound(
    kinds: seq<Kind>, i: nat, skillId: int, args: seq<Value>, query: string, limit: nat, offset: nat)
    requires i < |kinds| && AllText(args, query, |kinds|)
    ensures var all, c, next := AllArgs(skillId, args, limit, offset), Parts(kinds)[i].cond, |args| + 2;
      && Params(c) == {1, i + 2} && Bound(c, all)
      && all[0] == Number(skillId) && all[i + 1] == Text(query)
      && |all| == next + 1 && all[next - 1] == Number(limit) && all[next] == Number(offset)
      && next !in Params(c) && next + 1 !in Params(c)
  {
  }

  /** A search condition is true of exactly the matching rows, NULL bodies included. */
  lemma SearchCondTrue(
    row: Row, n: nat, args: seq<Value>, skillId: int, query: string, like: (string, string) -> bool)
    requires 2 <= n <= |args| && args[0] == Number(skillId) && args[n - 1] == Text(query)
    ensures Eval(SearchCond(n), row, args, like).True? <==> Matches(row, skillId, query, like)
  {
    assert Typed(args, n);
    LikeTrue(row, n, args, query, like);
    var text := Or(IsEmpty(n), LikeCond(n));
    assert SearchCond(n) == And(SkillIs(1), text) && Bound(text, args);
    assert Eval(text, row, args, like).True? <==> query == "" || Eval(LikeCond(n), row, args, like).True?;
  }

  lemma LikeTrue(row: Row, n: nat, args: seq<Value>, query: string, like: (string, string) -> bool)
    requires Typed(args, n) && args[n - 1] == Text(query)
    ensures Eval(LikeCond(n), row, args, like).True?
            <==> like(row.title, query) || (row.body.Some? && like(row.body.value, query))
  {
  }

  lemma {:induction false} KeptMatching(
    rows: seq<Row>, n: nat, args: seq<Value>, skillId: int, query: string, like: (string, string) -> bool)
    requires 2 <= n <= |args| && args[0] == Number(skillId) && args[n - 1] == Text(query)
    ensures Kept(rows, SearchCond(n), args, like) == Matching(rows, skillId, query, like)
    decreases |rows|
  {
    if rows != [] {
      SearchCondTrue(rows[0], n, args, skillId, query, like);
      KeptMatching(rows[1..], n, args, skillId, query, like);
      hide SearchCond, Eval, Matches;
    }
  }

  ghost predicate PartsFor(
    parts: seq<Select>, kinds: seq<Kind>, args: seq<Value>, skillId: int, query: string)
  {
    && |parts| == |kinds| && args != [] && args[0] == Number(skillId)
    && forall i :: 0 <= i < |parts| ==> PartFor(parts[i], kinds[i], args, query)
  }

  /** A part that asks for `kind` with one bound text parameter. */
  ghost predicate PartFor(part: Select, kind: Kind, args: seq<Value>, query: string) {
    && part.kind == kind && part.joined == kind.WikiPage?
    && exists n :: 2 <= n <= |args| && args[n - 1] == Text(query) && part.cond == SearchCond(n)
  }

  lemma PartForBound(part: Select, kind: Kind, args: seq<Value>, skillId: int, query: string)
    requires args != [] && args[0] == Number(skillId) && PartFor(part, kind, args, query)
    ensures Bound(part.cond, args)
  {
  }

  lemma PartMeaning(
    db: Database, part: Select, kind: Kind, args: seq<Value>, skillId: int, query: string,
    like: (string, string) -> bool)
    requires args != [] && args[0] == Number(skillId) && PartFor(part, kind, args, query)
    ensures Bound(part.cond, args)
    ensures Execute(db, part, args, like) == Items(kind, Matching(From(db, kind, true), skillId, query, like))
  {
    PartForBound(part, kind, args, skillId, query);
    var n :| 2 <= n <= |args| && args[n - 1] == Text(query) && part.cond == SearchCond(n);
    KeptMatching(From(db, kind, true), n, args, skillId, query, like);
    assert From(db, kind, part.joined) == From(db, kind, true);
    hide From, Kept, Matching, Bound, SearchCond;
  }

  lemma {:induction false} UnionMeaning(
    db: Database, parts: seq<Select>, kinds: seq<Kind>, args: seq<Value>, skillId: int, query: string,
    like: (string, string) -> bool)
    requires PartsFor(parts, kinds, args, skillId, query)
    ensures forall i :: 0 <= i < |parts| ==> Bound(parts[i].cond, args)
    ensures UnionAll(db, parts, args, like) == Found(db, kinds, skillId, query, like)
    decreases |parts|
  {
    if parts != [] {
      hide PartFor, Bound, From, Execute, Matching;
      PartMeaning(db, parts[0], kinds[0], args, skillId, query, like);
      UnionMeaning(db, parts[1..], kinds[1..], args, skillId, query, like);
      assert forall i :: 1 <= i < |parts| ==> parts[i] == parts[1..][i - 1];
    }
  }

  lemma BuiltPartsFor(
    kinds: seq<Kind>, args: seq<Value>, skillId: int, query: string, limit: nat, offset: nat)
    requires AllText(args, query, |kinds|)
    ensures PartsFor(Parts(kinds), kinds, AllArgs(skillId, args, limit, offset), skillId, query)
  {
    var all := AllArgs(skillId, args, limit, offset);
    hide SearchCond;
    forall i | 0 <= i < |kinds|
      ensures PartFor(Parts(kinds)[i], kinds[i], all, query)
    {
      assert all[i + 2 - 1] == Text(query);
    }
  }

  ghost predicate Permutes(sort: seq<Item> -> seq<Item>) {
    forall items :: multiset(sort(items)) == multiset(items)
  }

  /** `sort` is the database's order by type and title, whatever it does with ties. */
  method Search(
    db: Database, skillId: int, query: string, types: seq<string>, offset: nat, limit: nat,
    like: (string, string) -> bool, sort: seq<Item> -> seq<Item>) returns (rows: seq<Item>)
    requires Permutes(sort)
    ensures rows == Limited(sort(Found(db, Chosen(types), skillId, query, like)), limit, offset)
  {
    hide Chosen, Parts, Found;
    var parts, args := BuildSearchParts(query, types);
    var kinds := Chosen(types);
    BuiltPartsFor(kinds, args, skillId, query, limit, offset);
    var next := |args| + 2;
    var all := AllArgs(skillId, args, limit, offset);
    UnionMeaning(db, parts, kinds, all, skillId, query, like);
    if |parts| == 0 {
      var none: seq<Item> := [];
      assert multiset(sort(none)) == multiset(none);
      assert |sort(none)| == |multiset(sort(none))|;
      return [];
    }
    assert all[next - 1] == Number(limit) && all[next] == Number(offset);
    rows := Limited(sort(UnionAll(db, parts, all, like)), all[next - 1].number, all[next].number);
  }

  // ----- Count -----

  datatype CountQuery = CountQuery(select: Select, args: seq<Value>)

  /** The count query of one table: without a query text it neither filters nor joins. */
  function CountOf(kind: Kind, skillId: int, query: string): CountQuery {
    if query == "" then CountQuery(Select(kind, false, SkillIs(1)), [Number(skillId)])
    else
      CountQuery(Select(kind, kind.WikiPage?, CountCond()),
                 [Number(skillId), Text(query)])
  }

  function Counts(kinds: seq<Kind>, skillId: int, query: string): (queries: seq<CountQuery>)
    ensures |queries| == |kinds|
  {
    seq(|kinds|, i requires 0 <= i < |kinds| => CountOf(kinds[i], skillId, query))
  }

  method BuildCountQueries(skillId: int, query: string, types: seq<string>) returns (queries: seq<CountQuery>)
    ensures queries == Counts(Chosen(types), skillId, query)
  {
    CountsNone(skillId, query);
    hide Counts, UseTable, Pick, CountCond;
    queries := [];
    ghost var kinds: seq<Kind> := [];
    if UseTable(types, "ISSUE") {
      var q := if query == "" then CountQuery(Select(Issue, false, SkillIs(1)), [Number(skillId)])
               else CountQuery(Select(Issue, false, CountCond()), [Number(skillId), Text(query)]);
      queries := queries + [q];
    }
    CountsNext(types, kinds, Issue, skillId, query);
    kinds := kinds + Pick(types, Issue);
    assert queries == Counts(kinds, skillId, query);
    if UseTable(types, "DISCUSSION") {
      var q := if query == "" then CountQuery(Select(Discussion, false, SkillIs(1)), [Number(skillId)])
               else CountQuery(Select(Discussion, false, CountCond()), [Number(skillId), Text(query)]);
      queries := queries + [q];
    }
    CountsNext(types, kinds, Discussion, skillId, query);
    kinds := kinds + Pick(types, Discussion);
    assert queries == Counts(kinds, skillId, query);
    if UseTable(types, "WIKI_PAGE") {
      var q := if query == "" then CountQuery(Select(WikiPage, false, SkillIs(1)), [Number(skillId)])
               else CountQuery(Select(WikiPage, true, CountCond()), [Number(skillId), Text(query)]);
      queries := queries + [q];
    }
    CountsNext(types, kinds, WikiPage, skillId, query);
    kinds := kinds + Pick(types, WikiPage);
    assert queries == Counts(kinds, skillId, query);
    if UseTable(types, "PROPOSAL") {
      var q := if query == "" then CountQuery(Select(Proposal, false, SkillIs(1)), [Number(skillId)])
               else CountQuery(Select(Proposal, false, CountCond()), [Number(skillId), Text(query)]);
      queries := queries + [q];
    }
    CountsNext(types, kinds, Proposal, skillId, query);
    kinds := kinds + Pick(types, Proposal);
    assert queries == Counts(kinds, skillId, query);
  }

  lemma CountsNone(skillId: int, query: string)
    ensures Counts([], skillId, query) == []
  {
  }

  lemma CountsNext(types: seq<string>, kinds: seq<Kind>, kind: Kind, skillId: int, query: string)
    ensures Counts(kinds + Pick(types, kind), skillId, query) == Counts(kinds, skillId, query) +
      if UseTable(types, Name(kind)) then [CountOf(kind, skillId, query)] else []
  {
    hide UseTable, Name, CountOf;
    assert kinds + [] == kinds;
    assert Counts(kinds, skillId, query) + [] == Counts(kinds, skillId, query);
  }

  method Count(
    db: Database, skillId: int, query: string, types: seq<string>, like: (string, string) -> bool)
    returns (total: nat)
    requires UniqueIds(db.versions)
    ensures total == |Found(db, Chosen(types), skillId, query, like)|
  {
    hide Chosen, UniqueIds;
    var queries := BuildCountQueries(skillId, query, types);
    ghost var kinds := Chosen(types);
    total := 0;
    for i := 0 to |queries|
      invariant total + |Found(db, kinds[i..], skillId, query, like)| == |Found(db, kinds, skillId, query, like)|
    {
      var q := queries[i];
      CountMeaning(db, kinds[i], skillId, query, like);
      assert kinds[i..][1..] == kinds[i + 1..];
      total := total + |Execute(db, q.select, q.args, like)|;
    }
  }

  /** One table's count is the number of rows the search finds there. */
  lemma CountMeaning(db: Database, kind: Kind, skillId: int, query: string, like: (string, string) -> bool)
    requires UniqueIds(db.versions)
    ensures var q := CountOf(kind, skillId, query);
      && Bound(q.select.cond, q.args)
      && |Execute(db, q.select, q.args, like)| == |Matching(From(db, kind, true), skillId, query, like)|
  {
    var q := CountOf(kind, skillId, query);
    if query != "" {
      KeptByCount(From(db, kind, true), skillId, query, like);
    } else if kind.WikiPage? {
      JoinKeepsCount(db.wikis, db.versions, skillId, like);
    } else {
      KeptBySkill(From(db, kind, true), skillId, like);
    }
  }

  lemma CountCondTrue(row: Row, skillId: int, query: string, like: (string, string) -> bool)
    requires query != ""
    ensures Eval(CountCond(), row, [Number(skillId), Text(query)], like).True? <==> Matches(row, skillId, query, like)
  {
    var args := [Number(skillId), Text(query)];
    assert Typed(args, 2);
    LikeTrue(row, 2, args, query, like);
  }

  lemma {:induction false} KeptByCount(
    rows: seq<Row>, skillId: int, query: string, like: (string, string) -> bool)
    requires query != ""
    ensures Kept(rows, CountCond(), [Number(skillId), Text(query)], like)
            == Matching(rows, skillId, query, like)
    decreases |rows|
  {
    if rows != [] {
      CountCondTrue(rows[0], skillId, query, like);
      KeptByCount(rows[1..], skillId, query, like);
      hide CountCond, Eval, Matches;
    }
  }

  lemma {:induction false} KeptBySkill(rows: seq<Row>, skillId: int, like: (string, string) -> bool)
    ensures Kept(rows, SkillIs(1), [Number(skillId)], like) == Matching(rows, skillId, "", like)
    decreases |rows|
  {
    if rows != [] {
      KeptBySkill(rows[1..], skillId, like);
    }
  }

  lemma {:induction false} AtMostOneBody(id: Option<nat>, versions: seq<Version>)
    requires UniqueIds(versions)
    ensures |Bodies(id, versions)| <= 1
    ensures Bodies(id, versions) != [] ==> exists i :: 0 <= i < |versions| && Some(versions[i].id) == id
    decreases |versions|
  {
    if versions != [] {
      AtMostOneBody(id, versions[1..]);
      assert forall i :: 0 <= i < |versions| - 1 ==> versions[1..][i] == versions[i + 1];
    }
  }

  /** The left join by primary key gives one row per page, so joining does not change the unfiltered count. */
  lemma {:induction false} JoinKeepsCount(
    wikis: seq<Wiki>, versions: seq<Version>, skillId: int, like: (string, string) -> bool)
    requires UniqueIds(versions)
    ensures |Kept(Plain(wikis), SkillIs(1), [Number(skillId)], like)|
            == |Matching(LeftJoin(wikis, versions), skillId, "", like)|
    decreases |wikis|
  {
    if wikis != [] {
      AtMostOneBody(wikis[0].currentVersionId, versions);
      JoinKeepsCount(wikis[1..], versions, skillId, like);
      var rest, bodies := LeftJoin(wikis[1..], versions), Bodies(wikis[0].currentVersionId, versions);
      var row := Row1(wikis[0], if bodies == [] then None else Some(bodies[0]));
      assert PageRows(wikis[0], versions) == [row];
      assert Plain(wikis)[1..] == Plain(wikis[1..]);
      assert ([row] + rest)[1..] == rest;
    }
  }

  /** Asking for as many rows as were counted returns every row found, each once. */
  lemma CountedLimitReturnsAll(items: seq<Item>, sort: seq<Item> -> seq<Item>)
    requires Permutes(sort)
    ensures multiset(Limited(sort(items), |items|, 0)) == multiset(items)
  {
    assert multiset(sort(items)) == multiset(items);
    assert |sort(items)| == |multiset(sort(items))| == |multiset(items)| == |items|;
    assert sort(items)[0..|items|] == sort(items);
  }

  // ----- What is found, row by row -----

  /** The rows of the table of that name; a wiki page has the text of its current version, if there is one. */
  ghost predicate Source(db: Database, kind: string, row: Row) {
    match kind
    case "ISSUE" => row in db.issues
    case "DISCUSSION" => row in db.discussions
    case "PROPOSAL" => row in db.proposals
    case "WIKI_PAGE" => exists w :: w in db.wikis && IsPage(w, db.versions, row)
    case _ => false
  }

  ghost predicate IsPage(w: Wiki, versions: seq<Version>, row: Row) {
    && row.id == w.id && row.skillId == w.skillId && row.title == w.title
    && match row.body
       case None => forall v :: v in versions ==> w.currentVersionId != Some(v.id)
       case Some(text) => exists v :: v in versions && w.currentVersionId == Some(v.id) && v.body == text
  }

  lemma {:induction false} BodiesIff(id: Option<nat>, versions: seq<Version>, text: string)
    ensures text in Bodies(id, versions) <==> exists v :: v in versions && Some(v.id) == id && v.body == text
    ensures Bodies(id, versions) == [] <==> forall v :: v in versions ==> Some(v.id) != id
    decreases |versions|
  {
    if versions != [] {
      BodiesIff(id, versions[1..], text);
      assert versions == [versions[0]] + versions[1..];
    }
  }

  lemma PageRowsIff(w: Wiki, versions: seq<Version>, row: Row)
    ensures row in PageRows(w, versions) <==> IsPage(w, versions, row)
  {
    var bodies := Bodies(w.currentVersionId, versions);
    BodiesIff(w.currentVersionId, versions, if row.body.Some? then row.body.value else "");
    hide Bodies;
    if row.body.Some? && row.body.value in bodies {
      var i :| 0 <= i < |bodies| && bodies[i] == row.body.value;
      assert PageRows(w, versions)[i] == Row1(w, row.body);
    }
  }

  lemma {:induction false} JoinIff(wikis: seq<Wiki>, versions: seq<Version>, row: Row)
    ensures row in LeftJoin(wikis, versions) <==> exists w :: w in wikis && IsPage(w, versions, row)
    decreases |wikis|
  {
    if wikis != [] {
      JoinIff(wikis[1..], versions, row);
      PageRowsIff(wikis[0], versions, row);
      assert wikis == [wikis[0]] + wikis[1..];
      hide IsPage, PageRows;
    }
  }

  lemma {:induction false} MatchingIff(
    rows: seq<Row>, skillId: int, query: string, like: (string, string) -> bool, row: Row)
    ensures row in Matching(rows, skillId, query, like) <==> row in rows && Matches(row, skillId, query, like)
    decreases |rows|
  {
    if rows != [] {
      MatchingIff(rows[1..], skillId, query, like, row);
      assert rows == [rows[0]] + rows[1..];
      hide Matches;
    }
  }

  lemma ChosenIff(types: seq<string>, kind: Kind)
    ensures kind in Chosen(types) <==> types == [] || Name(kind) in types
  {
  }

  /** The row as it is shown. */
  predicate IsItem(item: Item, row: Row) {
    && item.id == row.id && item.skillId == row.skillId && item.title == row.title
    && match row.body
       case None => item.snippet == ""
       case Some(text) => item.snippet == text
  }

  lemma ItemsIff(kind: Kind, rows: seq<Row>, item: Item)
    ensures item in Items(kind, rows) <==> item.kind == Name(kind) && exists row :: row in rows && IsItem(item, row)
  {
    if item.kind == Name(kind) {
      if row :| row in rows && IsItem(item, row) {
        var i :| 0 <= i < |rows| && rows[i] == row;
        assert Items(kind, rows)[i] == item;
      }
    }
    if item in Items(kind, rows) {
      var i :| 0 <= i < |rows| && Items(kind, rows)[i] == item;
      assert IsItem(item, rows[i]);
    }
  }

  lemma {:induction false} FoundAmong(
    db: Database, kinds: seq<Kind>, skillId: int, query: string, like: (string, string) -> bool, item: Item)
    ensures item in Found(db, kinds, skillId, query, like) <==>
      exists kind :: kind in kinds && item in Items(kind, Matching(From(db, kind, true), skillId, query, like))
    decreases |kinds|
  {
    if kinds != [] {
      FoundAmong(db, kinds[1..], skillId, query, like, item);
      assert kinds == [kinds[0]] + kinds[1..];
      hide Items, Matching, From;
    }
  }

  lemma SourceIff(db: Database, kind: Kind, row: Row)
    ensures row in From(db, kind, true) <==> Source(db, Name(kind), row)
  {
    if kind.WikiPage? {
      JoinIff(db.wikis, db.versions, row);
    }
  }

  /**
   A search finds exactly the rows of the chosen tables, all of them when none is named, that belong to the skill and
   whose title or text contains the query; each is shown with its text, or with none.
   */
  lemma FoundIff(
    db: Database, types: seq<string>, skillId: int, query: string, like: (string, string) -> bool, item: Item)
    ensures item in Found(db, Chosen(types), skillId, query, like) <==>
      && (types == [] || item.kind in types)
      && exists row :: Source(db, item.kind, row) && IsItem(item, row) && row.skillId == skillId
           && (query == "" || like(row.title, query) || (row.body.Some? && like(row.body.value, query)))
  {
    FoundAmong(db, Chosen(types), skillId, query, like, item);
    if item in Found(db, Chosen(types), skillId, query, like) {
      var kind :| kind in Chosen(types) && item in Items(kind, Matching(From(db, kind, true), skillId, query, like));
      ChosenIff(types, kind);
      ItemsIff(kind, Matching(From(db, kind, true), skillId, query, like), item);
      var row :| row in Matching(From(db, kind, true), skillId, query, like) && IsItem(item, row);
      MatchingIff(From(db, kind, true), skillId, query, like, row);
      SourceIff(db, kind, row);
      hide Source, IsItem, Chosen, From, Items, Matching, Found;
    } else if types == [] || item.kind in types {
      forall row | Source(db, item.kind, row) && IsItem(item, row)
        ensures !Matches(row, skillId, query, like)
      {
        var kind := KindOf(item.kind);
        ChosenIff(types, kind);
        ItemsIff(kind, Matching(From(db, kind, true), skillId, query, like), item);
        MatchingIff(From(db, kind, true), skillId, query, like, row);
        SourceIff(db, kind, row);
        hide Source, IsItem, Chosen, From, Items, Matching, Found;
      }
    }
  }

  function KindOf(name: string): (kind: Kind)
    ensures name in {"ISSUE", "DISCUSSION", "WIKI_PAGE", "PROPOSAL"} ==> Name(kind) == name
  {
    match name
    case "ISSUE" => Issue
    case "DISCUSSION" => Discussion
    case "WIKI_PAGE" => WikiPage
    case _ => Proposal
  }

  /** The tables of the three-valued connectives. */
  lemma Connectives(a: Cond, b: Cond, row: Row, args: seq<Value>, like: (string, string) -> bool)
    requires Bound(a, args) && Bound(b, args)
    ensures var x, y := Eval(a, row, args, like), Eval(b, row, args, like);
      var both, either := Eval(And(a, b), row, args, like), Eval(Or(a, b), row, args, like);
      && (both == True <==> x == True && y == True) && (both == False <==> x == False || y == False)
      && (either == True <==> x == True || y == True) && (either == False <==> x == False && y == False)
  {
  }
}
