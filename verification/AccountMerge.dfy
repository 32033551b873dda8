/**
 Account merging. `InitiateMerge` records a request, `ConfirmMerge` rewrites the ledgers of the two users and
 marks the secondary as merged; its writes are not in one transaction, so a failing one leaves the earlier
 ones in place.
 */
module AccountMerge {
  import opened Wrappers
  import Text
  import Tokens
  import Membership
  import MembershipService

  datatype Status = Active | Inactive | Merged

  datatype User = User(status: Status, email: string, mergedTo: Option<string>)

  type Users = map<string, User>

  datatype Credential = Credential(username: string, passwordHash: string)

  /** An identity at a provider; rows are unique by provider and subject. */
  datatype Identity = Identity(provider: string, subject: string)

  /** A token row with its subject. */
  datatype ApiToken = ApiToken(subjectType: string, subjectId: string, row: Tokens.Token)

  datatype RoleRow = RoleRow(user: string, role: int)

  /** A one-way hash, taken to be injective. */
  datatype Hash = Hash(raw: string)

  datatype RequestStatus = RequestPending | RequestVerified | RequestCompleted

  datatype Request = Request(primary: string, secondary: string, status: RequestStatus, token: Option<Hash>,
    expiresAt: Option<int>)

  datatype Failure =
    | PrimaryInvalid | SecondaryInvalid | SecondaryInactive | SameUser | PendingExists | BothHaveCredentials
    | RequestNotFound | WrongPrimaryUser | WrongStatus | TokenExpired | MissingToken | WrongToken | CredentialConflict
    | StoreFailed | MigrationFailed

  /** Thirty minutes, in seconds. */
  const TOKEN_LIFETIME := 1800

  // ----- Merge links -----

  /**
   `order` lists the merged users in the order they were merged: each once, and each linked to a user that
   was not merged at the time, who is then either still not merged or comes later.
   */
  ghost predicate Ordered(users: Users, order: seq<string>) {
    && (forall u :: u in users ==> (users[u].status == Merged <==> u in order))
    && (forall i, j :: 0 <= i < j < |order| ==> order[i] != order[j])
    && (forall i :: 0 <= i < |order| ==> LinksForward(users, order, i))
  }

  ghost predicate LinksForward(users: Users, order: seq<string>, i: nat)
    requires i < |order|
  {
    && order[i] in users && users[order[i]].mergedTo.Some?
    && var target := users[order[i]].mergedTo.value;
    && target in users
    && (users[target].status != Merged || exists j :: i < j < |order| && order[j] == target)
  }

  /** The user reached from `u` by at most `n` merge links. */
  ghost function Follow(users: Users, u: string, n: nat): string
    decreases n
  {
    if n == 0 || u !in users || users[u].status != Merged || users[u].mergedTo == None then u
    else Follow(users, users[u].mergedTo.value, n - 1)
  }

  /**
   Following links from any user ends at a user that is not merged, after at most as many links as there were merges.
   */
  lemma {:induction false} LinksTerminate(users: Users, order: seq<string>, u: string, i: nat)
    requires Ordered(users, order) && u in users && i <= |order|
    requires users[u].status == Merged ==> exists k :: i <= k < |order| && order[k] == u
    ensures Follow(users, u, |order| - i) in users
    ensures users[Follow(users, u, |order| - i)].status != Merged
    decreases |order| - i
  {
    if users[u].status == Merged {
      var k :| i <= k < |order| && order[k] == u;
      assert LinksForward(users, order, k);
      var target := users[u].mergedTo.value;
      if users[target].status == Merged {
        var j :| k < j < |order| && order[j] == target;
        assert i + 1 <= j;
      }
      LinksTerminate(users, order, target, i + 1);
    }
  }

  /** No user is reached from itself: each link leads to a later merge or to a user that is not merged. */
  lemma {:induction false} NoCycle(users: Users, order: seq<string>, i: nat, n: nat)
    requires Ordered(users, order) && i < |order| && n > 0
    ensures var v := Follow(users, order[i], n);
      && v in users && v != order[i]
      && (users[v].status == Merged ==> exists j :: i < j < |order| && order[j] == v)
    decreases n
  {
    assert LinksForward(users, order, i);
    var target := users[order[i]].mergedTo.value;
    if users[target].status == Merged {
      var j :| i < j < |order| && order[j] == target;
      if n > 1 {
        NoCycle(users, order, j, n - 1);
      }
    }
  }

  /** Merging an active user into another active one. */
  lemma MergeExtendsOrder(users: Users, order: seq<string>, primary: string, secondary: string, users': Users)
    requires Ordered(users, order) && primary != secondary
    requires primary in users && users[primary].status == Active
    requires secondary in users && users[secondary].status == Active
    requires users' == users[secondary := users[secondary].(status := Merged, mergedTo := Some(primary))]
    ensures Ordered(users', order + [secondary])
  {
    var order' := order + [secondary];
    forall i | 0 <= i < |order'|
      ensures LinksForward(users', order', i)
    {
      if i < |order| {
        assert LinksForward(users, order, i);
        var target := users[order[i]].mergedTo.value;
        if target == secondary {
          assert order'[|order|] == target;
        } else if users[target].status == Merged {
          var j :| i < j < |order| && order[j] == target;
          assert order'[j] == target;
        }
      }
    }
    forall u | u in users'
      ensures users'[u].status == Merged <==> u in order'
    {
      if u == secondary { assert order'[|order|] == u; }
    }
  }

  /** Changing an e-mail address does not touch the links. */
  lemma EmailKeepsOrder(users: Users, order: seq<string>, u: string, email: string)
    requires Ordered(users, order) && u in users
    ensures Ordered(users[u := users[u].(email := email)], order)
  {
    var users' := users[u := users[u].(email := email)];
    forall i | 0 <= i < |order|
      ensures LinksForward(users', order, i)
    {
      assert LinksForward(users, order, i);
    }
  }

  // ----- Role rows -----

  ghost function RoleIds(rows: seq<RoleRow>, user: string): set<int> {
    set r | r in rows && r.user == user :: r.role
  }

  function RolesIn(rows: seq<RoleRow>): set<int> {
    set b | b in rows :: b.role
  }

  /** The roles among the first `n` rows that are not among `ids`, counted. */
  function Missing(rows: seq<RoleRow>, ids: set<int>, n: nat): nat
    requires n <= |rows|
  {
    if n == 0 then 0 else Missing(rows, ids, n - 1) + if rows[n - 1].role in ids then 0 else 1
  }

  lemma MissingNext(rows: seq<RoleRow>, ids: set<int>, n: nat)
    requires n < |rows|
    ensures Missing(rows, ids, n + 1) == Missing(rows, ids, n) + if rows[n].role in ids then 0 else 1
  {
  }

  lemma {:induction false} MissingGrows(rows: seq<RoleRow>, ids: set<int>, n: nat, m: nat)
    requires n <= m <= |rows|
    ensures Missing(rows, ids, n) <= Missing(rows, ids, m)
    decreases m
  {
    if n < m {
      MissingGrows(rows, ids, n, m - 1);
    }
  }

  /** An insert for each role the primary lacks, and the deletion of the secondary's rows. */
  function RoleWrites(rows: seq<RoleRow>, primary: string, secondary: string): nat {
    Missing(RowsOf(rows, secondary), RolesIn(RowsOf(rows, primary)), |RowsOf(rows, secondary)|) + 1
  }

  ghost predicate NoDuplicates(rows: seq<RoleRow>) {
    forall i, j :: 0 <= i < j < |rows| ==> rows[i] != rows[j]
  }

  function RowsOf(rows: seq<RoleRow>, user: string): (r: seq<RoleRow>)
    ensures forall x :: x in r <==> x in rows && x.user == user
  {
    if rows == [] then []
    else
      var init, last := rows[..|rows| - 1], rows[|rows| - 1];
      assert rows == init + [last];
      RowsOf(init, user) + if last.user == user then [last] else []
  }

  function Without(rows: seq<RoleRow>, user: string): (r: seq<RoleRow>)
    ensures forall x :: x in r <==> x in rows && x.user != user
  {
    if rows == [] then []
    else
      var init, last := rows[..|rows| - 1], rows[|rows| - 1];
      assert rows == init + [last];
      Without(init, user) + if last.user != user then [last] else []
  }

  lemma {:induction false} WithoutKeepsDistinct(rows: seq<RoleRow>, user: string)
    requires NoDuplicates(rows)
    ensures NoDuplicates(Without(rows, user))
  {
    if rows != [] {
      var init, last := rows[..|rows| - 1], rows[|rows| - 1];
      WithoutKeepsDistinct(init, user);
      assert last !in init;
      assert forall i :: 0 <= i < |Without(init, user)| ==> Without(init, user)[i] in Without(init, user);
    }
  }

  lemma RowsOfAppend(rows: seq<RoleRow>, row: RoleRow, user: string)
    ensures RowsOf(rows + [row], user) == RowsOf(rows, user) + if row.user == user then [row] else []
  {
    assert (rows + [row])[..|rows|] == rows;
  }

  lemma {:induction false} WithoutKeepsOthers(rows: seq<RoleRow>, user: string, other: string)
    requires other != user
    ensures RowsOf(Without(rows, user), other) == RowsOf(rows, other)
  {
    if rows != [] {
      var init, last := rows[..|rows| - 1], rows[|rows| - 1];
      assert rows == init + [last];
      assert Without(rows, user) == Without(init, user) + if last.user != user then [last] else [];
      WithoutKeepsOthers(init, user, other);
      RowsOfAppend(init, last, other);
      RowsOfAppend(Without(init, user), last, other);
      hide RowsOf, Without;
      assert last.user == user ==> Without(rows, user) == Without(init, user);
    }
  }

  lemma {:induction false} RowsOfDistinct(rows: seq<RoleRow>, user: string)
    requires NoDuplicates(rows)
    ensures NoDuplicates(RowsOf(rows, user))
  {
    if rows != [] {
      var init, last := rows[..|rows| - 1], rows[|rows| - 1];
      RowsOfDistinct(init, user);
      assert last !in init;
      assert forall i :: 0 <= i < |RowsOf(init, user)| ==> RowsOf(init, user)[i] in RowsOf(init, user);
    }
  }

  /**
   What becomes of the role rows: the primary holds the union, once each, the secondary nothing, the others what they
   had.
   */
  ghost predicate RolesMerged(was: seq<RoleRow>, rows: seq<RoleRow>, primary: string, secondary: string) {
    && RoleIds(rows, primary) == RoleIds(was, primary) + RoleIds(was, secondary)
    && RowsOf(rows, secondary) == []
    && (forall u :: u != primary && u != secondary ==> RowsOf(rows, u) == RowsOf(was, u))
    && (NoDuplicates(was) ==> NoDuplicates(rows))
  }

  // ----- Bindings and tokens -----

  /** Every identity keeps its row; the rows of the secondary belong to the primary. */
  ghost function BindingsMoved(
    bindings: map<Identity, string>, primary: string, secondary: string): map<Identity, string>
  {
    map k | k in bindings :: if bindings[k] == secondary then primary else bindings[k]
  }

  ghost function TokensMoved(tokens: map<nat, ApiToken>, primary: string, secondary: string): map<nat, ApiToken> {
    map k | k in tokens :: if tokens[k].row.userId == secondary then MovedToken(tokens[k], primary) else tokens[k]
  }

  function MovedToken(t: ApiToken, primary: string): ApiToken {
    t.(row := t.row.(userId := primary), subjectId := if t.subjectType == "USER" then primary else t.subjectId)
  }

  /** The token table as the token service sees it. */
  ghost function TokenRows(tokens: map<nat, ApiToken>): map<nat, Tokens.Token> {
    map k | k in tokens :: tokens[k].row
  }

  /** What the unique index on the names of unrevoked tokens guarantees. */
  ghost predicate OneActive(tokens: map<nat, ApiToken>) {
    Tokens.OneActive(TokenRows(tokens))
  }

  /** An unrevoked token and another one of `user` that has the same name up to case. */
  predicate ClashesAt(tokens: map<nat, ApiToken>, id: nat, user: string, other: nat)
    requires id in tokens
  {
    other in tokens && other != id && !tokens[id].row.revoked
      && Tokens.Active(tokens[other].row, user, tokens[id].row.name)
  }

  predicate Clashes(tokens: map<nat, ApiToken>, id: nat, user: string)
    requires id in tokens
  {
    exists other :: other in tokens && ClashesAt(tokens, id, user, other)
  }

  /** No unrevoked token of the secondary has, up to case, the name of one of the primary. */
  predicate NoNameTwice(tokens: map<nat, ApiToken>, primary: string, secondary: string) {
    forall id :: id in tokens && tokens[id].row.userId == secondary ==> !Clashes(tokens, id, primary)
  }

  /** Names of active tokens stay unique exactly when there is no clash. */
  lemma MergeKeepsOneActiveIff(tokens: map<nat, ApiToken>, primary: string, secondary: string)
    requires primary != secondary && OneActive(tokens)
    ensures OneActive(TokensMoved(tokens, primary, secondary)) <==> NoNameTwice(tokens, primary, secondary)
  {
    var was, rows := TokenRows(tokens), TokenRows(TokensMoved(tokens, primary, secondary));
    assert forall k :: k in rows <==> k in was;
    if NoNameTwice(tokens, primary, secondary) {
      forall i, j | i in rows && j in rows && !rows[j].revoked && Tokens.Active(rows[i], rows[j].userId, rows[j].name)
        ensures i == j
      {
        assert !ClashesAt(tokens, i, primary, j) || tokens[i].row.userId != secondary;
        assert !ClashesAt(tokens, j, primary, i) || tokens[j].row.userId != secondary;
        if was[i].userId == was[j].userId {
          assert Tokens.Active(was[i], was[j].userId, was[j].name);
        }
      }
    } else {
      var id :| id in tokens && tokens[id].row.userId == secondary && Clashes(tokens, id, primary);
      var other :| other in tokens && ClashesAt(tokens, id, primary, other);
      assert Tokens.Active(rows[other], rows[id].userId, rows[id].name);
    }
  }

  /** The tokens after all of the secondary's but those in `todo` have been moved. */
  ghost predicate MovedBut(
    was: map<nat, ApiToken>, tokens: map<nat, ApiToken>, primary: string, secondary: string, todo: set<nat>)
  {
    && tokens.Keys == was.Keys && todo <= TokensOf(was, secondary)
    && forall k :: k in tokens ==>
         tokens[k] == if k !in todo && was[k].row.userId == secondary then MovedToken(was[k], primary) else was[k]
  }

  /** No token is lost, and each is as it was or moved. */
  ghost predicate SomeMoved(was: map<nat, ApiToken>, tokens: map<nat, ApiToken>, primary: string, secondary: string) {
    && tokens.Keys == was.Keys
    && forall k :: k in tokens ==>
         tokens[k] == was[k] || (was[k].row.userId == secondary && tokens[k] == MovedToken(was[k], primary))
  }

  lemma MovedOne(
    was: map<nat, ApiToken>, tokens: map<nat, ApiToken>, primary: string, secondary: string, todo: set<nat>, id: nat)
    requires primary != secondary && MovedBut(was, tokens, primary, secondary, todo) && id in todo
    ensures tokens[id] == was[id] && was[id].row.userId == secondary
    ensures MovedBut(was, tokens[id := MovedToken(was[id], primary)], primary, secondary, todo - {id})
  {
  }

  lemma MovedAll(was: map<nat, ApiToken>, tokens: map<nat, ApiToken>, primary: string, secondary: string)
    requires MovedBut(was, tokens, primary, secondary, {})
    ensures tokens == TokensMoved(was, primary, secondary)
  {
  }

  lemma MovedOnly(
    was: map<nat, ApiToken>, tokens: map<nat, ApiToken>, primary: string, secondary: string, todo: set<nat>)
    requires MovedBut(was, tokens, primary, secondary, todo)
    ensures SomeMoved(was, tokens, primary, secondary)
  {
  }

  /** The tokens of the secondary outside `todo` do not clash. */
  ghost predicate FreeBut(was: map<nat, ApiToken>, primary: string, secondary: string, todo: set<nat>) {
    forall id :: id in was && was[id].row.userId == secondary && id !in todo ==> !Clashes(was, id, primary)
  }

  lemma AtFirst(was: map<nat, ApiToken>, primary: string, secondary: string)
    ensures MovedBut(was, was, primary, secondary, TokensOf(was, secondary))
    ensures FreeBut(was, primary, secondary, TokensOf(was, secondary))
    ensures FreeBut(was, primary, secondary, {}) <==> NoNameTwice(was, primary, secondary)
  {
  }

  lemma FreeOne(was: map<nat, ApiToken>, primary: string, secondary: string, todo: set<nat>, id: nat)
    requires id in was && was[id].row.userId == secondary && FreeBut(was, primary, secondary, todo)
    ensures Clashes(was, id, primary) ==> !NoNameTwice(was, primary, secondary)
    ensures !Clashes(was, id, primary) ==> FreeBut(was, primary, secondary, todo - {id})
  {
  }

  /** The secondary's own tokens do not clash with each other, so a clash on the way is one from the start. */
  lemma ClashFromStart(
    was: map<nat, ApiToken>, tokens: map<nat, ApiToken>, primary: string, secondary: string, todo: set<nat>, id: nat)
    requires primary != secondary && OneActive(was) && MovedBut(was, tokens, primary, secondary, todo) && id in todo
    ensures Clashes(tokens, id, primary) <==> Clashes(was, id, primary)
  {
    var rows := TokenRows(was);
    forall other | other in was
      ensures ClashesAt(tokens, id, primary, other) <==> ClashesAt(was, id, primary, other)
    {
      if ClashesAt(tokens, id, primary, other) && was[other].row.userId == secondary {
        assert Tokens.Active(rows[other], rows[id].userId, rows[id].name);
      }
    }
  }

  /** The index lets a token move exactly when the names stay unique. */
  lemma MoveKeepsOneActive(tokens: map<nat, ApiToken>, id: nat, primary: string)
    requires OneActive(tokens) && id in tokens && !Clashes(tokens, id, primary)
    ensures OneActive(tokens[id := MovedToken(tokens[id], primary)])
  {
    var was, rows := TokenRows(tokens), TokenRows(tokens[id := MovedToken(tokens[id], primary)]);
    forall i, j | i in rows && j in rows && !rows[j].revoked && Tokens.Active(rows[i], rows[j].userId, rows[j].name)
      ensures i == j
    {
      assert !ClashesAt(tokens, id, primary, i) && !ClashesAt(tokens, id, primary, j);
      assert i != id && j != id ==> Tokens.Active(was[i], was[j].userId, was[j].name);
    }
  }

  /** On the way, and wherever it stops, there is a clash exactly if there was one. */
  lemma ClashRemains(
    was: map<nat, ApiToken>, tokens: map<nat, ApiToken>, primary: string, secondary: string, todo: set<nat>)
    requires primary != secondary && OneActive(was)
    requires MovedBut(was, tokens, primary, secondary, todo) && FreeBut(was, primary, secondary, todo)
    ensures NoNameTwice(tokens, primary, secondary) <==> NoNameTwice(was, primary, secondary)
  {
    hide Clashes, OneActive;
    forall id | id in todo
      ensures Clashes(tokens, id, primary) <==> Clashes(was, id, primary)
    {
      ClashFromStart(was, tokens, primary, secondary, todo, id);
    }
  }

  /** A token whose name is free moves, and the others can still be looked at. */
  lemma NextToken(
    was: map<nat, ApiToken>, tokens: map<nat, ApiToken>, primary: string, secondary: string, todo: set<nat>, id: nat)
    requires primary != secondary && OneActive(was) && OneActive(tokens) && id in todo
    requires MovedBut(was, tokens, primary, secondary, todo) && FreeBut(was, primary, secondary, todo)
    ensures id in tokens && SomeMoved(was, tokens, primary, secondary) && TokensOf(was, secondary) != {}
    ensures Clashes(tokens, id, primary) ==> !NoNameTwice(was, primary, secondary)
    ensures !Clashes(tokens, id, primary) ==>
      var tokens' := tokens[id := MovedToken(tokens[id], primary)];
      && MovedBut(was, tokens', primary, secondary, todo - {id}) && OneActive(tokens')
      && FreeBut(was, primary, secondary, todo - {id})
  {
    MovedOnly(was, tokens, primary, secondary, todo);
    MovedOne(was, tokens, primary, secondary, todo, id);
    assert id in TokensOf(was, secondary);
    hide MovedBut, OneActive, Clashes, FreeBut, NoNameTwice, SomeMoved, TokensOf, MovedToken;
    ClashFromStart(was, tokens, primary, secondary, todo, id);
    FreeOne(was, primary, secondary, todo, id);
    if !Clashes(tokens, id, primary) {
      MoveKeepsOneActive(tokens, id, primary);
    }
  }

  /**
   How a token or credential that exists is stored when it is saved again: as the row it was, if its name is still
   free, or by an insert, which the unique hash of the token or the unique name of the credential refuses.
   */
  datatype SaveMode = Rewrite | InsertOnly

  function BindingsOf(bindings: map<Identity, string>, user: string): set<Identity> {
    set k | k in bindings && bindings[k] == user
  }

  function TokensOf(tokens: map<nat, ApiToken>, user: string): set<nat> {
    set k | k in tokens && tokens[k].row.userId == user
  }

  predicate CredentialMoves(credentials: map<string, Credential>, primary: string, secondary: string) {
    primary !in credentials && secondary in credentials
  }

  /** The store can save the tokens that a merge moves. */
  predicate TokensSavable(mode: SaveMode, tokens: map<nat, ApiToken>, primary: string, secondary: string) {
    if mode == Rewrite then NoNameTwice(tokens, primary, secondary) else TokensOf(tokens, secondary) == {}
  }

  /** The store can save what the merge moves. */
  predicate Savable(
    mode: SaveMode, tokens: map<nat, ApiToken>, credentials: map<string, Credential>,
    primary: string, secondary: string)
  {
    && TokensSavable(mode, tokens, primary, secondary)
    && (mode == Rewrite || !CredentialMoves(credentials, primary, secondary))
  }

  lemma BindingsConserved(bindings: map<Identity, string>, primary: string, secondary: string)
    requires primary != secondary
    ensures var moved := BindingsMoved(bindings, primary, secondary);
      && moved.Keys == bindings.Keys && |moved| == |bindings|
      && (forall k :: k in moved ==> moved[k] != secondary)
      && (forall k :: k in bindings ==> (moved[k] == primary <==> bindings[k] == primary || bindings[k] == secondary))
  {
    assert BindingsMoved(bindings, primary, secondary).Keys == bindings.Keys;
    var moved := BindingsMoved(bindings, primary, secondary);
    assert |moved| == |moved.Keys| && |bindings| == |bindings.Keys|;
  }

  /** There is a pending request to merge that user away. */
  predicate HasPending(requests: map<int, Request>, secondary: string) {
    exists id :: id in requests && requests[id].secondary == secondary && requests[id].status == RequestPending
  }

  // ----- The service -----

  class Service {
    var users: Users
    var credentials: map<string, Credential>
    var bindings: map<Identity, string>
    var tokens: map<nat, ApiToken>
    var roles: seq<RoleRow>
    var requests: map<int, Request>
    var nextRequest: int
    /** The merged users, in the order they were merged. */
    ghost var order: seq<string>
    const mode: SaveMode
    /** The namespace members, if their migration is configured, and how their rows are saved. */
    const migrator: MembershipService.Service?
    const memberMode: Membership.SaveMode

    ghost function Migrator(): set<object> {
      if migrator == null then {} else {migrator}
    }

    ghost predicate Completed(id: int)
      reads this`requests
    {
      id in requests && requests[id].status == RequestCompleted
    }

    ghost predicate Valid()
      reads this
    {
      LinksValid() && OneActive(tokens)
    }

    /** The completed requests are the merge links. */
    ghost predicate LinksValid()
      reads this`users, this`order, this`requests, this`nextRequest
    {
      && Ordered(users, order)
      && (forall id :: id in requests ==> id < nextRequest && requests[id].primary != requests[id].secondary)
      && (forall id :: Completed(id) ==>
            requests[id].secondary in order && requests[id].secondary in users
            && users[requests[id].secondary].mergedTo == Some(requests[id].primary))
      && (forall a, b :: Completed(a) && Completed(b) && a != b ==> requests[a].secondary != requests[b].secondary)
    }

    constructor (users: Users, credentials: map<string, Credential>, bindings: map<Identity, string>,
                 tokens: map<nat, ApiToken>, roles: seq<RoleRow>, mode: SaveMode,
                 migrator: MembershipService.Service?, memberMode: Membership.SaveMode)
      requires OneActive(tokens) && forall u :: u in users ==> users[u].status != Merged
      ensures Valid() && order == [] && requests == map[] && this.users == users
      ensures this.mode == mode && this.migrator == migrator && this.memberMode == memberMode
      ensures this.credentials == credentials && this.bindings == bindings && this.tokens == tokens
        && this.roles == roles
    {
      this.users, this.credentials, this.bindings, this.tokens, this.roles :=
        users, credentials, bindings, tokens, roles;
      requests, nextRequest, order, this.mode := map[], 1, [], mode;
      this.migrator, this.memberMode := migrator, memberMode;
    }

    /** `rawToken` is the random token, `saved` the outcome of the write. */
    method InitiateMerge(primary: string, secondary: string, now: int, rawToken: string, saved: bool)
      returns (r: Result<int, Failure>)
      requires Valid()
      modifies this`requests, this`nextRequest
      ensures Valid()
      ensures r.Ok? <==>
        && primary in users && users[primary].status == Active
        && secondary in users && users[secondary].status == Active && primary != secondary
        && (forall id :: id in old(requests) ==>
              !(old(requests)[id].secondary == secondary && old(requests)[id].status == RequestPending))
        && !(primary in credentials && secondary in credentials) && saved
      ensures r.Err? ==> requests == old(requests)
      ensures r.Err? ==>
        r.error ==
        if primary !in users || users[primary].status != Active then PrimaryInvalid
        else if secondary !in users then SecondaryInvalid
        else if users[secondary].status != Active then SecondaryInactive
        else if secondary == primary then SameUser
        else if HasPending(old(requests), secondary) then PendingExists
        else if primary in credentials && secondary in credentials then BothHaveCredentials
        else StoreFailed
      ensures r.Ok? ==> r.value !in old(requests) && requests == old(requests)[r.value :=
        Request(primary, secondary, RequestPending, Some(Hash(rawToken)), Some(now + 30 * 60))]
    {
      hide Ordered, OneActive;
      if primary !in users || users[primary].status != Active { return Err(PrimaryInvalid); }
      if secondary !in users { return Err(SecondaryInvalid); }
      if users[secondary].status != Active { return Err(SecondaryInactive); }
      if secondary == primary { return Err(SameUser); }
      if HasPending(requests, secondary) {
        return Err(PendingExists);
      }
      if primary in credentials && secondary in credentials { return Err(BothHaveCredentials); }
      if !saved { return Err(StoreFailed); }
      var id := nextRequest;
      nextRequest := nextRequest + 1;
      requests := requests[id := Request(primary, secondary, RequestPending, Some(Hash(rawToken)),
        Some(now + TOKEN_LIFETIME))];
      return Ok(id);
    }

    /** What a confirmation is checked for before anything is written. */
    ghost predicate Confirmable(id: int, primary: string, rawToken: string, now: int)
      reads this
    {
      && id in requests && requests[id].primary == primary
      && requests[id].status != RequestCompleted
      && (requests[id].expiresAt.Some? ==> now <= requests[id].expiresAt.value)
      && requests[id].token == Some(Hash(rawToken))
      && primary in users && users[primary].status == Active
      && requests[id].secondary in users && users[requests[id].secondary].status == Active
      && !(primary in credentials && requests[id].secondary in credentials)
    }

    method CheckConfirm(id: int, primary: string, rawToken: string, now: int) returns (r: Option<Failure>)
      requires Valid()
      ensures r == None <==> Confirmable(id, primary, rawToken, now)
      ensures r == None ==> requests[id].secondary != primary
      ensures r.Some? ==> r.value != StoreFailed && r.value != MigrationFailed
      ensures r.Some? ==>
        r.value ==
        if id !in requests then RequestNotFound
        else if requests[id].primary != primary then WrongPrimaryUser
        else if requests[id].status == RequestCompleted then WrongStatus
        else if requests[id].expiresAt.Some? && requests[id].expiresAt.value < now then TokenExpired
        else if requests[id].token == None then MissingToken
        else if requests[id].token != Some(Hash(rawToken)) then WrongToken
        else if primary !in users || users[primary].status != Active then PrimaryInvalid
        else if requests[id].secondary !in users || users[requests[id].secondary].status != Active then SecondaryInvalid
        else CredentialConflict
    {
      if id !in requests { return Some(RequestNotFound); }
      var req := requests[id];
      if req.primary != primary { return Some(WrongPrimaryUser); }
      if req.status != RequestPending && req.status != RequestVerified { return Some(WrongStatus); }
      if req.expiresAt.Some? && now > req.expiresAt.value { return Some(TokenExpired); }
      if req.token == None { return Some(MissingToken); }
      if Hash(rawToken) != req.token.value { return Some(WrongToken); }
      if primary !in users || users[primary].status != Active { return Some(PrimaryInvalid); }
      if req.secondary !in users || users[req.secondary].status != Active { return Some(SecondaryInvalid); }
      if primary in credentials && req.secondary in credentials { return Some(CredentialConflict); }
      return None;
    }

    /** `writes` writes succeed before the first one fails; the result is what is left of them. */
    method ReassignBindings(primary: string, secondary: string, writes: nat) returns (left: Option<nat>)
      requires primary != secondary
      modifies this`bindings
      ensures left.Some? ==> bindings == BindingsMoved(old(bindings), primary, secondary)
      ensures left == Spent(writes, |BindingsOf(old(bindings), secondary)|)
      ensures bindings.Keys == old(bindings).Keys
      ensures forall k :: k in bindings ==>
        bindings[k] == old(bindings)[k] || (old(bindings)[k] == secondary && bindings[k] == primary)
    {
      var remaining: nat := writes;
      var todo := BindingsOf(bindings, secondary);
      while todo != {}
        invariant bindings.Keys == old(bindings).Keys
        invariant remaining + |BindingsOf(old(bindings), secondary)| == writes + |todo|
        invariant forall k :: k in todo ==> k in bindings && old(bindings)[k] == secondary
        invariant forall k :: k in bindings ==>
          bindings[k] == if k !in todo && old(bindings)[k] == secondary then primary else old(bindings)[k]
        decreases todo
      {
        var key :| key in todo;
        if remaining == 0 { return None; }
        todo := todo - {key};
        bindings, remaining := bindings[key := primary], remaining - 1;
      }
      return Some(remaining);
    }

    /** A save is refused by the index on active names, or always when it is an insert. */
    method ReassignTokens(primary: string, secondary: string, writes: nat) returns (left: Option<nat>)
      requires primary != secondary && OneActive(tokens)
      modifies this`tokens
      ensures OneActive(tokens)
      ensures left.Some? ==> tokens == TokensMoved(old(tokens), primary, secondary)
      ensures left ==
        if TokensSavable(mode, old(tokens), primary, secondary) then Spent(writes, |TokensOf(old(tokens), secondary)|)
        else None
      ensures TokensSavable(mode, tokens, primary, secondary) <==> TokensSavable(mode, old(tokens), primary, secondary)
      ensures mode == InsertOnly ==> tokens == old(tokens)
      ensures SomeMoved(old(tokens), tokens, primary, secondary)
    {
      ghost var was := tokens;
      var remaining: nat := writes;
      var todo := TokensOf(tokens, secondary);
      AtFirst(was, primary, secondary);
      hide OneActive, Clashes, MovedBut, FreeBut, NoNameTwice, TokensMoved, SomeMoved, TokensOf;
      while todo != {}
        invariant MovedBut(was, tokens, primary, secondary, todo) && OneActive(tokens)
        invariant FreeBut(was, primary, secondary, todo)
        invariant remaining + |TokensOf(was, secondary)| == writes + |todo|
        invariant mode == InsertOnly ==> tokens == was && todo == TokensOf(was, secondary)
        decreases todo
      {
        var id :| id in todo;
        NextToken(was, tokens, primary, secondary, todo, id);
        ClashRemains(was, tokens, primary, secondary, todo);
        var token := tokens[id].(row := tokens[id].row.(userId := primary));
        if token.subjectType == "USER" {
          token := token.(subjectId := primary);
        }
        if remaining == 0 || mode == InsertOnly || Clashes(tokens, id, primary) { return None; }
        todo, remaining := todo - {id}, remaining - 1;
        tokens := tokens[id := token];
      }
      MovedOnly(was, tokens, primary, secondary, todo);
      ClashRemains(was, tokens, primary, secondary, todo);
      MovedAll(was, tokens, primary, secondary);
      return Some(remaining);
    }

    /** Role rows are inserted one by one for the roles the primary lacks, then those of the secondary are deleted. */
    method MergeRoles(primary: string, secondary: string, writes: nat) returns (left: Option<nat>)
      requires primary != secondary
      modifies this`roles
      ensures left.Some? ==> RolesMerged(old(roles), roles, primary, secondary)
      ensures left.Some? <==> writes >= RoleWrites(old(roles), primary, secondary)
      ensures left.Some? ==> left.value == writes - RoleWrites(old(roles), primary, secondary)
      ensures left.None? ==> forall u :: u != primary ==> RowsOf(roles, u) == RowsOf(old(roles), u)
    {
      var remaining: nat := writes;
      var secondaryRows := RowsOf(roles, secondary);
      var primaryRows := RowsOf(roles, primary);
      var primaryIds := RolesIn(primaryRows);
      ghost var n := |secondaryRows|;
      StartRoles(roles, primary, secondary);
      RoleWritesAre(roles, primary, secondary);
      ghost var total := RoleWrites(roles, primary, secondary);
      hide MergedUpTo, RolesMerged, RowsOf, RolesIn, Missing, RoleWrites, Without;
      for i := 0 to |secondaryRows|
        invariant MergedUpTo(old(roles), roles, primary, secondary, secondaryRows, primaryIds, i)
        invariant remaining + Missing(secondaryRows, primaryIds, i) == writes
      {
        MissingNext(secondaryRows, primaryIds, i);
        MissingGrows(secondaryRows, primaryIds, i + 1, n);
        var b := secondaryRows[i];
        if b.role in primaryIds {
          SkipRole(old(roles), roles, primary, secondary, secondaryRows, primaryIds, i);
          continue;
        }
        if remaining == 0 {
          OthersKept(old(roles), roles, primary, secondary, secondaryRows, primaryIds, i);
          assert writes < total;
          return None;
        }
        AddRole(old(roles), roles, primary, secondary, secondaryRows, primaryIds, i);
        roles, remaining := roles + [RoleRow(primary, b.role)], remaining - 1;
      }
      if remaining == 0 {
        OthersKept(old(roles), roles, primary, secondary, secondaryRows, primaryIds, n);
        assert writes < total;
        return None;
      }
      FinishRoles(old(roles), roles, primary, secondary, secondaryRows, primaryIds);
      roles := Without(roles, secondary);
      return Some(remaining - 1);
    }

    /** The writes a confirmation takes before the migration of memberships. */
    ghost function WritesNeeded(primary: string, secondary: string): nat
      reads this
      requires primary in users && secondary in users
    {
      |BindingsOf(bindings, secondary)| + |TokensOf(tokens, secondary)| + RoleWrites(roles, primary, secondary)
      + (if CredentialMoves(credentials, primary, secondary) then 1 else 0)
      + (if EmailMoves(users, primary, secondary) then 1 else 0) + 2
    }

    ghost function MigrationWrites(primary: string, secondary: string): nat
      reads this, Migrator()
    {
      if migrator == null then 0 else MembershipService.WritesNeeded(migrator.members, primary, secondary)
    }

    ghost predicate CanSave(primary: string, secondary: string)
      reads this
    {
      Savable(mode, tokens, credentials, primary, secondary)
    }

    /**
     Everything has gone to the primary, and the request is completed. The primary has its own e-mail address, or the
     secondary's if it had none; the secondary is linked to it.
     */
    twostate predicate AllMoved(id: int, primary: string, secondary: string)
      reads this
    {
      && id in old(requests) && primary in old(users) && secondary in old(users) && primary != secondary
      && users == old(users)[
           primary := old(users)[primary].(email :=
             if old(users)[primary].email != "" then old(users)[primary].email else old(users)[secondary].email)][
           secondary := old(users)[secondary].(status := Merged, mergedTo := Some(primary))]
      && AllBindingsAt(primary, secondary, old(bindings), bindings)
      && AllTokensAt(primary, secondary, old(tokens), tokens)
      && AllRolesAt(primary, secondary, old(roles), roles)
      && credentials == (
           if primary in old(credentials) || secondary !in old(credentials) then old(credentials)
           else old(credentials)[primary := old(credentials)[secondary]] - {secondary})
      && requests == old(requests)[id := old(requests)[id].(status := RequestCompleted, token := None)]
      && order == old(order) + [secondary]
    }

    /**
     `writes` writes succeed before the first one fails. The request is completed before the memberships are migrated,
     so a migration that fails is not repeated; `progress` is how far it got.
     */
    method ConfirmMerge(id: int, primary: string, rawToken: string, now: int, writes: nat)
      returns (r: Option<Failure>, ghost progress: Membership.Progress)
      requires Valid()
      modifies this`users, this`credentials, this`bindings, this`tokens, this`roles, this`requests, this`order,
        Migrator()
      ensures Valid() && old(order) <= order && forall k :: old(Completed(k)) ==> Completed(k)
      ensures r == None || r == Some(StoreFailed) || r == Some(MigrationFailed)
        <==> old(Confirmable(id, primary, rawToken, now))
      ensures !old(Confirmable(id, primary, rawToken, now)) ==>
        unchanged(`users, `credentials, `bindings, `tokens, `roles, `requests, `order)
      ensures bindings.Keys == old(bindings).Keys && tokens.Keys == old(tokens).Keys
      ensures r == None <==>
        && old(Confirmable(id, primary, rawToken, now)) && old(CanSave(primary, requests[id].secondary))
        && writes >= old(WritesNeeded(primary, requests[id].secondary))
             + old(MigrationWrites(primary, requests[id].secondary))
      ensures r == Some(StoreFailed) <==>
        && old(Confirmable(id, primary, rawToken, now))
        && !(old(CanSave(primary, requests[id].secondary))
             && writes >= old(WritesNeeded(primary, requests[id].secondary)))
      ensures mode == InsertOnly ==> tokens == old(tokens) && credentials == old(credentials)
      ensures r == Some(StoreFailed) ==>
        Confirmable(id, primary, rawToken, now) || order == old(order) + [old(requests)[id].secondary]
      ensures old(Confirmable(id, primary, rawToken, now)) && !old(CanSave(primary, requests[id].secondary)) ==>
        Confirmable(id, primary, rawToken, now) && !CanSave(primary, requests[id].secondary)
      ensures r == None || r == Some(MigrationFailed) ==>
        AllMoved(id, primary, old(requests)[id].secondary) && Completed(id)
      ensures migrator != null ==>
        if r == None || r == Some(MigrationFailed) then
          var secondary := old(requests)[id].secondary;
          && Membership.Does(old(migrator.S()), Membership.Migrate(memberMode, primary, secondary, progress),
               migrator.S())
          && (r == None <==> Membership.Complete(old(migrator.members), secondary, progress))
          && (r == Some(MigrationFailed) ==>
                var left := writes - old(WritesNeeded(primary, requests[id].secondary));
                left >= 0 && MembershipService.StoppedAfter(old(migrator.members), primary, secondary, left, progress))
        else
          migrator.S() == old(migrator.S())
    {
      hide OneActive, LinksValid, AllBindingsAt, AllTokensAt, AllRolesAt, WritesNeeded, CanSave;
      hide Membership.Does, Membership.Complete, MembershipService.WritesNeeded, MembershipService.StoppedAfter;
      progress := Membership.Progress({}, None);
      r := CheckConfirm(id, primary, rawToken, now);
      if r != None { return; }
      var secondary := requests[id].secondary;
      var left := MergeAccounts(id, primary, rawToken, now, writes);
      if left == None { return Some(StoreFailed), progress; }
      if migrator == null { return None, progress; }
      var failure;
      failure, progress := migrator.MigrateMemberships(memberMode, primary, secondary, left.value);
      return if failure == None then None else Some(MigrationFailed), progress;
    }

    /** A merge without the migration of memberships. */
    method MergeAccounts(id: int, primary: string, rawToken: string, now: int, writes: nat) returns (left: Option<nat>)
      requires Valid() && Confirmable(id, primary, rawToken, now) && primary != requests[id].secondary
      modifies this`users, this`credentials, this`bindings, this`tokens, this`roles, this`requests, this`order
      ensures Valid() && old(order) <= order && forall k :: old(Completed(k)) ==> Completed(k)
      ensures bindings.Keys == old(bindings).Keys && tokens.Keys == old(tokens).Keys
      ensures left ==
        if old(CanSave(primary, requests[id].secondary)) then
          Spent(writes, old(WritesNeeded(primary, requests[id].secondary)))
        else None
      ensures mode == InsertOnly ==> tokens == old(tokens) && credentials == old(credentials)
      ensures left.None? ==>
        Confirmable(id, primary, rawToken, now) || order == old(order) + [old(requests)[id].secondary]
      ensures !old(CanSave(primary, requests[id].secondary)) ==>
        requests == old(requests) && Confirmable(id, primary, rawToken, now)
          && !CanSave(primary, requests[id].secondary)
      ensures left.Some? ==> AllMoved(id, primary, old(requests)[id].secondary)
    {
      hide BindingsMoved, TokensMoved, RolesMerged, BindingsOf, TokensOf, RoleWrites, CredentialMoves, Savable;
      hide OneActive, LinksValid, Completed, UsersMerged, EmailMoves;
      var secondary := requests[id].secondary;
      left := MergeLedgers(primary, secondary, writes);
      if left == None { return; }
      left := CloseAccount(id, primary, secondary, left.value);
      UsersMergedMeans(old(users), primary, secondary);
      if left.Some? {
        LedgersMean(old(bindings), old(tokens), old(roles), roles, primary, secondary);
      }
      hide AllBindingsAt, AllTokensAt, AllRolesAt;
    }

    /** The e-mail address, the link to the primary, and the request. */
    method CloseAccount(id: int, primary: string, secondary: string, writes: nat) returns (left: Option<nat>)
      requires LinksValid() && id in requests && requests[id].status != RequestCompleted
        && requests[id].primary == primary
      requires requests[id].secondary == secondary && primary != secondary
      requires primary in users && users[primary].status == Active && secondary in users
        && users[secondary].status == Active
      modifies this`users, this`requests, this`order
      ensures LinksValid() && old(order) <= order && forall k :: old(Completed(k)) ==> Completed(k)
      ensures left == Spent(writes, (if EmailMoves(old(users), primary, secondary) then 1 else 0) + 2)
      ensures left.None? ==>
        && requests == old(requests)
        && (order == old(order) + [secondary]
            || (order == old(order) && (users == old(users) || users == EmailCopied(old(users), primary, secondary))))
      ensures left.Some? ==>
        && users == UsersMerged(old(users), primary, secondary)
        && requests == old(requests)[id := old(requests)[id].(status := RequestCompleted, token := None)]
        && order == old(order) + [secondary]
    {
      hide Ordered, OneActive;
      left := CopyEmail(primary, secondary, writes);
      if left == None { return; }
      var remaining := left.value;
      if remaining == 0 { return None; }
      remaining := remaining - 1;
      MarkMerged(primary, secondary);
      if remaining == 0 { return None; }
      CompleteRequest(id);
      return Some(remaining - 1);
    }

    /** Bindings, tokens, role rows and, when the primary has none, the credential. */
    method MergeLedgers(primary: string, secondary: string, writes: nat) returns (left: Option<nat>)
      requires OneActive(tokens) && primary != secondary
      modifies this`bindings, this`tokens, this`roles, this`credentials
      ensures OneActive(tokens)
      ensures bindings.Keys == old(bindings).Keys && tokens.Keys == old(tokens).Keys
      ensures left ==
        if Savable(mode, old(tokens), old(credentials), primary, secondary) then
          Spent(writes, |BindingsOf(old(bindings), secondary)| + |TokensOf(old(tokens), secondary)|
                        + RoleWrites(old(roles), primary, secondary)
                        + if CredentialMoves(old(credentials), primary, secondary) then 1 else 0)
        else None
      ensures mode == InsertOnly ==> tokens == old(tokens) && credentials == old(credentials)
      ensures left.None? ==> credentials == old(credentials)
      ensures left.None? ==>
        (Savable(mode, tokens, credentials, primary, secondary)
         <==> Savable(mode, old(tokens), old(credentials), primary, secondary))
      ensures left.Some? ==>
        && bindings == BindingsMoved(old(bindings), primary, secondary)
        && tokens == TokensMoved(old(tokens), primary, secondary)
        && RolesMerged(old(roles), roles, primary, secondary)
        && credentials == CredentialsMoved(old(credentials), primary, secondary)
    {
      hide BindingsMoved, TokensMoved, TokensSavable, RolesMerged, BindingsOf, TokensOf, RoleWrites, OneActive, Ordered;
      left := ReassignBindings(primary, secondary, writes);
      if left == None { return; }
      left := ReassignTokens(primary, secondary, left.value);
      if left == None { return; }
      left := MergeRoles(primary, secondary, left.value);
      if left == None { return; }
      if CredentialMoves(credentials, primary, secondary) {
        if left.value == 0 || mode == InsertOnly { return None; }
        credentials, left := credentials[primary := credentials[secondary]] - {secondary}, Some(left.value - 1);
      }
    }

    method CompleteRequest(id: int)
      requires LinksValid() && id in requests && requests[id].secondary in order && requests[id].secondary in users
      requires users[requests[id].secondary].mergedTo == Some(requests[id].primary)
      requires forall other :: Completed(other) ==> requests[other].secondary != requests[id].secondary
      modifies this`requests
      ensures LinksValid()
        && requests == old(requests)[id := old(requests)[id].(status := RequestCompleted, token := None)]
    {
      requests := requests[id := requests[id].(status := RequestCompleted, token := None)];
      assert forall other :: other != id ==> Completed(other) == old(Completed(other));
    }

    method CopyEmail(primary: string, secondary: string, writes: nat) returns (left: Option<nat>)
      requires LinksValid() && primary in users && secondary in users
      modifies this`users
      ensures LinksValid()
      ensures left == Spent(writes, if EmailMoves(old(users), primary, secondary) then 1 else 0)
      ensures left.None? ==> users == old(users)
      ensures left.Some? ==> users == EmailCopied(old(users), primary, secondary)
    {
      if users[primary].email == "" && users[secondary].email != "" {
        if writes == 0 { return None; }
        EmailKeepsOrder(users, order, primary, users[secondary].email);
        users := users[primary := users[primary].(email := users[secondary].email)];
        return Some(writes - 1);
      }
      return Some(writes);
    }

    method MarkMerged(primary: string, secondary: string)
      requires LinksValid() && primary != secondary
      requires primary in users && users[primary].status == Active && secondary in users
        && users[secondary].status == Active
      modifies this`users, this`order
      ensures LinksValid() && order == old(order) + [secondary] && secondary !in old(order)
      ensures users == old(users)[secondary := old(users)[secondary].(status := Merged, mergedTo := Some(primary))]
    {
      ghost var was := users;
      users := users[secondary := users[secondary].(status := Merged, mergedTo := Some(primary))];
      MergeExtendsOrder(was, order, primary, secondary, users);
      order := order + [secondary];
    }
  }

  predicate EmailMoves(users: Users, primary: string, secondary: string)
    requires primary in users && secondary in users
  {
    users[primary].email == "" && users[secondary].email != ""
  }

  function EmailCopied(users: Users, primary: string, secondary: string): Users
    requires primary in users && secondary in users
  {
    if users[primary].email == "" && users[secondary].email != "" then
      users[primary := users[primary].(email := users[secondary].email)]
    else
      users
  }

  /** The primary gains the e-mail address it lacks; the secondary keeps its record, linked to the primary. */
  ghost function UsersMerged(users: Users, primary: string, secondary: string): Users
    requires primary in users && secondary in users
  {
    EmailCopied(users, primary, secondary)[secondary := users[secondary].(status := Merged, mergedTo := Some(primary))]
  }

  lemma UsersMergedMeans(users: Users, primary: string, secondary: string)
    requires primary in users && secondary in users && primary != secondary
    ensures UsersMerged(users, primary, secondary) == users[
      primary := users[primary].(email := if users[primary].email != "" then users[primary].email
        else users[secondary].email)][
      secondary := users[secondary].(status := Merged, mergedTo := Some(primary))]
  {
  }

  /** Each binding of the secondary is the primary's, and every other one is as it was. */
  ghost predicate AllBindingsAt(
    primary: string, secondary: string, was: map<Identity, string>, now: map<Identity, string>)
  {
    now.Keys == was.Keys && forall k :: k in now ==> now[k] == if was[k] == secondary then primary else was[k]
  }

  /**
   Each token of the secondary is the primary's, and acts for the primary if it is a user's token; nothing else changes.
   */
  ghost predicate AllTokensAt(primary: string, secondary: string, was: map<nat, ApiToken>, now: map<nat, ApiToken>) {
    && now.Keys == was.Keys
    && (forall k :: k in now && was[k].row.userId != secondary ==> now[k] == was[k])
    && (forall k :: k in now && was[k].row.userId == secondary ==>
          && now[k].row == was[k].row.(userId := primary) && now[k].subjectType == was[k].subjectType
          && now[k].subjectId == if was[k].subjectType == "USER" then primary else was[k].subjectId)
  }

  /** The primary has the roles of both, once each, the secondary has none, and the others have theirs. */
  ghost predicate AllRolesAt(primary: string, secondary: string, was: seq<RoleRow>, now: seq<RoleRow>) {
    && (forall r :: RoleRow(primary, r) in now <==> RoleRow(primary, r) in was || RoleRow(secondary, r) in was)
    && (forall row :: row in now ==> row.user != secondary)
    && (forall row: RoleRow :: row.user != primary && row.user != secondary ==> (row in now <==> row in was))
    && ((forall i, j :: 0 <= i < j < |was| ==> was[i] != was[j]) ==>
          forall i, j :: 0 <= i < j < |now| ==> now[i] != now[j])
  }

  lemma LedgersMean(
    bindings: map<Identity, string>, tokens: map<nat, ApiToken>, was: seq<RoleRow>, rows: seq<RoleRow>,
    primary: string, secondary: string)
    requires RolesMerged(was, rows, primary, secondary) && primary != secondary
    ensures AllBindingsAt(primary, secondary, bindings, BindingsMoved(bindings, primary, secondary))
    ensures AllTokensAt(primary, secondary, tokens, TokensMoved(tokens, primary, secondary))
    ensures AllRolesAt(primary, secondary, was, rows)
  {
    RolesMergedMeans(was, rows, primary, secondary);
    hide RolesMerged, AllRolesAt;
  }

  lemma RolesMergedMeans(was: seq<RoleRow>, rows: seq<RoleRow>, primary: string, secondary: string)
    requires RolesMerged(was, rows, primary, secondary) && primary != secondary
    ensures AllRolesAt(primary, secondary, was, rows)
  {
    forall r
      ensures RoleRow(primary, r) in rows <==> RoleRow(primary, r) in was || RoleRow(secondary, r) in was
    {
      assert r in RoleIds(rows, primary) <==> RoleRow(primary, r) in rows;
      assert r in RoleIds(was, primary) <==> RoleRow(primary, r) in was;
      assert r in RoleIds(was, secondary) <==> RoleRow(secondary, r) in was;
    }
    forall row | row in rows
      ensures row.user != secondary
    {
      assert row.user == secondary ==> row in RowsOf(rows, secondary);
    }
    forall row: RoleRow | row.user != primary && row.user != secondary
      ensures row in rows <==> row in was
    {
      assert row in RowsOf(rows, row.user) <==> row in RowsOf(was, row.user);
    }
  }

  ghost function CredentialsMoved(
    credentials: map<string, Credential>, primary: string, secondary: string): map<string, Credential>
  {
    if primary !in credentials && secondary in credentials then
      credentials[primary := credentials[secondary]] - {secondary}
    else
      credentials
  }

  ghost predicate OthersSame(was: seq<RoleRow>, rows: seq<RoleRow>, primary: string) {
    forall u :: u != primary ==> RowsOf(rows, u) == RowsOf(was, u)
  }

  /** The roles the primary gained are those of rows of the secondary that have been seen. */
  ghost predicate FromSecondary(
    rows: seq<RoleRow>, primary: string, secondary: string, primaryIds: set<int>, seen: seq<RoleRow>)
  {
    forall r :: r in rows && r.user == primary && r.role !in primaryIds ==> RoleRow(secondary, r.role) in seen
  }

  /** The role rows after the first `n` rows of the secondary have been looked at. */
  ghost predicate MergedUpTo(was: seq<RoleRow>, rows: seq<RoleRow>, primary: string, secondary: string,
                             secondaryRows: seq<RoleRow>, primaryIds: set<int>, n: nat)
  {
    && n <= |secondaryRows| && secondaryRows == RowsOf(was, secondary) && primaryIds == RoleIds(was, primary)
    && OthersSame(was, rows, primary)
    && RoleIds(rows, primary) == primaryIds + RolesIn(secondaryRows[..n])
    && FromSecondary(rows, primary, secondary, primaryIds, secondaryRows[..n])
    && (NoDuplicates(was) ==> NoDuplicates(rows))
  }

  lemma RolesInAppend(rows: seq<RoleRow>, row: RoleRow)
    ensures RolesIn(rows + [row]) == RolesIn(rows) + {row.role}
    ensures forall u :: RoleIds(rows + [row], u) == RoleIds(rows, u) + if row.user == u then {row.role} else {}
  {
  }

  /** A role the primary had from the start is skipped. */
  lemma SkipRole(was: seq<RoleRow>, rows: seq<RoleRow>, primary: string, secondary: string,
                 secondaryRows: seq<RoleRow>, primaryIds: set<int>, n: nat)
    requires n < |secondaryRows| && secondaryRows[n].role in primaryIds
    requires MergedUpTo(was, rows, primary, secondary, secondaryRows, primaryIds, n)
    ensures MergedUpTo(was, rows, primary, secondary, secondaryRows, primaryIds, n + 1)
  {
    assert secondaryRows[..n + 1] == secondaryRows[..n] + [secondaryRows[n]];
    RolesInAppend(secondaryRows[..n], secondaryRows[n]);
    hide RowsOf, RoleIds, RolesIn, NoDuplicates;
  }

  lemma NewRoleIsNew(was: seq<RoleRow>, rows: seq<RoleRow>, primary: string, secondary: string,
                     secondaryRows: seq<RoleRow>, primaryIds: set<int>, n: nat)
    requires n < |secondaryRows| && secondaryRows[n].role !in primaryIds && NoDuplicates(was)
    requires MergedUpTo(was, rows, primary, secondary, secondaryRows, primaryIds, n)
    ensures NoDuplicates(rows + [RoleRow(primary, secondaryRows[n].role)])
  {
    hide RoleIds, RolesIn;
    var b := secondaryRows[n];
    RowsOfDistinct(was, secondary);
    assert b in secondaryRows;
    hide RowsOf;
    assert b !in secondaryRows[..n];
    assert RoleRow(primary, b.role) !in rows;
  }

  /** The row of a role the primary lacked changes nothing for the other users. */
  lemma AddRoleElsewhere(was: seq<RoleRow>, rows: seq<RoleRow>, row: RoleRow)
    requires OthersSame(was, rows, row.user)
    ensures OthersSame(was, rows + [row], row.user)
  {
    forall u | u != row.user
      ensures RowsOf(rows + [row], u) == RowsOf(was, u)
    {
      RowsOfAppend(rows, row, u);
      hide RowsOf;
    }
  }

  lemma AddRoleIds(rows: seq<RoleRow>, row: RoleRow, primaryIds: set<int>, seen: seq<RoleRow>, b: RoleRow)
    requires RoleIds(rows, row.user) == primaryIds + RolesIn(seen) && b.role == row.role
    ensures RoleIds(rows + [row], row.user) == primaryIds + RolesIn(seen + [b])
  {
    RolesInAppend(seen, b);
    RolesInAppend(rows, row);
    hide RoleIds, RolesIn;
  }

  lemma AddRoleSource(rows: seq<RoleRow>, row: RoleRow, primaryIds: set<int>, seen: seq<RoleRow>, b: RoleRow)
    requires FromSecondary(rows, row.user, b.user, primaryIds, seen) && b.role == row.role
    ensures FromSecondary(rows + [row], row.user, b.user, primaryIds, seen + [b])
  {
  }

  lemma AddRole(was: seq<RoleRow>, rows: seq<RoleRow>, primary: string, secondary: string,
                secondaryRows: seq<RoleRow>, primaryIds: set<int>, n: nat)
    requires primary != secondary && n < |secondaryRows| && secondaryRows[n].role !in primaryIds
    requires MergedUpTo(was, rows, primary, secondary, secondaryRows, primaryIds, n)
    ensures MergedUpTo(
      was, rows + [RoleRow(primary, secondaryRows[n].role)], primary, secondary, secondaryRows, primaryIds, n + 1)
  {
    var b := secondaryRows[n];
    assert b in secondaryRows && b == RoleRow(secondary, b.role);
    hide RowsOf, OthersSame, FromSecondary, RoleIds, RolesIn, NoDuplicates;
    if NoDuplicates(was) {
      NewRoleIsNew(was, rows, primary, secondary, secondaryRows, primaryIds, n);
    }
    var row, seen := RoleRow(primary, b.role), secondaryRows[..n];
    assert secondaryRows[..n + 1] == seen + [b];
    AddRoleElsewhere(was, rows, row);
    AddRoleIds(rows, row, primaryIds, seen, b);
    AddRoleSource(rows, row, primaryIds, seen, b);
  }

  lemma RoleWritesAre(rows: seq<RoleRow>, primary: string, secondary: string)
    ensures var listed, ids := RowsOf(rows, secondary), RolesIn(RowsOf(rows, primary));
      RoleWrites(rows, primary, secondary) == Missing(listed, ids, |listed|) + 1 && Missing(listed, ids, 0) == 0
  {
  }

  lemma StartRoles(rows: seq<RoleRow>, primary: string, secondary: string)
    requires primary != secondary
    ensures MergedUpTo(rows, rows, primary, secondary, RowsOf(rows, secondary), RolesIn(RowsOf(rows, primary)), 0)
  {
    assert RolesIn(RowsOf(rows, primary)) == RoleIds(rows, primary);
  }

  lemma OthersKept(was: seq<RoleRow>, rows: seq<RoleRow>, primary: string, secondary: string,
                   secondaryRows: seq<RoleRow>, primaryIds: set<int>, n: nat)
    requires MergedUpTo(was, rows, primary, secondary, secondaryRows, primaryIds, n)
    ensures forall u :: u != primary ==> RowsOf(rows, u) == RowsOf(was, u)
  {
  }

  lemma FinishRoles(was: seq<RoleRow>, rows: seq<RoleRow>, primary: string, secondary: string,
                    secondaryRows: seq<RoleRow>, primaryIds: set<int>)
    requires primary != secondary
    requires MergedUpTo(was, rows, primary, secondary, secondaryRows, primaryIds, |secondaryRows|)
    ensures RolesMerged(was, Without(rows, secondary), primary, secondary)
  {
    var rows' := Without(rows, secondary);
    assert secondaryRows[..|secondaryRows|] == secondaryRows;
    assert RoleIds(rows', primary) == RoleIds(rows, primary);
    assert RoleIds(was, secondary) == RolesIn(secondaryRows);
    forall u | u != primary && u != secondary
      ensures RowsOf(rows', u) == RowsOf(was, u)
    {
      WithoutKeepsOthers(rows, secondary, u);
    }
    if NoDuplicates(was) {
      WithoutKeepsDistinct(rows, secondary);
    }
    if RowsOf(rows', secondary) != [] {
      assert RowsOf(rows', secondary)[0] in RowsOf(rows', secondary);
    }
  }

  // ----- Merges that fail -----

  /** Two active users, and a request to merge the second into the first. */
  method Requested(
    tokens: map<nat, ApiToken>, mode: SaveMode, migrator: MembershipService.Service?, memberMode: Membership.SaveMode)
    returns (service: Service, id: int)
    requires OneActive(tokens)
    ensures fresh(service) && service.Valid() && service.migrator == migrator && service.memberMode == memberMode
    ensures service.Confirmable(id, "a", "secret", 0) && service.requests[id].secondary == "b"
    ensures service.WritesNeeded("a", "b") == |TokensOf(tokens, "b")| + 3
    ensures service.CanSave("a", "b") <==> TokensSavable(mode, tokens, "a", "b")
  {
    hide OneActive, TokensSavable;
    var user := User(Active, "", None);
    service := new Service(map["a" := user, "b" := user], map[], map[], tokens, [], mode, migrator, memberMode);
    var request := service.InitiateMerge("a", "b", 0, "secret", true);
    id := request.value;
    assert BindingsOf(service.bindings, "b") == {};
  }

  /** A confirmation, and the same one again. */
  method MergeTwice(tokens: map<nat, ApiToken>, mode: SaveMode, writes: nat, again: nat)
    returns (first: Option<Failure>, second: Option<Failure>)
    requires OneActive(tokens)
    ensures first == None <==> TokensSavable(mode, tokens, "a", "b") && writes >= |TokensOf(tokens, "b")| + 3
    ensures !TokensSavable(mode, tokens, "a", "b") ==> first == second == Some(StoreFailed)
  {
    var service, id := Requested(tokens, mode, null, Membership.MoveRow);
    ghost var progress;
    first, progress := service.ConfirmMerge(id, "a", "secret", 0, writes);
    second, progress := service.ConfirmMerge(id, "a", "secret", 0, again);
  }

  /** A secondary with a single token cannot be merged where existing rows cannot be inserted again. */
  method OneTokenIsNotMerged(token: ApiToken, writes: nat, again: nat)
    returns (first: Option<Failure>, second: Option<Failure>)
    requires token.row.userId == "b"
    ensures first == second == Some(StoreFailed)
  {
    assert 7 in TokensOf(map[7 := token], "b");
    first, second := MergeTwice(map[7 := token], InsertOnly, writes, again);
  }

  /**
   Two users with unrevoked tokens of the same name, up to case, cannot be merged even where rows can be rewritten.
   */
  method SameNameIsNotMerged(first: ApiToken, second: ApiToken, writes: nat, again: nat)
    returns (r: Option<Failure>, r': Option<Failure>)
    requires first.row.userId == "a" && first.row.name == "CI" && !first.row.revoked
    requires second.row.userId == "b" && second.row.name == "ci" && !second.row.revoked
    ensures r == r' == Some(StoreFailed)
  {
    var tokens := map[1 := first, 2 := second];
    assert Text.Fold("CI") == Text.Fold("ci");
    assert ClashesAt(tokens, 2, "a", 1);
    r, r' := MergeTwice(tokens, Rewrite, writes, again);
  }

  /** A namespace owned by the second user, with the first one as a member. */
  method OwnedTeam() returns (namespaces: MembershipService.Service, id: nat)
    ensures fresh(namespaces) && namespaces.members == map[(id, "b") := "OWNER", (id, "a") := "MEMBER"]
  {
    namespaces := new MembershipService.Service(true);
    var created := namespaces.CreateNamespace("team", "", "b", true, true, true);
    id := created.value;
    var added := namespaces.AddMember(id, "a", "MEMBER", "b", true);
  }

  /** The migration takes two writes, and one of them leaves it half done. */
  lemma OneWriteIsHalf(m: Membership.Members, id: nat, mode: Membership.SaveMode, p: Membership.Progress,
    m': Membership.Members)
    requires m == map[(id, "b") := "OWNER", (id, "a") := "MEMBER"]
    ensures MembershipService.WritesNeeded(m, "a", "b") == 2
    ensures Membership.Migrated(mode, m, "a", "b", p, m') && MembershipService.StoppedAfter(m, "a", "b", 1, p)
      ==> Membership.IsOwner(m', id, "a") && Membership.IsOwner(m', id, "b")
  {
    var row := (id, "b");
    assert MembershipService.RowsOf(m, "b") == {row};
    MembershipService.WritesForOne(m, "a", "b", {row}, id);
    MembershipService.WritesForNone(m, "a", "b");
    assert {row} - {row} == {};
    assert MembershipService.Todo(m, "b", p.done) == if id in p.done then {} else {row};
    if Membership.Migrated(mode, m, "a", "b", p, m') && p.half == Some(id) {
      Membership.OwnersAfterMigration(mode, m, "a", "b", p, m', id, "a");
      Membership.OwnersAfterMigration(mode, m, "a", "b", p, m', id, "b");
    }
  }

  /** The merge into the member with one write less than it takes. */
  method HalfMigrate(service: Service, request: int, id: nat) returns (r: Option<Failure>)
    requires service.Valid() && service.Confirmable(request, "a", "secret", 0)
      && service.requests[request].secondary == "b"
    requires service.CanSave("a", "b") && service.WritesNeeded("a", "b") == 3
    requires service.migrator != null && service.migrator.members == map[(id, "b") := "OWNER", (id, "a") := "MEMBER"]
    modifies service, service.migrator
    ensures r == Some(MigrationFailed) && service.Valid() && service.Completed(request)
    ensures var m := service.migrator.members; Membership.IsOwner(m, id, "a") && Membership.IsOwner(m, id, "b")
  {
    hide Service.Valid, Service.AllMoved, Service.WritesNeeded, Service.CanSave;
    hide MembershipService.WritesNeeded, MembershipService.StoppedAfter, Membership.Migrated, Membership.Complete;
    ghost var was := service.migrator.members;
    ghost var progress;
    r, progress := service.ConfirmMerge(request, "a", "secret", 0, 4);
    OneWriteIsHalf(was, id, service.memberMode, progress, service.migrator.members);
  }

  /**
   The memberships of the owner of a namespace are migrated to a member of it, and the second write fails: both own the
   namespace, and the merge cannot be confirmed again.
   */
  method HalfMigratedMerge(mode: Membership.SaveMode)
    returns (r: Option<Failure>, r': Option<Failure>, m: Membership.Members, id: nat)
    ensures r == Some(MigrationFailed) && r' != None && r' != Some(StoreFailed) && r' != Some(MigrationFailed)
    ensures Membership.IsOwner(m, id, "a") && Membership.IsOwner(m, id, "b")
  {
    var namespaces;
    namespaces, id := OwnedTeam();
    var service, request := Requested(map[], Rewrite, namespaces, mode);
    r := HalfMigrate(service, request, id);
    m := namespaces.members;
    ghost var progress;
    r', progress := service.ConfirmMerge(request, "a", "secret", 0, 4);
  }
}
