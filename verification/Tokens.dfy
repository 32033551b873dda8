/** API tokens: creation, rotation and revocation over the table of a user's named tokens. */
module Tokens {
  import opened Wrappers
  import opened Text
  import opened Scopes

  const MAX_NAME := 64

  /** A row. `secret` stands for the raw token; hashing it is taken to be injective. */
  datatype Token = Token(
    userId: string, name: string, secret: string, scopeJson: string, expiresAt: Option<int>, revoked: bool)

  datatype Table = Table(rows: map<nat, Token>, nextId: nat)

  datatype Request = Request(
    userId: string, name: string, scopes: seq<string>, expiresAt: Option<int>, secret: string)

  /** Which store calls fail. */
  datatype Faults = Faults(lookup: bool, revoke: bool, save: bool)

  datatype Error = NameInvalid | NameDuplicate | StoreFailed

  predicate NameOk(name: string) {
    0 < |name| <= MAX_NAME
  }

  /** The rows `FindActiveByName` selects. */
  predicate Active(t: Token, userId: string, name: string) {
    !t.revoked && t.userId == userId && Fold(t.name) == Fold(name)
  }

  predicate HasActive(rows: map<nat, Token>, userId: string, name: string) {
    exists id :: id in rows && Active(rows[id], userId, name)
  }

  /** At most one unrevoked token per user and name, up to case. */
  ghost predicate OneActive(rows: map<nat, Token>) {
    forall i, j :: i in rows && j in rows && !rows[j].revoked && Active(rows[i], rows[j].userId, rows[j].name) ==>
      i == j
  }

  ghost predicate Inv(t: Table) {
    && (forall id :: id in t.rows ==> id < t.nextId)
    && (forall id :: id in t.rows ==> NameOk(t.rows[id].name) && Tight(t.rows[id].name, SPACES))
    && OneActive(t.rows)
  }

  // ----- Operations on the table -----

  function NewToken(q: Request): Token {
    Token(q.userId, Trim(q.name, SPACES), q.secret, Json(q.scopes), q.expiresAt, false)
  }

  function Create(t: Table, q: Request, saveFails: bool): Table {
    var name := Trim(q.name, SPACES);
    if !NameOk(name) || HasActive(t.rows, q.userId, name) || saveFails then t
    else Table(t.rows[t.nextId := NewToken(q)], t.nextId + 1)
  }

  /** Every active token of that name revoked. */
  function RevokeNamed(rows: map<nat, Token>, userId: string, name: string): map<nat, Token> {
    map id | id in rows :: if Active(rows[id], userId, name) then rows[id].(revoked := true) else rows[id]
  }

  function Rotate(t: Table, q: Request, f: Faults): Table {
    if f.lookup || (f.revoke && HasActive(t.rows, q.userId, q.name)) then t
    else Create(t.(rows := RevokeNamed(t.rows, q.userId, q.name)), q, f.save)
  }

  function Revoke(t: Table, id: nat, userId: string): Table {
    if id in t.rows && t.rows[id].userId == userId then t.(rows := t.rows[id := t.rows[id].(revoked := true)]) else t
  }

  class Service {
    var rows: map<nat, Token>
    var nextId: nat

    function Rows(): Table
      reads this
    {
      Table(rows, nextId)
    }

    constructor ()
      ensures Rows() == Table(map[], 0)
    {
      rows, nextId := map[], 0;
    }

    method FindActiveByName(userId: string, name: string) returns (found: Option<nat>)
      ensures found.Some? ==> found.value in rows && Active(rows[found.value], userId, name)
      ensures found.None? ==> !HasActive(rows, userId, name)
    {
      if id :| id in rows && Active(rows[id], userId, name) {
        found := Some(id);
      } else {
        found := None;
      }
    }

    /** The insert, guarded by the unique index on user and lower-case name of unrevoked tokens. */
    method Save(t: Token, fails: bool) returns (r: Result<nat, Error>)
      requires Inv(Rows()) && !t.revoked
      modifies this
      ensures r.Ok? <==> !fails && !HasActive(old(rows), t.userId, t.name)
      ensures r.Ok? ==> r.value == old(nextId) && Rows() == Table(old(rows)[old(nextId) := t], old(nextId) + 1)
      ensures r.Err? ==> Rows() == old(Rows()) && r.error == if fails then StoreFailed else NameDuplicate
    {
      if fails {
        return Err(StoreFailed);
      }
      var clash := FindActiveByName(t.userId, t.name);
      if clash.Some? {
        return Err(NameDuplicate);
      }
      r := Ok(nextId);
      rows := rows[nextId := t];
      nextId := nextId + 1;
    }

    /** A failing look-up is ignored, but then the index catches the duplicate. */
    method CreateToken(q: Request, lookupFails: bool, saveFails: bool) returns (r: Result<nat, Error>)
      requires Inv(Rows())
      modifies this
      ensures Rows() == Create(old(Rows()), q, saveFails)
      ensures r.Ok? <==> Rows() != old(Rows())
      ensures r.Ok? ==>
        && r.value == old(nextId) && r.value in rows
        && rows[r.value] == Token(q.userId, Trim(q.name, SPACES), q.secret, Json(q.scopes), q.expiresAt, false)
        && forall id :: id in old(rows) ==> id in rows && rows[id] == old(rows)[id]
      ensures r == Err(NameInvalid) <==> Trim(q.name, SPACES) == "" || |Trim(q.name, SPACES)| > 64
      ensures r == Err(NameDuplicate) ==> HasActive(old(rows), q.userId, Trim(q.name, SPACES))
    {
      var name := Trim(q.name, SPACES);
      if |name| == 0 || |name| > MAX_NAME {
        return Err(NameInvalid);
      }
      if !lookupFails {
        var existing := FindActiveByName(q.userId, Fold(name));
        FoldTwice(name);
        if existing.Some? {
          return Err(NameDuplicate);
        }
      }
      var json := ScopesToJson(q.scopes);
      r := Save(Token(q.userId, name, q.secret, json, q.expiresAt, false), saveFails);
    }

    method RotateToken(q: Request, f: Faults, secondLookupFails: bool) returns (r: Result<nat, Error>)
      requires Inv(Rows())
      modifies this
      ensures Rows() == Rotate(old(Rows()), q, f)
      ensures r.Ok? ==> r.value == old(nextId) && old(nextId) in rows && rows[old(nextId)] == NewToken(q)
      ensures r.Err? ==> nextId == old(nextId)
    {
      if f.lookup {
        return Err(StoreFailed);
      }
      var existing := FindActiveByName(q.userId, Fold(q.name));
      FoldTwice(q.name);
      if existing.Some? {
        if f.revoke {
          return Err(StoreFailed);
        }
        OnlyActive(rows, existing.value, q.userId, q.name);
        rows := rows[existing.value := rows[existing.value].(revoked := true)];
      } else {
        assert RevokeNamed(rows, q.userId, q.name) == rows;
      }
      RevokeNamedKeeps(old(Rows()), q.userId, q.name);
      r := CreateToken(q, secondLookupFails, f.save);
    }

    method RevokeToken(id: nat, userId: string)
      modifies this
      ensures Rows() == Revoke(old(Rows()), id, userId)
    {
      if id !in rows || rows[id].userId != userId {
        return;
      }
      rows := rows[id := rows[id].(revoked := true)];
    }
  }

  lemma OnlyActive(rows: map<nat, Token>, id: nat, userId: string, name: string)
    requires OneActive(rows) && id in rows && Active(rows[id], userId, name)
    ensures RevokeNamed(rows, userId, name) == rows[id := rows[id].(revoked := true)]
  {
    forall j | j in rows && Active(rows[j], userId, name)
      ensures j == id
    {
      assert Active(rows[j], rows[id].userId, rows[id].name);
    }
  }

  // ----- Every operation keeps the invariant -----

  lemma SameName(a: Token, b: Token)
    requires !a.revoked && !b.revoked
    ensures Active(a, b.userId, b.name) <==> Active(b, a.userId, a.name)
  {
  }

  lemma CreateKeeps(t: Table, q: Request, saveFails: bool)
    requires Inv(t)
    ensures Inv(Create(t, q, saveFails))
  {
    hide Fold, Trim, Json;
    var t' := Create(t, q, saveFails);
    var row := NewToken(q);
    if t' != t {
      forall j | j in t.rows && !t.rows[j].revoked
        ensures !Active(row, t.rows[j].userId, t.rows[j].name) && !Active(t.rows[j], row.userId, row.name)
      {
        assert !Active(t.rows[j], row.userId, row.name);
        SameName(row, t.rows[j]);
      }
    }
  }

  lemma RevokeNamedKeeps(t: Table, userId: string, name: string)
    requires Inv(t)
    ensures Inv(t.(rows := RevokeNamed(t.rows, userId, name)))
    ensures !HasActive(RevokeNamed(t.rows, userId, name), userId, name)
  {
    hide Fold, Trim;
    var rows' := RevokeNamed(t.rows, userId, name);
    forall i, j | i in rows' && j in rows' && !rows'[j].revoked && Active(rows'[i], rows'[j].userId, rows'[j].name)
      ensures i == j
    {
      assert Active(t.rows[i], t.rows[j].userId, t.rows[j].name);
    }
  }

  lemma RevokeKeeps(t: Table, id: nat, userId: string)
    requires Inv(t)
    ensures Inv(Revoke(t, id, userId))
  {
    hide Fold, Trim;
    var rows' := Revoke(t, id, userId).rows;
    forall i, j | i in rows' && j in rows' && !rows'[j].revoked && Active(rows'[i], rows'[j].userId, rows'[j].name)
      ensures i == j
    {
      assert Active(t.rows[i], t.rows[j].userId, t.rows[j].name);
    }
  }

  datatype Op =
    | CreateOp(q: Request, saveFails: bool)
    | RotateOp(q: Request, f: Faults)
    | RevokeOp(id: nat, userId: string)

  function Do(t: Table, op: Op): Table {
    match op
    case CreateOp(q, saveFails) => Create(t, q, saveFails)
    case RotateOp(q, f) => Rotate(t, q, f)
    case RevokeOp(id, userId) => Revoke(t, id, userId)
  }

  function After(t: Table, ops: seq<Op>): Table
    decreases |ops|
  {
    if ops == [] then t else After(Do(t, ops[0]), ops[1..])
  }

  /** In every serial run, failing store calls included, each user has at most one unrevoked token per name. */
  lemma {:induction false} AfterKeepsOneActive(t: Table, ops: seq<Op>)
    requires Inv(t)
    ensures Inv(After(t, ops)) && OneActive(After(t, ops).rows)
    decreases |ops|
  {
    if ops != [] {
      match ops[0] {
        case CreateOp(q, saveFails) => CreateKeeps(t, q, saveFails);
        case RotateOp(q, f) =>
          RevokeNamedKeeps(t, q.userId, q.name);
          CreateKeeps(t.(rows := RevokeNamed(t.rows, q.userId, q.name)), q, f.save);
        case RevokeOp(id, userId) => RevokeKeeps(t, id, userId);
      }
      hide Inv, OneActive;
      AfterKeepsOneActive(Do(t, ops[0]), ops[1..]);
    }
  }

  // ----- Whose tokens an operation touches -----

  function UserOf(op: Op): string {
    match op
    case CreateOp(q, _) => q.userId
    case RotateOp(q, _) => q.userId
    case RevokeOp(_, userId) => userId
  }

  /** A token is never deleted; it changes only by being revoked, and only by an operation of its own user. */
  lemma OnlyOwnTokensChange(t: Table, op: Op, id: nat)
    requires Inv(t) && id in t.rows
    ensures id in Do(t, op).rows
    ensures Do(t, op).rows[id] != t.rows[id] ==>
      !t.rows[id].revoked && Do(t, op).rows[id] == t.rows[id].(revoked := true) && UserOf(op) == t.rows[id].userId
  {
    hide Fold, Trim, Json;
  }

  /**
   Over every run without operations of a user, the tokens of that user stay what they are, and no others are made.
   */
  lemma {:induction false} OthersTouchNothing(t: Table, ops: seq<Op>, user: string, id: nat)
    requires Inv(t) && forall i :: 0 <= i < |ops| ==> UserOf(ops[i]) != user
    ensures id in t.rows && t.rows[id].userId == user ==>
      id in After(t, ops).rows && After(t, ops).rows[id] == t.rows[id]
    ensures id in After(t, ops).rows && After(t, ops).rows[id].userId == user ==>
      id in t.rows && t.rows[id].userId == user
    decreases |ops|
  {
    if ops != [] {
      AfterKeepsOneActive(t, [ops[0]]);
      assert After(t, [ops[0]]) == Do(t, ops[0]) by { assert [ops[0]][1..] == []; }
      if id in t.rows {
        OnlyOwnTokensChange(t, ops[0], id);
      }
      NewTokenIsOwn(t, ops[0], id);
      assert UserOf(ops[0]) != user && forall i :: 0 <= i < |ops[1..]| ==> UserOf(ops[1..][i]) != user;
      hide Do, Inv, UserOf;
      OthersTouchNothing(Do(t, ops[0]), ops[1..], user, id);
    }
  }

  lemma NewTokenIsOwn(t: Table, op: Op, id: nat)
    ensures id !in t.rows && id in Do(t, op).rows ==> Do(t, op).rows[id].userId == UserOf(op)
  {
    hide Fold, Trim, Json;
  }

  /** The owner's revocation takes effect, and then for good. */
  lemma RevokedForGood(t: Table, id: nat, ops: seq<Op>)
    requires Inv(t) && id in t.rows
    ensures var t' := After(Do(t, RevokeOp(id, t.rows[id].userId)), ops); id in t'.rows && t'.rows[id].revoked
  {
    RevokeKeeps(t, id, t.rows[id].userId);
    StaysRevoked(Revoke(t, id, t.rows[id].userId), id, ops);
  }

  lemma {:induction false} StaysRevoked(t: Table, id: nat, ops: seq<Op>)
    requires Inv(t) && id in t.rows && t.rows[id].revoked
    ensures id in After(t, ops).rows && After(t, ops).rows[id].revoked
    decreases |ops|
  {
    if ops != [] {
      OnlyOwnTokensChange(t, ops[0], id);
      AfterKeepsOneActive(t, [ops[0]]);
      assert After(t, [ops[0]]) == Do(t, ops[0]) by { assert [ops[0]][1..] == []; }
      hide Do, Inv;
      StaysRevoked(Do(t, ops[0]), id, ops[1..]);
    }
  }

  // ----- What rotation does -----

  const NO_FAULTS := Faults(false, false, false)

  predicate Succeeds(t: Table, q: Request, f: Faults) {
    Rotate(t, q, f).nextId == t.nextId + 1
  }

  /** A name with outer white space matches no stored token. */
  lemma PaddedMatchesNothing(t: Table, userId: string, name: string)
    requires Inv(t) && HasActive(t.rows, userId, name)
    ensures Trim(name, SPACES) == name && NameOk(name)
  {
    var id :| id in t.rows && Active(t.rows[id], userId, name);
    FoldTight(t.rows[id].name, name);
    TrimTight(name, SPACES);
  }

  lemma NoneToRevoke(rows: map<nat, Token>, userId: string, name: string)
    requires !HasActive(rows, userId, name)
    ensures RevokeNamed(rows, userId, name) == rows
  {
  }

  /**
   Rotation looks the name up as it was given but creates the token under the trimmed name. So it succeeds
   exactly when the trimmed name is valid and either nothing was trimmed or no token has the trimmed name.
   */
  lemma RotateSucceedsIff(t: Table, q: Request)
    requires Inv(t)
    ensures Succeeds(t, q, NO_FAULTS) <==>
      && NameOk(Trim(q.name, SPACES))
      && (Trim(q.name, SPACES) == q.name || !HasActive(t.rows, q.userId, Trim(q.name, SPACES)))
  {
    hide Inv, Fold, Trim;
    RevokeNamedKeeps(t, q.userId, q.name);
    if HasActive(t.rows, q.userId, q.name) {
      PaddedMatchesNothing(t, q.userId, q.name);
    } else {
      NoneToRevoke(t.rows, q.userId, q.name);
    }
  }

  /** Without failing store calls, rotation changes nothing unless it succeeds: no token is lost. */
  lemma RotateAllOrNothing(t: Table, q: Request)
    requires Inv(t)
    ensures !Succeeds(t, q, NO_FAULTS) ==> Rotate(t, q, NO_FAULTS) == t
    ensures Succeeds(t, q, NO_FAULTS) ==>
      Rotate(t, q, NO_FAULTS).rows == RevokeNamed(t.rows, q.userId, q.name)[t.nextId := NewToken(q)]
  {
    hide Inv, Fold, Trim;
    RevokeNamedKeeps(t, q.userId, q.name);
    if HasActive(t.rows, q.userId, q.name) {
      PaddedMatchesNothing(t, q.userId, q.name);
    } else {
      NoneToRevoke(t.rows, q.userId, q.name);
    }
  }

  /** The revocation and the insert are two writes: the token is lost exactly when only the insert fails. */
  lemma RotateLosesIff(t: Table, q: Request, f: Faults)
    requires Inv(t) && HasActive(t.rows, q.userId, q.name)
    ensures !HasActive(Rotate(t, q, f).rows, q.userId, q.name) <==> !f.lookup && !f.revoke && f.save
  {
    hide Inv, Fold, Trim;
    PaddedMatchesNothing(t, q.userId, q.name);
    RevokeNamedKeeps(t, q.userId, q.name);
    var t' := Rotate(t, q, f);
    if !f.lookup && !f.revoke && !f.save {
      assert t'.rows[t.nextId] == NewToken(q) && Active(t'.rows[t.nextId], q.userId, q.name);
    }
  }

  /**
   The token's text is the array of the scopes asked for; plain scopes come back from the JSONB column as they were
   asked for, once each, exactly when none of them is empty or has a comma.
   */
  lemma StoredScopes(t: Table, q: Request, saveFails: bool)
    requires Create(t, q, saveFails) != t && AllPlain(q.scopes)
    ensures Create(t, q, saveFails).rows[t.nextId].scopeJson == Json(q.scopes)
    ensures Parsed(Column(q.scopes)) == Dedup(q.scopes)
            <==> forall i :: 0 <= i < |q.scopes| ==> q.scopes[i] != "" && ',' !in q.scopes[i]
  {
    hide Parsed, Dedup, Column;
    ColumnRoundTrip(q.scopes);
  }
}
