/**
 Namespaces and their members. Every operation of the member service, the creation and deletion of a namespace and
 the migration of memberships in an account merge, with every failing repository call that leaves a trace; and when
 they keep exactly one OWNER per namespace.
 */
module Membership {
  import opened Wrappers
  import Slug

  datatype Namespace = Namespace(slug: string, kind: string, status: string)

  /** The role of each user in each namespace: rows are unique by namespace and user. */
  type Members = map<(nat, string), string>

  datatype Failure =
    | InvalidSlug | SlugTaken | CannotBeOwner | NamespaceNotFound | NamespaceNotActive | Forbidden
    | AlreadyExists | MemberNotFound | CannotRemoveOwner | GlobalImmutable | NotAuthorized | HasDependencies
    | StoreFailed

  datatype Entry = Entry(user: string, role: string)

  datatype Rejection = Rejection(user: string, reason: Failure)

  // ----- Owners -----

  predicate IsOwner(m: Members, ns: nat, user: string) {
    (ns, user) in m && m[(ns, user)] == "OWNER"
  }

  predicate CanAdminister(m: Members, ns: nat, user: string) {
    (ns, user) in m && (m[(ns, user)] == "OWNER" || m[(ns, user)] == "ADMIN")
  }

  ghost predicate OneOwner(m: Members, ns: nat) {
    exists owner :: IsOwner(m, ns, owner) && forall u :: IsOwner(m, ns, u) ==> u == owner
  }

  ghost predicate NoOwner(m: Members, ns: nat) {
    forall u :: !IsOwner(m, ns, u)
  }

  /** Setting the role of a user who is not the owner to anything but OWNER. */
  lemma PutKeepsOwner(m: Members, ns: nat, key: (nat, string), role: string)
    requires OneOwner(m, ns) && role != "OWNER" && !IsOwner(m, key.0, key.1)
    ensures OneOwner(m[key := role], ns)
  {
    var owner :| IsOwner(m, ns, owner) && forall u :: IsOwner(m, ns, u) ==> u == owner;
    var m' := m[key := role];
    assert IsOwner(m', ns, owner);
    forall u | IsOwner(m', ns, u)
      ensures u == owner
    {
      assert IsOwner(m, ns, u);
    }
  }

  lemma DropKeepsOwner(m: Members, ns: nat, keys: set<(nat, string)>)
    requires OneOwner(m, ns) && forall u :: (ns, u) in keys ==> !IsOwner(m, ns, u)
    ensures OneOwner(m - keys, ns)
  {
    var owner :| IsOwner(m, ns, owner) && forall u :: IsOwner(m, ns, u) ==> u == owner;
    assert IsOwner(m - keys, ns, owner);
    forall u | IsOwner(m - keys, ns, u)
      ensures u == owner
    {
      assert IsOwner(m, ns, u);
    }
  }

  lemma SameOwner(m: Members, ns: nat, a: string, b: string)
    requires OneOwner(m, ns)
    ensures IsOwner(m, ns, a) && IsOwner(m, ns, b) ==> a == b
  {
  }

  /** Demote the owner, then promote a member, who may be the owner again. */
  lemma HandoverKeepsOwner(m: Members, ns: nat, other: nat, from: string, to: string)
    requires OneOwner(m, other) && IsOwner(m, ns, from) && (ns, to) in m
    ensures OneOwner(m[(ns, from) := "ADMIN"][(ns, to) := "OWNER"], other)
  {
    var owner :| IsOwner(m, other, owner) && forall u :: IsOwner(m, other, u) ==> u == owner;
    var m' := m[(ns, from) := "ADMIN"][(ns, to) := "OWNER"];
    var owner' := if other == ns then to else owner;
    assert IsOwner(m', other, owner');
    forall u | IsOwner(m', other, u)
      ensures u == owner'
    {
      SameOwner(m, other, u, from);
      SameOwner(m, other, u, owner);
      assert m'[(other, u)] == "OWNER";
    }
  }

  /** Only the first of the two writes: the namespace is left without an owner. */
  lemma HalfHandoverLosesOwner(m: Members, ns: nat, from: string)
    requires OneOwner(m, ns) && IsOwner(m, ns, from)
    ensures NoOwner(m[(ns, from) := "ADMIN"], ns)
  {
    var m' := m[(ns, from) := "ADMIN"];
    forall u
      ensures !IsOwner(m', ns, u)
    {
      if IsOwner(m', ns, u) { assert IsOwner(m, ns, u); }
    }
  }

  function OfNamespace(m: Members, ns: nat): set<(nat, string)> {
    set k | k in m && k.0 == ns
  }

  lemma CreationKeepsOthers(m: Members, ns: nat, created: nat, user: string)
    requires OneOwner(m, ns) && ns != created
    ensures OneOwner(m[(created, user) := "OWNER"], ns)
  {
    var owner :| IsOwner(m, ns, owner) && forall u :: IsOwner(m, ns, u) ==> u == owner;
    var m' := m[(created, user) := "OWNER"];
    assert IsOwner(m', ns, owner);
    forall u | IsOwner(m', ns, u)
      ensures u == owner
    {
      assert IsOwner(m, ns, u);
    }
  }

  lemma DemotionElsewhere(m: Members, ns: nat, other: nat, user: string)
    requires OneOwner(m, ns) && ns != other
    ensures OneOwner(m[(other, user) := "ADMIN"], ns)
  {
    var owner :| IsOwner(m, ns, owner) && forall u :: IsOwner(m, ns, u) ==> u == owner;
    var m' := m[(other, user) := "ADMIN"];
    assert IsOwner(m', ns, owner);
    forall u | IsOwner(m', ns, u)
      ensures u == owner
    {
      assert IsOwner(m, ns, u);
    }
  }

  // ----- Migration of memberships -----

  /**
   How a row saved under another user is stored: as the row it was, which moves it, or by its key
   (namespace, user), which inserts a second row and leaves the first one behind.
   */
  datatype SaveMode = MoveRow | UpsertByKey

  function RolePriority(role: string): (p: nat)
    ensures p == 3 <==> role == "OWNER"
    ensures p <= 3
  {
    match role
    case "OWNER" => 3
    case "ADMIN" => 2
    case "MEMBER" => 1
    case _ => 0
  }

  function HigherRole(existing: string, other: string): string {
    if RolePriority(other) > RolePriority(existing) then other else existing
  }

  function Lookup(m: Members, ns: nat, user: string): Option<string> {
    if (ns, user) in m then Some(m[(ns, user)]) else None
  }

  /** The role a user holds in a namespace after the memberships of `secondary` went to `primary`. */
  ghost function MigratedRole(
    mode: SaveMode, m: Members, primary: string, secondary: string, ns: nat, user: string): Option<string>
  {
    if (ns, secondary) !in m then Lookup(m, ns, user)
    else if user == primary then
      Some(if (ns, primary) in m then HigherRole(m[(ns, primary)], m[(ns, secondary)]) else m[(ns, secondary)])
    else if user == secondary then
      if mode == UpsertByKey && (ns, primary) !in m then Some(m[(ns, secondary)]) else None
    else
      Lookup(m, ns, user)
  }

  /**
   How far a migration got: the namespaces it has dealt with, and the one, if any, in which the primary has been given
   the secondary's role while the secondary's row has not been deleted.
   */
  datatype Progress = Progress(done: set<nat>, half: Option<nat>)

  ghost function RoleAfter(
    mode: SaveMode, m: Members, primary: string, secondary: string, p: Progress, ns: nat, user: string): Option<string>
  {
    if p.half == Some(ns) && user == primary then Lookup(m, ns, secondary)
    else if ns in p.done && p.half != Some(ns) then MigratedRole(mode, m, primary, secondary, ns, user)
    else Lookup(m, ns, user)
  }

  ghost predicate Migrated(mode: SaveMode, m: Members, primary: string, secondary: string, p: Progress, m': Members) {
    && (forall ns: nat :: p.half == Some(ns) ==>
          (ns, primary) in m && (ns, secondary) in m
            && RolePriority(m[(ns, secondary)]) > RolePriority(m[(ns, primary)]))
    && (forall ns: nat, user: string :: Lookup(m', ns, user) == RoleAfter(mode, m, primary, secondary, p, ns, user))
  }

  /** A migration that has ended: no namespace of the secondary is left. */
  ghost predicate Complete(m: Members, secondary: string, p: Progress) {
    p.half == None && forall ns: nat :: (ns, secondary) in m ==> ns in p.done
  }

  lemma NothingMigrated(mode: SaveMode, m: Members, primary: string, secondary: string)
    ensures Migrated(mode, m, primary, secondary, Progress({}, None), m)
  {
  }

  /** One more namespace, dealt with or left in the middle. */
  lemma OneMigrated(
    mode: SaveMode, was: Members, primary: string, secondary: string, done: set<nat>, ns: nat, m: Members, m': Members)
    requires primary != secondary && Migrated(mode, was, primary, secondary, Progress(done, None), m) && ns !in done
    requires forall n: nat, u: string :: n != ns || (u != primary && u != secondary) ==>
      Lookup(m', n, u) == Lookup(m, n, u)
    requires Lookup(m', ns, primary) == MigratedRole(mode, was, primary, secondary, ns, primary)
    requires Lookup(m', ns, secondary) == MigratedRole(mode, was, primary, secondary, ns, secondary)
    ensures Migrated(mode, was, primary, secondary, Progress(done + {ns}, None), m')
  {
    forall n: nat, u: string
      ensures Lookup(m', n, u) == RoleAfter(mode, was, primary, secondary, Progress(done + {ns}, None), n, u)
    {
      assert Lookup(m, n, u) == RoleAfter(mode, was, primary, secondary, Progress(done, None), n, u);
    }
  }

  lemma HalfMigrated(
    mode: SaveMode, was: Members, primary: string, secondary: string, done: set<nat>, ns: nat, m: Members, m': Members)
    requires primary != secondary && Migrated(mode, was, primary, secondary, Progress(done, None), m) && ns !in done
    requires (ns, primary) in was && (ns, secondary) in was
    requires RolePriority(was[(ns, secondary)]) > RolePriority(was[(ns, primary)])
    requires m' == m[(ns, primary) := was[(ns, secondary)]]
    ensures Migrated(mode, was, primary, secondary, Progress(done, Some(ns)), m')
  {
    forall n: nat, u: string
      ensures Lookup(m', n, u) == RoleAfter(mode, was, primary, secondary, Progress(done, Some(ns)), n, u)
    {
      assert Lookup(m, n, u) == RoleAfter(mode, was, primary, secondary, Progress(done, None), n, u);
    }
  }

  function PriorityOf(m: Members, ns: nat, user: string): nat {
    if (ns, user) in m then RolePriority(m[(ns, user)]) else 0
  }

  function Max(a: nat, b: nat): nat {
    if a >= b then a else b
  }

  /** Under either reading the primary ends with the higher of the two roles, and nobody else's role changes. */
  lemma MigrationTakesHigherRole(
    mode: SaveMode, m: Members, primary: string, secondary: string, p: Progress, m': Members, ns: nat)
    requires primary != secondary && Migrated(mode, m, primary, secondary, p, m') && Complete(m, secondary, p)
    ensures PriorityOf(m', ns, primary) == Max(PriorityOf(m, ns, primary), PriorityOf(m, ns, secondary))
    ensures forall u :: u != primary && u != secondary ==> Lookup(m', ns, u) == Lookup(m, ns, u)
  {
    assert Lookup(m', ns, primary) == RoleAfter(mode, m, primary, secondary, p, ns, primary);
  }

  /** By name: OWNER before ADMIN before MEMBER, and a role of no rank only where there is nothing better. */
  lemma MigrationGivesRole(
    mode: SaveMode, m: Members, primary: string, secondary: string, p: Progress, m': Members, ns: nat)
    requires primary != secondary && Migrated(mode, m, primary, secondary, p, m') && Complete(m, secondary, p)
    requires (ns, primary) in m || (ns, secondary) in m
    ensures var a, b := Lookup(m, ns, primary), Lookup(m, ns, secondary);
      Lookup(m', ns, primary) ==
        if a == Some("OWNER") || b == Some("OWNER") then Some("OWNER")
        else if a == Some("ADMIN") || b == Some("ADMIN") then Some("ADMIN")
        else if a == Some("MEMBER") || b == Some("MEMBER") then Some("MEMBER")
        else if a.Some? then a else b
  {
    assert Lookup(m', ns, primary) == RoleAfter(mode, m, primary, secondary, p, ns, primary);
  }

  lemma MigrationMovesRows(m: Members, primary: string, secondary: string, p: Progress, m': Members, ns: nat)
    requires primary != secondary && Migrated(MoveRow, m, primary, secondary, p, m') && Complete(m, secondary, p)
    ensures (ns, secondary) !in m'
    ensures (ns, primary) in m' <==> (ns, primary) in m || (ns, secondary) in m
  {
    assert Lookup(m', ns, secondary) == RoleAfter(MoveRow, m, primary, secondary, p, ns, secondary);
    assert Lookup(m', ns, primary) == RoleAfter(MoveRow, m, primary, secondary, p, ns, primary);
  }

  /** The progress of a migration leaves two owners in a namespace, or upserting by key does. */
  predicate MigrationBreaks(mode: SaveMode, m: Members, primary: string, secondary: string, p: Progress, ns: nat) {
    && IsOwner(m, ns, secondary)
    && (p.half == Some(ns) || (ns in p.done && mode == UpsertByKey && (ns, primary) !in m))
  }

  lemma OwnersAfterMigration(
    mode: SaveMode, m: Members, primary: string, secondary: string, p: Progress, m': Members, ns: nat, u: string)
    requires primary != secondary && Migrated(mode, m, primary, secondary, p, m')
    ensures var touched := p.half == Some(ns) || ns in p.done;
      && (u == primary ==>
            (IsOwner(m', ns, u) <==> IsOwner(m, ns, primary) || (touched && IsOwner(m, ns, secondary))))
      && (u == secondary ==>
            (IsOwner(m', ns, u) <==>
              IsOwner(m, ns, secondary) && (!touched || MigrationBreaks(mode, m, primary, secondary, p, ns))))
      && (u != primary && u != secondary ==> (IsOwner(m', ns, u) <==> IsOwner(m, ns, u)))
  {
    assert Lookup(m', ns, u) == RoleAfter(mode, m, primary, secondary, p, ns, u);
    assert IsOwner(m', ns, u) <==> Lookup(m', ns, u) == Some("OWNER");
  }

  /**
   A migration, complete or not, keeps the one owner exactly in the namespaces that it does not break: where the
   secondary is not the owner; where the rows move and no deletion is outstanding; where the primary was a member.
   */
  lemma MigrationKeepsOwnerIff(
    mode: SaveMode, m: Members, primary: string, secondary: string, p: Progress, m': Members, ns: nat)
    requires primary != secondary && Migrated(mode, m, primary, secondary, p, m') && OneOwner(m, ns)
    ensures OneOwner(m', ns) <==> !MigrationBreaks(mode, m, primary, secondary, p, ns)
  {
    var owner :| IsOwner(m, ns, owner) && forall u :: IsOwner(m, ns, u) ==> u == owner;
    OwnersAfterMigration(mode, m, primary, secondary, p, m', ns, primary);
    OwnersAfterMigration(mode, m, primary, secondary, p, m', ns, secondary);
    OwnersAfterMigration(mode, m, primary, secondary, p, m', ns, owner);
    if MigrationBreaks(mode, m, primary, secondary, p, ns) {
      assert IsOwner(m', ns, primary) && IsOwner(m', ns, secondary);
    } else {
      var owner' := if owner == secondary && ns in p.done then primary else owner;
      assert IsOwner(m', ns, owner');
      forall u | IsOwner(m', ns, u)
        ensures u == owner'
      {
        OwnersAfterMigration(mode, m, primary, secondary, p, m', ns, u);
      }
    }
  }

  lemma MigrationKeepsNoOwner(
    mode: SaveMode, m: Members, primary: string, secondary: string, p: Progress, m': Members, ns: nat)
    requires primary != secondary && Migrated(mode, m, primary, secondary, p, m') && NoOwner(m, ns)
    ensures NoOwner(m', ns)
  {
    forall u
      ensures !IsOwner(m', ns, u)
    {
      OwnersAfterMigration(mode, m, primary, secondary, p, m', ns, u);
    }
  }

  /** The members and the three buckets of a batch result. */
  datatype Batch = Batch(members: Members, added: seq<Entry>, existing: seq<string>, rejected: seq<Rejection>)

  /** What one entry does, given the outcomes of its look-up and its save. */
  function BatchEntry(b: Batch, id: nat, entry: Entry, lookupOk: bool, saveOk: bool): Batch {
    if entry.role == "OWNER" then b.(rejected := b.rejected + [Rejection(entry.user, CannotBeOwner)])
    else if !lookupOk then b.(rejected := b.rejected + [Rejection(entry.user, StoreFailed)])
    else if (id, entry.user) in b.members then b.(existing := b.existing + [entry.user])
    else if !saveOk then b.(rejected := b.rejected + [Rejection(entry.user, StoreFailed)])
    else b.(members := b.members[(id, entry.user) := entry.role], added := b.added + [entry])
  }

  function BatchAfter(
    was: Members, id: nat, entries: seq<Entry>, lookupOk: nat -> bool, saveOk: nat -> bool, n: nat): Batch
    requires n <= |entries|
  {
    if n == 0 then Batch(was, [], [], [])
    else
      var b := BatchAfter(was, id, entries, lookupOk, saveOk, n - 1);
      BatchEntry(b, id, entries[n - 1], lookupOk(n - 1), saveOk(n - 1))
  }

  /** Entry `i` would make `user` a member if the user were none yet. */
  predicate Joins(entries: seq<Entry>, lookupOk: nat -> bool, saveOk: nat -> bool, i: nat, user: string)
    requires i < |entries|
  {
    entries[i].user == user && entries[i].role != "OWNER" && lookupOk(i) && saveOk(i)
  }

  /**
   The members after a batch: those before it with their roles, and whom some entry lets join with the role of the
   first.
   */
  lemma {:induction false} BatchMembers(
    was: Members, id: nat, entries: seq<Entry>, lookupOk: nat -> bool, saveOk: nat -> bool, n: nat, user: string)
    requires n <= |entries|
    ensures var m := BatchAfter(was, id, entries, lookupOk, saveOk, n).members;
      && ((id, user) in was ==> (id, user) in m && m[(id, user)] == was[(id, user)])
      && ((id, user) !in was && (id, user) !in m ==> forall i: nat :: i < n ==>
           !Joins(entries, lookupOk, saveOk, i, user))
    ensures var m := BatchAfter(was, id, entries, lookupOk, saveOk, n).members;
      (id, user) !in was && (id, user) in m ==>
        exists i: nat :: i < n && m[(id, user)] == entries[i].role && Joins(entries, lookupOk, saveOk, i, user)
          && forall j: nat :: j < i ==> !Joins(entries, lookupOk, saveOk, j, user)
    decreases n
  {
    if n > 0 {
      BatchMembers(was, id, entries, lookupOk, saveOk, n - 1, user);
      assert Joins(entries, lookupOk, saveOk, n - 1, user) ==> entries[n - 1].user == user;
    }
  }

  // ----- The operations, on values -----

  datatype State = State(namespaces: map<nat, Namespace>, members: Members, nextId: nat, transactional: bool)

  /** Every operation with the outcomes of the repository calls that matter. */
  datatype Op =
    | Create(slug: string, kind: string, creator: string, lookupOk: bool, namespaceSaved: bool, memberSaved: bool)
    | Delete(id: nat, user: string, hasDependencies: bool, membersDeleted: bool, namespaceDeleted: bool)
    | Add(id: nat, user: string, role: string, caller: string, saved: bool)
    | Remove(id: nat, user: string, caller: string, deleted: bool)
    | Update(id: nat, user: string, role: string, caller: string, saved: bool)
    | Transfer(id: nat, newOwner: string, currentOwner: string, writes: nat)
    | AddBatch(id: nat, entries: seq<Entry>, caller: string, lookups: seq<bool>, saves: seq<bool>)
    | Migrate(mode: SaveMode, primary: string, secondary: string, progress: Progress)

  predicate Taken(s: State, slug: string) {
    exists id :: id in s.namespaces && s.namespaces[id].slug == slug
  }

  /** The row an insert by slug hits: the one that has the slug, or a new one. */
  ghost function TargetOf(s: State, slug: string): nat {
    if Taken(s, slug) then var id :| id in s.namespaces && s.namespaces[id].slug == slug; id else s.nextId
  }

  /** A failing look-up of the slug is ignored, and then the insert updates the namespace that has it. */
  predicate CreateProceeds(s: State, op: Op)
    requires op.Create?
  {
    Slug.Validate(op.slug) == None && !(op.lookupOk && Taken(s, op.slug)) && op.namespaceSaved
  }

  ghost function Created(s: State, op: Op): State
    requires op.Create?
  {
    if !CreateProceeds(s, op) then s
    else
      var id := TargetOf(s, op.slug);
      var row := Namespace(op.slug, if op.kind == "" then "TEAM" else op.kind, "ACTIVE");
      var s1 := s.(namespaces := s.namespaces[id := row], nextId := if id == s.nextId then id + 1 else s.nextId);
      if !op.memberSaved then s1
      else s1.(members := s1.members[(id, op.creator) := "OWNER"])
  }

  predicate DeleteProceeds(s: State, op: Op)
    requires op.Delete?
  {
    && op.id in s.namespaces && s.namespaces[op.id].slug != "global" && IsOwner(s.members, op.id, op.user)
    && !op.hasDependencies && op.membersDeleted
  }

  /** Members go first; when removing its own row fails the namespace is left without any. */
  function Deleted(s: State, op: Op): State
    requires op.Delete?
  {
    if !DeleteProceeds(s, op) then s
    else
      var s1 := s.(members := s.members - OfNamespace(s.members, op.id));
      if op.namespaceDeleted then s1.(namespaces := s.namespaces - {op.id}) else s1
  }

  predicate ActiveTeam(s: State, id: nat) {
    id in s.namespaces && s.namespaces[id].kind == "TEAM" && s.namespaces[id].status == "ACTIVE"
  }

  predicate Manages(s: State, id: nat, caller: string) {
    ActiveTeam(s, id) && CanAdminister(s.members, id, caller)
  }

  predicate AddSucceeds(s: State, op: Op)
    requires op.Add?
  {
    op.role != "OWNER" && Manages(s, op.id, op.caller) && (op.id, op.user) !in s.members && op.saved
  }

  predicate RemoveSucceeds(s: State, op: Op)
    requires op.Remove?
  {
    Manages(s, op.id, op.caller) && (op.id, op.user) in s.members && !IsOwner(s.members, op.id, op.user) && op.deleted
  }

  predicate UpdateSucceeds(s: State, op: Op)
    requires op.Update?
  {
    && op.role != "OWNER" && Manages(s, op.id, op.caller)
    && (op.id, op.user) in s.members && !IsOwner(s.members, op.id, op.user) && op.saved
  }

  predicate TransferProceeds(s: State, op: Op)
    requires op.Transfer?
  {
    ActiveTeam(s, op.id) && IsOwner(s.members, op.id, op.currentOwner) && (op.id, op.newOwner) in s.members
  }

  /** The two writes run in one transaction when there is a transactor; `writes` of them succeed. */
  function Transferred(s: State, op: Op): State
    requires op.Transfer?
  {
    if !TransferProceeds(s, op) || op.writes == 0 then s
    else
      var demoted := s.members[(op.id, op.currentOwner) := "ADMIN"];
      if op.writes >= 2 then s.(members := demoted[(op.id, op.newOwner) := "OWNER"])
      else if s.transactional then s
      else s.(members := demoted)
  }

  function Outcome(oks: seq<bool>): nat -> bool {
    (i: nat) => i < |oks| && oks[i]
  }

  function Batched(s: State, op: Op): Batch
    requires op.AddBatch?
  {
    if Manages(s, op.id, op.caller) then
      BatchAfter(s.members, op.id, op.entries, Outcome(op.lookups), Outcome(op.saves), |op.entries|)
    else
      Batch(s.members, [], [], [])
  }

  /** What an operation does to the tables. */
  ghost predicate Does(s: State, op: Op, s': State) {
    match op
    case Create(_, _, _, _, _, _) => s' == Created(s, op)
    case Delete(_, _, _, _, _) => s' == Deleted(s, op)
    case Add(id, user, role, _, _) =>
      s' == if AddSucceeds(s, op) then s.(members := s.members[(id, user) := role]) else s
    case Remove(id, user, _, _) =>
      s' == if RemoveSucceeds(s, op) then s.(members := s.members - {(id, user)}) else s
    case Update(id, user, role, _, _) =>
      s' == if UpdateSucceeds(s, op) then s.(members := s.members[(id, user) := role]) else s
    case Transfer(_, _, _, _) => s' == Transferred(s, op)
    case AddBatch(_, _, _, _, _) => s' == s.(members := Batched(s, op).members)
    case Migrate(mode, primary, secondary, progress) =>
      && primary != secondary && s' == s.(members := s'.members)
      && Migrated(mode, s.members, primary, secondary, progress, s'.members)
  }

  /** Ids are used once, slugs are unique, and members belong to namespaces. */
  ghost predicate WellFormed(s: State) {
    && (forall id :: id in s.namespaces ==> id < s.nextId)
    && (forall i, j :: i in s.namespaces && j in s.namespaces && s.namespaces[i].slug == s.namespaces[j].slug ==>
         i == j)
    && (forall k :: k in s.members ==> k.0 in s.namespaces)
  }

  // ----- When an operation breaks the owner -----

  /**
   Exactly what leaves a namespace without an owner: a creation that stops before its member is saved, a deletion that
   stops after its members are gone, a transfer outside a transaction that stops after its first write.
   */
  ghost predicate Loses(s: State, op: Op, ns: nat) {
    match op
    case Create(slug, _, _, _, _, memberSaved) =>
      CreateProceeds(s, op) && !memberSaved && !Taken(s, slug) && ns == s.nextId
    case Delete(id, _, _, _, namespaceDeleted) => id == ns && DeleteProceeds(s, op) && !namespaceDeleted
    case Transfer(id, _, _, writes) => id == ns && TransferProceeds(s, op) && writes == 1 && !s.transactional
    case _ => false
  }

  /**
   Exactly what gives a namespace a second owner: a creation whose look-up of the taken slug failed, by somebody other
   than the owner; a migration that stops between its two writes, or that upserts by key for an owner whose successor is
   no member.
   */
  ghost predicate Doubles(s: State, op: Op, ns: nat) {
    match op
    case Create(slug, _, creator, _, _, _) => Owns(s, op, ns) && Taken(s, slug) && !IsOwner(s.members, ns, creator)
    case Migrate(mode, primary, secondary, progress) =>
      MigrationBreaks(mode, s.members, primary, secondary, progress, ns)
    case _ => false
  }

  ghost predicate Breaks(s: State, op: Op, ns: nat) {
    Loses(s, op, ns) || Doubles(s, op, ns)
  }

  /** A creation makes its creator the owner of `ns`: of a new namespace, or of the one that has the slug. */
  ghost predicate Owns(s: State, op: Op, ns: nat) {
    op.Create? && CreateProceeds(s, op) && op.memberSaved && TargetOf(s, op.slug) == ns
  }

  lemma {:induction false} BatchKeepsOwner(
    was: Members, id: nat, entries: seq<Entry>, lookupOk: nat -> bool, saveOk: nat -> bool, n: nat, ns: nat)
    requires n <= |entries|
    ensures var m := BatchAfter(was, id, entries, lookupOk, saveOk, n).members;
      && (OneOwner(was, ns) ==> OneOwner(m, ns)) && (NoOwner(was, ns) ==> NoOwner(m, ns))
      && forall k :: k in m ==> k in was || k.0 == id
    decreases n
  {
    if n > 0 {
      BatchKeepsOwner(was, id, entries, lookupOk, saveOk, n - 1, ns);
      var b, e := BatchAfter(was, id, entries, lookupOk, saveOk, n - 1), entries[n - 1];
      hide OneOwner;
      if e.role != "OWNER" && (id, e.user) !in b.members && OneOwner(was, ns) {
        PutKeepsOwner(b.members, ns, (id, e.user), e.role);
      }
      var b' := BatchAfter(was, id, entries, lookupOk, saveOk, n);
      forall u
        ensures NoOwner(b.members, ns) ==> !IsOwner(b'.members, ns, u)
      {
        assert NoOwner(b.members, ns) ==> !IsOwner(b.members, ns, u);
      }
    }
  }

  lemma CreatedKeeps(s: State, op: Op, ns: nat)
    requires WellFormed(s) && op.Create? && ns in s.namespaces && OneOwner(s.members, ns)
    ensures OneOwner(Created(s, op).members, ns) <==> !Breaks(s, op, ns)
  {
    if CreateProceeds(s, op) && op.memberSaved {
      var id := TargetOf(s, op.slug);
      if id != ns {
        CreationKeepsOthers(s.members, ns, id, op.creator);
      } else {
        var owner :| IsOwner(s.members, ns, owner) && forall u :: IsOwner(s.members, ns, u) ==> u == owner;
        var m' := s.members[(ns, op.creator) := "OWNER"];
        assert IsOwner(m', ns, owner) && IsOwner(m', ns, op.creator);
        if op.creator == owner {
          assert m' == s.members;
        }
      }
    }
  }

  /** Only a creation makes a new row; it is owned unless its member was not saved. */
  lemma NewIsOwnedIff(s: State, op: Op, s': State, ns: nat)
    requires WellFormed(s) && Does(s, op, s') && ns in s'.namespaces && ns !in s.namespaces
    ensures OneOwner(s'.members, ns) <==> !Breaks(s, op, ns)
  {
    assert op.Create? && CreateProceeds(s, op) && ns == TargetOf(s, op.slug) == s.nextId;
    assert forall u :: (ns, u) !in s.members;
    if op.memberSaved {
      assert s'.members == s.members[(ns, op.creator) := "OWNER"];
      assert IsOwner(s'.members, ns, op.creator);
    }
  }

  /**
   An operation keeps the one owner of a namespace, or gives a new one its owner, exactly when it does not break it.
   */
  lemma OperationKeepsOwnerIff(s: State, op: Op, s': State, ns: nat)
    requires WellFormed(s) && Does(s, op, s') && ns in s'.namespaces
    requires ns in s.namespaces ==> OneOwner(s.members, ns)
    ensures OneOwner(s'.members, ns) <==> !Breaks(s, op, ns)
  {
    hide OneOwner;
    if ns !in s.namespaces {
      NewIsOwnedIff(s, op, s', ns);
      return;
    }
    match op
    case Create(_, _, _, _, _, _) => CreatedKeeps(s, op, ns);
    case Delete(_, _, _, _, _) => DeletedKeeps(s, op, ns);
    case Add(_, _, _, _, _) => OneRowKeepsOwner(s, op, s', ns);
    case Remove(_, _, _, _) => OneRowKeepsOwner(s, op, s', ns);
    case Update(_, _, _, _, _) => OneRowKeepsOwner(s, op, s', ns);
    case Transfer(_, _, _, _) => TransferredKeeps(s, op, ns);
    case AddBatch(id, entries, _, lookups, saves) =>
      BatchKeepsOwner(s.members, id, entries, Outcome(lookups), Outcome(saves), |entries|, ns);
    case Migrate(mode, primary, secondary, progress) =>
      MigrationKeepsOwnerIff(mode, s.members, primary, secondary, progress, s'.members, ns);
  }

  lemma NotOneOwner(m: Members, ns: nat)
    requires NoOwner(m, ns)
    ensures !OneOwner(m, ns)
  {
  }

  lemma OneRowKeepsOwner(s: State, op: Op, s': State, ns: nat)
    requires (op.Add? || op.Remove? || op.Update?) && Does(s, op, s') && OneOwner(s.members, ns)
    ensures OneOwner(s'.members, ns)
  {
    hide OneOwner;
    if op.Add? && AddSucceeds(s, op) {
      PutKeepsOwner(s.members, ns, (op.id, op.user), op.role);
    } else if op.Update? && UpdateSucceeds(s, op) {
      PutKeepsOwner(s.members, ns, (op.id, op.user), op.role);
    } else if op.Remove? && RemoveSucceeds(s, op) {
      DropKeepsOwner(s.members, ns, {(op.id, op.user)});
    }
  }

  lemma TransferredKeeps(s: State, op: Op, ns: nat)
    requires op.Transfer? && OneOwner(s.members, ns)
    ensures OneOwner(Transferred(s, op).members, ns) <==> !Breaks(s, op, ns)
  {
    hide OneOwner;
    if TransferProceeds(s, op) {
      HandoverKeepsOwner(s.members, op.id, ns, op.currentOwner, op.newOwner);
      if op.id == ns {
        HalfHandoverLosesOwner(s.members, ns, op.currentOwner);
        NotOneOwner(s.members[(ns, op.currentOwner) := "ADMIN"], ns);
      } else {
        DemotionElsewhere(s.members, ns, op.id, op.currentOwner);
      }
    }
  }

  lemma DeletedKeeps(s: State, op: Op, ns: nat)
    requires op.Delete? && ns in Deleted(s, op).namespaces && OneOwner(s.members, ns)
    ensures OneOwner(Deleted(s, op).members, ns) <==> !Breaks(s, op, ns)
  {
    if DeleteProceeds(s, op) {
      var gone := OfNamespace(s.members, op.id);
      if op.id == ns {
        NotOneOwner(s.members - gone, ns);
      } else {
        DropKeepsOwner(s.members, ns, gone);
      }
    }
  }

  /** Exactly what is lost that way has nobody afterwards; what is doubled has more than one owner. */
  lemma LosingLeavesNobody(s: State, op: Op, s': State, ns: nat)
    requires WellFormed(s) && Does(s, op, s') && ns in s'.namespaces
    requires ns in s.namespaces ==> OneOwner(s.members, ns)
    ensures NoOwner(s'.members, ns) <==> Loses(s, op, ns)
  {
    if Loses(s, op, ns) {
      if op.Transfer? {
        HalfHandoverLosesOwner(s.members, ns, op.currentOwner);
      } else if op.Create? {
        assert forall u :: (ns, u) !in s.members;
      }
    } else if Doubles(s, op, ns) {
      if op.Create? {
        assert IsOwner(s'.members, ns, op.creator);
      } else {
        OwnersAfterMigration(op.mode, s.members, op.primary, op.secondary, op.progress, s'.members, ns, op.primary);
      }
    } else {
      OperationKeepsOwnerIff(s, op, s', ns);
    }
  }

  /** A namespace without an owner gets one exactly from such a creation. */
  lemma OperationKeepsNoOwnerIff(s: State, op: Op, s': State, ns: nat)
    requires Does(s, op, s') && NoOwner(s.members, ns)
    ensures NoOwner(s'.members, ns) <==> !Owns(s, op, ns)
  {
    if op.AddBatch? {
      BatchKeepsOwner(s.members, op.id, op.entries, Outcome(op.lookups), Outcome(op.saves), |op.entries|, ns);
    } else if op.Migrate? {
      MigrationKeepsNoOwner(op.mode, s.members, op.primary, op.secondary, op.progress, s'.members, ns);
    } else if Owns(s, op, ns) {
      assert IsOwner(s'.members, ns, op.creator);
    } else {
      assert op.Transfer? && op.id == ns ==> !TransferProceeds(s, op);
      forall u
        ensures !IsOwner(s'.members, ns, u)
      {
        assert !IsOwner(s.members, ns, u);
      }
    }
  }

  lemma MigrationKeepsNamespaces(
    mode: SaveMode, m: Members, primary: string, secondary: string, p: Progress, m': Members, k: (nat, string))
    requires Migrated(mode, m, primary, secondary, p, m') && k in m'
    ensures (k.0, primary) in m || (k.0, secondary) in m || k in m
  {
    assert Lookup(m', k.0, k.1) == RoleAfter(mode, m, primary, secondary, p, k.0, k.1);
  }

  /** Every operation on members leaves rows of namespaces that had some. */
  lemma MembersStay(s: State, op: Op, s': State, k: (nat, string))
    requires WellFormed(s) && Does(s, op, s') && !op.Create? && k in s'.members
    ensures k.0 in s.namespaces
  {
    if op.AddBatch? {
      BatchKeepsOwner(s.members, op.id, op.entries, Outcome(op.lookups), Outcome(op.saves), |op.entries|, 0);
    } else if op.Migrate? {
      MigrationKeepsNamespaces(op.mode, s.members, op.primary, op.secondary, op.progress, s'.members, k);
    } else {
      assert k in s.members || k.0 == op.id;
    }
  }

  lemma DeletedWellFormed(s: State, op: Op)
    requires WellFormed(s) && op.Delete?
    ensures WellFormed(Deleted(s, op))
  {
    assert forall k :: k in Deleted(s, op).members ==> k in s.members;
  }

  lemma OperationKeepsWellFormed(s: State, op: Op, s': State)
    requires WellFormed(s) && Does(s, op, s')
    ensures WellFormed(s')
  {
    if op.Create? {
      CreatedWellFormed(s, op);
    } else if op.Delete? {
      DeletedWellFormed(s, op);
    } else {
      assert s'.namespaces == s.namespaces && s'.nextId == s.nextId;
      forall k | k in s'.members
        ensures k.0 in s'.namespaces
      {
        MembersStay(s, op, s', k);
      }
      hide Does;
    }
  }

  lemma CreatedWellFormed(s: State, op: Op)
    requires WellFormed(s) && op.Create?
    ensures WellFormed(Created(s, op))
  {
  }

  // ----- Every serial sequence of operations -----

  ghost predicate AllOwned(s: State) {
    forall ns :: ns in s.namespaces ==> OneOwner(s.members, ns)
  }

  ghost predicate DoesAt(states: seq<State>, ops: seq<Op>, i: nat)
    requires |states| == |ops| + 1 && i < |ops|
  {
    Does(states[i], ops[i], states[i + 1])
  }

  ghost predicate IsRun(states: seq<State>, ops: seq<Op>) {
    |states| == |ops| + 1 && forall i: nat :: i < |ops| ==> DoesAt(states, ops, i)
  }

  ghost predicate BreaksNothing(s: State, op: Op) {
    forall ns: nat :: !Breaks(s, op, ns)
  }

  /**
   In every serial sequence in which no operation breaks a namespace, every namespace has exactly one owner as long as
   it has a row.
   */
  lemma {:induction false} RunKeepsOwners(states: seq<State>, ops: seq<Op>, n: nat)
    requires IsRun(states, ops) && n <= |ops| && WellFormed(states[0]) && AllOwned(states[0])
    requires forall i: nat :: i < n ==> BreaksNothing(states[i], ops[i])
    ensures WellFormed(states[n]) && AllOwned(states[n])
  {
    if n > 0 {
      RunKeepsOwners(states, ops, n - 1);
      var s, op, s' := states[n - 1], ops[n - 1], states[n];
      assert DoesAt(states, ops, n - 1) && BreaksNothing(s, op);
      hide WellFormed, Does, Breaks, OneOwner;
      OperationKeepsWellFormed(s, op, s');
      forall ns | ns in s'.namespaces
        ensures OneOwner(s'.members, ns)
      {
        OperationKeepsOwnerIff(s, op, s', ns);
      }
    }
  }

  // ----- Who can change the members -----

  /**
   An operation that its caller may not perform: the caller is neither OWNER nor ADMIN, and not OWNER where that is
   asked.
   */
  predicate Unauthorized(m: Members, op: Op) {
    match op
    case Add(id, _, _, caller, _) => Lookup(m, id, caller) !in {Some("OWNER"), Some("ADMIN")}
    case Remove(id, _, caller, _) => Lookup(m, id, caller) !in {Some("OWNER"), Some("ADMIN")}
    case Update(id, _, _, caller, _) => Lookup(m, id, caller) !in {Some("OWNER"), Some("ADMIN")}
    case AddBatch(id, _, caller, _, _) => Lookup(m, id, caller) !in {Some("OWNER"), Some("ADMIN")}
    case Delete(id, user, _, _, _) => Lookup(m, id, user) != Some("OWNER")
    case Transfer(id, _, currentOwner, _) => Lookup(m, id, currentOwner) != Some("OWNER")
    case _ => false
  }

  /** Members without a role that manages change nothing, in any sequence of calls. */
  lemma {:induction false} StrangersChangeNothing(states: seq<State>, ops: seq<Op>, n: nat)
    requires IsRun(states, ops) && n <= |ops| && forall i: nat :: i < n ==> Unauthorized(states[0].members, ops[i])
    ensures states[n] == states[0]
  {
    if n > 0 {
      StrangersChangeNothing(states, ops, n - 1);
      assert DoesAt(states, ops, n - 1) && Unauthorized(states[0].members, ops[n - 1]);
    }
  }

  /** Where every call succeeds, exactly an OWNER or an ADMIN of an active team adds, removes and changes members. */
  lemma ManagersChangeMembers(s: State, op: Op, s': State)
    requires Does(s, op, s') && (op.Add? || op.Remove? || op.Update?)
    requires match op
      case Add(id, user, role, _, saved) => saved && role != "OWNER" && (id, user) !in s.members
      case Remove(id, user, _, deleted) => deleted && Lookup(s.members, id, user) !in {None, Some("OWNER")}
      case Update(id, user, role, _, saved) =>
        saved && role != "OWNER" && Lookup(s.members, id, user) !in {None, Some("OWNER"), Some(role)}
    ensures s'.members != s.members <==>
      && op.id in s.namespaces && s.namespaces[op.id].kind == "TEAM" && s.namespaces[op.id].status == "ACTIVE"
      && Lookup(s.members, op.id, op.caller) in {Some("OWNER"), Some("ADMIN")}
  {
    var key := (op.id, op.user);
    match op
    case Add(_, _, role, _, _) =>
      assert key in s.members[key := role] && key !in s.members;
    case Remove(_, _, _, _) => assert key !in s.members - {key};
    case Update(_, _, role, _, _) => assert s.members[key := role][key] != s.members[key];
  }

  /**
   Once a namespace has lost its owner, no sequence of operations gives it one again without a creation that hits it.
   */
  lemma {:induction false} LostOwnerStaysLost(states: seq<State>, ops: seq<Op>, from: nat, n: nat, ns: nat)
    requires IsRun(states, ops) && from <= n <= |ops| && NoOwner(states[from].members, ns)
    requires forall i: nat :: from <= i < n ==> !Owns(states[i], ops[i], ns)
    ensures NoOwner(states[n].members, ns)
    decreases n
  {
    if from < n {
      LostOwnerStaysLost(states, ops, from, n - 1, ns);
      assert DoesAt(states, ops, n - 1);
      OperationKeepsNoOwnerIff(states[n - 1], ops[n - 1], states[n], ns);
    }
  }

  /** A creation hits a namespace that exists only when its look-up of the taken slug fails. */
  lemma OwnsByFailedLookup(s: State, op: Op, ns: nat)
    requires WellFormed(s) && ns in s.namespaces && Owns(s, op, ns)
    ensures !op.lookupOk && s.namespaces[ns].slug == op.slug
  {
  }

  /** The row of a namespace without an owner stays what it is, since nobody can delete it. */
  lemma OwnerlessRowStays(s: State, op: Op, s': State, ns: nat)
    requires WellFormed(s) && Does(s, op, s') && ns in s.namespaces && NoOwner(s.members, ns)
    requires op.Create? ==> op.lookupOk
    ensures ns in s'.namespaces && s'.namespaces[ns] == s.namespaces[ns] && NoOwner(s'.members, ns)
  {
    if Owns(s, op, ns) {
      OwnsByFailedLookup(s, op, ns);
    }
    OperationKeepsNoOwnerIff(s, op, s', ns);
    assert op.Delete? && op.id == ns ==> !DeleteProceeds(s, op);
  }

  /**
   What a half-done creation, deletion or transfer leaves behind is there for good while look-ups do not fail: the row
   keeps its slug, and no operation deletes it or gives it an owner.
   */
  lemma {:induction false} LostForGood(states: seq<State>, ops: seq<Op>, from: nat, n: nat, ns: nat)
    requires IsRun(states, ops) && from < n <= |ops| && WellFormed(states[from])
    requires ns in states[from].namespaces ==> OneOwner(states[from].members, ns)
    requires ns in states[from + 1].namespaces && Loses(states[from], ops[from], ns)
    requires forall i: nat :: from < i < n && ops[i].Create? ==> ops[i].lookupOk
    ensures WellFormed(states[n]) && ns in states[n].namespaces && NoOwner(states[n].members, ns)
    ensures states[n].namespaces[ns] == states[from + 1].namespaces[ns]
    decreases n
  {
    assert DoesAt(states, ops, n - 1);
    hide WellFormed, Does, Loses, OneOwner, NoOwner;
    if n == from + 1 {
      LosingLeavesNobody(states[from], ops[from], states[n], ns);
    } else {
      LostForGood(states, ops, from, n - 1, ns);
      OwnerlessRowStays(states[n - 1], ops[n - 1], states[n], ns);
    }
    OperationKeepsWellFormed(states[n - 1], ops[n - 1], states[n]);
  }

  /**
   An operation that no failing repository call leaves half done breaks nothing on a store that moves saved rows, so
   every sequence of them keeps every owner.
   */
  lemma SmoothBreaksNothing(s: State, op: Op)
    requires match op
      case Create(_, _, _, lookupOk, namespaceSaved, memberSaved) => lookupOk && (namespaceSaved ==> memberSaved)
      case Delete(_, _, _, membersDeleted, namespaceDeleted) => membersDeleted ==> namespaceDeleted
      case Transfer(_, _, _, writes) => s.transactional || writes != 1
      case Migrate(mode, _, _, progress) => mode == MoveRow && progress.half == None
      case _ => true
    ensures BreaksNothing(s, op)
  {
  }

  /** A creation whose member is not saved leaves a row that nobody owns. */
  lemma HalfCreationIsOwnerless(slug: string, creator: string)
    requires Slug.Validate(slug) == None
    ensures var s, op := State(map[], map[], 1, true), Create(slug, "", creator, true, true, false);
      var s' := Created(s, op);
      && WellFormed(s) && AllOwned(s) && Loses(s, op, 1) && ActiveTeam(s', 1) && NoOwner(s'.members, 1)
  {
    assert !Taken(State(map[], map[], 1, true), slug);
  }

  // ----- How an owner goes -----

  /**
   Exactly what ends the ownership of a user: the deletion of the members, a transfer by the user, or being merged away.
   */
  ghost predicate Leaves(s: State, op: Op, ns: nat, user: string) {
    match op
    case Delete(id, _, _, _, _) => id == ns && DeleteProceeds(s, op)
    case Transfer(id, newOwner, currentOwner, writes) =>
      && id == ns && currentOwner == user && TransferProceeds(s, op)
      && if writes >= 2 then newOwner != user else writes == 1 && !s.transactional
    case Migrate(mode, primary, secondary, progress) =>
      secondary == user && ns in progress.done && !MigrationBreaks(mode, s.members, primary, secondary, progress, ns)
    case _ => false
  }

  lemma {:induction false} BatchKeepsRoles(
    was: Members, id: nat, entries: seq<Entry>, lookupOk: nat -> bool, saveOk: nat -> bool, n: nat, key: (nat, string))
    requires n <= |entries| && key in was
    ensures var m := BatchAfter(was, id, entries, lookupOk, saveOk, n).members; key in m && m[key] == was[key]
    decreases n
  {
    if n > 0 {
      BatchKeepsRoles(was, id, entries, lookupOk, saveOk, n - 1, key);
    }
  }

  lemma OwnerLeavesIff(s: State, op: Op, s': State, ns: nat, user: string)
    requires Does(s, op, s') && IsOwner(s.members, ns, user)
    ensures IsOwner(s'.members, ns, user) <==> !Leaves(s, op, ns, user)
  {
    if op.AddBatch? {
      BatchKeepsRoles(s.members, op.id, op.entries, Outcome(op.lookups), Outcome(op.saves), |op.entries|, (ns, user));
    } else if op.Migrate? {
      OwnersAfterMigration(op.mode, s.members, op.primary, op.secondary, op.progress, s'.members, ns, user);
    }
  }

  /** An owner stays one over every sequence in which nothing ends that ownership. */
  lemma {:induction false} OwnerStays(states: seq<State>, ops: seq<Op>, from: nat, n: nat, ns: nat, user: string)
    requires IsRun(states, ops) && from <= n <= |ops| && IsOwner(states[from].members, ns, user)
    requires forall i: nat :: from <= i < n ==> !Leaves(states[i], ops[i], ns, user)
    ensures IsOwner(states[n].members, ns, user)
    decreases n
  {
    if from < n {
      OwnerStays(states, ops, from, n - 1, ns, user);
      assert DoesAt(states, ops, n - 1);
      OwnerLeavesIff(states[n - 1], ops[n - 1], states[n], ns, user);
    }
  }

  /**
   What a migration stopped between its two writes leaves: both users own the namespace, and the secondary, whom nobody
   can remove or demote, stays an owner until it hands over itself, is migrated again, or the namespace is deleted.
   */
  lemma HalfMigrationLeavesTwo(states: seq<State>, ops: seq<Op>, from: nat, n: nat, ns: nat)
    requires IsRun(states, ops) && from < n <= |ops| && ops[from].Migrate? && ops[from].progress.half == Some(ns)
    requires IsOwner(states[from].members, ns, ops[from].secondary)
    requires forall i: nat :: from < i < n ==> !Leaves(states[i], ops[i], ns, ops[from].secondary)
    ensures IsOwner(states[from + 1].members, ns, ops[from].primary)
    ensures IsOwner(states[n].members, ns, ops[from].secondary)
  {
    var s, op, s' := states[from], ops[from], states[from + 1];
    assert DoesAt(states, ops, from);
    OwnersAfterMigration(op.mode, s.members, op.primary, op.secondary, op.progress, s'.members, ns, op.primary);
    OwnersAfterMigration(op.mode, s.members, op.primary, op.secondary, op.progress, s'.members, ns, op.secondary);
    OwnerStays(states, ops, from + 1, n, ns, op.secondary);
  }

  // ----- What a batch reports -----

  /** The table has gained exactly the rows of `added`, none of them an owner, and lost or changed none. */
  ghost predicate Grown(was: Members, m: Members, ns: nat, added: seq<Entry>) {
    && (forall k :: k in was ==> k in m && m[k] == was[k])
    && (forall k :: k in m && k !in was ==> k.0 == ns && Entry(k.1, m[k]) in added)
    && (forall e :: e in added ==>
          e.role != "OWNER" && (ns, e.user) in m && m[(ns, e.user)] == e.role && (ns, e.user) !in was)
    && (forall i, j :: 0 <= i < j < |added| ==> added[i].user != added[j].user)
  }

  lemma GrownByOne(was: Members, m: Members, ns: nat, added: seq<Entry>, e: Entry)
    requires Grown(was, m, ns, added) && e.role != "OWNER" && (ns, e.user) !in m
    ensures Grown(was, m[(ns, e.user) := e.role], ns, added + [e])
  {
    var m' := m[(ns, e.user) := e.role];
    forall k | k in m' && k !in was
      ensures k.0 == ns && Entry(k.1, m'[k]) in added + [e]
    {
      if k == (ns, e.user) { assert (added + [e])[|added|] == e; }
    }
    forall i | 0 <= i < |added|
      ensures added[i].user != e.user
    {
      assert added[i] in added;
    }
  }

  /** Every entry of a batch lands in one bucket; the added ones are the new rows, the existing ones are members. */
  lemma {:induction false} BatchReports(
    was: Members, id: nat, entries: seq<Entry>, lookupOk: nat -> bool, saveOk: nat -> bool, n: nat)
    requires n <= |entries|
    ensures var b := BatchAfter(was, id, entries, lookupOk, saveOk, n);
      && |b.added| + |b.existing| + |b.rejected| == n
      && Grown(was, b.members, id, b.added)
      && (forall i, j :: 0 <= i < j < |b.added| ==> b.added[i].user != b.added[j].user)
      && forall u :: u in b.existing ==> (id, u) in b.members
    decreases n
  {
    if n > 0 {
      BatchReports(was, id, entries, lookupOk, saveOk, n - 1);
      var b, e := BatchAfter(was, id, entries, lookupOk, saveOk, n - 1), entries[n - 1];
      hide Grown;
      if e.role != "OWNER" && (id, e.user) !in b.members {
        GrownByOne(was, b.members, id, b.added, e);
      }
    }
  }

  /** Why an entry is rejected: it asks for OWNER, or one of its repository calls failed. */
  lemma {:induction false} BatchRejections(
    was: Members, id: nat, entries: seq<Entry>, lookupOk: nat -> bool, saveOk: nat -> bool, n: nat, r: Rejection)
    requires n <= |entries| && r in BatchAfter(was, id, entries, lookupOk, saveOk, n).rejected
    ensures exists i: nat ::
      && i < n && entries[i].user == r.user
      && if entries[i].role == "OWNER" then r.reason == CannotBeOwner
         else r.reason == StoreFailed && (!lookupOk(i) || !saveOk(i))
    decreases n
  {
    if n > 0 && r in BatchAfter(was, id, entries, lookupOk, saveOk, n - 1).rejected {
      BatchRejections(was, id, entries, lookupOk, saveOk, n - 1, r);
    } else {
      assert entries[n - 1].user == r.user;
    }
  }
}
