/** The namespace and member services over their tables; each method does what the operation of its name does. */
module MembershipService {
  import opened Wrappers
  import opened Membership
  import Slug

  class Service {
    var namespaces: map<nat, Namespace>
    var members: Members
    var nextId: nat
    const transactional: bool

    ghost function S(): State
      reads this
    {
      State(namespaces, members, nextId, transactional)
    }

    constructor (transactional: bool)
      ensures S() == State(map[], map[], 1, transactional) && WellFormed(S())
    {
      this.transactional := transactional;
      namespaces, members, nextId := map[], map[], 1;
    }

    /** The checks shared by the member operations, in their order. */
    method CheckManager(id: nat, caller: string) returns (r: Option<Failure>)
      ensures r == None <==> Manages(S(), id, caller)
      ensures r ==
        if id !in namespaces then Some(NamespaceNotFound)
        else if namespaces[id].kind != "TEAM" || namespaces[id].status != "ACTIVE" then Some(NamespaceNotActive)
        else if Lookup(members, id, caller) !in {Some("OWNER"), Some("ADMIN")} then Some(Forbidden)
        else None
    {
      if id !in namespaces { return Some(NamespaceNotFound); }
      if !(namespaces[id].kind == "TEAM" && namespaces[id].status == "ACTIVE") { return Some(NamespaceNotActive); }
      if !CanAdminister(members, id, caller) { return Some(Forbidden); }
      return None;
    }

    method FindBySlug(slug: string) returns (r: Option<nat>)
      requires WellFormed(S())
      ensures r == if Taken(S(), slug) then Some(TargetOf(S(), slug)) else None
    {
      if id :| id in namespaces && namespaces[id].slug == slug {
        r := Some(id);
      } else {
        r := None;
      }
    }

    /** The insert is an upsert by slug. The two writes are not in one transaction. */
    method CreateNamespace(slug: string, kind: string, createdBy: string, lookupOk: bool, namespaceSaved: bool,
      memberSaved: bool)
      returns (r: Result<nat, Failure>)
      requires WellFormed(S())
      modifies this
      ensures S() == Created(old(S()), Create(slug, kind, createdBy, lookupOk, namespaceSaved, memberSaved))
      ensures r.Ok? <==>
        CreateProceeds(old(S()), Create(slug, kind, createdBy, lookupOk, namespaceSaved, memberSaved)) && memberSaved
      ensures r.Ok? ==> r.value == TargetOf(old(S()), slug)
      ensures r.Ok? ==>
        && members == old(members)[(r.value, createdBy) := "OWNER"]
        && namespaces == old(namespaces)[r.value := Namespace(slug, if kind == "" then "TEAM" else kind, "ACTIVE")]
      ensures r.Err? ==>
        && members == old(members)
        && (r.error == InvalidSlug <==> Slug.Validate(slug) != None)
        && (r.error == SlugTaken ==> lookupOk && exists id :: id in old(namespaces) && old(namespaces)[id].slug == slug)
        && (r.error == StoreFailed ==> !namespaceSaved || !memberSaved)
        && r.error in {InvalidSlug, SlugTaken, StoreFailed}
    {
      if Slug.Validate(slug) != None { return Err(InvalidSlug); }
      var existing := FindBySlug(slug);
      if lookupOk && existing != None { return Err(SlugTaken); }
      if !namespaceSaved { return Err(StoreFailed); }
      var id := if existing != None then existing.value else nextId;
      if id == nextId {
        nextId := nextId + 1;
      }
      namespaces := namespaces[id := Namespace(slug, if kind == "" then "TEAM" else kind, "ACTIVE")];
      if !memberSaved { return Err(StoreFailed); }
      members := members[(id, createdBy) := "OWNER"];
      return Ok(id);
    }

    method DeleteNamespace(id: nat, user: string, hasDependencies: bool, membersDeleted: bool, namespaceDeleted: bool)
      returns (r: Option<Failure>)
      modifies this
      ensures S() == Deleted(old(S()), Delete(id, user, hasDependencies, membersDeleted, namespaceDeleted))
      ensures r == None <==>
        DeleteProceeds(old(S()), Delete(id, user, hasDependencies, membersDeleted, namespaceDeleted))
          && namespaceDeleted
      ensures r ==
        if id !in old(namespaces) then Some(NamespaceNotFound)
        else if old(namespaces)[id].slug == "global" then Some(GlobalImmutable)
        else if Lookup(old(members), id, user) != Some("OWNER") then Some(NotAuthorized)
        else if hasDependencies then Some(HasDependencies)
        else if !membersDeleted || !namespaceDeleted then Some(StoreFailed)
        else None
      ensures r == None ==>
        && namespaces == old(namespaces) - {id}
        && forall k :: k in members <==> k in old(members) && k.0 != id
    {
      if id !in namespaces { return Some(NamespaceNotFound); }
      if namespaces[id].slug == "global" { return Some(GlobalImmutable); }
      if !((id, user) in members && members[(id, user)] == "OWNER") { return Some(NotAuthorized); }
      if hasDependencies { return Some(HasDependencies); }
      if !membersDeleted { return Some(StoreFailed); }
      members := members - OfNamespace(members, id);
      if !namespaceDeleted { return Some(StoreFailed); }
      namespaces := namespaces - {id};
      return None;
    }

    method AddMember(id: nat, user: string, role: string, caller: string, saved: bool) returns (r: Option<Failure>)
      modifies this`members
      ensures Does(old(S()), Add(id, user, role, caller, saved), S())
      ensures r == None <==> AddSucceeds(old(S()), Add(id, user, role, caller, saved))
      ensures r ==
        if role == "OWNER" then Some(CannotBeOwner)
        else if id !in old(namespaces) then Some(NamespaceNotFound)
        else if old(namespaces)[id].kind != "TEAM" || old(namespaces)[id].status != "ACTIVE" then
          Some(NamespaceNotActive)
        else if Lookup(old(members), id, caller) !in {Some("OWNER"), Some("ADMIN")} then Some(Forbidden)
        else if (id, user) in old(members) then Some(AlreadyExists)
        else if !saved then Some(StoreFailed)
        else None
      ensures members == if r == None then old(members)[(id, user) := role] else old(members)
    {
      if role == "OWNER" { return Some(CannotBeOwner); }
      r := CheckManager(id, caller);
      if r != None { return; }
      if (id, user) in members { return Some(AlreadyExists); }
      if !saved { return Some(StoreFailed); }
      members := members[(id, user) := role];
    }

    method RemoveMember(id: nat, user: string, caller: string, deleted: bool) returns (r: Option<Failure>)
      modifies this`members
      ensures Does(old(S()), Remove(id, user, caller, deleted), S())
      ensures r == None <==> RemoveSucceeds(old(S()), Remove(id, user, caller, deleted))
      ensures r ==
        if id !in old(namespaces) then Some(NamespaceNotFound)
        else if old(namespaces)[id].kind != "TEAM" || old(namespaces)[id].status != "ACTIVE" then
          Some(NamespaceNotActive)
        else if Lookup(old(members), id, caller) !in {Some("OWNER"), Some("ADMIN")} then Some(Forbidden)
        else if (id, user) !in old(members) then Some(MemberNotFound)
        else if old(members)[(id, user)] == "OWNER" then Some(CannotRemoveOwner)
        else if !deleted then Some(StoreFailed)
        else None
      ensures members == if r == None then old(members) - {(id, user)} else old(members)
    {
      r := CheckManager(id, caller);
      if r != None { return; }
      if (id, user) !in members { return Some(MemberNotFound); }
      if members[(id, user)] == "OWNER" { return Some(CannotRemoveOwner); }
      if !deleted { return Some(StoreFailed); }
      members := members - {(id, user)};
    }

    method UpdateMemberRole(id: nat, user: string, newRole: string, caller: string, saved: bool)
      returns (r: Option<Failure>)
      modifies this`members
      ensures Does(old(S()), Update(id, user, newRole, caller, saved), S())
      ensures r == None <==> UpdateSucceeds(old(S()), Update(id, user, newRole, caller, saved))
      ensures r ==
        if newRole == "OWNER" then Some(CannotBeOwner)
        else if id !in old(namespaces) then Some(NamespaceNotFound)
        else if old(namespaces)[id].kind != "TEAM" || old(namespaces)[id].status != "ACTIVE" then
          Some(NamespaceNotActive)
        else if Lookup(old(members), id, caller) !in {Some("OWNER"), Some("ADMIN")} then Some(Forbidden)
        else if (id, user) !in old(members) then Some(MemberNotFound)
        else if old(members)[(id, user)] == "OWNER" then Some(CannotRemoveOwner)
        else if !saved then Some(StoreFailed)
        else None
      ensures members == if r == None then old(members)[(id, user) := newRole] else old(members)
    {
      if newRole == "OWNER" { return Some(CannotBeOwner); }
      r := CheckManager(id, caller);
      if r != None { return; }
      if (id, user) !in members { return Some(MemberNotFound); }
      if members[(id, user)] == "OWNER" { return Some(CannotRemoveOwner); }
      if !saved { return Some(StoreFailed); }
      members := members[(id, user) := newRole];
    }

    method TransferOwnership(id: nat, newOwner: string, currentOwner: string, writes: nat) returns (r: Option<Failure>)
      modifies this`members
      ensures S() == Transferred(old(S()), Transfer(id, newOwner, currentOwner, writes))
      ensures r == None <==> TransferProceeds(old(S()), Transfer(id, newOwner, currentOwner, writes)) && writes >= 2
      ensures r ==
        if id !in old(namespaces) then Some(NamespaceNotFound)
        else if old(namespaces)[id].kind != "TEAM" || old(namespaces)[id].status != "ACTIVE" then
          Some(NamespaceNotActive)
        else if Lookup(old(members), id, currentOwner) != Some("OWNER") then Some(Forbidden)
        else if (id, newOwner) !in old(members) then Some(MemberNotFound)
        else if writes < 2 then Some(StoreFailed)
        else None
      ensures r == None ==> members == old(members)[(id, currentOwner) := "ADMIN"][(id, newOwner) := "OWNER"]
      ensures r != None && r != Some(StoreFailed) ==> members == old(members)
    {
      if id !in namespaces { return Some(NamespaceNotFound); }
      if !(namespaces[id].kind == "TEAM" && namespaces[id].status == "ACTIVE") { return Some(NamespaceNotActive); }
      if !((id, currentOwner) in members && members[(id, currentOwner)] == "OWNER") { return Some(Forbidden); }
      if (id, newOwner) !in members { return Some(MemberNotFound); }
      var snapshot := members;
      if writes == 0 { return Some(StoreFailed); }
      members := members[(id, currentOwner) := "ADMIN"];
      if writes == 1 {
        if transactional {
          members := snapshot;
        }
        return Some(StoreFailed);
      }
      members := members[(id, newOwner) := "OWNER"];
      return None;
    }

    /** `lookups[i]` and `saves[i]` are the outcomes of the repository calls for entry `i`. */
    method BatchAddMembers(id: nat, entries: seq<Entry>, caller: string, lookups: seq<bool>, saves: seq<bool>)
      returns (failure: Option<Failure>, added: seq<Entry>, existing: seq<string>, rejected: seq<Rejection>)
      modifies this`members
      ensures failure == None <==> Manages(old(S()), id, caller)
      ensures Does(old(S()), AddBatch(id, entries, caller, lookups, saves), S())
      ensures Batch(members, added, existing, rejected)
        == Batched(old(S()), AddBatch(id, entries, caller, lookups, saves))
    {
      added, existing, rejected := [], [], [];
      failure := CheckManager(id, caller);
      if failure != None { return; }
      var lookupOk, saveOk := Outcome(lookups), Outcome(saves);
      for i := 0 to |entries|
        invariant Batch(members, added, existing, rejected)
          == BatchAfter(old(members), id, entries, lookupOk, saveOk, i)
      {
        var entry := entries[i];
        if entry.role == "OWNER" {
          rejected := rejected + [Rejection(entry.user, CannotBeOwner)];
          continue;
        }
        if !lookupOk(i) {
          rejected := rejected + [Rejection(entry.user, StoreFailed)];
          continue;
        }
        if (id, entry.user) in members {
          existing := existing + [entry.user];
          continue;
        }
        if !saveOk(i) {
          rejected := rejected + [Rejection(entry.user, StoreFailed)];
          continue;
        }
        members := members[(id, entry.user) := entry.role];
        added := added + [entry];
      }
    }

    /** One namespace of the secondary: at most two writes; `left` is what is left of the writes, unless one failed. */
    method MigrateOne(
      mode: SaveMode, primary: string, secondary: string, ns: nat, writes: nat, ghost was: Members,
        ghost done: set<nat>)
      returns (left: Option<nat>, ghost progress: Progress)
      requires primary != secondary && Migrated(mode, was, primary, secondary, Progress(done, None), members)
      requires (ns, secondary) in was && ns !in done
      modifies this`members
      ensures Migrated(mode, was, primary, secondary, progress, members)
      ensures left == Spent(writes, if Raises(was, primary, secondary, ns) then 2 else 1)
      ensures progress.done == if left.Some? then done + {ns} else done
      ensures progress.half == if left == None && writes == 1 then Some(ns) else None
    {
      ghost var before := members;
      assert Lookup(before, ns, secondary)
        == RoleAfter(mode, was, primary, secondary, Progress(done, None), ns, secondary);
      assert Lookup(before, ns, primary) == RoleAfter(mode, was, primary, secondary, Progress(done, None), ns, primary);
      hide Migrated;
      var remaining: nat := writes;
      progress := Progress(done, None);
      var role := members[(ns, secondary)];
      if (ns, primary) in members {
        if RolePriority(role) > RolePriority(members[(ns, primary)]) {
          if remaining == 0 { return None, progress; }
          remaining := remaining - 1;
          members := members[(ns, primary) := role];
          if remaining == 0 {
            progress := Progress(done, Some(ns));
            HalfMigrated(mode, was, primary, secondary, done, ns, before, members);
            return None, progress;
          }
        } else if remaining == 0 {
          return None, progress;
        }
        remaining := remaining - 1;
        members := members - {(ns, secondary)};
      } else {
        if remaining == 0 { return None, progress; }
        remaining := remaining - 1;
        if mode == MoveRow {
          members := members - {(ns, secondary)};
        }
        members := members[(ns, primary) := role];
      }
      progress := Progress(done + {ns}, None);
      OneMigrated(mode, was, primary, secondary, done, ns, before, members);
      return Some(remaining), progress;
    }

    /**
     Run by the account merge, which has checked that the two users differ. `writes` writes succeed before the first
     one fails; `progress` is how far it got.
     */
    method MigrateMemberships(mode: SaveMode, primary: string, secondary: string, writes: nat)
      returns (r: Option<Failure>, ghost progress: Progress)
      requires primary != secondary
      modifies this`members
      ensures Does(old(S()), Migrate(mode, primary, secondary, progress), S())
      ensures r == None <==> Complete(old(members), secondary, progress)
      ensures r == None <==> writes >= WritesNeeded(old(members), primary, secondary)
      ensures r != None ==> StoppedAfter(old(members), primary, secondary, writes, progress)
    {
      ghost var was := members;
      var rows := RowsOf(members, secondary);
      var remaining: nat := writes;
      progress := Progress({}, None);
      NothingMigrated(mode, was, primary, secondary);
      WritesForNone(was, primary, secondary);
      NothingDone(was, secondary);
      hide Migrated, WritesFor, Raises, Todo, Complete, RowsOf;
      while rows != {}
        invariant progress.half == None && rows == Todo(was, secondary, progress.done)
        invariant Migrated(mode, was, primary, secondary, progress, members)
        invariant remaining + WritesNeeded(was, primary, secondary) == writes + WritesFor(was, primary, secondary, rows)
        decreases rows
      {
        var row: (nat, string) :| row in rows;
        ghost var done := progress.done;
        OneDone(was, secondary, done, row);
        assert !Complete(was, secondary, Progress(done, None))
          && !Complete(was, secondary, Progress(done, Some(row.0)));
        WritesForOne(was, primary, secondary, rows, row.0);
        var left;
        left, progress := MigrateOne(mode, primary, secondary, row.0, remaining, was, done);
        if left == None { return Some(StoreFailed), progress; }
        rows, remaining := rows - {row}, left.value;
      }
      AllDone(was, secondary, progress.done);
      return None, progress;
    }
  }

  /** The rows of the secondary in the namespaces that are not done. */
  ghost function Todo(m: Members, secondary: string, done: set<nat>): set<(nat, string)> {
    set k | k in RowsOf(m, secondary) && k.0 !in done
  }

  lemma NothingDone(m: Members, secondary: string)
    ensures Todo(m, secondary, {}) == RowsOf(m, secondary)
  {
  }

  lemma AllDone(m: Members, secondary: string, done: set<nat>)
    requires Todo(m, secondary, done) == {}
    ensures Complete(m, secondary, Progress(done, None))
  {
    forall ns: nat | (ns, secondary) in m
      ensures ns in done
    {
      assert (ns, secondary) !in Todo(m, secondary, done);
    }
  }

  lemma OneDone(m: Members, secondary: string, done: set<nat>, row: (nat, string))
    requires row in Todo(m, secondary, done)
    ensures row in m && row.1 == secondary && row.0 !in done
    ensures Todo(m, secondary, done + {row.0}) == Todo(m, secondary, done) - {row}
    ensures forall half :: !Complete(m, secondary, Progress(done, half))
  {
    assert (row.0, secondary) in m;
  }

  function RowsOf(m: Members, user: string): set<(nat, string)> {
    set k | k in m && k.1 == user
  }

  /** The secondary's role in the namespace is higher than the primary's. */
  predicate Raises(m: Members, primary: string, secondary: string, ns: nat) {
    && (ns, primary) in m && (ns, secondary) in m
    && RolePriority(m[(ns, secondary)]) > RolePriority(m[(ns, primary)])
  }

  /** By name: the secondary's role ranks before the primary's. */
  lemma RaisesIff(m: Members, primary: string, secondary: string, ns: nat)
    ensures Raises(m, primary, secondary, ns) <==>
      && (ns, primary) in m && (ns, secondary) in m
      && match m[(ns, secondary)]
         case "OWNER" => m[(ns, primary)] != "OWNER"
         case "ADMIN" => m[(ns, primary)] !in {"OWNER", "ADMIN"}
         case "MEMBER" => m[(ns, primary)] !in {"OWNER", "ADMIN", "MEMBER"}
         case _ => false
  {
  }

  ghost function Raised(m: Members, primary: string, secondary: string, rows: set<(nat, string)>): set<(nat, string)> {
    set k | k in rows && Raises(m, primary, secondary, k.0)
  }

  ghost function WritesFor(m: Members, primary: string, secondary: string, rows: set<(nat, string)>): nat {
    |rows| + |Raised(m, primary, secondary, rows)|
  }

  /** One write for each row of the secondary, and one more where the primary's role is raised. */
  ghost function WritesNeeded(m: Members, primary: string, secondary: string): nat {
    WritesFor(m, primary, secondary, RowsOf(m, secondary))
  }

  /** The writes that succeeded are those of the namespaces that are done, and one of the half-done one. */
  ghost predicate StoppedAfter(m: Members, primary: string, secondary: string, writes: nat, p: Progress) {
    writes + WritesFor(m, primary, secondary, Todo(m, secondary, p.done))
      == WritesNeeded(m, primary, secondary) + if p.half == None then 0 else 1
  }

  lemma WritesForNone(m: Members, primary: string, secondary: string)
    ensures WritesFor(m, primary, secondary, {}) == 0
  {
  }

  lemma WritesForOne(m: Members, primary: string, secondary: string, rows: set<(nat, string)>, ns: nat)
    requires (ns, secondary) in rows
    ensures WritesFor(m, primary, secondary, rows) == WritesFor(m, primary, secondary, rows - {(ns, secondary)})
      + if Raises(m, primary, secondary, ns) then 2 else 1
  {
    var rest := rows - {(ns, secondary)};
    assert rows == rest + {(ns, secondary)};
    var raised := Raised(m, primary, secondary, rest);
    hide Raises;
    if Raises(m, primary, secondary, ns) {
      assert Raised(m, primary, secondary, rows) == raised + {(ns, secondary)};
    } else {
      assert Raised(m, primary, secondary, rows) == raised;
    }
  }
}
