/**
 The device authorization grant. Authorizers and pollers step between store calls in any interleaving;
 device codes, user code mappings and the markers of claimed codes may expire at any time.
 */
module Device {
  import opened Wrappers

  datatype Status = Pending | Authorized | Used

  datatype Code = Code(userCode: string, status: Status, userId: string)

  /** The store: codes by device code, device codes by user code, and the claim markers. */
  datatype Store = Store(codes: map<string, Code>, mapping: map<string, string>, claimed: set<string>)

  /** `AuthorizeDeviceCode` between its store calls. */
  datatype Authorizer =
    | AtLookup(userCode: string, userId: string)
    | AtRead(userCode: string, userId: string, deviceCode: string)
    | AtSave(userCode: string, userId: string, deviceCode: string, data: Code)

  /** `PollToken` between its store calls. */
  datatype Poller =
    | AtPoll(deviceCode: string)
    | AtClaim(deviceCode: string, data: Code)
    | AtRotate(deviceCode: string, data: Code)
    | AtUsed(deviceCode: string, data: Code)
    | AtCleanup(deviceCode: string, data: Code)

  /** An access token returned to a poller of `deviceCode`, acting for `userId`. */
  datatype Grant = Grant(deviceCode: string, userId: string)

  /** A user code typed in by a user. */
  datatype Submission = Submission(userCode: string, userId: string)

  /** User codes handed out, each with the device code it stands for, and user codes typed in. */
  datatype Log = Log(issued: map<string, string>, submitted: set<Submission>)

  /** The store, the processes between their store calls, the log, and the access tokens returned. */
  datatype State = State(
    store: Store, generating: map<nat, (string, string)>, authorizers: map<nat, Authorizer>,
    pollers: map<nat, Poller>, log: Log, grants: seq<Grant>)

  const INITIAL := State(Store(map[], map[], {}), map[], map[], map[], Log(map[], {}), [])

  datatype Action =
    | Generate(g: nat, deviceCode: string, userCode: string)
    | SaveMapping(g: nat, ok: bool)
    | Submit(a: nat, userCode: string, userId: string)
    | Authorize(a: nat, ok: bool)
    | StartPoll(p: nat, deviceCode: string)
    | PollStep(p: nat, ok: bool)
    | ExpireCode(deviceCode: string)
    | ExpireMapping(userCode: string)
    | ExpireMarker(deviceCode: string)

  // ----- Steps -----

  /** Random codes are fresh: neither half of the pair has been handed out before. */
  predicate FreshPair(s: State, deviceCode: string, userCode: string) {
    userCode !in s.log.issued && deviceCode !in s.log.issued.Values
  }

  function GenerateStep(s: State, g: nat, deviceCode: string, userCode: string): State {
    if g in s.generating || !FreshPair(s, deviceCode, userCode) then s
    else
      s.(store := s.store.(codes := s.store.codes[deviceCode := Code(userCode, Pending, "")]),
         generating := s.generating[g := (userCode, deviceCode)],
         log := s.log.(issued := s.log.issued[userCode := deviceCode]))
  }

  function SaveMappingStep(s: State, g: nat, ok: bool): State {
    if g !in s.generating then s
    else if !ok then s.(generating := s.generating - {g})
    else
      var (userCode, deviceCode) := s.generating[g];
      s.(store := s.store.(mapping := s.store.mapping[userCode := deviceCode]), generating := s.generating - {g})
  }

  function SubmitStep(s: State, a: nat, userCode: string, userId: string): State {
    if a in s.authorizers then s
    else
      s.(authorizers := s.authorizers[a := AtLookup(userCode, userId)],
         log := s.log.(submitted := s.log.submitted + {Submission(userCode, userId)}))
  }

  function AuthorizeStep(s: State, a: nat, ok: bool): State {
    if a !in s.authorizers then s
    else
      var done := s.(authorizers := s.authorizers - {a});
      if !ok then done
      else
        match s.authorizers[a]
        case AtLookup(userCode, userId) =>
          if userCode !in s.store.mapping then done
          else s.(authorizers := s.authorizers[a := AtRead(userCode, userId, s.store.mapping[userCode])])
        case AtRead(userCode, userId, deviceCode) =>
          if deviceCode !in s.store.codes || s.store.codes[deviceCode].status != Pending then done
          else
            var data := s.store.codes[deviceCode].(status := Authorized, userId := userId);
            s.(authorizers := s.authorizers[a := AtSave(userCode, userId, deviceCode, data)])
        case AtSave(userCode, userId, deviceCode, data) =>
          done.(store := s.store.(codes := s.store.codes[deviceCode := data]))
  }

  function StartPollStep(s: State, p: nat, deviceCode: string): State {
    if p in s.pollers then s
    else s.(pollers := s.pollers[p := AtPoll(deviceCode)])
  }

  function PollerStep(s: State, p: nat, ok: bool): State {
    if p !in s.pollers then s
    else
      var done := s.(pollers := s.pollers - {p});
      match s.pollers[p]
      case AtPoll(deviceCode) =>
        if !ok || deviceCode !in s.store.codes || s.store.codes[deviceCode].status != Authorized then done
        else s.(pollers := s.pollers[p := AtClaim(deviceCode, s.store.codes[deviceCode])])
      case AtClaim(deviceCode, data) =>
        if !ok || deviceCode in s.store.claimed then done
        else
          s.(store := s.store.(claimed := s.store.claimed + {deviceCode}),
             pollers := s.pollers[p := AtRotate(deviceCode, data)])
      case AtRotate(deviceCode, data) =>
        if !ok then s.(pollers := s.pollers[p := AtCleanup(deviceCode, data)])
        else s.(pollers := s.pollers[p := AtUsed(deviceCode, data)])
      case AtUsed(deviceCode, data) =>
        var store := if ok then s.store.(codes := s.store.codes[deviceCode := data.(status := Used)]) else s.store;
        s.(store := store, pollers := s.pollers[p := AtCleanup(deviceCode, data)],
           grants := s.grants + [Grant(deviceCode, data.userId)])
      case AtCleanup(deviceCode, data) =>
        if ok then done.(store := s.store.(mapping := s.store.mapping - {data.userCode})) else done
  }

  function Step(s: State, a: Action): State {
    match a
    case Generate(g, deviceCode, userCode) => GenerateStep(s, g, deviceCode, userCode)
    case SaveMapping(g, ok) => SaveMappingStep(s, g, ok)
    case Submit(i, userCode, userId) => SubmitStep(s, i, userCode, userId)
    case Authorize(i, ok) => AuthorizeStep(s, i, ok)
    case StartPoll(p, deviceCode) => StartPollStep(s, p, deviceCode)
    case PollStep(p, ok) => PollerStep(s, p, ok)
    case ExpireCode(deviceCode) => s.(store := s.store.(codes := s.store.codes - {deviceCode}))
    case ExpireMapping(userCode) => s.(store := s.store.(mapping := s.store.mapping - {userCode}))
    case ExpireMarker(deviceCode) => s.(store := s.store.(claimed := s.store.claimed - {deviceCode}))
  }

  function After(s: State, actions: seq<Action>): State
    decreases |actions|
  {
    if actions == [] then s else After(Step(s, actions[0]), actions[1..])
  }

  // ----- The service, one call at a time -----

  datatype Error = StoreFailed | InvalidUserCode | InvalidDeviceCode | AlreadyClaimed | AlreadyUsed | Expired
    | TokenFailed

  datatype Response = AuthorizationPending | Bearer(userId: string)

  /** All the steps of one authorization, taken in a row. */
  function AuthorizedInARow(s: State, userCode: string, userId: string, ok: (bool, bool, bool)): State {
    var s1 := Step(s, Submit(0, userCode, userId));
    var s2 := Step(s1, Authorize(0, ok.0));
    var s3 := Step(s2, Authorize(0, ok.1));
    Step(s3, Authorize(0, ok.2))
  }

  /** All the steps of one poll, taken in a row. */
  function PolledInARow(s: State, deviceCode: string, rotated: bool, saved: bool): State {
    var s1 := Step(s, StartPoll(0, deviceCode));
    var s2 := Step(s1, PollStep(0, true));
    var s3 := Step(s2, PollStep(0, true));
    var s4 := Step(s3, PollStep(0, rotated));
    var s5 := Step(s4, PollStep(0, !rotated || saved));
    Step(s5, PollStep(0, true))
  }

  /** What such a poll does: nothing, unless the code is authorized and its claim is free. */
  lemma PollInARow(s: State, deviceCode: string, rotated: bool, saved: bool)
    requires s.pollers == map[]
    ensures PolledInARow(s, deviceCode, rotated, saved) ==
      if deviceCode !in s.store.codes || s.store.codes[deviceCode].status != Authorized
        || deviceCode in s.store.claimed then s
      else
        var data := s.store.codes[deviceCode];
        var codes := if rotated && saved then s.store.codes[deviceCode := data.(status := Used)] else s.store.codes;
        s.(store := Store(codes, s.store.mapping - {data.userCode}, s.store.claimed + {deviceCode}),
           grants := if rotated then s.grants + [Grant(deviceCode, data.userId)] else s.grants)
  {
    if deviceCode in s.store.codes && s.store.codes[deviceCode].status == Authorized && deviceCode !in s.store.claimed {
      var s3 := ClaimedInARow(s, deviceCode);
      hide Step;
      RotatedInARow(s, s3, deviceCode, s.store.codes[deviceCode], rotated, saved);
    } else {
      RefusedInARow(s, deviceCode);
      hide Step;
      NothingInARow(s, rotated);
      NothingInARow(s, !rotated || saved);
      NothingInARow(s, true);
    }
  }

  lemma NothingInARow(s: State, ok: bool)
    requires s.pollers == map[]
    ensures Step(s, PollStep(0, ok)) == s
  {
  }

  lemma RefusedInARow(s: State, deviceCode: string)
    requires s.pollers == map[]
    requires deviceCode !in s.store.codes || s.store.codes[deviceCode].status != Authorized
      || deviceCode in s.store.claimed
    ensures Step(Step(Step(s, StartPoll(0, deviceCode)), PollStep(0, true)), PollStep(0, true)) == s
  {
    var s1 := Step(s, StartPoll(0, deviceCode));
    assert s1.pollers - {0} == map[];
    var s2 := Step(s1, PollStep(0, true));
    assert s2.pollers - {0} == map[];
  }

  lemma ClaimedInARow(s: State, deviceCode: string) returns (s3: State)
    requires s.pollers == map[]
    requires deviceCode in s.store.codes && s.store.codes[deviceCode].status == Authorized
      && deviceCode !in s.store.claimed
    ensures s3 == Step(Step(Step(s, StartPoll(0, deviceCode)), PollStep(0, true)), PollStep(0, true))
    ensures s3 == s.(pollers := map[0 := AtRotate(deviceCode, s.store.codes[deviceCode])],
                     store := s.store.(claimed := s.store.claimed + {deviceCode}))
  {
    var s1 := Step(s, StartPoll(0, deviceCode));
    var s2 := Step(s1, PollStep(0, true));
    assert s2.pollers == map[0 := AtClaim(deviceCode, s.store.codes[deviceCode])];
    s3 := Step(s2, PollStep(0, true));
  }

  /** The rest of a poll that has its claim. */
  lemma RotatedInARow(s: State, s3: State, deviceCode: string, data: Code, rotated: bool, saved: bool)
    requires s.pollers == map[]
    requires s3 == s.(pollers := map[0 := AtRotate(deviceCode, data)],
                      store := s.store.(claimed := s.store.claimed + {deviceCode}))
    ensures Step(Step(Step(s3, PollStep(0, rotated)), PollStep(0, !rotated || saved)), PollStep(0, true)) ==
      if rotated then
        var codes := if saved then s.store.codes[deviceCode := data.(status := Used)] else s.store.codes;
        s.(store := Store(codes, s.store.mapping - {data.userCode}, s.store.claimed + {deviceCode}),
           grants := s.grants + [Grant(deviceCode, data.userId)])
      else
        s.(store := Store(s.store.codes, s.store.mapping - {data.userCode}, s.store.claimed + {deviceCode}))
  {
    var s4 := Step(s3, PollStep(0, rotated));
    var s5 := Step(s4, PollStep(0, !rotated || saved));
  }

  class Service {
    var codes: map<string, Code>
    var mapping: map<string, string>
    var claimed: set<string>
    ghost var log: Log
    ghost var grants: seq<Grant>

    /** The state with no call in progress. */
    ghost function Idle(): State
      reads this
    {
      State(Store(codes, mapping, claimed), map[], map[], map[], log, grants)
    }

    constructor ()
      ensures Idle() == INITIAL
    {
      codes, mapping, claimed, log, grants := map[], map[], {}, Log(map[], {}), [];
    }

    method GenerateDeviceCode(deviceCode: string, userCode: string, saved: bool, mapped: bool)
      returns (r: Result<string, Error>)
      requires FreshPair(Idle(), deviceCode, userCode)
      modifies this
      ensures r == if saved && mapped then Ok(userCode) else Err(StoreFailed)
      ensures !saved ==> Idle() == old(Idle())
      ensures saved ==>
        Idle() == Step(Step(old(Idle()), Generate(0, deviceCode, userCode)), SaveMapping(0, mapped))
    {
      if !saved {
        return Err(StoreFailed);
      }
      codes := codes[deviceCode := Code(userCode, Pending, "")];
      log := log.(issued := log.issued[userCode := deviceCode]);
      assert map[0 := (userCode, deviceCode)] - {0} == map[];
      if !mapped {
        return Err(StoreFailed);
      }
      mapping := mapping[userCode := deviceCode];
      r := Ok(userCode);
    }

    method AuthorizeDeviceCode(userCode: string, userId: string, ok: (bool, bool, bool))
      returns (r: Result<(), Error>)
      modifies this
      ensures Idle() == AuthorizedInARow(old(Idle()), userCode, userId, ok)
      ensures r.Ok? <==>
        && ok.0 && ok.1 && userCode in old(mapping) && old(mapping)[userCode] in old(codes)
        && var code := old(codes)[old(mapping)[userCode]];
           (code.status == Pending && ok.2) || (code.status == Authorized && code.userId == userId)
      ensures r.Err? ==>
        r.error ==
        if !ok.0 || userCode !in old(mapping) then InvalidUserCode
        else if !ok.1 then StoreFailed
        else if old(mapping)[userCode] !in old(codes) then InvalidDeviceCode
        else match old(codes)[old(mapping)[userCode]].status
          case Pending => StoreFailed
          case Authorized => AlreadyClaimed
          case Used => AlreadyUsed
    {
      log := log.(submitted := log.submitted + {Submission(userCode, userId)});
      if !ok.0 || userCode !in mapping {
        return Err(InvalidUserCode);
      }
      var deviceCode := mapping[userCode];
      if !ok.1 {
        return Err(StoreFailed);
      }
      if deviceCode !in codes {
        return Err(InvalidDeviceCode);
      }
      var data := codes[deviceCode];
      match data.status
      case Pending =>
        if !ok.2 {
          return Err(StoreFailed);
        }
        codes := codes[deviceCode := data.(status := Authorized, userId := userId)];
        r := Ok(());
      case Authorized =>
        if data.userId == userId {
          return Ok(());
        }
        r := Err(AlreadyClaimed);
      case Used =>
        r := Err(AlreadyUsed);
    }

    method PollToken(deviceCode: string, rotated: bool, saved: bool) returns (r: Result<Response, Error>)
      modifies this
      ensures Idle() == PolledInARow(old(Idle()), deviceCode, rotated, saved)
      ensures var live := deviceCode in old(codes) && old(codes)[deviceCode].status == Authorized;
        && (r.Ok? && r.value.Bearer? <==> live && deviceCode !in old(claimed) && rotated)
        && (r.Ok? && r.value.Bearer? ==>
              grants == old(grants) + [Grant(deviceCode, r.value.userId)]
              && r.value.userId == old(codes)[deviceCode].userId)
        && (!(r.Ok? && r.value.Bearer?) ==> grants == old(grants))
      ensures r == Ok(AuthorizationPending) <==>
        && deviceCode in old(codes) && old(codes)[deviceCode].status != Used
        && (old(codes)[deviceCode].status == Pending || deviceCode in old(claimed))
      ensures r == Err(Expired) <==> deviceCode in old(codes) && old(codes)[deviceCode].status == Used
      ensures r == Err(InvalidDeviceCode) <==> deviceCode !in old(codes)
    {
      PollInARow(Idle(), deviceCode, rotated, saved);
      hide PolledInARow;
      if deviceCode !in codes {
        return Err(InvalidDeviceCode);
      }
      var data := codes[deviceCode];
      match data.status
      case Pending =>
        r := Ok(AuthorizationPending);
      case Authorized =>
        if deviceCode in claimed {
          return Ok(AuthorizationPending);
        }
        claimed := claimed + {deviceCode};
        if rotated {
          if saved {
            codes := codes[deviceCode := data.(status := Used)];
          }
          grants := grants + [Grant(deviceCode, data.userId)];
        }
        mapping := mapping - {data.userCode};
        r := if rotated then Ok(Bearer(data.userId)) else Err(TokenFailed);
      case Used =>
        r := Err(Expired);
    }
  }

  // ----- Who was granted what, in every run -----

  /** A record of `deviceCode`: it carries its user code, and an authorizing user has submitted that code. */
  predicate CodeOk(log: Log, deviceCode: string, data: Code) {
    && data.userCode in log.issued && log.issued[data.userCode] == deviceCode
    && (data.status != Pending ==> Submission(data.userCode, data.userId) in log.submitted)
  }

  predicate AuthorizerOk(log: Log, k: Authorizer) {
    && Submission(k.userCode, k.userId) in log.submitted
    && (!k.AtLookup? ==> k.userCode in log.issued && log.issued[k.userCode] == k.deviceCode)
    && (k.AtSave? ==> CodeOk(log, k.deviceCode, k.data) && k.data.status == Authorized)
  }

  predicate PollerOk(log: Log, k: Poller) {
    !k.AtPoll? ==> CodeOk(log, k.deviceCode, k.data) && k.data.status == Authorized
  }

  ghost predicate GrantOk(log: Log, g: Grant) {
    exists userCode ::
      userCode in log.issued && log.issued[userCode] == g.deviceCode && Submission(userCode, g.userId) in log.submitted
  }

  ghost predicate PairedOnce(issued: map<string, string>) {
    forall a, b :: a in issued && b in issued && issued[a] == issued[b] ==> a == b
  }

  predicate PairOk(log: Log, userCode: string, deviceCode: string) {
    userCode in log.issued && log.issued[userCode] == deviceCode
  }

  ghost predicate StoreOk(s: State) {
    && PairedOnce(s.log.issued)
    && (forall d :: d in s.store.codes ==> CodeOk(s.log, d, s.store.codes[d]))
    && (forall u :: u in s.store.mapping ==> PairOk(s.log, u, s.store.mapping[u]))
    && (forall g :: g in s.generating ==> PairOk(s.log, s.generating[g].0, s.generating[g].1))
  }

  ghost predicate Inv(s: State) {
    && StoreOk(s)
    && (forall a :: a in s.authorizers ==> AuthorizerOk(s.log, s.authorizers[a]))
    && (forall p :: p in s.pollers ==> PollerOk(s.log, s.pollers[p]))
    && (forall i :: 0 <= i < |s.grants| ==> GrantOk(s.log, s.grants[i]))
  }

  /** What holds of a log holds of every longer one. */
  lemma LogGrows(log: Log, log': Log)
    requires forall u :: u in log.issued ==> PairOk(log', u, log.issued[u])
    requires log.submitted <= log'.submitted
    ensures forall d, data :: CodeOk(log, d, data) ==> CodeOk(log', d, data)
    ensures forall k :: AuthorizerOk(log, k) ==> AuthorizerOk(log', k)
    ensures forall k :: PollerOk(log, k) ==> PollerOk(log', k)
    ensures forall g :: GrantOk(log, g) ==> GrantOk(log', g)
    ensures forall u, d :: PairOk(log, u, d) ==> PairOk(log', u, d)
  {
  }

  lemma GenerateKeeps(s: State, g: nat, deviceCode: string, userCode: string)
    requires Inv(s)
    ensures Inv(GenerateStep(s, g, deviceCode, userCode))
  {
    hide AuthorizerOk, PollerOk, GrantOk, CodeOk, StoreOk;
    GenerateKeepsStore(s, g, deviceCode, userCode);
    LogGrows(s.log, GenerateStep(s, g, deviceCode, userCode).log);
  }

  lemma GenerateKeepsStore(s: State, g: nat, deviceCode: string, userCode: string)
    requires StoreOk(s)
    ensures StoreOk(GenerateStep(s, g, deviceCode, userCode))
  {
    if g in s.generating || !FreshPair(s, deviceCode, userCode) {
      return;
    }
    var log' := GenerateStep(s, g, deviceCode, userCode).log;
    assert PairedOnce(log'.issued);
    assert PairOk(log', userCode, deviceCode) && CodeOk(log', deviceCode, Code(userCode, Pending, ""));
    LogGrows(s.log, log');
    hide AuthorizerOk, PollerOk, GrantOk, CodeOk, PairOk, PairedOnce;
  }

  lemma SubmitKeeps(s: State, a: nat, userCode: string, userId: string)
    requires Inv(s)
    ensures Inv(SubmitStep(s, a, userCode, userId))
  {
    hide PollerOk, GrantOk, CodeOk;
    LogGrows(s.log, SubmitStep(s, a, userCode, userId).log);
  }

  lemma AuthorizeKeeps(s: State, a: nat, ok: bool)
    requires Inv(s)
    ensures Inv(AuthorizeStep(s, a, ok))
  {
    if a in s.authorizers {
      assert AuthorizerOk(s.log, s.authorizers[a]);
      if s.authorizers[a].AtSave? {
        SaveKeeps(s, a, ok);
      } else {
        ReadKeeps(s, a, ok);
      }
      hide *;
    }
  }

  lemma SaveKeeps(s: State, a: nat, ok: bool)
    requires Inv(s) && a in s.authorizers && s.authorizers[a].AtSave? && AuthorizerOk(s.log, s.authorizers[a])
    ensures Inv(AuthorizeStep(s, a, ok))
  {
    hide PollerOk, GrantOk, PairOk, PairedOnce, CodeOk;
  }

  lemma ReadKeeps(s: State, a: nat, ok: bool)
    requires Inv(s) && a in s.authorizers && !s.authorizers[a].AtSave? && AuthorizerOk(s.log, s.authorizers[a])
    ensures Inv(AuthorizeStep(s, a, ok))
  {
    assert AuthorizeStep(s, a, ok).store == s.store;
    hide PollerOk, GrantOk, PairedOnce;
  }

  lemma ReturnKeeps(s: State, p: nat, ok: bool)
    requires Inv(s) && p in s.pollers && s.pollers[p].AtUsed?
    ensures Inv(PollerStep(s, p, ok))
  {
    hide AuthorizerOk;
    var k := s.pollers[p];
    assert PollerOk(s.log, k) && PairOk(s.log, k.data.userCode, k.deviceCode);
    assert GrantOk(s.log, Grant(k.deviceCode, k.data.userId));
  }

  lemma PollKeeps(s: State, p: nat, ok: bool)
    requires Inv(s) && p in s.pollers && s.pollers[p].AtPoll?
    ensures Inv(PollerStep(s, p, ok))
  {
    hide CodeOk, AuthorizerOk, GrantOk, PairOk;
  }

  lemma ClaimKeeps(s: State, p: nat, ok: bool)
    requires Inv(s) && p in s.pollers && (s.pollers[p].AtClaim? || s.pollers[p].AtRotate?)
    ensures Inv(PollerStep(s, p, ok))
  {
    hide CodeOk, AuthorizerOk, GrantOk, PairOk;
  }

  lemma CleanupKeeps(s: State, p: nat, ok: bool)
    requires Inv(s) && p in s.pollers && s.pollers[p].AtCleanup?
    ensures Inv(PollerStep(s, p, ok))
  {
    hide CodeOk, AuthorizerOk, GrantOk, PairOk;
  }

  lemma PollerKeeps(s: State, p: nat, ok: bool)
    requires Inv(s)
    ensures Inv(PollerStep(s, p, ok))
  {
    if p in s.pollers {
      hide Inv;
      match s.pollers[p]
      case AtPoll(_) => PollKeeps(s, p, ok);
      case AtUsed(_, _) => ReturnKeeps(s, p, ok);
      case AtCleanup(_, _) => CleanupKeeps(s, p, ok);
      case _ => ClaimKeeps(s, p, ok);
    }
  }

  lemma StepKeepsInv(s: State, a: Action)
    requires Inv(s)
    ensures Inv(Step(s, a))
  {
    match a
    case Generate(g, deviceCode, userCode) => GenerateKeeps(s, g, deviceCode, userCode);
    case Submit(i, userCode, userId) => SubmitKeeps(s, i, userCode, userId);
    case Authorize(i, ok) => AuthorizeKeeps(s, i, ok);
    case PollStep(p, ok) => PollerKeeps(s, p, ok);
    case SaveMapping(g, ok) => SaveMappingKeeps(s, g, ok);
    case StartPoll(p, deviceCode) => hide StoreOk, AuthorizerOk, GrantOk;
    case _ => ExpiryKeeps(s, a);
  }

  lemma SaveMappingKeeps(s: State, g: nat, ok: bool)
    requires Inv(s)
    ensures Inv(SaveMappingStep(s, g, ok))
  {
    hide CodeOk, AuthorizerOk, PollerOk, GrantOk;
  }

  lemma ExpiryKeeps(s: State, a: Action)
    requires Inv(s) && (a.ExpireCode? || a.ExpireMapping? || a.ExpireMarker?)
    ensures Inv(Step(s, a))
  {
    hide CodeOk, PairOk, AuthorizerOk, PollerOk, GrantOk;
  }

  lemma {:induction false} AfterKeepsInv(s: State, actions: seq<Action>)
    requires Inv(s)
    ensures Inv(After(s, actions))
    decreases |actions|
  {
    if actions != [] {
      hide Inv;
      StepKeepsInv(s, actions[0]);
      AfterKeepsInv(Step(s, actions[0]), actions[1..]);
    }
  }

  /** The user a token acts for has submitted the one user code that was handed out with the device code. */
  lemma TokenUserSubmittedCode(actions: seq<Action>, i: nat) returns (userCode: string)
    requires i < |After(INITIAL, actions).grants|
    ensures var s := After(INITIAL, actions);
      && PairOk(s.log, userCode, s.grants[i].deviceCode)
      && Submission(userCode, s.grants[i].userId) in s.log.submitted
      && forall other :: PairOk(s.log, other, s.grants[i].deviceCode) ==> other == userCode
  {
    AfterKeepsInv(INITIAL, actions);
    var s := After(INITIAL, actions);
    assert GrantOk(s.log, s.grants[i]);
    userCode :| userCode in s.log.issued && s.log.issued[userCode] == s.grants[i].deviceCode
                && Submission(userCode, s.grants[i].userId) in s.log.submitted;
  }

  /** A call that fails has no effect on the store. */
  lemma FailedCallChangesNothing(s: State, a: Action)
    requires (a.SaveMapping? || a.Authorize? || a.PollStep?) && !a.ok
    ensures Step(s, a).store == s.store && Step(s, a).log == s.log
  {
  }

  // ----- Settled codes -----

  /** A poller that has claimed its code and not yet returned. */
  predicate HoldsClaim(k: Poller) {
    k.AtRotate? || k.AtUsed?
  }

  predicate MaySave(k: Authorizer, d: string) {
    k.AtSave? && k.deviceCode == d
  }

  predicate MayClaim(k: Poller, d: string) {
    k.AtClaim? && k.deviceCode == d
  }

  predicate Holds(k: Poller, d: string) {
    HoldsClaim(k) && k.deviceCode == d
  }

  /** The record of code `d` is used up or gone, and no process is about to save it, claim it or return its token. */
  ghost predicate Settled(s: State, d: string) {
    && (d in s.store.codes ==> s.store.codes[d].status == Used)
    && (forall a :: a in s.authorizers ==> !MaySave(s.authorizers[a], d))
    && (forall p :: p in s.pollers ==> !MayClaim(s.pollers[p], d) && !Holds(s.pollers[p], d))
  }

  /** A token of code `d` among those returned after the first `n`. */
  ghost predicate GrantedSince(s: State, n: nat, d: string) {
    exists i :: n <= i < |s.grants| && s.grants[i].deviceCode == d
  }

  ghost predicate Granted(s: State, d: string) {
    GrantedSince(s, 0, d)
  }

  predicate Issued(s: State, d: string) {
    d in s.log.issued.Values
  }

  /** A settled code stays settled and yields no token. */
  lemma StepKeepsSettled(s: State, a: Action, d: string)
    requires Settled(s, d) && Issued(s, d)
    ensures Settled(Step(s, a), d) && Issued(Step(s, a), d)
    ensures s.grants <= Step(s, a).grants && !GrantedSince(Step(s, a), |s.grants|, d)
  {
    IssuedForever(s, a, d);
    if a.PollStep? {
      hide Issued;
      PollKeepsSettled(s, a.p, a.ok, d);
    } else if a.Authorize? {
      AuthorizeKeepsSettled(s, a.a, a.ok, d);
    } else {
      assert Step(s, a).grants == s.grants;
    }
  }

  lemma AuthorizeKeepsSettled(s: State, a: nat, ok: bool, d: string)
    requires Settled(s, d)
    ensures Settled(AuthorizeStep(s, a, ok), d) && AuthorizeStep(s, a, ok).grants == s.grants
  {
    if a in s.authorizers {
      assert !MaySave(s.authorizers[a], d);
    }
  }

  lemma PollKeepsSettled(s: State, p: nat, ok: bool, d: string)
    requires Settled(s, d)
    ensures Settled(PollerStep(s, p, ok), d)
    ensures s.grants <= PollerStep(s, p, ok).grants && !GrantedSince(PollerStep(s, p, ok), |s.grants|, d)
  {
    if p in s.pollers {
      assert !MayClaim(s.pollers[p], d) && !Holds(s.pollers[p], d);
    }
  }

  lemma IssuedForever(s: State, a: Action, d: string)
    requires Issued(s, d)
    ensures Issued(Step(s, a), d)
  {
    if a.Generate? {
      var u :| u in s.log.issued && s.log.issued[u] == d;
      assert Step(s, a).log.issued[u] == d;
    }
  }

  lemma {:induction false} SettledForever(s: State, actions: seq<Action>, d: string)
    requires Settled(s, d) && Issued(s, d)
    ensures Settled(After(s, actions), d) && s.grants <= After(s, actions).grants
    ensures !GrantedSince(After(s, actions), |s.grants|, d)
    decreases |actions|
  {
    if actions != [] {
      StepKeepsSettled(s, actions[0], d);
      SettledForever(Step(s, actions[0]), actions[1..], d);
      hide Settled, Step;
    }
  }

  // ----- At most one token -----

  /**
   The one-token invariant of code `d`: whoever holds its claim has the marker, is alone and comes before any
   token; there is at most one token; and once there is one, the marker lives or the code is settled.
   */
  ghost predicate Once(s: State, d: string) {
    && (forall p :: p in s.pollers && Holds(s.pollers[p], d) ==> d in s.store.claimed && !Granted(s, d))
    && (forall p, q :: p in s.pollers && q in s.pollers && Holds(s.pollers[p], d) && Holds(s.pollers[q], d) ==> p == q)
    && (forall i, j :: 0 <= i < j < |s.grants| && s.grants[i].deviceCode == d ==> s.grants[j].deviceCode != d)
    && (Granted(s, d) ==> d in s.store.claimed || Settled(s, d))
  }

  /** The claim marker of `d` does not expire before `d` is settled. */
  ghost predicate Timely(s: State, a: Action, d: string) {
    a == ExpireMarker(d) && d in s.store.claimed ==> Settled(s, d)
  }

  ghost predicate AllTimely(s: State, actions: seq<Action>, d: string)
    decreases |actions|
  {
    actions == [] || (Timely(s, actions[0], d) && AllTimely(Step(s, actions[0]), actions[1..], d))
  }

  /** Whoever holds the claim held it before. */
  ghost predicate NoNewHolder(s: State, s': State, d: string) {
    forall p :: p in s'.pollers && Holds(s'.pollers[p], d) ==> p in s.pollers && Holds(s.pollers[p], d)
  }

  lemma NoNewHolderKeepsOnce(s: State, s': State, d: string)
    requires Once(s, d) && s'.grants == s.grants && NoNewHolder(s, s', d)
    requires Granted(s, d) ==> d in s.store.claimed
    requires d in s.store.claimed ==> d in s'.store.claimed || Settled(s', d)
    ensures Once(s', d)
  {
    assert Granted(s', d) == Granted(s, d);
    hide Granted;
  }

  lemma MoveMakesNoHolder(s: State, p: nat, ok: bool, d: string)
    requires p in s.pollers && !s.pollers[p].AtUsed? && !s.pollers[p].AtClaim?
    ensures var s' := PollerStep(s, p, ok);
      s'.grants == s.grants && s'.store.claimed == s.store.claimed && NoNewHolder(s, s', d)
  {
  }

  lemma MoveKeepsOnce(s: State, p: nat, ok: bool, d: string)
    requires Once(s, d) && p in s.pollers && !s.pollers[p].AtUsed? && !s.pollers[p].AtClaim?
    requires Granted(s, d) ==> d in s.store.claimed
    ensures Once(PollerStep(s, p, ok), d)
  {
    MoveMakesNoHolder(s, p, ok, d);
    hide PollerStep, Once, NoNewHolder, Granted, Settled;
    NoNewHolderKeepsOnce(s, PollerStep(s, p, ok), d);
  }

  lemma ClaimKeepsOnce(s: State, p: nat, ok: bool, d: string)
    requires Once(s, d) && p in s.pollers && s.pollers[p].AtClaim?
    requires Granted(s, d) ==> d in s.store.claimed
    ensures Once(PollerStep(s, p, ok), d)
  {
    var s' := PollerStep(s, p, ok);
    assert s'.grants == s.grants;
    assert Granted(s', d) == Granted(s, d);
    hide Granted, Settled;
  }

  lemma ReturnKeepsOnce(s: State, p: nat, ok: bool, d: string)
    requires Once(s, d) && p in s.pollers && s.pollers[p].AtUsed?
    requires Granted(s, d) ==> d in s.store.claimed
    ensures Once(PollerStep(s, p, ok), d)
  {
    var s' := PollerStep(s, p, ok);
    var e := s.pollers[p].deviceCode;
    if e == d {
      assert Holds(s.pollers[p], d);
    } else if Granted(s', d) {
      var i :| 0 <= i < |s'.grants| && s'.grants[i].deviceCode == d;
      assert s.grants[i].deviceCode == d;
    }
    hide Settled;
  }

  lemma OtherMakesNoHolder(s: State, a: Action, d: string)
    requires !a.PollStep?
    ensures Step(s, a).grants == s.grants && NoNewHolder(s, Step(s, a), d)
    ensures a != ExpireMarker(d) && d in s.store.claimed ==> d in Step(s, a).store.claimed
    ensures a == ExpireMarker(d) && Settled(s, d) ==> Settled(Step(s, a), d)
  {
  }

  lemma OtherKeepsOnce(s: State, a: Action, d: string)
    requires Once(s, d) && Timely(s, a, d) && !a.PollStep?
    requires Granted(s, d) ==> d in s.store.claimed
    ensures Once(Step(s, a), d)
  {
    OtherMakesNoHolder(s, a, d);
    hide Step, Once, NoNewHolder, Granted, Settled;
    NoNewHolderKeepsOnce(s, Step(s, a), d);
  }

  lemma StepKeepsOnce(s: State, a: Action, d: string)
    requires Inv(s) && Once(s, d) && Timely(s, a, d)
    ensures Once(Step(s, a), d)
  {
    if Granted(s, d) && d !in s.store.claimed {
      GrantedIsIssued(s, d);
      StepKeepsSettled(s, a, d);
      SettledIsOnce(s, Step(s, a), d);
    } else if !a.PollStep? {
      OtherKeepsOnce(s, a, d);
    } else if a.p in s.pollers {
      hide Once, PollerStep, Granted, Inv;
      match s.pollers[a.p]
      case AtUsed(_, _) => ReturnKeepsOnce(s, a.p, a.ok, d);
      case AtClaim(_, _) => ClaimKeepsOnce(s, a.p, a.ok, d);
      case _ => MoveKeepsOnce(s, a.p, a.ok, d);
    }
  }

  lemma SettledIsOnce(s: State, s': State, d: string)
    requires Once(s, d) && Settled(s', d)
    requires s.grants <= s'.grants && !GrantedSince(s', |s.grants|, d)
    ensures Once(s', d)
  {
    forall i, j | 0 <= i < j < |s'.grants| && s'.grants[i].deviceCode == d
      ensures s'.grants[j].deviceCode != d
    {
      if j < |s.grants| {
        assert s'.grants[i] == s.grants[i] && s'.grants[j] == s.grants[j];
      }
    }
  }

  lemma GrantedIsIssued(s: State, d: string)
    requires Inv(s) && Granted(s, d)
    ensures Issued(s, d)
  {
    var i :| 0 <= i < |s.grants| && s.grants[i].deviceCode == d;
    assert GrantOk(s.log, s.grants[i]);
  }

  lemma {:induction false} AfterKeepsOnce(s: State, actions: seq<Action>, d: string)
    requires Inv(s) && Once(s, d) && AllTimely(s, actions, d)
    ensures Once(After(s, actions), d)
    decreases |actions|
  {
    if actions != [] {
      hide Inv, Once, Timely, Step;
      StepKeepsInv(s, actions[0]);
      StepKeepsOnce(s, actions[0], d);
      AfterKeepsOnce(Step(s, actions[0]), actions[1..], d);
    }
  }

  /**
   In every interleaving, at most one poll of a device code returns an access token, provided the marker of
   the claim outlives every process that still works on the code.
   */
  lemma OneTokenPerCode(actions: seq<Action>, i: nat, j: nat)
    requires i < |After(INITIAL, actions).grants| && j < |After(INITIAL, actions).grants|
    requires After(INITIAL, actions).grants[i].deviceCode == After(INITIAL, actions).grants[j].deviceCode
    requires AllTimely(INITIAL, actions, After(INITIAL, actions).grants[i].deviceCode)
    ensures i == j
  {
    AfterKeepsOnce(INITIAL, actions, After(INITIAL, actions).grants[i].deviceCode);
  }

  lemma {:induction false} TimelyWithoutExpiry(s: State, actions: seq<Action>, d: string)
    requires forall i :: 0 <= i < |actions| ==> actions[i] != ExpireMarker(d)
    ensures AllTimely(s, actions, d)
    decreases |actions|
  {
    if actions != [] {
      assert actions[0] != ExpireMarker(d);
      TimelyWithoutExpiry(Step(s, actions[0]), actions[1..], d);
    }
  }

  /** So while no claim marker of the code expires at all, two tokens are one. */
  lemma OneTokenWhileMarked(actions: seq<Action>, d: string, i: nat, j: nat)
    requires forall k :: 0 <= k < |actions| ==> actions[k] != ExpireMarker(d)
    requires i < |After(INITIAL, actions).grants| && j < |After(INITIAL, actions).grants|
    requires After(INITIAL, actions).grants[i].deviceCode == After(INITIAL, actions).grants[j].deviceCode == d
    ensures i == j
  {
    TimelyWithoutExpiry(INITIAL, actions, d);
    OneTokenPerCode(actions, i, j);
  }

  // ----- Exactly when a second token is possible -----

  predicate NotPending(s: State, d: string) {
    d in s.store.codes ==> s.store.codes[d].status != Pending
  }

  /** No code goes back to pending once a poller has read it as authorized. */
  ghost predicate Past(s: State) {
    && (forall p :: p in s.pollers && !s.pollers[p].AtPoll? ==> NotPending(s, s.pollers[p].deviceCode))
    && (forall i :: 0 <= i < |s.grants| ==> NotPending(s, s.grants[i].deviceCode))
  }

  lemma AuthorizeKeepsNotPending(s: State, a: nat, ok: bool, d: string)
    requires Inv(s) && NotPending(s, d)
    ensures NotPending(AuthorizeStep(s, a, ok), d)
  {
    if a in s.authorizers {
      assert AuthorizerOk(s.log, s.authorizers[a]);
      hide Inv, CodeOk, PairOk;
    }
  }

  lemma GenerateKeepsNotPending(s: State, g: nat, deviceCode: string, userCode: string, d: string)
    requires Issued(s, d) && NotPending(s, d)
    ensures NotPending(GenerateStep(s, g, deviceCode, userCode), d)
  {
  }

  lemma PollKeepsNotPending(s: State, p: nat, ok: bool, d: string)
    requires NotPending(s, d)
    ensures NotPending(PollerStep(s, p, ok), d)
  {
  }

  lemma StepKeepsNotPending(s: State, a: Action, d: string)
    requires Inv(s) && Issued(s, d) && NotPending(s, d)
    ensures NotPending(Step(s, a), d)
  {
    match a
    case Authorize(i, ok) => AuthorizeKeepsNotPending(s, i, ok, d);
    case Generate(g, deviceCode, userCode) => GenerateKeepsNotPending(s, g, deviceCode, userCode, d);
    case PollStep(p, ok) => PollKeepsNotPending(s, p, ok, d);
    case _ => hide Inv, Issued;
  }

  lemma StepKeepsPast(s: State, a: Action)
    requires Inv(s) && Past(s)
    ensures Past(Step(s, a))
  {
    hide Inv;
    var s' := Step(s, a);
    forall p | p in s'.pollers && !s'.pollers[p].AtPoll?
      ensures NotPending(s', s'.pollers[p].deviceCode)
    {
      PollerPast(s, a, p);
    }
    forall i | 0 <= i < |s'.grants|
      ensures NotPending(s', s'.grants[i].deviceCode)
    {
      GrantPast(s, a, i);
    }
  }

  lemma PollerPast(s: State, a: Action, p: nat)
    requires Inv(s) && Past(s) && p in Step(s, a).pollers && !Step(s, a).pollers[p].AtPoll?
    ensures NotPending(Step(s, a), Step(s, a).pollers[p].deviceCode)
  {
    PollerBefore(s, a, p);
    var d := s.pollers[p].deviceCode;
    if !s.pollers[p].AtPoll? {
      hide Step, CodeOk;
      assert PollerOk(s.log, s.pollers[p]) && Issued(s, d);
      StepKeepsNotPending(s, a, d);
    }
  }

  lemma PollerBefore(s: State, a: Action, p: nat)
    requires p in Step(s, a).pollers && !Step(s, a).pollers[p].AtPoll?
    ensures p in s.pollers && s.pollers[p].deviceCode == Step(s, a).pollers[p].deviceCode
    ensures s.pollers[p].AtPoll? ==> NotPending(Step(s, a), s.pollers[p].deviceCode)
  {
    if a.PollStep? {
      MovedPollerBefore(s, a.p, a.ok, p);
      hide PollerStep, NotPending;
    } else {
      assert p in s.pollers && s.pollers[p] == Step(s, a).pollers[p];
    }
  }

  lemma MovedPollerBefore(s: State, moved: nat, ok: bool, p: nat)
    requires p in PollerStep(s, moved, ok).pollers && !PollerStep(s, moved, ok).pollers[p].AtPoll?
    ensures p in s.pollers && s.pollers[p].deviceCode == PollerStep(s, moved, ok).pollers[p].deviceCode
    ensures s.pollers[p].AtPoll? ==> NotPending(PollerStep(s, moved, ok), s.pollers[p].deviceCode)
  {
  }

  lemma GrantPast(s: State, a: Action, i: nat)
    requires Inv(s) && Past(s) && i < |Step(s, a).grants|
    ensures NotPending(Step(s, a), Step(s, a).grants[i].deviceCode)
  {
    GrantBefore(s, a, i);
    hide Step, CodeOk;
    var d := Step(s, a).grants[i].deviceCode;
    if i < |s.grants| {
      assert GrantOk(s.log, s.grants[i]);
      StepKeepsNotPending(s, a, d);
    } else {
      assert PollerOk(s.log, s.pollers[a.p]);
      PollerIssued(s.log, s.pollers[a.p]);
      StepKeepsNotPending(s, a, d);
    }
  }

  lemma PollerIssued(log: Log, k: Poller)
    requires PollerOk(log, k) && !k.AtPoll?
    ensures k.deviceCode in log.issued.Values
  {
  }

  lemma GrantBefore(s: State, a: Action, i: nat)
    requires i < |Step(s, a).grants|
    ensures i < |s.grants| ==> Step(s, a).grants[i] == s.grants[i]
    ensures i >= |s.grants| ==>
      && a.PollStep? && a.p in s.pollers && s.pollers[a.p].AtUsed?
      && Step(s, a).grants[i].deviceCode == s.pollers[a.p].deviceCode
  {
  }

  lemma {:induction false} AfterKeepsPast(s: State, actions: seq<Action>)
    requires Inv(s) && Past(s)
    ensures Past(After(s, actions))
    decreases |actions|
  {
    if actions != [] {
      hide Inv, Past;
      StepKeepsInv(s, actions[0]);
      StepKeepsPast(s, actions[0]);
      AfterKeepsPast(Step(s, actions[0]), actions[1..]);
    }
  }

  /** The rest of a poll whose claim is taken, or still free to be taken. */
  lemma {:induction false} PollerYields(s: State, p: nat, d: string) returns (more: seq<Action>)
    requires p in s.pollers && (Holds(s.pollers[p], d) || (MayClaim(s.pollers[p], d) && d !in s.store.claimed))
    ensures GrantedSince(After(s, more), |s.grants|, d)
    decreases if s.pollers[p].AtClaim? then 2 else if s.pollers[p].AtRotate? then 1 else 0
  {
    var a := PollStep(p, true);
    var s' := Step(s, a);
    if s.pollers[p].AtUsed? {
      more := [a];
      assert After(s', more[1..]) == s';
      assert s'.grants[|s.grants|].deviceCode == d;
    } else {
      more := PollerYields(s', p, d);
      more := [a] + more;
      assert After(s, more) == After(s', more[1..]);
    }
  }

  lemma NewPollYields(s: State, d: string) returns (more: seq<Action>)
    requires d in s.store.codes && s.store.codes[d].status == Authorized && d !in s.store.claimed
    ensures GrantedSince(After(s, more), |s.grants|, d)
  {
    var p := Unused(s.pollers.Keys);
    var s1 := Step(s, StartPoll(p, d));
    var s2 := Step(s1, PollStep(p, true));
    more := PollerYields(s2, p, d);
    AfterCons(s1, PollStep(p, true), more);
    more := [PollStep(p, true)] + more;
    AfterCons(s, StartPoll(p, d), more);
    more := [StartPoll(p, d)] + more;
  }

  lemma AuthorizerYields(s: State, a: nat, d: string) returns (more: seq<Action>)
    requires Inv(s) && a in s.authorizers && MaySave(s.authorizers[a], d) && d !in s.store.claimed
    ensures GrantedSince(After(s, more), |s.grants|, d)
  {
    assert AuthorizerOk(s.log, s.authorizers[a]);
    hide Inv;
    var s1 := Step(s, Authorize(a, true));
    more := NewPollYields(s1, d);
    AfterCons(s, Authorize(a, true), more);
    more := [Authorize(a, true)] + more;
  }

  lemma AfterCons(s: State, a: Action, more: seq<Action>)
    ensures After(s, [a] + more) == After(Step(s, a), more)
  {
    assert ([a] + more)[1..] == more;
  }

  /** Some continuation of the run returns one more token of `d`. */
  ghost predicate CanYield(s: State, d: string) {
    exists more :: GrantedSince(After(s, more), |s.grants|, d)
  }

  /**
   Once a code has yielded a token and its claim marker is gone, some continuation of the run yields another
   token for it exactly when the code is not settled.
   */
  lemma GrantedAgainIff(actions: seq<Action>, d: string)
    requires Granted(After(INITIAL, actions), d) && d !in After(INITIAL, actions).store.claimed
    ensures CanYield(After(INITIAL, actions), d) <==> !Settled(After(INITIAL, actions), d)
  {
    var s := After(INITIAL, actions);
    AfterKeepsInv(INITIAL, actions);
    AfterKeepsPast(INITIAL, actions);
    hide Inv, Past, Settled, GrantedSince;
    GrantedIsIssued(s, d);
    if Settled(s, d) {
      forall more
        ensures !GrantedSince(After(s, more), |s.grants|, d)
      {
        SettledForever(s, more, d);
      }
    } else {
      var more := UnsettledYields(s, d);
      assert GrantedSince(After(s, more), |s.grants|, d);
    }
  }

  lemma UnsettledYields(s: State, d: string) returns (more: seq<Action>)
    requires Inv(s) && Past(s) && Granted(s, d) && d !in s.store.claimed && !Settled(s, d)
    ensures GrantedSince(After(s, more), |s.grants|, d)
  {
    if d in s.store.codes && s.store.codes[d].status != Used {
      var i :| 0 <= i < |s.grants| && s.grants[i].deviceCode == d;
      assert NotPending(s, s.grants[i].deviceCode);
      more := NewPollYields(s, d);
    } else if a :| a in s.authorizers && MaySave(s.authorizers[a], d) {
      more := AuthorizerYields(s, a, d);
    } else {
      var p :| p in s.pollers && (MayClaim(s.pollers[p], d) || Holds(s.pollers[p], d));
      more := PollerYields(s, p, d);
    }
  }

  // ----- A run that yields two tokens -----

  lemma {:induction false} AfterAppend(s: State, actions: seq<Action>, a: Action)
    ensures After(s, actions + [a]) == Step(After(s, actions), a)
    decreases |actions|
  {
    if actions == [] {
      assert [a][1..] == [];
    } else {
      AfterAppend(Step(s, actions[0]), actions[1..], a);
      assert (actions + [a])[1..] == actions[1..] + [a];
    }
  }

  lemma Do(actions: seq<Action>, s: State, a: Action, s': State) returns (actions': seq<Action>)
    requires After(INITIAL, actions) == s && Step(s, a) == s'
    ensures After(INITIAL, actions') == s'
  {
    AfterAppend(INITIAL, actions, a);
    actions' := actions + [a];
  }

  /** A code is handed out. */
  lemma CodeIssued() returns (actions: seq<Action>, s: State)
    ensures After(INITIAL, actions) == s
    ensures s == INITIAL.(store := Store(map["D" := Code("U", Pending, "")], map["U" := "D"], {}),
      log := Log(map["U" := "D"], {}))
  {
    var store := Store(map["D" := Code("U", Pending, "")], map["U" := "D"], {});
    var s1 := INITIAL.(store := store.(mapping := map[]), generating := map[0 := ("U", "D")],
      log := Log(map["U" := "D"], {}));
    actions := Do([], INITIAL, Generate(0, "D", "U"), s1);
    hide After;
    s := INITIAL.(store := store, log := Log(map["U" := "D"], {}));
    actions := Do(actions, s1, SaveMapping(0, true), s);
  }

  /** Alice reads the pending code and has not saved yet. */
  lemma AliceReads() returns (actions: seq<Action>, s: State)
    ensures After(INITIAL, actions) == s
    ensures s.store == Store(map["D" := Code("U", Pending, "")], map["U" := "D"], {})
    ensures s.authorizers == map[1 := AtSave("U", "alice", "D", Code("U", Authorized, "alice"))]
    ensures s.pollers == map[] && s.grants == []
  {
    hide After;
    var s1: State;
    actions, s1 := CodeIssued();
    s := s1.(authorizers := map[1 := AtLookup("U", "alice")], log := Log(map["U" := "D"], {Submission("U", "alice")}));
    actions := Do(actions, s1, Submit(1, "U", "alice"), s);
    s1 := s.(authorizers := map[1 := AtRead("U", "alice", "D")]);
    actions := Do(actions, s, Authorize(1, true), s1);
    s := s1.(authorizers := map[1 := AtSave("U", "alice", "D", Code("U", Authorized, "alice"))]);
    actions := Do(actions, s1, Authorize(1, true), s);
  }

  /** Two users read the same pending code, one of them saves it as authorized. */
  lemma BothAuthorize() returns (actions: seq<Action>, s: State)
    ensures After(INITIAL, actions) == s
    ensures s.store == Store(map["D" := Code("U", Authorized, "alice")], map["U" := "D"], {})
    ensures s.authorizers == map[2 := AtSave("U", "bob", "D", Code("U", Authorized, "bob"))]
    ensures s.pollers == map[] && s.grants == []
  {
    hide After;
    var s1: State;
    actions, s := AliceReads();
    s1 := s.(authorizers := s.authorizers[2 := AtLookup("U", "bob")],
             log := s.log.(submitted := s.log.submitted + {Submission("U", "bob")}));
    actions := Do(actions, s, Submit(2, "U", "bob"), s1);
    s := s1.(authorizers := s.authorizers[2 := AtRead("U", "bob", "D")]);
    actions := Do(actions, s1, Authorize(2, true), s);
    s1 := s.(authorizers := s.authorizers[2 := AtSave("U", "bob", "D", Code("U", Authorized, "bob"))]);
    actions := Do(actions, s, Authorize(2, true), s1);
    s := s1.(authorizers := map[2 := AtSave("U", "bob", "D", Code("U", Authorized, "bob"))],
             store := s1.store.(codes := map["D" := Code("U", Authorized, "alice")]));
    actions := Do(actions, s1, Authorize(1, true), s);
  }

  /** A poll of an authorized and unclaimed code, up to its claim. */
  lemma PollClaims(actions: seq<Action>, s: State, p: nat, data: Code) returns (actions': seq<Action>, s': State)
    requires After(INITIAL, actions) == s && p !in s.pollers
    requires s.store.codes == map["D" := data] && data.status == Authorized && s.store.claimed == {}
    ensures After(INITIAL, actions') == s'
    ensures s' == s.(pollers := s.pollers[p := AtRotate("D", data)], store := s.store.(claimed := {"D"}))
  {
    hide After;
    s' := s.(pollers := s.pollers[p := AtPoll("D")]);
    actions' := Do(actions, s, StartPoll(p, "D"), s');
    var s1 := s.(pollers := s.pollers[p := AtClaim("D", data)]);
    actions' := Do(actions', s', PollStep(p, true), s1);
    s' := s.(pollers := s.pollers[p := AtRotate("D", data)], store := s.store.(claimed := {"D"}));
    actions' := Do(actions', s1, PollStep(p, true), s');
  }

  /** The same poll up to the token it returns. */
  lemma PollGrants(actions: seq<Action>, s: State, p: nat, userId: string)
    returns (actions': seq<Action>, s': State)
    requires After(INITIAL, actions) == s && p !in s.pollers
    requires s.store.codes == map["D" := Code("U", Authorized, userId)] && s.store.claimed == {}
    ensures After(INITIAL, actions') == s'
    ensures s'.store == Store(map["D" := Code("U", Used, userId)], s.store.mapping, {"D"})
    ensures s'.authorizers == s.authorizers && s'.grants == s.grants + [Grant("D", userId)]
    ensures s'.pollers == s.pollers[p := AtCleanup("D", Code("U", Authorized, userId))]
  {
    hide After;
    var data := Code("U", Authorized, userId);
    actions', s' := PollClaims(actions, s, p, data);
    var s1 := s'.(pollers := s.pollers[p := AtUsed("D", data)]);
    actions' := Do(actions', s', PollStep(p, true), s1);
    s' := s1.(pollers := s.pollers[p := AtCleanup("D", data)], grants := s.grants + [Grant("D", userId)],
              store := s1.store.(codes := map["D" := data.(status := Used)]));
    actions' := Do(actions', s1, PollStep(p, true), s');
  }

  /**
   Once the marker of a claimed code has expired, an authorizer that read the code while it was pending can
   still overwrite it, and the same device code yields a second token, for another user.
   */
  lemma LateAuthorizationGrantsTwice() returns (actions: seq<Action>)
    ensures After(INITIAL, actions).grants == [Grant("D", "alice"), Grant("D", "bob")]
    ensures !AllTimely(INITIAL, actions, "D")
  {
    hide After;
    var s, s1: State;
    actions, s := BothAuthorize();
    actions, s := PollGrants(actions, s, 1, "alice");
    s1 := s.(authorizers := map[], store := s.store.(codes := map["D" := Code("U", Authorized, "bob")]));
    actions := Do(actions, s, Authorize(2, true), s1);
    s := s1.(store := s1.store.(claimed := {}));
    actions := Do(actions, s1, ExpireMarker("D"), s);
    actions, s := PollGrants(actions, s, 2, "bob");
    if AllTimely(INITIAL, actions, "D") {
      OneTokenPerCode(actions, 0, 1);
    }
  }
}
