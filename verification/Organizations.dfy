/** Organization membership: roles, and the requests that add, change and remove members, one at a
    time. A user is identified by its id; emails are unique, so users are listed by email. */
module Organizations {
  import opened Options

  type OrgId = nat
  type UserId = nat
  type Key = (OrgId, UserId)

  datatype Role = Viewer | Evaluator | Admin | Owner {
    function Level(): int {
      match this
      case Viewer => 10
      case Evaluator => 20
      case Admin => 30
      case Owner => 40
    }
  }

  /** `role` is None for a credential whose role is not one of the four. */
  datatype Principal = Principal(org: OrgId, role: Option<Role>) {
    function Level(): int { if role.Some? then role.value.Level() else -1 }
    predicate Has(minimum: Role) { Level() >= minimum.Level() }
  }

  datatype UserRow = UserRow(id: UserId, active: bool)

  datatype Failure = Forbidden | PasswordRequired | UserDisabled | AlreadyMember | NotAMember | LastOwner

  datatype Tables = Tables(users: map<string, UserRow>, members: map<Key, Role>)

  datatype Request =
    | Add(principal: Principal, email: string, hasPassword: bool, role: Role, newId: UserId)
    | Update(principal: Principal, user: UserId, role: Role)
    | Remove(principal: Principal, user: UserId)

  function Owners(members: map<Key, Role>, org: OrgId): set<Key> {
    set key | key in members && key.0 == org && members[key].Owner?
  }

  /** `_ensure_not_last_owner` refuses. */
  predicate LastOwnerOf(members: map<Key, Role>, org: OrgId) {
    |Owners(members, org)| <= 1
  }

  /** Why a request is refused; a refused request commits nothing. */
  function Refusal(t: Tables, request: Request): Option<Failure> {
    var p := request.principal;
    if !p.Has(Admin) then Some(Forbidden)
    else match request
      case Add(_, email, hasPassword, role, _) =>
        if role.Owner? && !p.Has(Owner) then Some(Forbidden)
        else if email !in t.users then (if hasPassword then None else Some(PasswordRequired))
        else if !t.users[email].active then Some(UserDisabled)
        else if (p.org, t.users[email].id) in t.members then Some(AlreadyMember)
        else None
      case Update(_, user, role) =>
        if (p.org, user) !in t.members then Some(NotAMember)
        else
          var current := t.members[(p.org, user)];
          if (current.Owner? || role.Owner?) && !p.Has(Owner) then Some(Forbidden)
          else if current.Owner? && !role.Owner? && LastOwnerOf(t.members, p.org) then Some(LastOwner)
          else None
      case Remove(_, user) =>
        if (p.org, user) !in t.members then Some(NotAMember)
        else if !t.members[(p.org, user)].Owner? then None
        else if !p.Has(Owner) then Some(Forbidden)
        else if LastOwnerOf(t.members, p.org) then Some(LastOwner)
        else None
  }

  function Target(t: Tables, request: Request): Key {
    match request
    case Add(p, email, _, _, newId) => (p.org, if email in t.users then t.users[email].id else newId)
    case Update(p, user, _) => (p.org, user)
    case Remove(p, user) => (p.org, user)
  }

  function Served(t: Tables, request: Request): Tables {
    if Refusal(t, request).Some? then t
    else match request
      case Add(_, email, _, role, newId) =>
        Tables(if email in t.users then t.users else t.users[email := UserRow(newId, true)],
               t.members[Target(t, request) := role])
      case Update(_, _, role) => t.(members := t.members[Target(t, request) := role])
      case Remove(_, _) => t.(members := t.members - {Target(t, request)})
  }

  /** New users get an id that no user and no membership has. */
  predicate FreshId(t: Tables, request: Request) {
    request.Add? ==>
      && (forall key | key in t.members :: key.1 != request.newId)
      && (forall email | email in t.users :: t.users[email].id != request.newId)
  }

  class Directory {
    var users: map<string, UserRow>
    var members: map<Key, Role>

    constructor (users: map<string, UserRow>, members: map<Key, Role>)
      ensures State() == Tables(users, members)
    {
      this.users, this.members := users, members;
    }

    ghost function State(): Tables
      reads this
    {
      Tables(users, members)
    }

    /** `add_member`. */
    method AddMember(principal: Principal, email: string, hasPassword: bool, role: Role, newId: UserId)
        returns (failure: Option<Failure>)
      requires FreshId(State(), Add(principal, email, hasPassword, role, newId))
      modifies this
      ensures failure == Refusal(old(State()), Add(principal, email, hasPassword, role, newId))
      ensures State() == Served(old(State()), Add(principal, email, hasPassword, role, newId))
    {
      if !principal.Has(Admin) { return Some(Forbidden); }
      if role == Owner && !principal.Has(Owner) { return Some(Forbidden); }
      var created := email !in users;
      var user: UserRow;
      if created {
        if !hasPassword { return Some(PasswordRequired); }
        user := UserRow(newId, true);
      } else {
        user := users[email];
        if !user.active { return Some(UserDisabled); }
      }
      if (principal.org, user.id) in members { return Some(AlreadyMember); }
      if created { users := users[email := user]; }
      members := members[(principal.org, user.id) := role];
      return None;
    }

    /** `update_member`. */
    method UpdateMember(principal: Principal, user: UserId, role: Role) returns (failure: Option<Failure>)
      modifies this
      ensures failure == Refusal(old(State()), Update(principal, user, role))
      ensures State() == Served(old(State()), Update(principal, user, role))
    {
      if !principal.Has(Admin) { return Some(Forbidden); }
      if (principal.org, user) !in members { return Some(NotAMember); }
      var current := members[(principal.org, user)];
      if (current == Owner || role == Owner) && !principal.Has(Owner) { return Some(Forbidden); }
      if current == Owner && role != Owner && |Owners(members, principal.org)| <= 1 { return Some(LastOwner); }
      members := members[(principal.org, user) := role];
      return None;
    }

    /** `remove_member`. */
    method RemoveMember(principal: Principal, user: UserId) returns (failure: Option<Failure>)
      modifies this
      ensures failure == Refusal(old(State()), Remove(principal, user))
      ensures State() == Served(old(State()), Remove(principal, user))
    {
      if !principal.Has(Admin) { return Some(Forbidden); }
      if (principal.org, user) !in members { return Some(NotAMember); }
      if members[(principal.org, user)] == Owner {
        if !principal.Has(Owner) { return Some(Forbidden); }
        if |Owners(members, principal.org)| <= 1 { return Some(LastOwner); }
      }
      members := members - {(principal.org, user)};
      return None;
    }
  }

  // ---- Owners ----

  lemma OtherOwnersStay(t: Tables, request: Request, key: Key)
    requires key in Owners(t.members, key.0) && key != Target(t, request)
    ensures key in Owners(Served(t, request).members, key.0)
  {
  }

  lemma AnotherOwner(owners: set<Key>, key: Key) returns (other: Key)
    requires |owners| > 1
    ensures other in owners && other != key
  {
    if owners <= {key} {
      Smaller(owners, key);
      assert false;
    }
    other :| other in owners && other != key;
  }

  lemma Smaller(owners: set<Key>, key: Key)
    requires owners <= {key}
    ensures |owners| <= 1
  {
    if key in owners { assert owners == {key}; } else { assert owners == {}; }
  }

  /** One request never takes an organization's last owner. */
  lemma OwnerRemains(t: Tables, request: Request, org: OrgId)
    requires FreshId(t, request) && Owners(t.members, org) != {}
    ensures Owners(Served(t, request).members, org) != {}
  {
    var target := Target(t, request);
    if target !in Owners(t.members, org) {
      var owner :| owner in Owners(t.members, org);
      OtherOwnersStay(t, request, owner);
    } else if Refusal(t, request).None? && (request.Remove? || !request.role.Owner?) {
      var owner := AnotherOwner(Owners(t.members, org), target);
      OtherOwnersStay(t, request, owner);
    } else {
      assert target in Owners(Served(t, request).members, org);
    }
  }

  function ServedAll(t: Tables, requests: seq<Request>): Tables
    decreases |requests|
  {
    if requests == [] then t else ServedAll(Served(t, requests[0]), requests[1..])
  }

  predicate AllFresh(t: Tables, requests: seq<Request>)
    decreases |requests|
  {
    requests == [] || (FreshId(t, requests[0]) && AllFresh(Served(t, requests[0]), requests[1..]))
  }

  /** Over any serial run of requests, an organization that has an owner keeps one. */
  lemma {:induction false} OwnedForever(t: Tables, requests: seq<Request>, org: OrgId)
    requires AllFresh(t, requests) && Owners(t.members, org) != {}
    ensures Owners(ServedAll(t, requests).members, org) != {}
    decreases |requests|
  {
    if requests == [] {
    } else {
      OwnerRemains(t, requests[0], org);
      OwnedForever(Served(t, requests[0]), requests[1..], org);
    }
  }

  /** The level a membership carries; none counts as below every role. */
  function LevelOf(members: map<Key, Role>, key: Key): int {
    if key in members then members[key].Level() else -1
  }

  /** A request changes memberships of its own organization only, and gives or takes no role above
      its principal's own level, which is at least admin. */
  lemma NoEscalation(t: Tables, request: Request, key: Key)
    requires FreshId(t, request)
    requires key in t.members || key in Served(t, request).members
    requires LevelOf(t.members, key) != LevelOf(Served(t, request).members, key)
    ensures key.0 == request.principal.org
    ensures request.principal.Level() >= Admin.Level()
    ensures LevelOf(t.members, key) <= request.principal.Level()
    ensures LevelOf(Served(t, request).members, key) <= request.principal.Level()
  {
  }

  /** Exactly what protects the last owner: an owner's own request to leave or step down is refused iff
      nobody else owns the organization. */
  lemma LastOwnerMayNotLeave(t: Tables, org: OrgId, user: UserId, role: Role)
    requires (org, user) in Owners(t.members, org) && !role.Owner?
    ensures
      var self := Principal(org, Some(Owner));
      && (Refusal(t, Remove(self, user)).Some? <==> Owners(t.members, org) == {(org, user)})
      && (Refusal(t, Update(self, user, role)).Some? <==> Owners(t.members, org) == {(org, user)})
  {
    var owners := Owners(t.members, org);
    if |owners| <= 1 {
      assert |owners - {(org, user)}| == 0;
    } else {
      var other := AnotherOwner(owners, (org, user));
    }
  }

  // ---- Exactly which requests are granted ----

  /** The request gives the owner role or acts on an owner. */
  predicate TouchesOwner(t: Tables, request: Request) {
    || (!request.Remove? && request.role.Owner?)
    || (!request.Add? && Target(t, request) in Owners(t.members, request.principal.org))
  }

  /** The request would leave its organization without an owner. */
  predicate TakesLastOwner(t: Tables, request: Request) {
    && (request.Remove? || (request.Update? && !request.role.Owner?))
    && Owners(t.members, request.principal.org) == {Target(t, request)}
  }

  /** The request names whom it can act on: a membership, or for an addition an active user without one, or
      nobody yet but with a password. */
  predicate WellAimed(t: Tables, request: Request) {
    if !request.Add? then (request.principal.org, request.user) in t.members
    else if request.email in t.users then
      t.users[request.email].active && (request.principal.org, t.users[request.email].id) !in t.members
    else request.hasPassword
  }

  /** A request is granted exactly when an admin makes it, an owner where owners are concerned, it is well
      aimed, and it does not take the last owner. */
  lemma GrantedExactly(t: Tables, request: Request)
    ensures Refusal(t, request).None? <==>
      && request.principal.Has(Admin) && (TouchesOwner(t, request) ==> request.principal.Has(Owner))
      && WellAimed(t, request) && !TakesLastOwner(t, request)
  {
    var owners, target := Owners(t.members, request.principal.org), Target(t, request);
    if target in owners {
      if |owners| <= 1 { assert |owners - {target}| == 0; } else { var other := AnotherOwner(owners, target); }
    }
  }

  /** A refused request changes nothing. A granted one writes or removes its target's membership and no
      other, and adds its user when the email is new. */
  lemma ServedExactly(t: Tables, request: Request)
    ensures Refusal(t, request).Some? ==> Served(t, request) == t
    ensures Refusal(t, request).None? ==>
      var after, target := Served(t, request), Target(t, request);
      && (request.Remove? ==> target !in after.members)
      && (!request.Remove? ==> target in after.members && after.members[target] == request.role)
      && (forall key | key != target ::
            (key in after.members <==> key in t.members) && (key in t.members ==> after.members[key] == t.members[key]))
      && (forall email :: email in after.users <==> email in t.users || (request.Add? && email == request.email))
      && (forall email | email in t.users :: after.users[email] == t.users[email])
      && (request.Add? ==> after.users[request.email].id == target.1 && after.users[request.email].active)
  {
  }
}
