/** Accounts and invitations, and what each service operation does to them (identity/service.py,
    identity/provider.py, identity/store.py). One operation is one atomic step here. */
module Accounts {
  import opened Text

  type Id = string
  type Invitation = string

  const MEMBER_ROLE := "member"
  const OWNER_ROLE := "owner"
  const MIN_PASSWORD := 8

  datatype Status = Active | Disabled | Pending

  /** `password` stands for what the password check accepts. */
  datatype User = User(email: string, password: string, name: string, tenant: string, roles: seq<string>, status: Status)

  datatype InviteStatus = Open | Accepted | Revoked

  datatype Invite = Invite(
    email: string, tenant: string, role: string, expires: int, status: InviteStatus, acceptedBy: Option<Id>)

  type Users = map<Id, User>

  datatype Org = Org(users: Users, invites: map<Invitation, Invite>)

  /** Deployment settings; the address pattern and the slug are any functions. */
  datatype Policy = Policy(
    adminRole: string, multi: bool, globalTenant: string, accessRequests: bool,
    emailOk: string -> bool, slug: string -> string)

  datatype Answer = Done | Rejected | NotFound | Forbidden

  function LowerChar(c: char): char {
    if 'A' <= c <= 'Z' then c + 32 as char else c
  }

  function Lower(s: string): (r: string)
    ensures |r| == |s| && forall i :: 0 <= i < |s| ==> r[i] == LowerChar(s[i])
  {
    seq(|s|, i requires 0 <= i < |s| => LowerChar(s[i]))
  }

  /** `normalize_email` */
  function Normalized(email: string): string {
    Lower(Strip(email))
  }

  lemma LowerTwice(s: string)
    ensures Lower(Lower(s)) == Lower(s)
  {
    var r := Lower(s);
    assert forall i :: 0 <= i < |r| ==> Lower(r)[i] == LowerChar(r[i]) == r[i];
  }

  lemma LowerStaysTrimmed(s: string)
    requires Trimmed(s)
    ensures Trimmed(Lower(s))
  {
    if s != "" { assert Lower(s)[0] == LowerChar(s[0]) && Lower(s)[|s| - 1] == LowerChar(s[|s| - 1]); }
  }

  /** The store normalizes what the service has normalized already. */
  lemma NormalizedTwice(email: string)
    ensures Normalized(Normalized(email)) == Normalized(email)
  {
    hide Strip, Lower, Trimmed;
    var _, _ := StripSlice(email);
    var e := Lower(Strip(email));
    LowerStaysTrimmed(Strip(email));
    StripOf("", e, "");
    assert "" + e + "" == e;
    LowerTwice(Strip(email));
  }

  predicate Taken(users: Users, email: string) {
    exists id :: id in users && users[id].email == email
  }

  predicate IsMember(users: Users, tenant: string, email: string) {
    exists id :: id in users && users[id].email == email && users[id].tenant == tenant && users[id].status != Pending
  }

  function Allowed(p: Policy): set<string> {
    {p.adminRole, MEMBER_ROLE}
  }

  function OrMember(role: string): string {
    if role == "" then MEMBER_ROLE else role
  }

  /** `_supersede_pending`: the request at the address, if the account holding it is one. */
  function Superseded(users: Users, tenant: string, email: string): Users {
    map id | id in users && !(users[id].email == email && users[id].tenant == tenant && users[id].status == Pending)
      :: users[id]
  }

  /** `_create` and the store's `create` */
  function Opened(p: Policy, s: Org, id: Id, u: User): (Org, Answer) {
    var e := Normalized(u.email);
    if !p.emailOk(e) || |u.password| < MIN_PASSWORD || id in s.users || Taken(s.users, e) then (s, Rejected)
    else (s.(users := s.users[id := u.(email := e)]), Done)
  }

  function AdminsOf(p: Policy, users: Users, tenant: string): set<Id> {
    set id | id in users && users[id].tenant == tenant && p.adminRole in users[id].roles && users[id].status == Active
  }

  /** The account is the only active admin of the tenant: `_guard_last_admin` refuses. */
  predicate LastAdmin(p: Policy, users: Users, tenant: string, id: Id) {
    id in AdminsOf(p, users, tenant) && forall x :: x in AdminsOf(p, users, tenant) ==> x == id
  }

  /** `_guard_removable` refuses. */
  predicate Unremovable(p: Policy, users: Users, id: Id)
    requires id in users
  {
    OWNER_ROLE in users[id].roles || (p.adminRole in users[id].roles && LastAdmin(p, users, users[id].tenant, id))
  }

  datatype Op =
    | Register(id: Id, email: string, password: string, name: string, org: string)
    | RequestAccess(id: Id, email: string, password: string, name: string)
    | Provision(tenant: string, id: Id, email: string, password: string, name: string, role: string)
    | CreateInvite(tenant: string, token: Invitation, email: string, role: string, ttl: int, now: int)
    | RevokeInvite(tenant: string, token: Invitation)
    | AcceptInvite(token: Invitation, id: Id, password: string, name: string, now: int)
    | Approve(tenant: string, id: Id, role: string)
    | Reject(tenant: string, id: Id)
    | SetRole(tenant: string, id: Id, role: string)
    | SetStatus(tenant: string, id: Id, status: Status)
    | UpdateProfile(id: Id, name: string)
    | ChangePassword(id: Id, current: string, password: string)
    | ChangeEmail(id: Id, email: string, password: string)
    | Deactivate(id: Id, password: string)
    | DeleteAccount(id: Id, password: string)

  function Put(s: Org, id: Id, u: User): Org {
    s.(users := s.users[id := u])
  }

  function Apply(p: Policy, s: Org, op: Op): (Org, Answer) {
    match op
    case Register(id, email, password, name, org) =>
      if !p.multi then (s, Forbidden)
      else
        var tenant := if p.slug(org) != "" then p.slug(org) else id;
        Opened(p, s, id, User(email, password, name, tenant, [OWNER_ROLE, p.adminRole], Active))
    case RequestAccess(id, email, password, name) =>
      if p.multi || !p.accessRequests then (s, Forbidden)
      else if !p.emailOk(Normalized(email)) || |password| < MIN_PASSWORD then (s, Rejected)
      else (Opened(p, s, id, User(email, password, name, p.globalTenant, [], Pending)).0, Done)
    case Provision(tenant, id, email, password, name, role) =>
      if OrMember(role) !in Allowed(p) then (s, Rejected)
      else
        var s' := s.(users := Superseded(s.users, tenant, Normalized(email)));
        Opened(p, s', id, User(email, password, name, tenant, [OrMember(role)], Active))
    case CreateInvite(tenant, token, email, role, ttl, now) =>
      var e := Normalized(email);
      if OrMember(role) !in Allowed(p) || e == "" then (s, Rejected)
      else if IsMember(s.users, tenant, e) then (s, Rejected)
      else
        var invite := Invite(e, tenant, OrMember(role), if ttl == 0 then 0 else now + ttl, Open, None);
        (Org(Superseded(s.users, tenant, e), s.invites[token := invite]), Done)
    case RevokeInvite(tenant, token) =>
      if token !in s.invites || s.invites[token].tenant != tenant then (s, NotFound)
      else (s.(invites := s.invites[token := s.invites[token].(status := Revoked)]), Done)
    case AcceptInvite(token, id, password, name, now) =>
      if !Usable(s, token, now) then (s, Rejected)
      else
        var inv := s.invites[token];
        var s' := s.(users := Superseded(s.users, inv.tenant, inv.email));
        if Taken(s'.users, inv.email) then (s', Rejected)
        else
          var (s'', answer) := Opened(p, s', id, User(inv.email, password, name, inv.tenant, [inv.role], Active));
          if answer != Done then (s'', answer)
          else (s''.(invites := s''.invites[token := inv.(status := Accepted, acceptedBy := Some(id))]), Done)
    case Approve(tenant, id, role) =>
      if OrMember(role) !in Allowed(p) then (s, Rejected)
      else if !InTenant(s, tenant, id) then (s, NotFound)
      else if s.users[id].status != Pending then (s, Rejected)
      else (Put(s, id, s.users[id].(status := Active, roles := [OrMember(role)])), Done)
    case Reject(tenant, id) =>
      if !InTenant(s, tenant, id) then (s, NotFound)
      else if s.users[id].status != Pending then (s, Rejected)
      else (s.(users := s.users - {id}), Done)
    case SetRole(tenant, id, role) =>
      if role !in Allowed(p) then (s, Rejected)
      else if !InTenant(s, tenant, id) then (s, NotFound)
      else if OWNER_ROLE in s.users[id].roles then (s, Rejected)
      else if p.adminRole in s.users[id].roles && role != p.adminRole && LastAdmin(p, s.users, tenant, id)
      then (s, Rejected)
      else (Put(s, id, s.users[id].(roles := [role])), Done)
    case SetStatus(tenant, id, status) =>
      if status == Pending then (s, Rejected)
      else if !InTenant(s, tenant, id) then (s, NotFound)
      else if s.users[id].status == Pending then (s, Rejected)
      else if status == Disabled && Unremovable(p, s.users, id) then (s, Rejected)
      else (Put(s, id, s.users[id].(status := status)), Done)
    case UpdateProfile(id, name) =>
      if id !in s.users then (s, NotFound) else (Put(s, id, s.users[id].(name := Strip(name))), Done)
    case ChangePassword(id, current, password) =>
      if id !in s.users then (s, NotFound)
      else if s.users[id].password != current || |password| < MIN_PASSWORD then (s, Rejected)
      else (Put(s, id, s.users[id].(password := password)), Done)
    case ChangeEmail(id, email, password) =>
      var e := Normalized(email);
      if id !in s.users then (s, NotFound)
      else if s.users[id].password != password || !p.emailOk(e) || Taken(s.users - {id}, e) then (s, Rejected)
      else (Put(s, id, s.users[id].(email := e)), Done)
    case Deactivate(id, password) =>
      if id !in s.users then (s, NotFound)
      else if s.users[id].password != password || Unremovable(p, s.users, id) then (s, Rejected)
      else (Put(s, id, s.users[id].(status := Disabled)), Done)
    case DeleteAccount(id, password) =>
      if id !in s.users then (s, NotFound)
      else if s.users[id].password != password || Unremovable(p, s.users, id) then (s, Rejected)
      else (s.(users := s.users - {id}), Done)
  }

  predicate InTenant(s: Org, tenant: string, id: Id) {
    id in s.users && s.users[id].tenant == tenant
  }

  predicate Usable(s: Org, token: Invitation, now: int) {
    && token in s.invites && s.invites[token].status == Open
    && (s.invites[token].expires == 0 || now <= s.invites[token].expires)
  }
}
