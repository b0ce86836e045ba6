/** The account and invitation stores and the service over them, updated in place
    (identity/store.py, identity/provider.py, identity/service.py). */
module OrgService {
  import opened Text
  import opened Accounts
  import opened OrgSafety

  class UserStore {
    var data: Users

    constructor (users: Users)
      ensures data == users
    {
      data := users;
    }

    /** Scans for the address. */
    method GetByEmail(email: string) returns (found: Option<Id>)
      ensures found.Some? ==> found.value in data && data[found.value].email == Normalized(email)
      ensures found.None? ==> !Taken(data, Normalized(email))
    {
      var e, todo := Normalized(email), data.Keys;
      while todo != {}
        invariant todo <= data.Keys
        invariant forall id :: id in data && id !in todo ==> data[id].email != e
        decreases todo
      {
        var id :| id in todo;
        if data[id].email == e { return Some(id); }
        todo := todo - {id};
      }
      return None;
    }

    method Create(id: Id, u: User) returns (created: bool)
      modifies this
      ensures created <==> id !in old(data) && !Taken(old(data), Normalized(u.email))
      ensures data == if created then old(data)[id := u.(email := Normalized(u.email))] else old(data)
    {
      var e := Normalized(u.email);
      if id in data || Taken(data, e) { return false; }
      data := data[id := u.(email := e)];
      return true;
    }

    method Update(id: Id, u: User)
      modifies this
      ensures data == old(data)[id := u.(email := Normalized(u.email))]
    {
      data := data[id := u.(email := Normalized(u.email))];
    }

    method Delete(id: Id)
      modifies this
      ensures data == old(data) - {id}
    {
      data := data - {id};
    }

    method SetEmail(id: Id, email: string) returns (answer: Answer)
      modifies this
      ensures answer == if id !in old(data) then NotFound
                        else if Taken(old(data) - {id}, Normalized(email)) then Rejected else Done
      ensures data == if answer == Done then old(data)[id := old(data)[id].(email := Normalized(email))] else old(data)
    {
      var e := Normalized(email);
      if id !in data { return NotFound; }
      if Taken(data - {id}, e) { return Rejected; }
      data := data[id := data[id].(email := e)];
      return Done;
    }
  }

  class InviteStore {
    var data: map<Invitation, Invite>

    constructor ()
      ensures data == map[]
    {
      data := map[];
    }

    /** `create` and `update` */
    method Write(token: Invitation, inv: Invite)
      modifies this
      ensures data == old(data)[token := inv]
    {
      data := data[token := inv];
    }
  }

  lemma EmailIsNormal(s: Org, id: Id)
    requires Good(s) && id in s.users
    ensures Normalized(s.users[id].email) == s.users[id].email
  {}

  /** Addresses being unique, the account found settles whether the address is a member's. */
  lemma HolderSettlesMember(s: Org, id: Id, tenant: string)
    requires Good(s) && id in s.users
    ensures IsMember(s.users, tenant, s.users[id].email) <==>
            s.users[id].tenant == tenant && s.users[id].status != Pending
  {}

  lemma NobodyIsMember(users: Users, tenant: string, email: string)
    requires !Taken(users, email)
    ensures !IsMember(users, tenant, email)
  {}

  /** A set with this element in it is no larger than one when there is no other. */
  lemma AtMostOne(s: set<Id>, x: Id)
    requires x in s
    ensures |s| <= 1 <==> forall y :: y in s ==> y == x
  {
    assert s == (s - {x}) + {x};
    assert |s| == |s - {x}| + 1;
    if |s - {x}| != 0 {
      var y :| y in s - {x};
    } else {
      assert s - {x} == {};
    }
  }

  /** Addresses being unique, at most the one account found goes. */
  lemma OnlyHolderSuperseded(users: Users, id: Id, tenant: string)
    requires UniqueEmails(users) && id in users
    ensures Superseded(users, tenant, users[id].email) ==
            if users[id].tenant == tenant && users[id].status == Pending then users - {id} else users
  {
    var users' := Superseded(users, tenant, users[id].email);
    assert forall x :: x in users && x != id ==> x in users';
  }

  class IdentityService {
    const policy: Policy
    const store: UserStore
    const invites: InviteStore

    constructor (policy: Policy, users: Users)
      requires Good(Org(users, map[]))
      ensures this.policy == policy && State() == Org(users, map[]) && Good(State())
      ensures fresh(store) && fresh(invites)
    {
      this.policy := policy;
      store := new UserStore(users);
      invites := new InviteStore();
    }

    ghost function State(): Org
      reads store, invites
    {
      Org(store.data, invites.data)
    }

    /** `_create` */
    method Open(id: Id, u: User) returns (answer: Answer)
      requires Good(State())
      modifies store
      ensures (State(), answer) == Opened(policy, old(State()), id, u)
      ensures Good(State()) && Keeps(policy, old(State()), State())
    {
      OpeningKeeps(policy, State(), id, u);
      hide Good, Keeps;
      NormalizedTwice(u.email);
      var e := Normalized(u.email);
      if !policy.emailOk(e) || |u.password| < MIN_PASSWORD { return Rejected; }
      var created := store.Create(id, u.(email := e));
      return if created then Done else Rejected;
    }

    method SupersedePending(tenant: string, email: string)
      requires Good(State()) && Normalized(email) == email
      modifies store
      ensures store.data == Superseded(old(store.data), tenant, email)
      ensures Good(State()) && Keeps(policy, old(State()), State())
    {
      SupersedingStaysGood(policy, State(), tenant, email);
      hide Normalized;
      var found := store.GetByEmail(email);
      if found.Some? {
        OnlyHolderSuperseded(store.data, found.value, tenant);
        if store.data[found.value].tenant == tenant && store.data[found.value].status == Pending {
          store.Delete(found.value);
        }
      } else {
        assert Superseded(store.data, tenant, email) == store.data;
      }
    }

    method Register(id: Id, email: string, password: string, name: string, org: string) returns (answer: Answer)
      requires Good(State())
      modifies store
      ensures (State(), answer) == Apply(policy, old(State()), Accounts.Op.Register(id, email, password, name, org))
      ensures Good(State()) && Keeps(policy, old(State()), State())
    {
      hide Good, Keeps;
      OpKeeps(policy, State(), Accounts.Op.Register(id, email, password, name, org));
      if !policy.multi { return Forbidden; }
      var slug := policy.slug(org);
      var tenant := if slug != "" then slug else id;
      answer := Open(id, User(email, password, name, tenant, [OWNER_ROLE, policy.adminRole], Active));
    }

    method RequestAccess(id: Id, email: string, password: string, name: string) returns (answer: Answer)
      requires Good(State())
      modifies store
      ensures (State(), answer) == Apply(policy, old(State()), Accounts.Op.RequestAccess(id, email, password, name))
      ensures Good(State()) && Keeps(policy, old(State()), State())
    {
      hide Good, Keeps;
      OpKeeps(policy, State(), Accounts.Op.RequestAccess(id, email, password, name));
      if policy.multi || !policy.accessRequests { return Forbidden; }
      var e := Normalized(email);
      if !policy.emailOk(e) || |password| < MIN_PASSWORD { return Rejected; }
      var found := store.GetByEmail(e);
      NormalizedTwice(email);
      if found.Some? { return Done; }
      var _ := Open(id, User(email, password, name, policy.globalTenant, [], Pending));
      return Done;
    }

    method ProvisionMember(tenant: string, id: Id, email: string, password: string, name: string, role: string)
      returns (answer: Answer)
      requires Good(State())
      modifies store
      ensures (State(), answer) == Apply(policy, old(State()), Provision(tenant, id, email, password, name, role))
      ensures Good(State()) && Keeps(policy, old(State()), State())
    {
      hide Good, Keeps;
      OpKeeps(policy, State(), Provision(tenant, id, email, password, name, role));
      var role' := OrMember(role);
      if role' !in Allowed(policy) { return Rejected; }
      NormalizedTwice(email);
      SupersedingStaysGood(policy, State(), tenant, Normalized(email));
      SupersedePending(tenant, Normalized(email));
      answer := Open(id, User(email, password, name, tenant, [role'], Active));
    }

    method CreateInvite(tenant: string, token: Invitation, email: string, role: string, ttl: int, now: int)
      returns (answer: Answer)
      requires Good(State()) && token !in invites.data
      modifies store, invites
      ensures (State(), answer) ==
              Apply(policy, old(State()), Accounts.Op.CreateInvite(tenant, token, email, role, ttl, now))
      ensures Good(State()) && Keeps(policy, old(State()), State())
    {
      hide Good, Keeps;
      OpKeeps(policy, State(), Accounts.Op.CreateInvite(tenant, token, email, role, ttl, now));
      hide Normalized, OrMember, Allowed, IsMember, Taken;
      var role' := OrMember(role);
      if role' !in Allowed(policy) { return Rejected; }
      var e := Normalized(email);
      NormalizedTwice(email);
      if e == "" { return Rejected; }
      var existing := store.GetByEmail(e);
      if existing.Some? {
        HolderSettlesMember(State(), existing.value, tenant);
        if store.data[existing.value].tenant == tenant && store.data[existing.value].status != Pending {
          return Rejected;
        }
      } else {
        NobodyIsMember(store.data, tenant, e);
      }
      SupersedePending(tenant, e);
      invites.Write(token, Invite(e, tenant, role', if ttl == 0 then 0 else now + ttl, InviteStatus.Open, None));
      return Done;
    }

    method RevokeInvite(tenant: string, token: Invitation) returns (answer: Answer)
      requires Good(State())
      modifies invites
      ensures (State(), answer) == Apply(policy, old(State()), Accounts.Op.RevokeInvite(tenant, token))
      ensures Good(State()) && Keeps(policy, old(State()), State())
    {
      hide Good, Keeps;
      OpKeeps(policy, State(), Accounts.Op.RevokeInvite(tenant, token));
      if token !in invites.data || invites.data[token].tenant != tenant { return NotFound; }
      invites.Write(token, invites.data[token].(status := Revoked));
      return Done;
    }

    method AcceptInvite(token: Invitation, id: Id, password: string, name: string, now: int) returns (answer: Answer)
      requires Good(State())
      modifies store, invites
      ensures (State(), answer) == Apply(policy, old(State()), Accounts.Op.AcceptInvite(token, id, password, name, now))
      ensures Good(State()) && Keeps(policy, old(State()), State())
    {
      hide Good, Keeps;
      OpKeeps(policy, State(), Accounts.Op.AcceptInvite(token, id, password, name, now));
      if token !in invites.data { return Rejected; }
      hide Normalized, Taken;
      InviteEmailIsNormal(State(), token);
      var inv := invites.data[token];
      if inv.status != InviteStatus.Open || (inv.expires != 0 && now > inv.expires) { return Rejected; }
      SupersedingStaysGood(policy, State(), inv.tenant, inv.email);
      SupersedePending(inv.tenant, inv.email);
      var existing := store.GetByEmail(inv.email);
      if existing.Some? { return Rejected; }
      answer := Open(id, User(inv.email, password, name, inv.tenant, [inv.role], Active));
      if answer != Done { return; }
      invites.Write(token, inv.(status := Accepted, acceptedBy := Some(id)));
    }

    /** Refuses when the account is the tenant's only active admin. */
    method GuardLastAdmin(tenant: string, id: Id) returns (refused: bool)
      ensures refused <==> id in AdminsOf(policy, store.data, tenant)
                           && forall x :: x in AdminsOf(policy, store.data, tenant) ==> x == id
    {
      var admins, todo := {}, store.data.Keys;
      while todo != {}
        invariant todo <= store.data.Keys && admins == AdminsOf(policy, store.data, tenant) - todo
        decreases todo
      {
        var m :| m in todo;
        var u := store.data[m];
        if u.tenant == tenant && policy.adminRole in u.roles && u.status == Active { admins := admins + {m}; }
        todo := todo - {m};
      }
      assert admins == AdminsOf(policy, store.data, tenant);
      hide AdminsOf;
      if id in admins { AtMostOne(admins, id); }
      return |admins| <= 1 && id in admins;
    }

    method GuardRemovable(id: Id) returns (refused: bool)
      requires id in store.data
      ensures refused == Unremovable(policy, store.data, id)
    {
      if OWNER_ROLE in store.data[id].roles { return true; }
      if policy.adminRole !in store.data[id].roles { return false; }
      refused := GuardLastAdmin(store.data[id].tenant, id);
    }

    method ApproveAccessRequest(tenant: string, id: Id, role: string) returns (answer: Answer)
      requires Good(State())
      modifies store
      ensures (State(), answer) == Apply(policy, old(State()), Approve(tenant, id, role))
      ensures Good(State()) && Keeps(policy, old(State()), State())
    {
      hide Good, Keeps;
      OpKeeps(policy, State(), Approve(tenant, id, role));
      hide Normalized;
      var role' := OrMember(role);
      if role' !in Allowed(policy) { return Rejected; }
      if id !in store.data || store.data[id].tenant != tenant { return NotFound; }
      if store.data[id].status != Pending { return Rejected; }
      EmailIsNormal(State(), id);
      store.Update(id, store.data[id].(status := Active, roles := [role']));
      return Done;
    }

    method RejectAccessRequest(tenant: string, id: Id) returns (answer: Answer)
      requires Good(State())
      modifies store
      ensures (State(), answer) == Apply(policy, old(State()), Reject(tenant, id))
      ensures Good(State()) && Keeps(policy, old(State()), State())
    {
      hide Good, Keeps;
      OpKeeps(policy, State(), Reject(tenant, id));
      if id !in store.data || store.data[id].tenant != tenant { return NotFound; }
      if store.data[id].status != Pending { return Rejected; }
      store.Delete(id);
      return Done;
    }

    method SetMemberRole(tenant: string, id: Id, role: string) returns (answer: Answer)
      requires Good(State())
      modifies store
      ensures (State(), answer) == Apply(policy, old(State()), SetRole(tenant, id, role))
      ensures Good(State()) && Keeps(policy, old(State()), State())
    {
      hide Good, Keeps;
      OpKeeps(policy, State(), SetRole(tenant, id, role));
      hide Normalized, AdminsOf;
      if role !in Allowed(policy) { return Rejected; }
      if id !in store.data || store.data[id].tenant != tenant { return NotFound; }
      var u := store.data[id];
      if OWNER_ROLE in u.roles { return Rejected; }
      if policy.adminRole in u.roles && role != policy.adminRole {
        var refused := GuardLastAdmin(tenant, id);
        if refused { return Rejected; }
      }
      EmailIsNormal(State(), id);
      store.Update(id, u.(roles := [role]));
      return Done;
    }

    method SetMemberStatus(tenant: string, id: Id, status: Status) returns (answer: Answer)
      requires Good(State())
      modifies store
      ensures (State(), answer) == Apply(policy, old(State()), SetStatus(tenant, id, status))
      ensures Good(State()) && Keeps(policy, old(State()), State())
    {
      hide Good, Keeps;
      OpKeeps(policy, State(), SetStatus(tenant, id, status));
      hide Normalized, AdminsOf;
      if status == Pending { return Rejected; }
      if id !in store.data || store.data[id].tenant != tenant { return NotFound; }
      var u := store.data[id];
      if u.status == Pending { return Rejected; }
      if status == Disabled && OWNER_ROLE in u.roles { return Rejected; }
      if status == Disabled && policy.adminRole in u.roles {
        var refused := GuardLastAdmin(tenant, id);
        if refused { return Rejected; }
      }
      EmailIsNormal(State(), id);
      store.Update(id, u.(status := status));
      return Done;
    }

    method UpdateProfile(id: Id, name: string) returns (answer: Answer)
      requires Good(State())
      modifies store
      ensures (State(), answer) == Apply(policy, old(State()), Accounts.Op.UpdateProfile(id, name))
      ensures Good(State()) && Keeps(policy, old(State()), State())
    {
      hide Good, Keeps, Normalized, Unremovable, Taken;
      OpKeeps(policy, State(), Accounts.Op.UpdateProfile(id, name));
      if id !in store.data { return NotFound; }
      EmailIsNormal(State(), id);
      store.Update(id, store.data[id].(name := Strip(name)));
      return Done;
    }

    method ChangePassword(id: Id, current: string, password: string) returns (answer: Answer)
      requires Good(State())
      modifies store
      ensures (State(), answer) == Apply(policy, old(State()), Accounts.Op.ChangePassword(id, current, password))
      ensures Good(State()) && Keeps(policy, old(State()), State())
    {
      hide Good, Keeps, Normalized, Unremovable, Taken;
      OpKeeps(policy, State(), Accounts.Op.ChangePassword(id, current, password));
      if id !in store.data { return NotFound; }
      if store.data[id].password != current { return Rejected; }
      if |password| < MIN_PASSWORD { return Rejected; }
      EmailIsNormal(State(), id);
      store.Update(id, store.data[id].(password := password));
      return Done;
    }

    method ChangeEmail(id: Id, email: string, password: string) returns (answer: Answer)
      requires Good(State())
      modifies store
      ensures (State(), answer) == Apply(policy, old(State()), Accounts.Op.ChangeEmail(id, email, password))
      ensures Good(State()) && Keeps(policy, old(State()), State())
    {
      hide Good, Keeps, Normalized, Unremovable, Taken;
      OpKeeps(policy, State(), Accounts.Op.ChangeEmail(id, email, password));
      if id !in store.data { return NotFound; }
      if store.data[id].password != password { return Rejected; }
      var e := Normalized(email);
      NormalizedTwice(email);
      if !policy.emailOk(e) { return Rejected; }
      answer := store.SetEmail(id, e);
    }

    method DeactivateAccount(id: Id, password: string) returns (answer: Answer)
      requires Good(State())
      modifies store
      ensures (State(), answer) == Apply(policy, old(State()), Deactivate(id, password))
      ensures Good(State()) && Keeps(policy, old(State()), State())
    {
      hide Good, Keeps;
      OpKeeps(policy, State(), Deactivate(id, password));
      hide Normalized, Unremovable;
      if id !in store.data { return NotFound; }
      if store.data[id].password != password { return Rejected; }
      var refused := GuardRemovable(id);
      if refused { return Rejected; }
      EmailIsNormal(State(), id);
      store.Update(id, store.data[id].(status := Disabled));
      return Done;
    }

    method DeleteAccount(id: Id, password: string) returns (answer: Answer)
      requires Good(State())
      modifies store
      ensures (State(), answer) == Apply(policy, old(State()), Accounts.Op.DeleteAccount(id, password))
      ensures Good(State()) && Keeps(policy, old(State()), State())
    {
      hide Good, Keeps, Normalized, Unremovable, Taken;
      OpKeeps(policy, State(), Accounts.Op.DeleteAccount(id, password));
      if id !in store.data { return NotFound; }
      if store.data[id].password != password { return Rejected; }
      var refused := GuardRemovable(id);
      if refused { return Rejected; }
      store.Delete(id);
      return Done;
    }
  }
}
