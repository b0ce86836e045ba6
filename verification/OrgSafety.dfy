/** What every sequence of service operations keeps true of accounts and invitations. */
module OrgSafety {
  import opened Text
  import opened Accounts

  ghost predicate UniqueEmails(users: Users) {
    forall i, j :: i in users && j in users && users[i].email == users[j].email ==> i == j
  }

  ghost predicate Good(s: Org) {
    && UniqueEmails(s.users)
    && (forall id :: id in s.users ==> Normalized(s.users[id].email) == s.users[id].email)
    && (forall k :: k in s.invites ==> Normalized(s.invites[k].email) == s.invites[k].email)
  }

  ghost predicate ActiveOwner(users: Users, id: Id) {
    id in users && OWNER_ROLE in users[id].roles && users[id].status == Active
  }

  ghost predicate OwnersStay(users: Users, users': Users) {
    forall id :: ActiveOwner(users, id) ==> ActiveOwner(users', id) && users'[id].tenant == users[id].tenant
  }

  ghost predicate AdminsStay(p: Policy, users: Users, users': Users) {
    forall t :: AdminsOf(p, users, t) != {} ==> AdminsOf(p, users', t) != {}
  }

  /** An invitation never opens again, and never changes what it offers. */
  ghost predicate InviteStays(before: Invite, after: Invite) {
    && after.tenant == before.tenant && after.role == before.role && after.email == before.email
    && (before.status != Open ==> after.status != Open)
  }

  ghost predicate InvitesStay(before: map<Invitation, Invite>, after: map<Invitation, Invite>) {
    forall k :: k in before ==> k in after && InviteStays(before[k], after[k])
  }

  ghost predicate Keeps(p: Policy, s: Org, s': Org) {
    OwnersStay(s.users, s'.users) && AdminsStay(p, s.users, s'.users) && InvitesStay(s.invites, s'.invites)
  }

  /** Invitation tokens are minted afresh. */
  ghost predicate Admissible(s: Org, op: Op) {
    op.CreateInvite? ==> op.token !in s.invites
  }

  // ---- The moves the operations are made of -------------------------------------------------------

  lemma SupersedingKeeps(p: Policy, users: Users, tenant: string, email: string)
    ensures OwnersStay(users, Superseded(users, tenant, email)) && AdminsStay(p, users, Superseded(users, tenant, email))
  {
    var users' := Superseded(users, tenant, email);
    forall t | AdminsOf(p, users, t) != {} ensures AdminsOf(p, users', t) != {} {
      var a :| a in AdminsOf(p, users, t);
      assert a in AdminsOf(p, users', t);
    }
  }

  lemma AddingKeeps(p: Policy, users: Users, id: Id, u: User)
    requires id !in users
    ensures OwnersStay(users, users[id := u]) && AdminsStay(p, users, users[id := u])
  {
    forall t | AdminsOf(p, users, t) != {} ensures AdminsOf(p, users[id := u], t) != {} {
      var a :| a in AdminsOf(p, users, t);
      assert a in AdminsOf(p, users[id := u], t);
    }
  }

  /** When the guard lets an admin go, the tenant has another. */
  lemma AnotherAdmin(p: Policy, users: Users, tenant: string, id: Id) returns (other: Id)
    requires id in AdminsOf(p, users, tenant) && !LastAdmin(p, users, tenant, id)
    ensures other in AdminsOf(p, users, tenant) && other != id
  {
    other :| other in AdminsOf(p, users, tenant) && other != id;
  }

  /** Changing or removing one account, when its owner role and the guard allow it. */
  lemma ChangingKeepsAdmins(p: Policy, users: Users, users': Users, id: Id)
    requires id in users && users'.Keys <= users.Keys && users.Keys <= users'.Keys + {id}
    requires forall x :: x in users' && x != id ==> users'[x] == users[x]
    requires var t := users[id].tenant;
             id in AdminsOf(p, users, t) ==> id in AdminsOf(p, users', t) || !LastAdmin(p, users, t, id)
    ensures AdminsStay(p, users, users')
  {
    forall t | AdminsOf(p, users, t) != {} ensures AdminsOf(p, users', t) != {} {
      var a :| a in AdminsOf(p, users, t);
      if a != id {
        assert a in AdminsOf(p, users', t);
      } else if id !in AdminsOf(p, users', t) {
        var other := AnotherAdmin(p, users, t, id);
        assert other in AdminsOf(p, users', t);
      }
    }
  }

  lemma OpeningKeeps(p: Policy, s: Org, id: Id, u: User)
    requires Good(s)
    ensures var s' := Opened(p, s, id, u).0; Good(s') && s'.invites == s.invites && Keeps(p, s, s')
  {
    NormalizedTwice(u.email);
    if Opened(p, s, id, u).1 == Done { AddingKeeps(p, s.users, id, u.(email := Normalized(u.email))); }
  }

  lemma RecordingInviteKeeps(p: Policy, s: Org, token: Invitation, inv: Invite)
    requires Good(s) && Normalized(inv.email) == inv.email && (token in s.invites ==> InviteStays(s.invites[token], inv))
    ensures var s' := s.(invites := s.invites[token := inv]); Good(s') && Keeps(p, s, s')
  {
    hide AdminsOf, ActiveOwner, UniqueEmails, Normalized;
  }

  lemma SupersedingStaysGood(p: Policy, s: Org, tenant: string, email: string)
    requires Good(s)
    ensures var s' := s.(users := Superseded(s.users, tenant, email)); Good(s') && Keeps(p, s, s')
  {
    SupersedingKeeps(p, s.users, tenant, email);
    hide AdminsStay, OwnersStay, Normalized;
  }

  lemma KeepsChains(p: Policy, a: Org, b: Org, c: Org)
    requires Keeps(p, a, b) && Keeps(p, b, c)
    ensures Keeps(p, a, c)
  {
    hide AdminsOf;
    forall id | ActiveOwner(a.users, id) ensures ActiveOwner(c.users, id) && c.users[id].tenant == a.users[id].tenant {
      assert ActiveOwner(b.users, id);
    }
    forall k | k in a.invites ensures k in c.invites && InviteStays(a.invites[k], c.invites[k]) {
      assert InviteStays(a.invites[k], b.invites[k]);
    }
  }

  // ---- Every operation ----------------------------------------------------------------------------

  lemma ProvisioningKeeps(p: Policy, s: Org, op: Op)
    requires Good(s) && op.Provision?
    ensures Good(Apply(p, s, op).0) && Keeps(p, s, Apply(p, s, op).0)
  {
    var s' := s.(users := Superseded(s.users, op.tenant, Normalized(op.email)));
    var u := User(op.email, op.password, op.name, op.tenant, [OrMember(op.role)], Active);
    hide Good, Keeps, Opened, Superseded, Normalized, OrMember, Allowed;
    SupersedingStaysGood(p, s, op.tenant, Normalized(op.email));
    OpeningKeeps(p, s', op.id, u);
    KeepsChains(p, s, s', Opened(p, s', op.id, u).0);
    Unchanged(p, s);
  }

  lemma InvitingKeeps(p: Policy, s: Org, tenant: string, token: Invitation, email: string, role: string, ttl: int, now: int)
    requires Good(s) && token !in s.invites
    ensures var s' := Apply(p, s, CreateInvite(tenant, token, email, role, ttl, now)).0; Good(s') && Keeps(p, s, s')
  {
    hide Normalized, IsMember, Good, Keeps, Superseded, OrMember, Allowed;
    var e := Normalized(email);
    var s' := s.(users := Superseded(s.users, tenant, e));
    NormalizedTwice(email);
    SupersedingStaysGood(p, s, tenant, e);
    var inv := Invite(e, tenant, OrMember(role), if ttl == 0 then 0 else now + ttl, Open, None);
    RecordingInviteKeeps(p, s', token, inv);
    KeepsChains(p, s, s', s'.(invites := s'.invites[token := inv]));
    Unchanged(p, s);
  }

  lemma InviteEmailIsNormal(s: Org, token: Invitation)
    requires Good(s) && token in s.invites
    ensures Normalized(s.invites[token].email) == s.invites[token].email
  {}

  /** The steps of accepting an invitation, in turn. */
  lemma AcceptingStepsKeep(p: Policy, s: Org, token: Invitation, id: Id, u: User)
    requires Good(s) && token in s.invites
    ensures var inv := s.invites[token];
            var s1 := s.(users := Superseded(s.users, inv.tenant, inv.email));
            var s2 := Opened(p, s1, id, u).0;
            var s3 := s2.(invites := s2.invites[token := inv.(status := Accepted, acceptedBy := Some(id))]);
            && Good(s1) && Keeps(p, s, s1) && Good(s2) && Keeps(p, s, s2) && Good(s3) && Keeps(p, s, s3)
            && s2.invites == s.invites
  {
    hide Good, Keeps, Opened, Superseded, Normalized;
    var inv := s.invites[token];
    InviteEmailIsNormal(s, token);
    var s1 := s.(users := Superseded(s.users, inv.tenant, inv.email));
    SupersedingStaysGood(p, s, inv.tenant, inv.email);
    OpeningKeeps(p, s1, id, u);
    var s2 := Opened(p, s1, id, u).0;
    var accepted := inv.(status := Accepted, acceptedBy := Some(id));
    RecordingInviteKeeps(p, s2, token, accepted);
    KeepsChains(p, s, s1, s2);
    KeepsChains(p, s, s2, s2.(invites := s2.invites[token := accepted]));
  }

  lemma AcceptingKeeps(p: Policy, s: Org, token: Invitation, id: Id, password: string, name: string, now: int)
    requires Good(s)
    ensures var s' := Apply(p, s, AcceptInvite(token, id, password, name, now)).0; Good(s') && Keeps(p, s, s')
  {
    hide Good, Keeps, Opened, Superseded, Taken;
    Unchanged(p, s);
    if Usable(s, token, now) {
      hide Usable;
      var inv := s.invites[token];
      AcceptingStepsKeep(p, s, token, id, User(inv.email, password, name, inv.tenant, [inv.role], Active));
    }
  }

  /** The operations that change or remove one account. */
  ghost predicate ChangesOne(op: Op) {
    op.Approve? || op.Reject? || op.SetRole? || op.SetStatus? || op.UpdateProfile? || op.ChangePassword?
    || op.ChangeEmail? || op.Deactivate? || op.DeleteAccount?
  }

  /** Only account id is other than it was. */
  ghost predicate OnlyAt(s: Org, s': Org, id: Id) {
    && s'.invites == s.invites && s'.users.Keys <= s.users.Keys && s.users.Keys <= s'.users.Keys + {id}
    && (forall x :: x in s'.users && x != id ==> s'.users[x] == s.users[x])
  }

  /** What they do to it: the address changes only to one nobody else holds. */
  ghost predicate TouchesOne(p: Policy, s: Org, op: Op)
    requires ChangesOne(op) && op.id in s.users
  {
    var s' := Apply(p, s, op).0;
    && OnlyAt(s, s', op.id)
    && (op.id in s'.users && s'.users[op.id].email != s.users[op.id].email ==>
          op.ChangeEmail? && s'.users[op.id].email == Normalized(op.email)
          && !Taken(s.users - {op.id}, Normalized(op.email)))
  }

  lemma ByAnAdminTouchesOne(p: Policy, s: Org, op: Op)
    requires op.Approve? || op.Reject? || op.SetRole? || op.SetStatus?
    requires op.id in s.users
    ensures TouchesOne(p, s, op)
  {
    hide AdminsOf, LastAdmin, Normalized, Strip, Taken, Unremovable, Allowed, InTenant;
  }

  lemma ChangeTouchesOne(p: Policy, s: Org, op: Op)
    requires ChangesOne(op) && op.id in s.users
    ensures TouchesOne(p, s, op)
  {
    hide AdminsOf, LastAdmin, Normalized, Strip, Taken, Unremovable;
    if op.Approve? || op.Reject? || op.SetRole? || op.SetStatus? {
      hide TouchesOne, Apply;
      ByAnAdminTouchesOne(p, s, op);
    }
  }

  lemma OneChangedStaysGood(s: Org, s': Org, id: Id)
    requires Good(s) && OnlyAt(s, s', id) && id in s.users
    requires id in s'.users ==>
               var e := s'.users[id].email;
               Normalized(e) == e && (e == s.users[id].email || !Taken(s.users - {id}, e))
    ensures Good(s')
  {
    hide Normalized;
    forall x | x in s'.users && x != id && id in s'.users ensures s'.users[x].email != s'.users[id].email {
      assert x in s.users - {id} && (s.users - {id})[x] == s.users[x];
    }
  }

  lemma OneChangedKeeps(p: Policy, s: Org, s': Org, id: Id)
    requires OnlyAt(s, s', id) && id in s.users
    requires var t := s.users[id].tenant;
             && (ActiveOwner(s.users, id) ==> ActiveOwner(s'.users, id) && s'.users[id].tenant == t)
             && (id in AdminsOf(p, s.users, t) ==> id in AdminsOf(p, s'.users, t) || !LastAdmin(p, s.users, t, id))
    ensures Keeps(p, s, s')
  {
    ChangingKeepsAdmins(p, s.users, s'.users, id);
    hide AdminsStay, AdminsOf, LastAdmin;
  }

  lemma ChangingKeeps(p: Policy, s: Org, op: Op)
    requires Good(s) && ChangesOne(op)
    ensures Good(Apply(p, s, op).0) && Keeps(p, s, Apply(p, s, op).0)
  {
    var s' := Apply(p, s, op).0;
    if op.id in s.users {
      assert Normalized(s.users[op.id].email) == s.users[op.id].email;
      if op.ChangeEmail? { NormalizedTwice(op.email); }
      ChangeTouchesOne(p, s, op);
      ChangeGuarded(p, s, op);
      hide *;
      OneChangedStaysGood(s, s', op.id);
      OneChangedKeeps(p, s, s', op.id);
    } else {
      assert s' == s;
      Unchanged(p, s);
    }
  }

  /** An active owner stays one, and an active admin that ceases to be one was not the last. */
  lemma ChangeGuarded(p: Policy, s: Org, op: Op)
    requires ChangesOne(op) && op.id in s.users
    ensures var s' := Apply(p, s, op).0; var t := s.users[op.id].tenant;
            && (ActiveOwner(s.users, op.id) ==> ActiveOwner(s'.users, op.id) && s'.users[op.id].tenant == t)
            && (op.id in AdminsOf(p, s.users, t) ==> op.id in AdminsOf(p, s'.users, t) || !LastAdmin(p, s.users, t, op.id))
  {
    hide Normalized, Strip, LastAdmin;
  }

  lemma RevokingKeeps(p: Policy, s: Org, tenant: string, token: Invitation)
    requires Good(s)
    ensures var s' := Apply(p, s, RevokeInvite(tenant, token)).0; Good(s') && Keeps(p, s, s')
  {
    hide Good, Keeps, Normalized;
    Unchanged(p, s);
    if token in s.invites {
      InviteEmailIsNormal(s, token);
      RecordingInviteKeeps(p, s, token, s.invites[token].(status := Revoked));
    }
  }

  lemma OpKeeps(p: Policy, s: Org, op: Op)
    requires Good(s) && Admissible(s, op)
    ensures Good(Apply(p, s, op).0) && Keeps(p, s, Apply(p, s, op).0)
  {
    match op
    case Register(id, email, password, name, org) =>
      hide Opened, Good, Keeps;
      OpeningKeeps(p, s, id, User(email, password, name, if p.slug(org) != "" then p.slug(org) else id,
                                  [OWNER_ROLE, p.adminRole], Active));
      Unchanged(p, s);
    case RequestAccess(id, email, password, name) =>
      hide Opened, Good, Keeps;
      OpeningKeeps(p, s, id, User(email, password, name, p.globalTenant, [], Pending));
      Unchanged(p, s);
    case Provision(_, _, _, _, _, _) => hide Apply, Good, Keeps; ProvisioningKeeps(p, s, op);
    case CreateInvite(tenant, token, email, role, ttl, now) =>
      hide Apply, Good, Keeps;
      InvitingKeeps(p, s, tenant, token, email, role, ttl, now);
    case RevokeInvite(tenant, token) =>
      hide Apply, Good, Keeps;
      RevokingKeeps(p, s, tenant, token);
    case AcceptInvite(token, id, password, name, now) =>
      hide Apply, Good, Keeps;
      AcceptingKeeps(p, s, token, id, password, name, now);
    case _ => hide Apply, Good, Keeps; ChangingKeeps(p, s, op);
  }

  lemma Unchanged(p: Policy, s: Org)
    ensures Keeps(p, s, s)
  {}

  // ---- Every run ----------------------------------------------------------------------------------

  ghost predicate Possible(p: Policy, s: Org, ops: seq<Op>)
    decreases |ops|
  {
    ops != [] ==> Admissible(s, ops[0]) && Possible(p, Apply(p, s, ops[0]).0, ops[1..])
  }

  ghost function Run(p: Policy, s: Org, ops: seq<Op>): Org
    decreases |ops|
  {
    if ops == [] then s else Run(p, Apply(p, s, ops[0]).0, ops[1..])
  }

  /** Over every sequence of operations addresses stay unique, an active owner stays one, a tenant with
      an active admin keeps one, and invitations keep their terms and never reopen. */
  lemma {:induction false} RunKeeps(p: Policy, s: Org, ops: seq<Op>)
    requires Good(s) && Possible(p, s, ops)
    ensures Good(Run(p, s, ops)) && Keeps(p, s, Run(p, s, ops))
    decreases |ops|
  {
    hide Good, Keeps, Apply, Admissible;
    if ops == [] {
      Unchanged(p, s);
    } else {
      var s' := Apply(p, s, ops[0]).0;
      OpKeeps(p, s, ops[0]);
      RunKeeps(p, s', ops[1..]);
      KeepsChains(p, s, s', Run(p, s, ops));
    }
  }

  /** Accepting an invitation opens one account, in its tenant, at its address and with its role. */
  lemma AcceptingOpensItsAccount(p: Policy, s: Org, op: Op)
    requires Good(s) && op.AcceptInvite? && Apply(p, s, op).1 == Done
    ensures var s' := Apply(p, s, op).0;
            && op.token in s.invites && s.invites[op.token].status == Open
            && s'.invites == s.invites[op.token := s.invites[op.token].(status := Accepted, acceptedBy := Some(op.id))]
    ensures var inv := s.invites[op.token];
            var users := Superseded(s.users, inv.tenant, inv.email);
            && op.id !in users
            && Apply(p, s, op).0.users ==
                 users[op.id := User(inv.email, op.password, op.name, inv.tenant, [inv.role], Active)]
  {
    hide Normalized, Superseded;
    var inv := s.invites[op.token];
    assert Normalized(inv.email) == inv.email;
  }

  /** Whatever happens between making an invitation and accepting it, the account opened is the one offered:
      at the address invited, in the tenant that invited, with the role named, active. */
  lemma InvitationIsHonoured(p: Policy, s: Org, invite: Op, between: seq<Op>, accept: Op)
    requires Good(s) && Admissible(s, invite) && invite.CreateInvite? && Apply(p, s, invite).1 == Done
    requires Possible(p, Apply(p, s, invite).0, between)
    requires accept.AcceptInvite? && accept.token == invite.token
    requires Apply(p, Run(p, Apply(p, s, invite).0, between), accept).1 == Done
    ensures var s' := Apply(p, Run(p, Apply(p, s, invite).0, between), accept).0;
            && accept.id in s'.users
            && s'.users[accept.id] == User(Normalized(invite.email), accept.password, accept.name, invite.tenant,
                                           [OrMember(invite.role)], Active)
  {
    hide Good, Possible, Run, OrMember, Normalized, Superseded, IsMember, Allowed;
    OpKeeps(p, s, invite);
    var s1 := Apply(p, s, invite).0;
    RunKeeps(p, s1, between);
    var s2 := Run(p, s1, between);
    assert InviteStays(s1.invites[invite.token], s2.invites[invite.token]);
    AcceptingOpensItsAccount(p, s2, accept);
  }

  /** And only once: whatever happens in between, the invitation opens no second account. */
  lemma AcceptedOnce(p: Policy, s: Org, op: Op, between: seq<Op>, again: Op)
    requires Good(s) && op.AcceptInvite? && Apply(p, s, op).1 == Done
    requires Possible(p, Apply(p, s, op).0, between)
    requires again.AcceptInvite? && again.token == op.token
    ensures Apply(p, Run(p, Apply(p, s, op).0, between), again) == (Run(p, Apply(p, s, op).0, between), Rejected)
  {
    hide Good, Run, Possible;
    AcceptingOpensItsAccount(p, s, op);
    OpKeeps(p, s, op);
    var s' := Apply(p, s, op).0;
    RunKeeps(p, s', between);
    assert InviteStays(s'.invites[op.token], Run(p, s', between).invites[op.token]);
  }

  /** Nor does one that was revoked. */
  lemma RevokedInviteIsDead(p: Policy, s: Org, op: Op, between: seq<Op>, again: Op)
    requires Good(s) && op.RevokeInvite? && Apply(p, s, op).1 == Done
    requires Possible(p, Apply(p, s, op).0, between)
    requires again.AcceptInvite? && again.token == op.token
    ensures Apply(p, Run(p, Apply(p, s, op).0, between), again) == (Run(p, Apply(p, s, op).0, between), Rejected)
  {
    hide Good, Run, Possible;
    OpKeeps(p, s, op);
    var s' := Apply(p, s, op).0;
    RunKeeps(p, s', between);
    assert InviteStays(s'.invites[op.token], Run(p, s', between).invites[op.token]);
  }
}