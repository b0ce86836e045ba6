/** Who may change what: roles come from an operation that names them, and an account changes only at its
    owner's own request, with the password, or at an admin's of its tenant. */
module OrgRights {
  import opened Text
  import opened Accounts
  import opened OrgSafety

  // ---- What an operation asks for -------------------------------------------------------------------

  predicate NamesRole(op: Op) {
    op.Provision? || op.CreateInvite? || op.Approve? || op.SetRole?
  }

  /** Where no role is given, member is meant; a role change takes the role as it is. */
  predicate AsksFor(p: Policy, op: Op, role: string) {
    && NamesRole(op)
    && (if op.role == "" && !op.SetRole? then role == "member" else role == op.role)
    && (role == p.adminRole || role == "member")
  }

  /** The operation opens account id. */
  predicate Opens(op: Op, id: Id) {
    (op.Register? || op.RequestAccess? || op.Provision? || op.AcceptInvite?) && op.id == id
  }

  /** The pending request of account id is at the address, in the tenant. */
  predicate PendingAt(s: Org, id: Id, tenant: string, email: string) {
    id in s.users && s.users[id].status == Pending && s.users[id].tenant == tenant && s.users[id].email == email
  }

  /** The operation supersedes that request: it provides for the address it was made from. */
  predicate Supersedes(s: Org, op: Op, id: Id) {
    match op
    case Provision(tenant, _, email, _, _, _) => PendingAt(s, id, tenant, Normalized(email))
    case CreateInvite(tenant, _, email, _, _, _) => PendingAt(s, id, tenant, Normalized(email))
    case AcceptInvite(token, _, _, _, _) =>
      token in s.invites && PendingAt(s, id, s.invites[token].tenant, s.invites[token].email)
    case _ => false
  }

  // ---- Roles ----------------------------------------------------------------------------------------

  ghost predicate Holds(s: Org, id: Id, role: string) {
    id in s.users && role in s.users[id].roles
  }

  /** The operation gives the account the role: it registers it as owner and admin, or it names the role, or it
      accepts an invitation that does. */
  ghost predicate Gives(p: Policy, s: Org, op: Op, id: Id, role: string) {
    || (op.Register? && op.id == id && (role == "owner" || role == p.adminRole))
    || (!op.CreateInvite? && AsksFor(p, op, role) && op.id == id)
    || (op.AcceptInvite? && op.id == id && op.token in s.invites && s.invites[op.token].role == role)
  }

  lemma RoleIsGiven(p: Policy, s: Org, op: Op, id: Id, role: string)
    requires Holds(Apply(p, s, op).0, id, role) && !Holds(s, id, role)
    ensures Gives(p, s, op, id, role) && Apply(p, s, op).1 == Done
  {
    hide AdminsOf, LastAdmin, Normalized, Strip, Taken, Unremovable, IsMember;
  }

  /** What an invitation offers is what it was made with. */
  lemma OfferIsNamed(p: Policy, s: Org, op: Op, token: Invitation, role: string)
    requires var s' := Apply(p, s, op).0; token in s'.invites && s'.invites[token].role == role
    ensures || (token in s.invites && s.invites[token].role == role)
            || (op.CreateInvite? && op.token == token && AsksFor(p, op, role))
  {
    hide AdminsOf, LastAdmin, Normalized, Strip, Taken, Unremovable, IsMember, Superseded;
  }

  /** The k-th operation gives account id the role, by name or through an invitation that stood at first or that
      an earlier operation made with that role. */
  ghost predicate GivenAt(p: Policy, s: Org, ops: seq<Op>, k: nat, id: Id, role: string)
    requires k < |ops|
  {
    || (ops[k].Register? && ops[k].id == id && (role == "owner" || role == p.adminRole))
    || (!ops[k].CreateInvite? && AsksFor(p, ops[k], role) && ops[k].id == id)
    || (ops[k].AcceptInvite? && ops[k].id == id && OfferedBefore(p, s, ops, k, ops[k].token, role))
  }

  ghost predicate OfferedBefore(p: Policy, s: Org, ops: seq<Op>, k: nat, token: Invitation, role: string)
    requires k < |ops|
  {
    || (token in s.invites && s.invites[token].role == role)
    || exists j :: 0 <= j < k && ops[j].CreateInvite? && ops[j].token == token && AsksFor(p, ops[j], role)
  }

  lemma GivenLater(p: Policy, s: Org, ops: seq<Op>, k: nat, id: Id, role: string)
    requires ops != [] && k < |ops[1..]| && GivenAt(p, Apply(p, s, ops[0]).0, ops[1..], k, id, role)
    ensures GivenAt(p, s, ops, k + 1, id, role)
  {
    hide Apply, AsksFor;
    var op := ops[1..][k];
    assert ops[k + 1] == op;
    if op.AcceptInvite? {
      var s1 := Apply(p, s, ops[0]).0;
      if op.token in s1.invites && s1.invites[op.token].role == role {
        OfferIsNamed(p, s, ops[0], op.token, role);
      } else if OfferedBefore(p, s1, ops[1..], k, op.token, role) {
        var j :| 0 <= j < k && ops[1..][j].CreateInvite? && ops[1..][j].token == op.token && AsksFor(p, ops[1..][j], role);
        assert ops[j + 1] == ops[1..][j];
      }
    }
  }

  /** Over every run a role somebody has come to hold was given to them by an operation that named it. */
  lemma {:induction false} RoleTracesBack(p: Policy, s: Org, ops: seq<Op>, id: Id, role: string)
    requires Holds(Run(p, s, ops), id, role) && !Holds(s, id, role)
    ensures exists k :: 0 <= k < |ops| && GivenAt(p, s, ops, k, id, role)
    decreases |ops|
  {
    hide Apply, AsksFor, OfferedBefore;
    var s1 := Apply(p, s, ops[0]).0;
    if Holds(s1, id, role) {
      RoleIsGiven(p, s, ops[0], id, role);
      assert ops[0].AcceptInvite? && ops[0].token in s.invites && s.invites[ops[0].token].role == role
             ==> OfferedBefore(p, s, ops, 0, ops[0].token, role) by { OfferedAtFirst(p, s, ops, 0, role); }
      assert GivenAt(p, s, ops, 0, id, role);
    } else {
      RoleTracesBack(p, s1, ops[1..], id, role);
      hide GivenAt, Holds;
      var k :| 0 <= k < |ops[1..]| && GivenAt(p, s1, ops[1..], k, id, role);
      GivenLater(p, s, ops, k, id, role);
    }
  }

  lemma OfferedAtFirst(p: Policy, s: Org, ops: seq<Op>, k: nat, role: string)
    requires k < |ops|
    ensures forall token :: token in s.invites && s.invites[token].role == role ==> OfferedBefore(p, s, ops, k, token, role)
  {}

  /** Nobody becomes an owner but by registering, where no standing invitation offers it and neither role that
      can be named is the owner's. */
  lemma OwnersRegister(p: Policy, s: Org, ops: seq<Op>, id: Id)
    requires p.adminRole != "owner" && forall t :: t in s.invites ==> s.invites[t].role != "owner"
    requires Holds(Run(p, s, ops), id, "owner") && !Holds(s, id, "owner")
    ensures exists k :: 0 <= k < |ops| && ops[k].Register? && ops[k].id == id
  {
    hide Run, Holds;
    RoleTracesBack(p, s, ops, id, "owner");
    var k :| 0 <= k < |ops| && GivenAt(p, s, ops, k, id, "owner");
  }

  // ---- What may change, and on whose word -----------------------------------------------------------

  /** The owner's own request, with the password that is current. */
  predicate Confirmed(s: Org, op: Op, id: Id)
    requires id in s.users
  {
    match op
    case ChangePassword(i, current, _) => i == id && current == s.users[id].password
    case ChangeEmail(i, _, password) => i == id && password == s.users[id].password
    case Deactivate(i, password) => i == id && password == s.users[id].password
    case DeleteAccount(i, password) => i == id && password == s.users[id].password
    case _ => false
  }

  /** An admin's request about an account of the tenant. */
  predicate ByAdmin(s: Org, op: Op, id: Id)
    requires id in s.users
  {
    (op.Approve? || op.Reject? || op.SetRole? || op.SetStatus?) && op.id == id && op.tenant == s.users[id].tenant
  }

  /** What may come of an account that is not superseded: u before, u' after. */
  predicate MayBecome(p: Policy, s: Org, op: Op, id: Id, u': User)
    requires id in s.users
  {
    var u := s.users[id];
    && u'.tenant == u.tenant
    && (u'.password != u.password ==>
          op.ChangePassword? && Confirmed(s, op, id) && u'.password == op.password && |op.password| >= 8)
    && (u'.email != u.email ==> op.ChangeEmail? && Confirmed(s, op, id) && u'.email == Normalized(op.email))
    && (u'.name != u.name ==> op.UpdateProfile? && op.id == id && u'.name == Strip(op.name))
    && (u'.roles != u.roles ==>
          (op.Approve? || op.SetRole?) && ByAdmin(s, op, id) && |u'.roles| == 1 && AsksFor(p, op, u'.roles[0]))
    && (u'.status != u.status ==>
          || (op.Deactivate? && Confirmed(s, op, id) && u'.status == Disabled)
          || (op.SetStatus? && ByAdmin(s, op, id) && u.status != Pending && u'.status == op.status != Pending)
          || (op.Approve? && ByAdmin(s, op, id) && u.status == Pending && u'.status == Active))
  }

  /** Where an account that was there is gone. */
  predicate MayLeave(s: Org, op: Op, id: Id)
    requires id in s.users
  {
    || (op.DeleteAccount? && Confirmed(s, op, id))
    || (op.Reject? && ByAdmin(s, op, id) && s.users[id].status == Pending)
    || Supersedes(s, op, id)
  }

  /** A new account. */
  predicate MayOpen(p: Policy, s: Org, op: Op, u: User) {
    match op
    case Register(id, email, password, name, org) =>
      p.multi && u == User(Normalized(email), password, name, if p.slug(org) == "" then id else p.slug(org),
                           ["owner", p.adminRole], Active)
    case RequestAccess(id, email, password, name) =>
      !p.multi && p.accessRequests && u == User(Normalized(email), password, name, p.globalTenant, [], Pending)
    case Provision(tenant, id, email, password, name, role) =>
      && u.email == Normalized(email) && u.password == password && u.name == name && u.tenant == tenant
      && u.status == Active && |u.roles| == 1 && AsksFor(p, op, u.roles[0])
    case AcceptInvite(token, id, password, name, now) =>
      && token in s.invites && s.invites[token].status == Open
      && (s.invites[token].expires != 0 ==> now <= s.invites[token].expires)
      && u == User(Normalized(s.invites[token].email), password, name, s.invites[token].tenant,
                   [s.invites[token].role], Active)
    case _ => false
  }

  /** What comes of account id. */
  predicate OnRequest(p: Policy, s: Org, op: Op, id: Id)
    requires id in s.users
  {
    var s' := Apply(p, s, op).0;
    if id !in s'.users then MayLeave(s, op, id)
    else (Supersedes(s, op, id) && Opens(op, id)) || MayBecome(p, s, op, id, s'.users[id])
  }

  lemma OnAnAdminsRequest(p: Policy, s: Org, op: Op, id: Id)
    requires id in s.users && (op.Approve? || op.Reject? || op.SetRole? || op.SetStatus?)
    ensures OnRequest(p, s, op, id)
  {
    hide AdminsOf, LastAdmin, Normalized, Strip, Taken, Unremovable, IsMember;
  }

  lemma OnTheOwnersRequest(p: Policy, s: Org, op: Op, id: Id)
    requires id in s.users
    requires op.UpdateProfile? || op.ChangePassword? || op.ChangeEmail? || op.Deactivate? || op.DeleteAccount?
    ensures OnRequest(p, s, op, id)
  {
    hide AdminsOf, LastAdmin, Normalized, Strip, Taken, Unremovable, IsMember;
  }

  lemma OnAnothersBehalf(p: Policy, s: Org, op: Op, id: Id)
    requires id in s.users && !ChangesOne(op)
    ensures OnRequest(p, s, op, id)
  {
    hide AdminsOf, LastAdmin, Normalized, Strip, Taken, Unremovable, IsMember;
  }

  /** An account is left as it is, but for what its owner or an admin of its tenant asked to change. */
  lemma AccountsChangeOnRequest(p: Policy, s: Org, op: Op, id: Id)
    requires id in s.users
    ensures var s' := Apply(p, s, op).0;
            if id !in s'.users then MayLeave(s, op, id)
            else (Supersedes(s, op, id) && Opens(op, id)) || MayBecome(p, s, op, id, s'.users[id])
  {
    hide Apply, MayLeave, Supersedes, Opens, MayBecome;
    if op.Approve? || op.Reject? || op.SetRole? || op.SetStatus? {
      OnAnAdminsRequest(p, s, op, id);
    } else if ChangesOne(op) {
      OnTheOwnersRequest(p, s, op, id);
    } else {
      OnAnothersBehalf(p, s, op, id);
    }
  }

  /** An account that was not there, or is opened in place of its own request, is the one asked for. */
  lemma AccountsOpenAsAsked(p: Policy, s: Org, op: Op, id: Id)
    requires var s' := Apply(p, s, op).0;
             id in s'.users && (id in s.users ==> Supersedes(s, op, id) && s'.users[id] != s.users[id])
    ensures var u := Apply(p, s, op).0.users[id];
            Opens(op, id) && MayOpen(p, s, op, u) && |u.password| >= 8 && p.emailOk(u.email)
            && forall x :: x in Apply(p, s, op).0.users && x != id ==> Apply(p, s, op).0.users[x].email != u.email
  {
    hide AdminsOf, LastAdmin, Normalized, Strip, Unremovable, IsMember;
  }

  /** An answer other than Done leaves the accounts and invitations, but for a request superseded. */
  lemma RefusalChangesNothing(p: Policy, s: Org, op: Op)
    requires Apply(p, s, op).1 != Done
    ensures var s' := Apply(p, s, op).0;
            && s'.invites == s.invites
            && (forall id :: id in s'.users ==> id in s.users && s'.users[id] == s.users[id])
            && (forall id :: id in s.users && id !in s'.users ==>
                  (op.Provision? || op.AcceptInvite?) && Supersedes(s, op, id))
  {
    hide AdminsOf, LastAdmin, Normalized, Strip, Taken, Unremovable, IsMember;
  }

  /** Invitations change only so: one is made, one is revoked in its tenant, or one is accepted. */
  lemma InvitesChangeOnRequest(p: Policy, s: Org, op: Op, token: Invitation)
    ensures var s' := Apply(p, s, op).0;
            && (token in s.invites ==> token in s'.invites)
            && (token in s'.invites && (token in s.invites ==> s'.invites[token] != s.invites[token]) ==>
                  match op
                  case CreateInvite(tenant, t, email, _, ttl, now) =>
                    var i := s'.invites[token];
                    && t == token && i.email == Normalized(email) != "" && i.tenant == tenant && AsksFor(p, op, i.role)
                    && i.expires == (if ttl == 0 then 0 else now + ttl) && i.status == Open && i.acceptedBy == None
                  case RevokeInvite(tenant, t) =>
                    && t == token && token in s.invites && s.invites[token].tenant == tenant
                    && s'.invites[token] == s.invites[token].(status := Revoked)
                  case AcceptInvite(t, id, _, _, _) =>
                    && t == token && token in s.invites && s.invites[token].status == Open
                    && s'.invites[token] == s.invites[token].(status := Accepted, acceptedBy := Some(id))
                  case _ => false)
  {
    hide AdminsOf, LastAdmin, Normalized, Strip, Taken, Unremovable, IsMember;
  }
}
