/** When each operation on accounts succeeds, what it has then brought about, and what operations in a row come to. */
module OrgOutcomes {
  import opened Text
  import opened Accounts
  import opened OrgSafety
  import opened OrgRights

  // ---- When an operation succeeds -------------------------------------------------------------------

  /** If the account is an active admin, its tenant has another. */
  ghost predicate Spared(p: Policy, s: Org, id: Id)
    requires id in s.users
  {
    p.adminRole in s.users[id].roles && s.users[id].status == Active ==>
      exists x :: x in s.users && x != id && s.users[x].tenant == s.users[id].tenant
                  && p.adminRole in s.users[x].roles && s.users[x].status == Active
  }

  /** Nobody but those superseded holds the address, the id is new, and address and password are acceptable. */
  predicate CanOpen(p: Policy, s: Org, op: Op, id: Id, email: string, password: string) {
    && p.emailOk(email) && |password| >= 8
    && forall x :: x in s.users && !Supersedes(s, op, x) ==> x != id && s.users[x].email != email
  }

  predicate Grantable(p: Policy, role: string) {
    role == "" || role == p.adminRole || role == "member"
  }

  ghost predicate Succeeds(p: Policy, s: Org, op: Op) {
    match op
    case Register(id, email, password, _, _) => p.multi && CanOpen(p, s, op, id, Normalized(email), password)
    case RequestAccess(_, email, password, _) =>
      !p.multi && p.accessRequests && p.emailOk(Normalized(email)) && |password| >= 8
    case Provision(_, id, email, password, _, role) =>
      Grantable(p, role) && CanOpen(p, s, op, id, Normalized(email), password)
    case CreateInvite(tenant, _, email, role, _, _) =>
      && Grantable(p, role) && Normalized(email) != ""
      && !exists x :: x in s.users && s.users[x].email == Normalized(email) && s.users[x].tenant == tenant
                      && s.users[x].status != Pending
    case RevokeInvite(tenant, token) => token in s.invites && s.invites[token].tenant == tenant
    case AcceptInvite(token, id, password, _, now) =>
      && token in s.invites && s.invites[token].status == Open
      && (s.invites[token].expires != 0 ==> now <= s.invites[token].expires)
      && CanOpen(p, s, op, id, s.invites[token].email, password)
    case UpdateProfile(id, _) => id in s.users
    case ChangePassword(id, _, password) => id in s.users && Confirmed(s, op, id) && |password| >= 8
    case ChangeEmail(id, email, _) =>
      && id in s.users && Confirmed(s, op, id) && p.emailOk(Normalized(email))
      && forall x :: x in s.users && x != id ==> s.users[x].email != Normalized(email)
    case Deactivate(id, _) =>
      id in s.users && Confirmed(s, op, id) && "owner" !in s.users[id].roles && Spared(p, s, id)
    case DeleteAccount(id, _) =>
      id in s.users && Confirmed(s, op, id) && "owner" !in s.users[id].roles && Spared(p, s, id)
    case Approve(_, id, role) =>
      Grantable(p, role) && id in s.users && ByAdmin(s, op, id) && s.users[id].status == Pending
    case Reject(_, id) => id in s.users && ByAdmin(s, op, id) && s.users[id].status == Pending
    case SetRole(_, id, role) =>
      && (role == p.adminRole || role == "member") && id in s.users && ByAdmin(s, op, id)
      && "owner" !in s.users[id].roles && (role == p.adminRole || Spared(p, s, id))
    case SetStatus(_, id, status) =>
      && status != Pending && id in s.users && ByAdmin(s, op, id) && s.users[id].status != Pending
      && (status == Disabled ==> "owner" !in s.users[id].roles && Spared(p, s, id))
  }

  lemma SparedIff(p: Policy, s: Org, id: Id)
    requires id in s.users
    ensures Spared(p, s, id) <==> !(p.adminRole in s.users[id].roles && LastAdmin(p, s.users, s.users[id].tenant, id))
  {
    var t := s.users[id].tenant;
    if id in AdminsOf(p, s.users, t) && !LastAdmin(p, s.users, t, id) {
      var other := AnotherAdmin(p, s.users, t, id);
      assert s.users[other].tenant == t;
    }
    if id in AdminsOf(p, s.users, t) && Spared(p, s, id) {
      var x :| x in s.users && x != id && s.users[x].tenant == t && p.adminRole in s.users[x].roles
               && s.users[x].status == Active;
      assert x in AdminsOf(p, s.users, t);
    }
  }

  lemma ChangeSucceedsIff(p: Policy, s: Org, op: Op)
    requires ChangesOne(op)
    ensures Apply(p, s, op).1 == Done <==> Succeeds(p, s, op)
  {
    hide LastAdmin, AdminsOf, Spared, Normalized, Strip;
    if op.id in s.users { SparedIff(p, s, op.id); }
    if op.ChangeEmail? { OthersHold(s, op.id, Normalized(op.email)); }
  }

  lemma OthersHold(s: Org, id: Id, email: string)
    ensures Taken(s.users - {id}, email) <==> exists x :: x in s.users && x != id && s.users[x].email == email
  {
    var others := s.users - {id};
    if x :| x in s.users && x != id && s.users[x].email == email {
      assert x in others && others[x].email == email;
    }
  }

  /** Opening an account, once the requests it supersedes are gone. */
  lemma OpenSucceedsIff(p: Policy, s: Org, op: Op, id: Id, u: User, tenant: string)
    requires forall x :: Supersedes(s, op, x) <==> PendingAt(s, x, tenant, Normalized(u.email))
    ensures var s' := s.(users := Superseded(s.users, tenant, Normalized(u.email)));
            Opened(p, s', id, u).1 == Done <==> CanOpen(p, s, op, id, Normalized(u.email), u.password)
  {
    hide Normalized, Supersedes;
    var e := Normalized(u.email);
    var users := Superseded(s.users, tenant, e);
    assert forall x :: x in users <==> x in s.users && !Supersedes(s, op, x);
    forall x | x in users && users[x].email == e ensures s.users[x].email == e {}
    if CanOpen(p, s, op, id, e, u.password) {
      assert !Taken(users, e);
    }
    if !Taken(users, e) {
      assert forall x :: x in users ==> users[x].email != e;
    }
  }

  lemma OpenPlainIff(p: Policy, s: Org, op: Op, id: Id, u: User)
    requires forall x :: !Supersedes(s, op, x)
    ensures Opened(p, s, id, u).1 == Done <==> CanOpen(p, s, op, id, Normalized(u.email), u.password)
  {
    hide Normalized, Supersedes;
  }

  lemma OpeningSucceedsIff(p: Policy, s: Org, op: Op)
    requires Good(s) && (op.Register? || op.RequestAccess? || op.Provision?)
    ensures Apply(p, s, op).1 == Done <==> Succeeds(p, s, op)
  {
    hide Normalized, CanOpen, Opened, Superseded, PendingAt, Good;
    match op
    case Register(id, email, password, name, org) =>
      OpenPlainIff(p, s, op, id, User(email, password, name, if p.slug(org) != "" then p.slug(org) else id,
                                      [OWNER_ROLE, p.adminRole], Active));
    case Provision(tenant, id, email, password, name, role) =>
      OpenSucceedsIff(p, s, op, id, User(email, password, name, tenant, [OrMember(role)], Active), tenant);
    case _ =>
  }

  lemma AcceptSucceedsIff(p: Policy, s: Org, op: Op)
    requires Good(s) && op.AcceptInvite?
    ensures Apply(p, s, op).1 == Done <==> Succeeds(p, s, op)
  {
    if Usable(s, op.token, op.now) {
      var inv := s.invites[op.token];
      InviteEmailIsNormal(s, op.token);
      hide Normalized, CanOpen, Superseded, PendingAt, Good;
      OpenSucceedsIff(p, s, op, op.id, User(inv.email, op.password, op.name, inv.tenant, [inv.role], Active), inv.tenant);
    }
  }

  lemma InvitingSucceedsIff(p: Policy, s: Org, op: Op)
    requires op.CreateInvite? || op.RevokeInvite?
    ensures Apply(p, s, op).1 == Done <==> Succeeds(p, s, op)
  {
    hide Normalized, Superseded;
  }

  /** An operation succeeds exactly under its condition. */
  lemma SucceedsIff(p: Policy, s: Org, op: Op)
    requires Good(s)
    ensures Apply(p, s, op).1 == Done <==> Succeeds(p, s, op)
  {
    hide Apply, Succeeds, Good;
    if ChangesOne(op) {
      ChangeSucceedsIff(p, s, op);
    } else if op.AcceptInvite? {
      AcceptSucceedsIff(p, s, op);
    } else if op.CreateInvite? || op.RevokeInvite? {
      InvitingSucceedsIff(p, s, op);
    } else {
      OpeningSucceedsIff(p, s, op);
    }
  }

  /** What it answers when it does not: forbidden where the deployment has no such operation, not found where
      account or invitation is not there for the caller, rejected otherwise. */
  lemma RefusalIs(p: Policy, s: Org, op: Op)
    requires Apply(p, s, op).1 != Done
    ensures var a := Apply(p, s, op).1;
            && (a == Forbidden <==> (op.Register? && !p.multi) || (op.RequestAccess? && (p.multi || !p.accessRequests)))
            && (a == NotFound <==>
                  match op
                  case RevokeInvite(_, _) => true
                  case Approve(_, id, role) => Grantable(p, role) && (id in s.users ==> !ByAdmin(s, op, id))
                  case Reject(_, id) => id in s.users ==> !ByAdmin(s, op, id)
                  case SetRole(_, id, role) =>
                    (role == p.adminRole || role == "member") && (id in s.users ==> !ByAdmin(s, op, id))
                  case SetStatus(_, id, status) => status != Pending && (id in s.users ==> !ByAdmin(s, op, id))
                  case UpdateProfile(_, _) => true
                  case ChangePassword(id, _, _) => id !in s.users
                  case ChangeEmail(id, _, _) => id !in s.users
                  case Deactivate(id, _) => id !in s.users
                  case DeleteAccount(id, _) => id !in s.users
                  case _ => false)
  {
    hide AdminsOf, LastAdmin, Normalized, Strip, Taken, Unremovable, IsMember, Superseded;
  }

  // ---- What a success has brought about -------------------------------------------------------------

  predicate Achieved(p: Policy, s: Org, op: Op, s': Org) {
    match op
    case CreateInvite(_, token, _, _, _, _) =>
      token in s'.invites && s'.invites[token].status == Open && forall id :: Supersedes(s, op, id) ==> id !in s'.users
    case RevokeInvite(_, token) => token in s'.invites && s'.invites[token].status == Revoked
    case AcceptInvite(token, id, _, _, _) =>
      && id in s'.users && token in s'.invites
      && s'.invites[token].status == Accepted && s'.invites[token].acceptedBy == Some(id)
      && forall x :: Supersedes(s, op, x) && x != id ==> x !in s'.users
    case Register(id, _, _, _, _) => id in s'.users
    case RequestAccess(id, email, _, _) =>
      if id in s.users || Taken(s.users, Normalized(email)) then s' == s else id in s'.users
    case Provision(_, id, _, _, _, _) =>
      id in s'.users && forall x :: Supersedes(s, op, x) && x != id ==> x !in s'.users
    case Approve(_, id, role) =>
      id in s'.users && s'.users[id].status == Active && |s'.users[id].roles| == 1 && AsksFor(p, op, s'.users[id].roles[0])
    case Reject(_, id) => id !in s'.users
    case SetRole(_, id, role) => id in s'.users && s'.users[id].roles == [role]
    case SetStatus(_, id, status) => id in s'.users && s'.users[id].status == status
    case UpdateProfile(id, name) => id in s'.users && s'.users[id].name == Strip(name)
    case ChangePassword(id, _, password) => id in s'.users && s'.users[id].password == password
    case ChangeEmail(id, email, _) => id in s'.users && s'.users[id].email == Normalized(email)
    case Deactivate(id, _) => id in s'.users && s'.users[id].status == Disabled
    case DeleteAccount(id, _) => id !in s'.users
  }

  /** A success has done what was asked. */
  lemma DoneIsDone(p: Policy, s: Org, op: Op)
    requires Apply(p, s, op).1 == Done
    ensures Achieved(p, s, op, Apply(p, s, op).0)
  {
    hide AdminsOf, LastAdmin, Normalized, Strip, Unremovable, IsMember;
  }

  // ---- Addresses -----------------------------------------------------------------------------------

  /** The same character, or the two cases of an ASCII letter. */
  predicate SameLetter(c: char, d: char) {
    || c == d
    || ('A' <= c <= 'Z' && 'a' <= d <= 'z' && d as int - c as int == 32)
    || ('a' <= c <= 'z' && 'A' <= d <= 'Z' && c as int - d as int == 32)
  }

  lemma SameLetterIff(c: char, d: char)
    ensures LowerChar(c) == LowerChar(d) <==> SameLetter(c, d)
  {}

  /** Two spellings are one address exactly when they differ in outer whitespace and ASCII case alone. */
  lemma SameAddressIff(a: string, b: string)
    ensures Normalized(a) == Normalized(b) <==>
            var x, y := Strip(a), Strip(b);
            |x| == |y| && forall i :: 0 <= i < |x| ==> SameLetter(x[i], y[i])
  {
    hide Strip, LowerChar, SameLetter;
    var x, y := Strip(a), Strip(b);
    if |x| == |y| {
      forall i | 0 <= i < |x| ensures Lower(x)[i] == Lower(y)[i] <==> SameLetter(x[i], y[i]) { SameLetterIff(x[i], y[i]); }
    }
  }

  // ---- Operations in a row --------------------------------------------------------------------------

  /** The run neither changes the account's password nor opens an account with its id. */
  predicate LeavesPassword(op: Op, id: Id) {
    !(op.ChangePassword? && op.id == id) && !Opens(op, id)
  }

  lemma {:induction false} PasswordStands(p: Policy, s: Org, ops: seq<Op>, id: Id, password: string)
    requires forall k :: 0 <= k < |ops| ==> LeavesPassword(ops[k], id)
    requires id in s.users ==> s.users[id].password == password
    ensures var s' := Run(p, s, ops); id in s'.users ==> s'.users[id].password == password
    decreases |ops|
  {
    hide Apply, MayOpen, MayLeave, Supersedes;
    if ops != [] {
      var s1 := Apply(p, s, ops[0]).0;
      assert LeavesPassword(ops[0], id);
      if id in s1.users {
        if id in s.users {
          AccountsChangeOnRequest(p, s, ops[0], id);
        } else {
          AccountsOpenAsAsked(p, s, ops[0], id);
        }
      }
      PasswordStands(p, s1, ops[1..], id, password);
    }
  }

  /** Once a change of password is done the new one is the one accepted, whatever else happens in between: a
      further change succeeds exactly with it, while the account is there. */
  lemma NewPasswordIsTheOne(p: Policy, s: Org, change: Op, between: seq<Op>, again: Op)
    requires change.ChangePassword? && Apply(p, s, change).1 == Done
    requires forall k :: 0 <= k < |between| ==> LeavesPassword(between[k], change.id)
    requires again.ChangePassword? && again.id == change.id
    ensures var s' := Run(p, Apply(p, s, change).0, between);
            Apply(p, s', again).1 == if change.id !in s'.users then NotFound
                                     else if again.current == change.password && |again.password| >= 8 then Done
                                     else Rejected
  {
    hide Run, LeavesPassword, Normalized, LastAdmin, Unremovable, Taken;
    DoneIsDone(p, s, change);
    PasswordStands(p, Apply(p, s, change).0, between, change.id, change.password);
  }

  /** A request for access that opened an account, then approved: the account is there as requested, active, with
      the role given. Rejected instead, everything is as before. */
  lemma RequestThenDecide(p: Policy, s: Org, request: Op, role: string)
    requires request.RequestAccess? && request.id !in s.users && !Taken(s.users, Normalized(request.email))
    requires Apply(p, s, request).1 == Done && Grantable(p, role)
    ensures var s1 := Apply(p, s, request).0;
            && Apply(p, s1, Approve(p.globalTenant, request.id, role)) ==
                 (s.(users := s.users[request.id :=
                    User(Normalized(request.email), request.password, request.name, p.globalTenant,
                         [if role == "" then "member" else role], Active)]), Done)
            && Apply(p, s1, Reject(p.globalTenant, request.id)) == (s, Done)
  {
    hide Normalized, Taken, LastAdmin, Unremovable;
    var s1 := Apply(p, s, request).0;
    var u := User(Normalized(request.email), request.password, request.name, p.globalTenant, [], Pending);
    assert s1.users == s.users[request.id := u];
    assert s1.users - {request.id} == s.users;
    var u' := u.(status := Active, roles := [if role == "" then "member" else role]);
    assert s1.users[request.id := u'] == s.users[request.id := u'];
  }

  /** An admin who lets a deactivated member back in restores what was there. */
  lemma DeactivateThenRestore(p: Policy, s: Org, id: Id, password: string)
    requires Apply(p, s, Deactivate(id, password)).1 == Done && s.users[id].status == Active
    ensures var s1 := Apply(p, s, Deactivate(id, password)).0;
            Apply(p, s1, SetStatus(s.users[id].tenant, id, Active)) == (s, Done)
  {
    hide LastAdmin, Unremovable, Normalized, Taken;
    var s1 := Apply(p, s, Deactivate(id, password)).0;
    assert s1.users[id := s.users[id]] == s.users;
  }

  /** Two spellings of one address are one address: after one account is opened with it, no other is. */
  lemma OneAccountPerAddress(p: Policy, s: Org, first: Op, second: Op)
    requires Good(s) && first.Register? && Apply(p, s, first).1 == Done
    requires second.Register? && Normalized(second.email) == Normalized(first.email)
    ensures Apply(p, Apply(p, s, first).0, second) == (Apply(p, s, first).0, Rejected)
  {
    hide Normalized, Good;
    var s1 := Apply(p, s, first).0;
    assert s1.users[first.id].email == Normalized(first.email);
  }

  /** An invitation made can be accepted exactly when it has not run out, the id is new, the password is long
      enough and the address acceptable and held by nobody: an account in another tenant, or none. */
  lemma InviteThenAcceptIff(p: Policy, s: Org, invite: Op, accept: Op)
    requires Good(s) && Admissible(s, invite) && invite.CreateInvite? && Apply(p, s, invite).1 == Done
    requires accept.AcceptInvite? && accept.token == invite.token
    ensures var s1, e := Apply(p, s, invite).0, Normalized(invite.email);
            Apply(p, s1, accept).1 == Done <==>
              && (invite.ttl != 0 ==> accept.now <= invite.now + invite.ttl || invite.now + invite.ttl == 0)
              && p.emailOk(e) && |accept.password| >= 8 && accept.id !in s1.users
              && forall x :: x in s.users && s.users[x].email == e ==>
                   s.users[x].tenant == invite.tenant && s.users[x].status == Pending
  {
    hide Good, Keeps, Normalized, Apply, Admissible;
    OpKeeps(p, s, invite);
    var s1 := Apply(p, s, invite).0;
    InviteLeaves(p, s, invite);
    SucceedsIff(p, s1, accept);
    assert forall x :: !Supersedes(s1, accept, x);
  }

  /** The offer, and everybody but those whose request it supersedes. */
  lemma InviteLeaves(p: Policy, s: Org, invite: Op)
    requires invite.CreateInvite? && Apply(p, s, invite).1 == Done
    ensures var s1, e := Apply(p, s, invite).0, Normalized(invite.email);
            && invite.token in s1.invites && s1.invites[invite.token].status == Open
            && s1.invites[invite.token].email == e && s1.invites[invite.token].tenant == invite.tenant
            && s1.invites[invite.token].expires == (if invite.ttl == 0 then 0 else invite.now + invite.ttl)
            && (forall x :: x in s1.users <==> x in s.users && !PendingAt(s, x, invite.tenant, e))
            && (forall x :: x in s1.users ==> s1.users[x] == s.users[x])
  {
    hide Normalized, IsMember, Allowed;
  }
}
