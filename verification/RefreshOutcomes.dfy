/** What each refresh call answers and leaves behind, token by token, and what calls in a row come to. */
module RefreshOutcomes {
  import opened Text
  import opened RefreshStore
  import opened RefreshService

  // ----- one call -----

  /** A presented token is granted exactly when it is stored, unrevoked and not expired, and its user is active. */
  lemma GrantedIff(d: Tokens, presented: Option<Hash>, active: set<User>, next: Hash, ttl: int, now: int)
    ensures var granted := Presented(d, presented, active, next, ttl, now).1;
            && (granted.Some? <==>
                  && presented.Some? && presented.value in d && !d[presented.value].revoked
                  && now < d[presented.value].expires && d[presented.value].user in active)
            && (granted.Some? ==> granted.value == d[presented.value].user)
  {
    hide Walked;
  }

  /** A grant revokes the token and names its successor, stores the new one for the same user for ttl seconds,
      drops what has expired, and leaves the rest. */
  lemma GrantLeaves(d: Tokens, h: Hash, active: set<User>, next: Hash, ttl: int, now: int, x: Hash)
    requires next !in d && Presented(d, Some(h), active, next, ttl, now).1.Some?
    ensures var d' := Presented(d, Some(h), active, next, ttl, now).0;
            && h in d && h != next
            && (x in d' <==> if x == next then ttl > 0 else x in d && now < d[x].expires)
            && (x in d' ==>
                  d'[x] == (if x == next then Token(d[h].user, now + ttl, false, None)
                            else if x == h then Token(d[h].user, d[h].expires, true, Some(next)) else d[x]))
  {
    hide Walked;
  }

  /** The token is at fault: reused after its rotation, or its user no longer active. */
  predicate Faulty(d: Tokens, h: Hash, active: set<User>, now: int) {
    h in d && now <= d[h].expires && (if d[h].revoked then d[h].rotatedTo.Some? else d[h].user !in active)
  }

  /** A refusal mints nothing and revives nothing; it writes only where the token is at fault, and then a live
      token of an inactive user is revoked, and no other. */
  lemma RefusalLeaves(d: Tokens, presented: Option<Hash>, active: set<User>, next: Hash, ttl: int, now: int)
    requires Presented(d, presented, active, next, ttl, now).1.None?
    ensures var d' := Presented(d, presented, active, next, ttl, now).0;
            && d'.Keys <= d.Keys
            && (forall x :: x in d' ==> d'[x] == d[x] || d'[x] == d[x].(revoked := true))
            && (presented.None? || !Faulty(d, presented.value, active, now) ==> d' == d)
            && (presented.Some? && Faulty(d, presented.value, active, now) && !d[presented.value].revoked ==>
                  forall x :: x in d ==>
                    if now < d[x].expires
                    then x in d' && d'[x] == d[x].(revoked := d[x].revoked || x == presented.value)
                    else x !in d')
  {
    if presented.Some? && presented.value in d && d[presented.value].revoked {
      WalkOnlyRevokes(d, d[presented.value], {presented.value}, now);
    }
  }

  lemma {:induction false} WalkOnlyRevokes(d: Tokens, cur: Token, seen: set<Hash>, now: int)
    ensures Walked(d, cur, seen, now).Keys <= d.Keys
    ensures forall x :: x in Walked(d, cur, seen, now) ==>
              Walked(d, cur, seen, now)[x] == d[x] || Walked(d, cur, seen, now)[x] == d[x].(revoked := true)
    decreases d.Keys - seen
  {
    if cur.rotatedTo.Some? && cur.rotatedTo.value !in seen && cur.rotatedTo.value in d {
      var next := cur.rotatedTo.value;
      var d' := if d[next].revoked then d else Written(d, next, d[next].(revoked := true), now);
      assert next in d.Keys - seen && next !in d'.Keys - (seen + {next});
      WalkOnlyRevokes(d', d[next].(revoked := true), seen + {next}, now);
    }
  }

  /** Logging out revokes the token and no other; revoking all revokes the user's tokens and no others. */
  lemma RevocationLeaves(d: Tokens, h: Hash, user: User, now: int, x: Hash)
    ensures var d' := LoggedOut(d, Some(h), now);
            && (x in d' ==> x in d && d'[x] == d[x].(revoked := d[x].revoked || x == h))
            && (x in d && now < d[x].expires ==> x in d')
    ensures var d' := RevokedAll(d, user, now);
            && (x in d' ==> x in d && d'[x] == d[x].(revoked := d[x].revoked || d[x].user == user))
            && (x in d && now < d[x].expires ==> x in d')
  {
    if x in d && d[x].user == user && !d[x].revoked { assert HasLive(d, user); }
  }

  // ----- dead is dead -----

  /** The token was issued once and can grant nothing. */
  ghost predicate Spent(w: World, h: Hash) {
    h in w.places && (h in w.d ==> w.d[h].revoked)
  }

  lemma PresentingKeepsSpent(d: Tokens, presented: Option<Hash>, active: set<User>, next: Hash, ttl: int, now: int,
                             h: Hash)
    requires h != next && (h in d ==> d[h].revoked)
    ensures var d' := Presented(d, presented, active, next, ttl, now).0; h in d' ==> d'[h].revoked
  {
    if Presented(d, presented, active, next, ttl, now).1.None? {
      RefusalLeaves(d, presented, active, next, ttl, now);
    } else {
      hide Walked;
    }
  }

  lemma SpentStaysSpent(w: World, c: Call, ttl: int, h: Hash)
    requires Admissible(w, c) && Spent(w, h)
    ensures Spent(After(w, c, ttl), h)
  {
    match c.op
    case Present(presented, active, next) =>
      PresentingKeepsSpent(w.d, presented, active, next, ttl, c.now, h);
      hide Presented, Walked;
    case Logout(presented) =>
    case RevokeAll(user) => RevocationLeaves(w.d, h, user, c.now, h);
    case Issue(_, _) =>
  }

  /** A spent token is granted nothing, whatever happens in between. */
  lemma {:induction false} SpentForGood(w: World, calls: seq<Call>, ttl: int, h: Hash, active: set<User>, next: Hash,
                                      now: int)
    requires AdmissibleRun(w, calls, ttl) && Spent(w, h)
    ensures Presented(Run(w, calls, ttl).d, Some(h), active, next, ttl, now).1 == None
    decreases |calls|
  {
    hide After, Walked;
    if calls == [] {
      GrantedIff(w.d, Some(h), active, next, ttl, now);
    } else {
      SpentStaysSpent(w, calls[0], ttl, h);
      SpentForGood(After(w, calls[0], ttl), calls[1..], ttl, h, active, next, now);
    }
  }

  /** After a logout the token is granted nothing more, and after a revoke-all none that was issued to the user is,
      whatever calls come in between. */
  lemma RevokedMeansRefused(w: World, c: Call, calls: seq<Call>, ttl: int, h: Hash, active: set<User>, next: Hash,
                            now: int)
    requires Good(w, ttl) && Admissible(w, c) && h in w.d
    requires c.op == Logout(Some(h)) || c.op == RevokeAll(w.d[h].user)
    requires AdmissibleRun(After(w, c, ttl), calls, ttl)
    ensures Presented(Run(After(w, c, ttl), calls, ttl).d, Some(h), active, next, ttl, now).1 == None
  {
    hide Run, AdmissibleRun, Presented, Consistent;
    StoredIsPlaced(w.d, w.chains, w.places, w.clock + ttl, h);
    RevocationLeaves(w.d, h, w.d[h].user, c.now, h);
    assert Spent(After(w, c, ttl), h);
    SpentForGood(After(w, c, ttl), calls, ttl, h, active, next, now);
  }

  // ----- a rotation, the old token again, the new token -----

  /** After a rotation the new token is good for its lifetime, unless the old one was presented again before it
      expired: then neither is good. The old one past its expiry raises no alarm. */
  lemma ReuseIsNoticedIff(d: Tokens, h: Hash, next: Hash, other: Hash, last: Hash, active: set<User>, ttl: int,
                          t1: int, t2: int, t3: int)
    requires next !in d && Presented(d, Some(h), active, next, ttl, t1).1.Some?
    requires t1 <= t2 <= t3 < t1 + ttl
    ensures var d1 := Presented(d, Some(h), active, next, ttl, t1).0;
            var (d2, again) := Presented(d1, Some(h), active, other, ttl, t2);
            && Presented(d1, Some(next), active, last, ttl, t3).1 == Some(d[h].user)
            && again == None
            && (Presented(d2, Some(next), active, last, ttl, t3).1.Some? <==> d[h].expires < t2)
  {
    GrantedIff(d, Some(h), active, next, ttl, t1);
    GrantLeaves(d, h, active, next, ttl, t1, h);
    GrantLeaves(d, h, active, next, ttl, t1, next);
    var d1 := Presented(d, Some(h), active, next, ttl, t1).0;
    GrantedIff(d1, Some(next), active, last, ttl, t3);
    GrantedIff(d1, Some(h), active, other, ttl, t2);
    var d2 := Presented(d1, Some(h), active, other, ttl, t2).0;
    if t2 <= d[h].expires {
      assert d2 == Walked(d1, d1[h], {h}, t2);
      OneStepWalk(d1, h, next, t2);
    }
    GrantedIff(d2, Some(next), active, last, ttl, t3);
  }

  lemma OneStepWalk(d: Tokens, h: Hash, next: Hash, now: int)
    requires h in d && next in d && h != next && d[h].rotatedTo == Some(next) && d[next].rotatedTo == None
    ensures var d' := Walked(d, d[h], {h}, now); next in d' ==> d'[next].revoked
  {
    var d' := if d[next].revoked then d else Written(d, next, d[next].(revoked := true), now);
    assert Walked(d, d[h], {h}, now) == Walked(d', d[next].(revoked := true), {h} + {next}, now);
  }
}
