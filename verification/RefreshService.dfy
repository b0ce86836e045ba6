/** Refresh-token rotation with reuse detection, one service call at a time (identity/service.py).
    The scheme is that of section 4.14.2 of RFC 9700. */
module RefreshService {
  import opened Text
  import opened RefreshStore

  /** The tokens of each family in the order they were issued; the family is named by its first token. */
  type Chains = map<Hash, seq<Hash>>

  datatype Place = Place(family: Hash, index: nat)

  /** Where each hash ever issued sits. */
  type Places = map<Hash, Place>

  ghost predicate Placed(chains: Chains, places: Places, h: Hash) {
    h in places && places[h].family in chains && places[h].index < |chains[places[h].family]|
    && chains[places[h].family][places[h].index] == h
  }

  ghost predicate InOrder(chains: Chains, places: Places) {
    && (forall h :: h in places ==> Placed(chains, places, h))
    && (forall f :: f in chains ==> chains[f] != [] && chains[f][0] == f)
    && forall f, i :: f in chains && 0 <= i < |chains[f]| ==>
         chains[f][i] in places && places[chains[f][i]] == Place(f, i)
  }

  /** The token issued when h was rotated, if it was. */
  ghost function Successor(chains: Chains, places: Places, h: Hash): Option<Hash>
    requires Placed(chains, places, h)
  {
    var chain, i := chains[places[h].family], places[h].index;
    if i + 1 < |chain| then Some(chain[i + 1]) else None
  }

  /** A stored token says who succeeded it; if anyone did, it is revoked and the successor is stored,
      belongs to the same user and expires no sooner. */
  ghost predicate WellLinked(d: Tokens, chains: Chains, places: Places, h: Hash)
    requires h in d
  {
    && Placed(chains, places, h)
    && var next := Successor(chains, places, h);
       && d[h].rotatedTo == next
       && (next.Some? ==>
             d[h].revoked && next.value in d && d[next.value].user == d[h].user &&
             d[next.value].expires >= d[h].expires)
  }

  ghost predicate Consistent(d: Tokens, chains: Chains, places: Places, horizon: int) {
    && InOrder(chains, places)
    && forall h :: h in d ==> WellLinked(d, chains, places, h) && d[h].expires <= horizon
  }

  /** after is before with the tokens of `dead` revoked, and perhaps what has expired dropped. */
  ghost predicate Killed(before: Tokens, after: Tokens, dead: set<Hash>, now: int) {
    && (after.Keys == before.Keys || after.Keys == Pruned(before, now).Keys)
    && forall h :: h in after ==> after[h] == before[h].(revoked := before[h].revoked || h in dead)
  }

  lemma PruningKeepsLinks(d: Tokens, chains: Chains, places: Places, horizon: int, now: int)
    requires Consistent(d, chains, places, horizon)
    ensures Consistent(Pruned(d, now), chains, places, horizon)
  {
    forall h | h in Pruned(d, now) ensures WellLinked(Pruned(d, now), chains, places, h) {
      assert WellLinked(d, chains, places, h);
    }
  }

  /** Revoking tokens keeps the links; so does any revoked copy of a stored token. */
  lemma KillingKeepsLinks(d: Tokens, d': Tokens, dead: set<Hash>, chains: Chains, places: Places, horizon: int, now: int)
    requires Consistent(d, chains, places, horizon) && Killed(d, d', dead, now)
    ensures Consistent(d', chains, places, horizon)
  {
    forall h | h in d' ensures WellLinked(d', chains, places, h) && d'[h].expires <= horizon {
      assert WellLinked(d, chains, places, h);
    }
  }

  /** A fresh token starts a family. */
  lemma StartKeepsLinks(d: Tokens, chains: Chains, places: Places, h: Hash, t: Token, horizon: int)
    requires Consistent(d, chains, places, horizon) && h !in places && t.rotatedTo == None && t.expires <= horizon
    ensures Consistent(d[h := t], chains[h := [h]], places[h := Place(h, 0)], horizon)
  {
    var d', chains', places' := d[h := t], chains[h := [h]], places[h := Place(h, 0)];
    StartKeepsOrder(chains, places, h);
    hide InOrder, WellLinked;
    FamiliesArePlaced(d, chains, places, horizon);
    forall x | x in d' ensures WellLinked(d', chains', places', x) && d'[x].expires <= horizon {
      if x == h {
        StartLinks(d, chains, places, h, t);
      } else {
        assert WellLinked(d, chains, places, x);
        StartKeepsLinksOf(d, chains, places, h, t, x);
      }
    }
  }

  lemma FamiliesArePlaced(d: Tokens, chains: Chains, places: Places, horizon: int)
    requires Consistent(d, chains, places, horizon)
    ensures forall f :: f in chains ==> f in places
    ensures forall x :: x in d ==> x in places
  {
    forall f | f in chains ensures f in places { assert chains[f][0] in places; }
    forall x | x in d ensures x in places { assert WellLinked(d, chains, places, x); }
  }

  lemma StartKeepsOrder(chains: Chains, places: Places, h: Hash)
    requires InOrder(chains, places) && h !in places
    ensures InOrder(chains[h := [h]], places[h := Place(h, 0)])
  {
    forall f | f in chains ensures f in places { assert chains[f][0] in places; }
  }

  lemma StartLinks(d: Tokens, chains: Chains, places: Places, h: Hash, t: Token)
    requires t.rotatedTo == None
    ensures WellLinked(d[h := t], chains[h := [h]], places[h := Place(h, 0)], h)
  {}

  lemma StartKeepsLinksOf(d: Tokens, chains: Chains, places: Places, h: Hash, t: Token, x: Hash)
    requires x in d && x != h && h !in places && WellLinked(d, chains, places, x)
    requires (forall f :: f in chains ==> f in places) && forall y :: y in d ==> y in places
    ensures WellLinked(d[h := t], chains[h := [h]], places[h := Place(h, 0)], x)
  {
    assert places[x].family != h;
  }

  lemma AppendKeepsOrder(chains: Chains, places: Places, f: Hash, next: Hash)
    requires InOrder(chains, places) && f in chains && next !in places
    ensures InOrder(chains[f := chains[f] + [next]], places[next := Place(f, |chains[f]|)])
  {}

  ghost predicate Tip(chains: Chains, places: Places, h: Hash) {
    Placed(chains, places, h) && places[h].index == |chains[places[h].family]| - 1
  }

  lemma StoredIsPlaced(d: Tokens, chains: Chains, places: Places, horizon: int, h: Hash)
    requires Consistent(d, chains, places, horizon) && h in d
    ensures Placed(chains, places, h) && d[h].expires <= horizon
  {
    assert WellLinked(d, chains, places, h);
  }

  /** The other tokens keep their links when next is appended after the tip h. */
  lemma AppendKeepsLinksOf(d: Tokens, chains: Chains, places: Places, h: Hash, next: Hash, t: Token, x: Hash)
    requires h in d && Tip(chains, places, h) && next !in places && x in d && x != h && WellLinked(d, chains, places, x)
    requires forall y :: y in d ==> y in places
    ensures var f := places[h].family;
            WellLinked(d[h := d[h].(revoked := true, rotatedTo := Some(next))][next := t],
                       chains[f := chains[f] + [next]], places[next := Place(f, |chains[f]|)], x)
  {
    var f := places[h].family;
    var chains', places' := chains[f := chains[f] + [next]], places[next := Place(f, |chains[f]|)];
    assert places'[x] == places[x] && Placed(chains', places', x);
    assert Successor(chains', places', x) == Successor(chains, places, x);
  }

  /** The consumed token and the new one are the last two links. */
  lemma AppendLinksTheEnds(d: Tokens, chains: Chains, places: Places, h: Hash, next: Hash, t: Token)
    requires h in d && Tip(chains, places, h) && next !in places && t.rotatedTo == None
    requires t.user == d[h].user && d[h].expires <= t.expires
    ensures var f := places[h].family;
            var d' := d[h := d[h].(revoked := true, rotatedTo := Some(next))][next := t];
            var chains', places' := chains[f := chains[f] + [next]], places[next := Place(f, |chains[f]|)];
            WellLinked(d', chains', places', h) && WellLinked(d', chains', places', next)
  {
    assert h != next;
  }

  /** A rotation appends to the family of the token it consumes. */
  lemma RotationKeepsLinks(d: Tokens, chains: Chains, places: Places, h: Hash, next: Hash, t: Token, horizon: int)
    requires Consistent(d, chains, places, horizon)
    requires h in d && !d[h].revoked && next !in places
    requires t.user == d[h].user && t.rotatedTo == None && d[h].expires <= t.expires <= horizon
    ensures var f := places[h].family;
            var d' := d[h := d[h].(revoked := true, rotatedTo := Some(next))][next := t];
            && f in chains
            && Consistent(d', chains[f := chains[f] + [next]], places[next := Place(f, |chains[f]|)], horizon)
  {
    hide InOrder, WellLinked;
    OnlyTipsLive(d, chains, places, horizon, h);
    var f := places[h].family;
    var d' := d[h := d[h].(revoked := true, rotatedTo := Some(next))][next := t];
    var chains', places' := chains[f := chains[f] + [next]], places[next := Place(f, |chains[f]|)];
    AppendKeepsOrder(chains, places, f, next);
    forall y | y in d ensures y in places && d[y].expires <= horizon { StoredIsPlaced(d, chains, places, horizon, y); }
    AppendLinksTheEnds(d, chains, places, h, next, t);
    forall x | x in d' ensures WellLinked(d', chains', places', x) {
      if x in d && x != h && x != next {
        assert WellLinked(d, chains, places, x);
        AppendKeepsLinksOf(d, chains, places, h, next, t, x);
      }
    }
  }

  /** Only the last token of a family can be unrevoked. */
  lemma OnlyTipsLive(d: Tokens, chains: Chains, places: Places, horizon: int, x: Hash)
    requires Consistent(d, chains, places, horizon) && x in d && !d[x].revoked
    ensures Tip(chains, places, x)
  {
    assert WellLinked(d, chains, places, x);
  }

  ghost predicate FamilyDead(d: Tokens, chains: Chains, places: Places, h: Hash)
    requires Placed(chains, places, h)
  {
    forall x :: x in chains[places[h].family] && x in d ==> d[x].revoked
  }

  /** A family whose tip is stored and revoked, or gone, has no live token. */
  lemma DeadTipDeadFamily(d: Tokens, chains: Chains, places: Places, horizon: int, h: Hash)
    requires Consistent(d, chains, places, horizon) && Placed(chains, places, h)
    requires var chain := chains[places[h].family]; var tip := chain[|chain| - 1]; tip in d ==> d[tip].revoked
    ensures FamilyDead(d, chains, places, h)
  {
    var f := places[h].family;
    forall x | x in chains[f] && x in d ensures d[x].revoked {
      var i :| 0 <= i < |chains[f]| && chains[f][i] == x;
      if !d[x].revoked { OnlyTipsLive(d, chains, places, horizon, x); }
    }
  }

  /** `_revoke_chain`: follow `rotated_to` from cur, revoking what it meets, until the end, a token
      met before or a token no longer stored. */
  function Walked(d: Tokens, cur: Token, seen: set<Hash>, now: int): Tokens
    decreases d.Keys - seen
  {
    if cur.rotatedTo.None? || cur.rotatedTo.value in seen || cur.rotatedTo.value !in d then d
    else
      var next := cur.rotatedTo.value;
      var d' := if d[next].revoked then d else Written(d, next, d[next].(revoked := true), now);
      assert next in d.Keys - seen && next !in d'.Keys - (seen + {next});
      Walked(d', d[next].(revoked := true), seen + {next}, now)
  }

  /** What a stored token of a family says about the next one. */
  lemma NextInChain(d: Tokens, chains: Chains, places: Places, horizon: int, f: Hash, k: nat)
    requires Consistent(d, chains, places, horizon) && f in chains && k < |chains[f]| && chains[f][k] in d
    ensures var chain := chains[f];
            && chain[k] in places && places[chain[k]] == Place(f, k)
            && d[chain[k]].rotatedTo == (if k + 1 < |chain| then Some(chain[k + 1]) else None)
            && (k + 1 < |chain| ==>
                  && d[chain[k]].revoked && chain[k + 1] in d
                  && chain[k + 1] in places && places[chain[k + 1]] == Place(f, k + 1))
  {
    assert WellLinked(d, chains, places, chains[f][k]);
  }

  /** On linked tokens the walk comes to the family's tip and revokes just that. */
  lemma {:induction false} WalkRevokesTheTip(d: Tokens, chains: Chains, places: Places, horizon: int, now: int,
                                             f: Hash, k: nat, cur: Token, seen: set<Hash>)
    requires Consistent(d, chains, places, horizon) && f in chains && k < |chains[f]| && chains[f][k] in d
    requires cur == d[chains[f][k]].(revoked := cur.revoked)
    requires forall x :: x in seen ==> x in places && places[x].family == f && places[x].index <= k
    ensures var tip := chains[f][|chains[f]| - 1];
            Walked(d, cur, seen, now) ==
              if k + 1 < |chains[f]| && tip in d && !d[tip].revoked
              then Written(d, tip, d[tip].(revoked := true), now) else d
    decreases |chains[f]| - k
  {
    hide Consistent, Written;
    var chain := chains[f];
    NextInChain(d, chains, places, horizon, f, k);
    if k + 1 < |chain| {
      var next := chain[k + 1];
      NextInChain(d, chains, places, horizon, f, k + 1);
      if d[next].revoked {
        WalkRevokesTheTip(d, chains, places, horizon, now, f, k + 1, d[next], seen + {next});
      }
    }
  }

  /** A presented token: what is stored afterwards, and the user granted a new token `next` if any. */
  function Presented(d: Tokens, presented: Option<Hash>, active: set<User>, next: Hash, ttl: int, now: int)
    : (Tokens, Option<User>)
  {
    if presented.None? || presented.value !in d then (d, None)
    else
      var h := presented.value;
      var rec := d[h];
      if now > rec.expires then (d, None)
      else if rec.revoked then (Walked(d, rec, {h}, now), None)
      else if rec.user !in active then (Written(d, h, rec.(revoked := true), now), None)
      else
        var (d', outcome) := Rotated(d, h, next, Token(rec.user, now + ttl, false, None), now);
        (d', if outcome == Swapped then Some(rec.user) else None)
  }

  function LoggedOut(d: Tokens, presented: Option<Hash>, now: int): Tokens {
    if presented.None? || presented.value !in d || d[presented.value].revoked then d
    else Written(d, presented.value, d[presented.value].(revoked := true), now)
  }

  /** The refresh half of the service. A presented token is its hash, or none when it is empty;
      `next` is the hash of the token minted for the call. */
  class IdentityService {
    const refresh: RefreshTokenStore
    const ttl: int

    constructor (ttl: int)
      ensures fresh(refresh) && refresh.data == map[] && this.ttl == ttl
    {
      refresh := new RefreshTokenStore();
      this.ttl := ttl;
    }

    method IssueRefreshToken(user: User, next: Hash, now: int)
      modifies refresh
      ensures refresh.data == Written(old(refresh.data), next, Token(user, now + ttl, false, None), now)
    {
      refresh.Write(next, Token(user, now + ttl, false, None), now);
    }

    method RevokeChain(h: Hash, rec: Token, now: int)
      modifies refresh
      ensures refresh.data == Walked(old(refresh.data), rec, {h}, now)
    {
      var seen, cur := {h}, rec;
      while cur.rotatedTo.Some? && cur.rotatedTo.value !in seen
        invariant Walked(refresh.data, cur, seen, now) == Walked(old(refresh.data), rec, {h}, now)
        decreases refresh.data.Keys - seen
      {
        var next := cur.rotatedTo.value;
        seen := seen + {next};
        var nxt := refresh.Get(next);
        if nxt.None? { return; }
        ghost var before := refresh.data;
        if !nxt.value.revoked { refresh.Write(next, nxt.value.(revoked := true), now); }
        cur := nxt.value.(revoked := true);
        assert next in before.Keys && refresh.data.Keys - seen < before.Keys - (seen - {next});
      }
    }

    /** Another rotation took the token first. The record in hand is the one read before the swap; when
        it names no successor, as it does there, the walk visits nothing. */
    method LostRace(outcome: Outcome, h: Hash, rec: Token, now: int)
      modifies refresh
      ensures refresh.data == if outcome == Reuse then Walked(old(refresh.data), rec, {h}, now) else old(refresh.data)
      ensures rec.rotatedTo.None? ==> refresh.data == old(refresh.data)
    {
      if outcome == Reuse { RevokeChain(h, rec, now); }
    }

    method RotateRefreshToken(presented: Option<Hash>, active: set<User>, next: Hash, now: int)
      returns (granted: Option<User>)
      modifies refresh
      ensures (refresh.data, granted) == Presented(old(refresh.data), presented, active, next, ttl, now)
    {
      if presented.None? { return None; }
      var stored := refresh.Get(presented.value);
      if stored.None? || now > stored.value.expires { return None; }
      var rec := stored.value;
      if rec.revoked {
        if rec.rotatedTo.Some? { RevokeChain(presented.value, rec, now); }
        return None;
      }
      if rec.user !in active {
        refresh.Write(presented.value, rec.(revoked := true), now);
        return None;
      }
      var outcome := refresh.Rotate(presented.value, next, Token(rec.user, now + ttl, false, None), now);
      if outcome != Swapped {
        LostRace(outcome, presented.value, rec, now);
        return None;
      }
      return Some(rec.user);
    }

    method RevokeRefreshToken(presented: Option<Hash>, now: int)
      modifies refresh
      ensures refresh.data == LoggedOut(old(refresh.data), presented, now)
    {
      if presented.None? { return; }
      var stored := refresh.Get(presented.value);
      if stored.Some? && !stored.value.revoked {
        refresh.Write(presented.value, stored.value.(revoked := true), now);
      }
    }

    method RevokeAllRefresh(user: User, now: int)
      modifies refresh
      ensures refresh.data == RevokedAll(old(refresh.data), user, now)
    {
      refresh.RevokeAllForUser(user, now);
    }
  }

  datatype Op =
    | Issue(user: User, next: Hash)
    | Present(presented: Option<Hash>, active: set<User>, next: Hash)
    | Logout(presented: Option<Hash>)
    | RevokeAll(user: User)

  datatype Call = Call(op: Op, now: int)

  /** The stored tokens and the history of how they were issued. */
  datatype World = World(d: Tokens, chains: Chains, places: Places, clock: int)

  /** A call comes no earlier than the last one, and mints a hash never seen before. */
  ghost predicate Admissible(w: World, c: Call) {
    w.clock <= c.now && ((c.op.Issue? || c.op.Present?) ==> c.op.next !in w.places)
  }

  ghost function After(w: World, c: Call, ttl: int): World {
    match c.op
    case Issue(user, next) =>
      World(Written(w.d, next, Token(user, c.now + ttl, false, None), c.now),
            w.chains[next := [next]], w.places[next := Place(next, 0)], c.now)
    case Present(presented, active, next) =>
      var (d', granted) := Presented(w.d, presented, active, next, ttl, c.now);
      if granted.Some? && presented.value in w.places && w.places[presented.value].family in w.chains then
        var f := w.places[presented.value].family;
        World(d', w.chains[f := w.chains[f] + [next]], w.places[next := Place(f, |w.chains[f]|)], c.now)
      else World(d', w.chains, w.places, c.now)
    case Logout(presented) => World(LoggedOut(w.d, presented, c.now), w.chains, w.places, c.now)
    case RevokeAll(user) => World(RevokedAll(w.d, user, c.now), w.chains, w.places, c.now)
  }

  ghost predicate Good(w: World, ttl: int) {
    Consistent(w.d, w.chains, w.places, w.clock + ttl)
  }

  lemma HorizonMoves(d: Tokens, chains: Chains, places: Places, horizon: int, horizon': int)
    requires Consistent(d, chains, places, horizon) && horizon <= horizon'
    ensures Consistent(d, chains, places, horizon')
  {}

  lemma RevokingOneKeepsLinks(d: Tokens, h: Hash, chains: Chains, places: Places, horizon: int, now: int)
    requires Consistent(d, chains, places, horizon) && h in d
    ensures Consistent(Written(d, h, d[h].(revoked := true), now), chains, places, horizon)
  {
    KillingKeepsLinks(d, Written(d, h, d[h].(revoked := true), now), {h}, chains, places, horizon, now);
  }

  lemma PresentingKeepsLinks(w: World, c: Call, ttl: int)
    requires Good(w, ttl) && Admissible(w, c) && c.op.Present?
    ensures Good(After(w, c, ttl), ttl)
  {
    hide Consistent, Walked;
    var d, now := w.d, c.now;
    HorizonMoves(d, w.chains, w.places, w.clock + ttl, now + ttl);
    if c.op.presented.Some? && c.op.presented.value in d && now <= d[c.op.presented.value].expires {
      var h := c.op.presented.value;
      StoredIsPlaced(d, w.chains, w.places, w.clock + ttl, h);
      var f, k := w.places[h].family, w.places[h].index;
      if d[h].revoked {
        WalkRevokesTheTip(d, w.chains, w.places, now + ttl, now, f, k, d[h], {h});
        var tip := w.chains[f][|w.chains[f]| - 1];
        if tip in d { RevokingOneKeepsLinks(d, tip, w.chains, w.places, now + ttl, now); }
      } else if d[h].user !in c.op.active {
        RevokingOneKeepsLinks(d, h, w.chains, w.places, now + ttl, now);
      } else if now < d[h].expires {
        var t := Token(d[h].user, now + ttl, false, None);
        RotationKeepsLinks(d, w.chains, w.places, h, c.op.next, t, now + ttl);
        PruningKeepsLinks(d[h := d[h].(revoked := true, rotatedTo := Some(c.op.next))][c.op.next := t],
                          w.chains[f := w.chains[f] + [c.op.next]], w.places[c.op.next := Place(f, |w.chains[f]|)],
                          now + ttl, now);
      }
    }
  }

  /** Every service call keeps the links. */
  lemma CallKeepsLinks(w: World, c: Call, ttl: int)
    requires Good(w, ttl) && Admissible(w, c)
    ensures Good(After(w, c, ttl), ttl)
  {
    hide Consistent, Walked;
    var d, now := w.d, c.now;
    HorizonMoves(d, w.chains, w.places, w.clock + ttl, now + ttl);
    match c.op
    case Issue(user, next) =>
      var t := Token(user, now + ttl, false, None);
      StartKeepsLinks(d, w.chains, w.places, next, t, now + ttl);
      PruningKeepsLinks(d[next := t], w.chains[next := [next]], w.places[next := Place(next, 0)], now + ttl, now);
    case Present(_, _, _) =>
      PresentingKeepsLinks(w, c, ttl);
    case Logout(presented) =>
      if presented.Some? && presented.value in d {
        RevokingOneKeepsLinks(d, presented.value, w.chains, w.places, now + ttl, now);
      }
    case RevokeAll(user) =>
      if HasLive(d, user) {
        var dead := set h | h in d && d[h].user == user;
        KillingKeepsLinks(d, Pruned(WithRevoked(d, user), now), dead, w.chains, w.places, now + ttl, now);
      }
  }

  ghost predicate AdmissibleRun(w: World, calls: seq<Call>, ttl: int)
    decreases |calls|
  {
    calls != [] ==> Admissible(w, calls[0]) && AdmissibleRun(After(w, calls[0], ttl), calls[1..], ttl)
  }

  ghost function Run(w: World, calls: seq<Call>, ttl: int): World
    decreases |calls|
  {
    if calls == [] then w else Run(After(w, calls[0], ttl), calls[1..], ttl)
  }

  lemma {:induction false} RunKeepsLinks(w: World, calls: seq<Call>, ttl: int)
    requires Good(w, ttl) && AdmissibleRun(w, calls, ttl)
    ensures Good(Run(w, calls, ttl), ttl)
    decreases |calls|
  {
    hide Good, After;
    if calls != [] {
      CallKeepsLinks(w, calls[0], ttl);
      RunKeepsLinks(After(w, calls[0], ttl), calls[1..], ttl);
    }
  }

  /** Reuse kills the chain: after any run from an empty store, presenting a revoked token that was
      rotated, and has not expired, leaves no live token in its family. */
  lemma ReuseKillsTheFamily(calls: seq<Call>, ttl: int, start: int, c: Call)
    requires AdmissibleRun(World(map[], map[], map[], start), calls, ttl)
    requires var w := Run(World(map[], map[], map[], start), calls, ttl);
             && Admissible(w, c) && c.op.Present? && c.op.presented.Some?
             && var h := c.op.presented.value;
                h in w.d && w.d[h].revoked && w.d[h].rotatedTo.Some? && c.now <= w.d[h].expires
    ensures var w := Run(World(map[], map[], map[], start), calls, ttl);
            && Placed(w.chains, w.places, c.op.presented.value)
            && FamilyDead(After(w, c, ttl).d, w.chains, w.places, c.op.presented.value)
  {
    hide AdmissibleRun, Run, Walked;
    var w0 := World(map[], map[], map[], start);
    RunKeepsLinks(w0, calls, ttl);
    var w, h := Run(w0, calls, ttl), c.op.presented.value;
    ReuseRevokesTheTip(w, c, ttl);
  }

  lemma ReuseRevokesTheTip(w: World, c: Call, ttl: int)
    requires Good(w, ttl) && Admissible(w, c) && c.op.Present? && c.op.presented.Some?
    requires var h := c.op.presented.value;
             h in w.d && w.d[h].revoked && w.d[h].rotatedTo.Some? && c.now <= w.d[h].expires
    ensures Placed(w.chains, w.places, c.op.presented.value)
    ensures FamilyDead(After(w, c, ttl).d, w.chains, w.places, c.op.presented.value)
  {
    hide Walked, Consistent, FamilyDead;
    var h := c.op.presented.value;
    StoredIsPlaced(w.d, w.chains, w.places, w.clock + ttl, h);
    var f, k := w.places[h].family, w.places[h].index;
    assert k + 1 < |w.chains[f]| by { NextInChain(w.d, w.chains, w.places, w.clock + ttl, f, k); }
    WalkRevokesTheTip(w.d, w.chains, w.places, w.clock + ttl, c.now, f, k, w.d[h], {h});
    PresentingKeepsLinks(w, c, ttl);
    DeadTipDeadFamily(After(w, c, ttl).d, w.chains, w.places, c.now + ttl, h);
  }
}
