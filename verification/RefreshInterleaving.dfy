/** Rotations, logouts, logins, chain revocations and revoke-alls interleaved at store-call
    granularity (identity/service.py over identity/store.py). A service call is a thread whose local
    records go stale between its store calls. */
module RefreshInterleaving {
  import opened Text
  import opened RefreshStore

  type Tid = nat

  /** Where a service call stands, with what it holds. */
  datatype Pc =
    | Issuing(user: User)
    | Creating(id: Hash, rec: Token)
    | Rotating(h: Hash)
    | Checking(h: Hash, rec: Token)
    | Swapping(h: Hash, rec: Token, id: Hash, minted: Token)
    | Dropping(h: Hash, rec: Token)
    | Walking(cur: Token, seen: set<Hash>)
    | Killing(h: Hash, rec: Token, seen: set<Hash>)
    | Leaving(h: Hash)

  /** What the history records: family starts, rotations and revoke-alls. */
  datatype Event =
    | Created(id: Hash, user: User)
    | Swap(from: Hash, to: Hash, user: User)
    | Fenced(user: User)

  /** The family a token belongs to (named by the token it started with), its user, and when the family
      was created. */
  datatype Origin = Origin(root: Hash, user: User, born: nat)

  datatype System = System(
    d: Tokens, threads: map<Tid, Pc>, now: int, ttl: int,
    minted: map<Hash, Tid>, issued: map<Hash, Origin>, log: seq<Event>)

  /** One atomic step. In `Go`, `active` is the answer of the account check and `id` the hash of the
      token minted, when the thread's step needs them. */
  datatype Step =
    | Begin(tid: Tid, job: Pc, at: int)
    | Go(tid: Tid, active: bool, id: Hash, at: int)
    | RevokeAll(user: User, at: int)

  ghost predicate Enabled(s: System, step: Step) {
    && s.now <= step.at
    && match step
       case Begin(tid, job, _) => tid !in s.threads && (job.Issuing? || job.Rotating? || job.Leaving?)
       case Go(tid, _, id, _) => tid in s.threads && id !in s.minted
       case RevokeAll(_, _) => true
  }

  ghost function Ended(s: System, tid: Tid): System {
    s.(threads := s.threads - {tid})
  }

  ghost function At(s: System, tid: Tid, pc: Pc): System {
    s.(threads := s.threads[tid := pc])
  }

  /** The swap of `rotate`, and what the caller does with each verdict. */
  ghost function Contended(s: System, tid: Tid, h: Hash, rec: Token, id: Hash, t: Token): System {
    var (d', outcome) := Rotated(s.d, h, id, t, s.now);
    match outcome
    case Invalid => Ended(s, tid)
    case Reuse => At(s, tid, Walking(rec, {h}))
    case Swapped =>
      var origin := if h in s.issued then s.issued[h] else Origin(h, t.user, 0);
      Ended(s, tid).(d := d', issued := s.issued[id := origin.(user := t.user)], log := s.log + [Swap(h, id, t.user)])
  }

  /** The next step of thread tid, at time s.now. */
  ghost function Advanced(s: System, tid: Tid, active: bool, id: Hash): System
    requires tid in s.threads
  {
    match s.threads[tid]
    case Issuing(user) =>
      At(s, tid, Creating(id, Token(user, s.now + s.ttl, false, None))).(minted := s.minted[id := tid])
    case Creating(h, rec) =>
      Ended(s, tid).(d := Written(s.d, h, rec, s.now), issued := s.issued[h := Origin(h, rec.user, |s.log|)],
                     log := s.log + [Created(h, rec.user)])
    case Rotating(h) =>
      if h !in s.d || s.now > s.d[h].expires then Ended(s, tid)
      else if !s.d[h].revoked then At(s, tid, Checking(h, s.d[h]))
      else if s.d[h].rotatedTo.Some? then At(s, tid, Walking(s.d[h], {h}))
      else Ended(s, tid)
    case Checking(h, rec) =>
      if active then
        At(s, tid, Swapping(h, rec, id, Token(rec.user, s.now + s.ttl, false, None))).(minted := s.minted[id := tid])
      else At(s, tid, Dropping(h, rec))
    case Swapping(h, rec, next, t) => Contended(s, tid, h, rec, next, t)
    case Dropping(h, rec) => Ended(s, tid).(d := Written(s.d, h, rec.(revoked := true), s.now))
    case Walking(cur, seen) =>
      if cur.rotatedTo.None? || cur.rotatedTo.value in seen || cur.rotatedTo.value !in s.d then Ended(s, tid)
      else
        var next := cur.rotatedTo.value;
        if s.d[next].revoked then At(s, tid, Walking(s.d[next], seen + {next}))
        else At(s, tid, Killing(next, s.d[next], seen + {next}))
    case Killing(h, rec, seen) =>
      At(s, tid, Walking(rec.(revoked := true), seen)).(d := Written(s.d, h, rec.(revoked := true), s.now))
    case Leaving(h) =>
      if h in s.d && !s.d[h].revoked then At(s, tid, Dropping(h, s.d[h])) else Ended(s, tid)
  }

  ghost function After(s: System, step: Step): System
    requires Enabled(s, step)
  {
    match step
    case Begin(tid, job, at) => At(s, tid, job).(now := at)
    case Go(tid, active, id, at) => Advanced(s.(now := at), tid, active, id)
    case RevokeAll(user, at) => s.(d := RevokedAll(s.d, user, at), now := at, log := s.log + [Fenced(user)])
  }

  // ---- The invariant ------------------------------------------------------------------------------

  ghost predicate Live(d: Tokens, h: Hash) {
    h in d && !d[h].revoked
  }

  ghost predicate StoredOk(d: Tokens, issued: map<Hash, Origin>, h: Hash)
    requires h in d
  {
    && h in issued && d[h].user == issued[h].user
    && (!d[h].revoked ==> d[h].rotatedTo == None)
  }

  ghost predicate OriginOk(issued: map<Hash, Origin>, minted: map<Hash, Tid>, log: seq<Event>, h: Hash)
    requires h in issued
  {
    var o := issued[h];
    && h in minted && o.root in issued
    && o.born < |log| && log[o.born] == Created(o.root, o.user)
  }

  ghost predicate Holds(issued: map<Hash, Origin>, h: Hash, rec: Token) {
    h in issued && rec.user == issued[h].user
  }

  /** What a thread holds: stale records of issued tokens, and a minted one that is its own. */
  ghost predicate ThreadOk(issued: map<Hash, Origin>, minted: map<Hash, Tid>, tid: Tid, pc: Pc) {
    match pc
    case Creating(id, rec) => id in minted && minted[id] == tid && id !in issued && rec.rotatedTo == None
    case Checking(h, rec) => Holds(issued, h, rec) && rec.rotatedTo == None
    case Swapping(h, rec, id, t) =>
      && Holds(issued, h, rec) && rec.rotatedTo == None && t.user == rec.user && t.rotatedTo == None
      && id in minted && minted[id] == tid && id !in issued
    case Dropping(h, rec) => Holds(issued, h, rec)
    case Killing(h, rec, _) => Holds(issued, h, rec)
    case _ => true
  }

  ghost predicate SameFamily(issued: map<Hash, Origin>, g: Hash, h: Hash) {
    g in issued && h in issued && issued[g].root == issued[h].root
  }

  /** At most one unrevoked token in a family. */
  ghost predicate OneLive(d: Tokens, issued: map<Hash, Origin>) {
    forall g, h :: Live(d, g) && Live(d, h) && SameFamily(issued, g, h) ==> g == h
  }

  /** A family born at `born` came after every revoke-all of the user in the history. */
  ghost predicate Unfenced(log: seq<Event>, user: User, born: int) {
    forall i :: 0 <= i < |log| && log[i] == Fenced(user) ==> i < born
  }

  ghost predicate LiveUnfenced(d: Tokens, issued: map<Hash, Origin>, log: seq<Event>) {
    forall h :: Live(d, h) && h in issued ==> Unfenced(log, issued[h].user, issued[h].born)
  }

  /** A rotation in the history consumed its token for good, and its family postdates every earlier
      revoke-all of the user. */
  ghost predicate SwapOk(d: Tokens, issued: map<Hash, Origin>, log: seq<Event>, j: int)
    requires 0 <= j < |log| && log[j].Swap?
  {
    var e := log[j];
    && e.from in issued && e.to in issued && !Live(d, e.from)
    && issued[e.to].user == e.user && issued[e.to].root == issued[e.from].root
    && issued[e.to].born < j && Unfenced(log[..j], e.user, issued[e.to].born)
  }

  ghost predicate SwapsOk(d: Tokens, issued: map<Hash, Origin>, log: seq<Event>) {
    forall j :: 0 <= j < |log| && log[j].Swap? ==> SwapOk(d, issued, log, j)
  }

  /** No token is rotated twice, in all the history. */
  ghost predicate OneSuccessor(log: seq<Event>) {
    forall i, j :: 0 <= i < j < |log| && log[i].Swap? && log[j].Swap? ==> log[i].from != log[j].from
  }

  // ---- Steps that only revoke ---------------------------------------------------------------------

  /** d' holds only issued tokens, and only those unrevoked that were so before. */
  ghost predicate Revokes(d: Tokens, d': Tokens, issued: map<Hash, Origin>) {
    forall h :: h in d' ==> StoredOk(d', issued, h) && (!d'[h].revoked ==> Live(d, h))
  }

  lemma StaleUpdateRevokes(d: Tokens, issued: map<Hash, Origin>, h: Hash, rec: Token, now: int)
    requires forall x :: x in d ==> StoredOk(d, issued, x)
    requires Holds(issued, h, rec)
    ensures Revokes(d, Written(d, h, rec.(revoked := true), now), issued)
  {
    var d' := Written(d, h, rec.(revoked := true), now);
    forall x | x in d' ensures StoredOk(d', issued, x) && (!d'[x].revoked ==> Live(d, x)) {
      if x != h { assert StoredOk(d, issued, x); }
    }
  }

  lemma RevokeAllRevokes(d: Tokens, issued: map<Hash, Origin>, user: User, now: int)
    requires forall x :: x in d ==> StoredOk(d, issued, x)
    ensures var d' := RevokedAll(d, user, now); Revokes(d, d', issued) && forall h :: Live(d', h) ==> d'[h].user != user
  {
    var d' := RevokedAll(d, user, now);
    forall x | x in d' ensures StoredOk(d', issued, x) && (!d'[x].revoked ==> Live(d, x)) {
      assert StoredOk(d, issued, x);
    }
  }

  /** Revoking, with the history of issues as it was, keeps what is said of the tokens. */
  lemma RevokingKeeps(d: Tokens, d': Tokens, issued: map<Hash, Origin>, log: seq<Event>)
    requires Revokes(d, d', issued)
    requires OneLive(d, issued) && LiveUnfenced(d, issued, log) && SwapsOk(d, issued, log)
    ensures OneLive(d', issued) && LiveUnfenced(d', issued, log) && SwapsOk(d', issued, log)
  {
    forall j | 0 <= j < |log| && log[j].Swap? ensures SwapOk(d', issued, log, j) {
      assert SwapOk(d, issued, log, j);
    }
  }

  ghost predicate ThreadsOk(issued: map<Hash, Origin>, minted: map<Hash, Tid>, threads: map<Tid, Pc>) {
    forall t :: t in threads ==> ThreadOk(issued, minted, t, threads[t])
  }

  ghost predicate TokensOk(d: Tokens, issued: map<Hash, Origin>, minted: map<Hash, Tid>, log: seq<Event>) {
    && (forall h :: h in d ==> StoredOk(d, issued, h))
    && (forall h {:trigger OriginOk(issued, minted, log, h)} :: h in issued ==> OriginOk(issued, minted, log, h))
  }

  ghost predicate HistoryOk(d: Tokens, issued: map<Hash, Origin>, log: seq<Event>) {
    OneLive(d, issued) && LiveUnfenced(d, issued, log) && SwapsOk(d, issued, log) && OneSuccessor(log)
  }

  // ---- Steps that issue ---------------------------------------------------------------------------

  /** A token issued by thread tid is no other thread's minted token. */
  lemma IssuingKeepsThreads(issued: map<Hash, Origin>, minted: map<Hash, Tid>, threads: map<Tid, Pc>,
                            tid: Tid, id: Hash, o: Origin)
    requires ThreadsOk(issued, minted, threads) && id !in issued && id in minted && minted[id] == tid
    ensures ThreadsOk(issued[id := o], minted, threads - {tid})
  {
    forall t | t in threads - {tid} ensures ThreadOk(issued[id := o], minted, t, threads[t]) {
      assert ThreadOk(issued, minted, t, threads[t]);
    }
  }

  /** A thread's move, with perhaps a hash minted for it. */
  lemma MovingKeepsThreads(issued: map<Hash, Origin>, minted: map<Hash, Tid>, minted': map<Hash, Tid>,
                           threads: map<Tid, Pc>, tid: Tid, pc: Pc)
    requires ThreadsOk(issued, minted, threads) && ThreadOk(issued, minted', tid, pc)
    requires forall h :: h in minted ==> h in minted' && minted'[h] == minted[h]
    ensures ThreadsOk(issued, minted', threads[tid := pc])
  {
    var threads' := threads[tid := pc];
    forall t | t in threads' ensures ThreadOk(issued, minted', t, threads'[t]) {
      if t != tid { assert ThreadOk(issued, minted, t, threads[t]); }
    }
  }

  /** What one more event leaves of an earlier rotation. */
  lemma SwapStaysOk(d: Tokens, d': Tokens, issued: map<Hash, Origin>, issued': map<Hash, Origin>,
                    log: seq<Event>, e: Event, j: nat)
    requires j < |log| && log[j].Swap? && SwapOk(d, issued, log, j)
    requires forall x :: x in issued ==> x in issued' && issued'[x] == issued[x] && (Live(d', x) ==> Live(d, x))
    ensures SwapOk(d', issued', log + [e], j)
  {
    assert (log + [e])[j] == log[j] && (log + [e])[..j] == log[..j];
  }

  lemma SwapsStayOk(d: Tokens, d': Tokens, issued: map<Hash, Origin>, issued': map<Hash, Origin>,
                    log: seq<Event>, e: Event)
    requires SwapsOk(d, issued, log)
    requires forall x :: x in issued ==> x in issued' && issued'[x] == issued[x] && (Live(d', x) ==> Live(d, x))
    requires e.Swap? ==> SwapOk(d', issued', log + [e], |log|)
    ensures SwapsOk(d', issued', log + [e])
  {
    hide SwapOk, Live;
    var log' := log + [e];
    forall j | 0 <= j < |log'| && log'[j].Swap? ensures SwapOk(d', issued', log', j) {
      if j < |log| { SwapStaysOk(d, d', issued, issued', log, e, j); }
    }
  }

  lemma SuccessorsStayOne(log: seq<Event>, e: Event)
    requires OneSuccessor(log)
    requires e.Swap? ==> forall i :: 0 <= i < |log| && log[i].Swap? ==> log[i].from != e.from
    ensures OneSuccessor(log + [e])
  {
    var log' := log + [e];
    forall i, j | 0 <= i < j < |log'| && log'[i].Swap? && log'[j].Swap? ensures log'[i].from != log'[j].from {
      assert log'[i] == log[i];
      if j < |log| { assert log'[j] == log[j]; }
    }
  }

  lemma StaysUnfenced(log: seq<Event>, e: Event, user: User, born: nat)
    requires Unfenced(log, user, born) && e != Fenced(user)
    ensures Unfenced(log + [e], user, born)
  {}

  /** `create`: a family starts. */
  lemma CreatingKeepsTokens(d: Tokens, issued: map<Hash, Origin>, minted: map<Hash, Tid>, log: seq<Event>,
                            h: Hash, rec: Token, now: int)
    requires TokensOk(d, issued, minted, log) && h !in issued && h in minted && rec.rotatedTo == None
    ensures TokensOk(Written(d, h, rec, now), issued[h := Origin(h, rec.user, |log|)], minted, log + [Created(h, rec.user)])
  {
    var d', issued' := Written(d, h, rec, now), issued[h := Origin(h, rec.user, |log|)];
    var log' := log + [Created(h, rec.user)];
    forall x | x in d' ensures StoredOk(d', issued', x) {
      if x != h { assert StoredOk(d, issued, x); }
    }
    forall x | x in issued' ensures OriginOk(issued', minted, log', x) {
      if x != h { assert OriginOk(issued, minted, log, x); }
    }
  }

  lemma CreatingKeepsHistory(d: Tokens, issued: map<Hash, Origin>, minted: map<Hash, Tid>, log: seq<Event>,
                             h: Hash, rec: Token, now: int)
    requires TokensOk(d, issued, minted, log) && HistoryOk(d, issued, log) && h !in issued
    ensures HistoryOk(Written(d, h, rec, now), issued[h := Origin(h, rec.user, |log|)], log + [Created(h, rec.user)])
  {
    hide SwapsOk, OneSuccessor, Unfenced;
    var d', issued' := Written(d, h, rec, now), issued[h := Origin(h, rec.user, |log|)];
    var e := Created(h, rec.user);
    forall x | Live(d', x) && x != h ensures Live(d, x) && x in issued && issued[x].root != h {
      assert StoredOk(d, issued, x) && OriginOk(issued, minted, log, x);
    }
    SwapsStayOk(d, d', issued, issued', log, e);
    SuccessorsStayOne(log, e);
    forall x | Live(d', x) && x in issued' ensures Unfenced(log + [e], issued'[x].user, issued'[x].born) {
      if x == h { BornLast(log, e, rec.user); } else { StaysUnfenced(log, e, issued[x].user, issued[x].born); }
    }
  }

  lemma BornLast(log: seq<Event>, e: Event, user: User)
    requires e != Fenced(user)
    ensures Unfenced(log + [e], user, |log|)
  {}

  /** `rotate` swapping h for id: the family goes on. */
  lemma SwappingKeepsTokens(d: Tokens, issued: map<Hash, Origin>, minted: map<Hash, Tid>, log: seq<Event>,
                            h: Hash, id: Hash, t: Token, now: int)
    requires TokensOk(d, issued, minted, log) && h in issued && t.user == issued[h].user
    requires id !in issued && id in minted && t.rotatedTo == None && Rotated(d, h, id, t, now).1 == Swapped
    ensures TokensOk(Rotated(d, h, id, t, now).0, issued[id := issued[h]], minted, log + [Swap(h, id, t.user)])
  {
    var d', issued', log' := Rotated(d, h, id, t, now).0, issued[id := issued[h]], log + [Swap(h, id, t.user)];
    forall x | x in d' ensures StoredOk(d', issued', x) {
      if x != id { assert StoredOk(d, issued, x); }
    }
    forall x | x in issued' ensures OriginOk(issued', minted, log', x) {
      assert OriginOk(issued, minted, log, if x == id then h else x);
    }
  }

  lemma SwappingKeepsLive(d: Tokens, issued: map<Hash, Origin>, log: seq<Event>, h: Hash, id: Hash, t: Token, now: int)
    requires (forall x :: x in d ==> x in issued) && h in issued && id !in issued
    requires Rotated(d, h, id, t, now).1 == Swapped && t.user == issued[h].user
    requires OneLive(d, issued) && LiveUnfenced(d, issued, log)
    ensures OneLive(Rotated(d, h, id, t, now).0, issued[id := issued[h]])
    ensures LiveUnfenced(Rotated(d, h, id, t, now).0, issued[id := issued[h]], log + [Swap(h, id, t.user)])
    ensures forall x :: x in issued && Live(Rotated(d, h, id, t, now).0, x) ==> Live(d, x) && x != h
  {
    assert Live(d, h);
    var d', issued', log' := Rotated(d, h, id, t, now).0, issued[id := issued[h]], log + [Swap(h, id, t.user)];
    forall x | Live(d', x) && x != id ensures Live(d, x) && x != h {}
    forall x | Live(d', x) && x in issued' ensures Unfenced(log', issued'[x].user, issued'[x].born) {
      StaysUnfenced(log, Swap(h, id, t.user), issued'[x].user, issued'[x].born);
    }
  }

  lemma SwappingKeepsHistory(d: Tokens, issued: map<Hash, Origin>, minted: map<Hash, Tid>, log: seq<Event>,
                             h: Hash, id: Hash, t: Token, now: int)
    requires TokensOk(d, issued, minted, log) && HistoryOk(d, issued, log)
    requires h in issued && t.user == issued[h].user && id !in issued && Rotated(d, h, id, t, now).1 == Swapped
    ensures HistoryOk(Rotated(d, h, id, t, now).0, issued[id := issued[h]], log + [Swap(h, id, t.user)])
  {
    var d', issued', e := Rotated(d, h, id, t, now).0, issued[id := issued[h]], Swap(h, id, t.user);
    assert Live(d, h) && OriginOk(issued, minted, log, h);
    forall x | x in d ensures x in issued { assert StoredOk(d, issued, x); }
    SwappingKeepsLive(d, issued, log, h, id, t, now);
    assert SwapOk(d', issued', log + [e], |log|) by { assert (log + [e])[..|log|] == log; }
    forall i | 0 <= i < |log| && log[i].Swap? ensures log[i].from != h { assert SwapOk(d, issued, log, i); }
    hide Rotated, SwapOk, SwapsOk, OneLive, LiveUnfenced, OneSuccessor;
    SwapsStayOk(d, d', issued, issued', log, e);
    SuccessorsStayOne(log, e);
  }

  /** `revoke_all_for_user`: the fence goes up. */
  lemma FencingKeeps(d: Tokens, issued: map<Hash, Origin>, minted: map<Hash, Tid>, log: seq<Event>, user: User, now: int)
    requires TokensOk(d, issued, minted, log) && HistoryOk(d, issued, log)
    ensures TokensOk(RevokedAll(d, user, now), issued, minted, log + [Fenced(user)])
    ensures HistoryOk(RevokedAll(d, user, now), issued, log + [Fenced(user)])
  {
    var d', log' := RevokedAll(d, user, now), log + [Fenced(user)];
    RevokeAllRevokes(d, issued, user, now);
    hide RevokedAll;
    RevokingKeeps(d, d', issued, log);
    SwapsStayOk(d', d', issued, issued, log, Fenced(user));
    SuccessorsStayOne(log, Fenced(user));
    hide SwapsOk, OneSuccessor, OneLive;
    forall x | x in issued ensures OriginOk(issued, minted, log', x) { assert OriginOk(issued, minted, log, x); }
    forall h | Live(d', h) && h in issued ensures Unfenced(log', issued[h].user, issued[h].born) {
      assert StoredOk(d', issued, h);
      StaysUnfenced(log, Fenced(user), issued[h].user, issued[h].born);
    }
  }

  // ---- Every step keeps the invariant -------------------------------------------------------------

  ghost predicate Sound(s: System) {
    && TokensOk(s.d, s.issued, s.minted, s.log) && ThreadsOk(s.issued, s.minted, s.threads)
    && HistoryOk(s.d, s.issued, s.log)
  }

  /** A step that issues nothing. */
  lemma QuietStepSound(s: System, s': System)
    requires Sound(s) && s'.issued == s.issued && s'.log == s.log && Revokes(s.d, s'.d, s.issued)
    requires forall h :: h in s.minted ==> h in s'.minted
    requires ThreadsOk(s'.issued, s'.minted, s'.threads)
    ensures Sound(s')
  {
    RevokingKeeps(s.d, s'.d, s.issued, s.log);
    forall h | h in s.issued ensures OriginOk(s.issued, s'.minted, s.log, h) {
      assert OriginOk(s.issued, s.minted, s.log, h);
    }
  }

  lemma SameTokensRevoke(d: Tokens, issued: map<Hash, Origin>, minted: map<Hash, Tid>, log: seq<Event>)
    requires TokensOk(d, issued, minted, log)
    ensures Revokes(d, d, issued)
  {}

  /** Nothing issued is forgotten, nothing is revoked for a while only, and the history grows. */
  ghost predicate Onward(s: System, s': System) {
    && s.log <= s'.log
    && forall h :: h in s.issued ==> h in s'.issued && s'.issued[h] == s.issued[h] && (Live(s'.d, h) ==> Live(s.d, h))
  }

  lemma MintingKeepsThreads(issued: map<Hash, Origin>, minted: map<Hash, Tid>, minted': map<Hash, Tid>,
                            threads: map<Tid, Pc>, tid: Tid)
    requires ThreadsOk(issued, minted, threads)
    requires forall h :: h in minted ==> h in minted' && minted'[h] == minted[h]
    ensures ThreadsOk(issued, minted', threads - {tid})
  {
    forall t | t in threads - {tid} ensures ThreadOk(issued, minted', t, threads[t]) {
      assert ThreadOk(issued, minted, t, threads[t]);
    }
  }

  /** A thread's step that issues nothing: reads, stale updates and the minting of a hash. */
  lemma QuietGoRevokes(s: System, tid: Tid, active: bool, id: Hash)
    requires TokensOk(s.d, s.issued, s.minted, s.log) && ThreadsOk(s.issued, s.minted, s.threads)
    requires tid in s.threads && !s.threads[tid].Creating? && !s.threads[tid].Swapping?
    ensures var s' := Advanced(s, tid, active, id);
            s'.issued == s.issued && s'.log == s.log && Revokes(s.d, s'.d, s.issued)
  {
    var pc := s.threads[tid];
    assert ThreadOk(s.issued, s.minted, tid, pc);
    SameTokensRevoke(s.d, s.issued, s.minted, s.log);
    if pc.Dropping? || pc.Killing? { StaleUpdateRevokes(s.d, s.issued, pc.h, pc.rec, s.now); }
    hide TokensOk, Revokes, Written, ThreadsOk, ThreadOk;
  }

  lemma QuietGoHolds(s: System, tid: Tid, active: bool, id: Hash)
    requires forall h :: h in s.d ==> Holds(s.issued, h, s.d[h]) && (!s.d[h].revoked ==> s.d[h].rotatedTo == None)
    requires tid in s.threads && id !in s.issued && ThreadOk(s.issued, s.minted, tid, s.threads[tid])
    requires !s.threads[tid].Creating? && !s.threads[tid].Swapping? && id !in s.minted
    ensures var s' := Advanced(s, tid, active, id);
            && (s'.minted == s.minted || s'.minted == s.minted[id := tid])
            && if tid in s'.threads then
                 s'.threads == s.threads[tid := s'.threads[tid]] && ThreadOk(s.issued, s'.minted, tid, s'.threads[tid])
               else s'.threads == s.threads - {tid}
  {
    hide Written;
    match s.threads[tid]
    case Rotating(_) =>
    case Walking(_, _) =>
    case Checking(_, _) =>
    case _ =>
  }

  lemma QuietGoThreads(s: System, tid: Tid, active: bool, id: Hash)
    requires TokensOk(s.d, s.issued, s.minted, s.log) && ThreadsOk(s.issued, s.minted, s.threads)
    requires tid in s.threads && !s.threads[tid].Creating? && !s.threads[tid].Swapping? && id !in s.minted
    ensures var s' := Advanced(s, tid, active, id);
            (forall h :: h in s.minted ==> h in s'.minted) && ThreadsOk(s.issued, s'.minted, s'.threads)
  {
    var s' := Advanced(s, tid, active, id);
    assert ThreadOk(s.issued, s.minted, tid, s.threads[tid]);
    forall h | h in s.issued ensures h in s.minted { assert OriginOk(s.issued, s.minted, s.log, h); }
    forall h | h in s.d ensures Holds(s.issued, h, s.d[h]) && (!s.d[h].revoked ==> s.d[h].rotatedTo == None) {
      assert StoredOk(s.d, s.issued, h);
    }
    hide ThreadsOk, ThreadOk, Advanced, TokensOk;
    QuietGoHolds(s, tid, active, id);
    if tid in s'.threads {
      MovingKeepsThreads(s.issued, s.minted, s'.minted, s.threads, tid, s'.threads[tid]);
    } else {
      MintingKeepsThreads(s.issued, s.minted, s'.minted, s.threads, tid);
    }
  }

  lemma CreateSound(s: System, tid: Tid, active: bool, id: Hash)
    requires Sound(s) && tid in s.threads && s.threads[tid].Creating?
    ensures var s' := Advanced(s, tid, active, id); Sound(s') && Onward(s, s')
  {
    var h, rec := s.threads[tid].id, s.threads[tid].rec;
    assert ThreadOk(s.issued, s.minted, tid, s.threads[tid]);
    hide TokensOk, ThreadsOk, HistoryOk;
    CreatingKeepsTokens(s.d, s.issued, s.minted, s.log, h, rec, s.now);
    CreatingKeepsHistory(s.d, s.issued, s.minted, s.log, h, rec, s.now);
    IssuingKeepsThreads(s.issued, s.minted, s.threads, tid, h, Origin(h, rec.user, |s.log|));
  }

  lemma SwapSound(s: System, tid: Tid, active: bool, id: Hash)
    requires Sound(s) && tid in s.threads && s.threads[tid].Swapping?
    ensures var s' := Advanced(s, tid, active, id); Sound(s') && Onward(s, s')
  {
    var pc := s.threads[tid];
    var h, next, t := pc.h, pc.id, pc.minted;
    assert ThreadOk(s.issued, s.minted, tid, pc);
    var s' := Advanced(s, tid, active, id);
    if Rotated(s.d, h, next, t, s.now).1 == Swapped {
      SwappingKeepsTokens(s.d, s.issued, s.minted, s.log, h, next, t, s.now);
      SwappingKeepsHistory(s.d, s.issued, s.minted, s.log, h, next, t, s.now);
      IssuingKeepsThreads(s.issued, s.minted, s.threads, tid, next, s.issued[h]);
      hide TokensOk, ThreadsOk, HistoryOk;
      assert s'.issued == s.issued[next := s.issued[h]];
    } else {
      if tid in s'.threads { MovingKeepsThreads(s.issued, s.minted, s.minted, s.threads, tid, s'.threads[tid]); }
      hide TokensOk, HistoryOk;
    }
  }

  lemma StepSound(s: System, step: Step)
    requires Sound(s) && Enabled(s, step)
    ensures Sound(After(s, step)) && Onward(s, After(s, step))
  {
    match step
    case Begin(tid, job, at) =>
      MovingKeepsThreads(s.issued, s.minted, s.minted, s.threads, tid, job);
      hide TokensOk, ThreadsOk, HistoryOk;
    case Go(tid, active, id, at) =>
      var now := s.(now := at);
      if s.threads[tid].Creating? {
        hide TokensOk, ThreadsOk, HistoryOk;
        CreateSound(now, tid, active, id);
      } else if s.threads[tid].Swapping? {
        hide TokensOk, ThreadsOk, HistoryOk;
        SwapSound(now, tid, active, id);
      } else {
        QuietGoRevokes(now, tid, active, id);
        QuietGoThreads(now, tid, active, id);
        QuietStepSound(now, After(s, step));
        hide TokensOk, ThreadsOk, HistoryOk, Advanced;
      }
    case RevokeAll(user, at) =>
      FencingKeeps(s.d, s.issued, s.minted, s.log, user, at);
      RevokeAllRevokes(s.d, s.issued, user, at);
      hide TokensOk, ThreadsOk, HistoryOk, RevokedAll;
  }

  // ---- Every run ----------------------------------------------------------------------------------

  ghost function Start(now: int, ttl: int): System {
    System(map[], map[], now, ttl, map[], map[], [])
  }

  ghost predicate Possible(s: System, steps: seq<Step>)
    decreases |steps|
  {
    steps != [] ==> Enabled(s, steps[0]) && Possible(After(s, steps[0]), steps[1..])
  }

  ghost function Run(s: System, steps: seq<Step>): System
    requires Possible(s, steps)
    decreases |steps|
  {
    if steps == [] then s else Run(After(s, steps[0]), steps[1..])
  }

  lemma {:induction false} RunSound(s: System, steps: seq<Step>)
    requires Sound(s) && Possible(s, steps)
    ensures Sound(Run(s, steps)) && Onward(s, Run(s, steps))
    decreases |steps|
  {
    hide Sound, Enabled, After;
    if steps != [] {
      StepSound(s, steps[0]);
      RunSound(After(s, steps[0]), steps[1..]);
    }
  }

  /** In every state a family has at most one unrevoked token. */
  lemma OneLiveTokenPerFamily(now: int, ttl: int, steps: seq<Step>, g: Hash, h: Hash)
    requires Possible(Start(now, ttl), steps)
    requires var s := Run(Start(now, ttl), steps);
             g in s.d && h in s.d && !s.d[g].revoked && !s.d[h].revoked && SameFamily(s.issued, g, h)
    ensures g == h
  {
    RunSound(Start(now, ttl), steps);
    assert Live(Run(Start(now, ttl), steps).d, g);
  }

  /** A revoked token stays revoked, whatever stale record is written back later. */
  lemma RevokedForGood(now: int, ttl: int, steps: seq<Step>, later: seq<Step>, h: Hash)
    requires Possible(Start(now, ttl), steps) && Possible(Run(Start(now, ttl), steps), later)
    requires var s := Run(Start(now, ttl), steps); h in s.d && s.d[h].revoked
    ensures var s' := Run(Run(Start(now, ttl), steps), later); h in s'.d ==> s'.d[h].revoked
  {
    RunSound(Start(now, ttl), steps);
    var s := Run(Start(now, ttl), steps);
    assert StoredOk(s.d, s.issued, h);
    RunSound(s, later);
  }

  /** No token is rotated twice. */
  lemma RotatedOnce(now: int, ttl: int, steps: seq<Step>, i: nat, j: nat)
    requires Possible(Start(now, ttl), steps)
    requires var log := Run(Start(now, ttl), steps).log; i < j < |log| && log[i].Swap? && log[j].Swap?
    ensures var log := Run(Start(now, ttl), steps).log; log[i].from != log[j].from
  {
    RunSound(Start(now, ttl), steps);
  }

  /** Revoke-all is a fence: what a rotation inserts for the user afterwards descends from a token
      created after it. */
  lemma RevokeAllIsAFence(now: int, ttl: int, steps: seq<Step>, i: nat, j: nat) returns (k: nat)
    requires Possible(Start(now, ttl), steps)
    requires var log := Run(Start(now, ttl), steps).log;
             i < j < |log| && log[j].Swap? && log[i] == Fenced(log[j].user)
    ensures var s := Run(Start(now, ttl), steps);
            var e := s.log[j];
            && i < k < j && e.to in s.issued && e.from in s.issued
            && SameFamily(s.issued, e.from, e.to) && s.log[k] == Created(s.issued[e.to].root, e.user)
  {
    RunSound(Start(now, ttl), steps);
    var s := Run(Start(now, ttl), steps);
    var e := s.log[j];
    assert SwapOk(s.d, s.issued, s.log, j);
    assert OriginOk(s.issued, s.minted, s.log, e.to);
    k := s.issued[e.to].born;
    assert s.log[..j][i] == Fenced(e.user);
  }

  /** So while no token is created for the user after a revoke-all, none of theirs is live. */
  lemma FencedUserHasNothingLive(now: int, ttl: int, steps: seq<Step>, i: nat, h: Hash)
    requires Possible(Start(now, ttl), steps)
    requires var s := Run(Start(now, ttl), steps);
             && h in s.d && i < |s.log| && s.log[i] == Fenced(s.d[h].user)
             && forall k :: i < k < |s.log| && s.log[k].Created? ==> s.log[k].user != s.d[h].user
    ensures Run(Start(now, ttl), steps).d[h].revoked
  {
    RunSound(Start(now, ttl), steps);
    var s := Run(Start(now, ttl), steps);
    assert StoredOk(s.d, s.issued, h) && OriginOk(s.issued, s.minted, s.log, h);
    assert s.log[s.issued[h].born].Created?;
    assert Live(s.d, h) ==> Unfenced(s.log, s.issued[h].user, s.issued[h].born);
  }

  /** None of the steps is thread tid's. */
  ghost predicate Elsewhere(steps: seq<Step>, tid: Tid) {
    forall k :: 0 <= k < |steps| && steps[k].Go? ==> steps[k].tid != tid
  }

  lemma AdvanceElsewhere(s: System, other: Tid, active: bool, id: Hash, tid: Tid)
    requires other in s.threads && tid in s.threads && tid != other
    ensures var s' := Advanced(s, other, active, id); tid in s'.threads && s'.threads[tid] == s.threads[tid]
  {
    hide Written, Rotated;
    match s.threads[other]
    case Rotating(_) =>
    case Walking(_, _) =>
    case Swapping(_, _, _, _) =>
    case _ =>
  }

  lemma StepElsewhere(s: System, step: Step, tid: Tid)
    requires Enabled(s, step) && tid in s.threads && (step.Go? ==> step.tid != tid)
    ensures tid in After(s, step).threads && After(s, step).threads[tid] == s.threads[tid]
  {
    hide RevokedAll, Advanced;
    if step.Go? { AdvanceElsewhere(s.(now := step.at), step.tid, step.active, step.id, tid); }
  }

  /** A thread stands still while the others move. */
  lemma {:induction false} StandsStill(s: System, steps: seq<Step>, tid: Tid)
    requires Possible(s, steps) && tid in s.threads && Elsewhere(steps, tid)
    ensures var s' := Run(s, steps); tid in s'.threads && s'.threads[tid] == s.threads[tid]
    decreases |steps|
  {
    hide Enabled, After;
    if steps != [] {
      StepElsewhere(s, steps[0], tid);
      StandsStill(After(s, steps[0]), steps[1..], tid);
    }
  }

  /** A rotation that loses the race holds a record without a successor, so the chain revocation it then
      starts writes nothing: not when the race is lost, and not at its next step, whatever the other
      threads have done by then. */
  lemma LostRaceWritesNothing(now: int, ttl: int, steps: seq<Step>, tid: Tid, go: Step, between: seq<Step>, onward: Step)
    requires Possible(Start(now, ttl), steps)
    requires var s := Run(Start(now, ttl), steps);
             && tid in s.threads && s.threads[tid].Swapping?
             && go.Go? && go.tid == tid && Enabled(s, go)
             && Rotated(s.d, s.threads[tid].h, s.threads[tid].id, s.threads[tid].minted, go.at).1 == Reuse
             && Possible(After(s, go), between) && Elsewhere(between, tid)
             && onward.Go? && onward.tid == tid && Enabled(Run(After(s, go), between), onward)
    ensures var s := Run(Start(now, ttl), steps);
            var s1 := After(s, go);
            var s2 := Run(s1, between);
            var s3 := After(s2, onward);
            && s1.d == s.d && s1.log == s.log
            && s3.d == s2.d && s3.log == s2.log && s3.threads == s2.threads - {tid}
  {
    hide Possible, Elsewhere, Run, Sound, Rotated;
    var s := Run(Start(now, ttl), steps);
    StartSound(now, ttl);
    RunSound(Start(now, ttl), steps);
    HeldWithoutSuccessor(s, tid);
    StandsStill(After(s, go), between, tid);
  }

  lemma StartSound(now: int, ttl: int)
    ensures Sound(Start(now, ttl))
  {}

  lemma HeldWithoutSuccessor(s: System, tid: Tid)
    requires Sound(s) && tid in s.threads && s.threads[tid].Swapping?
    ensures s.threads[tid].rec.rotatedTo == None
  {
    assert ThreadOk(s.issued, s.minted, tid, s.threads[tid]);
  }
}
