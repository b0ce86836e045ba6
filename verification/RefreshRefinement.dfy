/** The two models of refresh tokens agree: a thread of the interleaved model that runs alone, with the
    clock still, does to the store what the service method does in one call. */
module RefreshRefinement {
  import opened Text
  import opened RefreshStore
  import opened RefreshInterleaving
  import Service = RefreshService

  /** Thread tid alone for up to n steps, or until it ends. */
  ghost function Alone(s: System, tid: Tid, active: bool, id: Hash, n: nat): System
    decreases n
  {
    if n == 0 || tid !in s.threads then s else Alone(Advanced(s, tid, active, id), tid, active, id, n - 1)
  }

  /** A chain revocation comes to an end, having done what the service's walk does. */
  lemma {:induction false} WalkAlone(s: System, tid: Tid, active: bool, id: Hash) returns (n: nat)
    requires tid in s.threads && s.threads[tid].Walking?
    ensures var s' := Alone(s, tid, active, id, n);
            && tid !in s'.threads && s'.log == s.log
            && s'.d == Service.Walked(s.d, s.threads[tid].cur, s.threads[tid].seen, s.now)
    decreases s.d.Keys - s.threads[tid].seen
  {
    var cur, seen := s.threads[tid].cur, s.threads[tid].seen;
    var s1 := Advanced(s, tid, active, id);
    if cur.rotatedTo.None? || cur.rotatedTo.value in seen || cur.rotatedTo.value !in s.d {
      n := 1;
      assert Alone(s, tid, active, id, 1) == s1;
    } else {
      var next := cur.rotatedTo.value;
      assert next in s.d.Keys - seen;
      if s.d[next].revoked {
        assert s.d[next].(revoked := true) == s.d[next];
        var m := WalkAlone(s1, tid, active, id);
        n := m + 1;
      } else {
        var s2 := Advanced(s1, tid, active, id);
        var m := WalkAlone(s2, tid, active, id);
        n := m + 2;
        assert Alone(s, tid, active, id, n) == Alone(s1, tid, active, id, m + 1);
      }
    }
  }

  /** From the record read on: the account check, then the swap or the update. */
  lemma CheckedAlone(s: System, tid: Tid, active: bool, id: Hash, users: set<User>)
    requires tid in s.threads && s.threads[tid].Checking?
    requires var pc := s.threads[tid];
             && pc.h in s.d && s.d[pc.h] == pc.rec && !pc.rec.revoked && s.now <= pc.rec.expires
             && (active <==> pc.rec.user in users)
    ensures var s' := Alone(s, tid, active, id, 2);
            var (d, granted) := Service.Presented(s.d, Some(s.threads[tid].h), users, id, s.ttl, s.now);
            && tid !in s'.threads && s'.d == d
            && s'.log == if granted.Some? then s.log + [Swap(s.threads[tid].h, id, granted.value)] else s.log
  {
    hide Pruned, Written;
    var s1 := Advanced(s, tid, active, id);
    var s2 := Advanced(s1, tid, active, id);
    assert Alone(s, tid, active, id, 2) == Alone(s1, tid, active, id, 1) == s2;
    hide Alone;
    if active {
      assert s1.threads[tid] == Swapping(s.threads[tid].h, s.threads[tid].rec, id,
                                         Token(s.threads[tid].rec.user, s.now + s.ttl, false, None));
    } else {
      assert s1.threads[tid] == Dropping(s.threads[tid].h, s.threads[tid].rec);
    }
  }

  /** The first read only decides where the thread goes on. */
  lemma FirstRead(s: System, tid: Tid, active: bool, id: Hash)
    requires tid in s.threads && s.threads[tid].Rotating?
    ensures var s1 := Advanced(s, tid, active, id);
            var h := s.threads[tid].h;
            && s1.d == s.d && s1.log == s.log && s1.now == s.now && s1.ttl == s.ttl
            && (tid in s1.threads <==> h in s.d && s.now <= s.d[h].expires && (s.d[h].revoked ==> s.d[h].rotatedTo.Some?))
            && (tid in s1.threads ==>
                  s1.threads[tid] == if s.d[h].revoked then Walking(s.d[h], {h}) else Checking(h, s.d[h]))
  {}

  /** A presented token, from the first read to the end of the call. */
  lemma RotationAlone(s: System, tid: Tid, active: bool, id: Hash, users: set<User>) returns (n: nat)
    requires tid in s.threads && s.threads[tid].Rotating?
    requires var h := s.threads[tid].h; h in s.d ==> (active <==> s.d[h].user in users)
    ensures var s' := Alone(s, tid, active, id, n);
            var (d, granted) := Service.Presented(s.d, Some(s.threads[tid].h), users, id, s.ttl, s.now);
            && tid !in s'.threads && s'.d == d
            && s'.log == if granted.Some? then s.log + [Swap(s.threads[tid].h, id, granted.value)] else s.log
  {
    hide Pruned, Written, Rotated, Advanced;
    var h := s.threads[tid].h;
    var s1 := Advanced(s, tid, active, id);
    FirstRead(s, tid, active, id);
    if tid in s1.threads && s1.threads[tid].Walking? {
      var m := WalkAlone(s1, tid, active, id);
      n := m + 1;
    } else if tid in s1.threads {
      CheckedAlone(s1, tid, active, id, users);
      n := 3;
      assert Alone(s, tid, active, id, 3) == Alone(s1, tid, active, id, 2);
    } else {
      n := 1;
      assert Alone(s, tid, active, id, 1) == s1;
    }
  }

  /** A logout. */
  lemma LogoutAlone(s: System, tid: Tid, active: bool, id: Hash) returns (n: nat)
    requires tid in s.threads && s.threads[tid].Leaving?
    ensures var s' := Alone(s, tid, active, id, n);
            && tid !in s'.threads && s'.log == s.log
            && s'.d == Service.LoggedOut(s.d, Some(s.threads[tid].h), s.now)
  {
    var s1 := Advanced(s, tid, active, id);
    if tid in s1.threads {
      n := 2;
      assert Alone(s, tid, active, id, 2) == Alone(s1, tid, active, id, 1) == Advanced(s1, tid, active, id);
    } else {
      n := 1;
      assert Alone(s, tid, active, id, 1) == s1;
    }
  }
}
