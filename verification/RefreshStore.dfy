/** Refresh tokens by hash (identity/store.py, `JsonFileRefreshTokenStore`). Each operation is one
    atomic step; writes drop what has expired. */
module RefreshStore {
  import opened Text

  type Hash = nat
  type User = nat

  datatype Token = Token(user: User, expires: int, revoked: bool, rotatedTo: Option<Hash>)

  type Tokens = map<Hash, Token>

  datatype Outcome = Swapped | Reuse | Invalid

  /** What `_write` keeps. */
  function Pruned(d: Tokens, now: int): Tokens {
    map h | h in d && d[h].expires > now :: d[h]
  }

  /** `create` and `update`: a whole-record write. */
  function Written(d: Tokens, h: Hash, t: Token, now: int): Tokens {
    Pruned(d[h := t], now)
  }

  /** The compare-and-swap. */
  function Rotated(d: Tokens, h: Hash, next: Hash, t: Token, now: int): (Tokens, Outcome) {
    if h !in d || d[h].expires <= now then (d, Invalid)
    else if d[h].revoked then (d, Reuse)
    else (Pruned(d[h := d[h].(revoked := true, rotatedTo := Some(next))][next := t], now), Swapped)
  }

  ghost predicate HasLive(d: Tokens, user: User) {
    exists h :: h in d && d[h].user == user && !d[h].revoked
  }

  function WithRevoked(d: Tokens, user: User): Tokens {
    map h | h in d :: if d[h].user == user then d[h].(revoked := true) else d[h]
  }

  /** Every live token of the user revoked; nothing is written when there is none. */
  ghost function RevokedAll(d: Tokens, user: User, now: int): Tokens {
    if HasLive(d, user) then Pruned(WithRevoked(d, user), now) else d
  }

  class RefreshTokenStore {
    var data: Tokens

    constructor ()
      ensures data == map[]
    {
      data := map[];
    }

    method Get(h: Hash) returns (t: Option<Token>)
      ensures t == if h in data then Some(data[h]) else None
    {
      t := if h in data then Some(data[h]) else None;
    }

    method Write(h: Hash, t: Token, now: int)
      modifies this
      ensures data == Written(old(data), h, t, now)
    {
      data := data[h := t];
      data := map x | x in data && data[x].expires > now :: data[x];
    }

    method Rotate(h: Hash, next: Hash, t: Token, now: int) returns (outcome: Outcome)
      modifies this
      ensures (data, outcome) == Rotated(old(data), h, next, t, now)
    {
      if h !in data || data[h].expires <= now { return Invalid; }
      if data[h].revoked { return Reuse; }
      data := data[h := data[h].(revoked := true, rotatedTo := Some(next))];
      data := data[next := t];
      data := map x | x in data && data[x].expires > now :: data[x];
      return Swapped;
    }

    /** The loop over all records. */
    method RevokeAllForUser(user: User, now: int)
      modifies this
      ensures data == RevokedAll(old(data), user, now)
    {
      var d, changed, todo := data, false, data.Keys;
      while todo != {}
        invariant todo <= data.Keys && d.Keys == data.Keys && data == old(data)
        invariant forall h :: h in data ==> d[h] == if h in todo then data[h] else WithRevoked(data, user)[h]
        invariant changed <==> exists h :: h in data && h !in todo && data[h].user == user && !data[h].revoked
        decreases todo
      {
        var h :| h in todo;
        if d[h].user == user && !d[h].revoked {
          d := d[h := d[h].(revoked := true)];
          changed := true;
        }
        todo := todo - {h};
      }
      assert d == WithRevoked(data, user);
      if changed { data := Pruned(d, now); }
    }
  }
}
