/** Refresh-token sessions: one table, every transaction one atomic step. */
module Sessions {
  import opened Common

  type Time = int

  /** Row ids are insertion positions (the database hands out fresh ids), a token stands for its hash,
      and the unique index on the hash makes an insertion fail. */
  datatype Row = Row(user: nat, token: nat, expires: Time, revoked: Option<Time>, replacedBy: Option<nat>)

  type Table = seq<Row>

  datatype Reply =
    | Created(id: nat)
    | Rotated(id: nat)
    | RevokedRows(count: nat)
    | NotFound
    | AlreadyRevoked
    | Expired
    | ReuseDetected
    | DuplicateToken

  // ----- the transactions -----

  function Find(t: Table, token: nat): (r: Option<nat>)
    ensures r.Some? ==> r.value < |t| && t[r.value].token == token
    ensures r.None? ==> forall i :: 0 <= i < |t| ==> t[i].token != token
  {
    if t == [] then None
    else if t[|t| - 1].token == token then Some(|t| - 1)
    else Find(t[..|t| - 1], token)
  }

  /** UPDATE ... SET revoked_at WHERE user_id = u AND revoked_at IS NULL. */
  function RevokeUser(t: Table, u: nat, now: Time): (t': Table)
    ensures |t'| == |t|
    ensures forall i :: 0 <= i < |t| ==>
              t'[i] == if t[i].user == u && t[i].revoked.None? then t[i].(revoked := Some(now)) else t[i]
  {
    seq(|t|, i requires 0 <= i < |t| =>
      if t[i].user == u && t[i].revoked.None? then t[i].(revoked := Some(now)) else t[i])
  }

  function Live(t: Table, u: nat): nat {
    if t == [] then 0
    else Live(t[..|t| - 1], u) + if t[|t| - 1].user == u && t[|t| - 1].revoked.None? then 1 else 0
  }

  function Create(t: Table, u: nat, token: nat, expires: Time): (Reply, Table) {
    if Find(t, token).Some? then (DuplicateToken, t)
    else (Created(|t|), t + [Row(u, token, expires, None, None)])
  }

  /** The new row goes in first; then the old row is revoked and points at it. */
  function Supersede(t: Table, i: nat, row: Row, now: Time): (t': Table)
    requires i < |t|
    ensures |t'| == |t| + 1 && t'[|t|] == row
    ensures t'[i] == t[i].(revoked := Some(now), replacedBy := Some(|t|))
    ensures forall k :: 0 <= k < |t| && k != i ==> t'[k] == t[k]
  {
    (t + [row])[i := t[i].(revoked := Some(now), replacedBy := Some(|t|))]
  }

  function Rotate(t: Table, u: nat, old_: nat, new_: nat, expires: Time, now: Time): (Reply, Table) {
    match Find(t, old_)
    case None => (NotFound, t)
    case Some(i) =>
      if t[i].user != u then (NotFound, t)
      else if t[i].revoked.Some? then
        if t[i].replacedBy.Some? then (ReuseDetected, RevokeUser(t, u, now)) else (AlreadyRevoked, t)
      else if now > t[i].expires then (Expired, t)
      else if Find(t, new_).Some? then (DuplicateToken, t)  // the insert fails and the transaction rolls back
      else
        (Rotated(|t|), Supersede(t, i, Row(u, new_, expires, None, None), now))
  }

  function RevokeToken(t: Table, token: nat, now: Time): (Reply, Table) {
    match Find(t, token)
    case None => (NotFound, t)
    case Some(i) =>
      if t[i].revoked.Some? then (NotFound, t)
      else (RevokedRows(1), t[i := t[i].(revoked := Some(now))])
  }

  datatype Op =
    | Login(user: nat, token: nat, expires: Time)
    | Refresh(user: nat, old_: nat, new_: nat, expires: Time, now: Time)
    | Logout(token: nat, now: Time)
    | PasswordChange(user: nat, hash: nat, now: Time)
    | RevokeAll(user: nat, now: Time)

  /** The two tables a transaction can touch. */
  datatype Db = Db(rows: Table, passwords: map<nat, nat>)

  function Exec(db: Db, op: Op): (Reply, Db) {
    match op
    case Login(u, token, exp) =>
      var (r, t) := Create(db.rows, u, token, exp);
      (r, db.(rows := t))
    case Refresh(u, a, b, exp, now) =>
      var (r, t) := Rotate(db.rows, u, a, b, exp, now);
      (r, db.(rows := t))
    case Logout(token, now) =>
      var (r, t) := RevokeToken(db.rows, token, now);
      (r, db.(rows := t))
    case PasswordChange(u, hash, now) =>
      (RevokedRows(Live(db.rows, u)),
       Db(RevokeUser(db.rows, u, now), if u in db.passwords then db.passwords[u := hash] else db.passwords))
    case RevokeAll(u, now) =>
      (RevokedRows(Live(db.rows, u)), db.(rows := RevokeUser(db.rows, u, now)))
  }

  /** The store the handlers share. */
  class SessionStore {
    var rows: Table
    var passwords: map<nat, nat>

    constructor (passwords: map<nat, nat>)
      ensures Contents() == Db([], passwords)
    {
      this.rows, this.passwords := [], passwords;
    }

    function Contents(): Db
      reads this
    {
      Db(rows, passwords)
    }

    method CreateSession(u: nat, token: nat, expires: Time) returns (r: Reply)
      modifies this`rows
      ensures (r, Contents()) == Exec(old(Contents()), Login(u, token, expires))
    {
      var existing := Find(rows, token);
      if existing.Some? {
        return DuplicateToken;
      }
      r := Created(|rows|);
      rows := rows + [Row(u, token, expires, None, None)];
    }

    method RotateSession(u: nat, old_: nat, new_: nat, expires: Time, now: Time) returns (r: Reply)
      modifies this`rows
      ensures (r, Contents()) == Exec(old(Contents()), Refresh(u, old_, new_, expires, now))
    {
      var found := Find(rows, old_);
      if found.None? {
        return NotFound;
      }
      var i := found.value;
      var row := rows[i];
      if row.user != u {
        return NotFound;
      }
      if row.revoked.Some? {
        if row.replacedBy.Some? {
          rows := RevokeUser(rows, u, now);
          return ReuseDetected;
        }
        return AlreadyRevoked;
      }
      if now > row.expires {
        return Expired;
      }
      var clash := Find(rows, new_);
      if clash.Some? {
        return DuplicateToken;
      }
      var id := |rows|;
      rows := rows + [Row(u, new_, expires, None, None)];
      rows := rows[i := row.(revoked := Some(now), replacedBy := Some(id))];
      return Rotated(id);
    }

    method RevokeSessionByHash(token: nat, now: Time) returns (r: Reply)
      modifies this`rows
      ensures (r, Contents()) == Exec(old(Contents()), Logout(token, now))
    {
      var found := Find(rows, token);
      if found.None? || rows[found.value].revoked.Some? {
        return NotFound;
      }
      rows := rows[found.value := rows[found.value].(revoked := Some(now))];
      return RevokedRows(1);
    }

    /** Password and sessions change together or not at all. */
    method UpdatePasswordAndRevokeSessions(u: nat, hash: nat, now: Time) returns (r: Reply)
      modifies this
      ensures (r, Contents()) == Exec(old(Contents()), PasswordChange(u, hash, now))
    {
      if u in passwords {
        passwords := passwords[u := hash];
      }
      r := RevokedRows(Live(rows, u));
      rows := RevokeUser(rows, u, now);
    }

    method RevokeAllUserSessions(u: nat, now: Time) returns (r: Reply)
      modifies this`rows
      ensures (r, Contents()) == Exec(old(Contents()), RevokeAll(u, now))
    {
      r := RevokedRows(Live(rows, u));
      rows := RevokeUser(rows, u, now);
    }
  }

  // ----- what every transaction keeps -----

  /** Replacement links point forward to a row of the same owner, each row replaces at most one
      other, only revoked rows have been replaced, and no two rows share a token. */
  ghost predicate Valid(t: Table) {
    && (forall i, j :: 0 <= i < j < |t| ==> t[i].token != t[j].token)
    && (forall i :: 0 <= i < |t| && t[i].replacedBy.Some? ==>
          i < t[i].replacedBy.value < |t| && t[t[i].replacedBy.value].user == t[i].user && t[i].revoked.Some?)
    && (forall i, j :: 0 <= i < |t| && 0 <= j < |t| && t[i].replacedBy.Some? && t[i].replacedBy == t[j].replacedBy ==>
       i == j)
  }

  /** Rows are never removed, keep their owner and token, and once revoked or replaced stay so. */
  ghost predicate Ages(t: Table, t': Table) {
    && |t| <= |t'|
    && forall i :: 0 <= i < |t| ==>
         && t'[i].user == t[i].user && t'[i].token == t[i].token
         && (t[i].revoked.Some? ==> t'[i].revoked == t[i].revoked)
         && (t[i].replacedBy.Some? ==> t'[i].replacedBy == t[i].replacedBy)
  }

  lemma FindIs(t: Table, i: nat)
    requires Valid(t) && i < |t|
    ensures Find(t, t[i].token) == Some(i)
  {
  }

  lemma RevokingKeepsValid(t: Table, t': Table)
    requires Valid(t) && |t'| == |t|
    requires forall i :: 0 <= i < |t| ==>
               t'[i] == t[i] || (t[i].revoked.None? && t'[i].revoked.Some? && t'[i] == t[i].(revoked := t'[i].revoked))
    ensures Valid(t') && Ages(t, t')
  {
    assert forall i :: 0 <= i < |t| ==>
           t'[i].token == t[i].token && t'[i].user == t[i].user && t'[i].replacedBy == t[i].replacedBy;
  }

  lemma AddingKeepsValid(t: Table, row: Row)
    requires Valid(t) && Find(t, row.token).None? && row.replacedBy.None?
    ensures Valid(t + [row]) && Ages(t, t + [row])
  {
  }

  lemma SupersedingKeepsValid(t: Table, i: nat, row: Row, now: Time)
    requires Valid(t) && i < |t| && t[i].revoked.None? && t[i].user == row.user
    requires Find(t, row.token).None? && row.replacedBy.None?
    ensures Valid(Supersede(t, i, row, now)) && Ages(t, Supersede(t, i, row, now))
  {
    var t' := Supersede(t, i, row, now);
    assert forall k :: 0 <= k < |t| ==> t'[k].token == t[k].token && t'[k].user == t[k].user;
    forall k | 0 <= k < |t'| && t'[k].replacedBy.Some?
      ensures k < t'[k].replacedBy.value < |t'| && t'[t'[k].replacedBy.value].user == t'[k].user && t'[k].revoked.Some?
    {
    }
  }

  lemma ExecKeepsValid(db: Db, op: Op)
    requires Valid(db.rows)
    ensures Valid(Exec(db, op).1.rows) && Ages(db.rows, Exec(db, op).1.rows)
  {
    var t := db.rows;
    match op
    case Login(u, token, exp) =>
      if Find(t, token).None? {
        AddingKeepsValid(t, Row(u, token, exp, None, None));
      }
    case Refresh(u, a, b, exp, now) =>
      var (r, t') := Rotate(t, u, a, b, exp, now);
      if r.Rotated? {
        SupersedingKeepsValid(t, Find(t, a).value, Row(u, b, exp, None, None), now);
      } else {
        RevokingKeepsValid(t, t');
      }
    case Logout(token, now) => RevokingKeepsValid(t, RevokeToken(t, token, now).1);
    case PasswordChange(u, _, now) => RevokingKeepsValid(t, RevokeUser(t, u, now));
    case RevokeAll(u, now) => RevokingKeepsValid(t, RevokeUser(t, u, now));
  }

  // ----- whole runs -----

  function After(db: Db, ops: seq<Op>): Db
    decreases |ops|
  {
    if ops == [] then db else After(Exec(db, ops[0]).1, ops[1..])
  }

  /** The reply to operation `i` of a run. */
  function ReplyTo(db: Db, ops: seq<Op>, i: nat): Reply
    requires i < |ops|
  {
    Exec(After(db, ops[..i]), ops[i]).0
  }

  lemma AgesTransitive(a: Table, b: Table, c: Table)
    requires Ages(a, b) && Ages(b, c)
    ensures Ages(a, c)
  {
  }

  lemma {:induction false} RunKeepsValid(db: Db, ops: seq<Op>)
    requires Valid(db.rows)
    ensures Valid(After(db, ops).rows) && Ages(db.rows, After(db, ops).rows)
    decreases |ops|
  {
    if ops != [] {
      ExecKeepsValid(db, ops[0]);
      RunKeepsValid(Exec(db, ops[0]).1, ops[1..]);
      AgesTransitive(db.rows, Exec(db, ops[0]).1.rows, After(db, ops).rows);
    }
  }

  lemma {:induction false} AfterAppend(db: Db, a: seq<Op>, b: seq<Op>)
    ensures After(db, a + b) == After(After(db, a), b)
    decreases |a|
  {
    if a == [] {
      assert a + b == b;
    } else {
      assert (a + b)[1..] == a[1..] + b;
      AfterAppend(Exec(db, a[0]).1, a[1..], b);
    }
  }

  /** The database after operation `i` has aged into the one before operation `j`. */
  lemma Between(db: Db, ops: seq<Op>, i: nat, j: nat)
    requires Valid(db.rows) && i < j < |ops|
    ensures var mid := Exec(After(db, ops[..i]), ops[i]).1.rows;
            && Valid(After(db, ops[..i]).rows) && Valid(mid)
            && Ages(mid, After(db, ops[..j]).rows) && Valid(After(db, ops[..j]).rows)
  {
    RunKeepsValid(db, ops[..i]);
    ExecKeepsValid(After(db, ops[..i]), ops[i]);
    var mid := Exec(After(db, ops[..i]), ops[i]).1;
    assert ops[..j] == ops[..i] + ([ops[i]] + ops[i + 1..j]);
    AfterAppend(db, ops[..i], [ops[i]] + ops[i + 1..j]);
    assert ([ops[i]] + ops[i + 1..j])[1..] == ops[i + 1..j];
    RunKeepsValid(mid, ops[i + 1..j]);
  }

  /** A token that has a revoked row can never be exchanged again. */
  predicate Spent(t: Table, token: nat) {
    exists i :: 0 <= i < |t| && t[i].token == token && t[i].revoked.Some?
  }

  lemma SpentStays(t: Table, t': Table, token: nat)
    requires Ages(t, t') && Spent(t, token)
    ensures Spent(t', token)
  {
    var i :| 0 <= i < |t| && t[i].token == token && t[i].revoked.Some?;
    assert t'[i].token == token && t'[i].revoked.Some?;
  }

  lemma SpentFails(t: Table, u: nat, token: nat, new_: nat, exp: Time, now: Time)
    requires Valid(t) && Spent(t, token)
    ensures !Rotate(t, u, token, new_, exp, now).0.Rotated?
  {
    var i :| 0 <= i < |t| && t[i].token == token && t[i].revoked.Some?;
    FindIs(t, i);
  }

  /** Over every run each refresh token is exchanged at most once. */
  lemma ExchangedAtMostOnce(passwords: map<nat, nat>, ops: seq<Op>, i: nat, j: nat)
    requires i < j < |ops| && ops[i].Refresh? && ops[j].Refresh? && ops[i].old_ == ops[j].old_
    requires ReplyTo(Db([], passwords), ops, i).Rotated?
    ensures !ReplyTo(Db([], passwords), ops, j).Rotated?
  {
    var db := Db([], passwords);
    Between(db, ops, i, j);
    var before := After(db, ops[..i]).rows;
    var mid := Exec(After(db, ops[..i]), ops[i]).1.rows;
    var k := Find(before, ops[i].old_).value;
    assert mid[k].token == ops[i].old_ && mid[k].revoked.Some?;
    SpentStays(mid, After(db, ops[..j]).rows, ops[i].old_);
    SpentFails(After(db, ops[..j]).rows, ops[j].user, ops[j].old_, ops[j].new_, ops[j].expires, ops[j].now);
  }

  /** Over every run no token that existed when its owner's password changed is exchanged later. */
  lemma PasswordChangeEndsTokens(passwords: map<nat, nat>, ops: seq<Op>, i: nat, j: nat, k: nat)
    requires i < j < |ops| && ops[i].PasswordChange? && ops[j].Refresh?
    requires var before := After(Db([], passwords), ops[..i]).rows;
             k < |before| && before[k].user == ops[i].user && before[k].token == ops[j].old_
    ensures !ReplyTo(Db([], passwords), ops, j).Rotated?
  {
    var db := Db([], passwords);
    Between(db, ops, i, j);
    var mid := Exec(After(db, ops[..i]), ops[i]).1.rows;
    assert mid[k].token == ops[j].old_ && mid[k].revoked.Some?;
    SpentStays(mid, After(db, ops[..j]).rows, ops[j].old_);
    SpentFails(After(db, ops[..j]).rows, ops[j].user, ops[j].old_, ops[j].new_, ops[j].expires, ops[j].now);
  }

  lemma {:induction false} LiveIsNone(t: Table, u: nat)
    requires forall i :: 0 <= i < |t| && t[i].user == u ==> t[i].revoked.Some?
    ensures Live(t, u) == 0
  {
    if t != [] {
      LiveIsNone(t[..|t| - 1], u);
    }
  }

  /** Presenting a token that was exchanged before is detected whenever it happens later in the run,
      leaves its owner without a live session, and changes nobody else's rows. */
  lemma SupersededTokenEndsOwnersSessions(passwords: map<nat, nat>, ops: seq<Op>, i: nat, j: nat)
    requires i < j < |ops| && ops[i].Refresh? && ops[j].Refresh?
    requires ops[i].old_ == ops[j].old_ && ops[i].user == ops[j].user
    requires ReplyTo(Db([], passwords), ops, i).Rotated?
    ensures ReplyTo(Db([], passwords), ops, j) == ReuseDetected
    ensures var before := After(Db([], passwords), ops[..j]).rows;
            var after := Exec(After(Db([], passwords), ops[..j]), ops[j]).1.rows;
            && Live(after, ops[j].user) == 0
            && |after| == |before|
            && forall r :: 0 <= r < |before| && before[r].user != ops[j].user ==> after[r] == before[r]
  {
    var db := Db([], passwords);
    Between(db, ops, i, j);
    var start := After(db, ops[..i]).rows;
    var mid := Exec(After(db, ops[..i]), ops[i]).1.rows;
    var before := After(db, ops[..j]).rows;
    var k := Find(start, ops[i].old_).value;
    assert mid[k].token == ops[i].old_ && mid[k].revoked.Some? && mid[k].replacedBy.Some? && mid[k].user == ops[i].user;
    assert before[k].token == ops[j].old_ && before[k].revoked.Some? && before[k].replacedBy.Some?;
    FindIs(before, k);
    LiveIsNone(RevokeUser(before, ops[j].user, ops[j].now), ops[j].user);
  }

  /** Exactly when a presented token sets off the cascade: it belongs to the caller and was replaced
      by rotation.  A token ended by logout or a password change is refused and changes nothing. */
  lemma ReuseExactlyWhenReplaced(t: Table, u: nat, token: nat, new_: nat, exp: Time, now: Time)
    requires Valid(t)
    ensures var (r, t') := Rotate(t, u, token, new_, exp, now);
            && (r.ReuseDetected? <==>
               exists i :: 0 <= i < |t| && t[i].token == token && t[i].user == u && t[i].replacedBy.Some?)
            && (!r.ReuseDetected? && !r.Rotated? ==> t' == t)
            && (r.Rotated? <==> exists i :: 0 <= i < |t| && t[i].token == token && t[i].user == u
                                  && t[i].revoked.None? && now <= t[i].expires && Find(t, new_).None?)
  {
    if Find(t, token).Some? {
      var k := Find(t, token).value;
      forall i | 0 <= i < |t| && t[i].token == token
        ensures i == k
      {
        FindIs(t, i);
      }
    }
  }

  // ----- chains -----

  /** Some row was replaced by row `i`. */
  ghost predicate IsReplacement(t: Table, i: nat) {
    exists k :: 0 <= k < |t| && t[k].replacedBy == Some(i)
  }

  /** The login row a chain began with. */
  ghost function Root(t: Table, i: nat): (r: nat)
    requires Valid(t) && i < |t|
    ensures r <= i && t[r].user == t[i].user && !IsReplacement(t, r)
    decreases i
  {
    if IsReplacement(t, i) then
      var k :| 0 <= k < |t| && t[k].replacedBy == Some(i);
      Root(t, k)
    else i
  }

  /** The newest row of the chain through `i`. */
  function Newest(t: Table, i: nat): nat
    requires i < |t|
    decreases |t| - i
  {
    if t[i].replacedBy.Some? && i < t[i].replacedBy.value < |t| then Newest(t, t[i].replacedBy.value) else i
  }

  lemma {:induction false} SameChain(t: Table, i: nat)
    requires Valid(t) && i < |t|
    ensures Newest(t, Root(t, i)) == Newest(t, i)
    decreases i
  {
    if IsReplacement(t, i) {
      var k :| 0 <= k < |t| && t[k].replacedBy == Some(i) && Root(t, i) == Root(t, k);
      SameChain(t, k);
    }
  }

  /** In every reachable table the links form chains, one per login: a live row is the newest of its
      chain, the chain has one owner, and no two live rows share a chain. */
  lemma LiveRowsEndDistinctChains(passwords: map<nat, nat>, ops: seq<Op>, i: nat, j: nat)
    requires var t := After(Db([], passwords), ops).rows;
             i < |t| && j < |t| && t[i].revoked.None? && t[j].revoked.None?
    ensures var t := After(Db([], passwords), ops).rows;
            && Valid(t)
            && Newest(t, Root(t, i)) == i
            && t[Root(t, i)].user == t[i].user
            && (Root(t, i) == Root(t, j) ==> i == j)
  {
    RunKeepsValid(Db([], passwords), ops);
    var t := After(Db([], passwords), ops).rows;
    SameChain(t, i);
    SameChain(t, j);
  }

  /** Logins of `u` that got a session. */
  function Logins(db: Db, ops: seq<Op>, u: nat): nat
    decreases |ops|
  {
    if ops == [] then 0
    else
      var (r, db1) := Exec(db, ops[0]);
      (if ops[0].Login? && ops[0].user == u && r.Created? then 1 else 0) + Logins(db1, ops[1..], u)
  }

  lemma {:induction false} LiveAppend(t: Table, row: Row, u: nat)
    ensures Live(t + [row], u) == Live(t, u) + if row.user == u && row.revoked.None? then 1 else 0
  {
    assert (t + [row])[..|t|] == t;
  }

  lemma {:induction false} LiveUpdate(t: Table, i: nat, row: Row, u: nat)
    requires i < |t| && row.revoked.Some?
    ensures Live(t[i := row], u) == Live(t, u) - if t[i].user == u && t[i].revoked.None? then 1 else 0
  {
    var n := |t| - 1;
    if i == n {
      assert t[i := row][..n] == t[..n];
    } else {
      assert t[i := row][..n] == t[..n][i := row];
      LiveUpdate(t[..n], i, row, u);
    }
  }

  lemma {:induction false} LiveAfterRevoke(t: Table, u: nat, v: nat, now: Time)
    ensures Live(RevokeUser(t, u, now), v) == if u == v then 0 else Live(t, v)
  {
    if t != [] {
      var n := |t| - 1;
      assert RevokeUser(t, u, now)[..n] == RevokeUser(t[..n], u, now);
      LiveAfterRevoke(t[..n], u, v, now);
    }
  }

  lemma LiveStep(db: Db, op: Op, u: nat)
    ensures var (r, db1) := Exec(db, op);
            Live(db1.rows, u) <= Live(db.rows, u) + if op.Login? && op.user == u && r.Created? then 1 else 0
  {
    var t := db.rows;
    match op
    case Login(v, token, exp) => LiveAppend(t, Row(v, token, exp, None, None), u);
    case Refresh(v, a, b, exp, now) =>
      var (r, t') := Rotate(t, v, a, b, exp, now);
      LiveAfterRevoke(t, v, u, now);
      if r.Rotated? {
        var i := Find(t, a).value;
        var row := Row(v, b, exp, None, None);
        var ended := t[i].(revoked := Some(now), replacedBy := Some(|t|));
        LiveAppend(t, row, u);
        assert t' == (t + [row])[i := ended];
        LiveUpdate(t + [row], i, ended, u);
      }
    case Logout(token, now) =>
      if Find(t, token).Some? {
        var i := Find(t, token).value;
        LiveUpdate(t, i, t[i].(revoked := Some(now)), u);
      }
    case PasswordChange(v, _, now) => LiveAfterRevoke(t, v, u, now);
    case RevokeAll(v, now) => LiveAfterRevoke(t, v, u, now);
  }

  lemma {:induction false} LiveGrowth(db: Db, ops: seq<Op>, u: nat)
    ensures Live(After(db, ops).rows, u) <= Live(db.rows, u) + Logins(db, ops, u)
    decreases |ops|
  {
    if ops != [] {
      LiveStep(db, ops[0], u);
      LiveGrowth(Exec(db, ops[0]).1, ops[1..], u);
    }
  }

  /** A user never has more live sessions than logins: refreshing multiplies nothing. */
  lemma LiveAtMostLogins(passwords: map<nat, nat>, ops: seq<Op>, u: nat)
    ensures Live(After(Db([], passwords), ops).rows, u) <= Logins(Db([], passwords), ops, u)
  {
    LiveGrowth(Db([], passwords), ops, u);
  }

  /** No revoked row ever becomes live again, over any stretch of any run. */
  lemma RevokedStaysRevoked(passwords: map<nat, nat>, before: seq<Op>, later: seq<Op>, i: nat)
    requires var t := After(Db([], passwords), before).rows; i < |t| && t[i].revoked.Some?
    ensures var t := After(Db([], passwords), before).rows;
            var t' := After(Db([], passwords), before + later).rows;
            i < |t'| && t'[i].revoked == t[i].revoked && t'[i].token == t[i].token && t'[i].user == t[i].user
  {
    var db := After(Db([], passwords), before);
    RunKeepsValid(Db([], passwords), before);
    RunKeepsValid(db, later);
    AfterAppend(Db([], passwords), before, later);
  }
}
