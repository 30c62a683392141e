/** Login sessions, found and pruned by comparing stored times as text (internal/store/auth.go). */
module Sessions {
  import opened Common
  import opened Timestamps

  /** `expires` is the text the row holds. */
  datatype Row = Row(user: int, expires: string)

  type Table = map<string, Row>

  datatype Op =
    | Create(hash: string, user: int, expiry: Instant)
    | Delete(hash: string)
    | DeleteUser(user: int)
    | Prune(now: Instant)

  /** Token hashes are unique: inserting one that is there fails and changes nothing. */
  function Apply(t: Table, op: Op): Table {
    match op
    case Create(hash, user, expiry) => if hash in t then t else t[hash := Row(user, Rfc3339(expiry))]
    case Delete(hash) => t - {hash}
    case DeleteUser(user) => map h | h in t && t[h].user != user :: t[h]
    case Prune(now) => map h | h in t && TextLess(Rfc3339(now), t[h].expires) :: t[h]
  }

  function Find(t: Table, hash: string, now: Instant): Option<Row> {
    if hash in t && TextLess(Rfc3339(now), t[hash].expires) then Some(t[hash]) else None
  }

  class SessionStore {
    var sessions: Table

    constructor ()
      ensures sessions == map[]
    {
      sessions := map[];
    }

    method CreateSession(user: int, hash: string, expiry: Instant) returns (ok: bool)
      modifies this
      ensures ok <==> hash !in old(sessions)
      ensures ok ==> Get(sessions, hash) == Some(Row(user, Rfc3339(expiry)))
      ensures sessions == Apply(old(sessions), Create(hash, user, expiry))
    {
      ok := hash !in sessions;
      if ok {
        sessions := sessions[hash := Row(user, Rfc3339(expiry))];
      }
    }

    method GetSessionByToken(hash: string, now: Instant) returns (found: Option<Row>)
      ensures found.Some? <==> hash in sessions && TextLess(Rfc3339(now), sessions[hash].expires)
      ensures found == Find(sessions, hash, now)
    {
      if hash in sessions && TextLess(Rfc3339(now), sessions[hash].expires) {
        return Some(sessions[hash]);
      }
      return None;
    }

    method PruneExpiredSessions(now: Instant)
      modifies this
      ensures forall h :: Find(sessions, h, now) == Find(old(sessions), h, now)
      ensures sessions == Apply(old(sessions), Prune(now))
    {
      sessions := map h | h in sessions && TextLess(Rfc3339(now), sessions[h].expires) :: sessions[h];
    }

    method DeleteSession(hash: string)
      modifies this
      ensures forall h :: Get(sessions, h) == (if h == hash then None else Get(old(sessions), h))
      ensures sessions == Apply(old(sessions), Delete(hash))
    {
      sessions := sessions - {hash};
    }

    method DeleteUserSessions(user: int)
      modifies this
      ensures forall h :: h in sessions <==> h in old(sessions) && old(sessions)[h].user != user
      ensures sessions == Apply(old(sessions), DeleteUser(user))
    {
      sessions := map h | h in sessions && sessions[h].user != user :: sessions[h];
    }
  }

  // ---------------------------------------------------------------- histories

  function Exec(ops: seq<Op>): Table {
    if ops == [] then map[] else Apply(Exec(ops[..|ops| - 1]), ops[|ops| - 1])
  }

  /** Ordinary times: years 1 to 9999, and not the zero time. */
  predicate Ordinary(t: Instant) {
    Valid(t) && t.civil.year >= 1 && t != ZERO
  }

  /** Hashes are random and never drawn twice; every time in the history is an ordinary one. */
  ghost predicate Plausible(ops: seq<Op>) {
    && (forall i, j :: 0 <= i < j < |ops| && ops[i].Create? && ops[j].Create? ==> ops[i].hash != ops[j].hash)
    && (forall i :: 0 <= i < |ops| && ops[i].Create? ==> Ordinary(ops[i].expiry))
    && (forall i :: 0 <= i < |ops| && ops[i].Prune? ==> Ordinary(ops[i].now))
  }

  /** Does this operation leave such a session alone? It does unless it deletes it, itself or with its user, or prunes
      at or after the second it expires in. */
  predicate Spares(op: Op, hash: string, user: int, expiry: Instant) {
    match op
    case Create(_, _, _) => true
    case Delete(h) => h != hash
    case DeleteUser(u) => u != user
    case Prune(now) => Seconds(now.civil) < Seconds(expiry.civil)
  }

  /** The session was created by operation `i` and spared since. */
  ghost predicate KeptSince(ops: seq<Op>, i: nat, hash: string, user: int, expiry: Instant) {
    && i < |ops| && ops[i] == Create(hash, user, expiry)
    && forall j :: i < j < |ops| ==> Spares(ops[j], hash, user, expiry)
  }

  ghost predicate Kept(ops: seq<Op>, hash: string, row: Row) {
    exists i: nat, user, expiry :: KeptSince(ops, i, hash, user, expiry) && row == Row(user, Rfc3339(expiry))
  }

  /** Some session with this row was created and spared since, and expires in a later second than `now`. */
  ghost predicate Current(ops: seq<Op>, hash: string, now: Instant, row: Row) {
    exists i: nat, user, expiry :: KeptSince(ops, i, hash, user, expiry) && row == Row(user, Rfc3339(expiry))
                                   && Seconds(expiry.civil) > Seconds(now.civil)
  }

  /** Whatever times the prunes read, in whatever order, a token finds a session exactly when it was created, not
      deleted since, not pruned at or after the second it expires in, and that second is after the current one; and
      then it finds that session. */
  lemma {:induction false} TokenFindsItsSession(ops: seq<Op>, hash: string, now: Instant)
    requires Plausible(ops) && Ordinary(now)
    ensures forall row :: Find(Exec(ops), hash, now) == Some(row) <==> Current(ops, hash, now, row)
  {
    forall row | Find(Exec(ops), hash, now) == Some(row) ensures Current(ops, hash, now, row) {
      FoundIsCurrent(ops, hash, now);
    }
    forall row | Current(ops, hash, now, row) ensures Find(Exec(ops), hash, now) == Some(row) {
      CurrentIsFound(ops, hash, now, row);
    }
  }

  /** If no prune read a clock later than the lookup's, prunes make no difference to it. */
  lemma {:induction false} PrunesDoNotShow(ops: seq<Op>, i: nat, hash: string, user: int, expiry: Instant, now: Instant)
    requires Plausible(ops) && Ordinary(now) && i < |ops| && ops[i] == Create(hash, user, expiry)
    requires forall j :: 0 <= j < |ops| && ops[j].Prune? ==> Seconds(ops[j].now.civil) <= Seconds(now.civil)
    ensures Find(Exec(ops), hash, now) == Some(Row(user, Rfc3339(expiry))) <==>
            && Seconds(expiry.civil) > Seconds(now.civil)
            && forall j :: i < j < |ops| ==> ops[j] != Delete(hash) && ops[j] != DeleteUser(user)
  {
    if Seconds(expiry.civil) > Seconds(now.civil) {
      SparedUnlessDeleted(ops, i, hash, user, expiry, now);
    }
    FoundIff(ops, i, hash, user, expiry, now);
  }

  lemma SparedUnlessDeleted(ops: seq<Op>, i: nat, hash: string, user: int, expiry: Instant, now: Instant)
    requires i < |ops| && ops[i] == Create(hash, user, expiry) && Seconds(expiry.civil) > Seconds(now.civil)
    requires forall j :: 0 <= j < |ops| && ops[j].Prune? ==> Seconds(ops[j].now.civil) <= Seconds(now.civil)
    ensures KeptSince(ops, i, hash, user, expiry) <==>
            forall j :: i < j < |ops| ==> ops[j] != Delete(hash) && ops[j] != DeleteUser(user)
  {
  }

  lemma {:induction false} FoundIff(ops: seq<Op>, i: nat, hash: string, user: int, expiry: Instant, now: Instant)
    requires Plausible(ops) && Ordinary(now) && i < |ops| && ops[i] == Create(hash, user, expiry)
    ensures Find(Exec(ops), hash, now) == Some(Row(user, Rfc3339(expiry))) <==>
            Seconds(expiry.civil) > Seconds(now.civil) && KeptSince(ops, i, hash, user, expiry)
  {
    var row := Row(user, Rfc3339(expiry));
    if Find(Exec(ops), hash, now) == Some(row) {
      FoundIsCurrent(ops, hash, now);
      CurrentMeansKept(ops, i, hash, user, expiry, now, row);
    } else if Seconds(expiry.civil) > Seconds(now.civil) && KeptSince(ops, i, hash, user, expiry) {
      CurrentIsFound(ops, hash, now, row);
    }
  }

  /** A hash is created once, so it is that session which is current. */
  lemma CurrentMeansKept(ops: seq<Op>, i: nat, hash: string, user: int, expiry: Instant, now: Instant, row: Row)
    requires Plausible(ops) && i < |ops| && ops[i] == Create(hash, user, expiry) && Current(ops, hash, now, row)
    ensures Seconds(expiry.civil) > Seconds(now.civil) && KeptSince(ops, i, hash, user, expiry)
  {
    var k: nat, u, e :| KeptSince(ops, k, hash, u, e) && row == Row(u, Rfc3339(e))
                        && Seconds(e.civil) > Seconds(now.civil);
    assert ops[k].Create? && k == i;
  }

  lemma {:induction false} FoundIsCurrent(ops: seq<Op>, hash: string, now: Instant)
    requires Plausible(ops) && Ordinary(now) && Find(Exec(ops), hash, now).Some?
    ensures Current(ops, hash, now, Find(Exec(ops), hash, now).value)
  {
    RowsAreKept(ops, hash);
    var i: nat, user, expiry :| KeptSince(ops, i, hash, user, expiry) && Exec(ops)[hash] == Row(user, Rfc3339(expiry));
    assert ops[i].Create?;
    OrdinaryOrder(now, expiry);
  }

  lemma {:induction false} CurrentIsFound(ops: seq<Op>, hash: string, now: Instant, row: Row)
    requires Plausible(ops) && Ordinary(now) && Current(ops, hash, now, row)
    ensures Find(Exec(ops), hash, now) == Some(row)
  {
    var i: nat, user, expiry :| KeptSince(ops, i, hash, user, expiry) && row == Row(user, Rfc3339(expiry))
                                && Seconds(expiry.civil) > Seconds(now.civil);
    assert ops[i].Create?;
    OrdinaryOrder(now, expiry);
    KeptIsARow(ops, i, hash, user, expiry);
  }

  lemma {:induction false} OrdinaryOrder(t: Instant, u: Instant)
    requires Ordinary(t) && Ordinary(u)
    ensures TextLess(Rfc3339(t), Rfc3339(u)) <==> Seconds(t.civil) < Seconds(u.civil)
  {
    TextOrderIsTimeOrderIff(t, u);
  }

  /** A row in the table is a session that was created and spared since. */
  lemma {:induction false} RowsAreKept(ops: seq<Op>, hash: string)
    requires Plausible(ops)
    ensures hash in Exec(ops) ==> Kept(ops, hash, Exec(ops)[hash])
  {
    if ops != [] && hash in Exec(ops) {
      var before, op := ops[..|ops| - 1], ops[|ops| - 1];
      assert ops == before + [op] && Plausible(before);
      RowsAreKept(before, hash);
      if hash in Exec(before) {
        StillKept(before, op, hash, Exec(before)[hash]);
      } else {
        assert KeptSince(ops, |ops| - 1, hash, op.user, op.expiry);
      }
    }
  }

  lemma {:induction false} StillKept(before: seq<Op>, op: Op, hash: string, row: Row)
    requires Plausible(before + [op]) && Kept(before, hash, row)
    requires op != Delete(hash) && op != DeleteUser(row.user)
    requires op.Prune? ==> TextLess(Rfc3339(op.now), row.expires)
    ensures Kept(before + [op], hash, row)
  {
    var i: nat, user, expiry :| KeptSince(before, i, hash, user, expiry) && row == Row(user, Rfc3339(expiry));
    var ops := before + [op];
    assert ops[i] == before[i] && ops[|before|] == op;
    if op.Prune? {
      OrdinaryOrder(op.now, expiry);
    }
    assert KeptSince(ops, i, hash, user, expiry);
  }

  /** And the other way round: a session created and spared since is in the table. */
  lemma {:induction false} KeptIsARow(ops: seq<Op>, i: nat, hash: string, user: int, expiry: Instant)
    requires Plausible(ops) && KeptSince(ops, i, hash, user, expiry)
    ensures Get(Exec(ops), hash) == Some(Row(user, Rfc3339(expiry)))
    decreases |ops|
  {
    var before, op := ops[..|ops| - 1], ops[|ops| - 1];
    assert Plausible(before);
    if i == |ops| - 1 {
      NotYetCreated(before, op, hash);
    } else {
      assert KeptSince(before, i, hash, user, expiry);
      KeptIsARow(before, i, hash, user, expiry);
      assert Spares(op, hash, user, expiry) && ops[i].Create?;
      if op.Prune? {
        OrdinaryOrder(op.now, expiry);
      }
    }
  }

  lemma {:induction false} NotYetCreated(before: seq<Op>, op: Op, hash: string)
    requires Plausible(before) && op.Create? && op.hash == hash
    requires forall i :: 0 <= i < |before| && before[i].Create? ==> before[i].hash != hash
    ensures hash !in Exec(before)
  {
    RowsAreKept(before, hash);
  }
}
