/** The endpoint index agrees with the retained runs after any history of inserts and prunes. */
module DriftHistory {
  import opened Common
  import opened Drift

  datatype Op = Ingest(org: int, env: Envelope, now: int) | Expire(cutoff: int)

  function Apply(db: Db, op: Op): Db {
    match op
    case Ingest(org, env, now) => Insert(db, org, env, now).0
    case Expire(cutoff) => Prune(db, cutoff)
  }

  function Exec(db: Db, ops: seq<Op>): Db
    decreases |ops|
  {
    if ops == [] then db else Exec(Apply(db, ops[0]), ops[1..])
  }

  // ---------------------------------------------------------------- the index is exact

  /** Did this run contact the endpoint the key names? */
  predicate Mentions(run: Run, k: Key) {
    run.org == k.0 && run.repository == k.1 && k.2 != "" && k.2 in Endpoints(run.connections)
  }

  ghost predicate Mentioned(runs: seq<Run>, k: Key) {
    exists r :: r in runs && Mentions(r, k)
  }

  /** The row of a key is right about the runs: it is there exactly when some run mentions the key, `last` is
      the latest of those runs, and `first` is no later than any of them. */
  ghost predicate RowIsExact(db: Db, k: Key) {
    && (k in db.seen <==> Mentioned(db.runs, k))
    && (k in db.seen ==>
          && (forall r :: r in db.runs && Mentions(r, k) ==> db.seen[k].first <= r.receivedAt <= db.seen[k].last)
          && (exists r :: r in db.runs && Mentions(r, k) && r.receivedAt == db.seen[k].last))
  }

  ghost predicate IndexIsExact(db: Db) {
    forall k :: RowIsExact(db, k)
  }

  /** No endpoint of the session was last sighted after `now`. */
  ghost predicate NothingFromTheFuture(db: Db, org: int, env: Envelope, now: int) {
    forall e :: e in Endpoints(env.connections) && e != "" && (org, Lower(env.repository), e) in db.seen ==>
      db.seen[(org, Lower(env.repository), e)].last <= now
  }

  /** An insert keeps the index exact if and only if no endpoint of its session was last sighted after its own
      time: that is where a clock that steps back would show. */
  lemma InsertKeepsTheIndexExactIff(db: Db, org: int, env: Envelope, now: int)
    requires IndexIsExact(db)
    ensures IndexIsExact(Insert(db, org, env, now).0) <==> NothingFromTheFuture(db, org, env, now)
  {
    var after := Insert(db, org, env, now).0;
    if NothingFromTheFuture(db, org, env, now) {
      forall k ensures RowIsExact(after, k) {
        InsertRow(db, org, env, now, k);
      }
    } else {
      var e :| e in Endpoints(env.connections) && e != "" && (org, Lower(env.repository), e) in db.seen
               && db.seen[(org, Lower(env.repository), e)].last > now;
      var k: Key := (org, Lower(env.repository), e);
      assert RowIsExact(db, k);
      SightedMeaning(db.seen, org, Lower(env.repository), Endpoints(env.connections), now);
      assert Get(after.seen, k) == Some(Seen(db.seen[k].first, now));
      var r :| r in db.runs && Mentions(r, k) && r.receivedAt == db.seen[k].last;
      assert r in after.runs && !RowIsExact(after, k);
    }
  }

  lemma InsertRow(db: Db, org: int, env: Envelope, now: int, k: Key)
    requires RowIsExact(db, k) && NothingFromTheFuture(db, org, env, now)
    ensures RowIsExact(Insert(db, org, env, now).0, k)
  {
    var after, repo, eps := Insert(db, org, env, now).0, Lower(env.repository), Endpoints(env.connections);
    var run := after.runs[|db.runs|];
    SightedMeaning(db.seen, org, repo, eps, now);
    assert after.runs == db.runs + [run];
    assert Mentions(run, k) <==> k.0 == org && k.1 == repo && k.2 != "" && k.2 in eps;
    if Mentions(run, k) {
      assert run in after.runs;
      assert Get(after.seen, k) == Some(Seen(if k in db.seen then db.seen[k].first else now, now));
      forall r | r in after.runs && Mentions(r, k)
        ensures after.seen[k].first <= r.receivedAt <= now
      {
        if r in db.runs {
          assert k in db.seen;
        }
      }
    } else {
      assert Get(after.seen, k) == Get(db.seen, k);
      if k in db.seen {
        var r :| r in db.runs && Mentions(r, k) && r.receivedAt == db.seen[k].last;
        assert r in after.runs;
      }
    }
  }

  /** Pruning keeps the index exact whatever the cutoff, although it never compares the two tables. */
  lemma PruneKeepsTheIndexExact(db: Db, cutoff: int)
    requires IndexIsExact(db)
    ensures IndexIsExact(Prune(db, cutoff))
  {
    var after := Prune(db, cutoff);
    RetainedMeaning(db.runs, cutoff);
    forall k ensures RowIsExact(after, k) {
      assert RowIsExact(db, k);
      if k in db.seen {
        var r :| r in db.runs && Mentions(r, k) && r.receivedAt == db.seen[k].last;
        if db.seen[k].last >= cutoff {
          assert r in after.runs;
        }
      }
    }
  }

  /** The inserts commit in the order of their times, which start no earlier than `t`. */
  predicate Forward(ops: seq<Op>, t: int)
    decreases |ops|
  {
    ops == [] ||
    (if ops[0].Ingest? then t <= ops[0].now && Forward(ops[1..], ops[0].now) else Forward(ops[1..], t))
  }

  /** From an empty database, after any history, the index is exact. */
  lemma IndexIsExactAfterEveryHistory(ops: seq<Op>, t: int)
    requires Forward(ops, t)
    ensures IndexIsExact(Exec(EMPTY, ops))
  {
    ExactRun(EMPTY, ops, t);
  }

  /** Does every insert of the history sight only endpoints that were last sighted no later than its own time? */
  ghost predicate OnTime(db: Db, ops: seq<Op>)
    decreases |ops|
  {
    ops == [] ||
    ((ops[0].Ingest? ==> NothingFromTheFuture(db, ops[0].org, ops[0].env, ops[0].now))
     && OnTime(Apply(db, ops[0]), ops[1..]))
  }

  /** The index is exact all along a history if and only if every insert is on time. */
  lemma {:induction false} IndexStaysExactIff(db: Db, ops: seq<Op>)
    requires IndexIsExact(db)
    ensures (forall n :: 0 <= n <= |ops| ==> IndexIsExact(Exec(db, ops[..n]))) <==> OnTime(db, ops)
    decreases |ops|
  {
    if ops != [] {
      var op, after := ops[0], Apply(db, ops[0]);
      if op.Ingest? {
        InsertKeepsTheIndexExactIff(db, op.org, op.env, op.now);
      } else {
        PruneKeepsTheIndexExact(db, op.cutoff);
      }
      assert ops[..1][1..] == [] && Exec(db, ops[..1]) == after;
      if IndexIsExact(after) {
        IndexStaysExactIff(after, ops[1..]);
        forall n | 0 <= n < |ops| ensures Exec(db, ops[..n + 1]) == Exec(after, ops[1..][..n]) {
          assert ops[..n + 1][1..] == ops[1..][..n];
        }
        if OnTime(db, ops) {
          forall n | 0 <= n <= |ops| ensures IndexIsExact(Exec(db, ops[..n])) {
            if n > 0 { assert Exec(db, ops[..n - 1 + 1]) == Exec(after, ops[1..][..n - 1]); }
          }
        } else {
          var n :| 0 <= n < |ops| && !IndexIsExact(Exec(after, ops[1..][..n]));
          assert !IndexIsExact(Exec(db, ops[..n + 1]));
        }
      }
    }
  }

  /** A session that contacted one host. */
  const SESSION: Envelope := Envelope("acme/app", [Connection("example.com", "")], "")
  const HOST: Key := (1, "acme/app", "example.com")

  /** Two inserts that read the clock at seconds 10 and 11 and commit the other way round. */
  const OVERTAKEN: seq<Op> := [Ingest(1, SESSION, 11), Ingest(1, SESSION, 10)]

  /** After them the index is wrong about the runs; a prune then keeps the later run and drops its endpoint, which is
      reported as new once more. */
  lemma OvertakingInsertsBreakTheIndex()
    ensures !IndexIsExact(Exec(EMPTY, OVERTAKEN))
    ensures var db := Exec(EMPTY, OVERTAKEN + [Expire(11)]);
            && Mentioned(db.runs, HOST) && db.seen == map[]
            && Insert(db, 1, SESSION, 12).1 == ["example.com"]
  {
    var one := Insert(EMPTY, 1, SESSION, 11).0;
    var two := Insert(one, 1, SESSION, 10).0;
    var pruned := Prune(two, 11);
    Sighting(map[], 11);
    Sighting(one.seen, 10);
    assert two.seen == map[HOST := Seen(11, 10)];
    assert OVERTAKEN[1..][1..] == [] && Exec(EMPTY, OVERTAKEN) == Exec(one, OVERTAKEN[1..]) == two;
    assert (OVERTAKEN + [Expire(11)])[1..][1..] == [Expire(11)] && [Expire(11)][1..] == [];
    assert Exec(EMPTY, OVERTAKEN + [Expire(11)]) == Exec(one, (OVERTAKEN + [Expire(11)])[1..]) == pruned;
    var run := two.runs[0];
    assert run.receivedAt == 11 && Mentions(run, HOST) by { assert Endpoints(SESSION.connections)[0] == HOST.2; }
    assert !RowIsExact(two, HOST);
    RetainedMeaning(two.runs, 11);
    assert run in pruned.runs;
    Sighting(map[], 12);
  }

  /** What one session does to the index. */
  lemma Sighting(seen: map<Key, Seen>, now: int)
    ensures Lower(SESSION.repository) == HOST.1 && Endpoints(SESSION.connections) == [HOST.2]
    ensures Sighted(seen, 1, HOST.1, [HOST.2], now) ==
            seen[HOST := Seen(if HOST in seen then seen[HOST].first else now, now)]
    ensures Fresh(seen, 1, HOST.1, [HOST.2]) == if HOST in seen then [] else [HOST.2]
  {
    assert [HOST.2][..0] == [];
  }

  lemma {:induction false} ExactRun(db: Db, ops: seq<Op>, t: int)
    requires Forward(ops, t) && IndexIsExact(db)
    requires forall r :: r in db.runs ==> r.receivedAt <= t
    ensures IndexIsExact(Exec(db, ops))
    decreases |ops|
  {
    if ops != [] {
      var op, after := ops[0], Apply(db, ops[0]);
      match op
      case Ingest(org, env, now) =>
        forall e | e in Endpoints(env.connections) && (org, Lower(env.repository), e) in db.seen
          ensures db.seen[(org, Lower(env.repository), e)].last <= now
        {
          assert RowIsExact(db, (org, Lower(env.repository), e));
        }
        InsertKeepsTheIndexExactIff(db, org, env, now);
        ExactRun(after, ops[1..], now);
      case Expire(cutoff) =>
        PruneKeepsTheIndexExact(db, cutoff);
        RetainedMeaning(db.runs, cutoff);
        ExactRun(after, ops[1..], t);
    }
  }

  // ---------------------------------------------------------------- whatever the clock does

  /** The row of a key is the sighting of some retained run. */
  ghost predicate EndsAtARun(db: Db, k: Key) {
    k in db.seen ==> exists r :: r in db.runs && Mentions(r, k) && r.receivedAt == db.seen[k].last
  }

  ghost predicate RowsEndAtRuns(db: Db) {
    forall k :: EndsAtARun(db, k)
  }

  lemma InsertEnds(db: Db, org: int, env: Envelope, now: int)
    requires RowsEndAtRuns(db)
    ensures RowsEndAtRuns(Insert(db, org, env, now).0)
  {
    var after, repo, eps := Insert(db, org, env, now).0, Lower(env.repository), Endpoints(env.connections);
    var run := after.runs[|db.runs|];
    SightedMeaning(db.seen, org, repo, eps, now);
    forall k ensures EndsAtARun(after, k) {
      assert EndsAtARun(db, k);
      if k.0 == org && k.1 == repo && k.2 != "" && k.2 in eps {
        assert Get(after.seen, k) == Some(Seen(if k in db.seen then db.seen[k].first else now, now));
        assert run in after.runs && Mentions(run, k);
      } else {
        assert Get(after.seen, k) == Get(db.seen, k);
      }
    }
  }

  lemma PruneEnds(db: Db, cutoff: int)
    requires RowsEndAtRuns(db)
    ensures RowsEndAtRuns(Prune(db, cutoff))
  {
    RetainedMeaning(db.runs, cutoff);
    forall k ensures EndsAtARun(Prune(db, cutoff), k) {
      assert EndsAtARun(db, k);
    }
  }

  /** From an empty database, after any history with any clock, every row of the index names an endpoint that some
      retained run contacted, at the very time of its last sighting. */
  lemma EveryRowEndsAtARun(ops: seq<Op>)
    ensures RowsEndAtRuns(Exec(EMPTY, ops))
  {
    EndsRun(EMPTY, ops);
  }

  lemma {:induction false} EndsRun(db: Db, ops: seq<Op>)
    requires RowsEndAtRuns(db)
    ensures RowsEndAtRuns(Exec(db, ops))
    decreases |ops|
  {
    if ops != [] {
      var op := ops[0];
      if op.Ingest? { InsertEnds(db, op.org, op.env, op.now); } else { PruneEnds(db, op.cutoff); }
      EndsRun(Apply(db, op), ops[1..]);
    }
  }

  // ---------------------------------------------------------------- what an insert reports

  /** The name by which a connection is known: its domain, or its address if it has none. */
  predicate KnownBy(c: Connection, e: string) {
    e != "" && ((c.domain != "" && e == c.domain) || (c.domain == "" && e == c.daddr))
  }

  /** A run mentions an endpoint exactly if one of its connections is known by that name. */
  lemma MentionsMeans(run: Run, k: Key)
    ensures Mentions(run, k) <==>
            run.org == k.0 && run.repository == k.1 && exists c :: c in run.connections && KnownBy(c, k.2)
  {
    EndpointsMean(run.connections, k.2);
  }

  lemma EndpointsMean(cs: seq<Connection>, e: string)
    ensures e != "" && e in Endpoints(cs) <==> exists c :: c in cs && KnownBy(c, e)
  {
    if e != "" && e in Endpoints(cs) {
      var i :| 0 <= i < |cs| && Endpoints(cs)[i] == e;
      assert cs[i] in cs && KnownBy(cs[i], e);
    }
    if c :| c in cs && KnownBy(c, e) {
      var i :| 0 <= i < |cs| && cs[i] == c;
      assert Endpoints(cs)[i] == e;
    }
  }

  /** The endpoints an insert reports are, each once and in order of first occurrence, the session's non-empty
      endpoints that occur in no retained run of the same org and lower-cased repository; their number is stored
      with the run. */
  lemma ReportedEndpointsAreNewToTheRuns(db: Db, org: int, env: Envelope, now: int)
    requires IndexIsExact(db)
    ensures var (after, news) := Insert(db, org, env, now);
            var eps := Endpoints(env.connections);
            && (forall e :: e in news <==> e in eps && e != "" && !Mentioned(db.runs, (org, Lower(env.repository), e)))
            && (forall e :: e in news <==> !Mentioned(db.runs, (org, Lower(env.repository), e))
                                           && exists c :: c in env.connections && KnownBy(c, e))
            && (forall i, j :: 0 <= i < j < |news| ==> FirstAt(eps, news[i]) < FirstAt(eps, news[j]))
            && after.runs[|db.runs|].newEndpoints == |news|
  {
    FreshMeaning(db.seen, org, Lower(env.repository), Endpoints(env.connections));
    forall e
      ensures (org, Lower(env.repository), e) in db.seen <==> Mentioned(db.runs, (org, Lower(env.repository), e))
    {
      assert RowIsExact(db, (org, Lower(env.repository), e));
    }
    forall e
      ensures e != "" && e in Endpoints(env.connections) <==> exists c :: c in env.connections && KnownBy(c, e)
    {
      EndpointsMean(env.connections, e);
    }
  }

  function Reported(db: Db, ops: seq<Op>): nat
    decreases |ops|
  {
    if ops == [] then 0
    else
      (if ops[0].Ingest? then |Insert(db, ops[0].org, ops[0].env, ops[0].now).1| else 0)
      + Reported(Apply(db, ops[0]), ops[1..])
  }

  function Dropped(db: Db, ops: seq<Op>): nat
    decreases |ops|
  {
    if ops == [] then 0
    else
      (if ops[0].Expire? then |set k | k in db.seen && db.seen[k].last < ops[0].cutoff| else 0)
      + Dropped(Apply(db, ops[0]), ops[1..])
  }

  /** Over any history, with any clock: rows reported new, less rows pruned, are the rows there are. */
  lemma {:induction false} RowsAreConserved(db: Db, ops: seq<Op>)
    ensures |Exec(db, ops).seen| == |db.seen| + Reported(db, ops) - Dropped(db, ops)
    decreases |ops|
  {
    if ops != [] {
      RowsAreConserved(Apply(db, ops[0]), ops[1..]);
      match ops[0]
      case Ingest(org, env, now) =>
        SightedAddsTheFresh(db.seen, org, Lower(env.repository), Endpoints(env.connections), now);
      case Expire(cutoff) =>
        var stale := set k | k in db.seen && db.seen[k].last < cutoff;
        assert db.seen.Keys == Prune(db, cutoff).seen.Keys + stale;
    }
  }

  lemma {:induction false} SightedAddsTheFresh(seen: map<Key, Seen>, org: int, repo: string, eps: seq<string>, now: int)
    ensures |Sighted(seen, org, repo, eps, now)| == |seen| + |Fresh(seen, org, repo, eps)|
  {
    if eps != [] {
      var before, e := eps[..|eps| - 1], eps[|eps| - 1];
      SightedAddsTheFresh(seen, org, repo, before, now);
      SightedMeaning(seen, org, repo, before, now);
      var mid: map<Key, Seen> := Sighted(seen, org, repo, before, now);
      if e != "" {
        var all := Sighted(seen, org, repo, eps, now);
        assert all.Keys == mid.Keys + {(org, repo, e)};
      }
    }
  }
}
