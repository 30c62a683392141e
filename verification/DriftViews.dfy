/** What a viewer sees of runs and endpoints (internal/store/store.go): reads are scoped to the viewer's orgs, and
    nothing other orgs ingest can change them. */
module DriftViews {
  import opened Common
  import opened Drift
  import opened DriftHistory

  const DEFAULT_LIMIT := 50

  /** The rows the query layer lets a viewer read: all of them for instance admins, else those of their orgs. */
  predicate InScope(org: int, orgs: set<int>, isAdmin: bool) {
    isAdmin || org in orgs
  }

  function ScopedRuns(runs: seq<Run>, orgs: set<int>, isAdmin: bool): seq<Run> {
    if runs == [] then []
    else
      var rest, r := ScopedRuns(runs[..|runs| - 1], orgs, isAdmin), runs[|runs| - 1];
      if InScope(r.org, orgs, isAdmin) then rest + [r] else rest
  }

  function RepoRuns(runs: seq<Run>, repo: string): seq<Run> {
    if runs == [] then []
    else
      var rest, r := RepoRuns(runs[..|runs| - 1], repo), runs[|runs| - 1];
      if r.repository == repo then rest + [r] else rest
  }

  function NewestFirst(runs: seq<Run>, limit: int): seq<Run> {
    var n := if limit <= 0 then DEFAULT_LIMIT else limit;
    seq(if n < |runs| then n else |runs|, i requires 0 <= i < |runs| => runs[|runs| - 1 - i])
  }

  function ListRuns(db: Db, orgs: set<int>, isAdmin: bool, limit: int): seq<Run> {
    NewestFirst(ScopedRuns(db.runs, orgs, isAdmin), limit)
  }

  function RunsForRepo(db: Db, repo: string, orgs: set<int>, isAdmin: bool, limit: int): seq<Run> {
    NewestFirst(RepoRuns(ScopedRuns(db.runs, orgs, isAdmin), Lower(repo)), limit)
  }

  function RepoVisible(db: Db, repo: string, orgs: set<int>, isAdmin: bool): bool {
    isAdmin || |RepoRuns(ScopedRuns(db.runs, orgs, isAdmin), Lower(repo))| > 0
  }

  function ScopedSeen(seen: map<Key, Seen>, orgs: set<int>, isAdmin: bool): map<Key, Seen> {
    map k | k in seen && InScope(k.0, orgs, isAdmin) :: seen[k]
  }

  /** Each endpoint once, with its earliest first and latest last sighting over the orgs in scope. */
  ghost function EndpointsForRepo(db: Db, repo: string, orgs: set<int>, isAdmin: bool): map<string, Seen> {
    Grouped(ScopedSeen(db.seen, orgs, isAdmin), Lower(repo))
  }

  function RowsOf(seen: map<Key, Seen>, repo: string, endpoint: string): set<Seen> {
    set k | k in seen && k.1 == repo && k.2 == endpoint :: seen[k]
  }

  ghost function Grouped(seen: map<Key, Seen>, repo: string): map<string, Seen> {
    map e | e in (set k | k in seen && k.1 == repo :: k.2) && RowsOf(seen, repo, e) != {} ::
      Seen(-Greatest(set r | r in RowsOf(seen, repo, e) :: -r.first),
           Greatest(set r | r in RowsOf(seen, repo, e) :: r.last))
  }

  ghost function Greatest(s: set<int>): (m: int)
    ensures s != {} ==> m in s && forall x :: x in s ==> x <= m
    decreases |s|
  {
    if s == {} then 0
    else
      var x := PickFrom(s);
      var rest := Greatest(s - {x});
      assert forall y :: y in s ==> y == x || y in s - {x};
      if s - {x} == {} || rest <= x then x else rest
  }

  /** A possible answer to the listing: every endpoint shown, once, the most recently seen first. The database may
      break ties as it likes. */
  ghost predicate Listing(rows: seq<(string, Seen)>, shown: map<string, Seen>) {
    && (forall i :: 0 <= i < |rows| ==> rows[i].0 in shown && shown[rows[i].0] == rows[i].1)
    && (forall e :: e in shown ==> exists i :: 0 <= i < |rows| && rows[i].0 == e)
    && (forall i, j :: 0 <= i < j < |rows| ==> rows[i].0 != rows[j].0 && rows[i].1.last >= rows[j].1.last)
  }

  function Names(rows: seq<(string, Seen)>, n: nat): (names: set<string>)
    requires n <= |rows|
    ensures forall e :: e in names <==> exists i :: 0 <= i < n && rows[i].0 == e
  {
    set i | 0 <= i < n :: rows[i].0
  }

  lemma {:induction false} NamesAreDistinct(rows: seq<(string, Seen)>, n: nat)
    requires n <= |rows| && forall i, j :: 0 <= i < j < |rows| ==> rows[i].0 != rows[j].0
    ensures |Names(rows, n)| == n
  {
    if n > 0 {
      NamesAreDistinct(rows, n - 1);
      assert Names(rows, n) == Names(rows, n - 1) + {rows[n - 1].0};
    }
  }

  /** Two answers to one listing differ only in how ties are broken. */
  lemma {:induction false} ListingsDifferInTies(a: seq<(string, Seen)>, b: seq<(string, Seen)>,
                                                shown: map<string, Seen>)
    requires Listing(a, shown) && Listing(b, shown)
    ensures |a| == |b| && forall i :: 0 <= i < |a| ==> a[i].1.last == b[i].1.last
  {
    NamesAreDistinct(a, |a|);
    NamesAreDistinct(b, |b|);
    assert Names(a, |a|) == Names(b, |b|);
    forall i | 0 <= i < |a| ensures a[i].1.last == b[i].1.last {
      NoLater(a, b, shown, i);
      NoLater(b, a, shown, i);
    }
  }

  /** Otherwise the first `i + 1` of `a` would all be among the first `i` of `b`. */
  lemma {:induction false} NoLater(a: seq<(string, Seen)>, b: seq<(string, Seen)>, shown: map<string, Seen>, i: nat)
    requires Listing(a, shown) && Listing(b, shown) && i < |a| && i < |b|
    ensures a[i].1.last <= b[i].1.last
  {
    if a[i].1.last > b[i].1.last {
      forall k | 0 <= k <= i ensures a[k].0 in Names(b, i) {
        ComesEarlier(a, b, shown, i, k);
      }
      assert Names(a, i + 1) <= Names(b, i);
      SubsetCard(Names(a, i + 1), Names(b, i));
      NamesAreDistinct(a, i + 1);
      NamesAreDistinct(b, i);
    }
  }

  lemma ComesEarlier(a: seq<(string, Seen)>, b: seq<(string, Seen)>, shown: map<string, Seen>, i: nat, k: nat)
    requires Listing(a, shown) && Listing(b, shown) && k <= i < |a| && i < |b|
    requires a[i].1.last > b[i].1.last
    ensures a[k].0 in Names(b, i)
  {
    var j :| 0 <= j < |b| && b[j].0 == a[k].0;
    assert a[k].1 == b[j].1;
    assert a[k].1.last >= a[i].1.last;
    assert j < i;
  }

  // ---------------------------------------------------------------- non-interference

  /** Run ids tell how many runs everybody ingested; all else a viewer sees must not. */
  function Blur(runs: seq<Run>): (blurred: seq<Run>)
    ensures |blurred| == |runs|
  {
    seq(|runs|, i requires 0 <= i < |runs| => runs[i].(id := 0))
  }

  /** The part of a history that concerns a viewer: prunes, and the inserts into their orgs. */
  function Concerning(ops: seq<Op>, orgs: set<int>): seq<Op>
    decreases |ops|
  {
    if ops == [] then []
    else if ops[0].Ingest? && ops[0].org !in orgs then Concerning(ops[1..], orgs)
    else [ops[0]] + Concerning(ops[1..], orgs)
  }

  ghost predicate LooksAlike(a: Db, b: Db, orgs: set<int>) {
    && Blur(ScopedRuns(a.runs, orgs, false)) == Blur(ScopedRuns(b.runs, orgs, false))
    && (forall k: Key :: k.0 in orgs ==> Get(a.seen, k) == Get(b.seen, k))
  }

  /** Two histories with the same inserts into a viewer's orgs and the same prunes give that viewer, who is no
      instance admin, the same answers, up to run ids. */
  lemma {:induction false} OtherOrgsAreInvisible(ops: seq<Op>, ops': seq<Op>, orgs: set<int>, repo: string, limit: int)
    requires Concerning(ops, orgs) == Concerning(ops', orgs)
    ensures var a, b := Exec(EMPTY, ops), Exec(EMPTY, ops');
            && Blur(ListRuns(a, orgs, false, limit)) == Blur(ListRuns(b, orgs, false, limit))
            && Blur(RunsForRepo(a, repo, orgs, false, limit)) == Blur(RunsForRepo(b, repo, orgs, false, limit))
            && RepoVisible(a, repo, orgs, false) == RepoVisible(b, repo, orgs, false)
            && EndpointsForRepo(a, repo, orgs, false) == EndpointsForRepo(b, repo, orgs, false)
  {
    var a, b := Exec(EMPTY, ops), Exec(EMPTY, ops');
    OnlyConcerningMatters(EMPTY, EMPTY, ops, orgs);
    OnlyConcerningMatters(EMPTY, EMPTY, ops', orgs);
    var x, y := ScopedRuns(a.runs, orgs, false), ScopedRuns(b.runs, orgs, false);
    BlurredNewest(x, y, limit);
    BlurredRepo(x, y, Lower(repo));
    BlurredNewest(RepoRuns(x, Lower(repo)), RepoRuns(y, Lower(repo)), limit);
    assert |Blur(RepoRuns(x, Lower(repo)))| == |Blur(RepoRuns(y, Lower(repo)))|;
    SameScopedSeen(a.seen, b.seen, orgs);
  }

  /** Nor can the viewer see a difference in the order of the endpoints, but for ties. */
  lemma {:induction false} OtherOrgsDoNotReorder(ops: seq<Op>, ops': seq<Op>, orgs: set<int>, repo: string,
                                                 rows: seq<(string, Seen)>, rows': seq<(string, Seen)>)
    requires Concerning(ops, orgs) == Concerning(ops', orgs)
    requires Listing(rows, EndpointsForRepo(Exec(EMPTY, ops), repo, orgs, false))
    requires Listing(rows', EndpointsForRepo(Exec(EMPTY, ops'), repo, orgs, false))
    ensures |rows| == |rows'| && forall i :: 0 <= i < |rows| ==> rows[i].1.last == rows'[i].1.last
  {
    OtherOrgsAreInvisible(ops, ops', orgs, repo, DEFAULT_LIMIT);
    ListingsDifferInTies(rows, rows', EndpointsForRepo(Exec(EMPTY, ops), repo, orgs, false));
  }

  lemma SameScopedSeen(a: map<Key, Seen>, b: map<Key, Seen>, orgs: set<int>)
    requires forall k: Key :: k.0 in orgs ==> Get(a, k) == Get(b, k)
    ensures ScopedSeen(a, orgs, false) == ScopedSeen(b, orgs, false)
  {
  }

  lemma {:induction false} OnlyConcerningMatters(a: Db, b: Db, ops: seq<Op>, orgs: set<int>)
    requires LooksAlike(a, b, orgs)
    ensures LooksAlike(Exec(a, ops), Exec(b, Concerning(ops, orgs)), orgs)
    decreases |ops|
  {
    if ops != [] {
      var op := ops[0];
      if op.Ingest? && op.org !in orgs {
        ForeignInsert(a, op.org, op.env, op.now, orgs);
        OnlyConcerningMatters(Apply(a, op), b, ops[1..], orgs);
      } else {
        if op.Ingest? { OwnInsert(a, b, op.org, op.env, op.now, orgs); } else { BothPrune(a, b, op.cutoff, orgs); }
        var rest := Concerning(ops[1..], orgs);
        assert ([op] + rest)[1..] == rest;
        OnlyConcerningMatters(Apply(a, op), Apply(b, op), ops[1..], orgs);
      }
    }
  }

  lemma ForeignInsert(a: Db, org: int, env: Envelope, now: int, orgs: set<int>)
    requires org !in orgs
    ensures LooksAlike(Insert(a, org, env, now).0, a, orgs)
    ensures forall b :: LooksAlike(a, b, orgs) ==> LooksAlike(Insert(a, org, env, now).0, b, orgs)
  {
    var after := Insert(a, org, env, now).0;
    assert after.runs[..|after.runs| - 1] == a.runs;
    SightedMeaning(a.seen, org, Lower(env.repository), Endpoints(env.connections), now);
  }

  lemma OwnInsert(a: Db, b: Db, org: int, env: Envelope, now: int, orgs: set<int>)
    requires org in orgs && LooksAlike(a, b, orgs)
    ensures LooksAlike(Insert(a, org, env, now).0, Insert(b, org, env, now).0, orgs)
  {
    var repo, eps := Lower(env.repository), Endpoints(env.connections);
    var a', b' := Insert(a, org, env, now).0, Insert(b, org, env, now).0;
    FreshIsLocal(a.seen, b.seen, org, repo, eps);
    assert a'.runs[..|a'.runs| - 1] == a.runs && b'.runs[..|b'.runs| - 1] == b.runs;
    BlurAppend(ScopedRuns(a.runs, orgs, false), a'.runs[|a.runs|]);
    BlurAppend(ScopedRuns(b.runs, orgs, false), b'.runs[|b.runs|]);
    SightedMeaning(a.seen, org, repo, eps, now);
    SightedMeaning(b.seen, org, repo, eps, now);
    forall k: Key | k.0 in orgs ensures Get(a'.seen, k) == Get(b'.seen, k) {
      assert Get(a.seen, k) == Get(b.seen, k);
    }
  }

  lemma {:induction false} FreshIsLocal(a: map<Key, Seen>, b: map<Key, Seen>, org: int, repo: string, eps: seq<string>)
    requires forall e :: Get(a, (org, repo, e)) == Get(b, (org, repo, e))
    ensures Fresh(a, org, repo, eps) == Fresh(b, org, repo, eps)
  {
    if eps != [] {
      FreshIsLocal(a, b, org, repo, eps[..|eps| - 1]);
      assert Get(a, (org, repo, eps[|eps| - 1])) == Get(b, (org, repo, eps[|eps| - 1]));
    }
  }

  lemma BlurAppend(runs: seq<Run>, r: Run)
    ensures Blur(runs + [r]) == Blur(runs) + [r.(id := 0)]
  {
  }

  lemma BothPrune(a: Db, b: Db, cutoff: int, orgs: set<int>)
    requires LooksAlike(a, b, orgs)
    ensures LooksAlike(Prune(a, cutoff), Prune(b, cutoff), orgs)
  {
    ScopeThenRetain(a.runs, cutoff, orgs);
    ScopeThenRetain(b.runs, cutoff, orgs);
    BlurThenRetain(ScopedRuns(a.runs, orgs, false), cutoff);
    BlurThenRetain(ScopedRuns(b.runs, orgs, false), cutoff);
    forall k: Key | k.0 in orgs ensures Get(Prune(a, cutoff).seen, k) == Get(Prune(b, cutoff).seen, k) {
      assert Get(a.seen, k) == Get(b.seen, k);
    }
  }

  lemma {:induction false} ScopeThenRetain(runs: seq<Run>, cutoff: int, orgs: set<int>)
    ensures ScopedRuns(Retained(runs, cutoff), orgs, false) == Retained(ScopedRuns(runs, orgs, false), cutoff)
  {
    if runs != [] {
      var before, r := runs[..|runs| - 1], runs[|runs| - 1];
      ScopeThenRetain(before, cutoff, orgs);
      var kept, mine := Retained(before, cutoff), ScopedRuns(before, orgs, false);
      assert (kept + [r])[..|kept|] == kept && (mine + [r])[..|mine|] == mine;
    }
  }

  lemma {:induction false} BlurThenRetain(runs: seq<Run>, cutoff: int)
    ensures Blur(Retained(runs, cutoff)) == Retained(Blur(runs), cutoff)
  {
    if runs != [] {
      var before, r := runs[..|runs| - 1], runs[|runs| - 1];
      BlurThenRetain(before, cutoff);
      assert Blur(runs)[..|runs| - 1] == Blur(before);
      BlurAppend(Retained(before, cutoff), r);
    }
  }

  lemma {:induction false} BlurThenRepo(runs: seq<Run>, repo: string)
    ensures Blur(RepoRuns(runs, repo)) == RepoRuns(Blur(runs), repo)
  {
    if runs != [] {
      var before, r := runs[..|runs| - 1], runs[|runs| - 1];
      BlurThenRepo(before, repo);
      assert Blur(runs)[..|runs| - 1] == Blur(before);
      BlurAppend(RepoRuns(before, repo), r);
    }
  }

  lemma BlurredRepo(x: seq<Run>, y: seq<Run>, repo: string)
    requires Blur(x) == Blur(y)
    ensures Blur(RepoRuns(x, repo)) == Blur(RepoRuns(y, repo))
  {
    BlurThenRepo(x, repo);
    BlurThenRepo(y, repo);
  }

  lemma BlurredNewest(x: seq<Run>, y: seq<Run>, limit: int)
    requires Blur(x) == Blur(y)
    ensures Blur(NewestFirst(x, limit)) == Blur(NewestFirst(y, limit))
  {
    assert |x| == |Blur(x)| == |Blur(y)| == |y|;
    var a, b := NewestFirst(x, limit), NewestFirst(y, limit);
    forall i | 0 <= i < |a| ensures Blur(a)[i] == Blur(b)[i] {
      assert Blur(x)[|x| - 1 - i] == Blur(y)[|x| - 1 - i];
    }
  }

  // ---------------------------------------------------------------- what a listing of runs shows

  /** The first page of the visible runs, the newest first: 50 of them unless a positive limit is given. */
  ghost predicate IsNewestPage(out: seq<Run>, visible: set<Run>, limit: int) {
    var most := if limit <= 0 then 50 else limit;
    && |out| <= most && (forall r :: r in out ==> r in visible)
    && (forall i, j :: 0 <= i < j < |out| ==> out[i].id > out[j].id)
    && (forall r :: r in visible && r !in out ==> |out| == most && forall q :: q in out ==> q.id > r.id)
  }

  ghost predicate IdsIncrease(runs: seq<Run>) {
    forall i, j :: 0 <= i < j < |runs| ==> runs[i].id < runs[j].id
  }

  lemma {:induction false} RetainedKeepsIds(runs: seq<Run>, cutoff: int)
    requires IdsIncrease(runs)
    ensures IdsIncrease(Retained(runs, cutoff))
  {
    if runs != [] {
      RetainedKeepsIds(runs[..|runs| - 1], cutoff);
      RetainedMeaning(runs[..|runs| - 1], cutoff);
      LastIsNewest(runs, Retained(runs[..|runs| - 1], cutoff));
    }
  }

  /** Whatever was picked from the runs before the last one has smaller ids. */
  lemma LastIsNewest(runs: seq<Run>, picked: seq<Run>)
    requires runs != [] && IdsIncrease(runs) && IdsIncrease(picked)
    requires forall r :: r in picked ==> r in runs[..|runs| - 1]
    ensures IdsIncrease(picked + [runs[|runs| - 1]])
  {
    forall i | 0 <= i < |picked| ensures picked[i].id < runs[|runs| - 1].id {
      assert picked[i] in picked;
      var k :| 0 <= k < |runs| - 1 && runs[..|runs| - 1][k] == picked[i];
    }
  }

  /** Runs are stored in the order of their ids, over every history. */
  lemma {:induction false} IdsIncreaseOverEveryHistory(ops: seq<Op>)
    ensures IdsIncrease(Exec(EMPTY, ops).runs)
  {
    IdsRun(EMPTY, ops);
  }

  lemma {:induction false} IdsRun(db: Db, ops: seq<Op>)
    requires IdsIncrease(db.runs) && forall r :: r in db.runs ==> r.id < db.nextId
    ensures IdsIncrease(Exec(db, ops).runs)
    decreases |ops|
  {
    if ops != [] {
      var after := Apply(db, ops[0]);
      if ops[0].Ingest? {
        forall i | 0 <= i < |db.runs| ensures after.runs[i].id < db.nextId {
          assert after.runs[i] == db.runs[i] && db.runs[i] in db.runs;
        }
      } else {
        RetainedKeepsIds(db.runs, ops[0].cutoff);
        RetainedMeaning(db.runs, ops[0].cutoff);
      }
      IdsRun(after, ops[1..]);
    }
  }

  lemma {:induction false} ScopedKeepsIds(runs: seq<Run>, orgs: set<int>, isAdmin: bool)
    requires IdsIncrease(runs)
    ensures IdsIncrease(ScopedRuns(runs, orgs, isAdmin))
    ensures forall r :: r in ScopedRuns(runs, orgs, isAdmin) <==> r in runs && (isAdmin || r.org in orgs)
  {
    if runs != [] {
      assert runs == runs[..|runs| - 1] + [runs[|runs| - 1]];
      ScopedKeepsIds(runs[..|runs| - 1], orgs, isAdmin);
      LastIsNewest(runs, ScopedRuns(runs[..|runs| - 1], orgs, isAdmin));
    }
  }

  lemma {:induction false} RepoKeepsIds(runs: seq<Run>, repo: string)
    requires IdsIncrease(runs)
    ensures IdsIncrease(RepoRuns(runs, repo))
    ensures forall r :: r in RepoRuns(runs, repo) <==> r in runs && r.repository == repo
  {
    if runs != [] {
      assert runs == runs[..|runs| - 1] + [runs[|runs| - 1]];
      RepoKeepsIds(runs[..|runs| - 1], repo);
      LastIsNewest(runs, RepoRuns(runs[..|runs| - 1], repo));
    }
  }

  lemma PageOf(runs: seq<Run>, visible: set<Run>, limit: int)
    requires IdsIncrease(runs) && forall r :: r in visible <==> r in runs
    ensures IsNewestPage(NewestFirst(runs, limit), visible, limit)
  {
    var out := NewestFirst(runs, limit);
    forall k | |runs| - |out| <= k < |runs| ensures runs[k] in out {
      assert out[|runs| - 1 - k] == runs[k];
    }
    forall r | r in visible && r !in out
      ensures |out| == (if limit <= 0 then 50 else limit) && forall q :: q in out ==> q.id > r.id
    {
      var k :| 0 <= k < |runs| && runs[k] == r;
      assert k < |runs| - |out|;
    }
  }

  /** After any history, the listing is the newest page of exactly the runs in scope. */
  lemma {:induction false} ListRunsShowsTheNewest(ops: seq<Op>, orgs: set<int>, isAdmin: bool, limit: int)
    ensures var db := Exec(EMPTY, ops);
            IsNewestPage(ListRuns(db, orgs, isAdmin, limit),
                         (set r | r in db.runs && (isAdmin || r.org in orgs)), limit)
  {
    var db := Exec(EMPTY, ops);
    IdsIncreaseOverEveryHistory(ops);
    ScopedKeepsIds(db.runs, orgs, isAdmin);
    PageOf(ScopedRuns(db.runs, orgs, isAdmin), (set r | r in db.runs && (isAdmin || r.org in orgs)), limit);
  }

  /** And that of one repository, whatever the case of its name, the newest page of its runs in scope. */
  lemma {:induction false} RunsForRepoShowsTheNewest(ops: seq<Op>, repo: string, orgs: set<int>, isAdmin: bool,
                                                     limit: int)
    ensures var db := Exec(EMPTY, ops);
            IsNewestPage(RunsForRepo(db, repo, orgs, isAdmin, limit),
                         (set r | r in db.runs && (isAdmin || r.org in orgs) && r.repository == Lower(repo)), limit)
  {
    var db := Exec(EMPTY, ops);
    var scoped := ScopedRuns(db.runs, orgs, isAdmin);
    IdsIncreaseOverEveryHistory(ops);
    ScopedKeepsIds(db.runs, orgs, isAdmin);
    RepoKeepsIds(scoped, Lower(repo));
    PageOf(RepoRuns(scoped, Lower(repo)),
           (set r | r in db.runs && (isAdmin || r.org in orgs) && r.repository == Lower(repo)), limit);
  }

  // ---------------------------------------------------------------- gating

  /** A repository is visible to instance admins, and to a viewer one of whose orgs has a run of it. */
  lemma VisibleIff(db: Db, repo: string, orgs: set<int>, isAdmin: bool)
    ensures RepoVisible(db, repo, orgs, isAdmin) <==>
            isAdmin || exists r :: r in db.runs && r.org in orgs && r.repository == Lower(repo)
  {
    var mine := RepoRuns(ScopedRuns(db.runs, orgs, false), Lower(repo));
    if !isAdmin && |mine| > 0 {
      RepoHas(ScopedRuns(db.runs, orgs, false), Lower(repo), mine[0]);
      ScopedHas(db.runs, orgs, mine[0]);
    }
    if r :| r in db.runs && r.org in orgs && r.repository == Lower(repo) {
      ScopedHas(db.runs, orgs, r);
      RepoHas(ScopedRuns(db.runs, orgs, false), Lower(repo), r);
    }
  }

  /** After any history, with any clock, a repository the viewer may not see shows no endpoints. */
  lemma HiddenReposShowNoEndpoints(ops: seq<Op>, repo: string, orgs: set<int>)
    requires !RepoVisible(Exec(EMPTY, ops), repo, orgs, false)
    ensures EndpointsForRepo(Exec(EMPTY, ops), repo, orgs, false) == map[]
  {
    var db := Exec(EMPTY, ops);
    EveryRowEndsAtARun(ops);
    forall k | k in ScopedSeen(db.seen, orgs, false) ensures k.1 != Lower(repo) {
      assert EndsAtARun(db, k);
      var r :| r in db.runs && Mentions(r, k);
      if k.1 == Lower(repo) {
        ScopedHas(db.runs, orgs, r);
        RepoHas(ScopedRuns(db.runs, orgs, false), Lower(repo), r);
      }
    }
  }

  /** The viewer's own retained runs of a repository that contacted an endpoint. */
  function RunsBehind(db: Db, repo: string, orgs: set<int>, e: string): set<Run> {
    set r | r in db.runs && r.org in orgs && Mentions(r, (r.org, repo, e))
  }

  /** After any history whose inserts are in order of time, the endpoints a viewer sees for a repository are exactly
      those their own runs of it contacted; the last sighting shown is the latest such run, and no such run is older
      than the first. */
  lemma {:induction false} EndpointHistoryIsTheRuns(ops: seq<Op>, t: int, repo: string, orgs: set<int>, e: string)
    requires Forward(ops, t)
    ensures var db := Exec(EMPTY, ops);
            var mine, shown := RunsBehind(db, Lower(repo), orgs, e), EndpointsForRepo(db, repo, orgs, false);
            && (e in shown <==> mine != {})
            && (e in shown ==> Attained(shown[e], mine) && Bounding(shown[e], mine))
  {
    var db := Exec(EMPTY, ops);
    IndexIsExactAfterEveryHistory(ops, t);
    RunsLieWithinRows(db, Lower(repo), orgs, e);
    ShownCoversTheRuns(db, Lower(repo), orgs, e);
    EveryRowEndsAtARun(ops);
    ShownIsARun(db, Lower(repo), orgs, e);
  }

  /** The half that holds with any clock: an endpoint is shown only if a retained run of the viewer contacted it, and
      the last sighting shown is the time of such a run. */
  lemma {:induction false} ShownEndpointsWereContacted(ops: seq<Op>, repo: string, orgs: set<int>, e: string)
    ensures var db := Exec(EMPTY, ops);
            var shown := EndpointsForRepo(db, repo, orgs, false);
            e in shown ==> Attained(shown[e], RunsBehind(db, Lower(repo), orgs, e))
  {
    EveryRowEndsAtARun(ops);
    ShownIsARun(Exec(EMPTY, ops), Lower(repo), orgs, e);
  }

  lemma ShownIsARun(db: Db, repo: string, orgs: set<int>, e: string)
    requires RowsEndAtRuns(db)
    ensures var shown := Grouped(ScopedSeen(db.seen, orgs, false), repo);
            e in shown ==> Attained(shown[e], RunsBehind(db, repo, orgs, e))
  {
    var seen := ScopedSeen(db.seen, orgs, false);
    GroupedRow(seen, repo, e);
    if e in Grouped(seen, repo) {
      RowsEnd(db, repo, orgs, e);
      LastIsARun(RowsOf(seen, repo, e), RunsBehind(db, repo, orgs, e), Grouped(seen, repo)[e]);
    }
  }

  lemma ShownCoversTheRuns(db: Db, repo: string, orgs: set<int>, e: string)
    requires WithinRows(RowsOf(ScopedSeen(db.seen, orgs, false), repo, e), RunsBehind(db, repo, orgs, e))
    ensures var shown, mine := Grouped(ScopedSeen(db.seen, orgs, false), repo), RunsBehind(db, repo, orgs, e);
            && (mine != {} ==> e in shown)
            && (e in shown ==> Bounding(shown[e], mine))
  {
    var seen, mine := ScopedSeen(db.seen, orgs, false), RunsBehind(db, repo, orgs, e);
    GroupedRow(seen, repo, e);
    if mine != {} {
      var r := PickFrom(mine);
      var row :| row in RowsOf(seen, repo, e) && row.first <= r.receivedAt <= row.last;
    }
    if e in Grouped(seen, repo) {
      RunsAreWithin(RowsOf(seen, repo, e), mine, Grouped(seen, repo)[e]);
    }
  }

  /** Every run of one endpoint lies within some index row. */
  ghost predicate WithinRows(rows: set<Seen>, mine: set<Run>) {
    forall r :: r in mine ==> exists row :: row in rows && row.first <= r.receivedAt <= row.last
  }

  /** Every index row of one endpoint ends at some run. */
  ghost predicate EndAtRuns(rows: set<Seen>, mine: set<Run>) {
    forall row :: row in rows ==> exists r :: r in mine && r.receivedAt == row.last
  }

  /** The MIN and MAX of a group. */
  ghost predicate Extremes(rows: set<Seen>, g: Seen) {
    && (exists row :: row in rows && row.last == g.last)
    && (exists row :: row in rows && row.first == g.first)
    && (forall row :: row in rows ==> g.first <= row.first && row.last <= g.last)
  }

  /** The last sighting shown is the time of some run. */
  ghost predicate Attained(g: Seen, mine: set<Run>) {
    exists r :: r in mine && r.receivedAt == g.last
  }

  /** No run is outside the sightings shown. */
  ghost predicate Bounding(g: Seen, mine: set<Run>) {
    forall r :: r in mine ==> g.first <= r.receivedAt <= g.last
  }

  lemma LastIsARun(rows: set<Seen>, mine: set<Run>, g: Seen)
    requires EndAtRuns(rows, mine) && Extremes(rows, g)
    ensures Attained(g, mine)
  {
  }

  lemma RunsAreWithin(rows: set<Seen>, mine: set<Run>, g: Seen)
    requires WithinRows(rows, mine) && Extremes(rows, g)
    ensures Bounding(g, mine)
  {
  }

  lemma RunsLieWithinRows(db: Db, repo: string, orgs: set<int>, e: string)
    requires IndexIsExact(db)
    ensures WithinRows(RowsOf(ScopedSeen(db.seen, orgs, false), repo, e), RunsBehind(db, repo, orgs, e))
  {
    var seen := ScopedSeen(db.seen, orgs, false);
    var rows := RowsOf(seen, repo, e);
    forall r | r in RunsBehind(db, repo, orgs, e)
      ensures exists row :: row in rows && row.first <= r.receivedAt <= row.last
    {
      var k: Key := (r.org, repo, e);
      assert RowIsExact(db, k) && k in seen;
      assert seen[k] in rows;
    }
  }

  lemma RowsEnd(db: Db, repo: string, orgs: set<int>, e: string)
    requires RowsEndAtRuns(db)
    ensures EndAtRuns(RowsOf(ScopedSeen(db.seen, orgs, false), repo, e), RunsBehind(db, repo, orgs, e))
  {
    var seen := ScopedSeen(db.seen, orgs, false);
    var mine := RunsBehind(db, repo, orgs, e);
    forall row | row in RowsOf(seen, repo, e) ensures exists r :: r in mine && r.receivedAt == row.last {
      var k: Key :| k in seen && k.1 == repo && k.2 == e && seen[k] == row;
      assert EndsAtARun(db, k);
      var r :| r in db.runs && Mentions(r, k) && r.receivedAt == db.seen[k].last;
      assert r in mine;
    }
  }

  /** An endpoint seen in several orgs is shown once, with the earliest first and the latest last sighting. */
  lemma GroupedRow(seen: map<Key, Seen>, repo: string, e: string)
    ensures var rows := RowsOf(seen, repo, e);
            && (e in Grouped(seen, repo) <==> rows != {})
            && (rows != {} ==> Extremes(rows, Grouped(seen, repo)[e]))
  {
    var rows := RowsOf(seen, repo, e);
    if rows != {} {
      var row := PickFrom(rows);
      var k: Key :| k in seen && k.1 == repo && k.2 == e && seen[k] == row;
      assert k.2 in (set k | k in seen && k.1 == repo :: k.2);
      var firsts, lasts := set r | r in rows :: -r.first, set r | r in rows :: r.last;
      assert row.last in lasts && -row.first in firsts;
      forall r | r in rows ensures -Greatest(firsts) <= r.first && r.last <= Greatest(lasts) {
        assert r.last in lasts && -r.first in firsts;
      }
    }
  }

  lemma {:induction false} ScopedHas(runs: seq<Run>, orgs: set<int>, r: Run)
    ensures r in ScopedRuns(runs, orgs, false) <==> r in runs && r.org in orgs
  {
    if runs != [] {
      assert runs == runs[..|runs| - 1] + [runs[|runs| - 1]];
      ScopedHas(runs[..|runs| - 1], orgs, r);
    }
  }

  lemma {:induction false} RepoHas(runs: seq<Run>, repo: string, r: Run)
    ensures r in RepoRuns(runs, repo) <==> r in runs && r.repository == repo
  {
    if runs != [] {
      assert runs == runs[..|runs| - 1] + [runs[|runs| - 1]];
      RepoHas(runs[..|runs| - 1], repo, r);
    }
  }
}
