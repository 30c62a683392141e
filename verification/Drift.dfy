/** Ingested runs and the per-repository endpoint index kept beside them (internal/store/store.go).
    Times are the whole seconds the store writes. */
module Drift {
  import opened Common

  datatype Connection = Connection(domain: string, daddr: string)
  {
    /** The identity used for drift: the domain if known, else the address. */
    function Endpoint(): string {
      if domain != "" then domain else daddr
    }
  }

  /** `meta` stands for the summary columns no rule looks at. */
  datatype Envelope = Envelope(repository: string, connections: seq<Connection>, meta: string)

  datatype Run = Run(id: int, receivedAt: int, org: int, repository: string, connections: seq<Connection>,
                     meta: string, newEndpoints: nat)

  /** Primary key of the index: org, repository, endpoint. */
  type Key = (int, string, string)

  datatype Seen = Seen(first: int, last: int)

  /** `runs` is in insertion order, which is the order of ids. */
  datatype Db = Db(runs: seq<Run>, seen: map<Key, Seen>, nextId: int)

  const EMPTY := Db([], map[], 1)

  function Endpoints(cs: seq<Connection>): (eps: seq<string>)
    ensures |eps| == |cs|
  {
    seq(|cs|, i requires 0 <= i < |cs| => cs[i].Endpoint())
  }

  /** The non-empty endpoints of a session that the index does not hold yet, in order of first occurrence. */
  function Fresh(seen: map<Key, Seen>, org: int, repo: string, eps: seq<string>): seq<string> {
    if eps == [] then []
    else
      var before, e := eps[..|eps| - 1], eps[|eps| - 1];
      var news := Fresh(seen, org, repo, before);
      if e == "" || e in before || (org, repo, e) in seen then news else news + [e]
  }

  /** The index after a session was sighted at `now`. */
  function Sighted(seen: map<Key, Seen>, org: int, repo: string, eps: seq<string>, now: int): map<Key, Seen> {
    if eps == [] then seen
    else
      var before := Sighted(seen, org, repo, eps[..|eps| - 1], now);
      var e := eps[|eps| - 1];
      if e == "" then before
      else before[(org, repo, e) := Seen(if (org, repo, e) in seen then seen[(org, repo, e)].first else now, now)]
  }

  function Insert(db: Db, org: int, env: Envelope, now: int): (Db, seq<string>) {
    var repo := Lower(env.repository);
    var news := Fresh(db.seen, org, repo, Endpoints(env.connections));
    (Db(db.runs + [Run(db.nextId, now, org, repo, env.connections, env.meta, |news|)],
        Sighted(db.seen, org, repo, Endpoints(env.connections), now),
        db.nextId + 1),
     news)
  }

  function Retained(runs: seq<Run>, cutoff: int): seq<Run> {
    if runs == [] then []
    else
      var rest := Retained(runs[..|runs| - 1], cutoff);
      if runs[|runs| - 1].receivedAt < cutoff then rest else rest + [runs[|runs| - 1]]
  }

  function Prune(db: Db, cutoff: int): Db {
    db.(runs := Retained(db.runs, cutoff), seen := map k | k in db.seen && db.seen[k].last >= cutoff :: db.seen[k])
  }

  // ---------------------------------------------------------------- what Fresh and Sighted mean

  /** Position of the first occurrence. */
  function FirstAt(eps: seq<string>, e: string): (i: nat)
    requires e in eps
    ensures i < |eps| && eps[i] == e && e !in eps[..i]
  {
    if e in eps[..|eps| - 1] then FirstAt(eps[..|eps| - 1], e) else |eps| - 1
  }

  /** Exactly the sighted, non-empty endpoints the index lacks; each once; in order of first occurrence. */
  lemma {:induction false} FreshMeaning(seen: map<Key, Seen>, org: int, repo: string, eps: seq<string>)
    ensures var news := Fresh(seen, org, repo, eps);
            && (forall e :: e in news <==> e in eps && e != "" && (org, repo, e) !in seen)
            && (forall i, j :: 0 <= i < j < |news| ==> FirstAt(eps, news[i]) < FirstAt(eps, news[j]))
  {
    if eps != [] {
      var before, e := eps[..|eps| - 1], eps[|eps| - 1];
      FreshMeaning(seen, org, repo, before);
      assert eps == before + [e];
    }
  }

  lemma {:induction false} SightedMeaning(seen: map<Key, Seen>, org: int, repo: string, eps: seq<string>, now: int)
    ensures var after := Sighted(seen, org, repo, eps, now);
            forall k: Key :: Get(after, k) ==
              (if k.0 == org && k.1 == repo && k.2 != "" && k.2 in eps
               then Some(Seen(if k in seen then seen[k].first else now, now)) else Get(seen, k))
  {
    if eps != [] {
      assert eps == eps[..|eps| - 1] + [eps[|eps| - 1]];
      SightedMeaning(seen, org, repo, eps[..|eps| - 1], now);
    }
  }

  /** One more endpoint: nothing happens if it is empty or was sighted in this session; otherwise its row is as it was
      before the session, and is sighted now. */
  lemma {:induction false} NextSighting(seen: map<Key, Seen>, org: int, repo: string, eps: seq<string>, e: string,
                                        now: int)
    ensures var before, after := Sighted(seen, org, repo, eps, now), Sighted(seen, org, repo, eps + [e], now);
            var k := (org, repo, e);
            if e == "" || e in eps then after == before
            else && Get(before, k) == Get(seen, k)
                 && after == before[k := Seen(if k in seen then seen[k].first else now, now)]
    ensures var news := Fresh(seen, org, repo, eps);
            Fresh(seen, org, repo, eps + [e]) ==
            if e == "" || e in eps || (org, repo, e) in seen then news else news + [e]
  {
    assert (eps + [e])[..|eps|] == eps;
    SightedMeaning(seen, org, repo, eps, now);
    var before := Sighted(seen, org, repo, eps, now);
    assert Get(before, (org, repo, e)) ==
           if e != "" && e in eps
           then Some(Seen(if (org, repo, e) in seen then seen[(org, repo, e)].first else now, now))
           else Get(seen, (org, repo, e));
  }

  lemma {:induction false} RetainedMeaning(runs: seq<Run>, cutoff: int)
    ensures forall r :: r in Retained(runs, cutoff) <==> r in runs && r.receivedAt >= cutoff
  {
    if runs != [] {
      assert runs == runs[..|runs| - 1] + [runs[|runs| - 1]];
      RetainedMeaning(runs[..|runs| - 1], cutoff);
    }
  }

  // ---------------------------------------------------------------- the store

  class DriftStore {
    var runs: seq<Run>
    var seen: map<Key, Seen>
    var nextId: int

    function Content(): Db
      reads this
    {
      Db(runs, seen, nextId)
    }

    constructor ()
      ensures Content() == EMPTY
    {
      runs, seen, nextId := [], map[], 1;
    }

    /** One transaction: store the run, sight each distinct endpoint once, record how many were new. */
    method InsertEnvelope(env: Envelope, org: int, now: int) returns (id: int, newEndpoints: seq<string>)
      modifies this
      ensures id == old(nextId)
      ensures (Content(), newEndpoints) == Insert(old(Content()), org, env, now)
    {
      var repo := Lower(env.repository);
      id := nextId;
      nextId := nextId + 1;
      var row := Run(id, now, org, repo, env.connections, env.meta, 0);
      newEndpoints := [];
      var done: set<string> := {};
      ghost var eps := Endpoints(env.connections);
      for i := 0 to |env.connections|
        invariant nextId == id + 1 && runs == old(runs)
        invariant forall e :: e in done <==> e != "" && e in eps[..i]
        invariant newEndpoints == Fresh(old(seen), org, repo, eps[..i])
        invariant seen == Sighted(old(seen), org, repo, eps[..i], now)
      {
        var ep := env.connections[i].Endpoint();
        assert eps[..i + 1] == eps[..i] + [ep];
        NextSighting(old(seen), org, repo, eps[..i], ep, now);
        if ep == "" || ep in done {
          continue;
        }
        done := done + {ep};
        var isNew := UpsertEndpoint(org, repo, ep, now);
        if isNew {
          newEndpoints := newEndpoints + [ep];
        }
      }
      assert eps[..|eps|] == eps;
      runs := runs + [row.(newEndpoints := |newEndpoints|)];
    }

    method UpsertEndpoint(org: int, repo: string, endpoint: string, now: int) returns (isNew: bool)
      modifies this`seen
      ensures isNew <==> (org, repo, endpoint) !in old(seen)
      ensures var k := (org, repo, endpoint);
              seen == old(seen)[k := Seen(if isNew then now else old(seen)[k].first, now)]
    {
      var k := (org, repo, endpoint);
      isNew := k !in seen;
      if isNew {
        seen := seen[k := Seen(now, now)];
      } else {
        seen := seen[k := seen[k].(last := now)];
      }
    }

    /** Retention: drops old runs, and index rows by their own last sighting, without looking at the runs. */
    method PruneRunsBefore(cutoff: int) returns (removed: int)
      modifies this
      ensures Content() == Prune(old(Content()), cutoff)
      ensures removed == |old(runs)| - |runs|
    {
      var kept: seq<Run> := [];
      for i := 0 to |runs|
        invariant runs == old(runs) && seen == old(seen) && nextId == old(nextId)
        invariant kept == Retained(runs[..i], cutoff)
      {
        assert runs[..i + 1][..i] == runs[..i];
        if runs[i].receivedAt >= cutoff {
          kept := kept + [runs[i]];
        }
      }
      assert runs[..|runs|] == runs;
      removed := |runs| - |kept|;
      runs := kept;
      seen := map k | k in seen && seen[k].last >= cutoff :: seen[k];
    }
  }
}
