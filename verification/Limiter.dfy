/** The fixed-window failure limiter (internal/server/ratelimit.go). Times are integers on one clock. */
module Limiter {
  import opened Common

  const PRUNE_ABOVE := 10000

  datatype Bucket = Bucket(count: nat, resetAt: int)
  type Buckets = map<string, Bucket>

  datatype Op =
    | Reserve(key: string, now: int)
    | Blocked(key: string, now: int)
    | Fail(key: string, now: int)
    | Release(key: string)
    | Reset(key: string)

  /** The bucket that still counts at `now`: a lapsed one does not. */
  function Live(bs: Buckets, key: string, now: int): Option<Bucket> {
    if key in bs && now <= bs[key].resetAt then Some(bs[key]) else None
  }

  function Pruned(bs: Buckets, now: int): (kept: Buckets)
    ensures forall k, t :: t >= now ==> Live(kept, k, t) == Live(bs, k, t)
  {
    map k | k in bs && now <= bs[k].resetAt :: bs[k]
  }

  function LiveOrFresh(bs: Buckets, key: string, now: int, window: nat): Bucket {
    Live(bs, key, now).GetOr(Bucket(0, now + window))
  }

  /** One locked call: the buckets after it and its answer, if it gives one. `prune` says whether this call
      drops lapsed buckets first (only `Reserve` and `Fail` ever do). */
  function Apply(max: nat, window: nat, bs: Buckets, op: Op, prune: bool): (Buckets, Option<bool>) {
    match op
    case Reserve(key, now) =>
      var kept := if prune then Pruned(bs, now) else bs;
      var b := LiveOrFresh(kept, key, now, window);
      if b.count >= max then (kept[key := b], Some(false)) else (kept[key := b.(count := b.count + 1)], Some(true))
    case Blocked(key, now) =>
      var b := Live(bs, key, now);
      (bs, Some(b.Some? && b.value.count >= max))
    case Fail(key, now) =>
      var kept := if prune then Pruned(bs, now) else bs;
      var b := LiveOrFresh(kept, key, now, window);
      (kept[key := b.(count := b.count + 1)], None)
    case Release(key) =>
      if key in bs && bs[key].count > 0 then (bs[key := bs[key].(count := bs[key].count - 1)], None) else (bs, None)
    case Reset(key) => (bs - {key}, None)
  }

  class FailLimiter {
    const max: nat
    const window: nat
    var buckets: Buckets

    constructor (max: nat, window: nat)
      ensures this.max == max && this.window == window && buckets == map[]
    {
      this.max, this.window, buckets := max, window, map[];
    }

    method IsBlocked(key: string, now: int) returns (blocked: bool)
      ensures blocked <==> key in buckets && now <= buckets[key].resetAt && buckets[key].count >= max
      ensures (buckets, Some(blocked)) == Apply(max, window, buckets, Blocked(key, now), false)
    {
      if key !in buckets || now > buckets[key].resetAt {
        return false;
      }
      return buckets[key].count >= max;
    }

    method RecordFail(key: string, now: int)
      modifies this`buckets
      ensures key in buckets && buckets[key].count == LiveOrFresh(old(buckets), key, now, window).count + 1
      ensures buckets == Apply(max, window, old(buckets), Fail(key, now), |old(buckets)| > 10_000).0
    {
      if |buckets| > PRUNE_ABOVE {
        PruneLocked(now);
      }
      var b := Bucket(0, now + window);
      if key in buckets && now <= buckets[key].resetAt {
        b := buckets[key];
      }
      buckets := buckets[key := b.(count := b.count + 1)];
    }

    /** Checks the ceiling and counts the attempt in one go. */
    method TryReserve(key: string, now: int) returns (granted: bool)
      modifies this`buckets
      ensures granted <==> LiveOrFresh(old(buckets), key, now, window).count < max
      ensures Live(buckets, key, now) ==
        Some(var b := LiveOrFresh(old(buckets), key, now, window); if granted then b.(count := b.count + 1) else b)
      ensures forall k :: k != key ==> Live(buckets, k, now) == Live(old(buckets), k, now)
      ensures (buckets, Some(granted)) ==
        Apply(max, window, old(buckets), Reserve(key, now), |old(buckets)| > 10_000)
    {
      if |buckets| > PRUNE_ABOVE {
        PruneLocked(now);
      }
      var b := Bucket(0, now + window);
      if key in buckets && now <= buckets[key].resetAt {
        b := buckets[key];
      }
      if b.count >= max {
        buckets := buckets[key := b];
        return false;
      }
      buckets := buckets[key := b.(count := b.count + 1)];
      return true;
    }

    method GiveBack(key: string)
      modifies this`buckets
      ensures forall k :: k != key ==> Get(buckets, k) == Get(old(buckets), k)
      ensures buckets == Apply(max, window, old(buckets), Release(key), false).0
    {
      if key in buckets && buckets[key].count > 0 {
        buckets := buckets[key := buckets[key].(count := buckets[key].count - 1)];
      }
    }

    method Clear(key: string)
      modifies this`buckets
      ensures forall k :: Get(buckets, k) == (if k == key then None else Get(old(buckets), k))
      ensures buckets == Apply(max, window, old(buckets), Reset(key), false).0
    {
      buckets := buckets - {key};
    }

    method PruneLocked(now: int)
      modifies this`buckets
      ensures buckets == Pruned(old(buckets), now)
    {
      var todo := buckets.Keys;
      while todo != {}
        invariant todo <= buckets.Keys <= old(buckets).Keys
        invariant forall k :: k in buckets ==> buckets[k] == old(buckets)[k]
        invariant forall k :: k in old(buckets) && k !in todo ==> (k in buckets <==> now <= old(buckets)[k].resetAt)
        decreases |todo|
      {
        var k :| k in todo;
        todo := todo - {k};
        if now > buckets[k].resetAt {
          buckets := buckets - {k};
        }
      }
    }
  }

  // ---------------------------------------------------------------- pruning is invisible

  /** The answers to a run of calls, pruning exactly when the schedule says so. */
  function Answers(max: nat, window: nat, bs: Buckets, ops: seq<Op>, prunes: seq<bool>): seq<Option<bool>>
    requires |prunes| == |ops|
    decreases |ops|
  {
    if ops == [] then []
    else
      var (after, answer) := Apply(max, window, bs, ops[0], prunes[0]);
      [answer] + Answers(max, window, after, ops[1..], prunes[1..])
  }

  function Never(n: nat): seq<bool> {
    seq(n, _ => false)
  }

  /** When the limiter itself prunes: whenever it holds more than 10000 buckets. */
  function OwnSchedule(max: nat, window: nat, bs: Buckets, ops: seq<Op>): (prunes: seq<bool>)
    ensures |prunes| == |ops|
    decreases |ops|
  {
    if ops == [] then []
    else
      var prune := |bs| > PRUNE_ABOVE;
      [prune] + OwnSchedule(max, window, Apply(max, window, bs, ops[0], prune).0, ops[1..])
  }

  predicate Timed(op: Op) {
    op.Reserve? || op.Blocked? || op.Fail?
  }

  /** The calls that carry a time carry one that never goes back, and starts no earlier than `t`. */
  predicate Forward(ops: seq<Op>, t: int)
    decreases |ops|
  {
    ops == [] || (if Timed(ops[0]) then t <= ops[0].now && Forward(ops[1..], ops[0].now) else Forward(ops[1..], t))
  }

  ghost predicate Agree(a: Buckets, b: Buckets, t: int) {
    forall k :: Live(a, k, t) == Live(b, k, t)
  }

  /** Any two pruning schedules, whatever moments they pick, give every call the same answer. */
  lemma {:induction false} PruningIsInvisible(max: nat, window: nat, a: Buckets, b: Buckets, ops: seq<Op>,
                                              p: seq<bool>, q: seq<bool>, t: int)
    requires |p| == |ops| == |q| && Forward(ops, t) && Agree(a, b, t)
    ensures Answers(max, window, a, ops, p) == Answers(max, window, b, ops, q)
    decreases |ops|
  {
    if ops != [] {
      var op := ops[0];
      var now := if Timed(op) then op.now else t;
      StepAgrees(max, window, a, b, op, p[0], q[0], t);
      var a1, b1 := Apply(max, window, a, op, p[0]), Apply(max, window, b, op, q[0]);
      PruningIsInvisible(max, window, a1.0, b1.0, ops[1..], p[1..], q[1..], now);
    }
  }

  lemma StepAgrees(max: nat, window: nat, a: Buckets, b: Buckets, op: Op, p: bool, q: bool, t: int)
    requires Agree(a, b, t) && (Timed(op) ==> t <= op.now)
    ensures Apply(max, window, a, op, p).1 == Apply(max, window, b, op, q).1
    ensures Agree(Apply(max, window, a, op, p).0, Apply(max, window, b, op, q).0, if Timed(op) then op.now else t)
  {
    var now := if Timed(op) then op.now else t;
    assert Agree(a, b, now) by {
      forall k ensures Live(a, k, now) == Live(b, k, now) {
        assert Live(a, k, t) == Live(b, k, t);
      }
    }
    var a1, b1 := Apply(max, window, a, op, p).0, Apply(max, window, b, op, q).0;
    forall k ensures Live(a1, k, now) == Live(b1, k, now) {
      assert Live(a, k, now) == Live(b, k, now);
      assert Live(a, op.key, now) == Live(b, op.key, now);
    }
  }

  /** The limiter answers exactly as one that never forgets a bucket. */
  lemma OwnPruningIsInvisible(max: nat, window: nat, ops: seq<Op>, t: int)
    requires Forward(ops, t)
    ensures Answers(max, window, map[], ops, OwnSchedule(max, window, map[], ops)) ==
            Answers(max, window, map[], ops, Never(|ops|))
  {
    PruningIsInvisible(max, window, map[], map[], ops, OwnSchedule(max, window, map[], ops), Never(|ops|), t);
  }

  /** A prune can be told apart exactly by a time before it at which a dropped bucket had not lapsed yet. */
  lemma PruningShowsIff(bs: Buckets, now: int, key: string, t: int)
    ensures Live(Pruned(bs, now), key, t) != Live(bs, key, t) <==> key in bs && t <= bs[key].resetAt < now
  {
  }

  /** A call right after a prune answers differently exactly if its time is such a time and the dropped bucket was
      full: the pruned limiter lets in what the other refuses. */
  lemma PrunedAnswersDifferIff(max: nat, window: nat, bs: Buckets, now: int, op: Op)
    requires op.Reserve? || op.Blocked?
    ensures Apply(max, window, Pruned(bs, now), op, false).1 != Apply(max, window, bs, op, false).1 <==>
            && op.key in bs && op.now <= bs[op.key].resetAt < now && bs[op.key].count >= max
            && (op.Reserve? ==> max > 0)
  {
    PruningShowsIff(bs, now, op.key, op.now);
  }

  /** The clock must not go back: with times out of order, pruning can be told apart. */
  lemma OutOfOrderTimesShowPruning()
    ensures var ops := [Reserve("a", 0), Reserve("b", 11), Reserve("a", 5)];
            Answers(1, 10, map[], ops, [false, true, false]) != Answers(1, 10, map[], ops, [false, false, false])
  {
    var ops := [Reserve("a", 0), Reserve("b", 11), Reserve("a", 5)];
    var b1: Buckets := map["a" := Bucket(1, 10)];
    assert ops[1..] == [Reserve("b", 11), Reserve("a", 5)] && ops[1..][1..] == [Reserve("a", 5)];
    assert Apply(1, 10, map[], ops[0], false) == (b1, Some(true));
    assert Pruned(b1, 11) == map[];
    ThirdAnswer(ops, true);
    ThirdAnswer(ops, false);
  }

  lemma ThirdAnswer(ops: seq<Op>, prune: bool)
    requires ops == [Reserve("a", 0), Reserve("b", 11), Reserve("a", 5)]
    ensures Answers(1, 10, map[], ops, [false, prune, false]) == [Some(true), Some(true), Some(prune)]
  {
    var b1: Buckets := map["a" := Bucket(1, 10)];
    var b2: Buckets := if prune then map["b" := Bucket(1, 21)] else map["a" := Bucket(1, 10), "b" := Bucket(1, 21)];
    assert Apply(1, 10, map[], ops[0], false) == (b1, Some(true));
    assert Pruned(b1, 11) == map[];
    assert Apply(1, 10, b1, ops[1], prune) == (b2, Some(true));
    assert Apply(1, 10, b2, ops[2], false).1 == Some(prune);
    assert Answers(1, 10, b2, ops[2..], [false]) == [Some(prune)];
    assert ops[1..][1..] == ops[2..] && [prune, false][1..] == [false];
    assert Answers(1, 10, b1, ops[1..], [prune, false]) == [Some(true), Some(prune)];
    assert [false, prune, false][1..] == [prune, false];
  }

  // ---------------------------------------------------------------- accounting

  /** What happened to one key since its bucket was opened: attempts granted, and releases that took effect. */
  datatype Tally = Tally(grants: nat, releases: nat)

  function Count(max: nat, window: nat, bs: Buckets, key: string, tally: Tally, op: Op, prune: bool): Tally {
    if op.key != key then tally
    else
      match op
      case Reserve(_, now) =>
        var base := if Live(bs, key, now) == None then Tally(0, 0) else tally;
        if Apply(max, window, bs, op, prune).1 == Some(true) then base.(grants := base.grants + 1) else base
      case Release(_) => if key in bs && bs[key].count > 0 then tally.(releases := tally.releases + 1) else tally
      case Reset(_) => Tally(0, 0)
      case _ => tally
  }

  function Ledger(max: nat, window: nat, bs: Buckets, key: string, tally: Tally, ops: seq<Op>, prunes: seq<bool>)
    : (Buckets, Tally)
    requires |prunes| == |ops|
    decreases |ops|
  {
    if ops == [] then (bs, tally)
    else Ledger(max, window, Apply(max, window, bs, ops[0], prunes[0]).0, key,
                Count(max, window, bs, key, tally, ops[0], prunes[0]), ops[1..], prunes[1..])
  }

  predicate Balanced(max: nat, bs: Buckets, key: string, tally: Tally) {
    key in bs ==> bs[key].count <= max && bs[key].count + tally.releases == tally.grants
  }

  /** With reserve, release and reset only, a count stays within 0 and max, and every attempt granted since
      the bucket opened is either still counted or was released. So a bucket grants more than its ceiling exactly
      if more releases took effect on it than it has room left. */
  lemma {:induction false} GrantsAreAccountedFor(max: nat, window: nat, bs: Buckets, key: string, tally: Tally,
                                                 ops: seq<Op>, prunes: seq<bool>)
    requires |prunes| == |ops| && Balanced(max, bs, key, tally)
    requires forall i :: 0 <= i < |ops| ==> !ops[i].Fail?
    ensures var (after, t) := Ledger(max, window, bs, key, tally, ops, prunes);
            && Balanced(max, after, key, t)
            && (key in after ==> (t.grants > max <==> t.releases > max - after[key].count))
    decreases |ops|
  {
    if ops != [] {
      var op, after := ops[0], Apply(max, window, bs, ops[0], prunes[0]).0;
      assert !op.Fail?;
      var next := Count(max, window, bs, key, tally, op, prunes[0]);
      GrantsAreAccountedFor(max, window, after, key, next, ops[1..], prunes[1..]);
    }
  }

  /** A release does not know its window: one granted in the window before refunds the new window, and two
      attempts go through in a window whose ceiling is one. */
  lemma StaleReleaseRefundsTheNextWindow(key: string)
    ensures var ops := [Reserve(key, 0), Reserve(key, 11), Release(key), Reserve(key, 12)];
            && Answers(1, 10, map[], ops, Never(4)) == [Some(true), Some(true), None, Some(true)]
            && Ledger(1, 10, map[], key, Tally(0, 0), ops, Never(4)) == (map[key := Bucket(1, 21)], Tally(2, 1))
  {
    var ops := [Reserve(key, 0), Reserve(key, 11), Release(key), Reserve(key, 12)];
    var b1: Buckets := map[key := Bucket(1, 10)];
    var b2: Buckets := map[key := Bucket(1, 21)];
    var b3: Buckets := map[key := Bucket(0, 21)];
    assert b1[key := Bucket(1, 21)] == b2 && b2[key := Bucket(0, 21)] == b3 && b3[key := Bucket(1, 21)] == b2;
    assert Apply(1, 10, map[], ops[0], false) == (b1, Some(true));
    assert Apply(1, 10, b1, ops[1], false) == (b2, Some(true));
    assert Apply(1, 10, b2, ops[2], false) == (b3, None);
    assert Apply(1, 10, b3, ops[3], false) == (b2, Some(true));
    assert Never(4)[1..] == Never(3) && Never(3)[1..] == Never(2);
    assert Never(2)[1..] == Never(1) && Never(1)[1..] == Never(0);
    assert ops[1..][1..] == ops[2..] && ops[2..][1..] == ops[3..];
    assert Answers(1, 10, b3, ops[3..], Never(1)) == [Some(true)];
    assert Answers(1, 10, b2, ops[2..], Never(2)) == [None, Some(true)];
    assert Answers(1, 10, b1, ops[1..], Never(3)) == [Some(true), None, Some(true)];
    assert Ledger(1, 10, b3, key, Tally(1, 1), ops[3..], Never(1)) == (b2, Tally(2, 1));
    assert Ledger(1, 10, b2, key, Tally(1, 0), ops[2..], Never(2)) == (b2, Tally(2, 1));
    assert Ledger(1, 10, b1, key, Tally(1, 0), ops[1..], Never(3)) == (b2, Tally(2, 1));
  }
}
