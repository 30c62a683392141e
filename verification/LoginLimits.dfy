/** How many attempts one login key gets in one window, and what a single login does. */
module LoginLimits {
  import opened Common
  import opened Login
  import L = Limiter

  /** Does a request at this point hold one of its key's attempts? A busy answer gives it back. */
  predicate Charges(pc: Pc) {
    match pc
    case Arrived => false
    case Won(_, _) => false
    case Ended(how) => how == Answered
    case _ => true
  }

  /** The requests of a key at some moment: those that are over already (refused, busy, answered, or logged in), and
      those that have reserved an attempt and are in flight. */
  datatype Before = Before(over: set<int>, flight: set<int>)
  {
    predicate Has(id: int) {
      id in over || id in flight
    }
  }

  predicate IsOver(s: State, key: string, id: int) {
    id in s.reqs && s.reqs[id].key == Some(key) && (s.reqs[id].pc.Ended? || s.reqs[id].pc.Won?)
  }

  predicate InFlight(s: State, key: string, id: int) {
    id in s.reqs && s.reqs[id].key == Some(key) && !IsOver(s, key, id) && !s.reqs[id].pc.Arrived?
  }

  function Earlier(s: State, key: string): Before {
    Before(set id | id in s.reqs && IsOver(s, key, id), set id | id in s.reqs && InFlight(s, key, id))
  }

  /** Does request `x`, not one from before, hold an attempt of `key`? */
  predicate IsCharged(s: State, key: string, b: Before, x: Option<int>) {
    && x.Some? && !b.Has(x.value) && x.value in s.reqs
    && s.reqs[x.value].key == Some(key) && Charges(s.reqs[x.value].pc)
  }

  function Charged(s: State, key: string, b: Before): (ids: set<int>)
    ensures forall id :: id in ids <==> IsCharged(s, key, b, Some(id))
  {
    set id | id in s.reqs && IsCharged(s, key, b, Some(id))
  }

  /** Was request `x` in flight before, and has it ended busy since? Then it gave back an attempt it had reserved in
      an earlier bucket. */
  predicate IsRefunded(s: State, b: Before, x: Option<int>) {
    x.Some? && x.value in b.flight && x.value in s.reqs && s.reqs[x.value].pc == Ended(Busy)
  }

  function Refunded(s: State, b: Before): (ids: set<int>)
    ensures forall id :: id in ids <==> IsRefunded(s, b, Some(id))
  {
    set id | id in b.flight && IsRefunded(s, b, Some(id))
  }

  /** The attempts, those from before aside, that reached an answer about the password (or an internal error) without
      logging in. */
  function AnsweredFor(s: State, key: string, b: Before): set<int> {
    set id | id in s.reqs && !b.Has(id) && s.reqs[id] == Request(Some(key), Ended(Answered))
  }

  function LiveCount(s: State, key: string): nat {
    var b := L.Live(s.buckets, key, s.clock);
    if b == None then 0 else b.value.count
  }

  /** Did somebody log in under `key`, other than the requests that were over before? */
  predicate HasWinner(s: State, key: string, b: Before) {
    exists id :: id in s.reqs && s.reqs[id].key == Some(key) && s.reqs[id].pc.Won? && id !in b.over
  }

  /** What was over before stays over, and what was in flight does not start again. */
  ghost predicate Remains(s: State, key: string, b: Before) {
    && (forall id :: id in b.over ==> IsOver(s, key, id))
    && (forall id :: id in b.flight ==> id in s.reqs && s.reqs[id].key == Some(key) && !s.reqs[id].pc.Arrived?)
  }

  ghost predicate LastsUntil(s: State, key: string, deadline: int) {
    var b := L.Live(s.buckets, key, s.clock);
    b.Some? ==> b.value.resetAt >= deadline
  }

  /** What is charged since is what the bucket counts, short of what requests from before have refunded. */
  ghost predicate CountInv(s: State, key: string, b: Before, deadline: int) {
    && Remains(s, key, b) && LastsUntil(s, key, deadline)
    && LiveCount(s, key) <= |Charged(s, key, b)| <= LiveCount(s, key) + |Refunded(s, b)|
    && LiveCount(s, key) <= MAX_ATTEMPTS
  }

  /** From any moment at which `key` has no live bucket, whatever failed, logged in or is still in flight from before,
      for one window and until somebody logs in: at most five attempts reach an answer, plus one for each earlier
      attempt that ends busy only now; so, the earlier ones included, at most five plus those in flight. If none was
      in flight, the count is exactly the attempts in flight plus the attempts answered since, and busy ones are
      free. */
  lemma AtMostFiveAnswers(s: State, events: seq<Event>, key: string)
    requires L.Live(s.buckets, key, s.clock) == None
    requires Exec(s, events).clock <= s.clock + 15 * 60 * 1_000_000_000
    requires !HasWinner(Exec(s, events), key, Earlier(s, key))
    ensures var t, b := Exec(s, events), Earlier(s, key);
            && LiveCount(t, key) <= |Charged(t, key, b)| <= LiveCount(t, key) + |Refunded(t, b)|
            && (b.flight == {} ==> LiveCount(t, key) == |Charged(t, key, b)|)
            && |AnsweredFor(t, key, b)| <= 5 + |Refunded(t, b)|
            && |AnsweredFor(t, key, Before(b.over, {}))| <= 5 + |b.flight|
  {
    var t, b := Exec(s, events), Earlier(s, key);
    assert Charged(s, key, b) == {};
    CountRun(s, events, key, b, s.clock + WINDOW);
    SubsetCard(AnsweredFor(t, key, b), Charged(t, key, b));
    SubsetCard(Refunded(t, b), b.flight);
    AnswersFromBefore(t, key, b);
  }

  /** An attempt in flight before is answered or ends busy, not both. */
  lemma AnswersFromBefore(t: State, key: string, b: Before)
    ensures |AnsweredFor(t, key, Before(b.over, {}))| + |Refunded(t, b)| <= |AnsweredFor(t, key, b)| + |b.flight|
  {
    var all, since := AnsweredFor(t, key, Before(b.over, {})), AnsweredFor(t, key, b);
    var answered := set id | id in b.flight && id in all;
    SubsetCard(all, since + answered);
    assert |since + answered| <= |since| + |answered|;
    SubsetCard(answered + Refunded(t, b), b.flight);
    assert answered !! Refunded(t, b);
  }

  lemma {:induction false} CountRun(s: State, events: seq<Event>, key: string, b: Before, deadline: int)
    requires CountInv(s, key, b, deadline) && deadline <= s.clock + WINDOW
    requires Exec(s, events).clock <= deadline && !HasWinner(Exec(s, events), key, b)
    ensures CountInv(Exec(s, events), key, b, deadline)
    decreases |events|
  {
    if events != [] {
      var t := Step(s, events[0]);
      ClockNeverGoesBack(t, events[1..]);
      NoWinnerBefore(t, events[1..], key, b);
      CountStep(s, events[0], key, b, deadline);
      CountRun(t, events[1..], key, b, deadline);
    }
  }

  lemma {:induction false} NoWinnerBefore(s: State, events: seq<Event>, key: string, b: Before)
    requires !HasWinner(Exec(s, events), key, b)
    ensures !HasWinner(s, key, b)
  {
    if id :| id in s.reqs && s.reqs[id].key == Some(key) && s.reqs[id].pc.Won? && id !in b.over {
      WinnersStay(s, events, id);
    }
  }

  lemma {:induction false} WinnersStay(s: State, events: seq<Event>, id: int)
    requires id in s.reqs && s.reqs[id].key.Some? && s.reqs[id].pc.Won?
    ensures id in Exec(s, events).reqs && Exec(s, events).reqs[id] == s.reqs[id]
    decreases |events|
  {
    if events != [] {
      OverStays(s, events[0], s.reqs[id].key.value, id);
      WinnersStay(Step(s, events[0]), events[1..], id);
    }
  }

  /** A request that is over never moves again. */
  lemma OverStays(s: State, e: Event, key: string, id: int)
    requires IsOver(s, key, id)
    ensures Get(Step(s, e).reqs, id) == Some(s.reqs[id])
  {
  }

  lemma BegunStays(s: State, e: Event, key: string, id: int)
    requires id in s.reqs && s.reqs[id].key == Some(key) && !s.reqs[id].pc.Arrived?
    ensures var t := Step(s, e); id in t.reqs && t.reqs[id].key == Some(key) && !t.reqs[id].pc.Arrived?
  {
  }

  lemma BeforeRemains(s: State, e: Event, key: string, b: Before)
    requires Remains(s, key, b)
    ensures Remains(Step(s, e), key, b)
  {
    forall id | id in b.over ensures IsOver(Step(s, e), key, id) {
      OverStays(s, e, key, id);
    }
    forall id | id in b.flight
      ensures var t := Step(s, e); id in t.reqs && t.reqs[id].key == Some(key) && !t.reqs[id].pc.Arrived?
    {
      BegunStays(s, e, key, id);
    }
  }

  function One(p: bool): nat {
    if p then 1 else 0
  }

  lemma CountStep(s: State, e: Event, key: string, b: Before, deadline: int)
    requires CountInv(s, key, b, deadline) && deadline <= s.clock + WINDOW
    requires Step(s, e).clock <= deadline && !HasWinner(Step(s, e), key, b)
    ensures CountInv(Step(s, e), key, b, deadline)
  {
    BeforeRemains(s, e, key, b);
    OnlyItsRequestMoves(s, e);
    ChargeMoves(s, Step(s, e), key, b, IdOf(e));
    RefundMoves(s, Step(s, e), b, IdOf(e));
    BucketMoves(s, e, key, b, deadline);
  }

  lemma ChargeMoves(s: State, t: State, key: string, b: Before, x: Option<int>)
    requires forall i :: x != Some(i) ==> Get(t.reqs, i) == Get(s.reqs, i)
    ensures |Charged(t, key, b)| ==
            |Charged(s, key, b)| + One(IsCharged(t, key, b, x)) - One(IsCharged(s, key, b, x))
  {
    forall i | x != Some(i) ensures i in Charged(s, key, b) <==> i in Charged(t, key, b) {
      assert Get(t.reqs, i) == Get(s.reqs, i);
    }
    CardDelta(Charged(s, key, b), Charged(t, key, b), x);
  }

  lemma RefundMoves(s: State, t: State, b: Before, x: Option<int>)
    requires forall i :: x != Some(i) ==> Get(t.reqs, i) == Get(s.reqs, i)
    ensures |Refunded(t, b)| == |Refunded(s, b)| + One(IsRefunded(t, b, x)) - One(IsRefunded(s, b, x))
  {
    forall i | x != Some(i) ensures i in Refunded(s, b) <==> i in Refunded(t, b) {
      assert Get(t.reqs, i) == Get(s.reqs, i);
    }
    CardDelta(Refunded(s, b), Refunded(t, b), x);
  }

  /** The live count moves with the charge of request `x`, or down with its refund, but never below zero; and a live
      bucket still lasts until the deadline. */
  ghost predicate InStep(s: State, t: State, key: string, b: Before, deadline: int, x: Option<int>) {
    && LiveCount(t, key) <= MAX_ATTEMPTS && LastsUntil(t, key, deadline)
    && var moved := LiveCount(s, key) + One(IsCharged(t, key, b, x)) - One(IsCharged(s, key, b, x));
       && moved - One(IsRefunded(t, b, x)) + One(IsRefunded(s, b, x)) <= LiveCount(t, key)
       && (LiveCount(t, key) <= moved || LiveCount(t, key) == 0)
  }

  ghost predicate Settled(s: State, key: string, b: Before, deadline: int, x: Option<int>) {
    && LiveCount(s, key) <= MAX_ATTEMPTS && LastsUntil(s, key, deadline) && deadline <= s.clock + WINDOW
    && (x.Some? && x.value in b.over ==> IsOver(s, key, x.value))
    && (x.Some? && x.value in b.flight ==>
          x.value in s.reqs && s.reqs[x.value].key == Some(key) && !s.reqs[x.value].pc.Arrived?)
  }

  lemma ReserveMoves(s: State, id: int, key: string, b: Before, deadline: int)
    requires Settled(s, key, b, deadline, Some(id))
    ensures InStep(s, Step(s, Reserve(id)), key, b, deadline, Some(id))
  {
  }

  lemma TimeoutMoves(s: State, id: int, key: string, b: Before, deadline: int)
    requires Settled(s, key, b, deadline, Some(id))
    ensures InStep(s, Step(s, Timeout(id)), key, b, deadline, Some(id))
  {
  }

  lemma ClearingWins(s: State, id: int, key: string, b: Before)
    requires id in s.reqs && s.reqs[id].pc.Clearing? && s.reqs[id].key == Some(key) && id !in b.over
    ensures HasWinner(Step(s, Clear(id)), key, b)
  {
    assert Step(s, Clear(id)).reqs[id].pc.Won?;
  }

  lemma ClearMoves(s: State, id: int, key: string, b: Before, deadline: int)
    requires Settled(s, key, b, deadline, Some(id)) && !HasWinner(Step(s, Clear(id)), key, b)
    ensures InStep(s, Step(s, Clear(id)), key, b, deadline, Some(id))
  {
    if id in s.reqs && s.reqs[id].pc.Clearing? && s.reqs[id].key == Some(key) && id !in b.over {
      ClearingWins(s, id, key, b);
    }
  }

  /** The bucket moves in step with the request: this is what reserve, release and the refusals are for. */
  lemma BucketMoves(s: State, e: Event, key: string, b: Before, deadline: int)
    requires Settled(s, key, b, deadline, IdOf(e))
    requires Step(s, e).clock <= deadline && !HasWinner(Step(s, e), key, b)
    ensures InStep(s, Step(s, e), key, b, deadline, IdOf(e))
  {
    match e
    case Reserve(id) => ReserveMoves(s, id, key, b, deadline);
    case Timeout(id) => TimeoutMoves(s, id, key, b, deadline);
    case Clear(id) => ClearMoves(s, id, key, b, deadline);
    case _ => assert Step(s, e).buckets == s.buckets;
  }

  // ---------------------------------------------------------------- one login on its own

  /** The steps of one login up to the end of the password hash. */
  function PasswordSteps(id: int, key: string, found: Found, matches: bool): seq<Event> {
    [LoginArrives(id, key), Reserve(id), Lookup(id, found), Acquire(id), Finish(id, matches)]
  }

  /** Where a login stands after its password was checked, with nothing else running in between. */
  function PasswordOutcome(s: State, key: string, found: Found, matches: bool): Pc {
    if LiveCount(s, key) >= MAX_ATTEMPTS then Ended(TooMany)
    else if !found.User? || !matches then Ended(Answered)
    else if found.totp then Verifying(found.user)
    else Clearing(found.user, None)
  }

  function Reserving(s: State, key: string): L.Buckets {
    L.Apply(MAX_ATTEMPTS, WINDOW, s.buckets, L.Reserve(key, s.clock), |s.buckets| > L.PRUNE_ABOVE).0
  }

  lemma ExecFive(s: State, events: seq<Event>)
    requires |events| == 5
    ensures Exec(s, events) == Step(Step(Step(Step(Step(s, events[0]), events[1]), events[2]), events[3]), events[4])
  {
    var s1 := Step(s, events[0]);
    var s2 := Step(s1, events[1]);
    var s3 := Step(s2, events[2]);
    var s4 := Step(s3, events[3]);
    assert Exec(s1, events[1..]) == Exec(s2, events[2..]) by { assert events[1..][1..] == events[2..]; }
    assert Exec(s2, events[2..]) == Exec(s3, events[3..]) by { assert events[2..][1..] == events[3..]; }
    assert Exec(s3, events[3..]) == Exec(s4, events[4..]) by { assert events[3..][1..] == events[4..]; }
    assert Exec(s4, events[4..]) == Exec(Step(s4, events[4]), []) by { assert events[4..][1..] == []; }
    assert Exec(s, events) == Exec(s1, events[1..]);
  }

  /** The password part changes the limiter by one reservation and leaves the slots as they were. */
  lemma PasswordAlone(s: State, id: int, key: string, found: Found, matches: bool)
    requires id !in s.reqs && s.slots < HASH_SLOTS
    ensures Exec(s, PasswordSteps(id, key, found, matches)) ==
            s.(buckets := Reserving(s, key),
               reqs := s.reqs[id := Request(Some(key), PasswordOutcome(s, key, found, matches))])
  {
    var events := PasswordSteps(id, key, found, matches);
    ExecFive(s, events);
    var s1 := Step(s, events[0]);
    var s2 := Step(s1, events[1]);
    assert s1 == s.(reqs := s.reqs[id := Request(Some(key), Arrived)]);
    var granted := LiveCount(s, key) < MAX_ATTEMPTS;
    assert s2 == s.(buckets := Reserving(s, key),
                    reqs := s.reqs[id := Request(Some(key), if granted then Reserved else Ended(TooMany))]);
    HashAlone(s2, id, found, matches);
  }

  lemma HashAlone(s: State, id: int, found: Found, matches: bool)
    requires id in s.reqs && s.slots < HASH_SLOTS
    requires s.reqs[id].pc == Reserved || s.reqs[id].pc.Ended?
    ensures var t := Step(Step(Step(s, Lookup(id, found)), Acquire(id)), Finish(id, matches));
            t == s.(reqs := s.reqs[id := s.reqs[id].(pc :=
              if s.reqs[id].pc.Ended? then s.reqs[id].pc
              else if !found.User? || !matches then Ended(Answered)
              else if found.totp then Verifying(found.user) else Clearing(found.user, None))])
  {
  }

  /** The rest of one login: the one-time code, its claim, and the reset on success. */
  function CodeSteps(id: int, matched: Option<int>, fault: bool): seq<Event> {
    [Verify(id, matched), Claim(id, fault), Clear(id)]
  }

  predicate CodeAccepted(s: State, user: int, matched: Option<int>, fault: bool) {
    matched.Some? && InSkew(matched.value, Second(s.clock)) && !fault && (user, matched.value) !in s.used
  }

  lemma CodeAlone(s: State, id: int, matched: Option<int>, fault: bool)
    requires id in s.reqs && s.reqs[id].key.Some?
    requires s.reqs[id].pc.Verifying? || s.reqs[id].pc.Clearing? || s.reqs[id].pc.Ended?
    ensures var t, pc := Exec(s, CodeSteps(id, matched, fault)), s.reqs[id].pc;
            && id in t.reqs && t.slots == s.slots && t.clock == s.clock
            && (t.reqs[id].pc.Won? <==>
                  pc.Clearing? || (pc.Verifying? && CodeAccepted(s, pc.user, matched, fault)))
            && t.buckets == (if t.reqs[id].pc.Won? then s.buckets - {s.reqs[id].key.value} else s.buckets)
            && t.used == (if t.reqs[id].pc.Won? && pc.Verifying?
                          then s.used[(pc.user, matched.value) := Second(s.clock)] else s.used)
            && (!t.reqs[id].pc.Won? && !pc.Ended? ==> t.reqs[id].pc == Ended(Answered))
            && (pc.Ended? ==> t.reqs[id].pc == pc)
  {
    var events := CodeSteps(id, matched, fault);
    var s1 := Step(s, events[0]);
    var s2 := Step(s1, events[1]);
    assert events[1..][1..] == [Clear(id)] && events[1..][1..][1..] == [];
    assert Exec(s, events) == Exec(s1, events[1..]) == Exec(s2, events[1..][1..]) == Step(s2, Clear(id));
    if s.reqs[id].pc.Verifying? {
      assert s1 == Put(s, id, AfterVerify(s, s.reqs[id].pc.user, matched));
    } else {
      assert s1 == s && s2 == s;
    }
  }

  lemma {:induction false} ExecConcat(s: State, a: seq<Event>, b: seq<Event>)
    ensures Exec(s, a + b) == Exec(Exec(s, a), b)
    decreases |a|
  {
    if a == [] {
      assert a + b == b;
    } else {
      assert (a + b)[1..] == a[1..] + b;
      ExecConcat(Step(s, a[0]), a[1..], b);
    }
  }

  /** A login that nothing interleaves with wins exactly when its key is below the ceiling, the account is
      local, the password matches, and the second factor (if on) is a fresh code within the skew. Winning clears
      the key; any other answered outcome costs one attempt; the slots end as they were. */
  lemma LoginAlone(s: State, id: int, key: string, found: Found, matches: bool, matched: Option<int>, fault: bool)
    requires id !in s.reqs && s.slots < HASH_SLOTS
    ensures var t := Exec(s, PasswordSteps(id, key, found, matches) + CodeSteps(id, matched, fault));
            && id in t.reqs && t.slots == s.slots
            && (t.reqs[id].pc.Won? <==>
                  LiveCount(s, key) < 5 && found.User? && matches &&
                  (found.totp ==> CodeAccepted(s, found.user, matched, fault)))
            && (t.reqs[id].pc == Ended(TooMany) <==> LiveCount(s, key) >= 5)
            && LiveCount(t, key) == (if t.reqs[id].pc.Won? then 0
                                     else if t.reqs[id].pc == Ended(TooMany) then LiveCount(s, key)
                                     else LiveCount(s, key) + 1)
            && (t.reqs[id].pc.Won? && found.totp ==> (found.user, matched.value) in t.used)
  {
    ExecConcat(s, PasswordSteps(id, key, found, matches), CodeSteps(id, matched, fault));
    PasswordAlone(s, id, key, found, matches);
    var m := Exec(s, PasswordSteps(id, key, found, matches));
    CodeAlone(m, id, matched, fault);
    ReservingCounts(s, key);
    assert LiveCount(m, key) == LiveCount(s, key) + if LiveCount(s, key) < MAX_ATTEMPTS then 1 else 0;
  }

  lemma ReservingCounts(s: State, key: string)
    ensures LiveCount(s.(buckets := Reserving(s, key)), key) ==
            LiveCount(s, key) + if LiveCount(s, key) < MAX_ATTEMPTS then 1 else 0
  {
  }

  /** First-run setup hashes its password under the same two slots: it takes one if one is free and gives it back, and
      it is turned away if none is; no limiter key is touched. */
  lemma SetupHashesAlone(s: State, id: int)
    requires id !in s.reqs
    ensures var waiting := Step(s, SetupArrives(id));
            && Get(waiting.reqs, id) == Some(Request(None, AwaitSlot(NewPassword)))
            && (var t := Step(Step(waiting, Acquire(id)), Finish(id, true));
                s.slots < 2 ==> Get(t.reqs, id) == Some(Request(None, Ended(Answered))) && t.slots == s.slots)
            && (s.slots >= 2 ==> Step(waiting, Acquire(id)) == waiting)
            && (var t := Step(waiting, Timeout(id));
                Get(t.reqs, id) == Some(Request(None, Ended(Busy))) && t.buckets == s.buckets && t.slots == s.slots)
  {
  }

  /** The first attempt of a key opens a bucket of fifteen minutes. */
  lemma BucketsLastFifteenMinutes(s: State, key: string, at: int)
    requires L.Live(s.buckets, key, s.clock) == None
    ensures L.Live(Reserving(s, key), key, at).Some? <==> at <= s.clock + 15 * 60 * 1_000_000_000
  {
  }

  /** A login that finds no slot in time costs its key nothing, whether or not the account exists. */
  lemma BusyCostsNothing(s: State, id: int, key: string, found: Found)
    requires id !in s.reqs && (found.User? || found.Unknown?) && LiveCount(s, key) < MAX_ATTEMPTS
    ensures var t := Exec(s, [LoginArrives(id, key), Reserve(id), Lookup(id, found), Timeout(id), Finish(id, true)]);
            LiveCount(t, key) == LiveCount(s, key) && Get(t.reqs, id) == Some(Request(Some(key), Ended(Busy)))
  {
    var events := [LoginArrives(id, key), Reserve(id), Lookup(id, found), Timeout(id), Finish(id, true)];
    ExecFive(s, events);
    WaitingForASlot(s, id, key, found);
    var s3 := Step(Step(Step(s, events[0]), events[1]), events[2]);
    TimeoutRefunds(s3, id, key);
    assert Step(Step(s3, events[3]), events[4]) == Step(s3, events[3]);
  }

  lemma WaitingForASlot(s: State, id: int, key: string, found: Found)
    requires id !in s.reqs && (found.User? || found.Unknown?) && LiveCount(s, key) < MAX_ATTEMPTS
    ensures var t := Step(Step(Step(s, LoginArrives(id, key)), Reserve(id)), Lookup(id, found));
            && Get(t.reqs, id) == Some(Request(Some(key), AfterLookup(found)))
            && LiveCount(t, key) == LiveCount(s, key) + 1
  {
    var s1 := Step(s, LoginArrives(id, key));
    var s2 := Step(s1, Reserve(id));
    assert s1 == s.(reqs := s.reqs[id := Request(Some(key), Arrived)]);
    assert s2 == s.(buckets := Reserving(s, key), reqs := s.reqs[id := Request(Some(key), Reserved)]);
    ReservingCounts(s, key);
  }

  lemma TimeoutRefunds(s: State, id: int, key: string)
    requires id in s.reqs && s.reqs[id].key == Some(key) && s.reqs[id].pc.AwaitSlot? && LiveCount(s, key) > 0
    ensures var t := Step(s, Timeout(id));
            LiveCount(t, key) == LiveCount(s, key) - 1 && Get(t.reqs, id) == Some(Request(Some(key), Ended(Busy)))
  {
  }
}
