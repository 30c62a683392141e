/** One-time codes are one-time, although the replay table forgets them after an hour (RFC 6238, section 5.2). */
module LoginReplay {
  import opened Common
  import opened Login
  import opened LoginLimits
  import L = Limiter

  /** The (user, counter, second) a request has consumed, once its claim went through. */
  function ClaimOf(pc: Pc): Option<(int, int, nat)> {
    match pc
    case Clearing(user, Some(c)) => Some((user, c.0, c.1))
    case Won(user, Some(c)) => Some((user, c.0, c.1))
    case _ => None
  }

  /** No two logins were let in by the same code of the same user. */
  ghost predicate EachCodeOnce(s: State) {
    forall i, j :: i in s.reqs && j in s.reqs && i != j ==> !SameCode(s.reqs[i].pc, s.reqs[j].pc)
  }

  predicate SameCode(a: Pc, b: Pc) {
    && ClaimOf(a).Some? && ClaimOf(b).Some?
    && ClaimOf(a).value.0 == ClaimOf(b).value.0 && ClaimOf(a).value.1 == ClaimOf(b).value.1
  }

  /** Every claim runs at most `d` seconds after the verification it belongs to. */
  ghost predicate Prompt(s: State, events: seq<Event>, d: nat)
    decreases |events|
  {
    events == [] || (PromptEvent(s, events[0], d) && Prompt(Step(s, events[0]), events[1..], d))
  }

  predicate PromptEvent(s: State, e: Event, d: nat) {
    e.Claim? && e.id in s.reqs && s.reqs[e.id].pc.Claiming? ==>
      Second(s.clock) <= s.reqs[e.id].pc.verifiedAt + d
  }

  /** A consumed code is still in the table, or was consumed more than the retention ago; and it was consumed
      no earlier than one period before its own time step. */
  ghost predicate Remembered(s: State, pc: Pc) {
    && (pc.Claiming? ==> InSkew(pc.counter, pc.verifiedAt) && pc.verifiedAt <= Second(s.clock))
    && (ClaimOf(pc).Some? ==>
          var (user, counter, at) := ClaimOf(pc).value;
          && TOTP_PERIOD * counter <= at + TOTP_PERIOD
          && (((user, counter) in s.used && s.used[(user, counter)] >= at) || Second(s.clock) > at + RETENTION))
  }

  ghost predicate ReplayInv(s: State) {
    && EachCodeOnce(s)
    && forall i :: i in s.reqs ==> Remembered(s, s.reqs[i].pc)
  }

  /** The longest safe delay: 3600 seconds of retention less the 89 a code can stay acceptable after the second it
      is first accepted in. */
  const MAX_DELAY: nat := 3511

  lemma {:induction false} ReplayRun(s: State, events: seq<Event>, d: nat)
    requires d <= MAX_DELAY && Prompt(s, events, d) && ReplayInv(s)
    ensures ReplayInv(Exec(s, events))
    decreases |events|
  {
    if events != [] {
      ReplayStep(s, events[0], d);
      ReplayRun(Step(s, events[0]), events[1..], d);
    }
  }

  lemma ReplayStep(s: State, e: Event, d: nat)
    requires d <= MAX_DELAY && PromptEvent(s, e, d) && ReplayInv(s)
    ensures ReplayInv(Step(s, e))
  {
    var t := Step(s, e);
    OnlyItsRequestMoves(s, e);
    forall i | i in t.reqs ensures Remembered(t, t.reqs[i].pc) {
      if IdOf(e) == Some(i) {
        MovedIsRemembered(s, e);
      } else {
        assert Get(t.reqs, i) == Get(s.reqs, i);
        StillRemembered(s, e, s.reqs[i].pc);
      }
    }
    forall i, j | i in t.reqs && j in t.reqs && i != j ensures !SameCode(t.reqs[i].pc, t.reqs[j].pc) {
      if IdOf(e) == Some(i) {
        assert Get(t.reqs, j) == Get(s.reqs, j);
        NewClaimIsFresh(s, e, j, d);
      } else if IdOf(e) == Some(j) {
        assert Get(t.reqs, i) == Get(s.reqs, i);
        NewClaimIsFresh(s, e, i, d);
      } else {
        assert Get(t.reqs, i) == Get(s.reqs, i) && Get(t.reqs, j) == Get(s.reqs, j);
      }
    }
  }

  /** A row disappears only by the janitor, and only once it is older than the retention. */
  lemma StillRemembered(s: State, e: Event, pc: Pc)
    requires Remembered(s, pc)
    ensures Remembered(Step(s, e), pc)
  {
  }

  lemma MovedIsRemembered(s: State, e: Event)
    requires IdOf(e).Some? && IdOf(e).value in Step(s, e).reqs
    requires IdOf(e).value in s.reqs ==> Remembered(s, s.reqs[IdOf(e).value].pc)
    ensures Remembered(Step(s, e), Step(s, e).reqs[IdOf(e).value].pc)
  {
  }

  /** If the moved request now holds a code it did not hold before, nobody else holds it: whoever did would be
      in the table still, or too old for the code to have been verified in time. */
  lemma NewClaimIsFresh(s: State, e: Event, j: int, d: nat)
    requires d <= MAX_DELAY && PromptEvent(s, e, d) && ReplayInv(s)
    requires IdOf(e).Some? && IdOf(e).value != j && j in s.reqs && IdOf(e).value in Step(s, e).reqs
    ensures !SameCode(Step(s, e).reqs[IdOf(e).value].pc, s.reqs[j].pc)
  {
  }

  // ---------------------------------------------------------------- codes used to enrol

  /** No code is burnt before it could be accepted. */
  ghost predicate NotAhead(s: State) {
    && (forall k :: k in s.used ==> 30 * k.1 <= s.used[k] + 30)
    && (forall i :: i in s.reqs && s.reqs[i].pc.Claiming? ==>
          InSkew(s.reqs[i].pc.counter, s.reqs[i].pc.verifiedAt) && s.reqs[i].pc.verifiedAt <= Second(s.clock))
  }

  lemma NotAheadStep(s: State, e: Event)
    requires NotAhead(s)
    ensures NotAhead(Step(s, e))
  {
  }

  /** The code is in the table, or the retention has passed since it could first be accepted. */
  predicate Spent(s: State, user: int, counter: int) {
    (user, counter) in s.used || Second(s.clock) > 30 * counter - 30 + RETENTION
  }

  predicate Holds(s: State, id: int, user: int, counter: int) {
    id in s.reqs && ClaimOf(s.reqs[id].pc).Some?
    && ClaimOf(s.reqs[id].pc).value.0 == user && ClaimOf(s.reqs[id].pc).value.1 == counter
  }

  lemma SpentStep(s: State, e: Event, user: int, counter: int, id: int, d: nat)
    requires NotAhead(s) && Spent(s, user, counter) && d <= MAX_DELAY && PromptEvent(s, e, d)
    ensures Spent(Step(s, e), user, counter)
    ensures Holds(Step(s, e), id, user, counter) ==> Holds(s, id, user, counter)
  {
  }

  lemma {:induction false} SpentRun(s: State, events: seq<Event>, user: int, counter: int, id: int, d: nat)
    requires NotAhead(s) && Spent(s, user, counter) && d <= MAX_DELAY && Prompt(s, events, d)
    ensures Holds(Exec(s, events), id, user, counter) ==> Holds(s, id, user, counter)
    decreases |events|
  {
    if events != [] {
      NotAheadStep(s, events[0]);
      SpentStep(s, events[0], user, counter, id, d);
      SpentRun(Step(s, events[0]), events[1..], user, counter, id, d);
    }
  }

  lemma {:induction false} NotAheadRun(s: State, events: seq<Event>)
    requires NotAhead(s)
    ensures NotAhead(Exec(s, events))
    decreases |events|
  {
    if events != [] {
      NotAheadStep(s, events[0]);
      NotAheadRun(Step(s, events[0]), events[1..]);
    }
  }

  /** In every run, once the code used to enrol was burnt, no login that had not consumed it before ever does. */
  lemma {:induction false} EnrolmentCodeIsRefused(before: seq<Event>, after: seq<Event>, user: int, counter: int,
                                                  id: int, d: nat)
    requires d <= 3511
    requires var s := Exec(EMPTY, before);
             30 * counter <= Second(s.clock) + 30 && Prompt(Step(s, EnrolBurns(user, counter)), after, d)
    ensures var s := Exec(EMPTY, before);
            Holds(Exec(Step(s, EnrolBurns(user, counter)), after), id, user, counter) ==> Holds(s, id, user, counter)
  {
    var s := Exec(EMPTY, before);
    NotAheadRun(EMPTY, before);
    NotAheadStep(s, EnrolBurns(user, counter));
    SpentRun(Step(s, EnrolBurns(user, counter)), after, user, counter, id, d);
  }

  // ---------------------------------------------------------------- the bound is exact

  const EMPTY: State := State(0, map[], 0, map[], map[])

  /** Two sign-ins of one user verify the same code, at seconds 0 and 89; the first claims at once; after an
      hour and a second the janitor runs, and the second claims, 3512 seconds after its verification. */
  function SignIns(): seq<Event> {
    PasswordSteps(1, "a", User(7, true), true) + PasswordSteps(2, "b", User(7, true), true)
  }

  function CodeEvents(): seq<Event> {
    [Verify(1, Some(1)), Claim(1, false), Tick(89 * TICKS), Verify(2, Some(1)), Tick(3512 * TICKS), Janitor,
     Claim(2, false)]
  }

  lemma SignInsReach()
    ensures BothVerifying(Exec(EMPTY, SignIns()))
  {
    var found := User(7, true);
    var a, b := PasswordSteps(1, "a", found, true), PasswordSteps(2, "b", found, true);
    ExecConcat(EMPTY, a, b);
    PasswordAlone(EMPTY, 1, "a", found, true);
    var s := Exec(EMPTY, a);
    assert L.Live(s.buckets, "b", s.clock) == None;
    PasswordAlone(s, 2, "b", found, true);
  }

  lemma {:induction false} PromptConcat(s: State, a: seq<Event>, b: seq<Event>, d: nat)
    requires (forall i :: 0 <= i < |a| ==> !a[i].Claim?) && Prompt(Exec(s, a), b, d)
    ensures Prompt(s, a + b, d)
    decreases |a|
  {
    if a == [] {
      assert a + b == b;
    } else {
      assert (a + b)[1..] == a[1..] + b;
      PromptConcat(Step(s, a[0]), a[1..], b, d);
    }
  }

  /** `s` with the two requests, the clock and the replay table set. */
  function Set(s: State, one: Pc, two: Pc, second: nat, used: map<(int, int), nat>): State
    requires 1 in s.reqs && 2 in s.reqs
  {
    State(second * TICKS, s.buckets, s.slots, used,
          s.reqs[1 := s.reqs[1].(pc := one)][2 := s.reqs[2].(pc := two)])
  }

  lemma SetSteps(s: State, one: Pc, two: Pc, second: nat, used: map<(int, int), nat>, pc: Pc)
    requires 1 in s.reqs && 2 in s.reqs
    ensures Put(Set(s, one, two, second, used), 1, pc) == Set(s, pc, two, second, used)
    ensures Put(Set(s, one, two, second, used), 2, pc) == Set(s, one, pc, second, used)
  {
  }

  /** The states the code events go through, from any state with both requests waiting for their code. */
  function Stage(s: State, i: nat): State
    requires 1 in s.reqs && 2 in s.reqs && i <= 7
  {
    var holds := Clearing(7, Some((1, 0)));
    if i == 0 then Set(s, Verifying(7), Verifying(7), 0, map[])
    else if i == 1 then Set(s, Claiming(7, 1, 0), Verifying(7), 0, map[])
    else if i == 2 then Set(s, holds, Verifying(7), 0, map[(7, 1) := 0])
    else if i == 3 then Set(s, holds, Verifying(7), 89, map[(7, 1) := 0])
    else if i == 4 then Set(s, holds, Claiming(7, 1, 89), 89, map[(7, 1) := 0])
    else if i == 5 then Set(s, holds, Claiming(7, 1, 89), 3601, map[(7, 1) := 0])
    else if i == 6 then Set(s, holds, Claiming(7, 1, 89), 3601, map[])
    else Set(s, holds, Clearing(7, Some((1, 3601))), 3601, map[(7, 1) := 3601])
  }

  predicate BothVerifying(s: State) {
    && s.clock == 0 && s.used == map[] && 1 in s.reqs && 2 in s.reqs
    && s.reqs[1].pc == Verifying(7) && s.reqs[2].pc == Verifying(7)
  }

  lemma EarlyStages(s: State, d: nat)
    requires 1 in s.reqs && 2 in s.reqs
    ensures forall i :: 0 <= i < 3 ==>
      Step(Stage(s, i), CodeEvents()[i]) == Stage(s, i + 1) && PromptEvent(Stage(s, i), CodeEvents()[i], d)
  {
    SetSteps(s, Verifying(7), Verifying(7), 0, map[], Claiming(7, 1, 0));
    assert Step(Stage(s, 0), Verify(1, Some(1))) == Stage(s, 1);
    SetSteps(s, Claiming(7, 1, 0), Verifying(7), 0, map[], Clearing(7, Some((1, 0))));
    assert Step(Stage(s, 1), Claim(1, false)) == Stage(s, 2);
  }

  lemma MiddleStages(s: State, d: nat)
    requires 1 in s.reqs && 2 in s.reqs
    ensures forall i :: 3 <= i < 5 ==>
      Step(Stage(s, i), CodeEvents()[i]) == Stage(s, i + 1) && PromptEvent(Stage(s, i), CodeEvents()[i], d)
  {
  }

  lemma LateStages(s: State, d: nat)
    requires 1 in s.reqs && 2 in s.reqs && d > MAX_DELAY
    ensures forall i :: 5 <= i < 7 ==>
      Step(Stage(s, i), CodeEvents()[i]) == Stage(s, i + 1) && PromptEvent(Stage(s, i), CodeEvents()[i], d)
  {
    assert Forget(map[(7, 1) := 0], 1) == map[];
    assert Step(Stage(s, 5), Janitor) == Stage(s, 6);
    SetSteps(s, Clearing(7, Some((1, 0))), Claiming(7, 1, 89), 3601, map[], Clearing(7, Some((1, 3601))));
  }

  lemma {:induction false} FromStage(s: State, i: nat, d: nat)
    requires 1 in s.reqs && 2 in s.reqs && d > MAX_DELAY && i <= 7
    ensures Prompt(Stage(s, i), CodeEvents()[i..], d) && Exec(Stage(s, i), CodeEvents()[i..]) == Stage(s, 7)
    decreases 7 - i
  {
    if i == 7 {
      assert CodeEvents()[7..] == [];
    } else {
      EarlyStages(s, d);
      MiddleStages(s, d);
      LateStages(s, d);
      Tail(Stage(s, i), CodeEvents(), i, d);
      FromStage(s, i + 1, d);
    }
  }

  /** Both requests end up holding counter 1 of user 7. */
  lemma BothHoldTheCode(s: State, d: nat)
    requires BothVerifying(s) && d > MAX_DELAY
    ensures Prompt(s, CodeEvents(), d) && !EachCodeOnce(Exec(s, CodeEvents()))
  {
    FromStage(s, 0, d);
    assert CodeEvents()[0..] == CodeEvents();
    assert s.reqs[1 := s.reqs[1].(pc := Verifying(7))][2 := s.reqs[2].(pc := Verifying(7))] == s.reqs;
    assert Stage(s, 0) == s;
    LastStage(s);
  }

  lemma LastStage(s: State)
    requires 1 in s.reqs && 2 in s.reqs
    ensures !EachCodeOnce(Stage(s, 7))
  {
    assert SameCode(Stage(s, 7).reqs[1].pc, Stage(s, 7).reqs[2].pc);
  }

  lemma Tail(s: State, es: seq<Event>, i: nat, d: nat)
    requires i < |es| && PromptEvent(s, es[i], d)
    ensures Exec(s, es[i..]) == Exec(Step(s, es[i]), es[i + 1..])
    ensures Prompt(Step(s, es[i]), es[i + 1..], d) ==> Prompt(s, es[i..], d)
  {
  }

  /** Over every run of logins, enrolments and janitor passes, each code of each user lets in at most one login,
      if and only if a claim can follow its verification by at most 3511 seconds. */
  lemma EachCodeLetsInOneLogin(d: nat)
    ensures (forall events :: Prompt(EMPTY, events, d) ==> EachCodeOnce(Exec(EMPTY, events))) <==> d <= 3511
  {
    if d <= MAX_DELAY {
      forall events | Prompt(EMPTY, events, d) ensures EachCodeOnce(Exec(EMPTY, events)) {
        ReplayRun(EMPTY, events, d);
      }
    } else {
      SignInsReach();
      var s := Exec(EMPTY, SignIns());
      BothHoldTheCode(s, d);
      PromptConcat(EMPTY, SignIns(), CodeEvents(), d);
      ExecConcat(EMPTY, SignIns(), CodeEvents());
      assert Prompt(EMPTY, SignIns() + CodeEvents(), d);
    }
  }
}
