/** Password logins as interleaving state machines: the limiter, the two hashing slots, the one-time codes and
    the janitor (internal/server/auth_handlers.go, internal/auth/password.go, internal/store/auth.go). */
module Login {
  import opened Common
  import L = Limiter

  const MAX_ATTEMPTS: nat := 5
  const TICKS := 1_000_000_000                    // clock ticks per second
  const WINDOW: nat := 15 * 60 * TICKS
  const HASH_SLOTS: nat := 2
  const TOTP_PERIOD := 30                         // seconds
  const RETENTION := 3600                         // seconds a used code is remembered

  // ---------------------------------------------------------------- the hashing semaphore

  /** `Crashed` is a panic inside the hash: a stored hash may name parameters that argon2id refuses. */
  datatype HashResult = InvalidHash | HashBusy | Crashed | Checked(matches: bool)

  /** The buffered channel that bounds argon2id work. */
  class HashSlots {
    var held: nat

    constructor ()
      ensures held == 0
    {
      held := 0;
    }

    /** `expired` says that the wait ran out before the channel had room. */
    method Acquire(expired: bool) returns (ok: bool)
      requires held <= HASH_SLOTS
      modifies this
      ensures ok <==> !expired && old(held) < 2
      ensures held == old(held) + (if ok then 1 else 0) <= 2
    {
      ok := !expired && held < HASH_SLOTS;
      if ok {
        held := held + 1;
      }
    }

    method Release()
      requires held > 0
      modifies this
      ensures held == old(held) - 1
    {
      held := held - 1;
    }

    /** Every way out of a verification, the panic included, gives back the slot it took, and a malformed hash takes
        none. The release is deferred. */
    method VerifyPassword(wellFormed: bool, expired: bool, usable: bool, matches: bool) returns (res: HashResult)
      requires held <= HASH_SLOTS
      modifies this
      ensures held == old(held)
      ensures res == if !wellFormed then InvalidHash
                     else if expired || old(held) == 2 then HashBusy
                     else if !usable then Crashed
                     else Checked(matches)
    {
      if !wellFormed {
        return InvalidHash;
      }
      var ok := Acquire(expired);
      if !ok {
        return HashBusy;
      }
      res := if usable then Checked(matches) else Crashed;
      Release();
    }
  }

  // ---------------------------------------------------------------- requests and events

  /** What is hashed: a password to check against an account, the dummy that hides unknown logins, or a new
      password at first-run setup. */
  datatype Check = Account(user: int, totp: bool) | Dummy | NewPassword

  datatype Ending = TooMany | Busy | Answered

  datatype Pc =
    | Arrived
    | Reserved
    | AwaitSlot(check: Check)
    | Hashing(check: Check)
    | Verifying(user: int)
    | Claiming(user: int, counter: int, verifiedAt: nat)
    | Clearing(user: int, claim: Option<(int, nat)>)
    | Won(user: int, claim: Option<(int, nat)>)
    | Ended(how: Ending)

  /** `key` is the limiter key of a login; a setup request has none. */
  datatype Request = Request(key: Option<string>, pc: Pc)

  /** `used` is the replay table: the second at which a (user, time-step counter) was consumed. */
  datatype State = State(clock: nat, buckets: L.Buckets, slots: nat, used: map<(int, int), nat>,
                         reqs: map<int, Request>)

  /** What a database lookup of the login may find. */
  datatype Found = Fault | Unknown | BrokenHash | User(user: int, totp: bool)

  /** A panic inside the hash is a `Finish` without a match: the slot comes back, the attempt stays counted. */
  datatype Event =
    | Tick(ticks: nat)
    | LoginArrives(id: int, key: string)
    | SetupArrives(id: int)
    | Reserve(id: int)
    | Lookup(id: int, found: Found)
    | Acquire(id: int)
    | Timeout(id: int)
    | Finish(id: int, matches: bool)
    | Verify(id: int, matched: Option<int>)
    | Claim(id: int, fault: bool)
    | Clear(id: int)
    | EnrolBurns(user: int, counter: int)           // a code accepted earlier, so no more than one period ahead
    | Janitor

  function Second(ticks: nat): nat {
    ticks / TICKS
  }

  /** The counters a code is accepted for at second `t`: one period either way. */
  predicate InSkew(counter: int, t: nat) {
    t / TOTP_PERIOD - 1 <= counter <= t / TOTP_PERIOD + 1
  }

  function Put(s: State, id: int, pc: Pc): State
    requires id in s.reqs
  {
    s.(reqs := s.reqs[id := s.reqs[id].(pc := pc)])
  }

  function DoReserve(s: State, id: int): State
    requires id in s.reqs && s.reqs[id].key.Some?
  {
    var (buckets, granted) := L.Apply(MAX_ATTEMPTS, WINDOW, s.buckets, L.Reserve(s.reqs[id].key.value, s.clock),
                                      |s.buckets| > L.PRUNE_ABOVE);
    Put(s, id, if granted == Some(true) then Reserved else Ended(TooMany)).(buckets := buckets)
  }

  function DoTimeout(s: State, id: int): State
    requires id in s.reqs
  {
    var key := s.reqs[id].key;
    var t := Put(s, id, Ended(Busy));
    if key == None then t
    else t.(buckets := L.Apply(MAX_ATTEMPTS, WINDOW, s.buckets, L.Release(key.value), false).0)
  }

  function DoClear(s: State, id: int): State
    requires id in s.reqs && s.reqs[id].key.Some? && s.reqs[id].pc.Clearing?
  {
    var pc := s.reqs[id].pc;
    Put(s, id, Won(pc.user, pc.claim))
      .(buckets := L.Apply(MAX_ATTEMPTS, WINDOW, s.buckets, L.Reset(s.reqs[id].key.value), false).0)
  }

  function AfterLookup(found: Found): Pc {
    match found
    case Fault => Ended(Answered)
    case Unknown => AwaitSlot(Dummy)
    case BrokenHash => Ended(Answered)
    case User(user, totp) => AwaitSlot(Account(user, totp))
  }

  function AfterHash(check: Check, matches: bool): Pc {
    match check
    case Account(user, totp) =>
      if !matches then Ended(Answered) else if totp then Verifying(user) else Clearing(user, None)
    case _ => Ended(Answered)
  }

  /** The code the user typed matches the counter `matched`, if any; only one within the skew can be found. */
  function AfterVerify(s: State, user: int, matched: Option<int>): Pc {
    if matched.Some? && InSkew(matched.value, Second(s.clock)) then Claiming(user, matched.value, Second(s.clock))
    else Ended(Answered)
  }

  /** INSERT OR IGNORE into the replay table. */
  function Burn(used: map<(int, int), nat>, user: int, counter: int, at: nat): map<(int, int), nat> {
    if (user, counter) in used then used else used[(user, counter) := at]
  }

  function DoClaim(s: State, id: int, fault: bool): State
    requires id in s.reqs && s.reqs[id].pc.Claiming?
  {
    var pc := s.reqs[id].pc;
    if fault || (pc.user, pc.counter) in s.used then Put(s, id, Ended(Answered))
    else
      Put(s, id, Clearing(pc.user, Some((pc.counter, Second(s.clock)))))
        .(used := Burn(s.used, pc.user, pc.counter, Second(s.clock)))
  }

  function Forget(used: map<(int, int), nat>, cutoff: int): map<(int, int), nat> {
    map k | k in used && used[k] >= cutoff :: used[k]
  }

  /** One atomic step; an event whose request is not at that point does nothing. */
  function Step(s: State, e: Event): State {
    match e
    case Tick(ticks) => s.(clock := s.clock + ticks)
    case LoginArrives(id, key) => if id in s.reqs then s else s.(reqs := s.reqs[id := Request(Some(key), Arrived)])
    case SetupArrives(id) => if id in s.reqs then s else s.(reqs := s.reqs[id := Request(None, AwaitSlot(NewPassword))])
    case Reserve(id) => if id in s.reqs && s.reqs[id].pc.Arrived? && s.reqs[id].key.Some? then DoReserve(s, id) else s
    case Lookup(id, found) => if id in s.reqs && s.reqs[id].pc.Reserved? then Put(s, id, AfterLookup(found)) else s
    case Acquire(id) =>
      if id in s.reqs && s.reqs[id].pc.AwaitSlot? && s.slots < HASH_SLOTS
      then Put(s, id, Hashing(s.reqs[id].pc.check)).(slots := s.slots + 1) else s
    case Timeout(id) => if id in s.reqs && s.reqs[id].pc.AwaitSlot? then DoTimeout(s, id) else s
    case Finish(id, matches) =>
      if id in s.reqs && s.reqs[id].pc.Hashing? && s.slots > 0
      then Put(s, id, AfterHash(s.reqs[id].pc.check, matches)).(slots := s.slots - 1) else s
    case Verify(id, matched) =>
      if id in s.reqs && s.reqs[id].pc.Verifying? then Put(s, id, AfterVerify(s, s.reqs[id].pc.user, matched)) else s
    case Claim(id, fault) => if id in s.reqs && s.reqs[id].pc.Claiming? then DoClaim(s, id, fault) else s
    case Clear(id) => if id in s.reqs && s.reqs[id].pc.Clearing? && s.reqs[id].key.Some? then DoClear(s, id) else s
    case EnrolBurns(user, counter) =>
      if TOTP_PERIOD * counter <= Second(s.clock) + TOTP_PERIOD
      then s.(used := Burn(s.used, user, counter, Second(s.clock))) else s
    case Janitor => s.(used := Forget(s.used, Second(s.clock) - RETENTION))
  }

  function Exec(s: State, events: seq<Event>): State
    decreases |events|
  {
    if events == [] then s else Exec(Step(s, events[0]), events[1..])
  }

  lemma {:induction false} ClockNeverGoesBack(s: State, events: seq<Event>)
    ensures s.clock <= Exec(s, events).clock
    decreases |events|
  {
    if events != [] {
      ClockNeverGoesBack(Step(s, events[0]), events[1..]);
    }
  }

  // ---------------------------------------------------------------- the slots

  function HashingNow(s: State): (ids: set<int>)
    ensures forall id :: id in ids <==> id in s.reqs && s.reqs[id].pc.Hashing?
  {
    set id | id in s.reqs && s.reqs[id].pc.Hashing?
  }

  ghost predicate SlotsMatch(s: State) {
    s.slots == |HashingNow(s)| <= 2
  }

  /** In every interleaving, the slots taken are the requests hashing right now, and never more than two. */
  lemma {:induction false} SlotsAreTheHashingRequests(s: State, events: seq<Event>)
    requires SlotsMatch(s)
    ensures SlotsMatch(Exec(s, events))
    decreases |events|
  {
    if events != [] {
      SlotsStep(s, events[0]);
      SlotsAreTheHashingRequests(Step(s, events[0]), events[1..]);
    }
  }

  function IdOf(e: Event): Option<int> {
    match e
    case Tick(_) => None
    case EnrolBurns(_, _) => None
    case Janitor => None
    case _ => Some(e.id)
  }

  /** A step moves at most the request it names. */
  lemma OnlyItsRequestMoves(s: State, e: Event)
    ensures forall i :: IdOf(e) != Some(i) ==> Get(Step(s, e).reqs, i) == Get(s.reqs, i)
  {
  }

  predicate IsHashing(s: State, x: Option<int>) {
    x.Some? && x.value in s.reqs && s.reqs[x.value].pc.Hashing?
  }

  lemma SlotsMove(s: State, e: Event)
    requires s.slots <= HASH_SLOTS && (IsHashing(s, IdOf(e)) ==> s.slots > 0)
    ensures var t := Step(s, e);
            t.slots == s.slots + (if IsHashing(t, IdOf(e)) then 1 else 0) - (if IsHashing(s, IdOf(e)) then 1 else 0)
            && t.slots <= HASH_SLOTS
  {
  }

  lemma HashingMoves(s: State, t: State, x: Option<int>)
    requires forall i :: x != Some(i) ==> Get(t.reqs, i) == Get(s.reqs, i)
    ensures |HashingNow(t)| == |HashingNow(s)| + (if IsHashing(t, x) then 1 else 0) - (if IsHashing(s, x) then 1 else 0)
  {
    forall i | x != Some(i) ensures i in HashingNow(s) <==> i in HashingNow(t) {
      assert Get(t.reqs, i) == Get(s.reqs, i);
    }
    CardDelta(HashingNow(s), HashingNow(t), x);
  }

  lemma SlotsStep(s: State, e: Event)
    requires SlotsMatch(s)
    ensures SlotsMatch(Step(s, e))
  {
    OnlyItsRequestMoves(s, e);
    HashingMoves(s, Step(s, e), IdOf(e));
    if IsHashing(s, IdOf(e)) {
      assert IdOf(e).value in HashingNow(s);
    }
    SlotsMove(s, e);
  }
}
