/** Self-service membership requests as interleaving state machines (internal/server/orgadmin.go).

    Every database statement or transaction is one step. A request reads its authority twice (middleware and
    handler), reads the target's role, and writes in a later step, so any read may be stale by then. */
module OrgProtocol {
  import opened Common
  import opened Roles
  import opened OrgStore

  /** May a manager with effective role `eff` hand out `newRole`? */
  predicate CanAssign(eff: Role, newRole: Role) {
    newRole.Valid() && eff.AtLeast(newRole)
  }

  /** May a manager with effective role `eff` act on a member who holds `target`? */
  predicate CanActOn(eff: Role, target: Role) {
    eff.AtLeast(target)
  }

  datatype Action = Add(login: string, role: Role) | SetRole(user: int, newRole: Role) | Revoke(target: int) | Other

  datatype Answer = NotFound | Denied | NoUser | LastOwnerKept | NothingToDo | Saved | Failed

  /** Where a request stands. `eff` is the effective role the handler read, `seen` the target's role it read. */
  datatype Pc =
    | Loaded
    | Passed
    | Decided(eff: Role)
    | Assigning(eff: Role, user: int, role: Role)
    | SetPending(eff: Role, seen: Option<Role>, user: int, role: Role)
    | RemovePending(eff: Role, seen: Option<Role>, user: int)
    | Done(answer: Answer)

  /** `instanceAdmin` is the flag of the user record the session loader read. */
  datatype Request = Request(actor: int, instanceAdmin: bool, org: int, action: Action, pc: Pc)

  /** `logins` finds a user by login, whatever the case of its letters. */
  datatype State = State(orgs: set<int>, users: set<int>, admins: set<int>, logins: map<string, int>,
                         rows: Rows, reqs: map<int, Request>)

  /** `Abort` is every way a request ends without finishing: an error, a panic, a lost client. */
  datatype Event =
    | Start(id: int, actor: int, org: int, action: Action)
    | Advance(id: int)
    | Abort(id: int)
    | NewUser(user: int, login: string)
    | NewOrg(org: int)

  function Effective(s: State, q: Request): Role {
    if q.instanceAdmin then Owner else Get(s.rows, (q.org, q.actor)).GetOr(NO_ROLE)
  }

  predicate CanManage(s: State, q: Request) {
    q.org in s.orgs && (q.instanceAdmin || Effective(s, q).AtLeast(Admin))
  }

  function TxAnswer(res: TxResult): Answer {
    match res
    case Committed => Saved
    case LastOwner => LastOwnerKept
    case ForeignKey => Failed
  }

  /** What the handler does once it knows its effective role: validate the form and find the target. */
  function Dispatch(s: State, q: Request, eff: Role): Pc {
    match q.action
    case Add(login, role) =>
      if login == "" || !role.Valid() then Done(NothingToDo)
      else if Lower(login) !in s.logins then Done(NoUser)
      else Assigning(eff, s.logins[Lower(login)], role)
    case SetRole(user, newRole) =>
      if user == 0 then Done(NothingToDo)
      else if (q.org, user) !in s.rows then Done(Denied)
      else Assigning(eff, user, newRole)
    case Revoke(user) =>
      if user == 0 then Done(NothingToDo)
      else
        var cur := Get(s.rows, (q.org, user));
        if cur == None || !CanActOn(eff, cur.value) then Done(Denied)
        else RemovePending(eff, cur, user)
    case Other => Done(NothingToDo)
  }

  /** The shared grant / role-change closure up to its write. */
  function CheckTarget(s: State, q: Request, eff: Role, user: int, role: Role): Pc {
    if !CanAssign(eff, role) then Done(Denied)
    else
      var cur := Get(s.rows, (q.org, user));
      if cur != None && !CanActOn(eff, cur.value) then Done(Denied)
      else SetPending(eff, cur, user, role)
  }

  /** One step of one request: the memberships table and the program counter after it. */
  function Move(s: State, q: Request): (Rows, Pc) {
    match q.pc
    case Loaded => (s.rows, if CanManage(s, q) then Passed else Done(NotFound))
    case Passed => (s.rows, if q.org in s.orgs then Decided(Effective(s, q)) else Done(Failed))
    case Decided(eff) => (s.rows, Dispatch(s, q, eff))
    case Assigning(eff, user, role) => (s.rows, CheckTarget(s, q, eff, user, role))
    case SetPending(eff, seen, user, role) =>
      var (rows, res) := SetRoleTx(s.orgs, s.users, s.rows, q.org, user, role);
      (rows, Done(TxAnswer(res)))
    case RemovePending(eff, seen, user) =>
      var (rows, res) := RemoveTx(s.rows, q.org, user);
      (rows, Done(TxAnswer(res)))
    case Done(_) => (s.rows, q.pc)
  }

  function Step(s: State, e: Event): State {
    match e
    case Start(id, actor, org, action) =>
      if id in s.reqs || actor !in s.users then s
      else s.(reqs := s.reqs[id := Request(actor, actor in s.admins, org, action, Loaded)])
    case Advance(id) =>
      if id !in s.reqs then s
      else
        var (rows, pc) := Move(s, s.reqs[id]);
        s.(rows := rows, reqs := s.reqs[id := s.reqs[id].(pc := pc)])
    case Abort(id) =>
      if id !in s.reqs then s else s.(reqs := s.reqs[id := s.reqs[id].(pc := Done(Failed))])
    case NewUser(user, login) =>
      if user in s.users || Lower(login) in s.logins then s
      else s.(users := s.users + {user}, logins := s.logins[Lower(login) := user])
    case NewOrg(org) => s.(orgs := s.orgs + {org})
  }

  function Exec(s: State, events: seq<Event>): State
    decreases |events|
  {
    if events == [] then s else Exec(Step(s, events[0]), events[1..])
  }

  // ---------------------------------------------------------------- the last owner, and other orgs

  /** Whatever the actors (instance admins included) and whatever is already in flight, an org that has
      an owner keeps one. */
  lemma {:induction false} LastOwnerStays(s: State, events: seq<Event>, org: int)
    requires OwnersOf(s.rows, org) != {}
    ensures OwnersOf(Exec(s, events).rows, org) != {}
    decreases |events|
  {
    if events != [] {
      StepKeepsAnOwner(s, events[0], org);
      LastOwnerStays(Step(s, events[0]), events[1..], org);
    }
  }

  lemma StepKeepsAnOwner(s: State, e: Event, org: int)
    requires OwnersOf(s.rows, org) != {}
    ensures OwnersOf(Step(s, e).rows, org) != {}
  {
  }

  ghost predicate OnlyOtherOrgs(s: State, events: seq<Event>, org: int) {
    && (forall id :: id in s.reqs ==> s.reqs[id].org != org || s.reqs[id].pc.Done?)
    && (forall i :: 0 <= i < |events| && events[i].Start? ==> events[i].org != org)
  }

  /** Requests on other orgs leave this org's table exactly as it was. */
  lemma {:induction false} OtherOrgsUntouched(s: State, events: seq<Event>, org: int)
    requires OnlyOtherOrgs(s, events, org)
    ensures OrgRows(Exec(s, events).rows, org) == OrgRows(s.rows, org)
    decreases |events|
  {
    if events != [] {
      OtherOrgsStep(s, events, org);
      OtherOrgsUntouched(Step(s, events[0]), events[1..], org);
    }
  }

  lemma {:induction false} OtherOrgsStep(s: State, events: seq<Event>, org: int)
    requires events != [] && OnlyOtherOrgs(s, events, org)
    ensures OnlyOtherOrgs(Step(s, events[0]), events[1..], org)
    ensures OrgRows(Step(s, events[0]).rows, org) == OrgRows(s.rows, org)
  {
    var e, t := events[0], Step(s, events[0]);
    if e.Advance? && e.id in s.reqs {
      ElsewhereKeepsOrg(s, s.reqs[e.id], org);
    }
    forall id | id in t.reqs ensures t.reqs[id].org != org || t.reqs[id].pc.Done? {
      assert id in s.reqs || id == e.id;
    }
  }

  lemma ElsewhereKeepsOrg(s: State, q: Request, org: int)
    requires q.org != org || q.pc.Done?
    ensures OrgRows(Move(s, q).0, org) == OrgRows(s.rows, org)
  {
  }

  lemma OrgRowsGet(rows: Rows, org: int, u: int)
    ensures Get(OrgRows(rows, org), u) == Get(rows, (org, u))
  {
  }

  // ---------------------------------------------------------------- coalitions cannot escalate

  /** All requests on `org` come from a coalition whose members are not instance admins, and hold rank `r`
      or below in `org`; none is in flight yet. Requests on other orgs are unrestricted. */
  ghost predicate CoalitionStart(s: State, events: seq<Event>, org: int, coalition: set<int>, r: nat) {
    && coalition !! s.admins
    && (forall u :: u in coalition && (org, u) in s.rows ==> s.rows[(org, u)].Rank() <= r)
    && (forall id :: id in s.reqs ==> s.reqs[id].org != org || s.reqs[id].pc.Done?)
    && OnlyCoalition(events, org, coalition)
  }

  ghost predicate OnlyCoalition(events: seq<Event>, org: int, coalition: set<int>) {
    forall i :: 0 <= i < |events| && events[i].Start? && events[i].org == org ==> events[i].actor in coalition
  }

  /** The membership `u` holds in `org`, if it ranks above `r`. */
  function Above(rows: Rows, org: int, r: nat, u: int): Option<Role> {
    if (org, u) in rows && rows[(org, u)].Rank() > r then Some(rows[(org, u)]) else None
  }

  /** Every membership above rank `r` is the same in both tables. */
  ghost predicate SameAbove(a: Rows, b: Rows, org: int, r: nat) {
    forall u :: Above(a, org, r, u) == Above(b, org, r, u)
  }

  /** A request of the coalition never holds more than rank `r`, and only aims at members who rank `r` or below. */
  ghost predicate Contained(rows: Rows, q: Request, org: int, coalition: set<int>, r: nat) {
    && q.actor in coalition && !q.instanceAdmin
    && (r < 3 ==> q.pc.Loaded?)
    && match q.pc
       case Loaded => true
       case Passed => true
       case Decided(eff) => eff.Rank() <= r
       case Assigning(eff, _, _) => eff.Rank() <= r
       case SetPending(eff, _, user, role) => role.Rank() <= r && Above(rows, org, r, user) == None
       case RemovePending(eff, _, user) => Above(rows, org, r, user) == None
       case Done(_) => true
  }

  ghost predicate CoalitionInv(s0: State, s: State, org: int, coalition: set<int>, r: nat) {
    && coalition !! s.admins
    && SameAbove(s.rows, s0.rows, org, r)
    && (r < 3 ==> OrgRows(s.rows, org) == OrgRows(s0.rows, org))
    && (forall id :: id in s.reqs && s.reqs[id].org == org && !s.reqs[id].pc.Done? ==>
          Contained(s.rows, s.reqs[id], org, coalition, r))
  }

  /** No interleaving lets a coalition create, change or remove a membership above the rank it started with,
      stale reads included; below admin rank it cannot change the org at all. */
  lemma {:induction false} CoalitionCannotEscalate(s: State, events: seq<Event>, org: int, coalition: set<int>, r: nat)
    requires CoalitionStart(s, events, org, coalition, r)
    ensures SameAbove(Exec(s, events).rows, s.rows, org, r)
    ensures r < 3 ==> OrgRows(Exec(s, events).rows, org) == OrgRows(s.rows, org)
  {
    CoalitionRun(s, s, events, org, coalition, r);
  }

  /** The two cases by name. Members, viewers and strangers together cannot change the org. */
  lemma {:induction false} MembersCannotChangeTheOrg(s: State, events: seq<Event>, org: int, coalition: set<int>)
    requires coalition !! s.admins && OnlyCoalition(events, org, coalition)
    requires forall id :: id in s.reqs ==> s.reqs[id].org != org || s.reqs[id].pc.Done?
    requires forall u :: u in coalition ==>
      Get(s.rows, (org, u)) != Some(Owner) && Get(s.rows, (org, u)) != Some(Admin)
    ensures OrgRows(Exec(s, events).rows, org) == OrgRows(s.rows, org)
  {
    forall u | u in coalition && (org, u) in s.rows ensures s.rows[(org, u)].Rank() <= 2 {
      assert Get(s.rows, (org, u)) == Some(s.rows[(org, u)]);
    }
    CoalitionCannotEscalate(s, events, org, coalition, 2);
  }

  /** And with admins among them they cannot make, change or remove an owner. */
  lemma {:induction false} AdminsCannotTouchOwners(s: State, events: seq<Event>, org: int, coalition: set<int>)
    requires coalition !! s.admins && OnlyCoalition(events, org, coalition)
    requires forall id :: id in s.reqs ==> s.reqs[id].org != org || s.reqs[id].pc.Done?
    requires forall u :: u in coalition ==> Get(s.rows, (org, u)) != Some(Owner)
    ensures OwnersOf(Exec(s, events).rows, org) == OwnersOf(s.rows, org)
  {
    forall u | u in coalition && (org, u) in s.rows ensures s.rows[(org, u)].Rank() <= 3 {
      assert Get(s.rows, (org, u)) == Some(s.rows[(org, u)]);
    }
    CoalitionCannotEscalate(s, events, org, coalition, 3);
    forall u ensures u in OwnersOf(Exec(s, events).rows, org) <==> u in OwnersOf(s.rows, org) {
      assert Above(Exec(s, events).rows, org, 3, u) == Above(s.rows, org, 3, u);
    }
  }

  lemma {:induction false} CoalitionRun(s0: State, s: State, events: seq<Event>, org: int, coalition: set<int>, r: nat)
    requires OnlyCoalition(events, org, coalition)
    requires forall u :: u in coalition ==> Above(s0.rows, org, r, u) == None
    requires CoalitionInv(s0, s, org, coalition, r)
    ensures CoalitionInv(s0, Exec(s, events), org, coalition, r)
    decreases |events|
  {
    if events != [] {
      CoalitionStep(s0, s, events[0], org, coalition, r);
      CoalitionRun(s0, Step(s, events[0]), events[1..], org, coalition, r);
    }
  }

  lemma {:induction false} CoalitionStep(s0: State, s: State, e: Event, org: int, coalition: set<int>, r: nat)
    requires e.Start? && e.org == org ==> e.actor in coalition
    requires forall u :: u in coalition ==> Above(s0.rows, org, r, u) == None
    requires CoalitionInv(s0, s, org, coalition, r)
    ensures CoalitionInv(s0, Step(s, e), org, coalition, r)
  {
    if e.Advance? && e.id in s.reqs {
      var q := s.reqs[e.id];
      if q.org != org || q.pc.Done? {
        ElsewhereKeepsOrg(s, q, org);
        SameOrgSameAbove(s.rows, Move(s, q).0, org, r);
      } else {
        assert Above(s.rows, org, r, q.actor) == None;
        ContainedMove(s, q, org, coalition, r);
      }
      CoalitionAdvance(s0, s, e.id, org, coalition, r);
    }
  }

  lemma CoalitionAdvance(s0: State, s: State, id: int, org: int, coalition: set<int>, r: nat)
    requires CoalitionInv(s0, s, org, coalition, r) && id in s.reqs
    requires SameAbove(Move(s, s.reqs[id]).0, s.rows, org, r)
    requires r < 3 ==> OrgRows(Move(s, s.reqs[id]).0, org) == OrgRows(s.rows, org)
    requires var q, after := s.reqs[id], Move(s, s.reqs[id]);
             q.org == org && !after.1.Done? ==> Contained(after.0, q.(pc := after.1), org, coalition, r)
    ensures CoalitionInv(s0, Step(s, Advance(id)), org, coalition, r)
  {
  }

  /** Equal org tables hold the same memberships above any rank. */
  lemma SameOrgSameAbove(a: Rows, b: Rows, org: int, r: nat)
    requires OrgRows(a, org) == OrgRows(b, org)
    ensures SameAbove(a, b, org, r)
  {
    forall u ensures Above(a, org, r, u) == Above(b, org, r, u) {
      OrgRowsGet(a, org, u);
      OrgRowsGet(b, org, u);
    }
  }

  /** One step of a contained request keeps everything above `r`, and stays contained. */
  lemma ContainedMove(s: State, q: Request, org: int, coalition: set<int>, r: nat)
    requires q.org == org && Contained(s.rows, q, org, coalition, r)
    requires Above(s.rows, org, r, q.actor) == None
    ensures SameAbove(Move(s, q).0, s.rows, org, r)
    ensures r < 3 ==> Move(s, q).0 == s.rows
    ensures !Move(s, q).1.Done? ==> Contained(Move(s, q).0, q.(pc := Move(s, q).1), org, coalition, r)
  {
  }

  // ---------------------------------------------------------------- one request on its own

  /** A request that nothing interleaves with: it starts, and takes `n` steps. */
  function Alone(id: int, n: nat): seq<Event> {
    seq(n, _ => Advance(id))
  }

  /** The same steps, followed through the table and the program counter only. */
  function Drive(s: State, q: Request, n: nat): (Rows, Pc)
    decreases n
  {
    if n == 0 then (s.rows, q.pc)
    else
      var (rows, pc) := Move(s, q);
      Drive(s.(rows := rows), q.(pc := pc), n - 1)
  }

  function After(s: State, id: int, outcome: (Rows, Pc)): State
    requires id in s.reqs
  {
    s.(rows := outcome.0, reqs := s.reqs[id := s.reqs[id].(pc := outcome.1)])
  }

  lemma {:induction false} AloneIsDrive(s: State, id: int, n: nat)
    requires id in s.reqs
    ensures Exec(s, Alone(id, n)) == After(s, id, Drive(s, s.reqs[id], n))
    decreases n
  {
    if n == 0 {
      assert s.reqs == s.reqs[id := s.reqs[id].(pc := s.reqs[id].pc)];
    } else {
      var t := Step(s, Advance(id));
      assert Alone(id, n)[1..] == Alone(id, n - 1);
      AloneIsDrive(t, id, n - 1);
      DriveIgnoresRequests(t, s.reqs, t.reqs[id], n - 1);
      assert t.(reqs := s.reqs) == s.(rows := t.rows);
      var pc := Drive(t, t.reqs[id], n - 1).1;
      assert t.reqs[id := t.reqs[id].(pc := pc)] == s.reqs[id := s.reqs[id].(pc := pc)];
    }
  }

  lemma {:induction false} DriveIgnoresRequests(s: State, reqs: map<int, Request>, q: Request, n: nat)
    ensures Drive(s, q, n) == Drive(s.(reqs := reqs), q, n)
    decreases n
  {
    if n > 0 {
      var (rows, pc) := Move(s, q);
      DriveIgnoresRequests(s.(rows := rows), reqs, q.(pc := pc), n - 1);
      assert s.(rows := rows).(reqs := reqs) == s.(reqs := reqs).(rows := rows);
    }
  }

  /** The user a form is aimed at and the role it asks for (none: removal). Only `Add` may name a non-member. */
  function Aim(s: State, org: int, action: Action): Option<(int, Option<Role>)> {
    match action
    case Add(login, role) =>
      if login != "" && Lower(login) in s.logins then Some((s.logins[Lower(login)], Some(role))) else None
    case SetRole(u, role) => if u != 0 && (org, u) in s.rows then Some((u, Some(role))) else None
    case Revoke(u) => if u != 0 && (org, u) in s.rows then Some((u, None)) else None
    case Other => None
  }

  /** The documented privilege model, as one condition on one table: a manager holds admin or is an instance
      admin (who counts as owner), assigns only real roles up to their own, acts only on members up to their
      own, and never takes the last owner away. */
  ghost predicate Permitted(s: State, actor: int, org: int, user: int, newRole: Option<Role>) {
    var mine := if actor in s.admins then 4 else Get(s.rows, (org, actor)).GetOr(NO_ROLE).Rank();
    && org in s.orgs && mine >= 3
    && (newRole.Some? ==> 0 < newRole.value.Rank() <= mine)
    && Get(s.rows, (org, user)).GetOr(NO_ROLE).Rank() <= mine
    && (newRole != Some(Owner) ==> OwnersOf(s.rows, org) != {user})
  }

  /** The table the documented model prescribes for one request. */
  ghost function PrivilegeModel(s: State, actor: int, org: int, action: Action): Rows {
    var aim := Aim(s, org, action);
    if aim == None || !Permitted(s, actor, org, aim.value.0, aim.value.1) then s.rows
    else if aim.value.1 == None then s.rows - {(org, aim.value.0)}
    else s.rows[(org, aim.value.0) := aim.value.1.value]
  }

  /** Run alone, a request does exactly what the privilege model permits, and nothing otherwise. */
  lemma AloneMeetsThePrivilegeModel(s: State, id: int, actor: int, org: int, action: Action)
    requires id !in s.reqs && actor in s.users
    requires forall l :: l in s.logins ==> s.logins[l] in s.users
    ensures Exec(s, [Start(id, actor, org, action)] + Alone(id, 5)).rows == PrivilegeModel(s, actor, org, action)
  {
    var t := Step(s, Start(id, actor, org, action));
    var q := t.reqs[id];
    AloneFromStart(s, id, actor, org, action);
    DriveMeetsTheModel(t, q);
    SameModel(s, t.reqs, actor, org, action);
    assert t == s.(reqs := t.reqs);
  }

  /** Somebody who is neither owner nor admin of the org, nor an instance admin, changes nothing. */
  lemma {:induction false} OnlyManagersWrite(s: State, id: int, actor: int, org: int, action: Action)
    requires id !in s.reqs && actor in s.users && actor !in s.admins
    requires Get(s.rows, (org, actor)) != Some(Owner) && Get(s.rows, (org, actor)) != Some(Admin)
    requires forall l :: l in s.logins ==> s.logins[l] in s.users
    ensures Exec(s, [Start(id, actor, org, action)] + Alone(id, 5)).rows == s.rows
  {
    AloneMeetsThePrivilegeModel(s, id, actor, org, action);
  }

  /** The requests that must go through: an owner or instance admin may give any real role to any user and take any
      membership, as long as an owner remains; an admin may do so among admins, members, viewers and newcomers. */
  lemma {:induction false} ManagersWrite(s: State, id: int, actor: int, org: int, user: int, role: Role)
    requires id !in s.reqs && actor in s.users && org in s.orgs && user != 0 && (org, user) in s.rows
    requires role == Owner || role == Admin || role == Member || role == Viewer
    requires forall l :: l in s.logins ==> s.logins[l] in s.users
    requires OwnersOf(s.rows, org) != {user}
    requires || actor in s.admins || Get(s.rows, (org, actor)) == Some(Owner)
             || (Get(s.rows, (org, actor)) == Some(Admin) && role != Owner && s.rows[(org, user)] != Owner)
    ensures Exec(s, [Start(id, actor, org, SetRole(user, role))] + Alone(id, 5)).rows == s.rows[(org, user) := role]
    ensures Exec(s, [Start(id, actor, org, Revoke(user))] + Alone(id, 5)).rows == s.rows - {(org, user)}
  {
    AloneMeetsThePrivilegeModel(s, id, actor, org, SetRole(user, role));
    AloneMeetsThePrivilegeModel(s, id, actor, org, Revoke(user));
  }

  /** What the page answers, in the words of the rules: who manages the org, and what an admin may not touch. */
  predicate Manages(s: State, actor: int, org: int) {
    org in s.orgs && (actor in s.admins || Get(s.rows, (org, actor)) == Some(Owner)
                      || Get(s.rows, (org, actor)) == Some(Admin))
  }

  function AnswerFor(s: State, actor: int, org: int, user: int, newRole: Option<Role>): Answer {
    var asOwner := actor in s.admins || Get(s.rows, (org, actor)) == Some(Owner);
    if !asOwner && (newRole == Some(Owner) || Get(s.rows, (org, user)) == Some(Owner)) then Denied
    else if newRole != Some(Owner) && OwnersOf(s.rows, org) == {user} then LastOwnerKept
    else Saved
  }

  function DocumentedAnswer(s: State, actor: int, org: int, action: Action): Answer {
    if !Manages(s, actor, org) then NotFound
    else
      match action
      case Add(login, role) =>
        if login == "" || role.Unknown? then NothingToDo
        else if Lower(login) !in s.logins then NoUser
        else AnswerFor(s, actor, org, s.logins[Lower(login)], Some(role))
      case SetRole(user, role) =>
        if user == 0 then NothingToDo
        else if (org, user) !in s.rows || role.Unknown? then Denied
        else AnswerFor(s, actor, org, user, Some(role))
      case Revoke(user) =>
        if user == 0 then NothingToDo
        else if (org, user) !in s.rows then Denied
        else AnswerFor(s, actor, org, user, None)
      case Other => NothingToDo
  }

  lemma {:induction false} AnswersAlone(s: State, id: int, actor: int, org: int, action: Action)
    requires id !in s.reqs && actor in s.users
    requires forall l :: l in s.logins ==> s.logins[l] in s.users
    ensures var t := Exec(s, [Start(id, actor, org, action)] + Alone(id, 5));
            id in t.reqs && t.reqs[id].pc == Done(DocumentedAnswer(s, actor, org, action))
  {
    var t := Step(s, Start(id, actor, org, action));
    var q := t.reqs[id];
    AloneFromStart(s, id, actor, org, action);
    DriveFromDecision(t, q);
    if CanManage(t, q) {
      var d := q.(pc := Dispatch(t, q, Effective(t, q)));
      DriveWrites(t, d);
      DispatchAnswers(t, q);
    }
  }

  lemma DispatchAnswers(s: State, q: Request)
    requires q.instanceAdmin == (q.actor in s.admins) && CanManage(s, q)
    requires forall l :: l in s.logins ==> s.logins[l] in s.users
    ensures var answer, pc := DocumentedAnswer(s, q.actor, q.org, q.action), Dispatch(s, q, Effective(s, q));
            && (pc.Done? ==> pc == Done(answer))
            && (pc.RemovePending? ==> TxAnswer(RemoveTx(s.rows, q.org, pc.user).1) == answer)
            && (pc.Assigning? ==>
                  var checked := CheckTarget(s, q, pc.eff, pc.user, pc.role);
                  && (checked.SetPending? ==>
                        TxAnswer(SetRoleTx(s.orgs, s.users, s.rows, q.org, pc.user, pc.role).1) == answer)
                  && (!checked.SetPending? ==> checked == Done(answer)))
            && !pc.SetPending? && (pc.Done? || pc.RemovePending? || pc.Assigning?)
  {
  }

  /** In every run, users and orgs only become more, instance admins stay the same, and a login keeps its user. */
  lemma {:induction false} AccountsOnlyGrow(s: State, events: seq<Event>)
    ensures var t := Exec(s, events);
            && s.users <= t.users && s.orgs <= t.orgs && s.admins == t.admins
            && (forall l :: l in s.logins ==> Get(t.logins, l) == Some(s.logins[l]))
    decreases |events|
  {
    if events != [] {
      AccountsOnlyGrow(Step(s, events[0]), events[1..]);
    }
  }

  /** A new account can be found by its login in any case; one whose login is taken is not made; and a request starts
      only if it is new and its actor has an account. A new org exists, and an aborted request has written nothing. */
  lemma NewAccountsAndRequests(s: State, user: int, login: string, other: string,
                               id: int, actor: int, org: int, a: Action)
    requires SameText(login, other)
    ensures var t := Step(s, NewUser(user, login));
            if user !in s.users && Lower(other) !in s.logins
            then user in t.users && Get(t.logins, Lower(other)) == Some(user) else t == s
    ensures var t := Step(s, Start(id, actor, org, a));
            if id !in s.reqs && actor in s.users
            then Get(t.reqs, id) == Some(Request(actor, actor in s.admins, org, a, Loaded)) else t == s
    ensures org in Step(s, NewOrg(org)).orgs
    ensures var t := Step(s, Abort(id));
            t.rows == s.rows && (id in s.reqs ==> id in t.reqs && t.reqs[id].pc == Done(Failed))
  {
    FoldsAlikeIff(login, other);
  }

  lemma {:induction false} AloneFromStart(s: State, id: int, actor: int, org: int, action: Action)
    requires id !in s.reqs && actor in s.users
    ensures var t := Step(s, Start(id, actor, org, action));
            Exec(s, [Start(id, actor, org, action)] + Alone(id, 5)) == After(t, id, Drive(t, t.reqs[id], 5))
  {
    var t := Step(s, Start(id, actor, org, action));
    assert ([Start(id, actor, org, action)] + Alone(id, 5))[1..] == Alone(id, 5);
    AloneIsDrive(t, id, 5);
  }

  lemma SameModel(s: State, reqs: map<int, Request>, actor: int, org: int, action: Action)
    ensures PrivilegeModel(s, actor, org, action) == PrivilegeModel(s.(reqs := reqs), actor, org, action)
  {
  }

  lemma DriveMeetsTheModel(s: State, q: Request)
    requires q.pc == Loaded && q.instanceAdmin == (q.actor in s.admins)
    requires forall l :: l in s.logins ==> s.logins[l] in s.users
    ensures Drive(s, q, 5).0 == PrivilegeModel(s, q.actor, q.org, q.action)
  {
    DriveFromDecision(s, q);
    if CanManage(s, q) {
      var d := q.(pc := Dispatch(s, q, Effective(s, q)));
      DriveWrites(s, d);
      match q.action
      case Revoke(u) => RevokeMeetsTheModel(s, q);
      case Other =>
      case _ =>
        if d.pc.Assigning? {
          AssignMeetsTheModel(s, q, d.pc.user, d.pc.role);
        }
    } else {
      NoManagerNoPermission(s, q);
    }
  }

  lemma NoManagerNoPermission(s: State, q: Request)
    requires q.instanceAdmin == (q.actor in s.admins)
    requires !CanManage(s, q)
    ensures forall u, r :: !Permitted(s, q.actor, q.org, u, r)
  {
  }

  lemma AssignMeetsTheModel(s: State, q: Request, user: int, role: Role)
    requires q.instanceAdmin == (q.actor in s.admins) && CanManage(s, q)
    requires user in s.users || (q.org, user) in s.rows
    ensures (if CheckTarget(s, q, Effective(s, q), user, role).SetPending?
             then SetRoleTx(s.orgs, s.users, s.rows, q.org, user, role).0 else s.rows) ==
            if Permitted(s, q.actor, q.org, user, Some(role)) then s.rows[(q.org, user) := role] else s.rows
  {
  }

  lemma RevokeMeetsTheModel(s: State, q: Request)
    requires q.instanceAdmin == (q.actor in s.admins) && CanManage(s, q) && q.action.Revoke?
    ensures (if Dispatch(s, q, Effective(s, q)).RemovePending?
             then RemoveTx(s.rows, q.org, q.action.target).0 else s.rows) == PrivilegeModel(s, q.actor, q.org, q.action)
  {
  }

  /** The first three steps only read. */
  lemma DriveFromDecision(s: State, q: Request)
    requires q.pc == Loaded
    ensures Drive(s, q, 5) ==
            if !CanManage(s, q) then (s.rows, Done(NotFound))
            else Drive(s, q.(pc := Dispatch(s, q, Effective(s, q))), 2)
  {
  }

  lemma {:induction false} DriveDone(s: State, q: Request, n: nat)
    requires q.pc.Done?
    ensures Drive(s, q, n) == (s.rows, q.pc)
  {
    if n > 0 {
      assert s.(rows := s.rows) == s && q.(pc := q.pc) == q;
      DriveDone(s, q, n - 1);
    }
  }

  /** The last two steps: check the target, write. */
  lemma DriveWrites(s: State, q: Request)
    ensures q.pc.Assigning? ==>
      Drive(s, q, 2).0 ==
      if CheckTarget(s, q, q.pc.eff, q.pc.user, q.pc.role).SetPending?
      then SetRoleTx(s.orgs, s.users, s.rows, q.org, q.pc.user, q.pc.role).0 else s.rows
    ensures q.pc.Assigning? ==>
      var checked := CheckTarget(s, q, q.pc.eff, q.pc.user, q.pc.role);
      Drive(s, q, 2).1 ==
      if checked.SetPending?
      then Done(TxAnswer(SetRoleTx(s.orgs, s.users, s.rows, q.org, q.pc.user, q.pc.role).1)) else checked
    ensures q.pc.RemovePending? ==>
      var (rows, res) := RemoveTx(s.rows, q.org, q.pc.user); Drive(s, q, 2) == (rows, Done(TxAnswer(res)))
    ensures q.pc.Done? ==> Drive(s, q, 2) == (s.rows, q.pc)
  {
  }

  // ---------------------------------------------------------------- stale reads

  /** What a request about to write has checked: the role it hands out and the role it saw are within its own. */
  predicate Licensed(q: Request) {
    match q.pc
    case SetPending(eff, seen, _, role) => CanAssign(eff, role) && (seen == None || CanActOn(eff, seen.value))
    case RemovePending(eff, seen, _) => seen.Some? && CanActOn(eff, seen.value)
    case _ => true
  }

  /** Whose row a request about to write is after. */
  function Target(q: Request): (k: Key)
    requires q.pc.SetPending? || q.pc.RemovePending?
    ensures k.0 == q.org
  {
    (q.org, q.pc.user)
  }

  /** The step the request takes next gives or takes no role above its effective role, in any row. */
  ghost predicate RespectsRank(s: State, q: Request, eff: Role) {
    forall u :: Get(Move(s, q).0, (q.org, u)) != Get(s.rows, (q.org, u)) ==>
      && Get(Move(s, q).0, (q.org, u)).GetOr(NO_ROLE).Rank() <= eff.Rank()
      && Get(s.rows, (q.org, u)).GetOr(NO_ROLE).Rank() <= eff.Rank()
  }

  /** The handler's guard, asked again at the moment of the write. */
  predicate GuardHolds(s: State, q: Request)
    requires q.pc.SetPending? || q.pc.RemovePending?
  {
    CanActOn(q.pc.eff, Get(s.rows, Target(q)).GetOr(NO_ROLE))
  }

  /** A pending write respects ranks if and only if the guard still holds or the target is the only owner, whom the
      transaction protects. */
  lemma WriteRespectsRankIff(s: State, q: Request)
    requires Licensed(q) && (q.pc.SetPending? || q.pc.RemovePending?)
    ensures RespectsRank(s, q, q.pc.eff) <==> GuardHolds(s, q) || OwnersOf(s.rows, q.org) == {q.pc.user}
  {
    var rows := Move(s, q).0;
    if OwnersOf(s.rows, q.org) == {q.pc.user} {
      assert q.pc.user in OwnersOf(s.rows, q.org);
      assert Get(rows, Target(q)) == Get(s.rows, Target(q));
    } else if !GuardHolds(s, q) {
      assert Target(q) in s.rows && Get(rows, Target(q)) != Get(s.rows, Target(q));
    }
  }

  /** In every run, a pending write respects ranks if and only if the handler's guard holds at the write or the target
      is the only owner; in particular if the target still holds the role that was read. So only a change that slipped
      in between the read and the write can make it hit a member who outranks the writer. */
  lemma {:induction false} OnlyARaceOutranks(s: State, events: seq<Event>)
    requires forall id :: id in s.reqs ==> Licensed(s.reqs[id])
    ensures forall id :: id in Exec(s, events).reqs ==> Licensed(Exec(s, events).reqs[id])
    ensures forall id :: id in Exec(s, events).reqs ==> RanksAtTheWrite(Exec(s, events), Exec(s, events).reqs[id])
    decreases |events|
  {
    if events == [] {
      forall id | id in s.reqs ensures RanksAtTheWrite(s, s.reqs[id]) {
        LicensedRanks(s, s.reqs[id]);
      }
    } else {
      OnlyARaceOutranks(Step(s, events[0]), events[1..]);
    }
  }

  ghost predicate RanksAtTheWrite(s: State, q: Request) {
    q.pc.SetPending? || q.pc.RemovePending? ==>
      && (RespectsRank(s, q, q.pc.eff) <==> GuardHolds(s, q) || OwnersOf(s.rows, q.org) == {q.pc.user})
      && (Get(s.rows, Target(q)) == q.pc.seen ==> GuardHolds(s, q))
  }

  lemma LicensedRanks(s: State, q: Request)
    requires Licensed(q)
    ensures RanksAtTheWrite(s, q)
  {
    if q.pc.SetPending? || q.pc.RemovePending? {
      WriteRespectsRankIff(s, q);
    }
  }

  // ---------------------------------------------------------------- is a role change ever an add?

  /** Every membership is one of an org and a user that exist. */
  ghost predicate ForeignKeys(s: State) {
    && (forall k :: k in s.rows ==> k.0 in s.orgs && k.1 in s.users)
    && (forall l :: l in s.logins ==> s.logins[l] in s.users)
  }

  /** The row a role change is about, once its handler has seen that row. */
  function RoleChange(s: State, id: int): Option<Key> {
    if id in s.reqs && s.reqs[id].action.SetRole? && (s.reqs[id].pc.Assigning? || s.reqs[id].pc.SetPending?)
    then Some((s.reqs[id].org, s.reqs[id].action.user)) else None
  }

  /** Does some event take away the row of role change `id` after its handler has seen it? */
  ghost predicate RemovedSince(s: State, events: seq<Event>, id: int)
    decreases |events|
  {
    events != [] &&
    (RowTaken(s, events[0], id) || RemovedSince(Step(s, events[0]), events[1..], id))
  }

  predicate RowTaken(s: State, e: Event, id: int) {
    var k := RoleChange(s, id);
    k.Some? && k.value in s.rows && k.value !in Step(s, e).rows
  }

  /** A role change in progress names its own target, a user who exists; and the row is there, or `gone`. */
  ghost predicate SawItsRow(s: State, id: int, gone: bool) {
    var k := RoleChange(s, id);
    k.Some? ==> && s.reqs[id].pc.user == k.value.1 && k.value.0 in s.orgs && k.value.1 in s.users
                && (gone || k.value in s.rows)
  }

  lemma ForeignKeysStay(s: State, e: Event)
    requires ForeignKeys(s)
    ensures ForeignKeys(Step(s, e))
  {
  }

  lemma RoleChangeStep(s: State, e: Event, id: int, gone: bool)
    requires ForeignKeys(s) && SawItsRow(s, id, gone)
    ensures SawItsRow(Step(s, e), id, gone || RowTaken(s, e, id))
  {
  }

  lemma {:induction false} RoleChangeRun(s: State, events: seq<Event>, id: int, gone: bool)
    requires ForeignKeys(s) && SawItsRow(s, id, gone)
    ensures SawItsRow(Exec(s, events), id, gone || RemovedSince(s, events, id))
    decreases |events|
  {
    if events != [] {
      ForeignKeysStay(s, events[0]);
      RoleChangeStep(s, events[0], id, gone);
      RoleChangeRun(Step(s, events[0]), events[1..], id, gone || RowTaken(s, events[0], id));
    }
  }

  /** In every run, the write of a role change is an add if and only if the row is absent at the write; and it is
      absent only if somebody removed it after the handler saw it, whatever the second read of the row said. */
  lemma RoleChangeAddsIff(s: State, events: seq<Event>, id: int)
    requires ForeignKeys(s) && RoleChange(s, id) == None
    ensures var t := Exec(s, events);
            id in t.reqs && t.reqs[id].action.SetRole? && t.reqs[id].pc.SetPending? ==>
              var k := (t.reqs[id].org, t.reqs[id].action.user);
              && ((k !in t.rows && k in Move(t, t.reqs[id]).0) <==> k !in t.rows)
              && (k !in t.rows ==> RemovedSince(s, events, id))
  {
    RoleChangeRun(s, events, id, false);
    var t := Exec(s, events);
    if RoleChange(t, id).Some? && t.reqs[id].pc.SetPending? {
      var k := RoleChange(t, id).value;
      if k !in t.rows {
        assert k.1 !in OwnersOf(t.rows, k.0);
      }
    }
  }

  /** An org with an owner (1), a member (2) and an admin (3); the admin asks to make the member a viewer. */
  const RACE: State := State({7}, {1, 2, 3}, {}, map[],
                             map[(7, 1) := Owner, (7, 2) := Member, (7, 3) := Admin], map[])

  /** The admin has checked everything and is about to write. */
  const PENDING: State :=
    RACE.(reqs := map[10 := Request(3, false, 7, SetRole(2, Viewer), SetPending(Admin, Some(Member), 2, Viewer))])

  lemma PendingIsReached()
    ensures Exec(Step(RACE, Start(10, 3, 7, SetRole(2, Viewer))), Alone(10, 4)) == PENDING
  {
  }

  /** Then the owner's whole request runs. */
  function RaceWith(action: Action): State {
    Exec(PENDING, [Start(11, 1, 7, action)] + Alone(11, 5))
  }

  lemma RaceRows(action: Action)
    ensures 10 in RaceWith(action).reqs && RaceWith(action).reqs[10] == PENDING.reqs[10]
    ensures RaceWith(action).rows == PrivilegeModel(PENDING, 1, 7, action)
    ensures RaceWith(action).orgs == {7} && RaceWith(action).users == {1, 2, 3}
  {
    AloneFromStart(PENDING, 11, 1, 7, action);
    AloneMeetsThePrivilegeModel(PENDING, 11, 1, 7, action);
  }

  /** The rule "an admin cannot touch an owner" fails under a race: the owner promotes the member to owner
      between the admin's check and the admin's write, and the admin's write still lands. */
  lemma StaleWriteDemotesAnOwner()
    ensures var s := RaceWith(SetRole(2, Owner));
            Get(s.rows, (7, 2)) == Some(Owner) && Get(Step(s, Advance(10)).rows, (7, 2)) == Some(Viewer)
  {
    var s := RaceWith(SetRole(2, Owner));
    RaceRows(SetRole(2, Owner));
    assert 1 in OwnersOf(PENDING.rows, 7) && 1 in OwnersOf(s.rows, 7);
  }

  /** The rule "set-role is never an add" fails the same way: the member is removed in between, and the
      set-role request inserts the membership again. */
  lemma StaleSetRoleAddsAMember()
    ensures var s := RaceWith(Revoke(2));
            Get(s.rows, (7, 2)) == None && Get(Step(s, Advance(10)).rows, (7, 2)) == Some(Viewer)
  {
    var s := RaceWith(Revoke(2));
    RaceRows(Revoke(2));
    assert 1 in OwnersOf(PENDING.rows, 7) && 1 in OwnersOf(s.rows, 7);
  }
}
