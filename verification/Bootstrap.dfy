/** First-run setup racing with single sign-on (internal/store/auth.go, internal/server/auth_handlers.go,
    internal/server/oauth_github.go, internal/server/oauth_oidc.go): at most one instance admin, ever. */
module Bootstrap {
  import opened Common
  import opened Roles

  /** `subject` links the account to an identity provider; local accounts have none. */
  datatype User = User(login: string, isAdmin: bool, subject: Option<string>)

  /** `flag` is the `bootstrapped` row of the settings table. */
  datatype Db = Db(flag: bool, users: map<int, User>, nextUser: int, orgs: map<int, string>, nextOrg: int,
                   rows: map<(int, int), Role>)

  const EMPTY_DB := Db(false, map[], 1, map[], 1, map[])

  /** Logins and org names are unique up to the case of ASCII letters; so are lookups by them. */
  predicate LoginTaken(db: Db, login: string) {
    exists u :: u in db.users && Lower(db.users[u].login) == Lower(login)
  }

  predicate OrgTaken(db: Db, name: string) {
    exists o :: o in db.orgs && Lower(db.orgs[o]) == Lower(name)
  }

  predicate SubjectTaken(db: Db, subject: string) {
    exists u :: u in db.users && db.users[u].subject == Some(subject)
  }

  /** Both are meant up to the case of the letters. */
  lemma TakenMeans(db: Db, login: string, org: string)
    ensures LoginTaken(db, login) <==> exists u :: u in db.users && SameText(db.users[u].login, login)
    ensures OrgTaken(db, org) <==> exists o :: o in db.orgs && SameText(db.orgs[o], org)
  {
    forall u | u in db.users ensures Lower(db.users[u].login) == Lower(login) <==> SameText(db.users[u].login, login) {
      FoldsAlikeIff(db.users[u].login, login);
    }
    forall o | o in db.orgs ensures Lower(db.orgs[o]) == Lower(org) <==> SameText(db.orgs[o], org) {
      FoldsAlikeIff(db.orgs[o], org);
    }
  }

  /** The account linked to an identity. */
  ghost function LinkedUser(db: Db, subject: string): (u: int)
    requires SubjectTaken(db, subject)
    ensures u in db.users && db.users[u].subject == Some(subject)
  {
    var u :| u in db.users && db.users[u].subject == Some(subject); u
  }

  /** The claim, the admin, the default org and its ownership, in one transaction: all or nothing. */
  function BootstrapTx(db: Db, login: string): (Db, Option<int>) {
    if db.flag || LoginTaken(db, login) || OrgTaken(db, "default") then (db, None)
    else
      (Db(true, db.users[db.nextUser := User(login, true, None)], db.nextUser + 1,
          db.orgs[db.nextOrg := "default"], db.nextOrg + 1, db.rows[(db.nextOrg, db.nextUser) := Owner]),
       Some(db.nextUser))
  }

  /** An account linked to an identity; logins and subjects are unique. */
  function CreateLinked(db: Db, login: string, subject: string): (Db, Option<int>) {
    if LoginTaken(db, login) || SubjectTaken(db, subject) then (db, None)
    else
      (db.(users := db.users[db.nextUser := User(login, false, Some(subject))], nextUser := db.nextUser + 1),
       Some(db.nextUser))
  }

  /** The tables as the program changes them: statement by statement, undone as a whole on an error. */
  class AuthStore {
    var flag: bool
    var users: map<int, User>
    var nextUser: int
    var orgs: map<int, string>
    var nextOrg: int
    var rows: map<(int, int), Role>

    function Content(): Db
      reads this
    {
      Db(flag, users, nextUser, orgs, nextOrg, rows)
    }

    constructor ()
      ensures Content() == EMPTY_DB
    {
      flag, users, nextUser, orgs, nextOrg, rows := false, map[], 1, map[], 1, map[];
    }

    method BootstrapAdmin(login: string) returns (id: Option<int>)
      modifies this
      ensures id.Some? <==>
        && !old(flag) && (forall u :: u in old(users) ==> !SameText(old(users)[u].login, login))
        && (forall o :: o in old(orgs) ==> !SameText(old(orgs)[o], "default"))
      ensures id.Some? ==> flag && Get(users, id.value) == Some(User(login, true, None))
                           && (exists o :: o in orgs && orgs[o] == "default" && Get(rows, (o, id.value)) == Some(Owner))
      ensures id == None ==> Content() == old(Content())
      ensures (Content(), id) == BootstrapTx(old(Content()), login)
    {
      TakenMeans(Content(), login, "default");
      if flag {
        return None;
      }
      if LoginTaken(Content(), login) {
        return None;
      }
      if OrgTaken(Content(), "default") {
        return None;
      }
      flag := true;
      id := Some(nextUser);
      users := users[nextUser := User(login, true, None)];
      nextUser := nextUser + 1;
      orgs := orgs[nextOrg := "default"];
      rows := rows[(nextOrg, id.value) := Owner];
      assert nextOrg in orgs && orgs[nextOrg] == "default";
      nextOrg := nextOrg + 1;
    }

    /** The insert behind sign-on provisioning; the unique login and subject columns may refuse it. */
    method CreateLinkedUser(login: string, subject: string) returns (id: Option<int>)
      modifies this
      ensures id == None <==>
        exists u :: u in old(users) && (SameText(old(users)[u].login, login) || old(users)[u].subject == Some(subject))
      ensures id.Some? ==> Get(users, id.value) == Some(User(login, false, Some(subject)))
      ensures flag == old(flag) && orgs == old(orgs) && rows == old(rows)
      ensures (Content(), id) == CreateLinked(old(Content()), login, subject)
    {
      TakenMeans(Content(), login, "");
      if LoginTaken(Content(), login) || SubjectTaken(Content(), subject) {
        return None;
      }
      id := Some(nextUser);
      users := users[nextUser := User(login, false, Some(subject))];
      nextUser := nextUser + 1;
    }
  }

  // ---------------------------------------------------------------- requests

  /** `fallback` is the login an identity gets when its own is taken. */
  datatype Kind = Setup(login: string, token: string) | Sso(subject: string, candidate: string, fallback: string)

  datatype Answer = Forbidden | Invalid | Failed | AdminCreated(admin: int)
                  | SignedIn(user: int) | Provisioned(user: int)

  datatype Pc =
    | Arrived
    | FlagClear                       // the flag read as unset; the user count comes next
    | GatePassed                      // setup: token next; sign-on: may provision
    | Ready(login: string)            // setup: password hashed; sign-on: login chosen
    | MustBurn(admin: int)
    | Done(answer: Answer)

  datatype Request = Request(kind: Kind, pc: Pc)

  /** `token` is the one-time setup token held in memory. */
  datatype Shared = Shared(db: Db, token: Option<string>)

  datatype State = State(shared: Shared, reqs: map<int, Request>)

  /** `fault` makes the step fail from outside: an invalid form, no hashing slot, a refused identity, a database
      error. */
  datatype Event = Start(id: int, kind: Kind) | Advance(id: int, fault: bool)

  ghost function Move(sh: Shared, q: Request, fault: bool): (Shared, Pc) {
    if q.kind.Setup? then MoveSetup(sh, q.kind, q.pc, fault) else MoveSso(sh, q.kind, q.pc, fault)
  }

  /** Setup ignores an error of the first check, and goes on as if not bootstrapped. */
  function MoveSetup(sh: Shared, k: Kind, pc: Pc, fault: bool): (Shared, Pc)
    requires k.Setup?
  {
    match pc
    case Arrived => (sh, if fault then GatePassed else if sh.db.flag then Done(Forbidden) else FlagClear)
    case FlagClear => (sh, if fault then GatePassed else if sh.db.users != map[] then Done(Forbidden) else GatePassed)
    case GatePassed =>
      if sh.token == None || sh.token == Some("") || sh.token != Some(k.token) || fault then (sh, Done(Invalid))
      else (sh, Ready(k.login))
    case Ready(login) =>
      if fault then (sh, Done(Failed))
      else
        var (db, id) := BootstrapTx(sh.db, login);
        (sh.(db := db), if id.Some? then MustBurn(id.value) else Done(if sh.db.flag then Forbidden else Failed))
    case MustBurn(admin) => (sh.(token := None), Done(AdminCreated(admin)))
    case Done(_) => (sh, pc)
  }

  /** Sign-on of an identity that has no account: an error anywhere refuses it. */
  ghost function MoveSso(sh: Shared, k: Kind, pc: Pc, fault: bool): (Shared, Pc)
    requires k.Sso?
  {
    if pc.Done? then (sh, pc)
    else if fault then (sh, Done(Failed))
    else
      match pc
      case Arrived =>
        if SubjectTaken(sh.db, k.subject) then (sh, Done(SignedIn(LinkedUser(sh.db, k.subject))))
        else (sh, if sh.db.flag then GatePassed else FlagClear)
      case FlagClear => (sh, if sh.db.users != map[] then GatePassed else Done(Forbidden))
      case GatePassed => (sh, Ready(if LoginTaken(sh.db, k.candidate) then k.fallback else k.candidate))
      case Ready(login) =>
        var (db, id) := CreateLinked(sh.db, login, k.subject);
        (sh.(db := db), if id.Some? then Done(Provisioned(id.value)) else Done(Failed))
      case _ => (sh, Done(Failed))
  }

  ghost function Step(s: State, e: Event): State {
    match e
    case Start(id, kind) => if id in s.reqs then s else s.(reqs := s.reqs[id := Request(kind, Arrived)])
    case Advance(id, fault) =>
      if id !in s.reqs then s
      else
        var (shared, pc) := Move(s.shared, s.reqs[id], fault);
        State(shared, s.reqs[id := s.reqs[id].(pc := pc)])
  }

  ghost function Exec(s: State, events: seq<Event>): State
    decreases |events|
  {
    if events == [] then s else Exec(Step(s, events[0]), events[1..])
  }

  // ---------------------------------------------------------------- at most one admin

  /** `a` is the only instance admin, a local account, and older than every other account; all others are linked. */
  predicate FirstAndOnlyAdmin(db: Db, a: int) {
    && a in db.users && db.users[a].isAdmin && db.users[a].subject == None
    && forall u :: u in db.users && u != a ==> !db.users[u].isAdmin && db.users[u].subject.Some? && u > a
  }

  ghost predicate DbInv(db: Db) {
    && (db.flag <==> db.users != map[])
    && (db.flag ==> exists a :: FirstAndOnlyAdmin(db, a))
    && (!db.flag ==> !OrgTaken(db, "default"))
    && (forall u :: u in db.users ==> u < db.nextUser)
    && (forall u, v :: u in db.users && v in db.users && u != v && db.users[u].subject.Some? ==>
          db.users[u].subject != db.users[v].subject)
    && (forall u, v :: u in db.users && v in db.users && u != v ==>
          Lower(db.users[u].login) != Lower(db.users[v].login))
  }

  /** A sign-on past the gate has seen the instance bootstrapped. */
  ghost predicate Inv(s: State) {
    && DbInv(s.shared.db)
    && forall id :: id in s.reqs && s.reqs[id].kind.Sso? && (s.reqs[id].pc.GatePassed? || s.reqs[id].pc.Ready?) ==>
         s.shared.db.flag
  }

  lemma BootstrapKeeps(db: Db, login: string)
    requires DbInv(db)
    ensures DbInv(BootstrapTx(db, login).0)
  {
    var (after, id) := BootstrapTx(db, login);
    if id.Some? {
      assert FirstAndOnlyAdmin(after, id.value);
    }
  }

  lemma ProvisioningKeeps(db: Db, login: string, subject: string)
    requires DbInv(db) && db.flag
    ensures DbInv(CreateLinked(db, login, subject).0)
  {
    var (after, id) := CreateLinked(db, login, subject);
    var a :| FirstAndOnlyAdmin(db, a);
    assert FirstAndOnlyAdmin(after, a);
    if id.Some? {
      assert id.value in after.users;
    }
  }

  lemma MoveKeeps(sh: Shared, q: Request, fault: bool)
    requires DbInv(sh.db)
    requires q.kind.Sso? && (q.pc.GatePassed? || q.pc.Ready?) ==> sh.db.flag
    ensures var (after, pc) := Move(sh, q, fault);
            && DbInv(after.db) && (sh.db.flag ==> after.db.flag)
            && (q.kind.Sso? && (pc.GatePassed? || pc.Ready?) ==> after.db.flag)
  {
    if q.pc.Ready? {
      BootstrapKeeps(sh.db, q.pc.login);
      if q.kind.Sso? { ProvisioningKeeps(sh.db, q.pc.login, q.kind.subject); }
    }
  }

  lemma {:induction false} InvRun(s: State, events: seq<Event>)
    requires Inv(s)
    ensures Inv(Exec(s, events))
    decreases |events|
  {
    if events != [] {
      var e := events[0];
      if e.Advance? && e.id in s.reqs {
        MoveKeeps(s.shared, s.reqs[e.id], e.fault);
      }
      InvRun(Step(s, e), events[1..]);
    }
  }

  /** From an empty database, in every interleaving of setup requests and sign-ons: at most one user is ever an
      instance admin, the flag is set exactly when some user exists, and every linked account came after the
      admin and is the only one of its identity, and no two accounts share a login. */
  lemma AtMostOneAdmin(token: Option<string>, events: seq<Event>)
    ensures var db := Exec(State(Shared(EMPTY_DB, token), map[]), events).shared.db;
            && (forall u, v :: u in db.users && v in db.users && db.users[u].isAdmin && db.users[v].isAdmin ==> u == v)
            && (db.flag <==> db.users != map[]) && (!db.flag ==> !OrgTaken(db, "default"))
            && (forall u :: u in db.users && db.users[u].subject.Some? ==>
                  exists a :: FirstAndOnlyAdmin(db, a) && a < u)
            && (forall u, v :: u in db.users && v in db.users && db.users[u].subject.Some? && u != v ==>
                  db.users[u].subject != db.users[v].subject)
            && (forall u, v :: u in db.users && v in db.users && u != v ==>
                  !SameText(db.users[u].login, db.users[v].login))
  {
    InvRun(State(Shared(EMPTY_DB, token), map[]), events);
    var db := Exec(State(Shared(EMPTY_DB, token), map[]), events).shared.db;
    if db.flag {
      var a :| FirstAndOnlyAdmin(db, a);
    }
    forall u, v | u in db.users && v in db.users && u != v ensures !SameText(db.users[u].login, db.users[v].login) {
      FoldsAlikeIff(db.users[u].login, db.users[v].login);
    }
  }

  /** Once bootstrapped, always bootstrapped; and no account is ever changed or lost. */
  lemma {:induction false} BootstrappedForGood(s: State, events: seq<Event>)
    requires forall u :: u in s.shared.db.users ==> u < s.shared.db.nextUser
    ensures var t := Exec(s, events);
            && (s.shared.db.flag || s.shared.db.users != map[] ==> t.shared.db.flag || t.shared.db.users != map[])
            && (s.shared.db.flag ==> t.shared.db.flag)
            && (forall u :: u in s.shared.db.users ==> Get(t.shared.db.users, u) == Some(s.shared.db.users[u]))
    decreases |events|
  {
    if events != [] {
      var e := events[0];
      if e.Advance? && e.id in s.reqs {
        MoveOnlyAdds(s.shared, s.reqs[e.id], e.fault);
      }
      BootstrappedForGood(Step(s, e), events[1..]);
      if s.shared.db.users != map[] {
        var u :| u in s.shared.db.users;
        assert Get(Exec(s, events).shared.db.users, u).Some?;
      }
    }
  }

  lemma MoveOnlyAdds(sh: Shared, q: Request, fault: bool)
    requires forall u :: u in sh.db.users ==> u < sh.db.nextUser
    ensures var db := Move(sh, q, fault).0.db;
            && (sh.db.flag ==> db.flag)
            && (forall u :: u in db.users ==> u < db.nextUser)
            && (forall u :: u in sh.db.users ==> Get(db.users, u) == Some(sh.db.users[u]))
  {
  }

  // ---------------------------------------------------------------- one request on its own

  function Undisturbed(id: int, n: nat): seq<Event> {
    seq(n, _ => Advance(id, false))
  }

  ghost function Drive(sh: Shared, q: Request, n: nat): (Shared, Pc)
    decreases n
  {
    if n == 0 then (sh, q.pc)
    else
      var (after, pc) := Move(sh, q, false);
      Drive(after, q.(pc := pc), n - 1)
  }

  lemma {:induction false} UndisturbedIsDrive(s: State, id: int, n: nat)
    requires id in s.reqs
    ensures var (shared, pc) := Drive(s.shared, s.reqs[id], n);
            Exec(s, Undisturbed(id, n)) == State(shared, s.reqs[id := s.reqs[id].(pc := pc)])
    decreases n
  {
    if n == 0 {
      assert s.reqs[id := s.reqs[id]] == s.reqs;
    } else {
      assert Undisturbed(id, n)[1..] == Undisturbed(id, n - 1);
      UndisturbedIsDrive(Step(s, Advance(id, false)), id, n - 1);
    }
  }

  function PcOf(s: State, id: int): Option<Pc> {
    if id in s.reqs then Some(s.reqs[id].pc) else None
  }

  /** Setup on a fresh instance: with the right token it creates the admin and burns the token; without it, or once the
      flag is set or anybody exists (as on a database older than the flag), it changes nothing. */
  lemma SetupAlone(s: State, id: int, login: string, token: string)
    requires id !in s.reqs && (s.shared.db.users == map[] ==> s.shared.db.flag || !OrgTaken(s.shared.db, "default"))
    ensures var t := Exec(Step(s, Start(id, Setup(login, token))), Undisturbed(id, 5));
            var db := s.shared.db;
            var unclaimed := !db.flag && db.users == map[];
            if unclaimed && s.shared.token == Some(token) && token != ""
            then && t.shared.token == None && t.shared.db.flag
                 && t.shared.db.users == map[db.nextUser := User(login, true, None)]
                 && PcOf(t, id) == Some(Done(AdminCreated(db.nextUser)))
            else t.shared == s.shared && PcOf(t, id) == Some(Done(if unclaimed then Invalid else Forbidden))
  {
    var q := Request(Setup(login, token), Arrived);
    UndisturbedIsDrive(Step(s, Start(id, q.kind)), id, 5);
    SetupDrive(s.shared, q);
  }

  /** A setup that was overtaken after it had passed all its checks is refused, like one that comes too late, and
      changes nothing; if nobody overtook it but its login or the default org is taken, it fails. */
  lemma OvertakenSetupIsForbidden(s: State, id: int)
    requires id in s.reqs && s.reqs[id].kind.Setup? && s.reqs[id].pc.Ready?
    requires s.shared.db.flag || LoginTaken(s.shared.db, s.reqs[id].pc.login) || OrgTaken(s.shared.db, "default")
    ensures var t := Step(s, Advance(id, false));
            t.shared == s.shared && PcOf(t, id) == Some(Done(if s.shared.db.flag then Forbidden else Failed))
  {
  }

  /** A fault creates nothing. It ends a sign-on, and ends a setup except in its first two checks, whose errors are
      ignored as if nobody existed. */
  lemma FaultsCreateNothing(s: State, id: int)
    requires id in s.reqs && !s.reqs[id].pc.Done? && !s.reqs[id].pc.MustBurn?
    ensures var q, t := s.reqs[id], Step(s, Advance(id, true));
            && t.shared == s.shared
            && PcOf(t, id) == Some(if q.kind.Sso? || q.pc.Ready? then Done(Failed)
                                   else if q.pc.GatePassed? then Done(Invalid) else GatePassed)
  {
  }

  /** A request starts once. */
  lemma StartsOnce(s: State, id: int, kind: Kind)
    ensures var t := Step(s, Start(id, kind));
            if id in s.reqs then t == s else t.shared == s.shared && PcOf(t, id) == Some(Arrived)
  {
  }

  lemma SetupDrive(sh: Shared, q: Request)
    requires q.kind.Setup? && q.pc == Arrived && (sh.db.users == map[] ==> sh.db.flag || !OrgTaken(sh.db, "default"))
    ensures Drive(sh, q, 5) ==
            if sh.db.flag || sh.db.users != map[] then (sh, Done(Forbidden))
            else if sh.token != Some(q.kind.token) || q.kind.token == "" then (sh, Done(Invalid))
            else (Shared(BootstrapTx(sh.db, q.kind.login).0, None), Done(AdminCreated(sh.db.nextUser)))
    ensures !sh.db.flag && sh.db.users == map[] ==>
      && BootstrapTx(sh.db, q.kind.login).0.flag
      && BootstrapTx(sh.db, q.kind.login).0.users == map[sh.db.nextUser := User(q.kind.login, true, None)]
  {
  }

  lemma {:induction false} DriveDone(sh: Shared, q: Request, n: nat)
    requires q.pc.Done?
    ensures Drive(sh, q, n) == (sh, q.pc)
    decreases n
  {
    if n > 0 {
      assert q.(pc := q.pc) == q;
      DriveDone(sh, q, n - 1);
    }
  }

  /** A sign-on by an unknown identity: refused before setup; afterwards it gets an account that is no admin,
      unless both logins it could have are taken. */
  lemma SignOnAlone(s: State, id: int, subject: string, candidate: string, fallback: string)
    requires id !in s.reqs && !SubjectTaken(s.shared.db, subject)
    ensures var t, db := Exec(Step(s, Start(id, Sso(subject, candidate, fallback))), Undisturbed(id, 4)), s.shared.db;
            var login := if LoginTaken(db, candidate) then fallback else candidate;
            var open := db.flag || db.users != map[];
            && (!open ==> t.shared == s.shared && PcOf(t, id) == Some(Done(Forbidden)))
            && (open && LoginTaken(db, login) ==> t.shared == s.shared && PcOf(t, id) == Some(Done(Failed)))
            && (open && !LoginTaken(db, login) ==>
                  && t.shared.db.users == db.users[db.nextUser := User(login, false, Some(subject))]
                  && PcOf(t, id) == Some(Done(Provisioned(db.nextUser))))
  {
    var q := Request(Sso(subject, candidate, fallback), Arrived);
    UndisturbedIsDrive(Step(s, Start(id, q.kind)), id, 4);
    SignOnDrive(s.shared, q);
  }

  lemma SignOnDrive(sh: Shared, q: Request)
    requires q.kind.Sso? && q.pc == Arrived && !SubjectTaken(sh.db, q.kind.subject)
    ensures var db, k := sh.db, q.kind;
            var login := if LoginTaken(db, k.candidate) then k.fallback else k.candidate;
            Drive(sh, q, 4) ==
            if !db.flag && db.users == map[] then (sh, Done(Forbidden))
            else
              var (after, id) := CreateLinked(db, login, k.subject);
              (sh.(db := after), if id.Some? then Done(Provisioned(id.value)) else Done(Failed))
  {
    var db := sh.db;
    var login := if LoginTaken(db, q.kind.candidate) then q.kind.fallback else q.kind.candidate;
    var (after, made) := Move(sh, q.(pc := Ready(login)), false);
    if db.flag {
      assert Drive(sh, q, 4) == Drive(sh, q.(pc := GatePassed), 3) == Drive(sh, q.(pc := Ready(login)), 2)
          == Drive(after, q.(pc := made), 1);
      DriveDone(after, q.(pc := made), 1);
    } else if db.users != map[] {
      assert Drive(sh, q, 4) == Drive(sh, q.(pc := FlagClear), 3) == Drive(sh, q.(pc := GatePassed), 2)
          == Drive(sh, q.(pc := Ready(login)), 1) == (after, made);
    } else {
      assert Drive(sh, q, 4) == Drive(sh, q.(pc := FlagClear), 3) == Drive(sh, q.(pc := Done(Forbidden)), 2);
      DriveDone(sh, q.(pc := Done(Forbidden)), 2);
    }
  }

  /** In every run, the sign-on of an identity that has an account signs in to that account, which is the same from
      then on, and changes nothing. */
  lemma KnownIdentitySignsIn(s: State, id: int, subject: string, candidate: string, fallback: string, user: int)
    requires id !in s.reqs && DbInv(s.shared.db)
    requires user in s.shared.db.users && s.shared.db.users[user].subject == Some(subject)
    ensures var t := Exec(Step(s, Start(id, Sso(subject, candidate, fallback))), Undisturbed(id, 4));
            t.shared == s.shared && PcOf(t, id) == Some(Done(SignedIn(user)))
  {
    var q := Request(Sso(subject, candidate, fallback), Arrived);
    UndisturbedIsDrive(Step(s, Start(id, q.kind)), id, 4);
    DriveDone(s.shared, q.(pc := Done(SignedIn(user))), 3);
  }
}
