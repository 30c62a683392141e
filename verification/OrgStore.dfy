/** Guarded membership transactions and org-scoped token revocation (internal/store/orgadmin.go). */
module OrgStore {
  import opened Common
  import opened Roles

  /** The memberships table: its primary key is (org, user). */
  type Key = (int, int)
  type Rows = map<Key, Role>

  /** `ForeignKey` is the insert the database refuses because the org or the user does not exist. */
  datatype TxResult = Committed | LastOwner | ForeignKey

  datatype IngestToken = IngestToken(org: int, revoked: bool)

  function OwnersOf(rows: Rows, org: int): (owners: set<int>)
    ensures forall u :: u in owners <==> (org, u) in rows && rows[(org, u)] == Owner
  {
    set k | k in rows && k.0 == org && rows[k] == Owner :: k.1
  }

  function OrgRows(rows: Rows, org: int): map<int, Role> {
    map k | k in rows && k.0 == org :: k.1 := rows[k]
  }

  /** The grant / role-change transaction as one atomic step. */
  function SetRoleTx(orgs: set<int>, users: set<int>, rows: Rows, org: int, user: int, role: Role): (Rows, TxResult) {
    if role != Owner && OwnersOf(rows, org) == {user} then (rows, LastOwner)
    else if (org, user) !in rows && (org !in orgs || user !in users) then (rows, ForeignKey)
    else (rows[(org, user) := role], Committed)
  }

  /** The removal transaction as one atomic step. */
  function RemoveTx(rows: Rows, org: int, user: int): (Rows, TxResult) {
    if OwnersOf(rows, org) == {user} then (rows, LastOwner)
    else (rows - {(org, user)}, Committed)
  }

  /** Neither transaction can take an org from some owner to none, and each touches at most its own row. */
  lemma TransactionsKeepAnOwner(orgs: set<int>, users: set<int>, rows: Rows,
                                org: int, user: int, role: Role, other: int)
    ensures OwnersOf(rows, other) != {} ==> OwnersOf(SetRoleTx(orgs, users, rows, org, user, role).0, other) != {}
    ensures OwnersOf(rows, other) != {} ==> OwnersOf(RemoveTx(rows, org, user).0, other) != {}
  {
  }

  class MembershipStore {
    const orgs: set<int>
    const users: set<int>
    var rows: Rows
    var tokens: map<int, IngestToken>

    constructor (orgs: set<int>, users: set<int>)
      ensures this.orgs == orgs && this.users == users && rows == map[] && tokens == map[]
    {
      this.orgs, this.users, rows, tokens := orgs, users, map[], map[];
    }

    /** SELECT COUNT(*) over the owner rows of one org. */
    function CountOwners(org: int): (n: nat)
      reads this
      ensures n == |OwnersOf(rows, org)|
    {
      |set k | k in rows && k.0 == org && rows[k] == Owner :: k.1|
    }

    method SetMembershipRole(org: int, user: int, newRole: Role) returns (res: TxResult)
      modifies this`rows
      ensures res == LastOwner <==> newRole != Owner && OwnersOf(old(rows), org) == {user}
      ensures res == ForeignKey ==> (org, user) !in old(rows)
      ensures rows == if res == Committed then old(rows)[(org, user) := newRole] else old(rows)
      ensures (rows, res) == SetRoleTx(orgs, users, old(rows), org, user, newRole)
    {
      var cur := Get(rows, (org, user));
      if cur == Some(Owner) && newRole != Owner {
        var owners := CountOwners(org);
        SingletonCard(OwnersOf(rows, org), user);
        if owners <= 1 {
          return LastOwner;
        }
      }
      if cur == None && (org !in orgs || user !in users) {
        assert user !in OwnersOf(rows, org);
        return ForeignKey;
      }
      assert cur != Some(Owner) ==> user !in OwnersOf(rows, org);
      rows := rows[(org, user) := newRole];
      return Committed;
    }

    method RemoveMembershipGuarded(org: int, user: int) returns (res: TxResult)
      modifies this`rows
      ensures res == LastOwner <==> OwnersOf(old(rows), org) == {user}
      ensures res != ForeignKey
      ensures res == LastOwner ==> rows == old(rows)
      ensures res == Committed ==> forall k :: Get(rows, k) == (if k == (org, user) then None else Get(old(rows), k))
      ensures (rows, res) == RemoveTx(old(rows), org, user)
    {
      var cur := Get(rows, (org, user));
      if cur == None {
        assert user !in OwnersOf(rows, org);
        assert rows - {(org, user)} == rows;
        return Committed;
      }
      if cur == Some(Owner) {
        var owners := CountOwners(org);
        SingletonCard(OwnersOf(rows, org), user);
        if owners <= 1 {
          return LastOwner;
        }
      }
      assert cur != Some(Owner) ==> user !in OwnersOf(rows, org);
      rows := rows - {(org, user)};
      return Committed;
    }

    /** One UPDATE restricted to the org: no other org's token can be revoked through it. */
    method RevokeIngestTokenInOrg(id: int, org: int) returns (revoked: bool)
      modifies this`tokens
      ensures revoked <==> id in old(tokens) && old(tokens)[id].org == org
      ensures forall t ::
        Get(tokens, t) == if t == id && revoked then Some(IngestToken(org, true)) else Get(old(tokens), t)
    {
      revoked := id in tokens && tokens[id].org == org;
      if revoked {
        tokens := tokens[id := tokens[id].(revoked := true)];
      }
    }
  }
}
