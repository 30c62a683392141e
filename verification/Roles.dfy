/** Organization roles (internal/model/auth.go). */
module Roles {

  /** A role is text in the program; `Unknown` stands for every text that is not one of the four names,
      the empty text included. */
  datatype Role = Owner | Admin | Member | Viewer | Unknown(name: string)
  {
    /** Higher is more privileged; anything that is not a known role ranks 0. */
    function Rank(): nat {
      match this
      case Owner => 4
      case Admin => 3
      case Member => 2
      case Viewer => 1
      case Unknown(_) => 0
    }

    predicate AtLeast(min: Role) {
      Rank() >= min.Rank() && Rank() > 0
    }

    predicate Valid() {
      Rank() > 0
    }
  }

  /** Owner over admin over member over viewer; a text that is no role is at least nothing, and everything that is a
      role is at least it. */
  lemma RolesInOrder(r: Role)
    ensures r.AtLeast(Owner) <==> r == Owner
    ensures r.AtLeast(Admin) <==> r == Owner || r == Admin
    ensures r.AtLeast(Member) <==> r == Owner || r == Admin || r == Member
    ensures r.AtLeast(Viewer) <==> r == Owner || r == Admin || r == Member || r == Viewer
    ensures forall name :: r.AtLeast(Unknown(name)) <==> !r.Unknown?
    ensures r.Valid() <==> r == Owner || r == Admin || r == Member || r == Viewer
  {
  }

  /** The role of somebody who holds no membership. */
  const NO_ROLE := Unknown("")
}
