/** User roles; only ADMIN carries authority in this core. */
module Roles {
  import opened Wrappers

  datatype Role = Admin | Moderator | User

  /** `isAdmin`: identity comparison with ADMIN. */
  predicate IsAdmin(r: Role)
    ensures IsAdmin(r) <==> DisplayName(r) == "Admin"
  {
    r == Admin
  }

  /** `getDisplayName`. */
  function DisplayName(r: Role): (name: string)
    ensures name != [] && 'A' <= name[0] <= 'Z'
    ensures forall i :: 1 <= i < |name| ==> 'a' <= name[i] <= 'z'
  {
    match r
    case Admin => "Admin"
    case Moderator => "Moderator"
    case User => "User"
  }

  /** The service's test `role != null && role.isAdmin()`: a missing role is never admin. */
  predicate HasAdminRole(role: Option<Role>)
  {
    role.Some? && IsAdmin(role.value)
  }

  /** Exactly ADMIN is admin: MODERATOR and USER are not, and a null role is not. */
  lemma AdminExactly(role: Option<Role>)
    ensures HasAdminRole(role) <==> role == Some(Admin)
    ensures !HasAdminRole(Some(Moderator)) && !HasAdminRole(Some(User)) && !HasAdminRole(None)
  {
  }

  /** The display names tell the roles apart. */
  lemma DisplayNamesDistinct(a: Role, b: Role)
    requires DisplayName(a) == DisplayName(b)
    ensures a == b
  {
  }
}
