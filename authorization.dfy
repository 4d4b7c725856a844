/**
  The authorization policy the service consults. The helper's own code and its
  parsing of the role header are not part of this model: roles are a set of
  tokens with one distinguished administrator token.
 */
module Authorization {
  import opened Wrappers

  datatype Role = Admin | OtherRole(name: string)

  type Roles = set<Role>

  /** The administrator check used by the system-wide listing. */
  predicate IsAdmin(roles: Roles)
  {
    Admin in roles
  }

  /** Access is granted to the owner of the resource and to any administrator. */
  predicate OwnerOrAdmin(owner: Option<string>, requesterId: string, roles: Roles)
  {
    IsAdmin(roles) || owner == Some(requesterId)
  }
}
