/** `entities.Role`, `entities.Permission` and `entities.RolePerm`. */
module EntitiesRole {
  import OperationType

  datatype Role = Role(id: string, precedence: int)

  /** A permission node's identity: resource, operation, and deny (false) or
      allow (true). */
  datatype Permission = Permission(resourceID: string, typeRWMD: OperationType.OpType, status: bool)

  datatype RolePerm = RolePerm(role: Role, perm: Permission)
}
