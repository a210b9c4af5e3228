/** User and token records shared by the services. */
module Users {

  datatype Role = User | Admin | SuperAdmin

  function RoleToString(role: Role): string {
    match role
    case User => "0"
    case Admin => "1"
    case SuperAdmin => "2"
  }

  /** Unknown text is an ordinary user. */
  function StringToRole(s: string): Role {
    if s == "1" then Admin else if s == "2" then SuperAdmin else User
  }

  /** A row of the users table; createdAt counts seconds. */
  datatype UserEntity = UserEntity(
    id: int,
    uuid: string,
    mobile: string,
    displayName: string,
    passwordHash: string,
    role: Role,
    disabled: bool,
    createdAt: int)

  /** What leaves the service: the row without its password hash. */
  function Hidden(u: UserEntity): (r: UserEntity)
    ensures r.passwordHash == "" && r.(passwordHash := u.passwordHash) == u
  {
    u.(passwordHash := "")
  }

  datatype TokenPair = TokenPair(access: string, refresh: string, expiresIn: int)
}
