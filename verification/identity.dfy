/**
 Users, roles and the authenticated caller (`req.user`, set by the
 authentication middleware from a verified token), plus the denials the
 read and update handlers answer with.
 */
module Identity {

  type UserId = nat

  datatype Role = Customer | Wholesaler | Admin {
    /** The role as stored in the `role` field of a user document. */
    function Name(): string
    {
      match this
      case Customer => "customer"
      case Wholesaler => "wholesaler"
      case Admin => "admin"
    }
  }

  datatype User = User(
    id: UserId,
    name: string,
    email: string,
    role: Role,
    isVerified: bool,
    isActive: bool,
    createdAt: int)

  /** The authenticated caller: the user id and role carried by the token. */
  datatype Caller = Caller(id: UserId, role: Role)

  /** Refusals of the read and update handlers, each with its HTTP status. */
  datatype Denial = NotFound | Forbidden | NotWholesaler {
    function HttpStatus(): int
    {
      match this
      case NotFound => 404
      case Forbidden => 403
      case NotWholesaler => 400
    }
  }

  /** The "owner or admin" rule: the caller is the owning user or has the admin role. */
  predicate OwnerOrAdmin(caller: Caller, owner: UserId)
  {
    caller.id == owner || caller.role == Admin
  }

  function UserKey(u: User): nat
  {
    u.id
  }

  function UserCreatedAt(u: User): int
  {
    u.createdAt
  }
}
