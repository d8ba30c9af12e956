/**
 * What every GraphQL resolver receives and may throw: the `user` the
 * authentication middleware attached to the request (backend/src/index.ts
 * passes `{ user: req.user }` as the context), and the errors of the resolvers.
 */
module Context {
  import opened Wrappers

  /** The minimal user object the middleware attaches: the id from the token only. */
  datatype User = User(id: int)

  datatype ResolverError =
    | Unauthorized
      /** `No templates found for type: <type>`. */
    | NoTemplatesFound(message: string)
      /** Prisma's error for an update or delete whose `where` matches no row. */
    | RecordNotFound
      /** Prisma's error for a date argument that `new Date(...)` could not read. */
    | InvalidDate

  /** The first line of every resolver: `if (!user) throw new Error("Unauthorized")`. */
  function RequireUser(user: Option<User>): (r: Result<User, ResolverError>)
    ensures r.Ok? <==> user.Some?
    ensures r.Ok? ==> r.value == user.value
    ensures r.Err? ==> r.error == Unauthorized
  {
    match user
    case None => Err(Unauthorized)
    case Some(u) => Ok(u)
  }
}
