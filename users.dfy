/** The user records the handlers read and write, and the shape of their replies. */
module Users {
  import opened Optional

  type Email = string
  type UserId = string

  /** A stored user document. Relations are lists of email strings, not ids. */
  datatype User = User(
    id: UserId,
    email: Email,
    firstName: string,
    lastName: string,
    image: string,
    friendRequests: seq<Email>,  // pending incoming requests, in the order they arrived
    friends: seq<Email>)         // confirmed friends

  /** The fields `select("email firstName lastName image")` keeps (and `_id`). */
  datatype Profile = Profile(id: UserId, email: Email, firstName: string, lastName: string, image: string)

  function ProfileOf(u: User): Profile
  {
    Profile(u.id, u.email, u.firstName, u.lastName, u.image)
  }

  /** The projection hides the relation lists: records that differ only in their pending
      requests and friends project to the same profile. */
  lemma ProfileIgnoresRelations(u: User, requests: seq<Email>, friends: seq<Email>)
    ensures ProfileOf(u.(friendRequests := requests, friends := friends)) == ProfileOf(u)
  {
  }

  /** An HTTP reply: a status with a JSON body, or a status with `{ error }`. */
  datatype Reply<T> = Success(status: int, body: T) | Failure(status: int, error: string)

  /** A body field the handlers test with `!field`: absent, null and "" are all falsy. */
  predicate Present(field: Option<string>)
  {
    field.Some? && field.value != ""
  }
}
