/** Option, the value a lookup returns when it may find nothing. */
module Optional {

  datatype Option<+T> = None | Some(value: T) {

    /** The wrapped value, or `default` when there is none. */
    function GetOr(default: T): T {
      match this
      case Some(v) => v
      case None => default
    }
  }
}

/** The rows of the hosted database that the request handlers read and
    write, held as one immutable value, and the store calls that may fail. */
module Store {

  type UserId = int
  type BakeryId = string

  /** A row of the `users` table; `passwordHash` is what the hasher produced. */
  datatype User = User(id: UserId, username: string, email: string, passwordHash: string, createdAt: int)

  /** A row of the `ratings` table. */
  datatype RatingRow = RatingRow(user: UserId, bakery: BakeryId, score: int)

  /** A row of the `favorites` table. */
  datatype FavoriteRow = FavoriteRow(user: UserId, bakery: BakeryId)

  /** The four things the handlers touch: users, ratings, the `rating` column
      of the `bakeries` table (keyed by the bakeries that exist) and favorites. */
  datatype State = State(
    users: seq<User>,
    ratings: seq<RatingRow>,
    bakeryRatings: map<BakeryId, real>,
    favorites: seq<FavoriteRow>)

  /** Which of the store calls of one request come back with an error.
      Each handler consults only the calls it makes. */
  datatype Faults = Faults(
    lookupFails: bool,
    insertFails: bool,
    upsertFails: bool,
    fetchFails: bool,
    updateFails: bool,
    deleteFails: bool)

  const NoFaults := Faults(false, false, false, false, false, false)

  predicate UniqueUserIds(users: seq<User>) {
    forall i, j :: 0 <= i < j < |users| ==> users[i].id != users[j].id
  }

  /** The store's unique constraint on (user_id, bakery_id) of `ratings`. */
  predicate UniqueRatingKeys(rows: seq<RatingRow>) {
    forall i, j :: 0 <= i < j < |rows| ==> rows[i].user != rows[j].user || rows[i].bakery != rows[j].bakery
  }

  /** The store's unique constraint on (user_id, bakery_id) of `favorites`. */
  predicate UniqueFavorites(favs: seq<FavoriteRow>) {
    forall i, j :: 0 <= i < j < |favs| ==> favs[i] != favs[j]
  }

  /** What the store itself guarantees of its tables. */
  predicate Valid(st: State) {
    && UniqueUserIds(st.users)
    && UniqueRatingKeys(st.ratings)
    && UniqueFavorites(st.favorites)
  }
}

/** The password hasher and the token service, as opaque functions. */
module Crypto {
  import opened Optional
  import opened Store

  /** The payload a token carries and the middleware hands to the handlers. */
  datatype Claims = Claims(id: UserId, email: string)

  /** Token verification with the process secret and the current clock:
      the decoded claims, or None when the signature or expiry is bad. */
  type Verifier = string -> Option<Claims>

  /** Password hashing with the salt drawn for this request. */
  type Hasher = string -> string

  /** Does this plaintext match this stored hash? */
  type Comparer = (string, string) -> bool
}

/** Status codes and JSON bodies the handlers answer with. */
module Http {
  import opened Optional
  import opened Store
  import opened Crypto

  /** The user projection sent to clients: no password field. */
  datatype PublicUser = PublicUser(id: UserId, username: string, email: string)

  /** What `/me` selects from the users table. */
  datatype Profile = Profile(id: UserId, username: string, email: string, createdAt: int)

  /** A bakery row as the favorites join returns it. */
  datatype Bakery = Bakery(id: BakeryId, rating: real)

  datatype Body =
    | Message(text: string)
      /** A session: the token signs `tokenClaims`. */
    | Session(tokenClaims: Claims, user: PublicUser)
    | ProfileBody(profile: Profile)
    | NewRating(average: real)
    | MyScore(score: Option<int>)
    | FavoriteList(items: seq<Option<Bakery>>)

  datatype Response = Response(status: int, body: Body)

  /** A handler's effect: the store after the request, and the answer. */
  datatype Outcome = Outcome(state: State, response: Response)

  const Ok := 200
  const Created := 201
  const BadRequest := 400
  const Unauthorized := 401
  const Forbidden := 403
  const ServerError := 500

  const ServerErrorText := "Server error"

  /** JavaScript truthiness of an optional string field: present and non-empty. */
  predicate Given(field: Option<string>) {
    field.Some? && field.value != ""
  }
}
