/** The routes of the auth, favorites and ratings routers, with the gate in
    front of every route except register and login. */
module Api {
  import opened Optional
  import opened Store
  import opened Crypto
  import opened Http
  import opened BearerHeader
  import opened AuthMiddleware
  import AuthRoutes
  import RatingRoutes
  import FavoriteRoutes

  datatype Route =
    | Register(register: AuthRoutes.RegisterRequest)
    | Login(login: AuthRoutes.LoginRequest)
    | Me
    | AddFavorite(itemId: BakeryId)
    | RemoveFavorite(itemId: BakeryId)
    | MyFavorites
    | SubmitRating(bakeryId: Option<BakeryId>, score: Option<int>)
    | MyRating(ratedBakery: BakeryId)

  /** A request: the `Authorization` header and what the path and body ask for.
      No route carries a user id: the acting user comes from the token. */
  datatype Request = Request(authorization: Option<string>, route: Route)

  /** What lies outside the handlers: the token verifier, the hasher with
      this request's salt, the comparer, the clock, and which store calls fail. */
  datatype Env = Env(verify: Verifier, hash: Hasher, compare: Comparer, now: int, faults: Faults)

  predicate Protected(route: Route) {
    !(route.Register? || route.Login?)
  }

  /** The header carries a token and the verifier accepts it. */
  predicate Verified(req: Request, env: Env) {
    TokenOf(req.authorization).Some? && env.verify(TokenOf(req.authorization).value).Some?
  }

  /** The claims of a verified token: the only source of the acting user. */
  function SubjectOf(req: Request, env: Env): Claims
    requires Verified(req, env)
  {
    env.verify(TokenOf(req.authorization).value).value
  }

  /** The handler of a protected route, run for the verified `user`. */
  function Handle(st: State, route: Route, user: Claims, env: Env): Outcome
    requires Protected(route)
  {
    match route
    case Me => Outcome(st, AuthRoutes.Me(st, user, env.faults))
    case AddFavorite(item) => FavoriteRoutes.AddFavorite(st, user.id, item, env.faults)
    case RemoveFavorite(item) => FavoriteRoutes.RemoveFavorite(st, user.id, item, env.faults)
    case MyFavorites => Outcome(st, FavoriteRoutes.MyFavorites(st, user.id, env.faults))
    case SubmitRating(b, s) => RatingRoutes.SubmitRating(st, user.id, b, s, env.faults)
    case MyRating(b) => Outcome(st, RatingRoutes.MyRating(st, user.id, b, env.faults))
  }

  function Dispatch(st: State, req: Request, env: Env): (o: Outcome)
    ensures Protected(req.route) && Gate(req.authorization, env.verify).Denied? ==>
      o == Outcome(st, Gate(req.authorization, env.verify).response)
    ensures Protected(req.route) && o.response.status !in {Unauthorized, Forbidden} ==>
      Gate(req.authorization, env.verify).Proceed?
    ensures req.route.Login? || req.route.Me? || req.route.MyFavorites? || req.route.MyRating? ==> o.state == st
    ensures Valid(st) ==> Valid(o.state)
    ensures req.route.Register? ==> o == AuthRoutes.Register(st, req.route.register, env.faults, env.hash, env.now)
    ensures req.route.Login? ==> o == Outcome(st, AuthRoutes.Login(st, req.route.login, env.faults, env.compare))
    ensures Protected(req.route) && o.response.status == Ok ==> Verified(req, env)
    ensures req.route.RemoveFavorite? && o.response.status == Ok ==>
      forall x :: x in o.state.favorites <==>
        x in st.favorites && x != FavoriteRow(SubjectOf(req, env).id, req.route.itemId)
    ensures req.route.MyFavorites? && o.response.status == Ok ==>
      var ids := FavoriteRoutes.FavoriteBakeries(st.favorites, SubjectOf(req, env).id);
      && o.response.body.FavoriteList?
      && |o.response.body.items| == |ids|
      && forall k :: 0 <= k < |ids| ==> o.response.body.items[k] == FavoriteRoutes.JoinBakery(st, ids[k])
    ensures (req.route.SubmitRating? && Verified(req, env) && !env.faults.upsertFails
             && RatingRoutes.ValidSubmission(req.route.bakeryId, req.route.score)) ==>
      o.state.ratings ==
        RatingRoutes.Upsert(st.ratings, SubjectOf(req, env).id, req.route.bakeryId.value, req.route.score.value)
    ensures req.route.MyRating? && Valid(st) && o.response.status == Ok ==>
      && o.response.body.MyScore?
      && o.response.body.score == RatingRoutes.ScoreOf(st.ratings, SubjectOf(req, env).id, req.route.ratedBakery)
    ensures req.route.Me? && o.response.status == Ok ==>
      && o.response.body.ProfileBody?
      && o.response.body.profile.id == SubjectOf(req, env).id
      && exists u :: u in st.users && u.id == SubjectOf(req, env).id && u.email == o.response.body.profile.email
  {
    match req.route
    case Register(r) => AuthRoutes.Register(st, r, env.faults, env.hash, env.now)
    case Login(r) => Outcome(st, AuthRoutes.Login(st, r, env.faults, env.compare))
    case _ =>
      match Gate(req.authorization, env.verify)
      case Denied(response) => Outcome(st, response)
      case Proceed(user) => Handle(st, req.route, user, env)
  }

  /** Whatever the header says, a protected route acts for the subject of
      the verified token: the favorite added is the token subject's. */
  lemma FavoriteIsForTokenSubject(st: State, req: Request, env: Env)
    requires req.route.AddFavorite?
    requires Dispatch(st, req, env).response.status == Ok
    ensures TokenOf(req.authorization).Some? && env.verify(TokenOf(req.authorization).value).Some?
    ensures Dispatch(st, req, env).state.favorites ==
      st.favorites + [FavoriteRow(env.verify(TokenOf(req.authorization).value).value.id, req.route.itemId)]
  {
  }

  /** Two requests whose headers verify to the same claims get the same outcome. */
  lemma OnlyClaimsMatter(st: State, r1: Request, r2: Request, env: Env)
    requires r1.route == r2.route && Protected(r1.route)
    requires TokenOf(r1.authorization).Some? && TokenOf(r2.authorization).Some?
    requires env.verify(TokenOf(r1.authorization).value) == env.verify(TokenOf(r2.authorization).value)
    ensures Dispatch(st, r1, env) == Dispatch(st, r2, env)
  {
  }
}
