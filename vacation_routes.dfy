/** The router mounted under /api/vacations: each registration appends a route (verb, path
    pattern, middleware chain, handler), and a request goes to the first route whose verb and
    pattern match. Paths are written as their '/'-separated segments. */
module VacationRoutes {
  import opened Wrappers
  import opened Models
  import opened AuthMiddleware

  datatype Verb = Get | Post | Put | Delete

  /** A literal segment, or a `:name` parameter matching any non-empty segment. */
  datatype Segment = Lit(text: string) | Param(name: string)

  datatype Middleware = VerifyTokenMw | VerifyAdminMw

  datatype Handler = GetAllVacations | GetVacationById | CreateVacation | UpdateVacation
                   | DeleteVacation | FollowVacation | UnfollowVacation | GetVacationsReport | DownloadCsv

  datatype Route = Route(verb: Verb, pattern: seq<Segment>, chain: seq<Middleware>, handler: Handler)

  predicate SegmentMatches(s: Segment, text: string) {
    match s
    case Lit(t) => t == text
    case Param(_) => text != ""
  }

  predicate Matches(route: Route, verb: Verb, path: seq<string>) {
    route.verb == verb && |route.pattern| == |path|
    && forall i :: 0 <= i < |path| ==> SegmentMatches(route.pattern[i], path[i])
  }

  /** The position of the first route at or after `from` that matches. */
  function FirstMatch(routes: seq<Route>, verb: Verb, path: seq<string>, from: nat): (k: Option<nat>)
    requires from <= |routes|
    ensures k.Some? ==> from <= k.value < |routes| && Matches(routes[k.value], verb, path)
                        && forall j :: from <= j < k.value ==> !Matches(routes[j], verb, path)
    ensures k.None? ==> forall j :: from <= j < |routes| ==> !Matches(routes[j], verb, path)
    decreases |routes| - from
  {
    if from == |routes| then None
    else if Matches(routes[from], verb, path) then Some(from)
    else FirstMatch(routes, verb, path, from + 1)
  }

  /** The route a request reaches: the first registered one that matches. */
  function Dispatch(routes: seq<Route>, verb: Verb, path: seq<string>): (r: Option<Route>)
    ensures r.Some? ==> exists k :: && 0 <= k < |routes| && routes[k] == r.value && Matches(r.value, verb, path)
                                   && forall j :: 0 <= j < k ==> !Matches(routes[j], verb, path)
    ensures r.None? ==> forall route :: route in routes ==> !Matches(route, verb, path)
  {
    match FirstMatch(routes, verb, path, 0)
    case None => None
    case Some(k) => Some(routes[k])
  }

  class Router {
    var routes: seq<Route>

    constructor ()
      ensures routes == []
    {
      routes := [];
    }

    /** `router.get/post/put/delete(path, ...middleware, handler)`: appends one route. */
    method Register(verb: Verb, pattern: seq<Segment>, chain: seq<Middleware>, handler: Handler)
      modifies this
      ensures routes == old(routes) + [Route(verb, pattern, chain, handler)]
    {
      routes := routes + [Route(verb, pattern, chain, handler)];
    }
  }

  const Authenticated := [VerifyTokenMw]
  const AdminOnly := [VerifyTokenMw, VerifyAdminMw]

  /** The routes in registration order. */
  function VacationRouteTable(): (table: seq<Route>)
    ensures |table| == 9
  {
    [ Route(Get, [], Authenticated, GetAllVacations),
      Route(Get, [Lit("report")], AdminOnly, GetVacationsReport),
      Route(Get, [Lit("csv")], AdminOnly, DownloadCsv),
      Route(Get, [Param("id")], Authenticated, GetVacationById),
      Route(Post, [], AdminOnly, CreateVacation),
      Route(Put, [Param("id")], AdminOnly, UpdateVacation),
      Route(Delete, [Param("id")], AdminOnly, DeleteVacation),
      Route(Post, [Param("id"), Lit("follow")], Authenticated, FollowVacation),
      Route(Delete, [Param("id"), Lit("follow")], Authenticated, UnfollowVacation) ]
  }

  /** Builds the router with the nine registrations, in registration order. */
  method BuildVacationRouter() returns (router: Router)
    ensures fresh(router)
    ensures router.routes == VacationRouteTable()
  {
    router := new Router();
    router.Register(Get, [], Authenticated, GetAllVacations);
    router.Register(Get, [Lit("report")], AdminOnly, GetVacationsReport);
    router.Register(Get, [Lit("csv")], AdminOnly, DownloadCsv);
    router.Register(Get, [Param("id")], Authenticated, GetVacationById);
    router.Register(Post, [], AdminOnly, CreateVacation);
    router.Register(Put, [Param("id")], AdminOnly, UpdateVacation);
    router.Register(Delete, [Param("id")], AdminOnly, DeleteVacation);
    router.Register(Post, [Param("id"), Lit("follow")], Authenticated, FollowVacation);
    router.Register(Delete, [Param("id"), Lit("follow")], Authenticated, UnfollowVacation);
  }

  /** The handlers only an administrator may reach. */
  predicate AdminHandler(h: Handler) {
    h in {GetVacationsReport, DownloadCsv, CreateVacation, UpdateVacation, DeleteVacation}
  }

  /** Every route starts with verifyToken; the admin handlers then run verifyAdmin, the
      others nothing more. */
  lemma EveryRouteIsGuarded()
    ensures forall route :: route in VacationRouteTable() ==>
      && route.chain[0] == VerifyTokenMw
      && (AdminHandler(route.handler) ==> route.chain == AdminOnly)
      && (!AdminHandler(route.handler) ==> route.chain == Authenticated)
  {
  }

  // ---------------------------------------------------------------------------
  // Running a chain

  /** Runs the middleware in order on a request with Authorization header `header` and
      attached user `user`; the result says whether the handler is reached, and with which
      user attached. */
  function RunChain(chain: seq<Middleware>, header: Option<string>, jwt: JwtOracle, user: Option<UserDto>)
    : (res: (Outcome, Option<UserDto>))
    ensures res.0.Halt? ==> res.0.status in {UNAUTHORIZED, FORBIDDEN}
    decreases |chain|
  {
    if chain == [] then (Next, user)
    else match chain[0]
      case VerifyTokenMw =>
        (match Authenticate(header, jwt)
         case Rejected(m) => (Halt(UNAUTHORIZED, m), user)
         case Authenticated(u) => RunChain(chain[1..], header, jwt, Some(u)))
      case VerifyAdminMw =>
        var o := VerifyAdmin(user);
        if o.Halt? then (o, user) else RunChain(chain[1..], header, jwt, user)
  }

  /** A request reaches a vacation handler exactly when its token verifies, and, for the
      admin handlers, the verified user is an administrator; the handler then sees that user. */
  lemma HandlerReachedIffAuthorized(route: Route, header: Option<string>, jwt: JwtOracle)
    requires route in VacationRouteTable()
    ensures var (o, user) := RunChain(route.chain, header, jwt, None);
      && (o == Next <==> Authenticate(header, jwt).Authenticated?
                         && (AdminHandler(route.handler) ==> Authenticate(header, jwt).user.role == AdminRole))
      && (o == Next ==> user == Some(Authenticate(header, jwt).user))
  {
    EveryRouteIsGuarded();
    if route.chain == AdminOnly {
      assert route.chain[1..] == [VerifyAdminMw];
      assert route.chain[1..][1..] == [];
    } else {
      assert route.chain[1..] == [];
    }
  }

  /** "/report" and "/csv" are registered before "/:id", so GET /report and GET /csv reach
      their own handlers and any other single segment reaches getVacationById. */
  lemma LiteralPathsShadowIdParameter(id: string)
    requires id != "" && id != "report" && id != "csv"
    ensures Dispatch(VacationRouteTable(), Get, ["report"]).Some?
    ensures Dispatch(VacationRouteTable(), Get, ["report"]).value.handler == GetVacationsReport
    ensures Dispatch(VacationRouteTable(), Get, ["csv"]).Some?
    ensures Dispatch(VacationRouteTable(), Get, ["csv"]).value.handler == DownloadCsv
    ensures Dispatch(VacationRouteTable(), Get, [id]).Some?
    ensures Dispatch(VacationRouteTable(), Get, [id]).value.handler == GetVacationById
  {
    var t := VacationRouteTable();
    assert !Matches(t[0], Get, ["report"]) && Matches(t[1], Get, ["report"]);
    assert "report" != "csv" by { assert |"report"| == 6 && |"csv"| == 3; }
    assert t[1].pattern[0] == Lit("report") && !SegmentMatches(t[1].pattern[0], "csv");
    assert !Matches(t[1], Get, ["csv"]);
    assert !Matches(t[0], Get, ["csv"]) && Matches(t[2], Get, ["csv"]);
    assert !Matches(t[0], Get, [id]) && !Matches(t[1], Get, [id]) && !Matches(t[2], Get, [id]);
    assert Matches(t[3], Get, [id]);
  }
}
