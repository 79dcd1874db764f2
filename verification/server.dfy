/** `Server.handler` in `src/v2/attempt2.ts`: the request pipeline. Global
    before-middleware, the date check, the route lookup, local
    before-middleware, the route handler, local after-middleware and global
    after-middleware run in this order over one event, each phase looking at
    whether the reply has been sent; anything that throws ends the request
    with status 500.

    User code (middleware user handlers, route handlers) and `Reply.toResponse`
    are parameters of a `World`; the clock is the parameter `today`. */
module Server {
  import opened Wrappers
  import opened Utils
  import opened Events
  import RequestData
  import Middlewares
  import Routing

  /** The four middleware lists of a request. */
  datatype Phase = GlobalBefore | LocalBefore | LocalAfter | GlobalAfter

  /** What ran, in order: a middleware of a phase (by its index in its list),
      the route lookup, or the route handler. */
  datatype Step = Ran(phase: Phase, index: nat) | Find | Handler

  datatype Response = Response(status: nat, body: Option<Body>)

  /** `new Response(null, { status: 500 })`. */
  const ServerError: Response := Response(500, None)

  /** The header that carries the requested compatibility date. */
  const DateHeader: string := "x-compatibility-date"

  /** A route handler, which works on the event in place: the event it
      leaves, or `None` when it throws. */
  type RouteHandler = (RequestData.Data, EventState) -> Option<EventState>

  /** The code the model does not look into: user handlers of middleware and
      routes (by identity), and `Reply.toResponse` (`None` when it throws). */
  datatype World = World(
    users: nat -> Middlewares.UserHandler,
    handlers: nat -> RouteHandler,
    toResponse: Reply -> Option<Response>)

  /** How a part of the pipeline ends: the event it leaves (`None` when
      something threw) and what ran. */
  datatype Outcome = Outcome(state: Option<EventState>, trace: seq<Step>)

  /** The middleware of a list from index `from` on, one after the other. With
      `stop`, the run ends after the first middleware that leaves the reply
      sent; a middleware that throws ends it too. */
  function Chain(w: World, phase: Phase, mws: seq<Middlewares.Middleware>, data: RequestData.Data,
                 st: EventState, stop: bool, from: nat): (o: Outcome)
    requires from <= |mws|
    ensures |o.trace| <= |mws| - from
    ensures forall j | 0 <= j < |o.trace| :: o.trace[j] == Ran(phase, from + j)
    ensures o.state.None? ==> |o.trace| > 0
    ensures o.state.Some? && |o.trace| < |mws| - from ==> stop && o.state.value.reply.Sent?
    decreases |mws| - from
  {
    if from == |mws| then Outcome(Some(st), [])
    else
      var mw := mws[from];
      match Middlewares.Run(mw.handler, w.users(mw.handler.user), data, st)
      case None => Outcome(None, [Ran(phase, from)])
      case Some(next) =>
        if stop && next.reply.Sent? then Outcome(Some(next), [Ran(phase, from)])
        else
          var rest := Chain(w, phase, mws, data, next, stop, from + 1);
          Outcome(rest.state, [Ran(phase, from)] + rest.trace)
  }

  /** One step of a chain that goes on past index `from`. */
  lemma ChainStep(w: World, phase: Phase, mws: seq<Middlewares.Middleware>, data: RequestData.Data,
                  st: EventState, stop: bool, from: nat, trace: seq<Step>)
    requires from < |mws|
    requires var next := Middlewares.Run(mws[from].handler, w.users(mws[from].handler.user), data, st);
      next.Some? && !(stop && next.value.reply.Sent?)
    ensures var next := Middlewares.Run(mws[from].handler, w.users(mws[from].handler.user), data, st).value;
      var here := Chain(w, phase, mws, data, st, stop, from);
      var rest := Chain(w, phase, mws, data, next, stop, from + 1);
      Outcome(here.state, trace + here.trace) == Outcome(rest.state, (trace + [Ran(phase, from)]) + rest.trace)
  {
    var next := Middlewares.Run(mws[from].handler, w.users(mws[from].handler.user), data, st).value;
    var rest := Chain(w, phase, mws, data, next, stop, from + 1);
    assert trace + ([Ran(phase, from)] + rest.trace) == (trace + [Ran(phase, from)]) + rest.trace;
  }

  /** `compatibilityDate && new Date(compatibilityDate) > new Date()`: a
      present, non-empty date header naming a day after today. */
  predicate IsFutureDate(date: Option<string>, today: nat) {
    date.Some? && date.value != "" && DayOf(date.value).Some? && DayOf(date.value).value > today
  }

  /** A day past the end of its month runs on into the next month: the
      31st of February 2025 is after the 2nd of March. */
  lemma FutureDateRollsOver()
    ensures IsFutureDate(Some("2025-02-31"), CivilDay(2025, 3, 2))
    ensures !IsFutureDate(Some("2025-02-31"), CivilDay(2025, 3, 3))
  {
    var s := "2025-02-31";
    assert Number(s, 0, 4) == Some(2025);
    assert Number(s, 5, 7) == Some(2);
    assert Number(s, 8, 10) == Some(31);
    RollOver(2025, 2, 31);
  }

  /** The route handler, run only while the reply is unsent. */
  function RunHandler(w: World, route: Routing.Route, data: RequestData.Data, st: EventState): (o: Outcome)
    ensures o.trace == [] <==> st.reply.Sent?
    ensures st.reply.Sent? ==> o.state == Some(st)
  {
    if st.reply.Sent? then Outcome(Some(st), [])
    else Outcome(w.handlers(route.handler)(data, st), [Handler])
  }

  /** The route part of the pipeline, once a route was found: path
      parameters, local before-middleware (stopping once the reply is sent),
      the handler, and all local after-middleware. */
  function RouteLogic(w: World, route: Routing.Route, rules: PathRules, prefix: Option<string>,
                      data: RequestData.Data, st: EventState): Outcome
  {
    var withParams := st.(params := rules.parameters(data.pathname, route.pathname, prefix));
    var before := Chain(w, LocalBefore, route.before, data, withParams, true, 0);
    if before.state.None? then Outcome(None, before.trace)
    else
      var handled := RunHandler(w, route, data, before.state.value);
      if handled.state.None? then Outcome(None, before.trace + handled.trace)
      else
        var after := Chain(w, LocalAfter, route.after, data, handled.state.value, false, 0);
        Outcome(after.state, before.trace + handled.trace + after.trace)
  }

  /** The query `find` receives: the event's pathname and method, and the
      date header as it is. */
  function QueryOf(data: RequestData.Data): Routing.Query {
    Routing.Query(data.pathname, data.httpMethod, RequestData.Header(data.headers, DateHeader), false)
  }

  /** The main logic, entered while the reply is unsent: a future date is a
      bad request; otherwise the route is looked up, and a missing one is not
      found. */
  function MainLogic(w: World, routes: seq<Routing.Route>, rules: PathRules, prefix: Option<string>,
                     data: RequestData.Data, st: EventState, today: nat): Outcome
  {
    if IsFutureDate(RequestData.Header(data.headers, DateHeader), today) then
      Outcome(Some(st.(reply := BadRequest)), [])
    else
      match Routing.Lookup(routes, QueryOf(data), rules)
      case None => Outcome(Some(st.(reply := NotFound)), [Find])
      case Some(route) =>
        var o := RouteLogic(w, route, rules, prefix, data, st);
        Outcome(o.state, [Find] + o.trace)
  }

  /** What handling a request ends in: the response, what ran, and whether
      the catch-all caught something. */
  datatype Handled = Handled(response: Response, trace: seq<Step>, caught: bool)

  /** The handler once the event is built: global before-middleware
      (stopping once the reply is sent), the main logic while the reply is
      unsent, all global after-middleware, and the reply turned into a
      response. */
  function Serve(w: World, routes: seq<Routing.Route>, rules: PathRules, prefix: Option<string>,
                 before: seq<Middlewares.Middleware>, after: seq<Middlewares.Middleware>,
                 data: RequestData.Data, today: nat): (h: Handled)
    ensures h.caught ==> h.response == ServerError
  {
    var g := Chain(w, GlobalBefore, before, data, Initial, true, 0);
    if g.state.None? then Handled(ServerError, g.trace, true)
    else
      var m := if g.state.value.reply.Sent? then Outcome(g.state, [])
               else MainLogic(w, routes, rules, prefix, data, g.state.value, today);
      if m.state.None? then Handled(ServerError, g.trace + m.trace, true)
      else
        var a := Chain(w, GlobalAfter, after, data, m.state.value, false, 0);
        if a.state.None? then Handled(ServerError, g.trace + m.trace + a.trace, true)
        else
          match w.toResponse(a.state.value.reply)
          case None => Handled(ServerError, g.trace + m.trace + a.trace, true)
          case Some(response) => Handled(response, g.trace + m.trace + a.trace, false)
  }

  /** The whole handler, over the routes `init` left: building the event
      throws on a malformed url-encoded body, and the catch-all answers 500
      before anything ran. */
  function Dispatch(w: World, routes: seq<Routing.Route>, rules: PathRules, prefix: Option<string>,
                    before: seq<Middlewares.Middleware>, after: seq<Middlewares.Middleware>,
                    request: RequestData.Request, today: nat): (h: Handled)
    ensures h.caught ==> h.response == ServerError
    ensures RequestData.FromRequest(request).Failure? ==> h.caught && h.trace == []
  {
    match RequestData.FromRequest(request)
    case Failure(_) => Handled(ServerError, [], true)
    case Success(data) => Serve(w, routes, rules, prefix, before, after, data, today)
  }

  // ---------- what runs ----------

  /** A step that belongs to a route: its middleware or its handler. */
  predicate RouteStep(s: Step) {
    s == Handler || (s.Ran? && (s.phase == LocalBefore || s.phase == LocalAfter))
  }

  /** A stopping chain stops right after the first middleware that leaves the
      reply sent: whenever it ran the middleware at index `n`, running only
      the ones before it leaves the reply unsent. */
  lemma {:induction false} ChainShortCircuit(w: World, phase: Phase, mws: seq<Middlewares.Middleware>,
                                             data: RequestData.Data, st: EventState, from: nat, n: nat)
    requires from < n <= |mws|
    requires |Chain(w, phase, mws, data, st, true, from).trace| > n - from
    ensures var p := Chain(w, phase, mws[..n], data, st, true, from);
      p.state.Some? && p.state.value.reply.Unsent? && |p.trace| == n - from
    decreases n - from
  {
    var mw := mws[from];
    assert mws[..n][from] == mw;
    var next := Middlewares.Run(mw.handler, w.users(mw.handler.user), data, st);
    assert next.Some? && next.value.reply.Unsent?;
    if from + 1 < n {
      ChainShortCircuit(w, phase, mws, data, next.value, from + 1, n);
    }
  }

  /** A non-stopping chain that throws nowhere runs every middleware of the list. */
  lemma ChainRunsAll(w: World, phase: Phase, mws: seq<Middlewares.Middleware>,
                     data: RequestData.Data, st: EventState)
    requires Chain(w, phase, mws, data, st, false, 0).state.Some?
    ensures |Chain(w, phase, mws, data, st, false, 0).trace| == |mws|
  {
  }

  /** A future date header is a bad request: the route is not looked up, no
      route code runs, and only global middleware runs. */
  lemma FutureDateSkipsRoute(w: World, routes: seq<Routing.Route>, rules: PathRules, prefix: Option<string>,
                             before: seq<Middlewares.Middleware>, after: seq<Middlewares.Middleware>,
                             data: RequestData.Data, today: nat)
    requires IsFutureDate(RequestData.Header(data.headers, DateHeader), today)
    ensures var h := Serve(w, routes, rules, prefix, before, after, data, today);
      forall s | s in h.trace :: s.Ran? && (s.phase == GlobalBefore || s.phase == GlobalAfter)
  {
    var g := Chain(w, GlobalBefore, before, data, Initial, true, 0);
    var h := Serve(w, routes, rules, prefix, before, after, data, today);
    if g.state.Some? {
      var m := if g.state.value.reply.Sent? then Outcome(g.state, [])
               else MainLogic(w, routes, rules, prefix, data, g.state.value, today);
      if g.state.value.reply.Unsent? {
        FutureDateReply(w, routes, rules, prefix, data, g.state.value, today);
      }
      assert m.trace == [] && m.state.Some?;
      var a := Chain(w, GlobalAfter, after, data, m.state.value, false, 0);
      assert h.trace == g.trace + a.trace;
      GlobalStepsOnly(g.trace, a.trace);
    } else {
      GlobalStepsOnly(g.trace, []);
      assert h.trace == g.trace + [];
    }
  }

  /** Runs of global before- and then global after-middleware are global steps only. */
  lemma GlobalStepsOnly(first: seq<Step>, second: seq<Step>)
    requires forall j | 0 <= j < |first| :: first[j] == Ran(GlobalBefore, j)
    requires forall j | 0 <= j < |second| :: second[j] == Ran(GlobalAfter, j)
    ensures forall s | s in first + second :: s.Ran? && (s.phase == GlobalBefore || s.phase == GlobalAfter)
  {
    forall s | s in first + second ensures s.Ran? && (s.phase == GlobalBefore || s.phase == GlobalAfter) {
      if s in first {
        var j :| 0 <= j < |first| && first[j] == s;
      } else {
        var j :| 0 <= j < |second| && second[j] == s;
      }
    }
  }

  /** A global before-middleware that sends the reply short-circuits the
      request: no lookup, no route code, and only global middleware runs. */
  lemma GlobalShortCircuit(w: World, routes: seq<Routing.Route>, rules: PathRules, prefix: Option<string>,
                           before: seq<Middlewares.Middleware>, after: seq<Middlewares.Middleware>,
                           data: RequestData.Data, today: nat)
    requires Chain(w, GlobalBefore, before, data, Initial, true, 0).state.Some?
    requires Chain(w, GlobalBefore, before, data, Initial, true, 0).state.value.reply.Sent?
    ensures var h := Serve(w, routes, rules, prefix, before, after, data, today);
      forall s | s in h.trace :: s.Ran? && (s.phase == GlobalBefore || s.phase == GlobalAfter)
  {
    var g := Chain(w, GlobalBefore, before, data, Initial, true, 0);
    var a := Chain(w, GlobalAfter, after, data, g.state.value, false, 0);
    var h := Serve(w, routes, rules, prefix, before, after, data, today);
    assert h.trace == g.trace + a.trace;
    GlobalStepsOnly(g.trace, a.trace);
  }

  /** What reaches the catch-all. `mid` is the event state global
      after-middleware start from: the main logic's, or the global
      before-middleware's when they sent the reply, and `None` when either
      threw. A throw there, in global after-middleware or in `toResponse`
      gives the 500 response; otherwise the response is `toResponse` of the
      reply global after-middleware left. */
  lemma ServeCatchAll(w: World, routes: seq<Routing.Route>, rules: PathRules, prefix: Option<string>,
                      before: seq<Middlewares.Middleware>, after: seq<Middlewares.Middleware>,
                      data: RequestData.Data, today: nat)
    returns (mid: Option<EventState>)
    ensures var g := Chain(w, GlobalBefore, before, data, Initial, true, 0);
      mid == if g.state.None? then None
             else if g.state.value.reply.Sent? then g.state
             else MainLogic(w, routes, rules, prefix, data, g.state.value, today).state
    ensures var h := Serve(w, routes, rules, prefix, before, after, data, today);
      var g := Chain(w, GlobalBefore, before, data, Initial, true, 0);
      && (g.state.None? ==> h.caught && h.response == ServerError && h.trace == g.trace)
      && (mid.None? ==> h.caught && h.response == ServerError)
    ensures var h := Serve(w, routes, rules, prefix, before, after, data, today);
      mid.Some? ==>
        var a := Chain(w, GlobalAfter, after, data, mid.value, false, 0);
        && (a.state.None? ==> h.caught && h.response == ServerError)
        && (a.state.Some? ==> (h.caught <==> w.toResponse(a.state.value.reply).None?))
        && (a.state.Some? && !h.caught ==> w.toResponse(a.state.value.reply) == Some(h.response))
  {
    var g := Chain(w, GlobalBefore, before, data, Initial, true, 0);
    mid := if g.state.None? then None
           else if g.state.value.reply.Sent? then g.state
           else MainLogic(w, routes, rules, prefix, data, g.state.value, today).state;
  }

  /** What the main logic leaves when it gets to the date check: a future date
      gives the bad-request reply and no steps. */
  lemma FutureDateReply(w: World, routes: seq<Routing.Route>, rules: PathRules, prefix: Option<string>,
                        data: RequestData.Data, st: EventState, today: nat)
    requires IsFutureDate(RequestData.Header(data.headers, DateHeader), today)
    ensures MainLogic(w, routes, rules, prefix, data, st, today).trace == []
    ensures MainLogic(w, routes, rules, prefix, data, st, today).state == Some(st.(reply := BadRequest))
  {
  }

  /** When no route qualifies the reply is not found, the lookup is the only
      step, and no route code runs. */
  lemma MissingRouteIsNotFound(w: World, routes: seq<Routing.Route>, rules: PathRules, prefix: Option<string>,
                               data: RequestData.Data, st: EventState, today: nat)
    requires !IsFutureDate(RequestData.Header(data.headers, DateHeader), today)
    requires Routing.Lookup(routes, QueryOf(data), rules).None?
    ensures var m := MainLogic(w, routes, rules, prefix, data, st, today);
      m.trace == [Find] && m.state == Some(st.(reply := NotFound))
      && forall s | s in m.trace :: !RouteStep(s)
  {
  }

  /** The route handler runs exactly when local before-middleware all returned
      and left the reply unsent; it runs at most once, after them. */
  lemma HandlerRunsIffUnsent(w: World, route: Routing.Route, rules: PathRules, prefix: Option<string>,
                             data: RequestData.Data, st: EventState)
    ensures var withParams := st.(params := rules.parameters(data.pathname, route.pathname, prefix));
      var before := Chain(w, LocalBefore, route.before, data, withParams, true, 0);
      var o := RouteLogic(w, route, rules, prefix, data, st);
      (Handler in o.trace <==> before.state.Some? && before.state.value.reply.Unsent?)
      && (Handler in o.trace ==> o.trace[|before.trace|] == Handler)
  {
    var withParams := st.(params := rules.parameters(data.pathname, route.pathname, prefix));
    var before := Chain(w, LocalBefore, route.before, data, withParams, true, 0);
    var o := RouteLogic(w, route, rules, prefix, data, st);
    assert Handler !in before.trace;
    if before.state.Some? {
      var handled := RunHandler(w, route, data, before.state.value);
      if handled.state.Some? {
        var after := Chain(w, LocalAfter, route.after, data, handled.state.value, false, 0);
        assert Handler !in after.trace;
        assert o.trace == before.trace + handled.trace + after.trace;
      }
    }
  }

  /** When nothing in the route part throws, every local after-middleware
      runs, in list order, whether or not the reply was sent. */
  lemma LocalAfterRunsAll(w: World, route: Routing.Route, rules: PathRules, prefix: Option<string>,
                          data: RequestData.Data, st: EventState)
    requires RouteLogic(w, route, rules, prefix, data, st).state.Some?
    ensures var o := RouteLogic(w, route, rules, prefix, data, st);
      forall j | 0 <= j < |route.after| :: Ran(LocalAfter, j) in o.trace
  {
    var withParams := st.(params := rules.parameters(data.pathname, route.pathname, prefix));
    var before := Chain(w, LocalBefore, route.before, data, withParams, true, 0);
    var handled := RunHandler(w, route, data, before.state.value);
    var after := Chain(w, LocalAfter, route.after, data, handled.state.value, false, 0);
    var o := RouteLogic(w, route, rules, prefix, data, st);
    assert o.trace == before.trace + handled.trace + after.trace;
    forall j | 0 <= j < |route.after| ensures Ran(LocalAfter, j) in o.trace {
      ChainRunsAll(w, LocalAfter, route.after, data, handled.state.value);
      assert after.trace[j] == Ran(LocalAfter, j);
    }
  }

  /** Whenever the catch-all does not fire, every global after-middleware ran,
      after a bad request, a missing route or a short-circuit alike. */
  lemma GlobalAfterRunsAll(w: World, routes: seq<Routing.Route>, rules: PathRules, prefix: Option<string>,
                           before: seq<Middlewares.Middleware>, after: seq<Middlewares.Middleware>,
                           data: RequestData.Data, today: nat)
    requires !Serve(w, routes, rules, prefix, before, after, data, today).caught
    ensures var h := Serve(w, routes, rules, prefix, before, after, data, today);
      forall j | 0 <= j < |after| :: Ran(GlobalAfter, j) in h.trace
  {
    var g := Chain(w, GlobalBefore, before, data, Initial, true, 0);
    var m := if g.state.value.reply.Sent? then Outcome(g.state, [])
             else MainLogic(w, routes, rules, prefix, data, g.state.value, today);
    var a := Chain(w, GlobalAfter, after, data, m.state.value, false, 0);
    var h := Serve(w, routes, rules, prefix, before, after, data, today);
    assert h.trace == g.trace + m.trace + a.trace;
    forall j | 0 <= j < |after| ensures Ran(GlobalAfter, j) in h.trace {
      ChainRunsAll(w, GlobalAfter, after, data, m.state.value);
      assert a.trace[j] == Ran(GlobalAfter, j);
    }
  }

  // ---------- the server object ----------

  /** A server: its router (the second router) and its global middleware. */
  class Server {
    const router: Routing.Router
    const before: seq<Middlewares.Middleware>
    const after: seq<Middlewares.Middleware>

    /** A new server with an empty, ready router. */
    constructor(prefix: Option<string>, rules: PathRules,
                before: seq<Middlewares.Middleware>, after: seq<Middlewares.Middleware>)
      ensures fresh(router) && router.variant == Routing.Attempt2
      ensures router.prefix == prefix && router.rules == rules
      ensures router.routes == [] && router.ready && router.Valid()
      ensures this.before == before && this.after == after
    {
      router := new Routing.Router(Routing.Attempt2, prefix, rules);
      this.before := before;
      this.after := after;
    }

    /** `server.route`, which is the router's `register`. */
    method Route(options: Routing.RouteOptions, handler: nat) returns (error: Option<string>)
      requires router.Valid()
      modifies router
      ensures router.Valid()
      ensures error == Routing.RegisterError(router.variant, router.rules, Routing.BuildRoute(router.prefix, options, handler))
      ensures error.None? ==> router.routes == old(router.routes) + [Routing.BuildRoute(router.prefix, options, handler)]
      ensures error.Some? ==> router.routes == old(router.routes) && router.ready == old(router.ready)
    {
      error := router.Register(options, handler);
    }

    /** One middleware list over the event, in list order, stopping after a
        middleware that leaves the reply sent when `stop` is set. */
    static method RunChain(w: World, phase: Phase, mws: seq<Middlewares.Middleware>, e: Event, stop: bool)
      returns (threw: bool, trace: seq<Step>)
      modifies e
      ensures var o := Chain(w, phase, mws, e.data, old(e.State()), stop, 0);
        trace == o.trace && (threw <==> o.state.None?) && (!threw ==> e.State() == o.state.value)
    {
      trace := [];
      var i := 0;
      while i < |mws|
        invariant 0 <= i <= |mws|
        invariant var rest := Chain(w, phase, mws, e.data, e.State(), stop, i);
          Chain(w, phase, mws, e.data, old(e.State()), stop, 0) == Outcome(rest.state, trace + rest.trace)
      {
        var mw := mws[i];
        ghost var before := e.State();
        threw := Middlewares.Apply(mw.handler, w.users(mw.handler.user), e);
        if threw {
          trace := trace + [Ran(phase, i)];
          return;
        }
        if stop && e.reply.Sent? {
          trace := trace + [Ran(phase, i)];
          return;
        }
        ChainStep(w, phase, mws, e.data, before, stop, i, trace);
        trace := trace + [Ran(phase, i)];
        i := i + 1;
      }
      threw := false;
    }

    /** The route part over the event: path parameters, local
        before-middleware, the handler while the reply is unsent, and local
        after-middleware. */
    method RoutePhase(w: World, route: Routing.Route, e: Event) returns (threw: bool, trace: seq<Step>)
      modifies e
      ensures var o := RouteLogic(w, route, router.rules, router.prefix, e.data, old(e.State()));
        trace == o.trace && (threw <==> o.state.None?) && (!threw ==> e.State() == o.state.value)
    {
      e.params := router.rules.parameters(e.data.pathname, route.pathname, router.prefix);
      var t;
      threw, trace := RunChain(w, LocalBefore, route.before, e, true);
      if threw {
        return;
      }
      if e.reply.Unsent? {
        var out := w.handlers(route.handler)(e.data, e.State());
        trace := trace + [Handler];
        if out.None? {
          return true, trace;
        }
        e.Assign(out.value);
      }
      threw, t := RunChain(w, LocalAfter, route.after, e, false);
      trace := trace + t;
    }

    /** The main logic over the event: the date check, the lookup, and the
        route part. */
    method MainPhase(w: World, e: Event, today: nat) returns (threw: bool, trace: seq<Step>)
      modifies e
      ensures var o := MainLogic(w, router.routes, router.rules, router.prefix, e.data, old(e.State()), today);
        trace == o.trace && (threw <==> o.state.None?) && (!threw ==> e.State() == o.state.value)
    {
      var date := RequestData.Header(e.data.headers, DateHeader);
      if IsFutureDate(date, today) {
        e.reply := BadRequest;
        return false, [];
      }
      var found := router.Find(QueryOf(e.data));
      if found.None? {
        e.reply := NotFound;
        return false, [Find];
      }
      var t;
      threw, t := RoutePhase(w, found.value, e);
      trace := [Find] + t;
    }

    /** `handler`: initialises the router, then handles the request as
        `Dispatch` describes over the routes `init` left. */
    method Handle(w: World, request: RequestData.Request, today: nat) returns (response: Response, trace: seq<Step>)
      requires router.Valid()
      modifies router
      ensures router.Valid() && router.ready
      ensures old(router.ready) ==> router.routes == old(router.routes)
      ensures multiset(router.routes) == multiset(old(router.routes))
      ensures Routing.SameSlots(old(router.routes), router.routes)
      ensures Routing.AdjacentSorted(router.routes)
      ensures var h := Dispatch(w, router.routes, router.rules, router.prefix, before, after, request, today);
        response == h.response && trace == h.trace
    {
      router.Init();
      var data := RequestData.FromRequest(request);
      if data.Failure? {
        return ServerError, [];
      }
      var e := new Event(data.value);
      response, trace := ServeEvent(w, e, today);
    }

    /** The handler over a new event. */
    method ServeEvent(w: World, e: Event, today: nat) returns (response: Response, trace: seq<Step>)
      requires e.State() == Initial
      modifies e
      ensures var h := Serve(w, router.routes, router.rules, router.prefix, before, after, e.data, today);
        response == h.response && trace == h.trace
    {
      var threw, t := RunChain(w, GlobalBefore, before, e, true);
      trace := t;
      if threw {
        return ServerError, trace;
      }
      if e.reply.Unsent? {
        threw, t := MainPhase(w, e, today);
        trace := trace + t;
        if threw {
          return ServerError, trace;
        }
      }
      threw, t := RunChain(w, GlobalAfter, after, e, false);
      trace := trace + t;
      if threw {
        return ServerError, trace;
      }
      var r := w.toResponse(e.reply);
      if r.None? {
        return ServerError, trace;
      }
      return r.value, trace;
    }
  }
}
