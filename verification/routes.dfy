/** Which handler of the HTTP adapter (main.py) a request reaches. The
    framework tries the routes in the order the decorators register them and
    the first one that matches the verb and every path segment handles the
    request; a `{task_id}` parameter matches any non-empty segment. */
module Routes {
  import opened Wrappers
  import opened Tasks

  // ---------------------------------------------------------------------
  // Ids as the text the path carries

  /** `str(n)` for a natural number: its decimal digits, most significant
      first, as `generate_id` writes them (main.py:57). */
  function IdText(n: nat): (r: string)
    ensures |r| > 0
    ensures forall k :: 0 <= k < |r| ==> '0' <= r[k] <= '9'
    ensures n < 10 <==> |r| == 1
  {
    var digit := ['0' + (n % 10) as char];
    if n < 10 then digit
    else
      var front := IdText(n / 10);
      front + digit
  }

  /** No stored id, whatever its value, is the text "stats". */
  lemma IdTextIsNeverStats(n: nat)
    ensures IdText(n) != "stats"
  {
    assert '0' <= IdText(n)[0] <= '9';
    assert "stats"[0] == 's';
  }

  // ---------------------------------------------------------------------
  // Routes and first-match dispatch

  datatype Segment = Lit(text: string) | Param

  datatype Handler = ListHandler | CreateHandler | GetHandler | StatusHandler | StatsHandler

  datatype Route = Route(verb: string, pattern: seq<Segment>, handler: Handler)

  predicate SegmentMatches(s: Segment, part: string)
  {
    match s
    case Lit(text) => part == text
    case Param => part != ""
  }

  predicate RouteMatches(r: Route, verb: string, parts: seq<string>)
  {
    && r.verb == verb
    && |r.pattern| == |parts|
    && forall k :: 0 <= k < |parts| ==> SegmentMatches(r.pattern[k], parts[k])
  }

  /** The handler of the first route that matches, or None for "no route". */
  function Dispatch(routes: seq<Route>, verb: string, parts: seq<string>): (r: Option<Handler>)
    ensures r.None? <==> forall k :: 0 <= k < |routes| ==> !RouteMatches(routes[k], verb, parts)
    decreases |routes|
  {
    if |routes| == 0 then None
    else if RouteMatches(routes[0], verb, parts) then Some(routes[0].handler)
    else
      assert forall k :: 1 <= k < |routes| ==> routes[1..][k - 1] == routes[k];
      Dispatch(routes[1..], verb, parts)
  }

  /** A request that is dispatched went to a route that matches it, and no
      earlier route matches it. */
  lemma {:induction false} DispatchFindsFirst(routes: seq<Route>, verb: string, parts: seq<string>)
    ensures Dispatch(routes, verb, parts).Some? ==>
      exists k :: && 0 <= k < |routes| && RouteMatches(routes[k], verb, parts)
                  && routes[k].handler == Dispatch(routes, verb, parts).value
                  && forall j :: 0 <= j < k ==> !RouteMatches(routes[j], verb, parts)
    decreases |routes|
  {
    if |routes| > 0 && !RouteMatches(routes[0], verb, parts) {
      var tail := routes[1..];
      DispatchFindsFirst(tail, verb, parts);
      if Dispatch(tail, verb, parts).Some? {
        var k :| && 0 <= k < |tail| && RouteMatches(tail[k], verb, parts)
                 && tail[k].handler == Dispatch(tail, verb, parts).value
                 && forall j :: 0 <= j < k ==> !RouteMatches(tail[j], verb, parts);
        assert routes[k + 1] == tail[k];
        assert forall j :: 1 <= j < k + 1 ==> routes[j] == tail[j - 1];
      }
    } else if |routes| > 0 {
      assert RouteMatches(routes[0], verb, parts);
    }
  }

  /** The first matching route decides: a route that matches, with none
      before it matching, is the one dispatched to. */
  lemma {:induction false} FirstMatchWins(routes: seq<Route>, k: nat, verb: string, parts: seq<string>)
    requires k < |routes| && RouteMatches(routes[k], verb, parts)
    requires forall j :: 0 <= j < k ==> !RouteMatches(routes[j], verb, parts)
    ensures Dispatch(routes, verb, parts) == Some(routes[k].handler)
    decreases k
  {
    if k > 0 {
      var tail := routes[1..];
      assert !RouteMatches(routes[0], verb, parts);
      assert tail[k - 1] == routes[k];
      assert forall j :: 0 <= j < k - 1 ==> tail[j] == routes[j + 1];
      FirstMatchWins(tail, k - 1, verb, parts);
    }
  }

  const ListRoute: Route := Route("GET", [Lit("tasks")], ListHandler)
  const CreateRoute: Route := Route("POST", [Lit("tasks")], CreateHandler)
  const GetRoute: Route := Route("GET", [Lit("tasks"), Param], GetHandler)
  const StatusRoute: Route := Route("PATCH", [Lit("tasks"), Param, Lit("status")], StatusHandler)
  const StatsRoute: Route := Route("GET", [Lit("tasks"), Lit("stats")], StatsHandler)

  /** The routes in the order main.py registers them (lines 61, 65, 82, 90, 100). */
  const Registered: seq<Route> := [ListRoute, CreateRoute, GetRoute, StatusRoute, StatsRoute]

  /** The same routes with the literal `/tasks/stats` ahead of `/tasks/{task_id}`. */
  const Reordered: seq<Route> := [ListRoute, CreateRoute, StatsRoute, GetRoute, StatusRoute]

  const StatsPath: seq<string> := ["tasks", "stats"]

  /** As registered, `GET /tasks/stats` reaches `get_task` with the id
      "stats", which no stored id equals, so the request is answered 404;
      no request reaches the statistics handler at all. */
  lemma RegisteredStatsIsShadowed(n: nat)
    ensures Dispatch(Registered, "GET", StatsPath) == Some(GetHandler)
    ensures IdText(n) != StatsPath[1]
    ensures forall verb, parts :: Dispatch(Registered, verb, parts) != Some(StatsHandler)
  {
    assert !RouteMatches(Registered[0], "GET", StatsPath);
    assert RouteMatches(Registered[2], "GET", StatsPath);
    FirstMatchWins(Registered, 2, "GET", StatsPath);
    IdTextIsNeverStats(n);
    forall verb, parts
      ensures Dispatch(Registered, verb, parts) != Some(StatsHandler)
    {
      GetShadowsStats(verb, parts);
    }
  }

  /** Every request the stats route matches, the earlier `/tasks/{task_id}`
      route matches too. */
  lemma GetShadowsStats(verb: string, parts: seq<string>)
    ensures Dispatch(Registered, verb, parts) != Some(StatsHandler)
  {
    DispatchFindsFirst(Registered, verb, parts);
    if RouteMatches(StatsRoute, verb, parts) {
      assert RouteMatches(Registered[2], verb, parts);
    }
  }

  /** With the stats route first, `GET /tasks/stats` reaches the statistics,
      a request for any stored id still reaches `get_task`, and every other
      request goes where it went before. */
  lemma ReorderedReachesStats(n: nat)
    ensures Dispatch(Reordered, "GET", StatsPath) == Some(StatsHandler)
    ensures Dispatch(Reordered, "GET", ["tasks", IdText(n)]) == Some(GetHandler)
    ensures forall verb, parts :: (verb != "GET" || parts != StatsPath) ==>
              Dispatch(Reordered, verb, parts) == Dispatch(Registered, verb, parts)
  {
    assert !RouteMatches(Reordered[0], "GET", StatsPath);
    assert RouteMatches(Reordered[2], "GET", StatsPath);
    FirstMatchWins(Reordered, 2, "GET", StatsPath);
    ReorderedReachesIds(n);
    forall verb, parts | verb != "GET" || parts != StatsPath
      ensures Dispatch(Reordered, verb, parts) == Dispatch(Registered, verb, parts)
    {
      SameDispatchAwayFromStats(verb, parts);
    }
  }

  lemma ReorderedReachesIds(n: nat)
    ensures Dispatch(Reordered, "GET", ["tasks", IdText(n)]) == Some(GetHandler)
  {
    IdTextIsNeverStats(n);
    var idPath := ["tasks", IdText(n)];
    assert idPath[1] == IdText(n);
    assert !RouteMatches(Reordered[0], "GET", idPath);
    assert !RouteMatches(Reordered[2], "GET", idPath);
    assert RouteMatches(Reordered[3], "GET", idPath);
    FirstMatchWins(Reordered, 3, "GET", idPath);
  }

  /** Away from `GET /tasks/stats` the stats route matches nothing, so moving
      it changes nothing. */
  lemma SameDispatchAwayFromStats(verb: string, parts: seq<string>)
    requires verb != "GET" || parts != StatsPath
    ensures Dispatch(Reordered, verb, parts) == Dispatch(Registered, verb, parts)
  {
    if RouteMatches(ListRoute, verb, parts) {
      FirstMatchWins(Reordered, 0, verb, parts);
      FirstMatchWins(Registered, 0, verb, parts);
    } else if RouteMatches(CreateRoute, verb, parts) {
      FirstMatchWins(Reordered, 1, verb, parts);
      FirstMatchWins(Registered, 1, verb, parts);
    } else if RouteMatches(GetRoute, verb, parts) {
      FirstMatchWins(Reordered, 3, verb, parts);
      FirstMatchWins(Registered, 2, verb, parts);
    } else if RouteMatches(StatusRoute, verb, parts) {
      FirstMatchWins(Reordered, 4, verb, parts);
      FirstMatchWins(Registered, 3, verb, parts);
    }
  }
}
