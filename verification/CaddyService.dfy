/** Edits of the reverse proxy's ordered route list (backend/services/caddy_service.py). The
    first route that matches a host decides where its requests go. */
module CaddyService {
  import opened Prelude

  const DOMAIN_SUFFIX := "https.gsmsv.site"

  datatype Target = Target(ip: int, port: int)

  /** What a route matches: one host, or every host under a suffix (the catch-all). */
  datatype Matcher = Exactly(host: string) | Under(suffix: string) | Everything {
    predicate Matches(h: string) {
      match this
      case Exactly(host) => h == host
      case Under(suffix) => |suffix| <= |h| && h[|h| - |suffix|..] == suffix
      case Everything => true
    }
  }

  datatype Route = Route(id: Option<string>, matcher: Matcher, target: Target)

  /** Where requests for a host go. */
  function Dispatch(routes: seq<Route>, host: string): Option<Target> {
    if routes == [] then None
    else if routes[0].matcher.Matches(host) then Some(routes[0].target)
    else Dispatch(routes[1..], host)
  }

  function Domain(subdomain: string): (d: string)
    ensures d == subdomain + "." + "https.gsmsv.site"
  {
    subdomain + "." + DOMAIN_SUFFIX
  }

  function RouteId(subdomain: string): (id: string)
    ensures id == "route-" + subdomain
  {
    "route-" + subdomain
  }

  function NewRoute(subdomain: string, target: Target): Route {
    Route(Some(RouteId(subdomain)), Exactly(Domain(subdomain)), target)
  }

  /** A route with a service id matches just the host of that id. */
  ghost predicate Tidy(routes: seq<Route>) {
    forall i, sub | 0 <= i < |routes| && routes[i].id == Some(RouteId(sub)) :: routes[i].matcher == Exactly(Domain(sub))
  }

  lemma NamesInjective(a: string, b: string)
    ensures RouteId(a) == RouteId(b) ==> a == b
    ensures Domain(a) == Domain(b) ==> a == b
  {
    if RouteId(a) == RouteId(b) { assert a == RouteId(a)[6..] == RouteId(b)[6..] == b; }
    if Domain(a) == Domain(b) {
      assert |Domain(a)| == |a| + 1 + |DOMAIN_SUFFIX| && |Domain(b)| == |b| + 1 + |DOMAIN_SUFFIX|;
      assert a == Domain(a)[..|a|] == Domain(b)[..|b|] == b;
    }
  }

  // ---------------------------------------------------------------------------
  // The remote list
  // ---------------------------------------------------------------------------

  /** DELETE /id/{id} removes one route with the id; `pick` says which, should there be several. */
  function RemoveById(routes: seq<Route>, id: string, pick: nat): seq<Route> {
    if pick < |routes| && routes[pick].id == Some(id) then routes[..pick] + routes[pick + 1..]
    else RemoveFirstById(routes, id)
  }

  function RemoveFirstById(routes: seq<Route>, id: string): seq<Route> {
    if routes == [] then []
    else if routes[0].id == Some(id) then routes[1..]
    else [routes[0]] + RemoveFirstById(routes[1..], id)
  }

  function AfterDelete(routes: seq<Route>, subdomain: string, call: Call, pick: nat): seq<Route> {
    if call.Effective() then RemoveById(routes, RouteId(subdomain), pick) else routes
  }

  /** The calls of one add_route: delete, get, patch. */
  datatype AddCalls = AddCalls(delete: Call, pick: nat, get: bool, patch: Call)

  function AfterAdd(routes: seq<Route>, subdomain: string, target: Target, f: AddCalls): seq<Route> {
    var cleared := AfterDelete(routes, subdomain, f.delete, f.pick);
    if f.get && f.patch.Effective() then [NewRoute(subdomain, target)] + cleared else cleared
  }

  class Server {
    var routes: seq<Route>

    constructor (routes: seq<Route>)
      ensures this.routes == routes
    {
      this.routes := routes;
    }

    method Delete(id: string, call: Call, pick: nat) returns (ok: bool)
      modifies this
      ensures routes == (if call.Effective() then RemoveById(old(routes), id, pick) else old(routes))
                && ok == call.Done?
    {
      if call.Effective() { routes := RemoveById(routes, id, pick); }
      ok := call.Done?;
    }

    method Patch(newRoutes: seq<Route>, call: Call) returns (ok: bool)
      modifies this
      ensures routes == (if call.Effective() then newRoutes else old(routes)) && ok == call.Done?
    {
      if call.Effective() { routes := newRoutes; }
      ok := call.Done?;
    }
  }

  /** delete_route. No other host is affected, whatever happens to the call. */
  method DeleteRoute(caddy: Server, subdomain: string, call: Call, pick: nat) returns (ok: bool)
    requires Tidy(caddy.routes)
    modifies caddy
    ensures caddy.routes == AfterDelete(old(caddy.routes), subdomain, call, pick) && ok == call.Done?
    ensures Tidy(caddy.routes)
    ensures forall h | h != Domain(subdomain) :: Dispatch(caddy.routes, h) == Dispatch(old(caddy.routes), h)
    // One copy of the route goes if the call takes effect and there is one.
    ensures var before, after := Copies(old(caddy.routes), "route-" + subdomain),
              Copies(caddy.routes, "route-" + subdomain);
            after == if call.Effective() && before > 0 then before - 1 else before
  {
    if call.Effective() { DeleteRemovesOne(caddy.routes, subdomain, call, pick); }
    DeleteKeepsOthers(caddy.routes, subdomain, call, pick);
    ok := caddy.Delete(RouteId(subdomain), call, pick);
  }

  /** add_route: clear a leftover, read the list, put the new route in front, write it back. */
  method AddRoute(caddy: Server, subdomain: string, target: Target, f: AddCalls) returns (ok: bool)
    requires Tidy(caddy.routes)
    modifies caddy
    ensures caddy.routes == AfterAdd(old(caddy.routes), subdomain, target, f) && ok == (f.get && f.patch.Done?)
    ensures Tidy(caddy.routes)
    ensures ok ==> Dispatch(caddy.routes, subdomain + "." + "https.gsmsv.site") == Some(target)
    // The new route is in front, in place of the leftover; without the write nothing new is there.
    ensures var left := Copies(old(caddy.routes), "route-" + subdomain);
            var cleared := if f.delete.Effective() && left > 0 then left - 1 else left;
            && Copies(caddy.routes, "route-" + subdomain) == cleared + (if f.get && f.patch.Effective() then 1 else 0)
            && (f.get && f.patch.Effective() ==>
                  caddy.routes != [] && caddy.routes[0] ==
                    Route(Some("route-" + subdomain), Exactly(subdomain + "." + "https.gsmsv.site"), target))
    ensures forall h | h != Domain(subdomain) :: Dispatch(caddy.routes, h) == Dispatch(old(caddy.routes), h)
  {
    AddKeepsOthers(caddy.routes, subdomain, target, f);
    var _ := DeleteRoute(caddy, subdomain, f.delete, f.pick);
    if !f.get { return false; }
    var routes := [NewRoute(subdomain, target)] + caddy.routes;
    assert routes[1..] == caddy.routes;
    ok := caddy.Patch(routes, f.patch);
  }

  // ---------------------------------------------------------------------------
  // Edits preserve the meaning of every other host
  // ---------------------------------------------------------------------------

  lemma {:induction false} DispatchSkips(a: seq<Route>, r: Route, b: seq<Route>, host: string)
    requires !r.matcher.Matches(host)
    ensures Dispatch(a + [r] + b, host) == Dispatch(a + b, host)
  {
    if a == [] {
      assert a + [r] + b == [r] + b && a + b == b && ([r] + b)[1..] == b;
    } else {
      assert (a + [r] + b)[1..] == a[1..] + [r] + b && (a + b)[1..] == a[1..] + b;
      DispatchSkips(a[1..], r, b, host);
    }
  }

  /** Removal by id takes out one route that carries the id, or nothing. */
  lemma {:induction false} RemovedRoute(routes: seq<Route>, id: string, pick: nat) returns (i: nat)
    ensures i <= |routes|
    ensures i < |routes| ==> routes[i].id == Some(id) && RemoveById(routes, id, pick) == routes[..i] + routes[i + 1..]
    ensures i == |routes| ==>
              RemoveById(routes, id, pick) == routes && forall k | 0 <= k < |routes| :: routes[k].id != Some(id)
  {
    if pick < |routes| && routes[pick].id == Some(id) {
      i := pick;
    } else {
      i := RemovedFirst(routes, id);
    }
  }

  lemma {:induction false} RemovedFirst(routes: seq<Route>, id: string) returns (i: nat)
    ensures i <= |routes|
    ensures i < |routes| ==> routes[i].id == Some(id) && RemoveFirstById(routes, id) == routes[..i] + routes[i + 1..]
    ensures i == |routes| ==>
              RemoveFirstById(routes, id) == routes && forall k | 0 <= k < |routes| :: routes[k].id != Some(id)
  {
    if routes == [] {
      i := 0;
    } else if routes[0].id == Some(id) {
      i := 0;
    } else {
      var j := RemovedFirst(routes[1..], id);
      i := j + 1;
      assert routes == [routes[0]] + routes[1..];
      if j < |routes| - 1 {
        assert routes[..i] + routes[i + 1..] == [routes[0]] + (routes[1..][..j] + routes[1..][j + 1..]);
      } else {
        forall k | 0 <= k < |routes| ensures routes[k].id != Some(id) {
          if k > 0 { assert routes[k] == routes[1..][k - 1]; }
        }
      }
    }
  }

  lemma DeleteKeepsOthers(routes: seq<Route>, subdomain: string, call: Call, pick: nat)
    requires Tidy(routes)
    ensures Tidy(AfterDelete(routes, subdomain, call, pick))
    ensures forall h | h != Domain(subdomain) ::
              Dispatch(AfterDelete(routes, subdomain, call, pick), h) == Dispatch(routes, h)
  {
    var i := RemovedRoute(routes, RouteId(subdomain), pick);
    if call.Effective() && i < |routes| {
      forall h | h != Domain(subdomain)
        ensures Dispatch(AfterDelete(routes, subdomain, call, pick), h) == Dispatch(routes, h)
      {
        assert routes == routes[..i] + [routes[i]] + routes[i + 1..];
        DispatchSkips(routes[..i], routes[i], routes[i + 1..], h);
      }
    }
  }

  lemma AddKeepsOthers(routes: seq<Route>, subdomain: string, target: Target, f: AddCalls)
    requires Tidy(routes)
    ensures Tidy(AfterAdd(routes, subdomain, target, f))
    ensures f.get && f.patch.Effective() ==>
              Dispatch(AfterAdd(routes, subdomain, target, f), Domain(subdomain)) == Some(target)
    ensures forall h | h != Domain(subdomain) ::
              Dispatch(AfterAdd(routes, subdomain, target, f), h) == Dispatch(routes, h)
  {
    DeleteKeepsOthers(routes, subdomain, f.delete, f.pick);
    var cleared := AfterDelete(routes, subdomain, f.delete, f.pick);
    if f.get && f.patch.Effective() {
      var all := [NewRoute(subdomain, target)] + cleared;
      assert all[1..] == cleared;
      forall i, sub | 0 <= i < |all| && all[i].id == Some(RouteId(sub)) ensures all[i].matcher == Exactly(Domain(sub)) {
        if i == 0 { NamesInjective(sub, subdomain); }
      }
    }
  }

  /** The number of routes with an id. */
  function Copies(routes: seq<Route>, id: string): nat {
    if routes == [] then 0 else (if routes[0].id == Some(id) then 1 else 0) + Copies(routes[1..], id)
  }

  lemma {:induction false} CopiesConcat(a: seq<Route>, b: seq<Route>, id: string)
    ensures Copies(a + b, id) == Copies(a, id) + Copies(b, id)
  {
    if a == [] {
      assert a + b == b;
    } else {
      assert (a + b)[1..] == a[1..] + b;
      CopiesConcat(a[1..], b, id);
    }
  }

  /** A deletion that takes effect removes one copy; with a single copy the host is no longer
      routed by the service at all. */
  lemma DeleteRemovesOne(routes: seq<Route>, subdomain: string, call: Call, pick: nat)
    requires call.Effective()
    ensures var n := Copies(routes, RouteId(subdomain));
            Copies(AfterDelete(routes, subdomain, call, pick), RouteId(subdomain)) == if n == 0 then 0 else n - 1
  {
    var id := RouteId(subdomain);
    var i := RemovedRoute(routes, id, pick);
    if i < |routes| {
      assert routes == routes[..i] + ([routes[i]] + routes[i + 1..]);
      CopiesConcat(routes[..i], [routes[i]] + routes[i + 1..], id);
      CopiesConcat([routes[i]], routes[i + 1..], id);
      CopiesConcat(routes[..i], routes[i + 1..], id);
      assert [routes[i]][1..] == [];
    } else {
      NoCopies(routes, id);
    }
  }

  lemma {:induction false} NoCopies(routes: seq<Route>, id: string)
    requires forall k | 0 <= k < |routes| :: routes[k].id != Some(id)
    ensures Copies(routes, id) == 0
  {
    if routes == [] {
    } else {
      NoCopies(routes[1..], id);
    }
  }
}
