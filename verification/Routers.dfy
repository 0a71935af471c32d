/** Routers, groups and the route table of server/router/router.go, with middleware lists as Go
    slices: a length over a backing array that append may write in place. */
module Routers {
  import opened Text
  import opened Routes

  type Middleware = nat
  type Handler = nat

  /** A slice from the start of its backing array; the array's length is its capacity. */
  datatype Slice = Slice(arr: array<Middleware>, len: nat)

  ghost predicate Fits(s: Slice) {
    s.len <= s.arr.Length
  }

  ghost function Elems(s: Slice): seq<Middleware>
    requires Fits(s)
    reads s.arr
  {
    s.arr[..s.len]
  }

  method EmptySlice() returns (s: Slice)
    ensures Fits(s) && Elems(s) == [] && fresh(s.arr)
  {
    var a := new Middleware[0];
    s := Slice(a, 0);
  }

  /** append: in place when the capacity suffices, else into a new array with any spare room. */
  method Append(s: Slice, xs: seq<Middleware>, spare: nat) returns (t: Slice)
    requires Fits(s)
    modifies s.arr
    ensures Fits(t) && Elems(t) == old(Elems(s)) + xs && Elems(s) == old(Elems(s))
    ensures t.arr == s.arr || fresh(t.arr)
  {
    var n := s.len;
    var a := s.arr;
    if n + |xs| > a.Length {
      a := new Middleware[n + |xs| + spare](_ => 0);
      forall i | 0 <= i < n { a[i] := s.arr[i]; }
    }
    var i := 0;
    while i < |xs|
      invariant 0 <= i <= |xs| && n + |xs| <= a.Length
      invariant a[..n] == old(s.arr[..n]) && s.arr[..n] == old(s.arr[..n])
      invariant a[n..n + i] == xs[..i]
      modifies a
    {
      a[n + i] := xs[i];
      assert a[n..n + i + 1] == a[n..n + i] + [xs[i]];
      i := i + 1;
    }
    t := Slice(a, n + |xs|);
    assert a[..n + |xs|] == a[..n] + a[n..n + |xs|];
  }

  datatype Route = Route(streamType: string, path: string, middleware: Slice, handler: Handler)

  datatype Found = Hit(route: Route) | OpRequired | InvalidRoute | RouteNotFound

  /** What a router hands on: its prefix and its middleware. */
  datatype GroupView = GroupView(prefix: string, chain: seq<Middleware>)

  /** A group of a router. */
  function Grouped(v: GroupView, path: string, xs: seq<Middleware>): GroupView {
    GroupView(JoinRoute(v.prefix, path), v.chain + xs)
  }

  /** The path and the chain of a route registered in a router. */
  function Registered(v: GroupView, path: string, xs: seq<Middleware>): (string, seq<Middleware>) {
    (JoinRoute(v.prefix, path), v.chain + xs)
  }

  class Router {
    const root: Router
    const prefix: string
    var middleware: Slice
    var routes: map<string, Route>  // used in the root only

    /** New. */
    constructor (s: Slice)
      requires Fits(s) && Elems(s) == []
      ensures root == this && prefix == "" && middleware == s && routes == map[] && System({this})
    {
      root, prefix, middleware, routes := this, "", s, map[];
    }

    constructor Child(root: Router, prefix: string, s: Slice)
      ensures this.root == root && this.prefix == prefix && middleware == s && routes == map[]
    {
      this.root, this.prefix, middleware, routes := root, prefix, s, map[];
    }

    /** The routers of one application. Every router has its own backing array, no route uses the
        array of a router, and prefixes and registered paths match the dotted-route pattern. */
    ghost predicate System(all: set<Router>)
      reads *
    {
      && this in all && root in all
      && (forall r :: r in all ==> r.root == root && Fits(r.middleware) && IsDotRoute(r.prefix))
      && (forall r, q :: r in all && q in all && r != q ==> r.middleware.arr != q.middleware.arr)
      && (forall p :: p in root.routes ==> Pattern(p) && root.routes[p].path == p && Fits(root.routes[p].middleware))
      && (forall p, r :: p in root.routes && r in all ==> root.routes[p].middleware.arr != r.middleware.arr)
    }

    /** What a request can see: the middleware of every route. */
    ghost function Chains(): map<string, seq<Middleware>>
      requires forall p :: p in root.routes ==> Fits(root.routes[p].middleware)
      reads *
    {
      map p | p in root.routes :: Elems(root.routes[p].middleware)
    }

    /** Use changes this router's list and nothing else, although append may write in place. */
    method Use(ghost all: set<Router>, xs: seq<Middleware>, spare: nat)
      requires System(all)
      modifies this`middleware, middleware.arr
      ensures System(all) && Elems(middleware) == old(Elems(middleware)) + xs
      ensures forall r :: r in all && r != this ==>
        r.middleware == old(r.middleware) && Elems(r.middleware) == old(Elems(r.middleware))
      ensures root.routes == old(root.routes) && Chains() == old(Chains())
    {
      middleware := Append(middleware, xs, spare);
    }

    /** A copy of this router's list followed by xs, in an array nobody else uses. */
    method Extended(xs: seq<Middleware>, spare: nat) returns (s: Slice)
      requires Fits(middleware)
      ensures Fits(s) && fresh(s.arr) && Elems(s) == Elems(middleware) + xs
    {
      var copy := EmptySlice();
      copy := Append(copy, middleware.arr[..middleware.len], spare);
      s := Append(copy, xs, spare);
    }

    /** Prefix and middleware as a value. */
    ghost function View(): GroupView
      requires Fits(middleware)
      reads this, middleware.arr
    {
      GroupView(prefix, Elems(middleware))
    }

    /** Group panics on an invalid prefix, here by returning null. */
    method Group(ghost all: set<Router>, path: string, xs: seq<Middleware>, spare: nat) returns (g: Router?)
      requires System(all)
      ensures g != null <==> IsDotRoute(path)
      ensures g != null ==> fresh(g) && System(all + {g}) && g.System(all + {g}) && g.root == root
      ensures g != null ==> g.View() == Grouped(View(), path, xs)
    {
      if !IsDotRoute(path) {
        return null;
      }
      var s := Extended(xs, spare);
      JoinAccepted(prefix, path);
      g := new Router.Child(root, JoinRoute(prefix, path), s);
    }

    /** Registration panics on an invalid or duplicate path, here by not being ok. Otherwise it adds
        one route, with this router's middleware as it is now and the route's own after it. */
    method Register(ghost all: set<Router>, streamType: string, path: string, xs: seq<Middleware>, handler: Handler,
                    spare: nat)
      returns (full: string, ok: bool)
      requires System(all)
      modifies root`routes
      ensures System(all)
      ensures full == Registered(View(), path, xs).0
      ensures ok <==> IsDotRoute(path) && full !in old(root.routes)
      ensures !ok ==> root.routes == old(root.routes)
      ensures ok ==> full in root.routes && root.routes == old(root.routes)[full := root.routes[full]]
      ensures ok ==> root.routes[full].handler == handler && root.routes[full].streamType == streamType
      ensures ok ==> Chains() == old(Chains())[full := Registered(View(), path, xs).1]
    {
      full := JoinRoute(prefix, path);
      if !IsDotRoute(path) {
        return full, false;
      }
      if full in root.routes {
        return full, false;
      }
      var s := Extended(xs, spare);
      JoinAccepted(prefix, path);
      Insert(all, full, Route(streamType, full, s, handler));
      return full, true;
    }

    /** Puts a route with its own array into the table. */
    method Insert(ghost all: set<Router>, full: string, route: Route)
      requires System(all) && Pattern(full) && route.path == full && Fits(route.middleware) && full !in root.routes
      requires forall r :: r in all ==> r.middleware.arr != route.middleware.arr
      modifies root`routes
      ensures System(all) && root.routes == old(root.routes)[full := route]
      ensures Chains() == old(Chains())[full := Elems(route.middleware)]
    {
      root.routes := root.routes[full := route];
      assert forall p :: p in root.routes ==>
        p == full || (p in old(root.routes) && root.routes[p] == old(root.routes)[p]);
    }

    /** The lookup of Handle: a request finds a route exactly when its trimmed operation is a
        registered path, and then that path's route. */
    method Lookup(ghost all: set<Router>, op: string) returns (found: Found)
      requires System(all)
      ensures found.Hit? <==> TrimSpace(op) in root.routes
      ensures found.Hit? ==> found.route == root.routes[TrimSpace(op)] && found.route.path == TrimSpace(op)
      ensures op in root.routes ==> found == Hit(root.routes[op])
      ensures found.OpRequired? <==> TrimSpace(op) == ""
      ensures found.InvalidRoute? <==> !IsDotRoute(TrimSpace(op))
    {
      var trimmed := TrimSpace(op);
      if op in root.routes {
        AcceptedTrimmed(op);
      }
      if trimmed == "" {
        return OpRequired;
      }
      if !IsDotRoute(trimmed) {
        return InvalidRoute;
      }
      NormalOnAccepted(trimmed);
      var path := NormalizeRoute(trimmed);
      if path !in root.routes {
        return RouteNotFound;
      }
      return Hit(root.routes[path]);
    }
  }

  /** Registering a route and requesting its full path: whatever was registered before, the request finds
      exactly this route, with the router's middleware followed by its own. */
  method RegisterAndRequest(r: Router, ghost all: set<Router>, streamType: string, path: string, xs: seq<Middleware>,
                            handler: Handler, spare: nat) returns (found: Found, ok: bool)
    requires r.System(all)
    modifies r.root`routes
    ensures r.System(all) && (ok ==> found.Hit?)
    ensures ok ==> Fits(found.route.middleware)
    ensures ok ==> found.route.path == JoinRoute(r.prefix, path) && found.route.handler == handler
    ensures ok ==> Elems(found.route.middleware) == Elems(r.middleware) + xs
  {
    var full;
    full, ok := r.Register(all, streamType, path, xs, handler, spare);
    found := RouteNotFound;
    if ok {
      found := r.Lookup(all, full);
      assert r.Chains()[full] == Elems(r.root.routes[full].middleware);
    }
  }

  /** Nested groups are one group: grouping by a and then b is grouping by their join at once, and
      registers the same paths with the same middleware. */
  lemma NestedGroups(v: GroupView, a: string, m1: seq<Middleware>, b: string, m2: seq<Middleware>,
                     path: string, own: seq<Middleware>)
    requires IsDotRoute(a) && IsDotRoute(b)
    ensures IsDotRoute(JoinRoute(a, b))
    ensures Grouped(Grouped(v, a, m1), b, m2) == Grouped(v, JoinRoute(a, b), m1 + m2)
    ensures Registered(Grouped(Grouped(v, a, m1), b, m2), path, own) ==
            Registered(v, JoinRoute(JoinRoute(a, b), path), m1 + m2 + own)
  {
    JoinAccepted(a, b);
    GroupedTwice(v, a, m1, b, m2);
    RegisteredInGroup(v, JoinRoute(a, b), m1 + m2, path, own);
  }

  lemma GroupedTwice(v: GroupView, a: string, m1: seq<Middleware>, b: string, m2: seq<Middleware>)
    ensures Grouped(Grouped(v, a, m1), b, m2) == Grouped(v, JoinRoute(a, b), m1 + m2)
  {
    JoinAssociative(v.prefix, a, b);
    assert v.chain + m1 + m2 == v.chain + (m1 + m2);
  }

  lemma RegisteredInGroup(v: GroupView, a: string, m: seq<Middleware>, path: string, own: seq<Middleware>)
    ensures Registered(Grouped(v, a, m), path, own) == Registered(v, JoinRoute(a, path), m + own)
  {
    JoinAssociative(v.prefix, a, path);
    assert v.chain + m + own == v.chain + (m + own);
  }
}
