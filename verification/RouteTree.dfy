/** The notification policy tree: the projection it is compared through and the body of its write. */
module RouteTree {
  import opened Options
  import opened JsonValues

  /** A nil child is a None; `rest` holds the keys other than the two the code names. */
  datatype Route = Route(provenance: string, routes: seq<Option<Route>>, rest: map<string, Json>)

  const ROUTE_KEYS: set<string> := {"provenance", "routes"}

  function EncodeRoute(r: Route): Json {
    Obj((r.rest - ROUTE_KEYS)
        + map["routes" := Arr(seq(|r.routes|, i requires 0 <= i < |r.routes| =>
          if r.routes[i].Some? then EncodeRoute(r.routes[i].value) else Null))]
        + if r.provenance != "" then map["provenance" := Str(r.provenance)] else map[])
  }

  /** Removes the provenance of every node of an encoded tree. */
  function StripRoute(v: Json): Json {
    match v
    case Obj(fields) =>
      if "routes" in fields && fields["routes"].Arr? then
        var children := fields["routes"].items;
        Obj((fields - {"provenance"})["routes" := Arr(seq(|children|, i requires 0 <= i < |children| =>
          StripRoute(children[i])))])
      else Obj(fields - {"provenance"})
    case _ => v
  }

  /** The plan's comparison of two trees. */
  predicate EqualRoutes(local: Route, remote: Route) {
    DropEmpty(StripRoute(EncodeRoute(local))) == DropEmpty(StripRoute(EncodeRoute(remote)))
  }

  /** The trees are the same write: the same at every node, provenance aside. */
  predicate SameRoute(a: Route, b: Route) {
    && SameMeaning(Obj(a.rest - ROUTE_KEYS), Obj(b.rest - ROUTE_KEYS))
    && |a.routes| == |b.routes|
    && forall i | 0 <= i < |a.routes| :: SameChild(a.routes[i], b.routes[i])
  }

  predicate SameChild(a: Option<Route>, b: Option<Route>) {
    a.Some? == b.Some? && (a.Some? ==> SameRoute(a.value, b.value))
  }

  function Projected(r: Option<Route>): Json {
    if r.Some? then StripRoute(EncodeRoute(r.value)) else Null
  }

  lemma ProjectedFields(r: Route)
    ensures StripRoute(EncodeRoute(r)) ==
            Obj((r.rest - ROUTE_KEYS)["routes" := Arr(seq(|r.routes|, i requires 0 <= i < |r.routes| =>
              Projected(r.routes[i])))])
  {
    var fields := EncodeRoute(r).fields;
    var children := fields["routes"].items;
    var expected := seq(|r.routes|, i requires 0 <= i < |r.routes| => Projected(r.routes[i]));
    assert |children| == |r.routes|;
    forall i | 0 <= i < |r.routes| ensures StripRoute(children[i]) == expected[i] {
    }
    assert seq(|children|, i requires 0 <= i < |children| => StripRoute(children[i])) == expected;
    assert (fields - {"provenance"})["routes" := Arr(expected)] == (r.rest - ROUTE_KEYS)["routes" := Arr(expected)];
  }

  /** Comparing the projections decides whether two trees are the same write, at every depth. */
  lemma {:induction false} ProjectionDecidesSameRoute(a: Route, b: Route)
    ensures EqualRoutes(a, b) <==> SameRoute(a, b)
    decreases a, 2
  {
    hide StripRoute, EncodeRoute, SameMeaning;
    ProjectedFields(a);
    ProjectedFields(b);
    var f, g := StripRoute(EncodeRoute(a)).fields, StripRoute(EncodeRoute(b)).fields;
    DropEmptyIsCanonical(Obj(f), Obj(g));
    SameObject(f, g);
    SameObject(a.rest - ROUTE_KEYS, b.rest - ROUTE_KEYS);
    forall k | k != "routes"
      ensures Field(f, k) == Field(a.rest - ROUTE_KEYS, k) && Field(g, k) == Field(b.rest - ROUTE_KEYS, k)
    {
    }
    assert SameField(Field(a.rest - ROUTE_KEYS, "routes"), Field(b.rest - ROUTE_KEYS, "routes")) by {
      SameMeaningIsReflexive(Null);
    }
    ChildrenDecide(a, b, f["routes"], g["routes"]);
    assert Field(f, "routes") == f["routes"] && Field(g, "routes") == g["routes"];
  }

  lemma ChildrenDecide(a: Route, b: Route, p: Json, q: Json)
    requires p == Arr(seq(|a.routes|, i requires 0 <= i < |a.routes| => Projected(a.routes[i])))
    requires q == Arr(seq(|b.routes|, i requires 0 <= i < |b.routes| => Projected(b.routes[i])))
    ensures SameField(p, q) <==>
            |a.routes| == |b.routes| && forall i | 0 <= i < |a.routes| :: SameChild(a.routes[i], b.routes[i])
    decreases a, 1
  {
    hide StripRoute, EncodeRoute;
    if |a.routes| == |b.routes| {
      forall i | 0 <= i < |a.routes|
        ensures SameMeaning(p.items[i], q.items[i]) <==> SameChild(a.routes[i], b.routes[i])
      {
        ChildDecides(a, b, i);
      }
    }
  }

  lemma ChildDecides(a: Route, b: Route, i: nat)
    requires i < |a.routes| == |b.routes|
    ensures SameMeaning(Projected(a.routes[i]), Projected(b.routes[i])) <==> SameChild(a.routes[i], b.routes[i])
    decreases a, 0
  {
    hide StripRoute, EncodeRoute;
    var x, y := a.routes[i], b.routes[i];
    if x.Some? {
      ProjectedFields(x.value);
    }
    if y.Some? {
      ProjectedFields(y.value);
    }
    if x.Some? && y.Some? {
      ProjectionDecidesSameRoute(x.value, y.value);
      DropEmptyIsCanonical(Projected(x), Projected(y));
    }
  }

  /** The body of the write: the tree with no node claiming a provenance. */
  function RouteBody(r: Route): Route {
    r.(provenance := "",
       routes := seq(|r.routes|, i requires 0 <= i < |r.routes| =>
                   if r.routes[i].Some? then Some(RouteBody(r.routes[i].value)) else None))
  }

  predicate ClaimsNothing(r: Route) {
    r.provenance == "" && forall i | 0 <= i < |r.routes| && r.routes[i].Some? :: ClaimsNothing(r.routes[i].value)
  }

  /** What Grafana holds after accepting the body: the same tree, every node stamped as it likes. */
  predicate StoredFrom(body: Route, stored: Route) {
    && stored.rest == body.rest && |stored.routes| == |body.routes|
    && forall i | 0 <= i < |body.routes| ::
         && body.routes[i].Some? == stored.routes[i].Some?
         && (body.routes[i].Some? ==> StoredFrom(body.routes[i].value, stored.routes[i].value))
  }

  lemma {:induction false} BodyClaimsNothing(r: Route)
    ensures ClaimsNothing(RouteBody(r))
  {
    forall i | 0 <= i < |r.routes| && r.routes[i].Some? ensures ClaimsNothing(RouteBody(r).routes[i].value) {
      BodyClaimsNothing(r.routes[i].value);
    }
  }

  lemma {:induction false} StoredIsSameRoute(local: Route, stored: Route)
    requires StoredFrom(RouteBody(local), stored)
    ensures SameRoute(local, stored)
    decreases local
  {
    SameMeaningIsReflexive(Obj(local.rest - ROUTE_KEYS));
    var body := RouteBody(local);
    forall i | 0 <= i < |local.routes| ensures SameChild(local.routes[i], stored.routes[i]) {
      assert body.routes[i].Some? == stored.routes[i].Some?;
      if local.routes[i].Some? {
        StoredIsSameRoute(local.routes[i].value, stored.routes[i].value);
      }
    }
  }

  /** Pushing a tree converges: planned again against what the write stored, it is Unchanged. */
  lemma TreePushConverges(local: Route, stored: Route)
    requires StoredFrom(RouteBody(local), stored)
    ensures EqualRoutes(local, stored)
  {
    StoredIsSameRoute(local, stored);
    ProjectionDecidesSameRoute(local, stored);
  }
}
