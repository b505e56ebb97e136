/** The routing table the auto-mapping engine reads and the loader writes:
    Symfony's RouteCollection, an ordered table of named routes. */
module RouteCollection {

  /** One named route. `controller` is the route's `_controller` default;
      a route without that default carries the empty string. */
  datatype Route = Route(name: string, path: string, controller: string)

  /** Route names are the keys of the collection. */
  predicate UniqueNames(routes: seq<Route>) {
    forall i, j :: 0 <= i < j < |routes| ==> routes[i].name != routes[j].name
  }

  /** The collection without the route called `name`, order kept. */
  function Without(routes: seq<Route>, name: string): (r: seq<Route>)
    ensures forall x :: x in r <==> x in routes && x.name != name
    ensures UniqueNames(routes) ==> UniqueNames(r)
    decreases |routes|
  {
    if routes == [] then []
    else if routes[0].name == name then Without(routes[1..], name)
    else [routes[0]] + Without(routes[1..], name)
  }

  /** `RouteCollection::add`: a route already registered under the new
      route's name is dropped, and the new route goes last. */
  function Add(routes: seq<Route>, route: Route): (r: seq<Route>)
    ensures |r| > 0 && r[|r| - 1] == route
    ensures forall x :: x in r <==> x == route || (x in routes && x.name != route.name)
    ensures UniqueNames(routes) ==> UniqueNames(r)
  {
    Without(routes, route.name) + [route]
  }
}
