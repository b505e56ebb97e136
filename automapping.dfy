/** HolyCrudAutomappingTrait: what a controller using the trait adds on
    top of the helper. It caches the action-to-route map of its own class,
    answers single route lookups from that cache, passes its own class
    name to the helper for repositories, entities, templates and forms,
    and derives its display name from its short class name. */
module Traits {
  import opened Wrappers
  import opened Strings
  import opened RouteCollection
  import opened Util
  import opened Routing

  /** `ReflectionClass::getShortName`: the part of a class name after its
      last backslash, or the whole name when it has none. */
  function ShortName(cls: string): (r: string)
    ensures '\\' !in r
    ensures |r| <= |cls| && cls[|cls| - |r|..] == r
    ensures |r| < |cls| ==> cls[|cls| - |r| - 1] == '\\'
    decreases |cls|
  {
    if cls == [] then ""
    else if cls[|cls| - 1] == '\\' then ""
    else
      var prior := cls[..|cls| - 1];
      var r := ShortName(prior);
      assert cls[|cls| - |r| - 1..] == prior[|prior| - |r|..] + [cls[|cls| - 1]];
      r + [cls[|cls| - 1]]
  }

  /** A controller whose class uses the trait. `className` is
      `get_class($this)`; `routes` is the lazily filled route map. */
  class AutomappingController {
    const className: string
    const helper: HolyCrudHelper
    var routes: Option<map<string, string>>

    /** The cache, once filled, holds what the helper computes for this
        class: the route collection never changes while a request runs. */
    predicate Valid()
      reads this
    {
      routes.Some? ==> routes.value == RoutesOf(helper.routeCollection, className)
    }

    constructor (className: string, helper: HolyCrudHelper)
      ensures this.className == className && this.helper == helper
      ensures routes == None && Valid()
    {
      this.className := className;
      this.helper := helper;
      routes := None;
    }

    /** `getRoutes()`: filled from the helper on the first call, the cached
        map afterwards; either way the helper's map for this class. */
    method GetRoutes() returns (m: map<string, string>)
      requires Valid()
      modifies this`routes
      ensures Valid()
      ensures m == RoutesOf(helper.routeCollection, className)
      ensures routes == Some(m)
      ensures old(routes).Some? ==> routes == old(routes)
    {
      if routes.None? {
        var computed := helper.GetRoutes(className);
        routes := Some(computed);
      }
      m := routes.value;
    }

    /** `getRoute($actionName)`: the route name the map holds for the
        action, or null. A found name is that of the last route whose
        `_controller` is this class's `<action>Action`; null means no
        route points there. */
    method GetRoute(action: string) returns (r: Option<string>)
      requires Valid()
      modifies this`routes
      ensures Valid() && routes == Some(RoutesOf(helper.routeCollection, className))
      ensures r.Some? <==> action in RoutesOf(helper.routeCollection, className)
      ensures r.Some? ==> exists j :: (LastActionRoute(helper.routeCollection, className, action, j) &&
        r.value == helper.routeCollection[j].name)
      ensures r.None? ==> forall j :: 0 <= j < |helper.routeCollection| ==>
        ActionOf(className, helper.routeCollection[j].controller) != Some(action)
    {
      var m := GetRoutes();
      if action in m {
        r := Some(m[action]);
      } else {
        r := None;
      }
    }

    /** `getRepository()`: the helper's repository for this class. */
    function GetRepository(): (r: Result<Repository, HolyCrudError>)
      ensures r == helper.GetRepository(className)
    {
      helper.GetRepository(className)
    }

    /** `getEntity($id = null)`: the helper's entity for this class. */
    function GetEntity(id: Option<Id>): (r: Result<Option<Entity>, HolyCrudError>)
      ensures r == helper.GetEntity(className, id)
    {
      helper.GetEntity(className, id)
    }

    /** `getTemplate($method)`: the helper's template for this class. */
    method GetTemplate(methodName: string) returns (r: Result<string, HolyCrudError>)
      ensures r == helper.TemplateFor(className, methodName)
    {
      r := helper.GetTemplate(className, methodName);
    }

    /** `getForm($entity = null)`: the helper's form for this class. */
    function GetForm(entity: Option<Entity>): (r: Result<Form, HolyCrudError>)
      ensures r == helper.GetForm(className, entity)
    {
      helper.GetForm(className, entity)
    }

    /** `getControllerName()`: the short class name less one trailing
        `Controller`; a short name without it is returned whole. */
    function GetControllerName(): (r: string)
      ensures '\\' !in r
      ensures EndsWith(ShortName(className), ControllerSuffix) ==> r + ControllerSuffix == ShortName(className)
      ensures !EndsWith(ShortName(className), ControllerSuffix) ==> r == ShortName(className)
    {
      var short := ShortName(className);
      var r := RemoveSuffix(short, ControllerSuffix);
      assert forall c :: c in r ==> c in short;
      r
    }
  }

  // ---------------------------------------------------------------------
  // A controller of the conventional layout

  /** For `n\Controller\XController`, the short name is `XController` and
      the controller name is `X`. */
  lemma {:induction false} ControllerNameOfCanonical(c: AutomappingController, n: string, x: string)
    requires '\\' !in x
    requires c.className == n + "\\" + x + ControllerSuffix
    ensures ShortName(c.className) == x + ControllerSuffix
    ensures c.GetControllerName() == x
  {
    assert c.className == n + "\\" + (x + ControllerSuffix);
    ShortNameAfterLast(n, x + ControllerSuffix);
    var short := x + ControllerSuffix;
    assert short[|short| - |ControllerSuffix|..] == ControllerSuffix;
    assert short[..|short| - |ControllerSuffix|] == x;
  }

  /** The short name of `n\t` with `t` backslash-free is `t`. */
  lemma {:induction false} ShortNameAfterLast(n: string, t: string)
    requires '\\' !in t
    ensures ShortName(n + "\\" + t) == t
    decreases |t|
  {
    var cls := n + "\\" + t;
    if t != [] {
      var prior := t[..|t| - 1];
      assert cls[..|cls| - 1] == n + "\\" + prior;
      assert cls[|cls| - 1] == t[|t| - 1] && t[|t| - 1] in t;
      assert forall c :: c in prior ==> c in t;
      ShortNameAfterLast(n, prior);
      assert prior + [t[|t| - 1]] == t;
    }
  }

  /** For `n\Controller\XController` with a non-empty backslash-free `X`,
      the repository is the one of `n\Entity\X` and the form is built
      from `n\Form\XType`, whenever those classes exist. */
  lemma {:induction false} CanonicalControllerResolves(c: AutomappingController, n: string, x: string, entity: Option<Entity>)
    requires '\\' !in x && |x| > 0
    requires c.className == n + Separator + x + ControllerSuffix
    ensures n + "\\" + EntityDirectory + "\\" + x in c.helper.knownClasses ==>
      c.GetRepository() == Success(c.helper.repositoryFor(n + "\\" + EntityDirectory + "\\" + x))
    ensures n + "\\" + FormDirectory + "\\" + x + FormSuffix in c.helper.knownClasses ==>
      c.GetForm(entity) == Success(c.helper.createForm(n + "\\" + FormDirectory + "\\" + x + FormSuffix, entity))
    ensures n + "\\" + FormDirectory + "\\" + x + FormSuffix !in c.helper.knownClasses ==>
      c.GetForm(entity) == Failure(FormNotResolvable)
  {
    GuessCanonical(n, x, EntityDirectory, "");
    GuessCanonical(n, x, FormDirectory, FormSuffix);
    assert n + "\\" + EntityDirectory + "\\" + x + "" == n + "\\" + EntityDirectory + "\\" + x;
  }

  // ---------------------------------------------------------------------
  // Routes the loader emitted, seen through the trait

  /** With `build` the identity, the route emitted for method `m` as
      action `y` points, for the helper, at action `y` of the class, and
      at no other action. */
  lemma {:induction false} EmittedRouteAction(build: string -> string, cls: ReflectedClass, m: MethodInfo, y: string)
    requires forall s :: build(s) == s
    requires EmittedAction(m) == Some(y)
    ensures ActionOf(cls.name, RouteFor(build, cls, m, y).controller) == Some(y)
  {
    var controller := RouteFor(build, cls, m, y).controller;
    assert controller == cls.name + "::" + m.name;
    assert controller == cls.name + "::" + y + ActionSuffix;
    ActionOfMatches(cls.name, y, controller);
  }

  /** Once the router has turned each `_controller` back into
      `Class::method` notation (`build` is then the identity), every key of
      the map `getRoutes` derives from the loader's collection maps to the
      route name `buildRouteName` gives that action. */
  lemma {:induction false} LoadedRouteNames(build: string -> string, cls: ReflectedClass, x: string)
    requires forall s :: build(s) == s
    requires x in RoutesOf(BuiltRoutes(build, cls, cls.methods), cls.name)
    ensures RoutesOf(BuiltRoutes(build, cls, cls.methods), cls.name)[x] == RouteName(cls.namespace, cls.shortName, x)
  {
    var routes := BuiltRoutes(build, cls, cls.methods);
    var j :| LastActionRoute(routes, cls.name, x, j) && RoutesOf(routes, cls.name)[x] == routes[j].name;
    BuiltRoutesSound(build, cls, cls.methods, routes[j]);
    var i :| 0 <= i < |cls.methods| && EmittedAction(cls.methods[i]).Some? &&
      routes[j] == RouteFor(build, cls, cls.methods[i], EmittedAction(cls.methods[i]).value);
    EmittedRouteAction(build, cls, cls.methods[i], EmittedAction(cls.methods[i]).value);
  }

  /** With method names distinct ignoring case, as PHP requires, every
      action the loader emitted for the class is a key of that map. */
  lemma {:induction false} LoadedActionsFound(build: string -> string, cls: ReflectedClass, j: nat)
    requires forall s :: build(s) == s
    requires CaseDistinctNames(cls.methods)
    requires j < |cls.methods| && EmittedAction(cls.methods[j]).Some?
    ensures EmittedAction(cls.methods[j]).value in RoutesOf(BuiltRoutes(build, cls, cls.methods), cls.name)
  {
    var routes := BuiltRoutes(build, cls, cls.methods);
    var x := EmittedAction(cls.methods[j]).value;
    BuiltRoutesKeepEach(build, cls, cls.methods, j);
    var k :| 0 <= k < |routes| && routes[k] == RouteFor(build, cls, cls.methods[j], x);
    EmittedRouteAction(build, cls, cls.methods[j], x);
  }
}
