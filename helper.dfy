/** HolyCrudHelper: the resolver that works out, from a controller's fully
    qualified class name, its routes, entity repository, entity, template
    and form, and raises HolyCrudGeneratorException when a convention
    cannot be followed. */
module Util {
  import opened Wrappers
  import opened Strings
  import opened RouteCollection

  /** The message kinds HolyCrudGeneratorException is raised with. */
  datatype HolyCrudError =
    | NonStandardName           // the class name does not follow ...\Controller\XController
    | RepositoryNotFound        // the guessed entity class does not exist
    | EntityNotCreatable        // the repository's entity class does not exist
    | TemplateNotFound(methodName: string)
    | FormNotResolvable

  type Id = string

  /** An entity: a fresh instance made with `new`, or one the store holds. */
  datatype Entity = Blank(className: string) | Loaded(className: string, id: Id)

  /** An entity repository: the class it manages and the records `find` sees. */
  datatype Repository = Repository(className: string, records: map<Id, Entity>) {
    /** `find($id)`: the stored entity, or null. */
    function Find(id: Id): (r: Option<Entity>)
      ensures r.Some? <==> id in records
      ensures r.Some? ==> r.value == records[id]
    {
      if id in records then Some(records[id]) else None
    }
  }

  /** A form handle issued by the form factory. */
  datatype Form = FormHandle(id: nat)

  /** The literal `\Controller\` the class-name regex looks for. */
  const Separator: string := "\\Controller\\"
  const EntityDirectory: string := "Entity"
  const FormDirectory: string := "Form"
  const FormSuffix: string := "Type"

  // ---------------------------------------------------------------------
  // Class-name guessing: preg_match('/(.*)\\Controller\\(.+)Controller/')

  /** A way to match the regex against `s`: the separator `\Controller\`
      at `i`, at least one character, then `Controller` at `k`. */
  predicate Splits(s: string, i: nat, k: nat) {
    OccursAt(s, i, Separator) && i + |Separator| < k && OccursAt(s, k, ControllerSuffix)
  }

  /** The split the regex engine reports: the greedy `(.*)` takes the last
      separator that still admits a match, then the greedy `(.+)` takes
      the last `Controller` after it. Text after that is ignored. */
  ghost predicate IsGuessSplit(s: string, i: nat, k: nat) {
    && Splits(s, i, k)
    && (forall i': nat, k': nat :: Splits(s, i', k') ==> i' <= i)
    && (forall k': nat :: Splits(s, i, k') ==> k' <= k)
  }

  /** The last `Controller` that `(.+)Controller` can reach after a
      separator at `i`. */
  function SuffixAfter(s: string, i: nat): (r: Option<nat>)
    ensures r.Some? ==> OccursAt(s, i, Separator) ==> Splits(s, i, r.value)
    ensures r.Some? ==> forall k: nat :: Splits(s, i, k) ==> k <= r.value
    ensures r.None? ==> forall k: nat :: !Splits(s, i, k)
  {
    LastOccurrence(s, ControllerSuffix, i + |Separator| + 1, |s| + 1)
  }

  /** Backtracking over the separator position from `hi - 1` downwards. */
  function LastSplit(s: string, hi: nat): (r: Option<(nat, nat)>)
    ensures r.Some? ==> r.value.0 < hi && Splits(s, r.value.0, r.value.1)
    ensures r.Some? ==> forall k': nat :: Splits(s, r.value.0, k') ==> k' <= r.value.1
    ensures r.Some? ==> forall i': nat, k': nat :: r.value.0 < i' < hi ==> !Splits(s, i', k')
    ensures r.None? ==> forall i': nat, k': nat :: i' < hi ==> !Splits(s, i', k')
    decreases hi
  {
    if hi == 0 then None
    else if OccursAt(s, hi - 1, Separator) && SuffixAfter(s, hi - 1).Some? then
      Some((hi - 1, SuffixAfter(s, hi - 1).value))
    else LastSplit(s, hi - 1)
  }

  /** `getGuessedClassName($class, $directory, $suffix)`: the text before
      the chosen separator, the directory, the text between separator and
      the chosen `Controller`, and the suffix, joined as
      `prefix\directory\nameSuffix`; a class name the regex does not match
      raises the non-standard-name error. */
  function GuessedClassName(cls: string, directory: string, suffix: string): (r: Result<string, HolyCrudError>)
    ensures r.Failure? <==> forall i: nat, k: nat :: !Splits(cls, i, k)
    ensures r.Failure? ==> r.error == NonStandardName
    ensures r.Success? ==> exists i: nat, k: nat :: (IsGuessSplit(cls, i, k) &&
      r.value == cls[..i] + "\\" + directory + "\\" + cls[i + |Separator|..k] + suffix)
  {
    match LastSplit(cls, |cls| + 1)
    case None => Failure(NonStandardName)
    case Some((i, k)) =>
      assert forall i': nat, k': nat :: i < i' ==> !Splits(cls, i', k') by {
        forall i': nat, k': nat | i < i' ensures !Splits(cls, i', k') {
          if i' >= |cls| + 1 { assert !OccursAt(cls, i', Separator); }
        }
      }
      assert IsGuessSplit(cls, i, k);
      Success(cls[..i] + "\\" + directory + "\\" + cls[i + |Separator|..k] + suffix)
  }

  /** The only backslash after the prefix `n` of `n + Separator + t`, when
      `t` has none, is the separator's last character. */
  lemma BackslashesAfterPrefix(n: string, t: string, j: nat)
    requires '\\' !in t
    requires |n| < j < |n + Separator + t| && (n + Separator + t)[j] == '\\'
    ensures j == |n| + |Separator| - 1
  {
    var s := n + Separator + t;
    if j < |n| + |Separator| {
      assert s[j] == Separator[j - |n|];
    }
  }

  /** The separator can occur in `n + Separator + t` only at `|n|` when
      neither `n` nor `t` holds a backslash. */
  lemma SeparatorOnlyAtPrefix(n: string, t: string, i: nat)
    requires '\\' !in n && '\\' !in t
    requires OccursAt(n + Separator + t, i, Separator)
    ensures i == |n|
  {
    var s := n + Separator + t;
    OccursAtChar(s, i, Separator, 0);
    OccursAtChar(s, i, Separator, |Separator| - 1);
    if i > |n| {
      BackslashesAfterPrefix(n, t, i);
    }
  }

  /** The split the regex engine reports is the one the guess uses. */
  lemma {:induction false} GuessFromSplit(s: string, i: nat, k: nat, directory: string, suffix: string)
    requires IsGuessSplit(s, i, k)
    ensures GuessedClassName(s, directory, suffix)
            == Success(s[..i] + "\\" + directory + "\\" + s[i + |Separator|..k] + suffix)
  {
    var r := GuessedClassName(s, directory, suffix);
    var i1: nat, k1: nat :| IsGuessSplit(s, i1, k1) &&
      r.value == s[..i1] + "\\" + directory + "\\" + s[i1 + |Separator|..k1] + suffix;
    assert i1 == i && k1 == k;
  }

  /** In `N\Controller\SController` with `S` non-empty and free of
      backslashes, the regex splits at the end of `N` and before the final
      `Controller`, whatever `N` holds: a later separator would put a
      backslash inside `SController`. */
  lemma {:induction false} CanonicalSplit(n: string, shortName: string)
    requires '\\' !in shortName && |shortName| > 0
    ensures IsGuessSplit(n + Separator + (shortName + ControllerSuffix), |n|, |n| + |Separator| + |shortName|)
  {
    var t := shortName + ControllerSuffix;
    var s := n + Separator + t;
    assert '\\' !in t by {
      forall j | 0 <= j < |t| ensures t[j] != '\\' {
        if j < |shortName| { assert t[j] == shortName[j]; assert shortName[j] in shortName; }
        else { assert t[j] == ControllerSuffix[j - |shortName|]; }
      }
    }
    var i, k := |n|, |s| - |ControllerSuffix|;
    assert s[i..i + |Separator|] == Separator;
    assert s[k..k + |ControllerSuffix|] == ControllerSuffix;
    assert Splits(s, i, k);
    forall i': nat, k': nat | Splits(s, i', k') ensures i' <= i {
      if i' > i {
        OccursAtChar(s, i', Separator, |Separator| - 1);
      }
    }
  }

  /** The convention `N\Controller\SController`, with `S` non-empty and
      free of backslashes, guesses `N\D\SZ` for every namespace `N`. */
  lemma {:induction false} GuessCanonical(n: string, shortName: string, directory: string, suffix: string)
    requires '\\' !in shortName && |shortName| > 0
    ensures GuessedClassName(n + Separator + shortName + ControllerSuffix, directory, suffix)
            == Success(n + "\\" + directory + "\\" + shortName + suffix)
  {
    var s := n + Separator + (shortName + ControllerSuffix);
    assert s == n + Separator + shortName + ControllerSuffix;
    var i, k := |n|, |n| + |Separator| + |shortName|;
    CanonicalSplit(n, shortName);
    GuessFromSplit(s, i, k, directory, suffix);
    assert s[..i] == n;
    assert s[i + |Separator|..k] == shortName;
  }

  /** Guessing fails for `N\Controller\T` when `N` and `T` hold no
      backslash and no `Controller` starts in `T` after its first
      character: nothing can follow the separator as `(.+)Controller`. */
  lemma {:induction false} GuessFailsWithoutSuffix(n: string, t: string, directory: string, suffix: string)
    requires '\\' !in n && '\\' !in t
    requires forall j: nat :: 1 <= j ==> !OccursAt(t, j, ControllerSuffix)
    ensures GuessedClassName(n + Separator + t, directory, suffix) == Failure(NonStandardName)
  {
    var s := n + Separator + t;
    forall i: nat, k: nat ensures !Splits(s, i, k) {
      if Splits(s, i, k) {
        SeparatorOnlyAtPrefix(n, t, i);
        var j: nat := k - |n| - |Separator|;
        assert s[k..k + |ControllerSuffix|] == t[j..j + |ControllerSuffix|];
        assert OccursAt(t, j, ControllerSuffix);
        assert false;
      }
    }
  }

  // The examples below take their words as parameters fixed by the
  // precondition: a string literal passed straight to a recursive function
  // makes the verifier evaluate it character by character, which is far
  // more costly than reasoning about the named words.

  /** `App\Controller\WidgetController` guesses `App\Entity\Widget`. */
  lemma {:induction false} GuessEntityExample(app: string, widget: string)
    requires app == "App" && widget == "Widget"
    ensures GuessedClassName(app + Separator + widget + ControllerSuffix, EntityDirectory, "")
            == Success(app + "\\" + EntityDirectory + "\\" + widget)
  {
    GuessCanonical(app, widget, EntityDirectory, "");
    assert app + "\\" + EntityDirectory + "\\" + widget + "" == app + "\\" + EntityDirectory + "\\" + widget;
  }

  /** `App\Controller\WidgetController` guesses the form type `App\Form\WidgetType`. */
  lemma {:induction false} GuessFormExample(app: string, widget: string)
    requires app == "App" && widget == "Widget"
    ensures GuessedClassName(app + Separator + widget + ControllerSuffix, FormDirectory, FormSuffix)
            == Success(app + "\\" + FormDirectory + "\\" + widget + FormSuffix)
  {
    GuessCanonical(app, widget, FormDirectory, FormSuffix);
  }

  /** In a bundle, `NetMafia\HolyCrudBundle\Controller\WidgetController`
      guesses `NetMafia\HolyCrudBundle\Entity\Widget`. */
  lemma {:induction false} GuessBundleEntityExample(ns: string, widget: string)
    requires ns == "NetMafia\\HolyCrudBundle" && widget == "Widget"
    ensures GuessedClassName(ns + Separator + widget + ControllerSuffix, EntityDirectory, "")
            == Success(ns + "\\" + EntityDirectory + "\\" + widget)
  {
    GuessCanonical(ns, widget, EntityDirectory, "");
    assert ns + "\\" + EntityDirectory + "\\" + widget + "" == ns + "\\" + EntityDirectory + "\\" + widget;
  }

  /** A short name without the `Controller` suffix cannot be guessed from. */
  lemma GuessLegacyFails(directory: string, suffix: string)
    ensures GuessedClassName("App\\Controller\\LegacyHandler", directory, suffix) == Failure(NonStandardName)
  {
    var legacy := "LegacyHandler";
    assert "App\\Controller\\LegacyHandler" == "App" + Separator + legacy;
    forall j: nat | 1 <= j ensures !OccursAt(legacy, j, ControllerSuffix) {
      if OccursAt(legacy, j, ControllerSuffix) {
        OccursAtChar(legacy, j, ControllerSuffix, 0);
        assert false;
      }
    }
    GuessFailsWithoutSuffix("App", legacy, directory, suffix);
  }

  /** The short name `Controller` alone leaves `(.+)` nothing to match. */
  lemma GuessBareControllerFails(directory: string, suffix: string)
    ensures GuessedClassName("App\\Controller\\Controller", directory, suffix) == Failure(NonStandardName)
  {
    assert "App\\Controller\\Controller" == "App" + Separator + ControllerSuffix;
    GuessFailsWithoutSuffix("App", ControllerSuffix, directory, suffix);
  }

  // ---------------------------------------------------------------------
  // Route lookups

  /** The first route, in collection order, whose `_controller` is
      exactly `target`. */
  function FirstRoute(routes: seq<Route>, target: string): (r: Option<string>)
    ensures r.None? <==> forall j :: 0 <= j < |routes| ==> routes[j].controller != target
    ensures r.Some? ==> exists j :: (0 <= j < |routes| && routes[j].controller == target &&
      routes[j].name == r.value && forall j' :: 0 <= j' < j ==> routes[j'].controller != target)
    decreases |routes|
  {
    if routes == [] then None
    else if routes[0].controller == target then Some(routes[0].name)
    else
      var r := FirstRoute(routes[1..], target);
      assert r.Some? ==> exists j :: (1 <= j < |routes| && routes[j].controller == target &&
        routes[j].name == r.value && forall j' :: 0 <= j' < j ==> routes[j'].controller != target) by {
        if r.Some? {
          var j :| (0 <= j < |routes[1..]| && routes[1..][j].controller == target &&
            routes[1..][j].name == r.value && forall j' :: 0 <= j' < j ==> routes[1..][j'].controller != target);
          assert routes[j + 1] == routes[1..][j];
          forall j' | 0 <= j' < j + 1 ensures routes[j'].controller != target {
            if j' > 0 { assert routes[j'] == routes[1..][j' - 1]; }
          }
        }
      }
      r
  }

  /** The action name `X` when `controller` is exactly
      `cls::XAction` with `X` non-empty (the anchored regex
      `^cls::(.+)Action$`, the class quoted literally). */
  function ActionOf(cls: string, controller: string): (r: Option<string>)
    ensures r.Some? ==> |r.value| > 0 && controller == cls + "::" + r.value + ActionSuffix
  {
    var prefix := cls + "::";
    if |prefix| < |controller| - |ActionSuffix| && controller[..|prefix|] == prefix && EndsWith(controller, ActionSuffix) then
      var x := controller[|prefix|..|controller| - |ActionSuffix|];
      assert controller == controller[..|prefix|] + x + controller[|controller| - |ActionSuffix|..];
      Some(x)
    else None
  }

  /** Conversely, every `cls::XAction` with `X` non-empty is matched, and
      the regex group is `X`. */
  lemma ActionOfMatches(cls: string, x: string, controller: string)
    requires |x| > 0 && controller == cls + "::" + x + ActionSuffix
    ensures ActionOf(cls, controller) == Some(x)
  {
    var prefix := cls + "::";
    assert controller[..|prefix|] == prefix;
    assert controller[|controller| - |ActionSuffix|..] == ActionSuffix;
    assert controller[|prefix|..|controller| - |ActionSuffix|] == x;
  }

  /** `j` is the last route whose `_controller` names action `x` of `cls`. */
  predicate LastActionRoute(routes: seq<Route>, cls: string, x: string, j: int) {
    && 0 <= j < |routes|
    && ActionOf(cls, routes[j].controller) == Some(x)
    && forall j' :: j < j' < |routes| ==> ActionOf(cls, routes[j'].controller) != Some(x)
  }

  /** `m` is the map `getRoutes` promises for `routes`: every action name
      some route's `_controller` carries for `cls` is a key, every key is
      such a name, and it maps to the name of the last such route. */
  ghost predicate IsRoutesMap(routes: seq<Route>, cls: string, m: map<string, string>) {
    KeysCovered(routes, cls, m) && KeysNamed(routes, cls, m)
  }

  /** Every action name some route carries for `cls` is a key of `m`. */
  predicate KeysCovered(routes: seq<Route>, cls: string, m: map<string, string>) {
    forall j :: 0 <= j < |routes| && ActionOf(cls, routes[j].controller).Some? ==>
      ActionOf(cls, routes[j].controller).value in m
  }

  /** Every key of `m` names the last route carrying that action. */
  ghost predicate KeysNamed(routes: seq<Route>, cls: string, m: map<string, string>) {
    forall x :: x in m ==> exists j :: LastActionRoute(routes, cls, x, j) && m[x] == routes[j].name
  }

  /** One more route: the map gains or overwrites the entry of its action. */
  function AddRouteAction(m: map<string, string>, cls: string, route: Route): map<string, string> {
    match ActionOf(cls, route.controller)
    case Some(x) => m[x := route.name]
    case None => m
  }

  lemma {:induction false} RoutesOfStep(routes: seq<Route>, cls: string, m: map<string, string>)
    requires |routes| > 0 && IsRoutesMap(routes[..|routes| - 1], cls, m)
    ensures IsRoutesMap(routes, cls, AddRouteAction(m, cls, routes[|routes| - 1]))
  {
    var n := |routes| - 1;
    assert routes == routes[..n] + [routes[n]];
    CoveredStep(routes[..n], routes[n], cls, m);
    NamedStep(routes[..n], routes[n], cls, m);
  }

  lemma {:induction false} CoveredStep(prior: seq<Route>, last: Route, cls: string, m: map<string, string>)
    requires KeysCovered(prior, cls, m)
    ensures KeysCovered(prior + [last], cls, AddRouteAction(m, cls, last))
  {
    var routes := prior + [last];
    forall j | 0 <= j < |routes| && ActionOf(cls, routes[j].controller).Some?
      ensures ActionOf(cls, routes[j].controller).value in AddRouteAction(m, cls, last)
    {
      if j < |prior| {
        assert routes[j] == prior[j];
      }
    }
  }

  lemma {:induction false} NamedStep(prior: seq<Route>, last: Route, cls: string, m: map<string, string>)
    requires KeysNamed(prior, cls, m)
    ensures KeysNamed(prior + [last], cls, AddRouteAction(m, cls, last))
  {
    var routes := prior + [last];
    var m' := AddRouteAction(m, cls, last);
    forall y | y in m' ensures exists j :: LastActionRoute(routes, cls, y, j) && m'[y] == routes[j].name {
      if ActionOf(cls, last.controller) == Some(y) {
        LastRouteAtEnd(prior, last, cls, y);
      } else {
        var j :| LastActionRoute(prior, cls, y, j) && m[y] == prior[j].name;
        LastRouteKept(prior, last, cls, y, j);
      }
    }
  }

  /** An appended route naming `y` is the last one naming it. */
  lemma LastRouteAtEnd(prior: seq<Route>, last: Route, cls: string, y: string)
    requires ActionOf(cls, last.controller) == Some(y)
    ensures LastActionRoute(prior + [last], cls, y, |prior|) && (prior + [last])[|prior|] == last
  {
  }

  /** An appended route that names another action leaves the last route
      naming `y` where it was. */
  lemma LastRouteKept(prior: seq<Route>, last: Route, cls: string, y: string, j: int)
    requires LastActionRoute(prior, cls, y, j) && ActionOf(cls, last.controller) != Some(y)
    ensures LastActionRoute(prior + [last], cls, y, j) && (prior + [last])[j] == prior[j]
  {
    var routes := prior + [last];
    forall j' | j < j' < |routes| ensures ActionOf(cls, routes[j'].controller) != Some(y) {
      if j' < |prior| { assert routes[j'] == prior[j']; }
    }
  }

  /** The action-name to route-name map `getRoutes` builds, one route at
      a time in collection order: keys are exactly the action names found,
      each with the name of the last route that names it. */
  function RoutesOf(routes: seq<Route>, cls: string): (m: map<string, string>)
    ensures forall j :: 0 <= j < |routes| && ActionOf(cls, routes[j].controller).Some? ==>
      ActionOf(cls, routes[j].controller).value in m
    ensures forall x :: x in m ==> exists j :: LastActionRoute(routes, cls, x, j) && m[x] == routes[j].name
    decreases |routes|
  {
    if routes == [] then map[]
    else
      var m := RoutesOf(routes[..|routes| - 1], cls);
      RoutesOfStep(routes, cls, m);
      AddRouteAction(m, cls, routes[|routes| - 1])
  }

  // ---------------------------------------------------------------------
  // Templates

  /** The candidate template `name.format.engine`. */
  function Candidate(base: string, format: string, engine: string): string {
    base + "." + format + "." + engine
  }

  /** The first candidate, in the configured engine order, that exists;
      every earlier candidate does not exist. */
  function FirstTemplate(base: string, format: string, engines: seq<string>, existing: set<string>): (r: Option<string>)
    ensures r.None? <==> forall j :: 0 <= j < |engines| ==> Candidate(base, format, engines[j]) !in existing
    ensures r.Some? ==> exists j :: (0 <= j < |engines| && r.value == Candidate(base, format, engines[j]) &&
      r.value in existing && forall j' :: 0 <= j' < j ==> Candidate(base, format, engines[j']) !in existing)
    decreases |engines|
  {
    if engines == [] then None
    else if Candidate(base, format, engines[0]) in existing then Some(Candidate(base, format, engines[0]))
    else
      var r := FirstTemplate(base, format, engines[1..], existing);
      assert forall j :: 1 <= j < |engines| ==> engines[j] == engines[1..][j - 1];
      assert r.Some? ==> exists j :: (0 <= j < |engines| && r.value == Candidate(base, format, engines[j]) &&
        r.value in existing && forall j' :: 0 <= j' < j ==> Candidate(base, format, engines[j']) !in existing) by {
        if r.Some? {
          var j :| (0 <= j < |engines[1..]| && r.value == Candidate(base, format, engines[1..][j]) &&
            r.value in existing && forall j' :: 0 <= j' < j ==> Candidate(base, format, engines[1..][j']) !in existing);
          assert engines[j + 1] == engines[1..][j];
          forall j' | 0 <= j' < j + 1 ensures Candidate(base, format, engines[j']) !in existing {
            if j' > 0 { assert engines[j'] == engines[1..][j' - 1]; }
          }
        }
      }
      r
  }

  // ---------------------------------------------------------------------
  // The resolver

  /** HolyCrudHelper with its collaborators, injected once by the
      constructor and never changed: the route collection, `class_exists`
      as the set of known classes, the entity manager's repository lookup,
      the templating engine's `exists` as the set of existing templates,
      the configured engine suffixes, the request format, the controller
      name parser's `build`, and the form factory's `create`. */
  class HolyCrudHelper {
    const routeCollection: seq<Route>
    const knownClasses: set<string>
    const repositoryFor: string -> Repository
    const existingTemplates: set<string>
    const engines: seq<string>
    const requestFormat: string
    const build: string -> string
    const createForm: (string, Option<Entity>) -> Form

    constructor (routeCollection: seq<Route>, knownClasses: set<string>, repositoryFor: string -> Repository,
                 existingTemplates: set<string>, engines: seq<string>, requestFormat: string,
                 build: string -> string, createForm: (string, Option<Entity>) -> Form)
      ensures this.routeCollection == routeCollection && this.knownClasses == knownClasses
      ensures this.repositoryFor == repositoryFor && this.existingTemplates == existingTemplates
      ensures this.engines == engines && this.requestFormat == requestFormat
      ensures this.build == build && this.createForm == createForm
    {
      this.routeCollection := routeCollection;
      this.knownClasses := knownClasses;
      this.repositoryFor := repositoryFor;
      this.existingTemplates := existingTemplates;
      this.engines := engines;
      this.requestFormat := requestFormat;
      this.build := build;
      this.createForm := createForm;
    }

    /** `getRoute($class, $method)`: the name of the first route whose
        `_controller` is `class::method`, or null when there is none. */
    method GetRoute(cls: string, action: string) returns (r: Option<string>)
      ensures r == FirstRoute(routeCollection, cls + "::" + action)
    {
      var target := cls + "::" + action;
      var i := 0;
      while i < |routeCollection|
        invariant 0 <= i <= |routeCollection|
        invariant forall j :: 0 <= j < i ==> routeCollection[j].controller != target
      {
        if routeCollection[i].controller == target {
          return Some(routeCollection[i].name);
        }
        i := i + 1;
      }
      return None;
    }

    /** `getRoutes($class)`: the action-name to route-name map, built by
        one pass over the collection in which later routes overwrite. */
    method GetRoutes(cls: string) returns (m: map<string, string>)
      ensures m == RoutesOf(routeCollection, cls)
    {
      m := map[];
      var i := 0;
      while i < |routeCollection|
        invariant 0 <= i <= |routeCollection|
        invariant m == RoutesOf(routeCollection[..i], cls)
      {
        match ActionOf(cls, routeCollection[i].controller) {
          case Some(x) => m := m[x := routeCollection[i].name];
          case None =>
        }
        assert routeCollection[..i + 1][..i] == routeCollection[..i];
        i := i + 1;
      }
      assert routeCollection[..i] == routeCollection;
    }

    /** `getRepository($class)`: the repository of the guessed `Entity`
        class when that class exists. A naming failure is raised before
        any class is looked at. */
    function GetRepository(cls: string): (r: Result<Repository, HolyCrudError>)
      ensures GuessedClassName(cls, EntityDirectory, "").Failure? ==> r == Failure(NonStandardName)
      ensures r.Success? <==> GuessedClassName(cls, EntityDirectory, "").Success? &&
                              GuessedClassName(cls, EntityDirectory, "").value in knownClasses
      ensures r.Success? ==> r.value == repositoryFor(GuessedClassName(cls, EntityDirectory, "").value)
      ensures r.Failure? && GuessedClassName(cls, EntityDirectory, "").Success? ==> r.error == RepositoryNotFound
    {
      var entityClass :- GuessedClassName(cls, EntityDirectory, "");
      if entityClass in knownClasses then Success(repositoryFor(entityClass)) else Failure(RepositoryNotFound)
    }

    /** `getEntity($class, $id)`: with an id, whatever `find` returns,
        null included; without one, a new instance of the repository's
        class when that class exists. */
    function GetEntity(cls: string, id: Option<Id>): (r: Result<Option<Entity>, HolyCrudError>)
      ensures GetRepository(cls).Failure? ==> r == Failure(GetRepository(cls).error)
      ensures GetRepository(cls).Success? && id.Some? ==> r == Success(GetRepository(cls).value.Find(id.value))
      ensures GetRepository(cls).Success? && id.None? ==>
        (r.Success? <==> GetRepository(cls).value.className in knownClasses)
      ensures GetRepository(cls).Success? && id.None? && r.Success? ==>
        r.value == Some(Blank(GetRepository(cls).value.className))
      ensures GetRepository(cls).Success? && r.Failure? ==> id.None? && r.error == EntityNotCreatable
    {
      var repository :- GetRepository(cls);
      if id.Some? then Success(repository.Find(id.value))
      else if repository.className in knownClasses then Success(Some(Blank(repository.className)))
      else Failure(EntityNotCreatable)
    }

    /** `getTemplate($class, $method)`, as a value: the first existing
        candidate built from the method's short notation, or the
        template-not-found error. */
    function TemplateFor(cls: string, methodName: string): (r: Result<string, HolyCrudError>)
      ensures r.Failure? <==> forall j :: 0 <= j < |engines| ==>
        Candidate(build(cls + "::" + methodName), requestFormat, engines[j]) !in existingTemplates
      ensures r.Failure? ==> r.error == TemplateNotFound(methodName)
      ensures r.Success? ==> exists j :: (0 <= j < |engines| &&
        r.value == Candidate(build(cls + "::" + methodName), requestFormat, engines[j]) &&
        r.value in existingTemplates && forall j' :: 0 <= j' < j ==>
          Candidate(build(cls + "::" + methodName), requestFormat, engines[j']) !in existingTemplates)
    {
      match FirstTemplate(build(cls + "::" + methodName), requestFormat, engines, existingTemplates)
      case Some(t) => Success(t)
      case None => Failure(TemplateNotFound(methodName))
    }

    /** `getTemplate($class, $method)`: tries the engines in the
        configured order and returns the first candidate that exists. */
    method GetTemplate(cls: string, methodName: string) returns (r: Result<string, HolyCrudError>)
      ensures r == TemplateFor(cls, methodName)
    {
      var templateName := build(cls + "::" + methodName);
      var i := 0;
      while i < |engines|
        invariant 0 <= i <= |engines|
        invariant forall j :: 0 <= j < i ==> Candidate(templateName, requestFormat, engines[j]) !in existingTemplates
      {
        var template := templateName + "." + requestFormat + "." + engines[i];
        if template in existingTemplates {
          return Success(template);
        }
        i := i + 1;
      }
      return Failure(TemplateNotFound(methodName));
    }

    /** `autoFindForm($class, $entity)`: a form of the guessed
        `...\Form\...Type` class bound to the entity when that class
        exists, null otherwise; a naming failure propagates. */
    function AutoFindForm(cls: string, entity: Option<Entity>): (r: Result<Option<Form>, HolyCrudError>)
      ensures GuessedClassName(cls, FormDirectory, FormSuffix).Failure? ==> r == Failure(NonStandardName)
      ensures GuessedClassName(cls, FormDirectory, FormSuffix).Success? ==> r.Success?
      ensures r.Success? ==> (r.value.Some? <==> GuessedClassName(cls, FormDirectory, FormSuffix).value in knownClasses)
      ensures r.Success? && r.value.Some? ==>
        r.value.value == createForm(GuessedClassName(cls, FormDirectory, FormSuffix).value, entity)
    {
      var typeClass :- GuessedClassName(cls, FormDirectory, FormSuffix);
      if typeClass in knownClasses then Success(Some(createForm(typeClass, entity))) else Success(None)
    }

    /** `autoGenerateForm($class, $entity)`: not implemented, never
        yields a form. */
    function AutoGenerateForm(cls: string, entity: Option<Entity>): (r: Option<Form>)
      ensures r.None?
    {
      None
    }

    /** `getForm($class, $entity)`: the form type found by name, and
        otherwise the generated form; as generation never succeeds, a
        missing form type raises the form error. */
    function GetForm(cls: string, entity: Option<Entity>): (r: Result<Form, HolyCrudError>)
      ensures GuessedClassName(cls, FormDirectory, FormSuffix).Failure? ==> r == Failure(NonStandardName)
      ensures r.Success? <==> GuessedClassName(cls, FormDirectory, FormSuffix).Success? &&
                              GuessedClassName(cls, FormDirectory, FormSuffix).value in knownClasses
      ensures r.Success? ==> r.value == createForm(GuessedClassName(cls, FormDirectory, FormSuffix).value, entity)
      ensures r.Failure? && GuessedClassName(cls, FormDirectory, FormSuffix).Success? ==> r.error == FormNotResolvable
    {
      var found :- AutoFindForm(cls, entity);
      if found.Some? then Success(found.value)
      else
        match AutoGenerateForm(cls, entity)
        case Some(generated) => Success(generated)
        case None => Failure(FormNotResolvable)
    }
  }

  /** The route-table scenario: a route for `editAction` is found by name,
      an action without a route gives null. */
  lemma RouteExample()
    ensures FirstRoute([Route("app_widget_edit", "/edit", "App\\Controller\\WidgetController::editAction")],
                       "App\\Controller\\WidgetController" + "::" + "editAction") == Some("app_widget_edit")
    ensures FirstRoute([Route("app_widget_edit", "/edit", "App\\Controller\\WidgetController::editAction")],
                       "App\\Controller\\WidgetController" + "::" + "removeAction") == None
  {
  }

  /** The template scenario: with engines twig then php and only the php
      candidate present, the php candidate is chosen. */
  lemma TemplateExample()
    ensures FirstTemplate("widget/edit", "html", ["twig", "php"], {"widget/edit.html.php"})
            == Some("widget/edit.html.php")
  {
    assert Candidate("widget/edit", "html", "twig") == "widget/edit.html.twig";
    assert Candidate("widget/edit", "html", "php") == "widget/edit.html.php";
    assert ["twig", "php"][1..] == ["php"];
  }
}
