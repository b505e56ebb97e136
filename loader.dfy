/** HolyCrudLoader: the route loader that turns a controller class into
    one route per public `...Action` method, with a placeholder path built
    from the method's parameters and a lower-case name built from the
    class's namespace, short name and action. */
module Routing {
  import opened Wrappers
  import opened Strings
  import opened RouteCollection

  /** What reflection reports about one method: its name, whether it is
      public, and its parameter names in declaration order. */
  datatype MethodInfo = MethodInfo(name: string, isPublic: bool, params: seq<string>)

  /** What reflection reports about the controller class: the resource
      string it was loaded from, its namespace, its short name and its
      methods in the order `getMethods` lists them. */
  datatype ReflectedClass = ReflectedClass(name: string, namespace: string, shortName: string, methods: seq<MethodInfo>)

  /** The one action with a fixed path, and that path. */
  const ViewAction: string := "view"
  const ViewPath: string := "/{1}"

  /** The resource type this loader answers for. */
  const LoaderType: string := "holycrud"

  // ---------------------------------------------------------------------
  // Paths

  /** `"/\{" . x . "\}"`: PHP keeps both backslashes, because neither
      `\{` nor `\}` is an escape sequence in a double-quoted string. */
  function Placeholder(x: string): string {
    "/\\{" + x + "\\}"
  }

  /** The segment added for the parameter at index `i`. */
  function Seg(i: nat): string {
    Placeholder(DecimalString(i))
  }

  /** The segments for the parameter indices `lo` up to `hi - 1`, in order. */
  function Segments(lo: nat, hi: nat): string
    decreases hi
  {
    if hi <= lo then "" else Segments(lo, hi - 1) + Seg(hi - 1)
  }

  /** The path before substitution: the fixed path for `view`, and
      otherwise one segment per parameter followed by `/name`. */
  function TemplatePath(name: string, count: nat): string {
    if name == ViewAction then ViewPath else Segments(0, count) + "/" + name
  }

  /** `replacePathVariables` from index `k` on: for each index in ascending
      order, every occurrence of its decimal string becomes that
      parameter's name. */
  function ReplaceFrom(path: string, params: seq<string>, k: nat): string
    requires k <= |params|
    decreases |params| - k
  {
    if k == |params| then path
    else ReplaceFrom(ReplaceAll(path, DecimalString(k), params[k]), params, k + 1)
  }

  /** The path `generatePath` produces for action `name`. */
  function PathFor(name: string, params: seq<string>): string {
    ReplaceFrom(TemplatePath(name, |params|), params, 0)
  }

  /** The placeholders for the given parameter names, in order. */
  function Filled(params: seq<string>): string
    decreases |params|
  {
    if params == [] then "" else Filled(params[..|params| - 1]) + Placeholder(params[|params| - 1])
  }

  // ---------------------------------------------------------------------
  // Route names

  /** The namespace segment `buildRouteName` cuts at, and the bundle
      suffix it drops. */
  const ControllerNamespace: string := "\\Controller"
  const BundleSegment: string := "Bundle\\"
  const BundleWord: string := "Bundle"

  /** The namespace with every `Bundle\` replaced by `\`. */
  function Unbundled(ns: string): string {
    ReplaceAll(ns, BundleSegment, "\\")
  }

  /** The namespace part of a route name: `Unbundled(ns)` up to its first
      `\Controller`, or all of it when there is none. */
  function NamespacePart(ns: string): (r: string)
    ensures |r| <= |Unbundled(ns)| && r == Unbundled(ns)[..|r|]
    ensures |r| < |Unbundled(ns)| ==> OccursAt(Unbundled(ns), |r|, ControllerNamespace)
    ensures forall k: nat :: !OccursAt(r, k, ControllerNamespace)
    ensures (forall k: nat :: !OccursAt(Unbundled(ns), k, ControllerNamespace)) ==> r == Unbundled(ns)
  {
    var unbundled := Unbundled(ns);
    match FirstOccurrence(unbundled, ControllerNamespace, 0)
    case Some(p) =>
      var r := unbundled[..p];
      assert forall k: nat :: !OccursAt(r, k, ControllerNamespace) by {
        forall k: nat | OccursAt(r, k, ControllerNamespace) ensures false {
          assert unbundled[k..k + |ControllerNamespace|] == r[k..k + |ControllerNamespace|];
          assert OccursAt(unbundled, k, ControllerNamespace);
        }
      }
      r
    case None => unbundled
  }

  /** `buildRouteName`: namespace part with `\` mapped to `_`, the short
      name less one trailing `Controller`, and the action, joined with `_`
      and lower-cased; the name holds no upper-case ASCII letter. */
  function RouteName(ns: string, shortName: string, action: string): (r: string)
    ensures forall j :: 0 <= j < |r| ==> !IsUpper(r[j])
  {
    Lower(ReplaceAll(NamespacePart(ns), "\\", "_") + "_" + RemoveSuffix(shortName, ControllerSuffix) + "_" + action)
  }

  // ---------------------------------------------------------------------
  // Routes

  /** The action name `X` of a public method called `XAction` with `X`
      non-empty, and None for every other method. */
  function EmittedAction(m: MethodInfo): (r: Option<string>)
    ensures r.Some? ==> m.isPublic && |r.value| > 0 && m.name == r.value + ActionSuffix
  {
    if m.isPublic && |m.name| > |ActionSuffix| && EndsWith(m.name, ActionSuffix) then
      var x := m.name[..|m.name| - |ActionSuffix|];
      assert m.name == x + m.name[|m.name| - |ActionSuffix|..];
      Some(x)
    else None
  }

  /** Every public `XAction` method with `X` non-empty is emitted as `X`. */
  lemma EmittedActionComplete(m: MethodInfo, x: string)
    requires m.isPublic && |x| > 0 && m.name == x + ActionSuffix
    ensures EmittedAction(m) == Some(x)
  {
    assert m.name[|m.name| - |ActionSuffix|..] == ActionSuffix;
    assert m.name[..|m.name| - |ActionSuffix|] == x;
  }

  /** The route emitted for method `m` of `cls` with action name `action`;
      its `_controller` default is the parser's `build` of `class::method`. */
  function RouteFor(build: string -> string, cls: ReflectedClass, m: MethodInfo, action: string): Route {
    Route(RouteName(cls.namespace, cls.shortName, action), PathFor(action, m.params), build(cls.name + "::" + m.name))
  }

  /** The collection `buildRoutes` returns after the given methods, each
      emitted route added in method order. */
  function BuiltRoutes(build: string -> string, cls: ReflectedClass, methods: seq<MethodInfo>): seq<Route>
    decreases |methods|
  {
    if methods == [] then []
    else
      var prior := BuiltRoutes(build, cls, methods[..|methods| - 1]);
      var m := methods[|methods| - 1];
      match EmittedAction(m)
      case Some(action) => Add(prior, RouteFor(build, cls, m, action))
      case None => prior
  }

  // ---------------------------------------------------------------------
  // What the generated paths look like

  /** An action other than `view` without parameters gets exactly `/name`. */
  lemma ZeroParamPath(name: string)
    requires name != ViewAction
    ensures PathFor(name, []) == "/" + name
  {
  }

  /** Substitution leaves a digit-free path alone, whatever the parameters. */
  lemma {:induction false} ReplaceFromDigitFree(path: string, params: seq<string>, k: nat)
    requires k <= |params| && DigitFree(path)
    ensures ReplaceFrom(path, params, k) == path
    decreases |params| - k
  {
    if k < |params| {
      ReplaceAllAbsent(path, DecimalString(k), params[k]);
      ReplaceFromDigitFree(path, params, k + 1);
    }
  }

  lemma {:induction false} SegmentsSplit(lo: nat, hi: nat)
    requires lo < hi
    ensures Segments(lo, hi) == Seg(lo) + Segments(lo + 1, hi)
    decreases hi
  {
    if lo + 1 < hi {
      SegmentsSplit(lo, hi - 1);
    }
  }

  /** Below ten parameters, the digit of index `k` does not occur in the
      segments of later indices. */
  lemma {:induction false} SegmentsAvoid(lo: nat, hi: nat, k: nat)
    requires k < lo && hi <= 10 && k < 10
    ensures DigitChar(k) !in Segments(lo, hi)
    decreases hi
  {
    if lo < hi {
      SegmentsAvoid(lo, hi - 1, k);
      assert Seg(hi - 1) == "/\\{" + [DigitChar(hi - 1)] + "\\}";
    }
  }

  lemma {:induction false} FilledDigitFree(params: seq<string>)
    requires forall j :: 0 <= j < |params| ==> DigitFree(params[j])
    ensures DigitFree(Filled(params))
    decreases |params|
  {
    if params != [] {
      FilledDigitFree(params[..|params| - 1]);
      assert DigitFree(params[|params| - 1]);
    }
  }

  /** The segment of index `k < 10` becomes the placeholder of the name
      substituted for it. */
  lemma ReplaceSeg(k: nat, p: string)
    requires k < 10
    ensures ReplaceAll(Seg(k), [DigitChar(k)], p) == Placeholder(p)
  {
    var c := DigitChar(k);
    assert Seg(k) == "/\\{" + [c] + "\\}";
    ReplaceCharConcat("/\\{" + [c], "\\}", c, p);
    ReplaceCharConcat("/\\{", [c], c, p);
    ReplaceAllAbsent("/\\{", [c], p);
    ReplaceAllAbsent("\\}", [c], p);
    ReplaceCharSelf(c, p);
  }

  /** Substituting index `k` in a path whose only digit is the one in
      its segment `Seg(k)` turns that segment into the placeholder. */
  lemma ReplaceInSegment(a: string, rest: string, d: string, k: nat, p: string)
    requires k < 10
    requires DigitChar(k) !in a && DigitChar(k) !in rest && DigitChar(k) !in d
    ensures ReplaceAll(a + Seg(k) + rest + d, [DigitChar(k)], p) == a + Placeholder(p) + rest + d
  {
    var c := DigitChar(k);
    ReplaceCharConcat(a + Seg(k) + rest, d, c, p);
    ReplaceCharConcat(a + Seg(k), rest, c, p);
    ReplaceCharConcat(a, Seg(k), c, p);
    ReplaceAllAbsent(a, [c], p);
    ReplaceSeg(k, p);
    ReplaceAllAbsent(rest, [c], p);
    ReplaceAllAbsent(d, [c], p);
  }

  lemma {:induction false} PlaceholderStep(name: string, params: seq<string>, k: nat)
    requires k <= |params| <= 10 && DigitFree(name)
    requires forall j :: 0 <= j < |params| ==> DigitFree(params[j])
    ensures ReplaceFrom(Filled(params[..k]) + Segments(k, |params|) + "/" + name, params, k) == Filled(params) + "/" + name
    decreases |params| - k
  {
    var n := |params|;
    if k == n {
      assert params[..k] == params;
    } else {
      var c := DigitChar(k);
      var a, rest, d := Filled(params[..k]), Segments(k + 1, n), "/" + name;
      var s := Filled(params[..k]) + Segments(k, n) + "/" + name;
      SegmentsSplit(k, n);
      assert s == a + Seg(k) + rest + d;
      FilledDigitFree(params[..k]);
      SegmentsAvoid(k + 1, n, k);
      assert DigitFree(d);
      ReplaceInSegment(a, rest, d, k, params[k]);
      assert params[..k + 1][..k] == params[..k];
      assert Filled(params[..k + 1]) == a + Placeholder(params[k]);
      assert DecimalString(k) == [c];
      assert ReplaceAll(s, [c], params[k]) == Filled(params[..k + 1]) + Segments(k + 1, n) + "/" + name;
      assert ReplaceFrom(s, params, k) == ReplaceFrom(ReplaceAll(s, DecimalString(k), params[k]), params, k + 1);
      PlaceholderStep(name, params, k + 1);
    }
  }

  /** With at most ten digit-free parameter names and a digit-free action
      name other than `view`, each segment receives its own parameter's
      name: the path is the placeholders in order, then `/name`. */
  lemma PlaceholderPath(name: string, params: seq<string>)
    requires name != ViewAction && DigitFree(name)
    requires |params| <= 10 && forall j :: 0 <= j < |params| ==> DigitFree(params[j])
    ensures PathFor(name, params) == Filled(params) + "/" + name
  {
    var t := Segments(0, |params|) + "/" + name;
    assert Filled(params[..0]) == "" by { assert params[..0] == []; }
    assert Filled(params[..0]) + Segments(0, |params|) == Segments(0, |params|);
    PlaceholderStep(name, params, 0);
    assert PathFor(name, params) == ReplaceFrom(t, params, 0);
  }

  /** `view` keeps the fixed path `/{1}` when it has at most one parameter:
      only `0` is substituted, and `/{1}` does not contain it. */
  lemma ViewPathFewParams(params: seq<string>)
    requires |params| <= 1
    ensures PathFor(ViewAction, params) == ViewPath
  {
    if |params| == 1 {
      assert DecimalString(0) == ['0'];
      assert ViewPath == ['/', '{', '1', '}'];
      ReplaceAllAbsent(ViewPath, DecimalString(0), params[0]);
      assert ReplaceFrom(ViewPath, params, 0) == ReplaceFrom(ViewPath, params, 1);
    }
  }

  /** With two or more parameters, `view` gets the SECOND parameter's name
      (index 1), provided that name holds no digit for later indices to
      replace. */
  lemma ViewPathSecondParam(params: seq<string>)
    requires |params| >= 2 && DigitFree(params[1])
    ensures PathFor(ViewAction, params) == "/{" + params[1] + "}"
  {
    assert DecimalString(0) == ['0'] && DecimalString(1) == ['1'];
    assert ViewPath == ['/', '{', '1', '}'];
    ReplaceAllAbsent(ViewPath, DecimalString(0), params[0]);
    ViewIndexOne(params[1]);
    assert DigitFree("/{" + params[1] + "}");
    ReplaceFromDigitFree("/{" + params[1] + "}", params, 2);
    assert ReplaceFrom(ViewPath, params, 0) == ReplaceFrom(ViewPath, params, 1);
  }

  /** Substituting index 1 in `/{1}` puts the name between the braces. */
  lemma ViewIndexOne(name: string)
    ensures ReplaceAll(ViewPath, DecimalString(1), name) == "/{" + name + "}"
  {
    var one := DigitChar(1);
    assert DecimalString(1) == [one] && one == '1';
    assert ViewPath == "/{" + [one] + "}";
    ReplaceCharConcat("/{" + [one], "}", one, name);
    ReplaceCharConcat("/{", [one], one, name);
    ReplaceAllAbsent("/{", [one], name);
    ReplaceAllAbsent("}", [one], name);
    ReplaceCharSelf(one, name);
  }

  // ---------------------------------------------------------------------
  // What the generated collection holds

  /** Every route in the collection is the route of some emitted method:
      its name, path and `_controller` are that method's. */
  lemma {:induction false} BuiltRoutesSound(build: string -> string, cls: ReflectedClass, methods: seq<MethodInfo>, route: Route)
    requires route in BuiltRoutes(build, cls, methods)
    ensures exists j :: (0 <= j < |methods| && EmittedAction(methods[j]).Some? &&
      route == RouteFor(build, cls, methods[j], EmittedAction(methods[j]).value))
    decreases |methods|
  {
    var n := |methods| - 1;
    var prior := methods[..n];
    if EmittedAction(methods[n]).Some? && route == RouteFor(build, cls, methods[n], EmittedAction(methods[n]).value) {
    } else {
      BuiltRoutesSound(build, cls, prior, route);
      var j :| 0 <= j < |prior| && EmittedAction(prior[j]).Some? &&
        route == RouteFor(build, cls, prior[j], EmittedAction(prior[j]).value);
      assert prior[j] == methods[j];
    }
  }

  /** Every emitted method leaves a route under its route name. */
  lemma {:induction false} BuiltRoutesComplete(build: string -> string, cls: ReflectedClass, methods: seq<MethodInfo>, j: nat)
    requires j < |methods| && EmittedAction(methods[j]).Some?
    ensures exists route :: (route in BuiltRoutes(build, cls, methods) &&
      route.name == RouteName(cls.namespace, cls.shortName, EmittedAction(methods[j]).value))
    decreases |methods|
  {
    var n := |methods| - 1;
    var prior := methods[..n];
    if j < n {
      assert prior[j] == methods[j];
      BuiltRoutesComplete(build, cls, prior, j);
      var route :| route in BuiltRoutes(build, cls, prior) &&
        route.name == RouteName(cls.namespace, cls.shortName, EmittedAction(methods[j]).value);
      match EmittedAction(methods[n])
      case Some(action) =>
        var added := RouteFor(build, cls, methods[n], action);
        if route.name != added.name {
          assert route in BuiltRoutes(build, cls, methods);
        } else {
          assert added in BuiltRoutes(build, cls, methods);
        }
      case None =>
    } else {
      var added := RouteFor(build, cls, methods[n], EmittedAction(methods[n]).value);
      assert added in BuiltRoutes(build, cls, methods);
    }
  }

  /** The route names in the collection are pairwise distinct. */
  lemma {:induction false} BuiltRoutesUniqueNames(build: string -> string, cls: ReflectedClass, methods: seq<MethodInfo>)
    ensures UniqueNames(BuiltRoutes(build, cls, methods))
    decreases |methods|
  {
    if methods != [] {
      BuiltRoutesUniqueNames(build, cls, methods[..|methods| - 1]);
    }
  }

  /** No generated route name holds an upper-case ASCII letter. */
  lemma BuiltRouteNamesLowercase(build: string -> string, cls: ReflectedClass, route: Route)
    requires route in BuiltRoutes(build, cls, cls.methods)
    ensures forall j :: 0 <= j < |route.name| ==> !IsUpper(route.name[j])
  {
    BuiltRoutesSound(build, cls, cls.methods, route);
  }

  /** PHP method names are case-insensitive, so no two methods of a class
      have names that agree once lower-cased. */
  predicate CaseDistinctNames(methods: seq<MethodInfo>) {
    forall i, k :: 0 <= i < k < |methods| ==> Lower(methods[i].name) != Lower(methods[k].name)
  }

  /** Two actions of one class that receive the same route name have
      method names that agree once lower-cased. */
  lemma SameRouteNameSameMethod(cls: ReflectedClass, m: MethodInfo, m': MethodInfo)
    requires EmittedAction(m).Some? && EmittedAction(m').Some?
    requires RouteName(cls.namespace, cls.shortName, EmittedAction(m).value)
             == RouteName(cls.namespace, cls.shortName, EmittedAction(m').value)
    ensures Lower(m.name) == Lower(m'.name)
  {
    var q := ReplaceAll(NamespacePart(cls.namespace), "\\", "_") + "_" + RemoveSuffix(cls.shortName, ControllerSuffix) + "_";
    LowerCancelPrefix(q, EmittedAction(m).value, EmittedAction(m').value, ActionSuffix);
  }

  /** When method names are distinct ignoring case, no later route
      overwrites an earlier one: every emitted method's route is in the
      collection. */
  lemma {:induction false} BuiltRoutesKeepEach(build: string -> string, cls: ReflectedClass, methods: seq<MethodInfo>, j: nat)
    requires CaseDistinctNames(methods)
    requires j < |methods| && EmittedAction(methods[j]).Some?
    ensures RouteFor(build, cls, methods[j], EmittedAction(methods[j]).value) in BuiltRoutes(build, cls, methods)
  {
    var upTo := methods[..j + 1];
    assert upTo[..j] == methods[..j] && upTo[j] == methods[j];
    var route := RouteFor(build, cls, methods[j], EmittedAction(methods[j]).value);
    assert BuiltRoutes(build, cls, upTo) == Add(BuiltRoutes(build, cls, methods[..j]), route);
    KeptAfter(build, cls, methods, j + 1, route, methods[j]);
  }

  /** A route in the collection after the first `k` methods, named for
      method `earlier`, outlives every later method whose name differs
      from `earlier`'s ignoring case. */
  lemma {:induction false} KeptAfter(build: string -> string, cls: ReflectedClass, methods: seq<MethodInfo>, k: nat,
                                     route: Route, earlier: MethodInfo)
    requires k <= |methods| && EmittedAction(earlier).Some?
    requires route.name == RouteName(cls.namespace, cls.shortName, EmittedAction(earlier).value)
    requires route in BuiltRoutes(build, cls, methods[..k])
    requires forall i :: k <= i < |methods| ==> Lower(earlier.name) != Lower(methods[i].name)
    ensures route in BuiltRoutes(build, cls, methods)
    decreases |methods|
  {
    var n := |methods| - 1;
    if k == |methods| {
      assert methods[..k] == methods;
    } else {
      var prior := methods[..n];
      assert prior[..k] == methods[..k];
      assert forall i :: k <= i < n ==> prior[i] == methods[i];
      KeptAfter(build, cls, prior, k, route, earlier);
      KeptByLast(build, cls, methods, route, earlier);
    }
  }

  /** A route named for method `earlier` survives the last method when
      that method's name differs from `earlier`'s ignoring case. */
  lemma {:induction false} KeptByLast(build: string -> string, cls: ReflectedClass, methods: seq<MethodInfo>,
                                      route: Route, earlier: MethodInfo)
    requires |methods| > 0 && EmittedAction(earlier).Some?
    requires Lower(earlier.name) != Lower(methods[|methods| - 1].name)
    requires route.name == RouteName(cls.namespace, cls.shortName, EmittedAction(earlier).value)
    requires route in BuiltRoutes(build, cls, methods[..|methods| - 1])
    ensures route in BuiltRoutes(build, cls, methods)
  {
    var last := methods[|methods| - 1];
    match EmittedAction(last)
    case Some(action) =>
      KeepStep(BuiltRoutes(build, cls, methods[..|methods| - 1]), cls, earlier, last, route, RouteFor(build, cls, last, action));
    case None =>
  }

  /** A route added for a method whose name differs ignoring case from
      that of an earlier route's method does not overwrite it. */
  lemma {:induction false} KeepStep(routes: seq<Route>, cls: ReflectedClass, earlier: MethodInfo, later: MethodInfo, route: Route, added: Route)
    requires EmittedAction(earlier).Some? && EmittedAction(later).Some?
    requires Lower(earlier.name) != Lower(later.name)
    requires route.name == RouteName(cls.namespace, cls.shortName, EmittedAction(earlier).value)
    requires added.name == RouteName(cls.namespace, cls.shortName, EmittedAction(later).value)
    requires route in routes
    ensures route in Add(routes, added)
  {
    if route.name == added.name {
      SameRouteNameSameMethod(cls, earlier, later);
    }
  }

  /** In `vendor\bundleBundle\Controller` with backslash-free `vendor` and
      `bundle`, no `Bundle\` starts inside `vendor\bundle` unless `vendor`
      ends in `Bundle`: the backslash `Bundle\` ends with can only be the
      one after `vendor`. */
  lemma NoBundleBefore(vendor: string, bundle: string, k: nat)
    requires '\\' !in vendor && '\\' !in bundle && !EndsWith(vendor, BundleWord)
    requires k < |vendor| + 1 + |bundle|
    ensures !OccursAt(vendor + "\\" + bundle + (BundleSegment + ControllerSuffix), k, BundleSegment)
  {
    var tail := BundleSegment + ControllerSuffix;
    var s := vendor + "\\" + bundle + tail;
    var head := |vendor| + 1 + |bundle|;
    var last := k + |BundleSegment| - 1;
    assert BundleSegment[..|BundleWord|] == BundleWord;
    if last == |vendor| {
      assert s[k..k + |BundleWord|] == vendor[|vendor| - |BundleWord|..];
      assert s[k..k + |BundleSegment|][..|BundleWord|] == s[k..k + |BundleWord|];
    } else {
      if last < head {
        HeadChar(vendor, bundle, tail, last);
      } else {
        assert s[last] == tail[last - head] == BundleSegment[last - head];
        assert forall i :: 0 <= i < |BundleWord| ==> BundleSegment[i] != '\\';
      }
      if OccursAt(s, k, BundleSegment) {
        OccursAtChar(s, k, BundleSegment, |BundleSegment| - 1);
      }
    }
  }

  /** The bundle suffix followed by `Controller` becomes `\Controller`.
      The strings are parameters pinned by the precondition, so the
      solver reasons about `str_replace` through its lemmas instead of
      evaluating it on the literals. */
  lemma UnbundleTail(bundleSegment: string, controller: string)
    requires bundleSegment == BundleSegment && controller == ControllerSuffix
    ensures ReplaceAll(bundleSegment + controller, bundleSegment, "\\") == "\\" + controller
  {
    ReplaceAllAtStart(controller, bundleSegment, "\\");
    ReplaceAllAbsent(controller, bundleSegment, "\\");
  }

  /** Hence `Bundle\` is replaced only where the bundle suffix meets
      `\Controller`. */
  lemma {:induction false} UnbundleNamespace(vendor: string, bundle: string)
    requires '\\' !in vendor && '\\' !in bundle && !EndsWith(vendor, BundleWord)
    ensures Unbundled(vendor + "\\" + bundle + BundleSegment + ControllerSuffix) == vendor + "\\" + bundle + ControllerNamespace
  {
    var head := vendor + "\\" + bundle;
    var tail := BundleSegment + ControllerSuffix;
    assert head + BundleSegment + ControllerSuffix == head + tail;
    forall k: nat | k < |head| ensures !OccursAt(head + tail, k, BundleSegment) {
      NoBundleBefore(vendor, bundle, k);
    }
    ReplaceAllSkipNoMatch(head, tail, BundleSegment, "\\");
    UnbundleTail(BundleSegment, ControllerSuffix);
    assert vendor + "\\" + bundle + ControllerNamespace == head + ("\\" + ControllerSuffix);
  }

  /** Two backslash-free segments joined by `\` are joined by `_` once
      backslashes are mapped to underscores. */
  lemma UnderscoreJoin(x: string, y: string)
    requires '\\' !in x && '\\' !in y
    ensures ReplaceAll(x + "\\" + y, "\\", "_") == x + "_" + y
  {
    ReplaceCharConcat(x + "\\", y, '\\', "_");
    ReplaceCharConcat(x, "\\", '\\', "_");
    ReplaceAllAbsent(x, "\\", "_");
    ReplaceAllAbsent(y, "\\", "_");
    ReplaceCharSelf('\\', "_");
  }

  /** Inside `vendor\bundle` the only backslash is the separator. */
  lemma HeadChar(vendor: string, bundle: string, tail: string, k: nat)
    requires '\\' !in vendor && '\\' !in bundle
    requires k < |vendor| + 1 + |bundle| && k != |vendor|
    ensures (vendor + "\\" + bundle + tail)[k] != '\\'
  {
    var u := vendor + "\\" + bundle + tail;
    if k < |vendor| {
      assert u[k] == vendor[k];
    } else {
      assert u[k] == bundle[k - |vendor| - 1];
    }
  }

  /** At the separator no occurrence of a backslash-led search string `p`
      starts, since the bundle segment does not start with the rest of `p`
      and no further backslash follows `p`'s first character. */
  lemma NoCutAtSeparator(vendor: string, bundle: string, p: string)
    requires |p| > 0 && p[0] == '\\' && '\\' !in p[1..]
    requires '\\' !in bundle && !OccursAt(bundle, 0, p[1..])
    ensures !OccursAt(vendor + "\\" + bundle + p, |vendor|, p)
  {
    var u := vendor + "\\" + bundle + p;
    var v, n := |vendor|, |p|;
    if |bundle| >= n - 1 {
      assert u[v + 1..v + n] == bundle[..n - 1];
      assert u[v + 1..v + n] == u[v..v + n][1..];
    } else {
      assert u[v + 1 + |bundle|] == '\\';
      assert u[v..v + n][1 + |bundle|] == u[v + 1 + |bundle|];
      assert p[1 + |bundle|] == p[1..][|bundle|];
    }
  }

  /** No occurrence of such a `p` starts inside `vendor\bundle`. */
  lemma {:induction false} NoEarlierCut(vendor: string, bundle: string, p: string, k: nat)
    requires |p| > 0 && p[0] == '\\' && '\\' !in p[1..]
    requires '\\' !in vendor && '\\' !in bundle && !OccursAt(bundle, 0, p[1..])
    requires k < |vendor| + 1 + |bundle|
    ensures !OccursAt(vendor + "\\" + bundle + p, k, p)
  {
    var u := vendor + "\\" + bundle + p;
    if k == |vendor| {
      NoCutAtSeparator(vendor, bundle, p);
    } else {
      HeadChar(vendor, bundle, p, k);
      if OccursAt(u, k, p) {
        OccursAtChar(u, k, p, 0);
      }
    }
  }

  /** In `vendor\bundle\Controller` with backslash-free segments and a
      bundle segment that does not start with `Controller`, the first
      `\Controller` is the final one. */
  lemma {:induction false} ControllerCut(vendor: string, bundle: string)
    requires '\\' !in vendor && '\\' !in bundle && !OccursAt(bundle, 0, ControllerSuffix)
    ensures FirstOccurrence(vendor + "\\" + bundle + ControllerNamespace, ControllerNamespace, 0)
            == Some(|vendor| + 1 + |bundle|)
  {
    CutAt(vendor, bundle, ControllerNamespace);
  }

  lemma {:induction false} CutAt(vendor: string, bundle: string, p: string)
    requires |p| > 0 && p[0] == '\\' && '\\' !in p[1..]
    requires '\\' !in vendor && '\\' !in bundle && !OccursAt(bundle, 0, p[1..])
    ensures FirstOccurrence(vendor + "\\" + bundle + p, p, 0) == Some(|vendor| + 1 + |bundle|)
  {
    var head := vendor + "\\" + bundle;
    forall k: nat | k < |head| ensures !OccursAt(head + p, k, p) {
      NoEarlierCut(vendor, bundle, p, k);
    }
    FirstOccurrenceAtEnd(head, p);
  }

  /** The route name of a controller in namespace `vendor\bundleBundle\Controller`
      is the lower-cased `vendor_bundle_short_action`, where `short` is the
      short name less its `Controller` suffix. */
  lemma RouteNameOfBundle(vendor: string, bundle: string, shortName: string, action: string)
    requires '\\' !in vendor && '\\' !in bundle && !OccursAt(bundle, 0, ControllerSuffix)
    requires !EndsWith(vendor, BundleWord)
    ensures RouteName(vendor + "\\" + bundle + BundleSegment + ControllerSuffix, shortName, action)
            == Lower(vendor + "_" + bundle + "_" + RemoveSuffix(shortName, ControllerSuffix) + "_" + action)
  {
    var ns := vendor + "\\" + bundle + BundleSegment + ControllerSuffix;
    UnbundleNamespace(vendor, bundle);
    assert Unbundled(ns) == vendor + "\\" + bundle + ControllerNamespace;
    ControllerCut(vendor, bundle);
    var head := vendor + "\\" + bundle;
    assert (head + ControllerNamespace)[..|head|] == head;
    assert NamespacePart(ns) == head;
    UnderscoreJoin(vendor, bundle);
  }

  // The worked example below takes its words as parameters fixed by the
  // precondition, and lowers each word in a small lemma of its own: the
  // verifier evaluates a literal passed straight to `RouteName` or `Lower`
  // character by character, which costs far more than the same steps
  // taken one word at a time.

  /** The worked example, first half: `NetMafia\HolyCrudBundle\Controller`
      and `WidgetController` give the lower-cased
      `NetMafia_HolyCrud_Widget_<action>`. */
  lemma {:induction false} ExampleShape(vendor: string, bundle: string, ns: string, short: string, action: string)
    requires vendor == "NetMafia" && bundle == "HolyCrud"
    requires ns == vendor + "\\" + bundle + BundleSegment + ControllerSuffix && short == "WidgetController"
    ensures RouteName(ns, short, action) == Lower(vendor + "_" + bundle + "_" + "Widget" + "_" + action)
  {
    assert !OccursAt(bundle, 0, ControllerSuffix);
    RouteNameOfBundle(vendor, bundle, short, action);
    assert RemoveSuffix(short, ControllerSuffix) == "Widget";
  }

  /** Lower-casing an underscore-joined name lowers each part. */
  lemma {:induction false} LowerUnderscored(v: string, b: string, w: string, a: string)
    ensures Lower(v + "_" + b + "_" + w + "_" + a) == Lower(v) + "_" + Lower(b) + "_" + Lower(w) + "_" + Lower(a)
  {
    assert Lower("_") == "_";
    LowerJoin(v + "_" + b + "_" + w + "_", a);
    LowerJoin(v + "_" + b + "_" + w, "_");
    LowerJoin(v + "_" + b + "_", w);
    LowerJoin(v + "_" + b, "_");
    LowerJoin(v + "_", b);
    LowerJoin(v, "_");
  }

  /** `strtolower` of the words of the example, one at a time. */
  lemma LowerVendorWord()
    ensures Lower("NetMafia") == "netmafia"
  {
  }

  lemma LowerBundleWord()
    ensures Lower("HolyCrud") == "holycrud"
  {
  }

  lemma LowerControllerWord()
    ensures Lower("Widget") == "widget"
  {
  }

  lemma LowerActionWord()
    ensures Lower("edit") == "edit"
  {
  }

  /** The worked example: `NetMafia\HolyCrudBundle\Controller`,
      `WidgetController` and `edit` give `netmafia_holycrud_widget_edit`. */
  lemma {:induction false} RouteNameExample(vendor: string, bundle: string, ns: string, short: string, action: string)
    requires vendor == "NetMafia" && bundle == "HolyCrud"
    requires ns == vendor + "\\" + bundle + BundleSegment + ControllerSuffix
    requires short == "WidgetController" && action == "edit"
    ensures RouteName(ns, short, action) == "netmafia" + "_" + "holycrud" + "_" + "widget" + "_" + "edit"
  {
    ExampleShape(vendor, bundle, ns, short, action);
    LowerUnderscored(vendor, bundle, "Widget", action);
    LowerVendorWord();
    LowerBundleWord();
    LowerControllerWord();
    LowerActionWord();
  }

  /** The loader, with the controller name parser's `build` injected. */
  class HolyCrudLoader {
    const build: string -> string

    constructor (build: string -> string)
      ensures this.build == build
    {
      this.build := build;
    }

    /** `replacePathVariables($path, $arguments)`. */
    method ReplacePathVariables(path: string, params: seq<string>) returns (r: string)
      ensures r == ReplaceFrom(path, params, 0)
      ensures params == [] ==> r == path
    {
      r := path;
      var i := 0;
      while i < |params|
        invariant 0 <= i <= |params|
        invariant ReplaceFrom(r, params, i) == ReplaceFrom(path, params, 0)
      {
        r := ReplaceAll(r, DecimalString(i), params[i]);
        i := i + 1;
      }
    }

    /** `generatePath($name, $arguments)`. */
    method GeneratePath(name: string, params: seq<string>) returns (path: string)
      ensures path == PathFor(name, params)
    {
      if name != ViewAction {
        path := "";
        var i := 0;
        while i < |params|
          invariant 0 <= i <= |params|
          invariant path == Segments(0, i)
        {
          path := path + Seg(i);
          i := i + 1;
        }
        path := path + "/" + name;
      } else {
        path := ViewPath;
      }
      path := ReplacePathVariables(path, params);
    }

    /** `buildRoutes($class)`: one pass over the reflected methods. */
    method BuildRoutes(cls: ReflectedClass) returns (routes: seq<Route>)
      ensures routes == BuiltRoutes(build, cls, cls.methods)
    {
      routes := [];
      var i := 0;
      while i < |cls.methods|
        invariant 0 <= i <= |cls.methods|
        invariant routes == BuiltRoutes(build, cls, cls.methods[..i])
      {
        var m := cls.methods[i];
        assert cls.methods[..i + 1][..i] == cls.methods[..i];
        match EmittedAction(m) {
          case Some(action) =>
            var path := GeneratePath(action, m.params);
            var controller := build(cls.name + "::" + m.name);
            routes := Add(routes, Route(RouteName(cls.namespace, cls.shortName, action), path, controller));
          case None =>
        }
        i := i + 1;
      }
      assert cls.methods[..i] == cls.methods;
    }

    /** `load($resource, $type)`: the routes of the resource class. */
    method Load(resource: ReflectedClass, typ: Option<string>) returns (routes: seq<Route>)
      ensures routes == BuiltRoutes(build, resource, resource.methods)
    {
      routes := BuildRoutes(resource);
    }

    /** `supports($resource, $type)`: only the `holycrud` type. */
    function Supports(resource: ReflectedClass, typ: Option<string>): (r: bool)
      ensures r <==> typ == Some(LoaderType)
    {
      typ == Some(LoaderType)
    }
  }
}
