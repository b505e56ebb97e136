# HolyCrud auto-mapping, modelled in Dafny

HolyCrudBundle is a Symfony bundle. A CRUD controller built on it works
out its routes, entity repository, entity, form and template from naming
conventions. This project models the three pieces of that engine and
proves what they promise.

- **`HolyCrudHelper`** is the resolver, modelled in module `Util`:
  - the class-name guesser behind `getRepository` and `getForm`;
  - the route lookups `getRoute` and `getRoutes`;
  - the fallback chains of `getRepository`, `getEntity`, `getTemplate` and `getForm`.

  Its collaborators are the constant fields of a class:
  - the router's route collection, a sequence of routes in iteration order;
  - `class_exists`, a set of known class names;
  - the entity manager's `getRepository`, a function;
  - the templating engine's `exists`, a set of existing templates;
  - the configured engine suffixes and the request format;
  - `ControllerNameParser::build`, an uninterpreted function;
  - the form factory's `create`, an uninterpreted function.

  `HolyCrudGeneratorException` becomes a `Failure` of a `Result`, with one error kind per place the source throws it.
- **`HolyCrudLoader`** is the route loader, modelled in module `Routing`. It emits one route for each public `XAction` method of the resource class:
  - the path has one `/\{i\}` segment per parameter, then `/X`;
  - each index `i` is then replaced by its parameter's name;
  - the name is built from the namespace, the short class name and `X`, then lower-cased.

  The reflected class is a value. It holds the class name, the namespace, the short name, and the methods with their visibility and parameter names.
- **`HolyCrudAutomappingTrait`** is the per-controller state, modelled in module `Traits`:
  - a lazily filled cache of the action-to-route map;
  - single route lookups answered from that cache;
  - delegators that pass the controller's own class name to the helper;
  - `getControllerName`.

  Symfony's `RouteCollection::add` works as follows: a route already stored under the new name is dropped, and the new route goes last. It is modelled in module `RouteCollection`. The PHP string functions the code uses are modelled in module `Strings`:
  - `strpos`;
  - `str_replace`;
  - `strtolower`;
  - the `/X$/` suffix strip;
  - the decimal form of an integer key.

Each loop of the source is a `method` with a `while` loop, proved against a function that specifies it:
- `getRoute`, `getRoutes` and `getTemplate`;
- `replacePathVariables`, `generatePath` and `buildRoutes`.

Lemmas about those functions state what the source promises.

Three behaviours of the code are worth spelling out:

- **The `view` action** keeps the fixed path `/{1}` (Routing/HolyCrudLoader.php:55-57), whereas the comment at Routing/HolyCrudLoader.php:59-60 describes generated paths as `/{arg1}/{arg2}/{arg3}/{actionName}`. Substitution then runs for indices 0, 1, …, so:
  - with at most one parameter the path stays `/{1}`;
  - with two or more it becomes `/{<second parameter>}` when that name holds no digit.

  `ViewPathFewParams` and `ViewPathSecondParam` state this.
- **`buildRouteName`** does not reject a short name without the `Controller` suffix. `preg_replace('/Controller$/', …)` leaves such a name unchanged, and the name is still built.
- **The class-name regex is not anchored.** Text after the last `Controller` that `(.+)` can reach is ignored, so any class name containing a match is accepted, not only names of the shape `…\Controller\{S}Controller`.

## Model

| member | source | states |
|---|---|---|
| Util.SuffixAfter | Util/HolyCrudHelper.php:264 | for a separator at `i`, the last `Controller` after it that leaves `(.+)` non-empty; none only when no match splits at `i` |
| Util.LastSplit | Util/HolyCrudHelper.php:264 | the last separator below `hi` that admits a match, with its last suffix; none iff no separator below `hi` admits one |
| Util.GuessedClassName | Util/HolyCrudHelper.php:262-271 | fails, with the non-standard-name error, exactly when no `\Controller\`, at least one character and `Controller` occur in that order; otherwise the guess is `prefix\directory\middle` + suffix, split at the last separator that admits a match and at the last `Controller` after it |
| Util.GuessCanonical | Util/HolyCrudHelper.php:262-271 | for `N\Controller\SController` with any namespace `N` and a non-empty backslash-free `S`, the guess is `N\D\S` + suffix |
| Util.GuessFromSplit | Util/HolyCrudHelper.php:262-271 | whenever a split is the one the regex engine reports, the guess is built from exactly that split |
| Util.CanonicalSplit | Util/HolyCrudHelper.php:264 | in `N\Controller\SController`, for any `N` and a non-empty backslash-free `S`, the regex splits at the end of `N` and before the final `Controller` |
| Util.GuessFailsWithoutSuffix | Util/HolyCrudHelper.php:264-268 | for backslash-free `N` and `T`, `N\Controller\T` fails when `T` has no `Controller` after its first character |
| Util.GuessEntityExample | Util/HolyCrudHelper.php:262-271 | `App\Controller\WidgetController` with `Entity` gives `App\Entity\Widget` |
| Util.GuessFormExample | Util/HolyCrudHelper.php:262-271 | `App\Controller\WidgetController` with `Form`/`Type` gives `App\Form\WidgetType` |
| Util.GuessBundleEntityExample | Util/HolyCrudHelper.php:262-271 | `NetMafia\HolyCrudBundle\Controller\WidgetController` with `Entity` gives `NetMafia\HolyCrudBundle\Entity\Widget` |
| Util.GuessLegacyFails | Util/HolyCrudHelper.php:264-268 | `App\Controller\LegacyHandler` fails for every directory and suffix |
| Util.GuessBareControllerFails | Util/HolyCrudHelper.php:264-268 | `App\Controller\Controller` fails: `(.+)` needs at least one character |
| Util.HolyCrudHelper.constructor | Util/HolyCrudHelper.php:54-70 | the collaborators are injected once and stored unchanged in constant fields |
| Util.FirstRoute | Util/HolyCrudHelper.php:87-96 | null iff no route's `_controller` is the target; otherwise the name of the first route, in collection order, whose `_controller` is the target |
| Util.HolyCrudHelper.GetRoute | Util/HolyCrudHelper.php:79-97 | the early-return scan returns the first-match lookup for `class::method` |
| Util.RouteExample | Util/HolyCrudHelper.php:79-97 | the `editAction` route is found by name; `removeAction` gives null |
| Util.ActionOf | Util/HolyCrudHelper.php:112-113 | an extracted action `X` is non-empty and the `_controller` is exactly `class::XAction` |
| Util.ActionOfMatches | Util/HolyCrudHelper.php:112-113 | every `_controller` of the form `class::XAction` with `X` non-empty matches, with action `X` |
| Util.AddRouteAction | Util/HolyCrudHelper.php:111-115 | the in-place update `$routes[$actionName] = $routeName` for one route, which leaves the map alone when the route does not match; `RoutesOfStep` states that it keeps the map correct |
| Util.RoutesOfStep | Util/HolyCrudHelper.php:111-115 | one more route keeps the map correct: its action's entry is set to its name |
| Util.RoutesOf | Util/HolyCrudHelper.php:105-119 | the action of every matching route is a key; every key is matched by some route and maps to the name of the last route matching it |
| Util.HolyCrudHelper.GetRoutes | Util/HolyCrudHelper.php:105-119 | the loop that fills the array in place computes that map |
| Util.Repository.Find | Util/HolyCrudHelper.php:162 | `find($id)` returns the stored entity, or null when none is stored |
| Util.HolyCrudHelper.GetRepository | Util/HolyCrudHelper.php:131-142 | a naming failure comes before any class check. Otherwise it succeeds iff the guessed `Entity` class is known, with that class's repository, and fails with the repository error if not |
| Util.HolyCrudHelper.GetEntity | Util/HolyCrudHelper.php:156-174 | repository failures propagate. With an id it returns `find(id)` verbatim, null included. Without one it returns a new instance iff the repository's class exists, and otherwise fails with the entity error |
| Util.Candidate | Util/HolyCrudHelper.php:197 | the candidate template `name.format.engine`; `FirstTemplate` and `TemplateFor` state which candidate is chosen |
| Util.FirstTemplate | Util/HolyCrudHelper.php:196-201 | none iff no candidate `name.format.engine` exists; otherwise the candidate of the first engine, in configured order, that exists, with every earlier candidate absent |
| Util.HolyCrudHelper.TemplateFor | Util/HolyCrudHelper.php:191-205 | using `build(class::method)` as the name, it fails with the template error iff no candidate exists; otherwise it returns the first existing one |
| Util.HolyCrudHelper.GetTemplate | Util/HolyCrudHelper.php:191-205 | the early-return loop over the engines computes that result |
| Util.TemplateExample | Util/HolyCrudHelper.php:191-205 | with format `html`, engines `twig` then `php`, and only `widget/edit.html.php` existing, that template is returned |
| Util.HolyCrudHelper.AutoFindForm | Util/HolyCrudHelper.php:280-289 | a naming failure propagates. Otherwise it returns a form iff the guessed `Form\…Type` class exists, namely `create(that class, entity)` |
| Util.HolyCrudHelper.AutoGenerateForm | Util/HolyCrudHelper.php:298-303 | never yields a form |
| Util.HolyCrudHelper.GetForm | Util/HolyCrudHelper.php:218-236 | a naming failure propagates. Otherwise it succeeds iff the guessed form type exists, with `create(type, entity)`, and fails with the form error if not |
| RouteCollection.Without | Routing/HolyCrudLoader.php:93-99 | leaves exactly the routes not named `name`, and preserves unique names |
| RouteCollection.Add | Routing/HolyCrudLoader.php:93-99 | the new route is last. The other routes are those previously stored under a different name. Unique names are preserved |
| Strings.FirstOccurrence | Routing/HolyCrudLoader.php:111 | `strpos` gives the first index from `from` on at which the needle occurs, or none when it does not occur |
| Strings.LastOccurrence | Util/HolyCrudHelper.php:264 | the last occurrence in a range, which is where a greedy sub-pattern stops |
| Strings.ReplaceAll | Routing/HolyCrudLoader.php:106-123 | `str_replace` with one non-empty search string: occurrences are found left to right without overlap, and replaced text is not searched again; its properties are the `ReplaceAll…` lemmas below |
| Strings.ReplaceAllAbsent | Routing/HolyCrudLoader.php:47 | `str_replace` leaves a string unchanged when the needle's first character does not occur in it |
| Strings.NoMatchShift | Routing/HolyCrudLoader.php:110 | a needle that starts nowhere in `a` starts nowhere in `a` less its first character |
| Strings.ReplaceAllSkipNoMatch | Routing/HolyCrudLoader.php:110 | a prefix at which no occurrence of the needle starts is copied through |
| Strings.ReplaceAllAtStart | Routing/HolyCrudLoader.php:110 | an occurrence at the very start is replaced, and the scan resumes after it |
| Strings.ReplaceCharConcat | Routing/HolyCrudLoader.php:120 | replacing one character distributes over concatenation |
| Strings.DecimalString | Routing/HolyCrudLoader.php:47 | the decimal key string is non-empty and starts with a digit; below ten it is that single digit |
| Strings.Lower | Routing/HolyCrudLoader.php:120 | `strtolower` keeps the length, lowers each ASCII capital, keeps every other character, and leaves no capital |
| Strings.LowerCancelPrefix | Routing/HolyCrudLoader.php:120 | two strings that agree after a common prefix once lowered still agree once lowered with a common suffix |
| Strings.LowerJoin | Routing/HolyCrudLoader.php:120 | `strtolower` distributes over concatenation |
| Strings.RemoveSuffix | Routing/HolyCrudLoader.php:117 | one trailing suffix is removed when present; otherwise the string is unchanged |
| Routing.EmittedAction | Routing/HolyCrudLoader.php:84-88 | a method is emitted only if public and named `XAction` with `X` non-empty; the action is `X` |
| Routing.EmittedActionComplete | Routing/HolyCrudLoader.php:84-88 | every public method `XAction` with `X` non-empty is emitted as `X` |
| Routing.Seg | Routing/HolyCrudLoader.php:63-65 | the segment `/\{i\}` appended for the parameter at index `i`; `ReplaceSeg` states its substitution |
| Routing.Segments | Routing/HolyCrudLoader.php:63-65 | the segments for indices `lo` up to `hi - 1` in ascending order; `SegmentsSplit` states the order |
| Routing.TemplatePath | Routing/HolyCrudLoader.php:53-69 | the path before substitution: `/{1}` for `view`, otherwise the segments then `/name`; `GeneratePath`'s loop is proved to build it |
| Routing.ReplaceFrom | Routing/HolyCrudLoader.php:43-51 | `replacePathVariables` from index `k` on; `ReplacePathVariables`' loop is proved to compute it |
| Routing.PathFor | Routing/HolyCrudLoader.php:53-75 | the generated path; `ZeroParamPath`, `PlaceholderPath`, `ViewPathFewParams` and `ViewPathSecondParam` state its shape |
| Routing.ZeroParamPath | Routing/HolyCrudLoader.php:53-75 | an action other than `view` with no parameters gets exactly `/name` |
| Routing.ReplaceFromDigitFree | Routing/HolyCrudLoader.php:43-51 | substitution leaves a path without digits unchanged |
| Routing.SegmentsSplit | Routing/HolyCrudLoader.php:63-65 | the segments are built in index order: the first segment, then the rest |
| Routing.ReplaceSeg | Routing/HolyCrudLoader.php:43-65 | for an index `i` below ten, substituting `i` turns `/\{i\}` into `/\{name\}`, backslashes kept |
| Routing.PlaceholderPath | Routing/HolyCrudLoader.php:53-75 | with at most ten digit-free parameter names and a digit-free action `name` other than `view`, the path is one `/\{param\}` per parameter in order, then `/name` |
| Routing.ViewPathFewParams | Routing/HolyCrudLoader.php:53-75 | `view` with at most one parameter keeps `/{1}` |
| Routing.ViewPathSecondParam | Routing/HolyCrudLoader.php:53-75 | `view` with two or more parameters gets `/{second parameter}` when that name has no digit |
| Routing.Unbundled | Routing/HolyCrudLoader.php:110 | the namespace with every `Bundle\` replaced by `\`; `UnbundleNamespace` states it on a bundle namespace |
| Routing.NamespacePart | Routing/HolyCrudLoader.php:109-114 | the namespace with `Bundle\` replaced, cut just before its first `\Controller`; it holds no `\Controller`, and it is the whole namespace when there is none |
| Routing.RouteName | Routing/HolyCrudLoader.php:106-123 | the name holds no upper-case ASCII letter |
| Routing.NoBundleBefore | Routing/HolyCrudLoader.php:110 | in `vendor\bundleBundle\Controller` with backslash-free parts and `vendor` not ending in `Bundle`, `Bundle\` occurs nowhere before the one after `bundle` |
| Routing.UnbundleNamespace | Routing/HolyCrudLoader.php:110 | under the same conditions, `str_replace` turns `vendor\bundleBundle\Controller` into `vendor\bundle\Controller` |
| Routing.UnderscoreJoin | Routing/HolyCrudLoader.php:120 | two backslash-free parts joined by `\` end up joined by `_` |
| Routing.ControllerCut | Routing/HolyCrudLoader.php:111-114 | in `vendor\bundle\Controller`, with `vendor` and `bundle` backslash-free and `bundle` not starting with `Controller`, the first `\Controller` is the final one |
| Routing.RouteNameOfBundle | Routing/HolyCrudLoader.php:106-123 | namespace `vendor\bundleBundle\Controller`, short name `S` and action `a` give the lower-cased `vendor_bundle_S'_a`, where `S'` is `S` less one trailing `Controller`; `vendor` and `bundle` are backslash-free, `vendor` does not end in `Bundle` and `bundle` does not start with `Controller` |
| Routing.ExampleShape | Routing/HolyCrudLoader.php:106-123 | `NetMafia\HolyCrudBundle\Controller` and `WidgetController` give the lower-cased `NetMafia_HolyCrud_Widget_<action>` |
| Routing.LowerUnderscored | Routing/HolyCrudLoader.php:120 | lower-casing an underscore-joined name lowers each part |
| Routing.RouteNameExample | Routing/HolyCrudLoader.php:106-123 | `NetMafia\HolyCrudBundle\Controller`, `WidgetController` and `edit` give `netmafia_holycrud_widget_edit` |
| Routing.RouteFor | Routing/HolyCrudLoader.php:89-99 | the route emitted for one method: route name, generated path, and `build(class::method)` as `_controller` |
| Routing.BuiltRoutes | Routing/HolyCrudLoader.php:77-104 | the collection after adding each emitted method's route in method order; `BuildRoutes`' loop is proved to build it, and the `BuiltRoutes…` lemmas state its properties |
| Routing.BuiltRoutesSound | Routing/HolyCrudLoader.php:84-101 | every route in the collection is some emitted method's route: its name is that method's route name, its path the generated path, and its `_controller` is `build(class::method)` |
| Routing.BuiltRoutesComplete | Routing/HolyCrudLoader.php:84-101 | every emitted method leaves a route under its route name |
| Routing.BuiltRoutesUniqueNames | Routing/HolyCrudLoader.php:93-99 | route names in the collection are unique |
| Routing.BuiltRouteNamesLowercase | Routing/HolyCrudLoader.php:120 | no generated route name holds an upper-case ASCII letter |
| Routing.SameRouteNameSameMethod | Routing/HolyCrudLoader.php:106-123 | two actions with the same route name come from methods whose names agree once lowered |
| Routing.BuiltRoutesKeepEach | Routing/HolyCrudLoader.php:84-101 | when method names are distinct ignoring case, every emitted method's own route is in the collection |
| Routing.KeepStep | Routing/HolyCrudLoader.php:93-99 | adding a route for a method whose name differs ignoring case does not drop an earlier method's route |
| Routing.KeptAfter | Routing/HolyCrudLoader.php:84-101 | a route survives every later method whose name differs ignoring case from the method it was built for |
| Routing.ViewIndexOne | Routing/HolyCrudLoader.php:43-51 | substituting index 1 in `/{1}` puts the parameter name between the braces |
| Routing.HolyCrudLoader.constructor | Routing/HolyCrudLoader.php:25-29 | the controller name parser's `build` is injected once and stored unchanged |
| Routing.HolyCrudLoader.ReplacePathVariables | Routing/HolyCrudLoader.php:43-51 | the loop replaces, for each index in ascending order, every occurrence of its decimal string with that parameter's name; an empty parameter list leaves the path unchanged |
| Routing.HolyCrudLoader.GeneratePath | Routing/HolyCrudLoader.php:53-75 | the appending loop plus substitution gives the action's specified path |
| Routing.HolyCrudLoader.BuildRoutes | Routing/HolyCrudLoader.php:77-104 | the loop over the reflected methods builds the specified collection |
| Routing.HolyCrudLoader.Load | Routing/HolyCrudLoader.php:38-41 | loading a resource builds its routes, whatever the type |
| Routing.HolyCrudLoader.Supports | Routing/HolyCrudLoader.php:133-136 | true iff the type is `holycrud` |
| Traits.ShortName | Controller/Traits/HolyCrudAutomappingTrait.php:102 | the short name has no backslash, is a suffix of the class name, and is preceded by a backslash unless it is the whole name |
| Traits.ShortNameAfterLast | Controller/Traits/HolyCrudAutomappingTrait.php:102 | the short name of `n\t` with backslash-free `t` is `t` |
| Traits.AutomappingController.GetRoutes | Controller/Traits/HolyCrudAutomappingTrait.php:13-21 | returns the helper's map for this class and leaves it cached. A filled cache, even an empty map, is returned and left unchanged |
| Traits.AutomappingController.GetRoute | Controller/Traits/HolyCrudAutomappingTrait.php:30-39 | returns `routes[a]` iff the key is present, else null. A found name is that of the last route pointing at this class's `aAction`; null means no route points there. The cache is then filled |
| Traits.AutomappingController.GetRepository | Controller/Traits/HolyCrudAutomappingTrait.php:47-51 | the helper's repository for the controller's own class |
| Traits.AutomappingController.GetEntity | Controller/Traits/HolyCrudAutomappingTrait.php:59-63 | the helper's entity for the controller's own class and the given id, or none |
| Traits.AutomappingController.GetTemplate | Controller/Traits/HolyCrudAutomappingTrait.php:74-78 | the helper's template for the controller's own class |
| Traits.AutomappingController.GetForm | Controller/Traits/HolyCrudAutomappingTrait.php:88-92 | the helper's form for the controller's own class and the given entity, or none |
| Traits.AutomappingController.GetControllerName | Controller/Traits/HolyCrudAutomappingTrait.php:100-103 | the short name less exactly one trailing `Controller`, or unchanged when it lacks one; no backslash |
| Traits.ControllerNameOfCanonical | Controller/Traits/HolyCrudAutomappingTrait.php:94-103 | for `n\XController` with backslash-free `X` the controller name is `X`, so `SomeController` gives `Some` |
| Traits.CanonicalControllerResolves | Controller/Traits/HolyCrudAutomappingTrait.php:47-92 | a controller `n\Controller\XController`, for any namespace `n` and a non-empty backslash-free `X`, gets the repository of `n\Entity\X` and a form built from `n\Form\XType` when those classes exist; without the form type it gets the form error |
| Traits.EmittedRouteAction | Routing/HolyCrudLoader.php:89-91 | with `_controller` in `Class::method` notation, an emitted route points the helper at its own action and no other |
| Traits.LoadedRouteNames | Util/HolyCrudHelper.php:105-119 | on the loader's collection, each key of the helper's map maps to the route name the loader gives that action |
| Traits.LoadedActionsFound | Util/HolyCrudHelper.php:105-119 | on the loader's collection, with method names distinct ignoring case, every action the loader emitted is a key of the helper's map |

## Left out

- Collaborators are not modelled beyond their results: the router, Doctrine's `EntityManager` and repositories, the form factory, the templating engine and `ControllerNameParser` all appear only as given values or functions. Doctrine's `getRepository` is total here; its mapping exception for a known class that is not an entity is not modelled.
- `ControllerNameParser::build` is an uninterpreted function. Its own failure, an exception for a class outside a bundle, is not modelled.
- PHP reflection is replaced by a value: the class name, namespace, short name, and the methods with visibility and parameter names. Only `ShortName` is derived from a string.
- A route without a `_controller` default carries the empty string. This never equals `class::method` and never matches the `getRoutes` pattern.
- PHP's loose `==` between `_controller` and `class::method` (numeric-string coercion), and `preg_quote` details, are modelled as exact string equality and an exact prefix.
- In PCRE, `.` does not match a newline, and `$` also matches before a final newline. Here `.` matches any character and `$` means the end of the string. Class and method names hold no newline.
- Routing.BuiltRoutesKeepEach: PHP method and class names are case-insensitive. The model compares names exactly. It states the uniqueness of method names ignoring case only as the `CaseDistinctNames` precondition of this lemma and of `Traits.LoadedActionsFound`.
- `Routing.PlaceholderPath`: the general path is proved for at most ten parameters with digit-free names. With more than ten, a later segment such as `/\{10\}` holds the decimal strings of earlier indices (`1` and `0`). Those substitutions run first and rewrite that segment before index 10 comes up, so the result then depends on the parameter names.
- The array `getRoutes` returns keeps its keys in first-insertion order. The model's `map` has no order. Nothing in the core depends on that order: `getRoute` looks a key up by action name.
- Keys of PHP arrays that are numeric strings, such as an action called `1`, are converted to integers by PHP. The map keeps every key as a string.
- `Symfony\Component\Routing\Route` normalises its path, for example by adding a leading slash. A route here stores the path exactly as generated.
- `getResolver`/`setResolver` are empty stubs, and the trait's container lookup `getHelper` is a service lookup; neither is modelled. The helper is a field of the controller.
- `getMethodShortNotation` is folded into `TemplateFor` as `build(class::method)`.
- Controller/AbstractHolyCrudController.php, the CRUD actions built on the trait, is not part of this model: it is HTTP, persistence and rendering glue.
- `Traits.LoadedRouteNames` and `Traits.LoadedActionsFound` take the loader's `build` to be the identity. That is, they take the router to hand the helper `_controller` in `Class::method` notation. Symfony's delegating loader converts the short notation back when it loads routes; that conversion is outside the model.
