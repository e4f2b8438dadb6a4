/**
 SwaggerAssembler.pathByRoutes: the routes of a service, merged into one operation for
 each path and action.  The specification groups the routes and folds each group; the
 code fills a map of mutable paths and operations in a nested loop.
 */
module SwaggerRoutes {
  import opened Wrappers
  import opened XenonActions

  // ----- Routes -----

  datatype ParamDef = BODY | PATH | QUERY | RESPONSE | CONSUMES | PRODUCES | OTHER

  datatype RouteParameter = RouteParameter(
    name: string,
    description: Option<string>,
    paramDef: ParamDef,
    required: bool,
    typeName: Option<string>,
    value: Option<string>)

  /** A support level is given by its rank in the order of declaration. */
  datatype Route = Route(
    path: Option<string>,
    action: Action,
    description: Option<string>,
    requestType: Option<string>,
    responseType: Option<string>,
    parameters: Option<seq<RouteParameter>>,
    supportLevel: Option<nat>)

  // ----- Operations -----

  datatype FormField = FormField(description: Option<string>, default: Option<string>, required: bool)

  datatype Parameter =
    | PathParameter(
        name: string, description: Option<string>, required: bool, typeName: string, default: Option<string>)
    | QueryParameter(
        name: string, description: Option<string>, required: bool, typeName: string, default: Option<string>)
    | BodyParameter(podo: string)
    | FormBody(properties: map<string, FormField>)

  /** A response and the type its schema is built from. */
  datatype Response = Response(description: Option<string>, schema: Option<string>)

  datatype Operation = Operation(
    tag: string,
    description: Option<string>,
    deprecated: bool,
    parameters: seq<Parameter>,
    responses: map<string, Response>,
    consumes: Option<seq<string>>,
    produces: Option<seq<string>>)

  /** What one run of the assembler is configured with: the current tag, the level from
      which routes are documented, the level that means deprecated, the type of the
      generic error, and the locale's lower-casing. */
  datatype Setup = Setup(
    tag: string,
    supportLevel: nat,
    deprecatedLevel: nat,
    errorType: string,
    lower: string -> string)

  // ----- Text -----

  predicate IsWhitespace(c: char) {
    c == ' ' || 9 <= c as int <= 13 || 28 <= c as int <= 31
  }

  /** isBlank: null, empty, or only whitespace. */
  predicate IsBlank(s: Option<string>) {
    s.None? || forall i :: 0 <= i < |s.value| ==> IsWhitespace(s.value[i])
  }

  // ----- One route -----

  function KeyOf(r: Route): string {
    if r.path.Some? then r.path.value else ""
  }

  predicate Included(s: Setup, r: Route) {
    r.supportLevel.None? || r.supportLevel.value >= s.supportLevel
  }

  function ParametersOf(r: Route): seq<RouteParameter> {
    if r.parameters.Some? then r.parameters.value else []
  }

  function LowerType(s: Setup, p: RouteParameter): string {
    if p.typeName.Some? then s.lower(p.typeName.value) else ""
  }

  function DescriptionOr(p: RouteParameter, r: Route): Option<string> {
    if IsBlank(p.description) then r.description else p.description
  }

  function PlainParameter(s: Setup, r: Route, p: RouteParameter): seq<Parameter> {
    match p.paramDef
    case PATH => [PathParameter(p.name, p.description, p.required, LowerType(s, p), p.value)]
    case QUERY => [QueryParameter(p.name, DescriptionOr(p, r), p.required, LowerType(s, p), p.value)]
    case _ => []
  }

  /** The path and query parameters, in order. */
  function PlainParameters(s: Setup, r: Route, ps: seq<RouteParameter>): seq<Parameter>
    decreases |ps|
  {
    if ps == [] then []
    else PlainParameters(s, r, ps[..|ps| - 1]) + PlainParameter(s, r, ps[|ps| - 1])
  }

  /** The parameters of one kind, in order. */
  function Only(ps: seq<RouteParameter>, d: ParamDef): (r: seq<RouteParameter>)
    ensures forall p :: p in r <==> p in ps && p.paramDef == d
    decreases |ps|
  {
    if ps == [] then []
    else
      var pre, p := Only(ps[..|ps| - 1], d), ps[|ps| - 1];
      assert ps == ps[..|ps| - 1] + [p];
      if p.paramDef == d then pre + [p] else pre
  }

  function NamesOf(ps: seq<RouteParameter>): (r: seq<string>)
    ensures |r| == |ps| && forall i :: 0 <= i < |r| ==> r[i] == ps[i].name
  {
    seq(|ps|, i requires 0 <= i < |ps| => ps[i].name)
  }

  function Form(r: Route, ps: seq<RouteParameter>): map<string, FormField>
    decreases |ps|
  {
    if ps == [] then map[]
    else
      var p := ps[|ps| - 1];
      Form(r, ps[..|ps| - 1])[p.name := FormField(DescriptionOr(p, r), p.value, p.required)]
  }

  function DeclaredResponses(ps: seq<RouteParameter>): map<string, Response>
    decreases |ps|
  {
    if ps == [] then map[]
    else
      var p := ps[|ps| - 1];
      DeclaredResponses(ps[..|ps| - 1])[p.name := Response(p.description, p.typeName)]
  }

  function DefaultResponses(s: Setup, r: Route): map<string, Response> {
    map["200" := Response(Some("Success"), r.responseType), "404" := Response(Some("Error"), Some(s.errorType))]
  }

  /** The parameters of a route's operation: what it declares, then one for its body. */
  function SwaggerParameters(s: Setup, r: Route): seq<Parameter> {
    var ps := ParametersOf(r);
    PlainParameters(s, r, ps) +
    if Only(ps, BODY) != [] then [FormBody(Form(r, Only(ps, BODY)))]
    else if r.requestType.Some? then [BodyParameter(r.requestType.value)]
    else []
  }

  function OrNone<T(==)>(xs: seq<T>): Option<seq<T>> {
    if xs == [] then None else Some(xs)
  }

  /** The operation of a single route. */
  function OperationOf(s: Setup, r: Route): Operation {
    var ps := ParametersOf(r);
    var declared := DeclaredResponses(Only(ps, RESPONSE));
    Operation(
      s.tag,
      r.description,
      r.supportLevel == Some(s.deprecatedLevel),
      SwaggerParameters(s, r),
      if declared == map[] then DefaultResponses(s, r) else declared,
      OrNone(NamesOf(Only(ps, CONSUMES))),
      OrNone(NamesOf(Only(ps, PRODUCES))))
  }

  // ----- The specification: group and fold -----

  predicate InGroup(s: Setup, key: string, action: Action, r: Route) {
    Included(s, r) && KeyOf(r) == key && r.action == action
  }

  /** The included routes for a path and an action, in order. */
  function Group(s: Setup, rs: seq<Route>, key: string, action: Action): (g: seq<Route>)
    ensures forall r :: r in g <==> r in rs && InGroup(s, key, action, r)
    decreases |rs|
  {
    if rs == [] then []
    else
      var pre, r := Group(s, rs[..|rs| - 1], key, action), rs[|rs| - 1];
      assert rs == rs[..|rs| - 1] + [r];
      if InGroup(s, key, action, r) then pre + [r] else pre
  }

  function Flattened<T>(lists: seq<seq<T>>): seq<T>
    decreases |lists|
  {
    if lists == [] then [] else Flattened(lists[..|lists| - 1]) + lists[|lists| - 1]
  }

  function AllParameters(s: Setup, g: seq<Route>): seq<Parameter>
    decreases |g|
  {
    if g == [] then [] else AllParameters(s, g[..|g| - 1]) + SwaggerParameters(s, g[|g| - 1])
  }

  /** The descriptions that are not blank, in order. */
  function Descriptions(g: seq<Route>): seq<string>
    decreases |g|
  {
    if g == [] then []
    else
      var pre, d := Descriptions(g[..|g| - 1]), g[|g| - 1].description;
      if IsBlank(d) then pre else pre + [d.value]
  }

  function JoinedWithSlash(ds: seq<string>): string
    requires ds != []
    decreases |ds|
  {
    if |ds| == 1 then ds[0] else JoinedWithSlash(ds[..|ds| - 1]) + " / " + ds[|ds| - 1]
  }

  function MergedDescription(g: seq<Route>): Option<string>
    requires g != []
  {
    if Descriptions(g) == [] then g[0].description else Some(JoinedWithSlash(Descriptions(g)))
  }

  /** The operation of a group: all its parameters, all its descriptions, and everything
      else from its first route. */
  function MergedOperation(s: Setup, g: seq<Route>): Operation
    requires g != []
  {
    OperationOf(s, g[0]).(parameters := AllParameters(s, g), description := MergedDescription(g))
  }

  // ----- Merging one more route -----

  function WithDescription(dest: Option<string>, source: Option<string>): Option<string> {
    if !IsBlank(dest) && !IsBlank(source) then Some(dest.value + " / " + source.value)
    else if !IsBlank(source) then source
    else dest
  }

  /** getSwaggerOperation, on values. */
  function Appended(dest: Operation, source: Operation): Operation {
    dest.(
      parameters := dest.parameters + source.parameters,
      description := WithDescription(dest.description, source.description))
  }

  lemma {:induction false} JoinedIsNotBlank(g: seq<Route>)
    requires Descriptions(g) != []
    ensures !IsBlank(Some(JoinedWithSlash(Descriptions(g))))
    decreases |g|
  {
    var pre, d := g[..|g| - 1], g[|g| - 1].description;
    if IsBlank(d) {
      JoinedIsNotBlank(pre);
    } else {
      var ds := Descriptions(g);
      assert ds[|ds| - 1] == d.value && ds[..|ds| - 1] == Descriptions(pre);
      if |ds| > 1 {
        JoinedIsNotBlank(pre);
        var a := JoinedWithSlash(Descriptions(pre));
        var i :| 0 <= i < |a| && !IsWhitespace(a[i]);
        assert JoinedWithSlash(ds)[i] == a[i];
      }
    }
  }

  lemma {:induction false} NoDescriptions(g: seq<Route>, r: Route)
    requires Descriptions(g) == [] && r in g
    ensures IsBlank(r.description)
    decreases |g|
  {
    if r != g[|g| - 1] {
      assert g == g[..|g| - 1] + [g[|g| - 1]];
      NoDescriptions(g[..|g| - 1], r);
    }
  }

  lemma DescriptionsStep(g: seq<Route>, r: Route)
    ensures Descriptions(g + [r]) ==
            if IsBlank(r.description) then Descriptions(g) else Descriptions(g) + [r.description.value]
  {
    assert (g + [r])[..|g|] == g;
  }

  lemma JoinOneMore(ds: seq<string>, d: string)
    requires ds != []
    ensures JoinedWithSlash(ds + [d]) == JoinedWithSlash(ds) + " / " + d
  {
    assert (ds + [d])[..|ds|] == ds;
  }

  lemma DescriptionOneMore(g: seq<Route>, r: Route)
    requires g != []
    ensures MergedDescription(g + [r]) == WithDescription(MergedDescription(g), r.description)
  {
    DescriptionsStep(g, r);
    if Descriptions(g) == [] {
      NoDescriptions(g, g[0]);
    } else {
      JoinedIsNotBlank(g);
      if !IsBlank(r.description) { JoinOneMore(Descriptions(g), r.description.value); }
    }
  }

  lemma ParametersOneMore(s: Setup, g: seq<Route>, r: Route)
    ensures AllParameters(s, g + [r]) == AllParameters(s, g) + SwaggerParameters(s, r)
  {
    assert (g + [r])[..|g|] == g;
  }

  /** Appending a route to the merged operation of a group merges the longer group. */
  lemma MergeOneMore(s: Setup, g: seq<Route>, r: Route)
    requires g != []
    ensures MergedOperation(s, g + [r]) == Appended(MergedOperation(s, g), OperationOf(s, r))
  {
    DescriptionOneMore(g, r);
    ParametersOneMore(s, g, r);
    assert (g + [r])[0] == g[0];
  }

  lemma MergeFirst(s: Setup, r: Route)
    ensures MergedOperation(s, [r]) == OperationOf(s, r)
  {
    assert [r][..0] == [];
    assert AllParameters(s, [r]) == SwaggerParameters(s, r);
    assert Descriptions([r]) == if IsBlank(r.description) then [] else [r.description.value];
  }

  /** What a route contributes to the parameters for a path and an action. */
  function Contribution(s: Setup, key: string, action: Action, r: Route): seq<Parameter> {
    if InGroup(s, key, action, r) then SwaggerParameters(s, r) else []
  }

  function Contributions(s: Setup, rs: seq<Route>, key: string, action: Action): seq<seq<Parameter>> {
    seq(|rs|, i requires 0 <= i < |rs| => Contribution(s, key, action, rs[i]))
  }

  lemma FlattenedOneMore<T>(lists: seq<seq<T>>, xs: seq<T>)
    ensures Flattened(lists + [xs]) == Flattened(lists) + xs
  {
    assert (lists + [xs])[..|lists|] == lists;
  }

  lemma GroupStep(s: Setup, rs: seq<Route>, r: Route, k: string, a: Action)
    ensures Group(s, rs + [r], k, a) == if InGroup(s, k, a, r) then Group(s, rs, k, a) + [r] else Group(s, rs, k, a)
  {
    assert (rs + [r])[..|rs|] == rs;
  }

  lemma GroupContribution(s: Setup, rs: seq<Route>, r: Route, k: string, a: Action)
    ensures AllParameters(s, Group(s, rs + [r], k, a)) ==
            AllParameters(s, Group(s, rs, k, a)) + Contribution(s, k, a, r)
  {
    GroupStep(s, rs, r, k, a);
    ParametersOneMore(s, Group(s, rs, k, a), r);
  }

  lemma ContributionStep(s: Setup, rs: seq<Route>, r: Route, k: string, a: Action)
    ensures Contributions(s, rs + [r], k, a) == Contributions(s, rs, k, a) + [Contribution(s, k, a, r)]
  {
  }

  lemma {:induction false} AllContributions(s: Setup, rs: seq<Route>, key: string, action: Action)
    ensures AllParameters(s, Group(s, rs, key, action)) == Flattened(Contributions(s, rs, key, action))
    decreases |rs|
  {
    if rs != [] {
      var pre, r := rs[..|rs| - 1], rs[|rs| - 1];
      AllContributions(s, pre, key, action);
      assert pre + [r] == rs;
      GroupContribution(s, pre, r, key, action);
      ContributionStep(s, pre, r, key, action);
      FlattenedOneMore(Contributions(s, pre, key, action), Contribution(s, key, action, r));
    }
  }

  /** In order, and each as often as it was declared: the parameters of an operation are
      what the routes contribute, one after the other. */
  lemma ParametersInOrder(s: Setup, rs: seq<Route>, key: string, action: Action)
    requires Group(s, rs, key, action) != []
    ensures MergedOperation(s, Group(s, rs, key, action)).parameters == Flattened(Contributions(s, rs, key, action))
  {
    AllContributions(s, rs, key, action);
  }

  // ----- The code -----

  /** io.swagger.models.Operation */
  class SwaggerOperation {
    const tag: string
    const deprecated: bool
    const responses: map<string, Response>
    const consumes: Option<seq<string>>
    const produces: Option<seq<string>>
    var description: Option<string>
    var parameters: seq<Parameter>

    constructor (o: Operation)
      ensures Value() == o
    {
      tag, deprecated, responses, consumes, produces := o.tag, o.deprecated, o.responses, o.consumes, o.produces;
      description, parameters := o.description, o.parameters;
    }

    function Value(): Operation
      reads this
    {
      Operation(tag, description, deprecated, parameters, responses, consumes, produces)
    }

    /** getSwaggerOperation with this operation as the destination. */
    method Append(source: SwaggerOperation)
      requires source != this
      modifies this
      ensures Value() == Appended(old(Value()), source.Value())
      ensures parameters == old(parameters) + source.parameters
      ensures description ==
              if IsBlank(source.description) then old(description)
              else if IsBlank(old(description)) then source.description
              else Some(old(description).value + " / " + source.description.value)
    {
      parameters := parameters + source.parameters;
      if !IsBlank(description) && !IsBlank(source.description) {
        description := Some(description.value + " / " + source.description.value);
      } else {
        if !IsBlank(source.description) {
          description := source.description;
        }
      }
    }
  }

  /** io.swagger.models.Path: its own parameters and at most one operation per action. */
  class SwaggerPath {
    const parameters: seq<Parameter>
    var operations: map<Action, SwaggerOperation>

    constructor (ps: seq<Parameter>)
      ensures parameters == ps && operations == map[]
    {
      parameters := ps;
      operations := map[];
    }
  }

  lemma OnlyStep(ps: seq<RouteParameter>, p: RouteParameter, d: ParamDef)
    ensures Only(ps + [p], d) == if p.paramDef == d then Only(ps, d) + [p] else Only(ps, d)
    ensures NamesOf(Only(ps + [p], d)) ==
            if p.paramDef == d then NamesOf(Only(ps, d)) + [p.name] else NamesOf(Only(ps, d))
  {
    assert (ps + [p])[..|ps|] == ps;
    assert NamesOf(Only(ps, d) + [p]) == NamesOf(Only(ps, d)) + [p.name];
  }

  lemma PlainStep(s: Setup, r: Route, ps: seq<RouteParameter>, p: RouteParameter)
    ensures PlainParameters(s, r, ps + [p]) == PlainParameters(s, r, ps) + PlainParameter(s, r, p)
  {
    assert (ps + [p])[..|ps|] == ps;
  }

  lemma ResponseStep(ps: seq<RouteParameter>, p: RouteParameter)
    ensures DeclaredResponses(ps + [p]) == DeclaredResponses(ps)[p.name := Response(p.description, p.typeName)]
  {
    assert (ps + [p])[..|ps|] == ps;
  }

  /** What the declared parameters of a route are split into. */
  datatype Split = Split(
    plain: seq<Parameter>,
    body: seq<RouteParameter>,
    responses: map<string, Response>,
    consumes: seq<string>,
    produces: seq<string>)

  function SplitOf(s: Setup, r: Route, ps: seq<RouteParameter>): Split {
    Split(PlainParameters(s, r, ps), Only(ps, BODY), DeclaredResponses(Only(ps, RESPONSE)),
          NamesOf(Only(ps, CONSUMES)), NamesOf(Only(ps, PRODUCES)))
  }

  /** One declared parameter, split off as the switch does. */
  method SplitOne(s: Setup, route: Route, p: RouteParameter, x: Split, ghost ps: seq<RouteParameter>) returns (y: Split)
    requires x == SplitOf(s, route, ps)
    ensures y == SplitOf(s, route, ps + [p])
  {
    PlainStep(s, route, ps, p);
    OnlyStep(ps, p, BODY);
    OnlyStep(ps, p, RESPONSE);
    OnlyStep(ps, p, CONSUMES);
    OnlyStep(ps, p, PRODUCES);
    ResponseStep(Only(ps, RESPONSE), p);
    match p.paramDef
    case BODY => y := x.(body := x.body + [p]);
    case PATH =>
      var q := PathParameter(p.name, p.description, p.required, LowerType(s, p), p.value);
      y := x.(plain := x.plain + [q]);
    case QUERY =>
      var q := QueryParameter(p.name, DescriptionOr(p, route), p.required, LowerType(s, p), p.value);
      y := x.(plain := x.plain + [q]);
    case RESPONSE => y := x.(responses := x.responses[p.name := Response(p.description, p.typeName)]);
    case CONSUMES => y := x.(consumes := x.consumes + [p.name]);
    case PRODUCES => y := x.(produces := x.produces + [p.name]);
    case OTHER => y := x;
  }

  method SplitParameters(s: Setup, route: Route, parameters: seq<RouteParameter>) returns (x: Split)
    ensures x == SplitOf(s, route, parameters)
  {
    x := Split([], [], map[], [], []);
    for i := 0 to |parameters|
      invariant x == SplitOf(s, route, parameters[..i])
    {
      assert parameters[..i + 1] == parameters[..i] + [parameters[i]];
      x := SplitOne(s, route, parameters[i], x, parameters[..i]);
    }
    assert parameters[..|parameters|] == parameters;
  }

  /** Setting up the operation of one route. */
  method BuildOperation(s: Setup, route: Route) returns (op: SwaggerOperation)
    ensures fresh(op) && op.Value() == OperationOf(s, route)
  {
    var x := Split([], [], map[], [], []);
    var swaggerParams: seq<Parameter> := [];
    if route.parameters.Some? && route.parameters.value != [] {
      x := SplitParameters(s, route, route.parameters.value);
      swaggerParams := x.plain;
      if x.body == [] && route.requestType.Some? {
        swaggerParams := swaggerParams + [BodyParameter(route.requestType.value)];
      }
      if x.body != [] {
        swaggerParams := swaggerParams + [FormBody(Form(route, x.body))];
      }
    } else if route.requestType.Some? {
      swaggerParams := [BodyParameter(route.requestType.value)];
    }
    assert x == SplitOf(s, route, ParametersOf(route));
    op := new SwaggerOperation(Operation(
      s.tag,
      route.description,
      route.supportLevel.Some? && route.supportLevel.value == s.deprecatedLevel,
      swaggerParams,
      if x.responses == map[] then DefaultResponses(s, route) else x.responses,
      if x.consumes != [] then Some(x.consumes) else None,
      if x.produces != [] then Some(x.produces) else None));
  }

  // ----- The map of paths -----

  type Paths = map<string, SwaggerPath>

  ghost function PathObjects(m: Paths): set<SwaggerPath> {
    m.Values
  }

  ghost function OperationObjects(m: Paths): set<SwaggerOperation>
    reads m.Values
  {
    set k, a | k in m && a in m[k].operations :: m[k].operations[a]
  }

  /** No path or operation object is used in two places. */
  ghost predicate Separate(m: Paths)
    reads m.Values
  {
    && (forall j, k :: j in m && k in m && j != k ==> m[j] != m[k])
    && (forall j, a, k, b :: j in m && a in m[j].operations && k in m && b in m[k].operations && (j != k || a != b) ==>
                               m[j].operations[a] != m[k].operations[b])
  }

  /** The value of the operation for a path and an action. */
  ghost function OperationAt(m: Paths, k: string, a: Action): Option<Operation>
    requires k in m
    reads m[k], m[k].operations.Values
  {
    if a in m[k].operations then Some(m[k].operations[a].Value()) else None
  }

  /** What it should be: the merged operation of the group, unless the group is empty. */
  function Expected(s: Setup, rs: seq<Route>, k: string, a: Action): Option<Operation> {
    var g := Group(s, rs, k, a);
    if g == [] then None else Some(MergedOperation(s, g))
  }

  ghost predicate ShowsGroup(m: Paths, s: Setup, rs: seq<Route>, k: string, a: Action)
    requires k in m
    reads m[k], m[k].operations.Values
  {
    OperationAt(m, k, a) == Expected(s, rs, k, a)
  }

  ghost predicate ShowsGroups(s: Setup, proto: seq<Parameter>, m: Paths, rs: seq<Route>)
    reads m.Values, OperationObjects(m)
  {
    && (forall k :: k in m ==> m[k].parameters == proto)
    && (forall k, a :: k in m ==> ShowsGroup(m, s, rs, k, a))
  }

  /** There is a path for every route's key, filtered out or not, and for no other. */
  ghost predicate HasKeys(m: Paths, rs: seq<Route>) {
    forall k :: k in m <==> exists r :: r in rs && KeyOf(r) == k
  }

  /** `m` is what the routes `rs` should give. */
  ghost predicate Shows(s: Setup, proto: seq<Parameter>, m: Paths, rs: seq<Route>)
    reads m.Values, OperationObjects(m)
  {
    HasKeys(m, rs) && ShowsGroups(s, proto, m, rs)
  }

  /** A path the routes so far did not mention has no group. */
  lemma {:induction false} NoGroup(s: Setup, rs: seq<Route>, k: string)
    requires forall r :: r in rs ==> KeyOf(r) != k
    ensures forall a :: Group(s, rs, k, a) == []
    decreases |rs|
  {
    if rs != [] { NoGroup(s, rs[..|rs| - 1], k); }
  }

  /** Getting or creating the path of a route. */
  method PathFor(s: Setup, proto: seq<Parameter>, m: Paths, route: Route, ghost rs: seq<Route>) returns (m': Paths)
    requires Separate(m) && Shows(s, proto, m, rs)
    ensures Separate(m') && HasKeys(m', rs + [route]) && ShowsGroups(s, proto, m', rs)
    ensures forall x :: x in PathObjects(m') ==> x in PathObjects(m) || fresh(x)
    ensures OperationObjects(m') <= OperationObjects(m)
  {
    m' := m;
    var key := KeyOf(route);
    if key !in m {
      forall r | r in rs ensures KeyOf(r) != key { assert KeyOf(r) in m; }
      NoGroup(s, rs, key);
      assert allocated(m);
      var path := new SwaggerPath(proto);
      m' := m[key := path];
      forall k, a | k in m' ensures ShowsGroup(m', s, rs, k, a) {
        if k != key { assert ShowsGroup(m, s, rs, k, a); }
      }
      forall x | x in OperationObjects(m') ensures x in OperationObjects(m) {
        var k, a :| k in m' && a in m'[k].operations && m'[k].operations[a] == x;
        assert k in m && m[k] == m'[k];
      }
    }
    assert forall r :: r in rs + [route] <==> r in rs || r == route;
  }

  /** One more included route changes what is expected for its own path and action. */
  lemma ExpectedStep(s: Setup, rs: seq<Route>, r: Route, k: string, a: Action)
    requires Included(s, r)
    ensures var e := Expected(s, rs, k, a);
      Expected(s, rs + [r], k, a) ==
      if k != KeyOf(r) || a != r.action then e
      else if e.None? then Some(OperationOf(s, r))
      else Some(Appended(e.value, OperationOf(s, r)))
  {
    var g := Group(s, rs, k, a);
    GroupStep(s, rs, r, k, a);
    if InGroup(s, k, a, r) {
      if g == [] { MergeFirst(s, r); } else { MergeOneMore(s, g, r); }
    }
  }

  /** Appending to the operation that is there. */
  method AppendTo(s: Setup, proto: seq<Parameter>, m: Paths, route: Route, op: SwaggerOperation, ghost rs: seq<Route>)
    requires Separate(m) && ShowsGroups(s, proto, m, rs) && Included(s, route)
    requires KeyOf(route) in m && route.action in m[KeyOf(route)].operations
    requires op !in OperationObjects(m) && op.Value() == OperationOf(s, route)
    modifies m[KeyOf(route)].operations[route.action]
    ensures Separate(m) && ShowsGroups(s, proto, m, rs + [route])
  {
    var key, action := KeyOf(route), route.action;
    label before:
    m[key].operations[action].Append(op);
    forall k, a | k in m ensures ShowsGroup(m, s, rs + [route], k, a) {
      assert old@before(ShowsGroup(m, s, rs, k, a));
      ExpectedStep(s, rs, route, k, a);
    }
  }

  /** The setter of a path for an action. */
  method SetOperation(m: Paths, key: string, action: Action, op: SwaggerOperation)
    requires Separate(m) && key in m && op !in OperationObjects(m)
    modifies m[key]
    ensures Separate(m) && m[key].operations == old(m[key].operations)[action := op]
    ensures forall x :: x in OperationObjects(m) ==> x in old(OperationObjects(m)) || x == op
  {
    var path := m[key];
    path.operations := path.operations[action := op];
    assert forall k, a :: k in m && a in m[k].operations && (k != key || a != action) ==>
                            a in old(m[k].operations) && m[k].operations[a] == old(m[k].operations[a]);
  }

  /** Storing the first operation for an action. */
  method StoreIn(s: Setup, proto: seq<Parameter>, m: Paths, route: Route, op: SwaggerOperation, ghost rs: seq<Route>)
    requires Separate(m) && ShowsGroups(s, proto, m, rs) && Included(s, route)
    requires KeyOf(route) in m && route.action !in m[KeyOf(route)].operations
    requires op !in OperationObjects(m) && op.Value() == OperationOf(s, route)
    modifies m[KeyOf(route)]
    ensures Separate(m) && ShowsGroups(s, proto, m, rs + [route])
    ensures forall x :: x in OperationObjects(m) ==> x in old(OperationObjects(m)) || x == op
  {
    var key, action := KeyOf(route), route.action;
    label before:
    SetOperation(m, key, action, op);
    forall k, a | k in m ensures ShowsGroup(m, s, rs + [route], k, a) {
      assert old@before(ShowsGroup(m, s, rs, k, a));
      ExpectedStep(s, rs, route, k, a);
    }
  }

  lemma SkippedRoute(s: Setup, proto: seq<Parameter>, m: Paths, route: Route, rs: seq<Route>)
    requires ShowsGroups(s, proto, m, rs) && !Included(s, route)
    ensures ShowsGroups(s, proto, m, rs + [route])
  {
    forall k, a | k in m ensures ShowsGroup(m, s, rs + [route], k, a) {
      assert ShowsGroup(m, s, rs, k, a);
      GroupStep(s, rs, route, k, a);
    }
  }

  /** Merging the operation of an included route into its path. */
  method MergeRoute(s: Setup, proto: seq<Parameter>, m: Paths, route: Route, ghost rs: seq<Route>)
    requires Separate(m) && ShowsGroups(s, proto, m, rs) && Included(s, route) && KeyOf(route) in m
    modifies m[KeyOf(route)], m[KeyOf(route)].operations.Values
    ensures Separate(m) && ShowsGroups(s, proto, m, rs + [route])
    ensures forall x :: x in OperationObjects(m) ==> x in old(OperationObjects(m)) || fresh(x)
  {
    assert allocated(OperationObjects(m));
    var op := BuildOperation(s, route);
    var path := m[KeyOf(route)];
    if route.action in path.operations {
      AppendTo(s, proto, m, route, op, rs);
    } else {
      StoreIn(s, proto, m, route, op, rs);
    }
  }

  /** The body of the inner loop. */
  method AddRoute(s: Setup, proto: seq<Parameter>, m: Paths, route: Route, ghost rs: seq<Route>) returns (m': Paths)
    requires Separate(m) && Shows(s, proto, m, rs)
    modifies PathObjects(m), OperationObjects(m)
    ensures Separate(m') && Shows(s, proto, m', rs + [route])
    ensures forall x :: x in PathObjects(m') ==> x in PathObjects(m) || fresh(x)
    ensures forall x :: x in OperationObjects(m') ==> x in old(OperationObjects(m)) || fresh(x)
  {
    assert allocated(OperationObjects(m));
    m' := PathFor(s, proto, m, route, rs);
    if !Included(s, route) {
      SkippedRoute(s, proto, m', route, rs);
      return;
    }
    assert KeyOf(route) in m' by { assert route in rs + [route]; }
    assert forall a :: a in m'[KeyOf(route)].operations ==> m'[KeyOf(route)].operations[a] in OperationObjects(m');
    MergeRoute(s, proto, m', route, rs);
  }

  /** The inner loop. */
  method AddRoutes(s: Setup, proto: seq<Parameter>, m: Paths, routes: seq<Route>, ghost rs: seq<Route>)
    returns (res: Paths)
    requires Separate(m) && Shows(s, proto, m, rs)
    modifies PathObjects(m), OperationObjects(m)
    ensures Separate(res) && Shows(s, proto, res, rs + routes)
    ensures forall x :: x in PathObjects(res) ==> x in PathObjects(m) || fresh(x)
    ensures forall x :: x in OperationObjects(res) ==> x in old(OperationObjects(m)) || fresh(x)
  {
    res := m;
    assert rs + routes[..0] == rs;
    for j := 0 to |routes|
      invariant Separate(res) && Shows(s, proto, res, rs + routes[..j])
      invariant forall x :: x in PathObjects(res) ==> x in PathObjects(m) || fresh(x)
      invariant forall x :: x in OperationObjects(res) ==> x in old(OperationObjects(m)) || fresh(x)
    {
      res := AddRoute(s, proto, res, routes[j], rs + routes[..j]);
      assert rs + routes[..j] + [routes[j]] == rs + routes[..j + 1];
    }
    assert routes[..|routes|] == routes;
  }

  /** The route has this path, null being the empty one. */
  predicate HasPath(r: Route, k: string) {
    r.path == Some(k) || (r.path.None? && k == "")
  }

  /** The route is documented: its support level is not below the configured one. */
  predicate Documented(s: Setup, r: Route) {
    !(r.supportLevel.Some? && r.supportLevel.value < s.supportLevel)
  }

  /** There is a path for exactly the routes given, and an operation for exactly those of
      them that are documented. */
  ghost predicate ShowsDocumented(s: Setup, m: Paths, rs: seq<Route>)
    reads m.Values
  {
    && (forall k :: k in m <==> exists r :: r in rs && HasPath(r, k))
    && forall k, a :: k in m ==>
         (a in m[k].operations <==> exists r :: r in rs && HasPath(r, k) && r.action == a && Documented(s, r))
  }

  lemma ExpectedExactly(s: Setup, rs: seq<Route>, k: string, a: Action)
    ensures Expected(s, rs, k, a).Some? <==>
            exists r :: r in rs && HasPath(r, k) && r.action == a && Documented(s, r)
  {
    var g := Group(s, rs, k, a);
    if g != [] { assert g[0] in g && HasPath(g[0], k) && Documented(s, g[0]); }
    forall r | r in rs && HasPath(r, k) && r.action == a && Documented(s, r) ensures r in g {
      assert InGroup(s, k, a, r);
    }
  }

  lemma ShownAreDocumented(s: Setup, proto: seq<Parameter>, m: Paths, rs: seq<Route>)
    requires Shows(s, proto, m, rs)
    ensures ShowsDocumented(s, m, rs)
  {
    forall k ensures k in m <==> exists r :: r in rs && HasPath(r, k) {
      forall r ensures HasPath(r, k) <==> KeyOf(r) == k {}
    }
    forall k, a | k in m
      ensures a in m[k].operations <==> exists r :: r in rs && HasPath(r, k) && r.action == a && Documented(s, r)
    {
      assert ShowsGroup(m, s, rs, k, a);
      ExpectedExactly(s, rs, k, a);
    }
  }

  /** pathByRoutes: the result is the group-and-fold of all routes, in new objects that
      share nothing. */
  method PathByRoutes(s: Setup, proto: seq<Parameter>, serviceRoutes: seq<seq<Route>>) returns (res: Paths)
    ensures Separate(res) && Shows(s, proto, res, Flattened(serviceRoutes))
    ensures ShowsDocumented(s, res, Flattened(serviceRoutes))
    ensures forall x :: x in PathObjects(res) ==> fresh(x)
    ensures forall x :: x in OperationObjects(res) ==> fresh(x)
  {
    res := map[];
    for i := 0 to |serviceRoutes|
      invariant Separate(res) && Shows(s, proto, res, Flattened(serviceRoutes[..i]))
      invariant forall x :: x in PathObjects(res) ==> fresh(x)
      invariant forall x :: x in OperationObjects(res) ==> fresh(x)
    {
      res := AddRoutes(s, proto, res, serviceRoutes[i], Flattened(serviceRoutes[..i]));
      assert serviceRoutes[..i + 1][..i] == serviceRoutes[..i];
    }
    assert serviceRoutes[..|serviceRoutes|] == serviceRoutes;
    ShownAreDocumented(s, proto, res, Flattened(serviceRoutes));
  }
}
