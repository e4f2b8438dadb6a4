/**
 What the documented operations say, in terms of the routes alone: which parameters,
 descriptions, responses and media types, with none of the helpers of SwaggerRoutes.
 */
module SwaggerContents {
  import opened Wrappers
  import opened XenonActions
  import opened SwaggerRoutes

  // ----- Text -----

  /** The white space of ASCII: tab to carriage return, the four separators, and space. */
  predicate IsAsciiSpace(code: int) {
    9 <= code <= 13 || 28 <= code <= 32
  }

  predicate SaysNothing(text: Option<string>) {
    text.None? || forall i :: 0 <= i < |text.value| ==> IsAsciiSpace(text.value[i] as int)
  }

  lemma BlankExactly(text: Option<string>)
    ensures IsBlank(text) <==> SaysNothing(text)
  {
  }

  // ----- The parameters of a route -----

  function Declared(r: Route): seq<RouteParameter> {
    match r.parameters
    case None => []
    case Some(ps) => ps
  }

  /** What one declared parameter adds to the parameters of the operation. */
  predicate Adds(s: Setup, r: Route, p: RouteParameter, qs: seq<Parameter>) {
    if p.paramDef != PATH && p.paramDef != QUERY then qs == []
    else
      && |qs| == 1
      && var q := qs[0];
      && (q.PathParameter? <==> p.paramDef == PATH) && (q.QueryParameter? <==> p.paramDef == QUERY)
      && q.name == p.name && q.required == p.required && q.default == p.value
      && q.typeName == (if p.typeName.Some? then s.lower(p.typeName.value) else "")
      && q.description == if p.paramDef == QUERY && SaysNothing(p.description) then r.description else p.description
  }

  /** The last declared parameter of a kind and a name. */
  predicate LastNamed(ps: seq<RouteParameter>, d: ParamDef, x: string, i: nat) {
    && i < |ps| && ps[i].paramDef == d && ps[i].name == x
    && forall j :: i < j < |ps| && ps[j].paramDef == d ==> ps[j].name != x
  }

  /** `m` maps the names of the parameters of a kind to what `f` makes of the last of each. */
  ghost predicate MapsLast<T(!new)>(ps: seq<RouteParameter>, d: ParamDef, m: map<string, T>, f: RouteParameter -> T) {
    && (forall x :: x in m <==> exists i: nat :: LastNamed(ps, d, x, i))
    && forall x, i: nat :: LastNamed(ps, d, x, i) ==> m[x] == f(ps[i])
  }

  /** A field of a form, from a declared body parameter. */
  function FieldOf(r: Route, p: RouteParameter): FormField {
    FormField(if SaysNothing(p.description) then r.description else p.description, p.value, p.required)
  }

  function FieldFor(r: Route): RouteParameter -> FormField {
    p => FieldOf(r, p)
  }

  ghost predicate IsForm(r: Route, ps: seq<RouteParameter>, m: map<string, FormField>) {
    MapsLast(ps, BODY, m, FieldFor(r))
  }

  predicate Declares(ps: seq<RouteParameter>, d: ParamDef) {
    exists i :: 0 <= i < |ps| && ps[i].paramDef == d
  }

  /** What the body of a request adds: a form of the declared body parameters, or else the
      request type, or nothing. */
  ghost predicate AddsBody(r: Route, qs: seq<Parameter>) {
    if Declares(Declared(r), BODY) then |qs| == 1 && qs[0].FormBody? && IsForm(r, Declared(r), qs[0].properties)
    else if r.requestType.Some? then qs == [BodyParameter(r.requestType.value)]
    else qs == []
  }

  lemma OnlyDeclared(ps: seq<RouteParameter>, d: ParamDef)
    ensures Only(ps, d) == [] <==> !Declares(ps, d)
  {
    if Only(ps, d) != [] {
      var p := Only(ps, d)[0];
      assert p in Only(ps, d);
    }
    if Declares(ps, d) {
      var i :| 0 <= i < |ps| && ps[i].paramDef == d;
      assert ps[i] in Only(ps, d);
    }
  }

  lemma LastNamedStep(ps: seq<RouteParameter>, p: RouteParameter, d: ParamDef, x: string, i: nat)
    ensures LastNamed(ps + [p], d, x, i) <==>
            if p.paramDef == d && p.name == x then i == |ps| else LastNamed(ps, d, x, i)
  {
    var all := ps + [p];
    assert forall j :: 0 <= j < |ps| ==> all[j] == ps[j];
    assert all[|ps|] == p;
  }

  lemma MapsLastStep<T(!new)>(
    ps: seq<RouteParameter>, d: ParamDef, m: map<string, T>, f: RouteParameter -> T, p: RouteParameter)
    requires MapsLast(ps, d, m, f)
    ensures MapsLast(ps + [p], d, if p.paramDef == d then m[p.name := f(p)] else m, f)
  {
    var m' := if p.paramDef == d then m[p.name := f(p)] else m;
    forall x ensures x in m' <==> exists i: nat :: LastNamed(ps + [p], d, x, i) {
      if p.paramDef == d && p.name == x { assert (ps + [p])[|ps|] == p && LastNamed(ps + [p], d, x, |ps|); }
      if i: nat :| LastNamed(ps + [p], d, x, i) { LastNamedStep(ps, p, d, x, i); }
      if x in m {
        var i: nat :| LastNamed(ps, d, x, i);
        LastNamedStep(ps, p, d, x, i);
      }
    }
    forall x, i: nat | LastNamed(ps + [p], d, x, i) ensures m'[x] == f((ps + [p])[i]) {
      LastNamedStep(ps, p, d, x, i);
    }
  }

  lemma FormStep(r: Route, ps: seq<RouteParameter>, p: RouteParameter)
    ensures Form(r, ps + [p]) == Form(r, ps)[p.name := FieldOf(r, p)]
  {
    assert (ps + [p])[..|ps|] == ps;
    BlankExactly(p.description);
  }

  lemma {:induction false} FormIs(r: Route, ps: seq<RouteParameter>)
    ensures IsForm(r, ps, Form(r, Only(ps, BODY)))
    decreases |ps|
  {
    if ps != [] {
      var pre, p := ps[..|ps| - 1], ps[|ps| - 1];
      assert ps == pre + [p];
      FormIs(r, pre);
      OnlyStep(pre, p, BODY);
      FormStep(r, Only(pre, BODY), p);
      MapsLastStep(pre, BODY, Form(r, Only(pre, BODY)), FieldFor(r), p);
    }
  }

  lemma PlainAdds(s: Setup, r: Route, p: RouteParameter)
    ensures Adds(s, r, p, PlainParameter(s, r, p))
  {
    BlankExactly(p.description);
  }

  function PlainLists(s: Setup, r: Route, ps: seq<RouteParameter>): seq<seq<Parameter>> {
    seq(|ps|, i requires 0 <= i < |ps| => PlainParameter(s, r, ps[i]))
  }

  ghost predicate IsFlat(s: Setup, r: Route, ps: seq<RouteParameter>) {
    PlainParameters(s, r, ps) == Flattened(PlainLists(s, r, ps))
  }

  lemma IsFlatStep(s: Setup, r: Route, ps: seq<RouteParameter>, n: nat)
    requires n < |ps| && IsFlat(s, r, ps[..n])
    ensures IsFlat(s, r, ps[..n + 1])
  {
    var pre, q := ps[..n], PlainParameter(s, r, ps[n]);
    assert ps[..n + 1] == pre + [ps[n]];
    PlainStep(s, r, pre, ps[n]);
    FlattenedOneMore(PlainLists(s, r, pre), q);
    assert PlainLists(s, r, ps[..n + 1]) == PlainLists(s, r, pre) + [q];
  }

  lemma {:induction false} PlainIsFlat(s: Setup, r: Route, ps: seq<RouteParameter>, n: nat)
    requires n <= |ps|
    ensures IsFlat(s, r, ps[..n])
  {
    if n > 0 {
      PlainIsFlat(s, r, ps, n - 1);
      IsFlatStep(s, r, ps, n - 1);
    }
  }

  /** The parameters of a route's operation: one for each path or query parameter it
      declares, in order, and then its body. */
  lemma ParametersSay(s: Setup, r: Route) returns (qss: seq<seq<Parameter>>, body: seq<Parameter>)
    ensures SwaggerParameters(s, r) == Flattened(qss) + body && AddsBody(r, body)
    ensures |qss| == |Declared(r)| && forall i :: 0 <= i < |qss| ==> Adds(s, r, Declared(r)[i], qss[i])
  {
    var ps := Declared(r);
    qss := PlainLists(s, r, ps);
    PlainIsFlat(s, r, ps, |ps|);
    assert ps[..|ps|] == ps;
    forall i | 0 <= i < |qss| ensures Adds(s, r, ps[i], qss[i]) { PlainAdds(s, r, ps[i]); }
    OnlyDeclared(ps, BODY);
    FormIs(r, ps);
    body := if Only(ps, BODY) != [] then [FormBody(Form(r, Only(ps, BODY)))]
            else if r.requestType.Some? then [BodyParameter(r.requestType.value)]
            else [];
  }

  // ----- The rest of a route's operation -----

  function ResponseFor(p: RouteParameter): Response {
    Response(p.description, p.typeName)
  }

  ghost predicate IsResponses(ps: seq<RouteParameter>, m: map<string, Response>) {
    MapsLast(ps, RESPONSE, m, ResponseFor)
  }

  lemma {:induction false} ResponsesAre(ps: seq<RouteParameter>)
    ensures IsResponses(ps, DeclaredResponses(Only(ps, RESPONSE)))
    decreases |ps|
  {
    if ps != [] {
      var pre, p := ps[..|ps| - 1], ps[|ps| - 1];
      assert ps == pre + [p];
      ResponsesAre(pre);
      OnlyStep(pre, p, RESPONSE);
      ResponseStep(Only(pre, RESPONSE), p);
      MapsLastStep(pre, RESPONSE, DeclaredResponses(Only(pre, RESPONSE)), ResponseFor, p);
    }
  }

  /** The names of the declared parameters of a kind, in order. */
  function NamesDeclared(ps: seq<RouteParameter>, d: ParamDef): seq<seq<string>> {
    seq(|ps|, i requires 0 <= i < |ps| => NameIf(ps[i], d))
  }

  function NameIf(p: RouteParameter, d: ParamDef): seq<string> {
    if p.paramDef == d then [p.name] else []
  }

  lemma NamesStep(ps: seq<RouteParameter>, p: RouteParameter, d: ParamDef)
    ensures NamesOf(Only(ps + [p], d)) == NamesOf(Only(ps, d)) + NameIf(p, d)
    ensures Flattened(NamesDeclared(ps + [p], d)) == Flattened(NamesDeclared(ps, d)) + NameIf(p, d)
  {
    OnlyStep(ps, p, d);
    FlattenedOneMore(NamesDeclared(ps, d), NameIf(p, d));
    assert NamesDeclared(ps + [p], d) == NamesDeclared(ps, d) + [NameIf(p, d)];
  }

  ghost predicate HasNames(ps: seq<RouteParameter>, d: ParamDef) {
    NamesOf(Only(ps, d)) == Flattened(NamesDeclared(ps, d))
  }

  lemma HasNamesStep(ps: seq<RouteParameter>, d: ParamDef, n: nat)
    requires n < |ps| && HasNames(ps[..n], d)
    ensures HasNames(ps[..n + 1], d)
  {
    NamesStep(ps[..n], ps[n], d);
    assert ps[..n + 1] == ps[..n] + [ps[n]];
  }

  lemma {:induction false} NamesAre(ps: seq<RouteParameter>, d: ParamDef, n: nat)
    requires n <= |ps|
    ensures HasNames(ps[..n], d)
  {
    if n > 0 {
      NamesAre(ps, d, n - 1);
      HasNamesStep(ps, d, n - 1);
    }
  }

  lemma AllNames(ps: seq<RouteParameter>, d: ParamDef)
    ensures HasNames(ps, d)
  {
    NamesAre(ps, d, |ps|);
    assert ps[..|ps|] == ps;
  }

  /** The responses, the media types and the rest of a route's operation. */
  lemma OperationSays(s: Setup, r: Route)
    ensures var o, ps := OperationOf(s, r), Declared(r);
      && o.tag == s.tag && o.description == r.description
      && (o.deprecated <==> r.supportLevel == Some(s.deprecatedLevel))
      && (if Declares(ps, RESPONSE) then IsResponses(ps, o.responses)
          else o.responses == map["200" := Response(Some("Success"), r.responseType),
                                  "404" := Response(Some("Error"), Some(s.errorType))])
      && o.consumes == (if Declares(ps, CONSUMES) then Some(Flattened(NamesDeclared(ps, CONSUMES))) else None)
      && o.produces == (if Declares(ps, PRODUCES) then Some(Flattened(NamesDeclared(ps, PRODUCES))) else None)
  {
    var ps := Declared(r);
    assert ParametersOf(r) == ps;
    OnlyDeclared(ps, RESPONSE);
    OnlyDeclared(ps, CONSUMES);
    OnlyDeclared(ps, PRODUCES);
    ResponsesAre(ps);
    AllNames(ps, CONSUMES);
    AllNames(ps, PRODUCES);
    NoDeclaredResponses(Only(ps, RESPONSE));
  }

  lemma NoDeclaredResponses(ps: seq<RouteParameter>)
    ensures DeclaredResponses(ps) == map[] <==> ps == []
  {
    if ps != [] { assert ps[|ps| - 1].name in DeclaredResponses(ps); }
  }

  // ----- A group of routes -----

  /** The route is documented under this path and action. */
  predicate CountsFor(s: Setup, k: string, a: Action, r: Route) {
    HasPath(r, k) && r.action == a && Documented(s, r)
  }

  predicate Counts(s: Setup, rs: seq<Route>, k: string, a: Action, i: nat) {
    i < |rs| && CountsFor(s, k, a, rs[i])
  }

  /** All but the parameters and the description comes from the first of them. */
  lemma {:induction false} FirstDecides(s: Setup, rs: seq<Route>, k: string, a: Action, i: nat)
    requires Counts(s, rs, k, a, i) && forall j: nat :: j < i ==> !Counts(s, rs, k, a, j)
    ensures var g := Group(s, rs, k, a);
      g != [] && g[0] == rs[i]
      && var o := MergedOperation(s, g);
         o == OperationOf(s, rs[i]).(parameters := o.parameters, description := o.description)
    decreases |rs|
  {
    var pre := rs[..|rs| - 1];
    assert rs == pre + [rs[|rs| - 1]];
    if i < |pre| {
      assert forall j: nat :: j < |pre| ==> Counts(s, pre, k, a, j) == Counts(s, rs, k, a, j);
      FirstDecides(s, pre, k, a, i);
    } else {
      if Group(s, pre, k, a) != [] {
        var r := Group(s, pre, k, a)[0];
        assert r in Group(s, pre, k, a);
        var j :| 0 <= j < |pre| && pre[j] == r;
        assert Counts(s, rs, k, a, j);
      }
    }
  }

  /** What a route adds to the description: nothing unless it is documented here and says
      something. */
  function Text(s: Setup, k: string, a: Action, r: Route): seq<string> {
    if CountsFor(s, k, a, r) && !SaysNothing(r.description) then [r.description.value] else []
  }

  function Texts(s: Setup, rs: seq<Route>, k: string, a: Action): seq<seq<string>> {
    seq(|rs|, i requires 0 <= i < |rs| => Text(s, k, a, rs[i]))
  }

  lemma TextIs(s: Setup, k: string, a: Action, r: Route)
    ensures Text(s, k, a, r) ==
            if InGroup(s, k, a, r) && !IsBlank(r.description) then [r.description.value] else []
  {
    BlankExactly(r.description);
    assert InGroup(s, k, a, r) <==> CountsFor(s, k, a, r);
  }

  lemma AddDescription(g: seq<Route>, r: Route, ts: seq<string>)
    requires ts == if IsBlank(r.description) then [] else [r.description.value]
    ensures Descriptions(g + [r]) == Descriptions(g) + ts
  {
    DescriptionsStep(g, r);
  }

  lemma DescriptionsStepOf(s: Setup, rs: seq<Route>, r: Route, k: string, a: Action)
    ensures Descriptions(Group(s, rs + [r], k, a)) == Descriptions(Group(s, rs, k, a)) + Text(s, k, a, r)
  {
    GroupStep(s, rs, r, k, a);
    TextIs(s, k, a, r);
    if InGroup(s, k, a, r) { AddDescription(Group(s, rs, k, a), r, Text(s, k, a, r)); }
  }

  lemma TextsStep(s: Setup, rs: seq<Route>, r: Route, k: string, a: Action)
    ensures Flattened(Texts(s, rs + [r], k, a)) == Flattened(Texts(s, rs, k, a)) + Text(s, k, a, r)
  {
    FlattenedOneMore(Texts(s, rs, k, a), Text(s, k, a, r));
    assert Texts(s, rs + [r], k, a) == Texts(s, rs, k, a) + [Text(s, k, a, r)];
  }

  ghost predicate HasTexts(s: Setup, rs: seq<Route>, k: string, a: Action) {
    Descriptions(Group(s, rs, k, a)) == Flattened(Texts(s, rs, k, a))
  }

  lemma HasTextsOneMore(s: Setup, rs: seq<Route>, r: Route, k: string, a: Action)
    requires HasTexts(s, rs, k, a)
    ensures HasTexts(s, rs + [r], k, a)
  {
    DescriptionsStepOf(s, rs, r, k, a);
    TextsStep(s, rs, r, k, a);
  }

  lemma HasTextsStep(s: Setup, rs: seq<Route>, n: nat, k: string, a: Action)
    requires n < |rs| && HasTexts(s, rs[..n], k, a)
    ensures HasTexts(s, rs[..n + 1], k, a)
  {
    assert rs[..n + 1] == rs[..n] + [rs[n]];
    HasTextsOneMore(s, rs[..n], rs[n], k, a);
  }

  lemma {:induction false} DescriptionsAre(s: Setup, rs: seq<Route>, k: string, a: Action, n: nat)
    requires n <= |rs|
    ensures HasTexts(s, rs[..n], k, a)
  {
    if n > 0 {
      DescriptionsAre(s, rs, k, a, n - 1);
      HasTextsStep(s, rs, n - 1, k, a);
    }
  }

  /** The texts with " / " between any two. */
  ghost predicate Joins(ts: seq<string>, text: string)
    decreases |ts|
  {
    if |ts| <= 1 then ts == [text]
    else exists rest :: text == ts[0] + " / " + rest && Joins(ts[1..], rest)
  }

  lemma {:induction false} JoinedInFront(t: string, ts: seq<string>)
    requires ts != []
    ensures JoinedWithSlash([t] + ts) == t + " / " + JoinedWithSlash(ts)
    decreases |ts|
  {
    var all := [t] + ts;
    assert all[..|all| - 1] == [t] + ts[..|ts| - 1];
    if |ts| > 1 {
      JoinedInFront(t, ts[..|ts| - 1]);
      var a, b, c := JoinedWithSlash(ts[..|ts| - 1]), " / ", ts[|ts| - 1];
      assert t + " / " + a + b + c == t + " / " + (a + b + c);
    } else {
      assert ts[..|ts| - 1] == [] && all[..|all| - 1] == [t];
    }
  }

  lemma {:induction false} JoinedJoins(ts: seq<string>)
    requires ts != []
    ensures Joins(ts, JoinedWithSlash(ts))
    decreases |ts|
  {
    if |ts| > 1 {
      JoinedJoins(ts[1..]);
      JoinedInFront(ts[0], ts[1..]);
      assert [ts[0]] + ts[1..] == ts;
    }
  }

  /** The description of an operation joins those of its routes that say something; if none
      does, it is the first one's. */
  lemma DescriptionSays(s: Setup, rs: seq<Route>, k: string, a: Action)
    requires Group(s, rs, k, a) != []
    ensures var g, ts := Group(s, rs, k, a), Flattened(Texts(s, rs, k, a));
      var d := MergedOperation(s, g).description;
      if ts == [] then d == g[0].description else d.Some? && Joins(ts, d.value)
  {
    DescriptionsAre(s, rs, k, a, |rs|);
    assert rs[..|rs|] == rs;
    var ts := Flattened(Texts(s, rs, k, a));
    if ts != [] { JoinedJoins(ts); }
  }
}
