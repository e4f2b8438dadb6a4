/**
 ModelRegistry: definitions built from descriptions of data types, memoised under
 shortened names.  The functions say what a call does to the registry; the class does it
 in place.  The lemmas say what every run of calls leaves: definitions that are closed
 under reference, named like their keys, and equal to a stateless translation.
 */
module SwaggerRegistry {
  import opened Wrappers

  // ----- Descriptions and definitions -----

  datatype Usage = INFRASTRUCTURE | SERVICE_USE | OtherUsage(name: string)

  /** A PropertyDescription: what its type name selects, and what every type has. */
  datatype Description = Description(shape: Shape, usage: set<Usage>, documentation: Option<string>)

  datatype Shape =
    | BOOLEAN | BYTES | DATE | DOUBLE | LONG | MAP | STRING | URI
    | InternetAddressV4 | InternetAddressV6
    | ENUM(values: Option<seq<string>>)
    | COLLECTION(element: Description)
    | PODO(kind: string, fields: seq<Field>)

  datatype Field = Field(name: string, description: Description)

  datatype Property =
    | BooleanProperty | BinaryProperty | DateTimeProperty | DoubleProperty | LongProperty
    | StringProperty(enumeration: Option<seq<string>>, format: Option<string>)
    | ArrayProperty(items: Property)
    | MapProperty(additional: Property)
    | RefProperty(kind: string)

  datatype Described = Described(property: Property, description: Option<string>)

  datatype Model = Model(name: string, properties: map<string, Described>)

  const PLAIN_STRING: Property := StringProperty(None, None)

  predicate Hidden(d: Description) {
    INFRASTRUCTURE in d.usage || SERVICE_USE in d.usage
  }

  // ----- The registry -----

  /** Where a definition came from. */
  datatype Origin = Origin(kind: string, fields: seq<Field>)

  /** byKind, strippedNames, and for each definition the description it was loaded from,
      which the code does not keep. */
  datatype Registry = Registry(models: map<string, Model>, names: map<string, string>, origins: map<string, Origin>)

  /** The last configured prefix, in the order they are visited, that the kind has. */
  function LastMatch(prefixes: seq<string>, kind: string): (r: Option<string>)
    ensures r.Some? ==> r.value in prefixes && r.value <= kind
    ensures r.None? ==> forall p :: p in prefixes ==> !(p <= kind)
    decreases |prefixes|
  {
    if prefixes == [] then None
    else if prefixes[|prefixes| - 1] <= kind then Some(prefixes[|prefixes| - 1])
    else
      assert prefixes == prefixes[..|prefixes| - 1] + [prefixes[|prefixes| - 1]];
      LastMatch(prefixes[..|prefixes| - 1], kind)
  }

  /** The name chosen for a new kind: without its prefix, unless that name is taken. */
  function Chosen(prefixes: seq<string>, kind: string, taken: set<string>): string {
    match LastMatch(prefixes, kind)
    case None => kind
    case Some(p) => if kind[|p|..] in taken then kind else kind[|p|..]
  }

  /** The table of names after a kind has been looked up in it. */
  function Naming(names: map<string, string>, prefixes: seq<string>, kind: string): map<string, string> {
    if kind in names then names else names[kind := Chosen(prefixes, kind, names.Values)]
  }

  function Named(r: Registry, prefixes: seq<string>, kind: string): Registry {
    r.(names := Naming(r.names, prefixes, kind))
  }

  function Registered(r: Registry, name: string, properties: map<string, Described>, o: Origin): Registry {
    r.(models := r.models[name := Model(name, properties)], origins := r.origins[name := o])
  }

  /** What looking a kind up does: name it and, unless that name is known, load it. */
  function Looked(r: Registry, prefixes: seq<string>, kind: string, fields: seq<Field>): (Registry, string)
    decreases fields, 1
  {
    var r1 := Named(r, prefixes, kind);
    var name := r1.names[kind];
    if name in r1.models then (r1, name)
    else
      var (r2, ps) := Loaded(r1, prefixes, fields);
      (Registered(r2, name, ps, Origin(kind, fields)), name)
  }

  function Loaded(r: Registry, prefixes: seq<string>, fields: seq<Field>): (Registry, map<string, Described>)
    decreases fields, 0
  {
    if fields == [] then (r, map[])
    else
      var (r1, ps) := Loaded(r, prefixes, fields[..|fields| - 1]);
      var f := fields[|fields| - 1];
      if Hidden(f.description) then (r1, ps)
      else
        var (r2, p) := Made(r1, prefixes, f.description);
        (r2, ps[f.name := Described(p, f.description.documentation)])
  }

  function Made(r: Registry, prefixes: seq<string>, d: Description): (Registry, Property)
    decreases d, 0
  {
    match d.shape
    case BOOLEAN => (r, BooleanProperty)
    case BYTES => (r, BinaryProperty)
    case COLLECTION(e) =>
      var (r1, p) := Made(r, prefixes, e);
      (r1, ArrayProperty(p))
    case DATE => (r, DateTimeProperty)
    case DOUBLE => (r, DoubleProperty)
    case ENUM(vs) => (r, StringProperty(vs, None))
    case InternetAddressV4 => (r, PLAIN_STRING)
    case InternetAddressV6 => (r, PLAIN_STRING)
    case LONG => (r, LongProperty)
    case MAP => (r, MapProperty(PLAIN_STRING))
    case PODO(kind, fields) =>
      var (r1, name) := Looked(r, prefixes, kind, fields);
      (r1, RefProperty(name))
    case STRING => (r, PLAIN_STRING)
    case URI => (r, StringProperty(None, Some("uri")))
  }

  // ----- The code -----

  class ModelRegistry {
    var byKind: map<string, Model>
    var strippedNames: map<string, string>
    ghost var origins: map<string, Origin>
    /** stripPackagePrefixes, in the order in which the set is iterated */
    const stripPackagePrefixes: seq<string>

    constructor (prefixes: seq<string>)
      ensures stripPackagePrefixes == prefixes && Value() == Registry(map[], map[], map[])
    {
      byKind, strippedNames, origins, stripPackagePrefixes := map[], map[], map[], prefixes;
    }

    ghost function Value(): Registry
      reads this
    {
      Registry(byKind, strippedNames, origins)
    }

    method GetStrippedKind(documentKind: string) returns (name: string)
      modifies this
      ensures Value() == Named(old(Value()), stripPackagePrefixes, documentKind)
      ensures documentKind in strippedNames && name == strippedNames[documentKind]
    {
      if documentKind in strippedNames {
        return strippedNames[documentKind];
      }
      name := documentKind;
      for i := 0 to |stripPackagePrefixes|
        invariant name == Chosen(stripPackagePrefixes[..i], documentKind, strippedNames.Values)
      {
        var prefix := stripPackagePrefixes[i];
        assert stripPackagePrefixes[..i + 1][..i] == stripPackagePrefixes[..i];
        if prefix <= documentKind {
          name := documentKind[|prefix|..];
          if name in strippedNames.Values {
            name := documentKind;
          }
        }
      }
      assert stripPackagePrefixes[..|stripPackagePrefixes|] == stripPackagePrefixes;
      strippedNames := strippedNames[documentKind := name];
    }

    /** getModel, on a template or on a description. */
    method GetModel(kind: string, fields: seq<Field>) returns (model: Model)
      modifies this
      ensures Value() == Looked(old(Value()), stripPackagePrefixes, kind, fields).0
      ensures var name := Looked(old(Value()), stripPackagePrefixes, kind, fields).1;
        name in byKind && model == byKind[name]
      decreases fields, 1
    {
      var name := GetStrippedKind(kind);
      if name in byKind {
        return byKind[name];
      }
      var properties := Load(fields);
      model := Model(name, properties);
      byKind := byKind[name := model];
      origins := origins[name := Origin(kind, fields)];
    }

    method Load(fields: seq<Field>) returns (res: map<string, Described>)
      modifies this
      ensures Loaded(old(Value()), stripPackagePrefixes, fields) == (Value(), res)
      decreases fields, 0
    {
      res := map[];
      for i := 0 to |fields|
        invariant Loaded(old(Value()), stripPackagePrefixes, fields[..i]) == (Value(), res)
      {
        assert fields[..i + 1][..i] == fields[..i];
        var pd := fields[i].description;
        if INFRASTRUCTURE in pd.usage || SERVICE_USE in pd.usage {
          continue;
        }
        var property := MakeProperty(pd);
        res := res[fields[i].name := Described(property, pd.documentation)];
      }
      assert fields[..|fields|] == fields;
    }

    method MakeProperty(pd: Description) returns (p: Property)
      modifies this
      ensures Made(old(Value()), stripPackagePrefixes, pd) == (Value(), p)
      decreases pd, 0
    {
      match pd.shape
      case BOOLEAN => p := BooleanProperty;
      case BYTES => p := BinaryProperty;
      case COLLECTION(element) =>
        var items := MakeProperty(element);
        p := ArrayProperty(items);
      case DATE => p := DateTimeProperty;
      case DOUBLE => p := DoubleProperty;
      case ENUM(values) => p := StringProperty(values, None);
      case InternetAddressV4 => p := PLAIN_STRING;
      case InternetAddressV6 => p := PLAIN_STRING;
      case LONG => p := LongProperty;
      case MAP => p := MapProperty(PLAIN_STRING);
      case PODO(kind, fields) => p := MakeRef(kind, fields);
      case STRING => p := PLAIN_STRING;
      case URI => p := StringProperty(None, Some("uri"));
    }

    /** refProperty */
    method MakeRef(kind: string, fields: seq<Field>) returns (p: Property)
      modifies this
      ensures var (r, name) := Looked(old(Value()), stripPackagePrefixes, kind, fields);
        Value() == r && p == RefProperty(name)
      decreases fields, 1
    {
      var name := GetStrippedKind(kind);
      if name !in byKind {
        var properties := Load(fields);
        byKind := byKind[name := Model(name, properties)];
        origins := origins[name := Origin(kind, fields)];
      }
      p := RefProperty(name);
    }
  }

  // ----- What a description translates to, given the names -----

  function NameOf(names: map<string, string>, kind: string): string {
    if kind in names then names[kind] else kind
  }

  /** The property of a description, without any memo. */
  function PropertyOf(d: Description, names: map<string, string>): Property {
    match d.shape
    case BOOLEAN => BooleanProperty
    case BYTES => BinaryProperty
    case COLLECTION(e) => ArrayProperty(PropertyOf(e, names))
    case DATE => DateTimeProperty
    case DOUBLE => DoubleProperty
    case ENUM(vs) => StringProperty(vs, None)
    case LONG => LongProperty
    case MAP => MapProperty(PLAIN_STRING)
    case PODO(kind, _) => RefProperty(NameOf(names, kind))
    case URI => StringProperty(None, Some("uri"))
    case _ => PLAIN_STRING
  }

  function PropertiesOf(fields: seq<Field>, names: map<string, string>): map<string, Described>
    decreases |fields|
  {
    if fields == [] then map[]
    else
      var ps, f := PropertiesOf(fields[..|fields| - 1], names), fields[|fields| - 1];
      if Hidden(f.description) then ps
      else ps[f.name := Described(PropertyOf(f.description, names), f.description.documentation)]
  }

  /** The kind a description refers to, through any nesting of arrays. */
  function KindIn(d: Description): Option<string> {
    match d.shape
    case COLLECTION(e) => KindIn(e)
    case PODO(kind, _) => Some(kind)
    case _ => None
  }

  /** The name a property refers to, through any nesting of arrays. */
  function RefIn(p: Property): Option<string> {
    match p
    case ArrayProperty(q) => RefIn(q)
    case RefProperty(name) => Some(name)
    case _ => None
  }

  lemma RefOfProperty(d: Description, names: map<string, string>)
    ensures RefIn(PropertyOf(d, names)) ==
            if KindIn(d).None? then None else Some(NameOf(names, KindIn(d).value))
  {
  }

  // ----- Invariants -----

  /** Every kind these fields show has been named, and its definition exists. */
  predicate AllKnown(fields: seq<Field>, r: Registry) {
    forall i :: 0 <= i < |fields| && !Hidden(fields[i].description) ==> Known(fields[i].description, r)
  }

  predicate Known(d: Description, r: Registry) {
    KindIn(d).Some? ==> KindIn(d).value in r.names && r.names[KindIn(d).value] in r.models
  }

  ghost predicate GoodModel(r: Registry, n: string)
    requires n in r.models && n in r.origins
  {
    var o := r.origins[n];
    && o.kind in r.names && r.names[o.kind] == n
    && AllKnown(o.fields, r)
    && r.models[n] == Model(n, PropertiesOf(o.fields, r.names))
  }

  /** The registry is closed, named like its keys, and translates its origins. */
  ghost predicate Good(r: Registry) {
    r.models.Keys == r.origins.Keys && forall n :: n in r.models ==> GoodModel(r, n)
  }

  /** Nothing is renamed, and no definition is lost or changed. */
  predicate Extends(r: Registry, s: Registry) {
    && (forall k :: k in r.names ==> k in s.names && s.names[k] == r.names[k])
    && (forall n :: n in r.models ==> n in s.models && s.models[n] == r.models[n])
    && (forall n :: n in r.origins ==> n in s.origins && s.origins[n] == r.origins[n])
  }

  predicate SameNames(names: map<string, string>, names': map<string, string>) {
    forall k :: k in names ==> k in names' && names'[k] == names[k]
  }

  lemma {:induction false} PropertyIsStable(d: Description, names: map<string, string>, names': map<string, string>)
    requires SameNames(names, names') && (KindIn(d).Some? ==> KindIn(d).value in names)
    ensures PropertyOf(d, names') == PropertyOf(d, names)
  {
    if d.shape.COLLECTION? { PropertyIsStable(d.shape.element, names, names'); }
  }

  lemma {:induction false} PropertiesAreStable(fields: seq<Field>, r: Registry, s: Registry)
    requires Extends(r, s) && AllKnown(fields, r)
    ensures PropertiesOf(fields, s.names) == PropertiesOf(fields, r.names)
    decreases |fields|
  {
    if fields != [] {
      PropertiesAreStable(fields[..|fields| - 1], r, s);
      var f := fields[|fields| - 1];
      if !Hidden(f.description) { PropertyIsStable(f.description, r.names, s.names); }
    }
  }

  lemma ModelsStayGood(r: Registry, s: Registry, n: string)
    requires Extends(r, s) && n in r.models && n in r.origins && GoodModel(r, n)
    ensures n in s.models && n in s.origins && GoodModel(s, n)
  {
    PropertiesAreStable(r.origins[n].fields, r, s);
  }

  // ----- Calls keep the invariant -----

  ghost predicate LookedWell(r: Registry, kind: string, s: Registry, name: string) {
    Good(s) && Extends(r, s) && kind in s.names && name == s.names[kind] && name in s.models
  }

  ghost predicate LoadedWell(r: Registry, fields: seq<Field>, s: Registry, ps: map<string, Described>) {
    Good(s) && Extends(r, s) && AllKnown(fields, s) && ps == PropertiesOf(fields, s.names)
  }

  ghost predicate MadeWell(r: Registry, d: Description, s: Registry, p: Property) {
    Good(s) && Extends(r, s) && Known(d, s) && p == PropertyOf(d, s.names)
  }

  lemma NamedWell(r: Registry, prefixes: seq<string>, kind: string)
    requires Good(r)
    ensures Good(Named(r, prefixes, kind)) && Extends(r, Named(r, prefixes, kind))
  {
    var s := Named(r, prefixes, kind);
    forall n | n in s.models ensures GoodModel(s, n) { ModelsStayGood(r, s, n); }
  }

  /** Storing a definition under a name that was free when its loading started. */
  lemma RegisteredWell(r: Registry, s: Registry, kind: string, fields: seq<Field>, ps: map<string, Described>)
    requires LoadedWell(r, fields, s, ps) && kind in r.names && r.names[kind] !in r.models && Good(r)
    ensures LookedWell(r, kind, Registered(s, r.names[kind], ps, Origin(kind, fields)), r.names[kind])
  {
    var name := r.names[kind];
    var t := Registered(s, name, ps, Origin(kind, fields));
    forall n | n in t.models ensures GoodModel(t, n) {
      if n != name { assert GoodModel(s, n); }
    }
  }

  lemma ExtendsTransitive(r: Registry, s: Registry, t: Registry)
    requires Extends(r, s) && Extends(s, t)
    ensures Extends(r, t)
  {
  }

  lemma KnownStays(fields: seq<Field>, r: Registry, s: Registry)
    requires fields != [] && AllKnown(fields[..|fields| - 1], r) && Extends(r, s)
    requires !Hidden(fields[|fields| - 1].description) ==> Known(fields[|fields| - 1].description, s)
    ensures AllKnown(fields, s)
  {
    var pre := fields[..|fields| - 1];
    forall i | 0 <= i < |fields| && !Hidden(fields[i].description) ensures Known(fields[i].description, s) {
      if i < |pre| { assert pre[i] == fields[i]; }
    }
  }

  lemma FieldAdded(r: Registry, fields: seq<Field>, r1: Registry, ps: map<string, Described>, r2: Registry, p: Property)
    requires fields != [] && !Hidden(fields[|fields| - 1].description)
    requires LoadedWell(r, fields[..|fields| - 1], r1, ps) && MadeWell(r1, fields[|fields| - 1].description, r2, p)
    ensures var f := fields[|fields| - 1];
      LoadedWell(r, fields, r2, ps[f.name := Described(p, f.description.documentation)])
  {
    var pre := fields[..|fields| - 1];
    PropertiesAreStable(pre, r1, r2);
    ExtendsTransitive(r, r1, r2);
    KnownStays(fields, r1, r2);
  }

  lemma {:induction false} LooksWell(r: Registry, prefixes: seq<string>, kind: string, fields: seq<Field>)
    requires Good(r)
    ensures var (s, name) := Looked(r, prefixes, kind, fields); LookedWell(r, kind, s, name)
    decreases fields, 1
  {
    var r1 := Named(r, prefixes, kind);
    NamedWell(r, prefixes, kind);
    if r1.names[kind] !in r1.models {
      LoadsWell(r1, prefixes, fields);
      var (r2, ps) := Loaded(r1, prefixes, fields);
      RegisteredWell(r1, r2, kind, fields, ps);
    }
  }

  lemma {:induction false} LoadsWell(r: Registry, prefixes: seq<string>, fields: seq<Field>)
    requires Good(r)
    ensures var (s, ps) := Loaded(r, prefixes, fields); LoadedWell(r, fields, s, ps)
    decreases fields, 0
  {
    if fields != [] {
      var pre, f := fields[..|fields| - 1], fields[|fields| - 1];
      LoadsWell(r, prefixes, pre);
      var (r1, ps) := Loaded(r, prefixes, pre);
      if !Hidden(f.description) {
        MakesWell(r1, prefixes, f.description);
        var (r2, p) := Made(r1, prefixes, f.description);
        FieldAdded(r, fields, r1, ps, r2, p);
      }
    }
  }

  lemma {:induction false} MakesWell(r: Registry, prefixes: seq<string>, d: Description)
    requires Good(r)
    ensures var (s, p) := Made(r, prefixes, d); MadeWell(r, d, s, p)
    decreases d, 0
  {
    match d.shape
    case COLLECTION(e) => MakesWell(r, prefixes, e);
    case PODO(kind, fields) => LooksWell(r, prefixes, kind, fields);
    case _ =>
  }

  // ----- Runs -----

  const EMPTY: Registry := Registry(map[], map[], map[])

  /** The registry after a sequence of getModel calls. */
  function RunCalls(prefixes: seq<string>, calls: seq<Origin>): Registry
    decreases |calls|
  {
    if calls == [] then EMPTY
    else
      var c := calls[|calls| - 1];
      Looked(RunCalls(prefixes, calls[..|calls| - 1]), prefixes, c.kind, c.fields).0
  }

  lemma {:induction false} RunsWell(prefixes: seq<string>, calls: seq<Origin>)
    ensures Good(RunCalls(prefixes, calls))
    decreases |calls|
  {
    if calls != [] {
      RunsWell(prefixes, calls[..|calls| - 1]);
      var c := calls[|calls| - 1];
      LooksWell(RunCalls(prefixes, calls[..|calls| - 1]), prefixes, c.kind, c.fields);
    }
  }

  // ----- What a definition shows, without the translation -----

  /** The field is meant neither for the infrastructure nor for the service alone. */
  predicate Shown(f: Field) {
    forall u :: u in f.description.usage ==> u.OtherUsage?
  }

  /** `p` is the property a description should be shown as. */
  predicate ShowsAs(d: Description, p: Property, names: map<string, string>) {
    match d.shape
    case BOOLEAN => p.BooleanProperty?
    case BYTES => p.BinaryProperty?
    case DATE => p.DateTimeProperty?
    case DOUBLE => p.DoubleProperty?
    case LONG => p.LongProperty?
    case MAP => p.MapProperty? && p.additional == StringProperty(None, None)
    case STRING => p == StringProperty(None, None)
    case InternetAddressV4 => p == StringProperty(None, None)
    case InternetAddressV6 => p == StringProperty(None, None)
    case URI => p == StringProperty(None, Some("uri"))
    case ENUM(vs) => p.StringProperty? && p.enumeration == vs && p.format.None?
    case COLLECTION(e) => p.ArrayProperty? && ShowsAs(e, p.items, names)
    case PODO(kind, _) => kind in names && p == RefProperty(names[kind])
  }

  lemma {:induction false} PropertyShows(d: Description, names: map<string, string>)
    requires KindIn(d).Some? ==> KindIn(d).value in names
    ensures ShowsAs(d, PropertyOf(d, names), names)
  {
    if d.shape.COLLECTION? { PropertyShows(d.shape.element, names); }
  }

  /** The last of the shown fields with this name. */
  predicate LastShown(fields: seq<Field>, i: nat, x: string) {
    && i < |fields| && fields[i].name == x && Shown(fields[i])
    && forall j :: i < j < |fields| && fields[j].name == x ==> !Shown(fields[j])
  }

  lemma ShownIsNotHidden(f: Field)
    ensures Shown(f) <==> !Hidden(f.description)
  {
    if Shown(f) { assert !INFRASTRUCTURE.OtherUsage? && !SERVICE_USE.OtherUsage?; }
  }

  lemma {:induction false} PropertiesShow(fields: seq<Field>, r: Registry, x: string)
    requires AllKnown(fields, r)
    ensures var ps := PropertiesOf(fields, r.names);
      && (x in ps <==> exists i: nat :: LastShown(fields, i, x))
      && forall i: nat :: LastShown(fields, i, x) ==>
           && ps[x].description == fields[i].description.documentation
           && ShowsAs(fields[i].description, ps[x].property, r.names)
    decreases |fields|
  {
    if fields != [] {
      var m := |fields| - 1;
      var pre, f := fields[..m], fields[m];
      PropertiesShow(pre, r, x);
      ShownIsNotHidden(f);
      assert f.name == x && Shown(f) ==> LastShown(fields, m, x);
      forall i: nat | f.name != x || !Shown(f) ensures LastShown(fields, i, x) == LastShown(pre, i, x) {
        LastShownStep(fields, i, x);
      }
      if Shown(f) && f.name == x {
        assert Known(f.description, r);
        PropertyShows(f.description, r.names);
      }
    }
  }

  lemma LastShownStep(fields: seq<Field>, i: nat, x: string)
    requires fields != [] && (fields[|fields| - 1].name != x || !Shown(fields[|fields| - 1]))
    ensures LastShown(fields, i, x) == LastShown(fields[..|fields| - 1], i, x)
  {
    var pre := fields[..|fields| - 1];
    assert forall j :: 0 <= j < |pre| ==> pre[j] == fields[j];
  }

  /** After any calls a definition has a property for exactly the names of the fields that
      are shown, and it shows the last field of that name, with its documentation. */
  lemma DefinitionsShow(prefixes: seq<string>, calls: seq<Origin>, n: string, x: string)
    requires n in RunCalls(prefixes, calls).models
    ensures var r := RunCalls(prefixes, calls);
      && n in r.origins
      && var fields, ps := r.origins[n].fields, r.models[n].properties;
         && (x in ps <==> exists i: nat :: LastShown(fields, i, x))
         && forall i: nat :: LastShown(fields, i, x) ==>
              && ps[x].description == fields[i].description.documentation
              && ShowsAs(fields[i].description, ps[x].property, r.names)
  {
    var r := RunCalls(prefixes, calls);
    RunsWell(prefixes, calls);
    assert GoodModel(r, n);
    PropertiesShow(r.origins[n].fields, r, x);
  }

  /** Each property translates one of the fields shown, so what it refers to is known. */
  lemma {:induction false} ReferenceIsKnown(fields: seq<Field>, r: Registry, property: string)
    requires AllKnown(fields, r) && property in PropertiesOf(fields, r.names)
    ensures var ref := RefIn(PropertiesOf(fields, r.names)[property].property);
      ref.Some? ==> ref.value in r.models
    decreases |fields|
  {
    var f := fields[|fields| - 1];
    if !Hidden(f.description) && f.name == property {
      RefOfProperty(f.description, r.names);
      assert Known(f.description, r);
    } else {
      ReferenceIsKnown(fields[..|fields| - 1], r, property);
    }
  }

  /** Closed definitions: after any calls every reference inside any definition, also
      through arrays, names a definition, and every definition has the name of its key. */
  lemma DefinitionsAreClosed(prefixes: seq<string>, calls: seq<Origin>, n: string, property: string)
    requires n in RunCalls(prefixes, calls).models
    requires property in RunCalls(prefixes, calls).models[n].properties
    ensures var r := RunCalls(prefixes, calls);
      && r.models[n].name == n
      && var ref := RefIn(r.models[n].properties[property].property);
         ref.Some? ==> ref.value in r.models
  {
    var r := RunCalls(prefixes, calls);
    RunsWell(prefixes, calls);
    assert GoodModel(r, n);
    ReferenceIsKnown(r.origins[n].fields, r, property);
  }

  /** A later call renames no kind and changes no definition. */
  lemma {:induction false} RunsExtend(prefixes: seq<string>, calls: seq<Origin>, more: seq<Origin>)
    ensures Extends(RunCalls(prefixes, calls), RunCalls(prefixes, calls + more))
    decreases |more|
  {
    var all := calls + more;
    if more == [] {
      assert all == calls;
    } else {
      assert all[..|all| - 1] == calls + more[..|more| - 1];
      RunsExtend(prefixes, calls, more[..|more| - 1]);
      var r, c := RunCalls(prefixes, all[..|all| - 1]), all[|all| - 1];
      RunsWell(prefixes, all[..|all| - 1]);
      LooksWell(r, prefixes, c.kind, c.fields);
      ExtendsTransitive(RunCalls(prefixes, calls), r, RunCalls(prefixes, all));
    }
  }

  // ----- Names -----

  /** Each name is its kind, or its kind without a configured prefix. */
  predicate Shortens(prefixes: seq<string>, kind: string, name: string) {
    kind == name || exists p :: p in prefixes && kind == p + name
  }

  /** The table of names after any namings, in any order: names shorten their kinds, and a
      name that two kinds share is literally one of them. */
  ghost predicate NamesWell(prefixes: seq<string>, names: map<string, string>) {
    && (forall k :: k in names ==> Shortens(prefixes, k, names[k]))
    && (forall j, k :: j in names && k in names && j != k && names[j] == names[k] ==> names[j] in {j, k})
  }

  lemma NamingKeepsNames(r: Registry, prefixes: seq<string>, kind: string)
    requires NamesWell(prefixes, r.names)
    ensures NamesWell(prefixes, Named(r, prefixes, kind).names)
  {
    if kind !in r.names {
      var name := Chosen(prefixes, kind, r.names.Values);
      assert Shortens(prefixes, kind, name) by {
        var m := LastMatch(prefixes, kind);
        if m.Some? { assert kind == m.value + kind[|m.value|..]; }
      }
      assert name != kind ==> name !in r.names.Values;
    }
  }

  lemma {:induction false} LookingKeepsNames(r: Registry, prefixes: seq<string>, kind: string, fields: seq<Field>)
    requires NamesWell(prefixes, r.names)
    ensures NamesWell(prefixes, Looked(r, prefixes, kind, fields).0.names)
    decreases fields, 1
  {
    var r1 := Named(r, prefixes, kind);
    NamingKeepsNames(r, prefixes, kind);
    if r1.names[kind] !in r1.models { LoadingKeepsNames(r1, prefixes, fields); }
  }

  lemma {:induction false} LoadingKeepsNames(r: Registry, prefixes: seq<string>, fields: seq<Field>)
    requires NamesWell(prefixes, r.names)
    ensures NamesWell(prefixes, Loaded(r, prefixes, fields).0.names)
    decreases fields, 0
  {
    if fields != [] {
      var pre, f := fields[..|fields| - 1], fields[|fields| - 1];
      LoadingKeepsNames(r, prefixes, pre);
      if !Hidden(f.description) { MakingKeepsNames(Loaded(r, prefixes, pre).0, prefixes, f.description); }
    }
  }

  lemma {:induction false} MakingKeepsNames(r: Registry, prefixes: seq<string>, d: Description)
    requires NamesWell(prefixes, r.names)
    ensures NamesWell(prefixes, Made(r, prefixes, d).0.names)
    decreases d, 0
  {
    match d.shape
    case COLLECTION(e) => MakingKeepsNames(r, prefixes, e);
    case PODO(kind, fields) => LookingKeepsNames(r, prefixes, kind, fields);
    case _ =>
  }

  lemma {:induction false} RunsNameWell(prefixes: seq<string>, calls: seq<Origin>)
    ensures NamesWell(prefixes, RunCalls(prefixes, calls).names)
    decreases |calls|
  {
    if calls != [] {
      RunsNameWell(prefixes, calls[..|calls| - 1]);
      var c := calls[|calls| - 1];
      LookingKeepsNames(RunCalls(prefixes, calls[..|calls| - 1]), prefixes, c.kind, c.fields);
    }
  }

  /** After any calls every kind has a name that is the kind or a suffix of it. */
  lemma NameIsSuffix(prefixes: seq<string>, calls: seq<Origin>, kind: string)
    requires kind in RunCalls(prefixes, calls).names
    ensures var name := RunCalls(prefixes, calls).names[kind];
      |name| <= |kind| && kind[|kind| - |name|..] == name
  {
    RunsNameWell(prefixes, calls);
    var name := RunCalls(prefixes, calls).names[kind];
    if kind != name {
      var p :| p in prefixes && kind == p + name;
    }
  }

  /** A new kind loses the last of the prefixes it has, unless the rest is taken. */
  lemma {:induction false} ChosenByLast(prefixes: seq<string>, kind: string, taken: set<string>, i: nat)
    requires i < |prefixes| && prefixes[i] <= kind
    requires forall j :: i < j < |prefixes| ==> !(prefixes[j] <= kind)
    ensures var rest := kind[|prefixes[i]|..];
      Chosen(prefixes, kind, taken) == if rest in taken then kind else rest
    decreases |prefixes|
  {
    if i < |prefixes| - 1 { ChosenByLast(prefixes[..|prefixes| - 1], kind, taken, i); }
  }

  /** One that has none of the prefixes keeps its name. */
  lemma ChosenWithout(prefixes: seq<string>, kind: string, taken: set<string>)
    requires forall p :: p in prefixes ==> !(p <= kind)
    ensures Chosen(prefixes, kind, taken) == kind
  {
  }

  /** No kind is another kind with a configured prefix in front. */
  ghost predicate PrefixFree(prefixes: seq<string>, kinds: set<string>) {
    forall j, k, p :: j in kinds && k in kinds && j != k && p in prefixes ==> j != p + k
  }

  /** Then distinct kinds have distinct names, after any calls and for any order in which
      the prefixes are visited. */
  lemma DistinctNames(prefixes: seq<string>, calls: seq<Origin>, j: string, k: string)
    requires var names := RunCalls(prefixes, calls).names;
      PrefixFree(prefixes, names.Keys) && j in names && k in names && j != k
    ensures RunCalls(prefixes, calls).names[j] != RunCalls(prefixes, calls).names[k]
  {
    RunsNameWell(prefixes, calls);
  }

  /** No two kinds share a name. */
  predicate Injective(names: map<string, string>) {
    forall j, k :: j in names && k in names && j != k ==> names[j] != names[k]
  }

  /** The kind itself is taken as a name, and it has no configured prefix, or the rest after
      the last one is taken, too. */
  predicate Collides(prefixes: seq<string>, kind: string, taken: set<string>) {
    && kind in taken
    && (LastMatch(prefixes, kind).None? || kind[|LastMatch(prefixes, kind).value|..] in taken)
  }

  /** That is exactly when a new kind gets a name that is taken. */
  lemma CollidesExactly(prefixes: seq<string>, kind: string, taken: set<string>)
    ensures Chosen(prefixes, kind, taken) in taken <==> Collides(prefixes, kind, taken)
  {
  }

  /** The table after the kinds `ks` were looked up in it, one after the other. */
  function NamingAll(names: map<string, string>, prefixes: seq<string>, ks: seq<string>): map<string, string>
    decreases |ks|
  {
    if ks == [] then names else Naming(NamingAll(names, prefixes, ks[..|ks| - 1]), prefixes, ks[|ks| - 1])
  }

  function NamesAfter(prefixes: seq<string>, ks: seq<string>): map<string, string> {
    NamingAll(map[], prefixes, ks)
  }

  lemma {:induction false} NamedKinds(prefixes: seq<string>, ks: seq<string>, kind: string)
    ensures kind in NamesAfter(prefixes, ks) <==> kind in ks
    decreases |ks|
  {
    if ks != [] {
      NamedKinds(prefixes, ks[..|ks| - 1], kind);
      assert ks == ks[..|ks| - 1] + [ks[|ks| - 1]];
    }
  }

  /** Lookup `i` names a new kind and finds both its possible names taken. */
  predicate CollidesAt(prefixes: seq<string>, ks: seq<string>, i: nat)
    requires i < |ks|
  {
    ks[i] !in ks[..i] && Collides(prefixes, ks[i], NamesAfter(prefixes, ks[..i]).Values)
  }

  predicate NoCollision(prefixes: seq<string>, ks: seq<string>) {
    forall i :: 0 <= i < |ks| ==> !CollidesAt(prefixes, ks, i)
  }

  lemma NoCollisionStep(prefixes: seq<string>, ks: seq<string>, n: nat)
    requires |ks| == n + 1
    ensures NoCollision(prefixes, ks) <==> NoCollision(prefixes, ks[..n]) && !CollidesAt(prefixes, ks, n)
  {
    forall i | 0 <= i < n ensures CollidesAt(prefixes, ks[..n], i) == CollidesAt(prefixes, ks, i) {
      assert ks[..n][..i] == ks[..i];
    }
    assert NoCollision(prefixes, ks) ==> NoCollision(prefixes, ks[..n]);
  }

  lemma NamingIsInjectiveExactly(names: map<string, string>, prefixes: seq<string>, kind: string)
    ensures Injective(Naming(names, prefixes, kind)) <==>
            Injective(names) && (kind !in names ==> !Collides(prefixes, kind, names.Values))
  {
    var names' := Naming(names, prefixes, kind);
    CollidesExactly(prefixes, kind, names.Values);
    assert forall k :: k in names ==> k in names' && names'[k] == names[k];
    if kind !in names && names'[kind] in names.Values {
      var k :| k in names && names[k] == names'[kind];
      assert !Injective(names');
    }
  }

  /** Kinds keep their names apart exactly when no lookup collides with those before. */
  lemma {:induction false} InjectiveExactly(prefixes: seq<string>, ks: seq<string>)
    ensures Injective(NamesAfter(prefixes, ks)) <==> NoCollision(prefixes, ks)
    decreases |ks|
  {
    if ks != [] {
      var n := |ks| - 1;
      InjectiveExactly(prefixes, ks[..n]);
      NamingIsInjectiveExactly(NamesAfter(prefixes, ks[..n]), prefixes, ks[n]);
      NoCollisionStep(prefixes, ks, n);
      NamedKinds(prefixes, ks[..n], ks[n]);
    }
  }

  // ----- The lookups a run makes -----

  /** The kinds that getStrippedKind is asked for while a kind is looked up, in order. */
  function LookedUp(r: Registry, prefixes: seq<string>, kind: string, fields: seq<Field>): seq<string>
    decreases fields, 1
  {
    var r1 := Named(r, prefixes, kind);
    if r1.names[kind] in r1.models then [kind] else [kind] + LookedUpIn(r1, prefixes, fields)
  }

  function LookedUpIn(r: Registry, prefixes: seq<string>, fields: seq<Field>): seq<string>
    decreases fields, 0
  {
    if fields == [] then []
    else
      var pre, f := fields[..|fields| - 1], fields[|fields| - 1];
      var ks := LookedUpIn(r, prefixes, pre);
      if Hidden(f.description) then ks
      else ks + LookedUpFor(Loaded(r, prefixes, pre).0, prefixes, f.description)
  }

  function LookedUpFor(r: Registry, prefixes: seq<string>, d: Description): seq<string>
    decreases d, 0
  {
    match d.shape
    case COLLECTION(e) => LookedUpFor(r, prefixes, e)
    case PODO(kind, fields) => LookedUp(r, prefixes, kind, fields)
    case _ => []
  }

  function LookedUpBy(prefixes: seq<string>, calls: seq<Origin>): seq<string>
    decreases |calls|
  {
    if calls == [] then []
    else
      var pre, c := calls[..|calls| - 1], calls[|calls| - 1];
      LookedUpBy(prefixes, pre) + LookedUp(RunCalls(prefixes, pre), prefixes, c.kind, c.fields)
  }

  lemma {:induction false} NamingMore(
    names: map<string, string>, prefixes: seq<string>, ks: seq<string>, more: seq<string>)
    ensures NamingAll(names, prefixes, ks + more) == NamingAll(NamingAll(names, prefixes, ks), prefixes, more)
    decreases |more|
  {
    var all := ks + more;
    if more == [] {
      assert all == ks;
    } else {
      assert all[..|all| - 1] == ks + more[..|more| - 1];
      NamingMore(names, prefixes, ks, more[..|more| - 1]);
    }
  }

  lemma NamingOne(names: map<string, string>, prefixes: seq<string>, kind: string)
    ensures NamingAll(names, prefixes, [kind]) == Naming(names, prefixes, kind)
  {
    assert [kind][..0] == [];
  }

  lemma {:induction false} LooksUpNames(r: Registry, prefixes: seq<string>, kind: string, fields: seq<Field>)
    ensures Looked(r, prefixes, kind, fields).0.names ==
            NamingAll(r.names, prefixes, LookedUp(r, prefixes, kind, fields))
    decreases fields, 1
  {
    var r1 := Named(r, prefixes, kind);
    NamingOne(r.names, prefixes, kind);
    if r1.names[kind] !in r1.models {
      LoadsNames(r1, prefixes, fields);
      NamingMore(r.names, prefixes, [kind], LookedUpIn(r1, prefixes, fields));
    }
  }

  lemma {:induction false} LoadsNames(r: Registry, prefixes: seq<string>, fields: seq<Field>)
    ensures Loaded(r, prefixes, fields).0.names == NamingAll(r.names, prefixes, LookedUpIn(r, prefixes, fields))
    decreases fields, 0
  {
    if fields != [] {
      var pre, f := fields[..|fields| - 1], fields[|fields| - 1];
      LoadsNames(r, prefixes, pre);
      if !Hidden(f.description) {
        var r1 := Loaded(r, prefixes, pre).0;
        MakesNames(r1, prefixes, f.description);
        NamingMore(r.names, prefixes, LookedUpIn(r, prefixes, pre), LookedUpFor(r1, prefixes, f.description));
      }
    }
  }

  lemma {:induction false} MakesNames(r: Registry, prefixes: seq<string>, d: Description)
    ensures Made(r, prefixes, d).0.names == NamingAll(r.names, prefixes, LookedUpFor(r, prefixes, d))
    decreases d, 0
  {
    match d.shape
    case COLLECTION(e) => MakesNames(r, prefixes, e);
    case PODO(kind, fields) => LooksUpNames(r, prefixes, kind, fields);
    case _ =>
  }

  /** The table of a run is the table of its lookups, one after the other. */
  lemma {:induction false} RunNames(prefixes: seq<string>, calls: seq<Origin>)
    ensures RunCalls(prefixes, calls).names == NamesAfter(prefixes, LookedUpBy(prefixes, calls))
    decreases |calls|
  {
    if calls != [] {
      var pre, c := calls[..|calls| - 1], calls[|calls| - 1];
      RunNames(prefixes, pre);
      var r := RunCalls(prefixes, pre);
      LooksUpNames(r, prefixes, c.kind, c.fields);
      NamingMore(map[], prefixes, LookedUpBy(prefixes, pre), LookedUp(r, prefixes, c.kind, c.fields));
    }
  }

  // ----- Each reference resolves to its own kind -----

  /** The names that were chosen and have no definition yet. */
  function Unloaded(r: Registry): set<string> {
    r.names.Values - r.models.Keys
  }

  lemma {:induction false} LookingLoads(r: Registry, prefixes: seq<string>, kind: string, fields: seq<Field>)
    ensures Unloaded(Looked(r, prefixes, kind, fields).0) <= Unloaded(r)
    decreases fields, 1
  {
    var r1 := Named(r, prefixes, kind);
    var name := r1.names[kind];
    assert Unloaded(r1) <= Unloaded(r) + {name};
    if name !in r1.models {
      LoadingLoads(r1, prefixes, fields);
      var (r2, ps) := Loaded(r1, prefixes, fields);
      assert Unloaded(Registered(r2, name, ps, Origin(kind, fields))) == Unloaded(r2) - {name};
    }
  }

  lemma {:induction false} LoadingLoads(r: Registry, prefixes: seq<string>, fields: seq<Field>)
    ensures Unloaded(Loaded(r, prefixes, fields).0) <= Unloaded(r)
    decreases fields, 0
  {
    if fields != [] {
      var pre, f := fields[..|fields| - 1], fields[|fields| - 1];
      LoadingLoads(r, prefixes, pre);
      if !Hidden(f.description) { MakingLoads(Loaded(r, prefixes, pre).0, prefixes, f.description); }
    }
  }

  lemma {:induction false} MakingLoads(r: Registry, prefixes: seq<string>, d: Description)
    ensures Unloaded(Made(r, prefixes, d).0) <= Unloaded(r)
    decreases d, 0
  {
    match d.shape
    case COLLECTION(e) => MakingLoads(r, prefixes, e);
    case PODO(kind, fields) => LookingLoads(r, prefixes, kind, fields);
    case _ =>
  }

  /** After any calls every name that was chosen has a definition. */
  lemma {:induction false} AllLoaded(prefixes: seq<string>, calls: seq<Origin>)
    ensures Unloaded(RunCalls(prefixes, calls)) == {}
    decreases |calls|
  {
    if calls != [] {
      var pre, c := calls[..|calls| - 1], calls[|calls| - 1];
      AllLoaded(prefixes, pre);
      LookingLoads(RunCalls(prefixes, pre), prefixes, c.kind, c.fields);
    }
  }

  /** Every kind that was looked up resolves to a definition loaded for that kind. */
  predicate Resolves(r: Registry) {
    forall k :: k in r.names ==> r.names[k] in r.origins && r.origins[r.names[k]].kind == k
  }

  lemma ResolvesIfInjective(prefixes: seq<string>, calls: seq<Origin>)
    ensures var r := RunCalls(prefixes, calls); Resolves(r) <==> Injective(r.names)
  {
    var r := RunCalls(prefixes, calls);
    RunsWell(prefixes, calls);
    AllLoaded(prefixes, calls);
    forall k | k in r.names && Injective(r.names)
      ensures r.names[k] in r.origins && r.origins[r.names[k]].kind == k
    {
      assert r.names[k] !in Unloaded(r);
      assert GoodModel(r, r.names[k]);
    }
  }

  // ----- The same lookups, read off the descriptions -----

  /** The kinds mentioned when a kind is asked for, in order, and the kinds loaded then;
      `seen` are those loaded before.  No name plays a part. */
  function Mentions(seen: set<string>, kind: string, fields: seq<Field>): (seq<string>, set<string>)
    decreases fields, 1
  {
    if kind in seen then ([kind], seen)
    else
      var (ks, seen') := MentionsIn(seen, fields);
      ([kind] + ks, seen' + {kind})
  }

  function MentionsIn(seen: set<string>, fields: seq<Field>): (seq<string>, set<string>)
    decreases fields, 0
  {
    if fields == [] then ([], seen)
    else
      var (ks, seen') := MentionsIn(seen, fields[..|fields| - 1]);
      var f := fields[|fields| - 1];
      if Hidden(f.description) then (ks, seen')
      else
        var (more, seen'') := MentionsFor(seen', f.description);
        (ks + more, seen'')
  }

  function MentionsFor(seen: set<string>, d: Description): (seq<string>, set<string>)
    decreases d, 0
  {
    match d.shape
    case COLLECTION(e) => MentionsFor(seen, e)
    case PODO(kind, fields) => Mentions(seen, kind, fields)
    case _ => ([], seen)
  }

  function MentionsBy(calls: seq<Origin>): (seq<string>, set<string>)
    decreases |calls|
  {
    if calls == [] then ([], {})
    else
      var (ks, seen) := MentionsBy(calls[..|calls| - 1]);
      var (more, seen') := Mentions(seen, calls[|calls| - 1].kind, calls[|calls| - 1].fields);
      (ks + more, seen')
  }

  /** Names are apart, and a name has a definition exactly when its kind was loaded. */
  ghost predicate Tracks(seen: set<string>, r: Registry) {
    && Injective(r.names) && seen <= r.names.Keys && r.models.Keys <= r.names.Values
    && forall k :: k in r.names ==> (r.names[k] in r.models <==> k in seen)
  }

  /** From the same names both lists lead to a collision, or they are the same list, and
      afterwards the kinds loaded are tracked. */
  ghost predicate Parallel(
    r: Registry, prefixes: seq<string>, s: Registry, ks: seq<string>, ms: (seq<string>, set<string>))
  {
    if Injective(NamingAll(r.names, prefixes, ks)) then ms.0 == ks && Tracks(ms.1, s)
    else !Injective(NamingAll(r.names, prefixes, ms.0))
  }

  /** Names that are not apart never are again. */
  lemma {:induction false} CollisionsStay(names: map<string, string>, prefixes: seq<string>, ks: seq<string>)
    requires !Injective(names)
    ensures !Injective(NamingAll(names, prefixes, ks))
    decreases |ks|
  {
    if ks != [] {
      CollisionsStay(names, prefixes, ks[..|ks| - 1]);
      NamingIsInjectiveExactly(NamingAll(names, prefixes, ks[..|ks| - 1]), prefixes, ks[|ks| - 1]);
    }
  }

  lemma CollisionsStayOnBoth(
    names: map<string, string>, prefixes: seq<string>, ks: seq<string>, more: seq<string>)
    requires !Injective(NamingAll(names, prefixes, ks))
    ensures !Injective(NamingAll(names, prefixes, ks + more))
  {
    NamingMore(names, prefixes, ks, more);
    CollisionsStay(NamingAll(names, prefixes, ks), prefixes, more);
  }

  /** Going on after a list that both walks share. */
  lemma ParallelStep(r: Registry, prefixes: seq<string>, s: Registry, ks: seq<string>, t: Registry,
                     more: seq<string>, ms: (seq<string>, set<string>))
    requires s.names == NamingAll(r.names, prefixes, ks) && Parallel(s, prefixes, t, more, ms)
    ensures Parallel(r, prefixes, t, ks + more, (ks + ms.0, ms.1))
  {
    NamingMore(r.names, prefixes, ks, more);
    NamingMore(r.names, prefixes, ks, ms.0);
  }

  /** Naming a kind keeps track, while names stay apart. */
  lemma NamingTracks(seen: set<string>, r: Registry, prefixes: seq<string>, kind: string)
    requires Tracks(seen, r) && Injective(Named(r, prefixes, kind).names)
    ensures Tracks(seen, Named(r, prefixes, kind))
  {
    var r1 := Named(r, prefixes, kind);
    if kind !in r.names {
      forall k | k in r.names ensures r.names[k] != r1.names[kind] { assert r1.names[k] == r.names[k]; }
      assert r1.names.Values >= r.names.Values by {
        forall n | n in r.names.Values ensures n in r1.names.Values {
          var k :| k in r.names && r.names[k] == n;
          assert r1.names[k] == n;
        }
      }
    }
  }

  lemma RegisteringTracks(seen: set<string>, s: Registry, kind: string, ps: map<string, Described>, o: Origin)
    requires Tracks(seen, s) && kind in s.names
    ensures Tracks(seen + {kind}, Registered(s, s.names[kind], ps, o))
  {
  }

  /** The lookup itself collides. */
  lemma CollidesAtOnce(seen: set<string>, r: Registry, prefixes: seq<string>, kind: string, fields: seq<Field>)
    requires !Injective(Named(r, prefixes, kind).names)
    ensures Parallel(r, prefixes, Looked(r, prefixes, kind, fields).0, LookedUp(r, prefixes, kind, fields),
                     Mentions(seen, kind, fields))
  {
    NamingOne(r.names, prefixes, kind);
    CollisionsStayOnBoth(r.names, prefixes, [kind], LookedUpIn(Named(r, prefixes, kind), prefixes, fields));
    CollisionsStayOnBoth(r.names, prefixes, [kind], MentionsIn(seen, fields).0);
  }

  /** The kind is loaded. */
  lemma LoadsAfterNaming(seen: set<string>, r: Registry, prefixes: seq<string>, kind: string, fields: seq<Field>)
    requires var r1 := Named(r, prefixes, kind);
      && r1.names[kind] !in r1.models && kind !in seen
      && Parallel(r1, prefixes, Loaded(r1, prefixes, fields).0, LookedUpIn(r1, prefixes, fields),
                  MentionsIn(seen, fields))
    ensures Parallel(r, prefixes, Looked(r, prefixes, kind, fields).0, LookedUp(r, prefixes, kind, fields),
                     Mentions(seen, kind, fields))
  {
    var r1 := Named(r, prefixes, kind);
    var (r2, ps) := Loaded(r1, prefixes, fields);
    var ks := LookedUpIn(r1, prefixes, fields);
    var (ms, seen') := MentionsIn(seen, fields);
    NamingOne(r.names, prefixes, kind);
    ParallelStep(r, prefixes, r1, [kind], r2, ks, (ms, seen'));
    LoadsNames(r1, prefixes, fields);
    NamingMore(r.names, prefixes, [kind], ks);
    if Injective(r2.names) {
      NamesStay(r1.names, prefixes, ks, kind);
      RegisteringTracks(seen', r2, kind, ps, Origin(kind, fields));
    }
  }

  /** The kind was loaded before. */
  lemma FindsLoaded(seen: set<string>, r: Registry, prefixes: seq<string>, kind: string, fields: seq<Field>)
    requires Tracks(seen, Named(r, prefixes, kind)) && kind in seen
    ensures Parallel(r, prefixes, Looked(r, prefixes, kind, fields).0, LookedUp(r, prefixes, kind, fields),
                     Mentions(seen, kind, fields))
  {
    NamingOne(r.names, prefixes, kind);
  }

  lemma NotLoadedYet(seen: set<string>, r: Registry, prefixes: seq<string>, kind: string)
    requires Tracks(seen, Named(r, prefixes, kind)) && kind !in seen
    ensures var r1 := Named(r, prefixes, kind); r1.names[kind] !in r1.models
  {
  }

  lemma {:induction false} LooksInParallel(
    seen: set<string>, r: Registry, prefixes: seq<string>, kind: string, fields: seq<Field>)
    requires Tracks(seen, r)
    ensures Parallel(r, prefixes, Looked(r, prefixes, kind, fields).0, LookedUp(r, prefixes, kind, fields),
                     Mentions(seen, kind, fields))
    decreases fields, 1
  {
    if !Injective(Named(r, prefixes, kind).names) {
      CollidesAtOnce(seen, r, prefixes, kind, fields);
    } else {
      NamingTracks(seen, r, prefixes, kind);
      if kind in seen {
        FindsLoaded(seen, r, prefixes, kind, fields);
      } else {
        NotLoadedYet(seen, r, prefixes, kind);
        LoadsInParallel(seen, Named(r, prefixes, kind), prefixes, fields);
        LoadsAfterNaming(seen, r, prefixes, kind, fields);
      }
    }
  }

  lemma {:induction false} NamesStay(names: map<string, string>, prefixes: seq<string>, ks: seq<string>, kind: string)
    requires kind in names
    ensures kind in NamingAll(names, prefixes, ks) && NamingAll(names, prefixes, ks)[kind] == names[kind]
    decreases |ks|
  {
    if ks != [] { NamesStay(names, prefixes, ks[..|ks| - 1], kind); }
  }

  lemma {:induction false} LoadsInParallel(seen: set<string>, r: Registry, prefixes: seq<string>, fields: seq<Field>)
    requires Tracks(seen, r)
    ensures Parallel(r, prefixes, Loaded(r, prefixes, fields).0, LookedUpIn(r, prefixes, fields),
                     MentionsIn(seen, fields))
    decreases fields, 0
  {
    if fields != [] {
      var pre, f := fields[..|fields| - 1], fields[|fields| - 1];
      LoadsInParallel(seen, r, prefixes, pre);
      if !Hidden(f.description) {
        var r1, ks, ms := Loaded(r, prefixes, pre).0, LookedUpIn(r, prefixes, pre), MentionsIn(seen, pre);
        LoadsNames(r, prefixes, pre);
        if Injective(r1.names) {
          MakesInParallel(ms.1, r1, prefixes, f.description);
          ParallelStep(r, prefixes, r1, ks, Made(r1, prefixes, f.description).0,
                       LookedUpFor(r1, prefixes, f.description), MentionsFor(ms.1, f.description));
        } else {
          CollisionsStayOnBoth(r.names, prefixes, ks, LookedUpFor(r1, prefixes, f.description));
          CollisionsStayOnBoth(r.names, prefixes, ms.0, MentionsFor(ms.1, f.description).0);
        }
      }
    }
  }

  lemma {:induction false} MakesInParallel(seen: set<string>, r: Registry, prefixes: seq<string>, d: Description)
    requires Tracks(seen, r)
    ensures Parallel(r, prefixes, Made(r, prefixes, d).0, LookedUpFor(r, prefixes, d), MentionsFor(seen, d))
    decreases d, 0
  {
    match d.shape
    case COLLECTION(e) => MakesInParallel(seen, r, prefixes, e);
    case PODO(kind, fields) => LooksInParallel(seen, r, prefixes, kind, fields);
    case _ =>
  }

  lemma {:induction false} RunsInParallel(prefixes: seq<string>, calls: seq<Origin>)
    ensures Parallel(EMPTY, prefixes, RunCalls(prefixes, calls), LookedUpBy(prefixes, calls), MentionsBy(calls))
    decreases |calls|
  {
    if calls != [] {
      var pre, c := calls[..|calls| - 1], calls[|calls| - 1];
      RunsInParallel(prefixes, pre);
      RunNames(prefixes, pre);
      var r, ks, ms := RunCalls(prefixes, pre), LookedUpBy(prefixes, pre), MentionsBy(pre);
      if Injective(r.names) {
        LooksInParallel(ms.1, r, prefixes, c.kind, c.fields);
        ParallelStep(EMPTY, prefixes, r, ks, RunCalls(prefixes, calls),
                     LookedUp(r, prefixes, c.kind, c.fields), Mentions(ms.1, c.kind, c.fields));
      } else {
        CollisionsStayOnBoth(map[], prefixes, ks, LookedUp(r, prefixes, c.kind, c.fields));
        CollisionsStayOnBoth(map[], prefixes, ms.0, Mentions(ms.1, c.kind, c.fields).0);
      }
    }
  }

  /** Resolution, exactly: after any calls every kind resolves to its own definition if and
      only if no kind mentioned in the descriptions collides with the names taken before
      it.  The mentions can be listed before any call is made. */
  lemma ResolvesExactly(prefixes: seq<string>, calls: seq<Origin>)
    ensures Resolves(RunCalls(prefixes, calls)) <==> NoCollision(prefixes, MentionsBy(calls).0)
  {
    ResolvesIfInjective(prefixes, calls);
    RunNames(prefixes, calls);
    RunsInParallel(prefixes, calls);
    InjectiveExactly(prefixes, MentionsBy(calls).0);
  }

  /** Then every reference in a definition is to the definition of the kind referred to. */
  lemma ReferencesResolve(prefixes: seq<string>, calls: seq<Origin>, n: string, i: nat)
    requires NoCollision(prefixes, MentionsBy(calls).0)
    requires var r := RunCalls(prefixes, calls);
      && n in r.origins && i < |r.origins[n].fields|
      && !Hidden(r.origins[n].fields[i].description) && KindIn(r.origins[n].fields[i].description).Some?
    ensures var r := RunCalls(prefixes, calls);
      var kind := KindIn(r.origins[n].fields[i].description).value;
      && kind in r.names && r.names[kind] in r.origins
      && r.origins[r.names[kind]].kind == kind
  {
    var r := RunCalls(prefixes, calls);
    RunsWell(prefixes, calls);
    ResolvesExactly(prefixes, calls);
    assert GoodModel(r, n);
    assert Known(r.origins[n].fields[i].description, r);
  }

  /** In particular when no kind is another behind a configured prefix. */
  lemma PrefixFreeResolves(prefixes: seq<string>, calls: seq<Origin>)
    requires PrefixFree(prefixes, RunCalls(prefixes, calls).names.Keys)
    ensures Resolves(RunCalls(prefixes, calls))
  {
    ResolvesIfInjective(prefixes, calls);
    RunsNameWell(prefixes, calls);
  }

  lemma {:induction false} CallIsThere(prefixes: seq<string>, calls: seq<Origin>, i: nat)
    requires i < |calls|
    ensures var r, kind := RunCalls(prefixes, calls), calls[i].kind;
      kind in r.names && r.names[kind] in r.models
    decreases |calls|
  {
    var pre, c := calls[..|calls| - 1], calls[|calls| - 1];
    RunsWell(prefixes, pre);
    LooksWell(RunCalls(prefixes, pre), prefixes, c.kind, c.fields);
    if i < |pre| { CallIsThere(prefixes, pre, i); }
  }

  /** A definition asked for by a call is there, and, if no lookup collided, was loaded for
      the kind asked for. */
  lemma CallsResolve(prefixes: seq<string>, calls: seq<Origin>, i: nat)
    requires i < |calls| && NoCollision(prefixes, MentionsBy(calls).0)
    ensures var r, kind := RunCalls(prefixes, calls), calls[i].kind;
      kind in r.names && r.names[kind] in r.origins && r.origins[r.names[kind]].kind == kind
  {
    CallIsThere(prefixes, calls, i);
    ResolvesExactly(prefixes, calls);
  }

  /** The first call for a name defines it by the description given, also when the kind
      occurs inside its own description. */
  lemma OutermostDescriptionWins(r: Registry, prefixes: seq<string>, kind: string, fields: seq<Field>)
    requires Good(r) && Named(r, prefixes, kind).names[kind] !in r.models
    ensures var (s, name) := Looked(r, prefixes, kind, fields);
      s.models[name] == Model(name, PropertiesOf(fields, s.names))
  {
    NamedWell(r, prefixes, kind);
    LoadsWell(Named(r, prefixes, kind), prefixes, fields);
  }

  /** Without that condition a reference can resolve to another kind's definition: with
      the prefix `p:`, the kinds `p:X` and `X`, in this order, share the name X. */
  lemma SharedNameResolvesWrongly(fields: seq<Field>)
    ensures var r := RunCalls(["p:"], [Origin("p:X", []), Origin("X", fields)]);
      && r.names == map["p:X" := "X", "X" := "X"]
      && r.origins == map["X" := Origin("p:X", [])]
  {
    var calls := [Origin("p:X", []), Origin("X", fields)];
    assert calls[..1] == [Origin("p:X", [])] && calls[..1][..0] == [];
    assert "p:" <= "p:X" && "p:X"[2..] == "X";
    assert RunCalls(["p:"], calls[..1]).names == map["p:X" := "X"];
    assert !("p:" <= "X");
  }
}
