/** The documents, notifications and cached state of the gateway, as values. */
module GatewayModel {
  import opened Wrappers
  import opened XenonActions

  datatype Status = UNAVAILABLE | PAUSED | AVAILABLE

  /** The fields of a GatewayConfigService.State; None is null. */
  datatype ConfigDoc = ConfigDoc(status: Option<Status>, forwardingUri: Option<string>, filterRequests: Option<bool>)

  /** The fields of a GatewayPathService.State. */
  datatype PathDoc = PathDoc(path: string, actions: Option<set<Action>>)

  /** One document of a continuous-query result: the whole document, the version it had
      and whether it was the update that deleted it. */
  datatype Notification =
    | ConfigNote(link: string, deleted: bool, version: nat, config: ConfigDoc)
    | PathNote(deleted: bool, version: nat, path: PathDoc)
    | OtherNote(kind: string)

  /** What the cache keeps of the configuration; -1 is the version of the seed. */
  datatype CachedConfig =
    CachedConfig(status: Status, forwardingUri: Option<string>, filterRequests: bool, version: int)

  datatype CachedPath = CachedPath(actions: set<Action>, version: nat)

  datatype View = View(config: CachedConfig, paths: map<string, CachedPath>)

  function GetOr<T>(o: Option<T>, default: T): T {
    if o.Some? then o.value else default
  }

  // ----- What a document means to the gateway -----

  /** The configuration a cache has before it hears of any, or after it was deleted. */
  function Seed(version: int): CachedConfig {
    CachedConfig(UNAVAILABLE, None, true, version)
  }

  /** A configuration document with defaults for what is null. */
  function Projected(doc: ConfigDoc, version: int): CachedConfig {
    CachedConfig(GetOr(doc.status, UNAVAILABLE), doc.forwardingUri, GetOr(doc.filterRequests, true), version)
  }

  /** No actions given, or none listed, allows all of them. */
  function Allowed(actions: Option<set<Action>>): set<Action> {
    if actions.None? || actions.value == {} then ALL_ACTIONS else actions.value
  }

  // ----- One notification -----

  function AbsorbConfig(c: CachedConfig, deleted: bool, version: nat, doc: ConfigDoc): CachedConfig {
    if c.version >= version then c
    else if deleted then Seed(version)
    else Projected(doc, version)
  }

  /** The entry of a path, before and after a notification for that path. */
  function AbsorbPath(e: Option<CachedPath>, deleted: bool, version: nat, doc: PathDoc): Option<CachedPath> {
    if e.Some? && e.value.version >= version then e
    else if deleted then None
    else Some(CachedPath(Allowed(doc.actions), version))
  }

  function EntryOf(v: View, p: string): Option<CachedPath> {
    if p in v.paths then Some(v.paths[p]) else None
  }

  function WithEntry(v: View, p: string, e: Option<CachedPath>): View {
    v.(paths := if e.Some? then v.paths[p := e.value] else v.paths - {p})
  }

  /** A cache that follows the configuration document `self` absorbs one notification. */
  function Absorb(self: string, v: View, n: Notification): View {
    match n
    case ConfigNote(link, deleted, version, doc) =>
      if link != self then v else v.(config := AbsorbConfig(v.config, deleted, version, doc))
    case PathNote(deleted, version, doc) =>
      WithEntry(v, doc.path, AbsorbPath(EntryOf(v, doc.path), deleted, version, doc))
    case OtherNote(_) => v
  }

  function AbsorbAll(self: string, v: View, ns: seq<Notification>): View
    decreases |ns|
  {
    if ns == [] then v
    else Absorb(self, AbsorbAll(self, v, ns[..|ns| - 1]), ns[|ns| - 1])
  }

  const START: View := View(Seed(-1), map[])

  lemma AbsorbMore(self: string, v: View, ns: seq<Notification>, n: Notification)
    ensures AbsorbAll(self, v, ns + [n]) == Absorb(self, AbsorbAll(self, v, ns), n)
  {
    assert (ns + [n])[..|ns|] == ns;
  }

  // ----- What a notification does, field by field -----

  /** A configuration notification takes the cache from `v` to `w`. */
  predicate TakesConfig(
    self: string, v: View, link: string, deleted: bool, version: nat, doc: ConfigDoc, w: View)
  {
    var c := w.config;
    && w.paths == v.paths
    && if link != self || version <= v.config.version then
         c == v.config
       else
         && c.version == version
         && (c.status == UNAVAILABLE <==> deleted || doc.status in {None, Some(UNAVAILABLE)})
         && (c.status == PAUSED <==> !deleted && doc.status == Some(PAUSED))
         && (c.status == AVAILABLE <==> !deleted && doc.status == Some(AVAILABLE))
         && c.forwardingUri == (if deleted then None else doc.forwardingUri)
         && (!c.filterRequests <==> !deleted && doc.filterRequests == Some(false))
  }

  lemma ConfigIsTaken(self: string, v: View, link: string, deleted: bool, version: nat, doc: ConfigDoc)
    ensures TakesConfig(self, v, link, deleted, version, doc, Absorb(self, v, ConfigNote(link, deleted, version, doc)))
  {
  }

  /** A path notification takes the cache from `v` to `w`: the actions cached are those the
      document gives, or all of them if it gives none. */
  ghost predicate TakesPath(v: View, deleted: bool, version: nat, doc: PathDoc, w: View) {
    var p := doc.path;
    && w.config == v.config
    && (forall q :: q != p ==> (q in w.paths <==> q in v.paths) && (q in v.paths ==> w.paths[q] == v.paths[q]))
    && if p in v.paths && version <= v.paths[p].version then p in w.paths && w.paths[p] == v.paths[p]
       else if deleted then p !in w.paths
       else
         && p in w.paths && w.paths[p].version == version
         && forall a :: a in w.paths[p].actions <==>
                          doc.actions.None? || doc.actions.value == {} || a in doc.actions.value
  }

  lemma AllActions(a: Action)
    ensures a in ALL_ACTIONS
  {
  }

  lemma PathIsTaken(self: string, v: View, deleted: bool, version: nat, doc: PathDoc)
    ensures TakesPath(v, deleted, version, doc, Absorb(self, v, PathNote(deleted, version, doc)))
  {
    forall a ensures a in ALL_ACTIONS { AllActions(a); }
  }
}
