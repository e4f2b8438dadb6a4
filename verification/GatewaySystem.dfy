/**
 The whole gateway: documents that are created, updated and deleted, the notifications
 each accepted step emits, and a cache that hears of them in any order and any number of
 times.  In every run the cache ends up deciding requests like the documents themselves.
 */
module GatewaySystem {
  import opened Wrappers
  import opened XenonActions
  import opened GatewayModel
  import opened GatewayConvergence
  import opened GatewayRequests
  import opened GatewayDocuments

  /** One accepted step of a document; its position in the log is the version it got. */
  datatype Event<T> = Stored(doc: T) | Deleted(doc: T)

  type Log<T> = seq<Event<T>>

  datatype System = System(
    configs: map<string, Log<ConfigDoc>>,
    paths: map<string, Log<PathDoc>>,
    delivered: seq<Notification>,
    cache: View)

  datatype Move =
    | StartConfig(link: string, configBody: Option<ConfigBody>)
    | UpdateConfig(link: string, configBody: Option<ConfigBody>)
    | DeleteConfig(link: string)
    | StartPath(pathBody: Option<PathBody>)
    | UpdatePath(path: string, pathBody: Option<PathBody>)
    | DeletePath(path: string)
    | Deliver(note: Notification)

  // ----- Logs -----

  function LogOf<T>(logs: map<string, Log<T>>, key: string): Log<T> {
    if key in logs then logs[key] else []
  }

  /** The document a log describes now. */
  function Current<T>(log: Log<T>): Option<T> {
    if log != [] && log[|log| - 1].Stored? then Some(log[|log| - 1].doc) else None
  }

  function Appended<T>(logs: map<string, Log<T>>, key: string, e: Event<T>): map<string, Log<T>> {
    logs[key := LogOf(logs, key) + [e]]
  }

  /** The log has this event at this version. */
  predicate Has<T(==)>(log: Log<T>, deleted: bool, version: nat, doc: T) {
    version < |log| && log[version] == if deleted then Deleted(doc) else Stored(doc)
  }

  /** A step of some document emitted this notification. */
  predicate Emitted(s: System, n: Notification) {
    match n
    case ConfigNote(link, deleted, version, doc) => Has(LogOf(s.configs, link), deleted, version, doc)
    case PathNote(deleted, version, doc) => Has(LogOf(s.paths, doc.path), deleted, version, doc)
    case OtherNote(_) => true
  }

  // ----- Moves -----

  /** One move, of a gateway that follows the configuration `self`.  A refused body, a
      start of a document that exists, an update or deletion of one that does not, and a
      delivery of what was never emitted all leave everything as it is. */
  function Next(self: string, merge: MergeSets, s: System, m: Move): System {
    match m
    case StartConfig(link, body) =>
      var r := StartedConfig(body);
      if Current(LogOf(s.configs, link)).Some? || r.Failure? then s
      else s.(configs := Appended(s.configs, link, Stored(r.value)))
    case UpdateConfig(link, body) =>
      var c := Current(LogOf(s.configs, link));
      if c.None? || UpdatedConfig(c.value, body).Failure? then s
      else s.(configs := Appended(s.configs, link, Stored(UpdatedConfig(c.value, body).value)))
    case DeleteConfig(link) =>
      var c := Current(LogOf(s.configs, link));
      if c.None? then s else s.(configs := Appended(s.configs, link, Deleted(c.value)))
    case StartPath(body) =>
      var r := StartedPath(body);
      if r.Failure? || Current(LogOf(s.paths, r.value.path)).Some? then s
      else s.(paths := Appended(s.paths, r.value.path, Stored(r.value)))
    case UpdatePath(path, body) =>
      var c := Current(LogOf(s.paths, path));
      if c.None? || CheckedUpdate(c.value, body).Some? || body.value.actions.None? then s
      else s.(paths := Appended(s.paths, path, Stored(UpdatedPath(c.value, body.value, merge))))
    case DeletePath(path) =>
      var c := Current(LogOf(s.paths, path));
      if c.None? then s else s.(paths := Appended(s.paths, path, Deleted(c.value)))
    case Deliver(n) =>
      if !Emitted(s, n) then s
      else s.(delivered := s.delivered + [n], cache := Absorb(self, s.cache, n))
  }

  const INITIALLY: System := System(map[], map[], [], START)

  function Run(self: string, merge: MergeSets, moves: seq<Move>): System
    decreases |moves|
  {
    if moves == [] then INITIALLY else Next(self, merge, Run(self, merge, moves[..|moves| - 1]), moves[|moves| - 1])
  }

  // ----- What a move does to a log -----

  /** The move is a step of the configuration at `link`, whose document is `c`, and `e` is
      what it leaves in the log. */
  predicate ConfigStep(c: Option<ConfigDoc>, m: Move, link: string, e: Event<ConfigDoc>) {
    match m
    case StartConfig(l, b) =>
      && l == link && c.None? && b.Some? && b.value.status.Given?
      && e.Stored? && Keeps(ConfigDoc(None, None, None), b.value, e.doc)
    case UpdateConfig(l, b) => l == link && c.Some? && b.Some? && e.Stored? && Keeps(c.value, b.value, e.doc)
    case DeleteConfig(l) => l == link && c.Some? && e == Deleted(c.value)
    case _ => false
  }

  predicate PathStep(c: Option<PathDoc>, m: Move, path: string, merge: MergeSets, e: Event<PathDoc>) {
    match m
    case StartPath(b) => c.None? && b.Some? && b.value.path == Some(path) && e == Stored(PathDoc(path, b.value.actions))
    case UpdatePath(p, b) =>
      && p == path && c.Some? && b.Some? && b.value.path in {None, Some(c.value.path)}
      && e.Stored? && Replaces(c.value, b.value, merge, e.doc)
    case DeletePath(p) => p == path && c.Some? && e == Deleted(c.value)
    case _ => false
  }

  /** A move appends to the log of a configuration what it is as a step of it, and nothing
      if it is none. */
  lemma ConfigStepIsLogged(self: string, merge: MergeSets, s: System, m: Move, link: string)
    ensures var log, log' := LogOf(s.configs, link), LogOf(Next(self, merge, s, m).configs, link);
      && (forall e :: ConfigStep(Current(log), m, link, e) ==> log' == log + [e])
      && (log' != log ==> exists e :: ConfigStep(Current(log), m, link, e))
  {
    var log, log' := LogOf(s.configs, link), LogOf(Next(self, merge, s, m).configs, link);
    if log' != log { assert ConfigStep(Current(log), m, link, log'[|log|]); }
  }

  lemma PathStepIsLogged(self: string, merge: MergeSets, s: System, m: Move, path: string)
    ensures var log, log' := LogOf(s.paths, path), LogOf(Next(self, merge, s, m).paths, path);
      && (forall e :: PathStep(Current(log), m, path, merge, e) ==> log' == log + [e])
      && (log' != log ==> exists e :: PathStep(Current(log), m, path, merge, e))
  {
    var log, log' := LogOf(s.paths, path), LogOf(Next(self, merge, s, m).paths, path);
    if log' != log { assert PathStep(Current(log), m, path, merge, log'[|log|]); }
  }

  // ----- What every run keeps -----

  ghost predicate Invariant(self: string, s: System) {
    && s.cache == AbsorbAll(self, START, s.delivered)
    && (forall i :: 0 <= i < |s.delivered| ==> Emitted(s, s.delivered[i]))
    && (forall k, i :: k in s.configs && 0 <= i < |s.configs[k]| ==> s.configs[k][i].doc.status.Some?)
    && (forall k, i :: k in s.paths && 0 <= i < |s.paths[k]| ==> s.paths[k][i].doc.path == k)
  }

  /** What was emitted stays emitted: logs only grow. */
  predicate Grows<T(==)>(a: map<string, Log<T>>, b: map<string, Log<T>>) {
    forall k :: k in a ==> a[k] <= LogOf(b, k)
  }

  lemma StaysEmitted(s: System, s': System, n: Notification)
    requires Grows(s.configs, s'.configs) && Grows(s.paths, s'.paths) && Emitted(s, n)
    ensures Emitted(s', n)
  {
  }

  lemma MoveGrows(self: string, merge: MergeSets, s: System, m: Move)
    ensures Grows(s.configs, Next(self, merge, s, m).configs) && Grows(s.paths, Next(self, merge, s, m).paths)
  {
  }

  lemma MoveKeepsDocuments(self: string, merge: MergeSets, s: System, m: Move)
    requires Invariant(self, s)
    ensures var s' := Next(self, merge, s, m);
      && (forall k, i :: k in s'.configs && 0 <= i < |s'.configs[k]| ==> s'.configs[k][i].doc.status.Some?)
      && (forall k, i :: k in s'.paths && 0 <= i < |s'.paths[k]| ==> s'.paths[k][i].doc.path == k)
  {
  }

  lemma MoveKeeps(self: string, merge: MergeSets, s: System, m: Move)
    requires Invariant(self, s)
    ensures Invariant(self, Next(self, merge, s, m))
  {
    var s' := Next(self, merge, s, m);
    MoveGrows(self, merge, s, m);
    MoveKeepsDocuments(self, merge, s, m);
    forall i | 0 <= i < |s'.delivered| ensures Emitted(s', s'.delivered[i]) {
      if i < |s.delivered| { StaysEmitted(s, s', s.delivered[i]); }
    }
    if m.Deliver? { AbsorbMore(self, START, s.delivered, m.note); }
  }

  lemma {:induction false} RunKeeps(self: string, merge: MergeSets, moves: seq<Move>)
    ensures Invariant(self, Run(self, merge, moves))
    decreases |moves|
  {
    if moves != [] {
      RunKeeps(self, merge, moves[..|moves| - 1]);
      MoveKeeps(self, merge, Run(self, merge, moves[..|moves| - 1]), moves[|moves| - 1]);
    }
  }

  // ----- Caught up -----

  /** The latest notification of the log was delivered. */
  predicate ConfigHeard(self: string, s: System) {
    var log := LogOf(s.configs, self);
    log != [] ==>
      ConfigNote(self, log[|log| - 1].Deleted?, |log| - 1, log[|log| - 1].doc) in s.delivered
  }

  predicate PathHeard(s: System, p: string) {
    var log := LogOf(s.paths, p);
    log != [] ==> PathNote(log[|log| - 1].Deleted?, |log| - 1, log[|log| - 1].doc) in s.delivered
  }

  /** The latest notifications can always be delivered, and then have been heard. */
  lemma CatchesUp(self: string, merge: MergeSets, s: System, p: string)
    ensures var log := LogOf(s.configs, self);
      log != [] ==>
        ConfigHeard(self, Next(self, merge, s,
                               Deliver(ConfigNote(self, log[|log| - 1].Deleted?, |log| - 1, log[|log| - 1].doc))))
    ensures var log := LogOf(s.paths, p);
      log != [] && log[|log| - 1].doc.path == p ==>
        PathHeard(Next(self, merge, s,
                       Deliver(PathNote(log[|log| - 1].Deleted?, |log| - 1, log[|log| - 1].doc))), p)
  {
  }

  /** If the path is deleted now, every update of it that was delivered was followed by
      the delivery of a deletion of a higher version. */
  ghost predicate PathSettled(s: System, p: string) {
    Current(LogOf(s.paths, p)).Some? || EachUpdateDeletedLater(p, s.delivered)
  }

  /** The configuration as the document says it, with defaults. */
  function TrueConfig(self: string, s: System): CachedConfig {
    var log := LogOf(s.configs, self);
    var c := Current(log);
    if c.Some? then Projected(c.value, |log| - 1) else Seed(|log| - 1)
  }

  /** The entry of a path as its document says it. */
  function TrueEntry(s: System, p: string): Option<CachedPath> {
    var log := LogOf(s.paths, p);
    var c := Current(log);
    if c.Some? then Some(CachedPath(Allowed(c.value.actions), |log| - 1)) else None
  }

  lemma CachedConfigIsTrue(self: string, s: System)
    requires Invariant(self, s) && ConfigHeard(self, s)
    ensures s.cache.config == TrueConfig(self, s)
  {
    var log, ns := LogOf(s.configs, self), s.delivered;
    var h := ConfigIsFirstHighest(self, ns);
    if NoConfigFor(self, ns) {
      assert log == [];
    } else {
      assert Emitted(s, ns[h]);
      var last := ConfigNote(self, log[|log| - 1].Deleted?, |log| - 1, log[|log| - 1].doc);
      var i :| 0 <= i < |ns| && ns[i] == last;
      assert IsConfigFor(ns[i], self);
      assert ns[h].version == |log| - 1;
    }
  }

  lemma DeliveredPathsConsistent(self: string, s: System, p: string)
    requires Invariant(self, s)
    ensures ConsistentPath(p, s.delivered)
    ensures forall i :: 0 <= i < |s.delivered| && IsNoteOf(s.delivered[i], p) ==>
                          Has(LogOf(s.paths, p), s.delivered[i].deleted, s.delivered[i].version, s.delivered[i].path)
  {
    forall i | 0 <= i < |s.delivered| && IsNoteOf(s.delivered[i], p)
      ensures Has(LogOf(s.paths, p), s.delivered[i].deleted, s.delivered[i].version, s.delivered[i].path)
    {
      assert Emitted(s, s.delivered[i]);
    }
  }

  /** The cached entry of a path is the true one exactly when the path has settled. */
  lemma CachedEntryIsTrueExactly(self: string, s: System, p: string)
    requires Invariant(self, s) && PathHeard(s, p)
    ensures EntryOf(s.cache, p) == TrueEntry(s, p) <==> PathSettled(s, p)
  {
    var log, ns := LogOf(s.paths, p), s.delivered;
    DeliveredPathsConsistent(self, s, p);
    if log == [] {
      assert forall i :: 0 <= i < |ns| ==> !IsNoteOf(ns[i], p);
      PathIsHighestSurvivor(self, p, ns);
    } else {
      var last := PathNote(log[|log| - 1].Deleted?, |log| - 1, log[|log| - 1].doc);
      var h :| 0 <= h < |ns| && ns[h] == last;
      assert IsNoteOf(ns[h], p) by { assert s.paths[p][|log| - 1].doc.path == p; }
      assert IsHighest(p, ns, h);
      PathConvergesExactly(self, p, ns, h);
    }
  }

  /** Without late updates every path whose latest notification was delivered settles. */
  lemma SettlesWithoutLateUpdates(self: string, s: System, p: string)
    requires Invariant(self, s) && PathHeard(s, p) && NoLateUpdate(p, s.delivered)
    ensures PathSettled(s, p)
  {
  }

  // ----- Agreement -----

  /** The document lists the action, or none at all. */
  predicate Permits(d: PathDoc, action: Action) {
    d.actions.None? || d.actions.value == {} || action in d.actions.value
  }

  /** The outcome computed from the documents alone. */
  function TrueOutcome(r: Request, parent: ParentOf, config: Option<ConfigDoc>, doc: string -> Option<PathDoc>): Outcome
  {
    if r.path in {"", "/"} then Local
    else if config.None? || config.value.status in {None, Some(UNAVAILABLE)} then Unavailable
    else
      var p := if doc(r.path).Some? then Some(r.path) else parent(r.path);
      var d := if p.Some? then doc(p.value) else None;
      if config.value.filterRequests != Some(false) && d.None? then NotFound(p)
      else if config.value.filterRequests != Some(false) && !Permits(d.value, r.action) then
        NotAllowed(r.action, p)
      else if config.value.status == Some(PAUSED) then Paused
      else if config.value.forwardingUri.None? then Unavailable
      else Forward(config.value.forwardingUri.value)
  }

  function DocumentOf(s: System): string -> Option<PathDoc> {
    p => Current(LogOf(s.paths, p))
  }

  /** The entry of a path says what its document says. */
  predicate EntrySays(v: View, p: string, d: Option<PathDoc>) {
    && (p in v.paths <==> d.Some?)
    && (d.Some? ==> forall a: Action :: a in v.paths[p].actions <==> Permits(d.value, a))
  }

  lemma TrueEntrySays(s: System, v: View, p: string)
    requires EntryOf(v, p) == TrueEntry(s, p)
    ensures EntrySays(v, p, Current(LogOf(s.paths, p)))
  {
    forall a ensures a in ALL_ACTIONS { AllActions(a); }
  }

  lemma DecidesAlike(r: Request, parent: ParentOf, v: View, config: Option<ConfigDoc>, doc: string -> Option<PathDoc>)
    requires v.config == if config.Some? then Projected(config.value, v.config.version) else Seed(v.config.version)
    requires EntrySays(v, r.path, doc(r.path))
    requires parent(r.path).Some? ==> EntrySays(v, parent(r.path).value, doc(parent(r.path).value))
    ensures Decide(r, parent, v) == TrueOutcome(r, parent, config, doc)
  {
  }

  /** End-to-end agreement: in every run, once the latest notification of the default
      configuration and of the request's path and its parent have been delivered, and both
      paths have settled, the gateway decides the request like the documents do. */
  lemma DecidesLikeTheDocuments(self: string, merge: MergeSets, moves: seq<Move>, r: Request, parent: ParentOf)
    requires var s := Run(self, merge, moves);
      && ConfigHeard(self, s)
      && PathHeard(s, r.path) && PathSettled(s, r.path)
      && (parent(r.path).Some? ==> PathHeard(s, parent(r.path).value) && PathSettled(s, parent(r.path).value))
    ensures var s := Run(self, merge, moves);
      Decide(r, parent, s.cache) == TrueOutcome(r, parent, Current(LogOf(s.configs, self)), DocumentOf(s))
  {
    var s := Run(self, merge, moves);
    RunKeeps(self, merge, moves);
    CachedConfigIsTrue(self, s);
    CachedEntryIsTrueExactly(self, s, r.path);
    TrueEntrySays(s, s.cache, r.path);
    if parent(r.path).Some? {
      CachedEntryIsTrueExactly(self, s, parent(r.path).value);
      TrueEntrySays(s, s.cache, parent(r.path).value);
    }
    DecidesAlike(r, parent, s.cache, Current(LogOf(s.configs, self)), DocumentOf(s));
  }

  /** The same under a condition on the deliveries alone: no update of the path or of its
      parent arrives after a deletion of a higher version. */
  lemma DecidesWithoutLateUpdates(self: string, merge: MergeSets, moves: seq<Move>, r: Request, parent: ParentOf)
    requires var s := Run(self, merge, moves);
      && ConfigHeard(self, s)
      && PathHeard(s, r.path) && NoLateUpdate(r.path, s.delivered)
      && (parent(r.path).Some? ==>
            PathHeard(s, parent(r.path).value) && NoLateUpdate(parent(r.path).value, s.delivered))
    ensures var s := Run(self, merge, moves);
      Decide(r, parent, s.cache) == TrueOutcome(r, parent, Current(LogOf(s.configs, self)), DocumentOf(s))
  {
    var s := Run(self, merge, moves);
    RunKeeps(self, merge, moves);
    SettlesWithoutLateUpdates(self, s, r.path);
    if parent(r.path).Some? { SettlesWithoutLateUpdates(self, s, parent(r.path).value); }
    DecidesLikeTheDocuments(self, merge, moves, r, parent);
  }
}
