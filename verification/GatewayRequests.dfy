/**
 How the gateway decides a request: as the code runs it, with one locked read of the
 cache after another; as a machine whose reads may see different states of the cache;
 and as one decision on one state.
 */
module GatewayRequests {
  import opened Wrappers
  import opened XenonActions
  import opened GatewayModel
  import opened GatewayCaching

  datatype Request = Request(path: string, action: Action)

  /** UriUtils.getParentPath, which may return null. */
  type ParentOf = string -> Option<string>

  datatype Outcome =
    | Local                                              // the gateway endpoint itself
    | Unavailable                                        // 503
    | Paused                                             // 503
    | NotFound(path: Option<string>)                     // 404
    | NotAllowed(action: Action, path: Option<string>)   // 405
    | Forward(uri: string)

  // ----- The decision on one state -----

  function Lookup(v: View, p: Option<string>): Option<set<Action>> {
    if p.Some? && p.value in v.paths then Some(v.paths[p.value].actions) else None
  }

  /** The path whose entry governs a request: its own if there is one, else its parent. */
  function Governing(r: Request, parent: ParentOf, v: View): Option<string> {
    if r.path in v.paths then Some(r.path) else parent(r.path)
  }

  function Decide(r: Request, parent: ParentOf, v: View): Outcome {
    var p := Governing(r, parent, v);
    var c := v.config;
    if r.path in {"", "/"} then Local
    else if c.status == UNAVAILABLE then Unavailable
    else if c.filterRequests && Lookup(v, p).None? then NotFound(p)
    else if c.filterRequests && r.action !in Lookup(v, p).value then NotAllowed(r.action, p)
    else if c.status == PAUSED then Paused
    else if c.forwardingUri.None? then Unavailable
    else Forward(c.forwardingUri.value)
  }

  // ----- The code -----

  class GatewayService {
    const cache: GatewayCache
    const parentOf: ParentOf

    constructor (c: GatewayCache, parent: ParentOf)
      ensures cache == c && parentOf == parent
    {
      cache, parentOf := c, parent;
    }

    /** handleRequest, when nothing else touches the cache. */
    method HandleRequest(op: Request) returns (o: Outcome)
      ensures o == Decide(op, parentOf, cache.CachedView())
    {
      var path := Some(op.path);
      if op.path == "" || op.path == "/" {
        return Local;
      }
      var status := cache.GetGatewayStatus();
      if status == UNAVAILABLE {
        return Unavailable;
      }
      var filter := cache.FilterRequests();
      if filter {
        var actions := cache.GetSupportedActions(path);
        if actions.None? {
          path := parentOf(op.path);
          actions := cache.GetSupportedActions(path);
          if actions.None? {
            return NotFound(path);
          }
        }
        if op.action !in actions.value {
          return NotAllowed(op.action, path);
        }
      }
      status := cache.GetGatewayStatus();
      if status == PAUSED {
        return Paused;
      }
      var nodeAddress := cache.GetForwardingUri();
      if nodeAddress.None? {
        return Unavailable;
      }
      o := Forward(nodeAddress.value);
    }
  }

  // ----- Read by read -----

  /** The next read of a request, or how it ended. */
  datatype Progress = AtStatus | AtFilter | AtExact | AtParent | AtPaused | AtUri | Done(outcome: Outcome)

  function Begin(r: Request): Progress {
    if r.path == "" || r.path == "/" then Done(Local) else AtStatus
  }

  function Checked(r: Request, path: Option<string>, actions: set<Action>): Progress {
    if r.action in actions then AtPaused else Done(NotAllowed(r.action, path))
  }

  /** One locked read, with the cache in state `v`. */
  function ReadOnce(r: Request, parent: ParentOf, g: Progress, v: View): Progress {
    match g
    case AtStatus => if v.config.status == UNAVAILABLE then Done(Unavailable) else AtFilter
    case AtFilter => if v.config.filterRequests then AtExact else AtPaused
    case AtExact =>
      var a := Lookup(v, Some(r.path));
      if a.None? then AtParent else Checked(r, Some(r.path), a.value)
    case AtParent =>
      var a := Lookup(v, parent(r.path));
      if a.None? then Done(NotFound(parent(r.path))) else Checked(r, parent(r.path), a.value)
    case AtPaused => if v.config.status == PAUSED then Done(Paused) else AtUri
    case AtUri => Done(if v.config.forwardingUri.None? then Unavailable else Forward(v.config.forwardingUri.value))
    case Done(_) => g
  }

  /** A request being handled while other threads update the cache: each step makes one
      call of a locked getter, and is `ReadOnce` on the state it finds. */
  class RequestInFlight {
    const op: Request
    const parentOf: ParentOf
    var at: Progress

    constructor (r: Request, parent: ParentOf)
      ensures op == r && parentOf == parent && at == Begin(r)
    {
      op, parentOf := r, parent;
      at := if r.path == "" || r.path == "/" then Done(Local) else AtStatus;
    }

    method Step(cache: GatewayCache)
      modifies this
      ensures at == ReadOnce(op, parentOf, old(at), cache.CachedView())
    {
      match at
      case AtStatus =>
        var status := cache.GetGatewayStatus();
        at := if status == UNAVAILABLE then Done(Unavailable) else AtFilter;
      case AtFilter =>
        var filter := cache.FilterRequests();
        at := if filter then AtExact else AtPaused;
      case AtExact =>
        var actions := cache.GetSupportedActions(Some(op.path));
        at := if actions.None? then AtParent else Checked(op, Some(op.path), actions.value);
      case AtParent =>
        var path := parentOf(op.path);
        var actions := cache.GetSupportedActions(path);
        at := if actions.None? then Done(NotFound(path)) else Checked(op, path, actions.value);
      case AtPaused =>
        var status := cache.GetGatewayStatus();
        at := if status == PAUSED then Done(Paused) else AtUri;
      case AtUri =>
        var nodeAddress := cache.GetForwardingUri();
        at := Done(if nodeAddress.None? then Unavailable else Forward(nodeAddress.value));
      case Done(_) =>
    }
  }

  /** Where a request is after reads that saw the states `vs`. */
  function After(r: Request, parent: ParentOf, vs: seq<View>): Progress
    decreases |vs|
  {
    if vs == [] then Begin(r) else ReadOnce(r, parent, After(r, parent, vs[..|vs| - 1]), vs[|vs| - 1])
  }

  function Rank(g: Progress): nat {
    match g
    case AtStatus => 6
    case AtFilter => 5
    case AtExact => 4
    case AtParent => 3
    case AtPaused => 2
    case AtUri => 1
    case Done(_) => 0
  }

  /** A request ends after at most six reads. */
  lemma {:induction false} EndsInSixReads(r: Request, parent: ParentOf, vs: seq<View>)
    ensures Rank(After(r, parent, vs)) + |vs| <= 6 || After(r, parent, vs).Done?
    decreases |vs|
  {
    if vs != [] { EndsInSixReads(r, parent, vs[..|vs| - 1]); }
  }

  /** The decision a request will reach from `g` if the cache stays as it is. */
  function Remaining(r: Request, parent: ParentOf, g: Progress, v: View): Outcome
    decreases Rank(g)
  {
    if g.Done? then g.outcome else Remaining(r, parent, ReadOnce(r, parent, g, v), v)
  }

  /** Read by read on an unchanging cache is the decision on that state. */
  lemma RemainingFromStart(r: Request, parent: ParentOf, v: View)
    ensures Remaining(r, parent, Begin(r), v) == Decide(r, parent, v)
  {
    assert Remaining(r, parent, AtUri, v) == Remaining(r, parent, ReadOnce(r, parent, AtUri, v), v);
    assert Remaining(r, parent, AtPaused, v) == Remaining(r, parent, ReadOnce(r, parent, AtPaused, v), v);
    assert Remaining(r, parent, AtParent, v) == Remaining(r, parent, ReadOnce(r, parent, AtParent, v), v);
    assert Remaining(r, parent, AtExact, v) == Remaining(r, parent, ReadOnce(r, parent, AtExact, v), v);
    assert Remaining(r, parent, AtFilter, v) == Remaining(r, parent, ReadOnce(r, parent, AtFilter, v), v);
    assert Remaining(r, parent, AtStatus, v) == Remaining(r, parent, ReadOnce(r, parent, AtStatus, v), v);
  }

  // ----- Interference -----

  /** Between any two reads the cache may absorb any notifications. */
  ghost predicate Evolves(self: string, v: View, v': View) {
    exists ns :: v' == AbsorbAll(self, v, ns)
  }

  ghost predicate Evolving(self: string, vs: seq<View>) {
    forall i :: 0 <= i < |vs| - 1 ==> Evolves(self, vs[i], vs[i + 1])
  }

  lemma {:induction false} VersionsGrow(self: string, v: View, ns: seq<Notification>)
    ensures var v' := AbsorbAll(self, v, ns);
      && v.config.version <= v'.config.version
      && (v.config.version == v'.config.version ==> v'.config == v.config)
    decreases |ns|
  {
    if ns != [] { VersionsGrow(self, v, ns[..|ns| - 1]); }
  }

  /** The versions a request sees never decrease, and reads that see the same version see
      the same configuration. */
  lemma {:induction false} VersionsSeen(self: string, vs: seq<View>, i: nat, j: nat)
    requires Evolving(self, vs) && i <= j < |vs|
    ensures vs[i].config.version <= vs[j].config.version
    ensures vs[i].config.version == vs[j].config.version ==> vs[i].config == vs[j].config
    decreases j
  {
    if i < j {
      VersionsSeen(self, vs, i, j - 1);
      var ns :| vs[j - 1 + 1] == AbsorbAll(self, vs[j - 1], ns);
      VersionsGrow(self, vs[j - 1], ns);
    }
  }

  /** The reads `vs` take the request to its end, the last one ending it. */
  predicate Ends(r: Request, parent: ParentOf, vs: seq<View>) {
    vs != [] && After(r, parent, vs).Done? && !After(r, parent, vs[..|vs| - 1]).Done?
  }

  /** The request's own path did not turn up between the lookup that missed it and the
      lookup of its parent. */
  predicate StablePath(r: Request, vs: seq<View>) {
    |vs| > 3 && vs[0].config.filterRequests && r.path !in vs[2].paths ==> r.path !in vs[3].paths
  }

  /** Which read is which: the exact lookup is the third, the parent lookup the fourth,
      and that one happens only when the third found nothing. */
  lemma {:induction false} ReadPositions(r: Request, parent: ParentOf, vs: seq<View>)
    ensures var g := After(r, parent, vs);
      && (g.AtStatus? ==> |vs| == 0)
      && (g.AtFilter? ==> |vs| == 1)
      && (g.AtExact? ==> |vs| == 2 && vs[1].config.filterRequests)
      && (g.AtParent? ==> |vs| == 3 && vs[1].config.filterRequests && r.path !in vs[2].paths)
    decreases |vs|
  {
    if vs != [] {
      ReadPositions(r, parent, vs[..|vs| - 1]);
      if |vs| == 2 { ReadPositions(r, parent, vs[..1]); }
    }
  }

  /** The read whose state decides: the lookup that found the governing entry. */
  function DecidingRead(r: Request, vs: seq<View>): nat {
    if |vs| > 3 && vs[0].config.filterRequests && r.path !in vs[2].paths then 3
    else if |vs| > 2 then 2
    else 0
  }

  predicate SameConfig(vs: seq<View>) {
    forall j :: 0 <= j < |vs| ==> vs[j].config == vs[0].config
  }

  function Without(v: View, path: string): View {
    v.(paths := v.paths - {path})
  }

  /** The state the outcome is the decision on: the one the deciding read saw, but without
      the request's own entry when that turned up after it was looked for.  (If the path is
      its own parent, the second lookup finds it after all.) */
  function DecidingState(r: Request, parent: ParentOf, vs: seq<View>): View
    requires vs != []
  {
    var v := vs[DecidingRead(r, vs)];
    if StablePath(r, vs) || parent(r.path) == Some(r.path) then v else Without(v, r.path)
  }

  /** Every read leads to where it would have led on the deciding state. */
  lemma ReadsAlike(r: Request, parent: ParentOf, vs: seq<View>, j: nat)
    requires SameConfig(vs) && j < |vs|
    ensures var g, v := After(r, parent, vs[..j]), DecidingState(r, parent, vs);
      Remaining(r, parent, ReadOnce(r, parent, g, vs[j]), v) == Remaining(r, parent, g, v)
  {
    ReadPositions(r, parent, vs[..j]);
    var g, k := After(r, parent, vs[..j]), DecidingRead(r, vs);
    assert vs[j].config == vs[k].config;
    if g.AtParent? { assert vs[..j][1] == vs[1] && vs[..j][2] == vs[2]; }
    if g.AtExact? { assert vs[..j][1] == vs[1]; }
  }

  lemma {:induction false} EndsAsDecided(r: Request, parent: ParentOf, vs: seq<View>, n: nat)
    requires vs != [] && SameConfig(vs) && n <= |vs|
    ensures var v := DecidingState(r, parent, vs);
      Remaining(r, parent, After(r, parent, vs[..n]), v) == Decide(r, parent, v)
    decreases n
  {
    if n == 0 {
      RemainingFromStart(r, parent, DecidingState(r, parent, vs));
    } else {
      EndsAsDecided(r, parent, vs, n - 1);
      ReadsAlike(r, parent, vs, n - 1);
      assert vs[..n][..n - 1] == vs[..n - 1];
    }
  }

  lemma OneVersionOneConfig(self: string, vs: seq<View>)
    requires Evolving(self, vs) && vs != [] && vs[0].config.version == vs[|vs| - 1].config.version
    ensures SameConfig(vs)
  {
    forall j | 0 <= j < |vs| ensures vs[j].config == vs[0].config {
      VersionsSeen(self, vs, 0, j);
      VersionsSeen(self, vs, j, |vs| - 1);
    }
  }

  /** Interleaved requests: if the first and the last read of a request see the same
      version, the outcome is the decision on the deciding state. */
  lemma DecidesOnOneState(r: Request, parent: ParentOf, self: string, vs: seq<View>)
    requires Evolving(self, vs) && Ends(r, parent, vs)
    requires vs[0].config.version == vs[|vs| - 1].config.version
    ensures After(r, parent, vs).outcome == Decide(r, parent, DecidingState(r, parent, vs))
  {
    OneVersionOneConfig(self, vs);
    EndsAsDecided(r, parent, vs, |vs|);
    assert vs[..|vs|] == vs;
  }

  predicate Allows(actions: Option<set<Action>>, action: Action) {
    actions.Some? && action in actions.value
  }

  /** What the second lookup found decides like what governs the request in read `i`'s
      state: either both allow the action, or neither does, for the same reason and with
      the parent governing. */
  predicate AgreesAt(r: Request, parent: ParentOf, vs: seq<View>, i: nat)
    requires |vs| > 3 && i < |vs|
  {
    var found := Lookup(vs[3], parent(r.path));
    if Allows(found, r.action) then
      Allows(Lookup(vs[i], Governing(r, parent, vs[i])), r.action)
    else
      && r.path !in vs[i].paths
      && !Allows(Lookup(vs[i], parent(r.path)), r.action)
      && Lookup(vs[i], parent(r.path)).None? == found.None?
  }

  /** A request that is not done was not done before. */
  lemma {:induction false} NotDoneBefore(r: Request, parent: ParentOf, vs: seq<View>, n: nat)
    requires n <= |vs| && !After(r, parent, vs).Done?
    ensures !After(r, parent, vs[..n]).Done?
    decreases |vs|
  {
    if n < |vs| {
      NotDoneBefore(r, parent, vs[..|vs| - 1], n);
      assert vs[..|vs| - 1][..n] == vs[..n];
    } else {
      assert vs[..n] == vs;
    }
  }

  /** A request that makes a second read is not for the gateway itself, and the first did
      not find the gateway unavailable. */
  lemma PastTheStatus(r: Request, parent: ParentOf, vs: seq<View>)
    requires Ends(r, parent, vs) && |vs| > 1
    ensures r.path != "" && r.path != "/" && vs[0].config.status != UNAVAILABLE
  {
    var pre := vs[..|vs| - 1];
    NotDoneBefore(r, parent, pre, 0);
    NotDoneBefore(r, parent, pre, 1);
    assert pre[..1][..0] == [] && pre[..0] == [];
  }

  /** The path turned up between the two lookups, and is not its own parent. */
  predicate Missed(r: Request, parent: ParentOf, vs: seq<View>) {
    !StablePath(r, vs) && parent(r.path) != Some(r.path)
  }

  /** For a request whose path turned up too late: the outcome is the decision on the state
      of a read if and only if the parent's entry decides alike with what governs there. */
  lemma AgreesExactly(r: Request, parent: ParentOf, self: string, vs: seq<View>, i: nat)
    requires Evolving(self, vs) && Ends(r, parent, vs) && Missed(r, parent, vs) && i < |vs|
    requires vs[0].config.version == vs[|vs| - 1].config.version
    ensures After(r, parent, vs).outcome == Decide(r, parent, vs[i]) <==> AgreesAt(r, parent, vs, i)
  {
    OneVersionOneConfig(self, vs);
    DecidesOnOneState(r, parent, self, vs);
    PastTheStatus(r, parent, vs);
    assert vs[i].config == vs[0].config == vs[3].config;
    assert Lookup(Without(vs[3], r.path), parent(r.path)) == Lookup(vs[3], parent(r.path));
  }

  /** When a request acts at one instant, exactly: under one version, its outcome is the
      decision on some state it saw if and only if the path did not turn up between the
      two lookups, or is its own parent, or what the second lookup found decides like what
      governs the request in one of those states. */
  lemma ActsAtOneInstantExactly(r: Request, parent: ParentOf, self: string, vs: seq<View>)
    requires Evolving(self, vs) && Ends(r, parent, vs)
    requires vs[0].config.version == vs[|vs| - 1].config.version
    ensures (exists i :: 0 <= i < |vs| && After(r, parent, vs).outcome == Decide(r, parent, vs[i])) <==>
            Missed(r, parent, vs) ==> exists i :: 0 <= i < |vs| && AgreesAt(r, parent, vs, i)
  {
    if Missed(r, parent, vs) {
      forall i | 0 <= i < |vs|
        ensures After(r, parent, vs).outcome == Decide(r, parent, vs[i]) <==> AgreesAt(r, parent, vs, i)
      {
        AgreesExactly(r, parent, self, vs, i);
      }
    } else {
      DecidesOnOneState(r, parent, self, vs);
    }
  }

  /** In particular, while the path does not turn up between the lookups. */
  lemma ActsAtOneInstant(r: Request, parent: ParentOf, self: string, vs: seq<View>)
    requires Evolving(self, vs) && Ends(r, parent, vs) && StablePath(r, vs)
    requires vs[0].config.version == vs[|vs| - 1].config.version
    ensures After(r, parent, vs).outcome == Decide(r, parent, vs[DecidingRead(r, vs)])
  {
    DecidesOnOneState(r, parent, self, vs);
  }

  /** When the path did turn up, the outcome is still the decision at the lookup that missed
      it if and only if the parent's entry decided alike at both lookups. */
  lemma ActsWhenMissed(r: Request, parent: ParentOf, self: string, vs: seq<View>)
    requires Evolving(self, vs) && Ends(r, parent, vs) && Missed(r, parent, vs)
    requires vs[0].config.version == vs[|vs| - 1].config.version
    ensures var before, after := Lookup(vs[2], parent(r.path)), Lookup(vs[3], parent(r.path));
      After(r, parent, vs).outcome == Decide(r, parent, vs[2]) <==>
      before.None? == after.None? && Allows(before, r.action) == Allows(after, r.action)
  {
    AgreesExactly(r, parent, self, vs, 2);
  }

  /** And it is the decision at the lookup of the parent if and only if the path's own
      entry and the parent's both allow the action there. */
  lemma ActsWhenBothAllow(r: Request, parent: ParentOf, self: string, vs: seq<View>)
    requires Evolving(self, vs) && Ends(r, parent, vs) && Missed(r, parent, vs)
    requires vs[0].config.version == vs[|vs| - 1].config.version
    ensures After(r, parent, vs).outcome == Decide(r, parent, vs[3]) <==>
            Allows(Lookup(vs[3], Some(r.path)), r.action) && Allows(Lookup(vs[3], parent(r.path)), r.action)
  {
    AgreesExactly(r, parent, self, vs, 3);
  }

  lemma EvolvesByTwo(self: string, v: View, m: Notification, n: Notification, w: View)
    requires w == Absorb(self, Absorb(self, v, m), n)
    ensures Evolves(self, v, w)
  {
    AbsorbMore(self, v, [], m);
    AbsorbMore(self, v, [m], n);
    assert [] + [m] == [m] && [m] + [n] == [m, n];
    assert w == AbsorbAll(self, v, [m, n]);
  }

  lemma EvolvesToItself(self: string, v: View)
    ensures Evolves(self, v, v)
  {
    assert v == AbsorbAll(self, v, []);
  }

  lemma AfterOneMore(r: Request, parent: ParentOf, vs: seq<View>, v: View)
    ensures After(r, parent, vs + [v]) == ReadOnce(r, parent, After(r, parent, vs), v)
  {
    assert (vs + [v])[..|vs|] == vs;
  }

  lemma AfterOne(r: Request, parent: ParentOf, v: View)
    ensures After(r, parent, [v]) == ReadOnce(r, parent, Begin(r), v)
  {
    AfterOneMore(r, parent, [], v);
    assert [] + [v] == [v];
  }

  lemma AfterTwo(r: Request, parent: ParentOf, v: View)
    ensures After(r, parent, [v, v]) == ReadOnce(r, parent, After(r, parent, [v]), v)
  {
    AfterOneMore(r, parent, [v], v);
    assert [v] + [v] == [v, v];
  }

  lemma AfterThree(r: Request, parent: ParentOf, v: View)
    ensures After(r, parent, [v, v, v]) == ReadOnce(r, parent, After(r, parent, [v, v]), v)
  {
    AfterOneMore(r, parent, [v, v], v);
    assert [v, v] + [v] == [v, v, v];
  }

  /** Three reads of one state and a fourth of another. */
  lemma AfterFour(r: Request, parent: ParentOf, v: View, w: View)
    ensures After(r, parent, [v, v, v]) ==
            ReadOnce(r, parent, ReadOnce(r, parent, ReadOnce(r, parent, Begin(r), v), v), v)
    ensures After(r, parent, [v, v, v, w]) == ReadOnce(r, parent, After(r, parent, [v, v, v]), w)
  {
    AfterOne(r, parent, v);
    AfterTwo(r, parent, v);
    AfterThree(r, parent, v);
    AfterOneMore(r, parent, [v, v, v], w);
    assert [v, v, v] + [w] == [v, v, v, w];
  }

  /** The condition on the path cannot be dropped: the path moves from the parent's entry
      to its own while the request looks, and the request is refused although every state
      it saw would have forwarded it. */
  lemma MovingPathIsMissed(self: string, uri: string) returns (r: Request, parent: ParentOf, vs: seq<View>)
    ensures Evolving(self, vs) && Ends(r, parent, vs)
    ensures vs[0].config.version == vs[|vs| - 1].config.version
    ensures After(r, parent, vs).outcome.NotFound?
    ensures forall i :: 0 <= i < |vs| ==> Decide(r, parent, vs[i]) == Forward(uri)
  {
    r, parent := Request("/a/b", GET), _ => Some("/a");
    var c := CachedConfig(AVAILABLE, Some(uri), true, 0);
    var v := View(c, map["/a" := CachedPath(ALL_ACTIONS, 0)]);
    var w := View(c, map["/a/b" := CachedPath(ALL_ACTIONS, 0)]);
    vs := [v, v, v, w];
    AfterFour(r, parent, v, w);
    assert vs[..3] == [v, v, v];
    EvolvesToItself(self, v);
    var add, del := PathNote(false, 0, PathDoc("/a/b", None)), PathNote(true, 1, PathDoc("/a", None));
    assert Absorb(self, Absorb(self, v, add), del).paths == w.paths;
    EvolvesByTwo(self, v, add, del, w);
  }

  /** Nor can the condition on the version: a request whose last read sees a newer
      configuration is forwarded although no state it saw would have forwarded it. */
  lemma TornConfigurationForwards(self: string, uri: string) returns (r: Request, parent: ParentOf, vs: seq<View>)
    ensures Evolving(self, vs) && Ends(r, parent, vs) && StablePath(r, vs)
    ensures After(r, parent, vs).outcome == Forward(uri)
    ensures forall i :: 0 <= i < |vs| ==> !Decide(r, parent, vs[i]).Forward?
  {
    r, parent := Request("/a", GET), _ => None;
    var v := View(CachedConfig(AVAILABLE, None, false, 0), map[]);
    var w := View(CachedConfig(PAUSED, Some(uri), true, 1), map[]);
    vs := [v, v, v, w];
    AfterFour(r, parent, v, w);
    assert vs[..3] == [v, v, v];
    EvolvesToItself(self, v);
    EvolvesByTwo(self, v, ConfigNote(self, false, 1, ConfigDoc(Some(PAUSED), Some(uri), None)), OtherNote(""), w);
  }
}
