/**
 The replicated documents behind the gateway: how the configuration and path services
 accept, merge and refuse bodies, and what a document says after any run of updates.
 */
module GatewayDocuments {
  import opened Wrappers
  import opened XenonActions
  import opened GatewayModel

  /** A field of a JSON body: left out, written as null, or given. */
  datatype Field<T> = Omitted | Null | Given(value: T)

  datatype ConfigBody = ConfigBody(status: Field<Status>, forwardingUri: Field<string>, filterRequests: Field<bool>)

  datatype PathBody = PathBody(path: Option<string>, actions: Option<set<Action>>)

  datatype Refusal = BodyIsRequired | StatusIsRequired | PathIsRequired | PathCannotBeChanged

  /** The value of a field of the decoded body.  A field left out keeps the initial value
      that the class declares for it. */
  function Decoded<T>(f: Field<T>, initial: Option<T>): Option<T> {
    match f
    case Omitted => initial
    case Null => None
    case Given(x) => Some(x)
  }

  /** filterRequests is declared with the initial value true, so an update that leaves it out
      turns filtering on again. */
  function DecodedConfig(b: ConfigBody): ConfigDoc {
    ConfigDoc(Decoded(b.status, None), Decoded(b.forwardingUri, None), Decoded(b.filterRequests, Some(true)))
  }

  /** AUTO_MERGE_IF_NOT_NULL on a scalar field. */
  function Merged<T>(current: Option<T>, update: Option<T>): Option<T> {
    if update.Some? then update else current
  }

  // ----- Configuration documents -----

  function StartedConfig(body: Option<ConfigBody>): Result<ConfigDoc, Refusal> {
    if body.None? then Failure(BodyIsRequired)
    else if DecodedConfig(body.value).status.None? then Failure(StatusIsRequired)
    else Success(DecodedConfig(body.value))
  }

  function UpdatedConfig(current: ConfigDoc, body: Option<ConfigBody>): Result<ConfigDoc, Refusal> {
    if body.None? then Failure(BodyIsRequired)
    else
      var u := DecodedConfig(body.value);
      Success(ConfigDoc(Merged(current.status, u.status),
                        Merged(current.forwardingUri, u.forwardingUri),
                        Merged(current.filterRequests, u.filterRequests)))
  }

  /** An accepted body takes the document from `c` to `d`, field by field: what is given is
      stored, what is not given stays, and filterRequests left out means true. */
  predicate Keeps(c: ConfigDoc, b: ConfigBody, d: ConfigDoc) {
    && d.status == (if b.status.Given? then Some(b.status.value) else c.status)
    && d.forwardingUri == (if b.forwardingUri.Given? then Some(b.forwardingUri.value) else c.forwardingUri)
    && match b.filterRequests
       case Given(x) => d.filterRequests == Some(x)
       case Null => d.filterRequests == c.filterRequests
       case Omitted => d.filterRequests == Some(true)
  }

  /** GatewayConfigService; `state` is the document the framework keeps for it. */
  class ConfigService {
    var state: Option<ConfigDoc>

    constructor ()
      ensures state == None
    {
      state := None;
    }

    method HandleStart(body: Option<ConfigBody>) returns (error: Option<Refusal>)
      modifies this
      ensures match StartedConfig(body)
              case Success(doc) => error == None && state == Some(doc)
              case Failure(e) => error == Some(e) && state == old(state)
      ensures error == (if body.None? then Some(BodyIsRequired)
                        else if !body.value.status.Given? then Some(StatusIsRequired)
                        else None)
      ensures error.None? ==> state.Some? && Keeps(ConfigDoc(None, None, None), body.value, state.value)
    {
      if body.None? {
        return Some(BodyIsRequired);
      }
      var s := DecodedConfig(body.value);
      if s.status.None? {
        return Some(StatusIsRequired);
      }
      state := Some(s);
      error := None;
    }

    /** handlePatch and handlePut do the same: a PUT merges, too. */
    method HandleUpdate(body: Option<ConfigBody>) returns (error: Option<Refusal>)
      requires state.Some?
      modifies this
      ensures match UpdatedConfig(old(state).value, body)
              case Success(doc) => error == None && state == Some(doc)
              case Failure(e) => error == Some(e) && state == old(state)
      ensures error == if body.None? then Some(BodyIsRequired) else None
      ensures error.None? ==> state.Some? && Keeps(old(state).value, body.value, state.value)
    {
      if body.None? {
        return Some(BodyIsRequired);
      }
      var currentState, update := state.value, DecodedConfig(body.value);
      if update.status.Some? {
        currentState := currentState.(status := update.status);
      }
      if update.forwardingUri.Some? {
        currentState := currentState.(forwardingUri := update.forwardingUri);
      }
      if update.filterRequests.Some? {
        currentState := currentState.(filterRequests := update.filterRequests);
      }
      state := Some(currentState);
      error := None;
    }
  }

  /** The document after the accepted updates `bodies`. */
  function ConfigAfter(start: ConfigDoc, bodies: seq<ConfigBody>): ConfigDoc
    decreases |bodies|
  {
    if bodies == [] then start
    else UpdatedConfig(ConfigAfter(start, bodies[..|bodies| - 1]), Some(bodies[|bodies| - 1])).value
  }

  /** The value `v` that body `b` writes to a field; None if it writes nothing. */
  function Given<T>(f: Field<T>): Option<T> {
    if f.Given? then Some(f.value) else None
  }

  /** What each update writes to a field, after the value at the start. */
  function StatusWrites(start: ConfigDoc, bodies: seq<ConfigBody>): (r: seq<Option<Status>>) {
    [start.status] + seq(|bodies|, i requires 0 <= i < |bodies| => Given(bodies[i].status))
  }

  function UriWrites(start: ConfigDoc, bodies: seq<ConfigBody>): (r: seq<Option<string>>) {
    [start.forwardingUri] + seq(|bodies|, i requires 0 <= i < |bodies| => Given(bodies[i].forwardingUri))
  }

  /** Leaving filterRequests out writes true. */
  function FilterWrites(start: ConfigDoc, bodies: seq<ConfigBody>): (r: seq<Option<bool>>) {
    [start.filterRequests] +
    seq(|bodies|, i requires 0 <= i < |bodies| =>
      if bodies[i].filterRequests.Omitted? then Some(true) else Given(bodies[i].filterRequests))
  }

  /** `v` is the last value in `writes` that is not null, or null if all are. */
  ghost predicate IsMostRecent<T(!new)>(writes: seq<Option<T>>, v: Option<T>) {
    if v.None? then forall i :: 0 <= i < |writes| ==> writes[i].None?
    else exists i :: 0 <= i < |writes| && writes[i] == v && forall j :: i < j < |writes| ==> writes[j].None?
  }

  lemma MostRecentStep<T(!new)>(writes: seq<Option<T>>, v: Option<T>, w: Option<T>)
    requires IsMostRecent(writes, v)
    ensures IsMostRecent(writes + [w], if w.Some? then w else v)
  {
    var all := writes + [w];
    if w.Some? {
      assert all[|writes|] == w;
    } else if v.Some? {
      var i :| 0 <= i < |writes| && writes[i] == v && forall j :: i < j < |writes| ==> writes[j].None?;
      assert all[i] == v && forall j :: i < j < |all| ==> all[j].None?;
    }
  }

  /** One more accepted body, field by field. */
  lemma UpdateKeeps(start: ConfigDoc, bodies: seq<ConfigBody>, b: ConfigBody)
    ensures Keeps(ConfigAfter(start, bodies), b, ConfigAfter(start, bodies + [b]))
  {
    assert (bodies + [b])[..|bodies|] == bodies;
  }

  lemma WritesStep(start: ConfigDoc, pre: seq<ConfigBody>, b: ConfigBody)
    ensures StatusWrites(start, pre + [b]) == StatusWrites(start, pre) + [Given(b.status)]
    ensures UriWrites(start, pre + [b]) == UriWrites(start, pre) + [Given(b.forwardingUri)]
    ensures FilterWrites(start, pre + [b]) ==
            FilterWrites(start, pre) + [if b.filterRequests.Omitted? then Some(true) else Given(b.filterRequests)]
  {
  }

  lemma StartIsMostRecent<T(!new)>(v: Option<T>)
    ensures IsMostRecent([v], v)
  {
    assert [v][0] == v;
  }

  /** Every field is the most recent value written to it that was not null. */
  lemma {:induction false} FieldsAreMostRecent(start: ConfigDoc, bodies: seq<ConfigBody>)
    ensures var d := ConfigAfter(start, bodies);
      && IsMostRecent(StatusWrites(start, bodies), d.status)
      && IsMostRecent(UriWrites(start, bodies), d.forwardingUri)
      && IsMostRecent(FilterWrites(start, bodies), d.filterRequests)
    decreases |bodies|
  {
    if bodies == [] {
      assert StatusWrites(start, bodies) == [start.status];
      assert UriWrites(start, bodies) == [start.forwardingUri];
      assert FilterWrites(start, bodies) == [start.filterRequests];
      StartIsMostRecent(start.status);
      StartIsMostRecent(start.forwardingUri);
      StartIsMostRecent(start.filterRequests);
    } else {
      var pre, b := bodies[..|bodies| - 1], bodies[|bodies| - 1];
      var d := ConfigAfter(start, pre);
      FieldsAreMostRecent(start, pre);
      UpdateKeeps(start, pre, b);
      WritesStep(start, pre, b);
      assert bodies == pre + [b];
      MostRecentStep(StatusWrites(start, pre), d.status, Given(b.status));
      MostRecentStep(UriWrites(start, pre), d.forwardingUri, Given(b.forwardingUri));
      MostRecentStep(FilterWrites(start, pre), d.filterRequests,
                     if b.filterRequests.Omitted? then Some(true) else Given(b.filterRequests));
    }
  }

  /** So the status of a started configuration is never null. */
  lemma {:induction false} StatusStays(start: ConfigDoc, bodies: seq<ConfigBody>)
    requires start.status.Some?
    ensures ConfigAfter(start, bodies).status.Some?
    decreases |bodies|
  {
    if bodies != [] { StatusStays(start, bodies[..|bodies| - 1]); }
  }

  // ----- Path documents -----

  /** The merge of two sets of actions, neither of them empty; Xenon's, and not modelled. */
  type MergeSets = (set<Action>, set<Action>) -> set<Action>

  function MergedActions(current: Option<set<Action>>, update: Option<set<Action>>, merge: MergeSets)
    : Option<set<Action>>
  {
    if update.None? then current
    else if current.None? || current.value == {} || update.value == {} then update
    else Some(merge(current.value, update.value))
  }

  function StartedPath(body: Option<PathBody>): Result<PathDoc, Refusal> {
    if body.None? then Failure(BodyIsRequired)
    else if body.value.path.None? then Failure(PathIsRequired)
    else Success(PathDoc(body.value.path.value, body.value.actions))
  }

  /** Acceptance of an update of a path document. */
  function CheckedUpdate(current: PathDoc, body: Option<PathBody>): Option<Refusal> {
    if body.None? then Some(BodyIsRequired)
    else if body.value.path.Some? && body.value.path.value != current.path then Some(PathCannotBeChanged)
    else None
  }

  function UpdatedPath(current: PathDoc, body: PathBody, merge: MergeSets): PathDoc {
    current.(actions := MergedActions(current.actions, body.actions, merge))
  }

  /** An accepted body with actions takes the path document from `c` to `d`: they are stored
      if there were none or they are none themselves, and merged otherwise. */
  predicate Replaces(c: PathDoc, b: PathBody, merge: MergeSets, d: PathDoc) {
    && d.path == c.path && b.actions.Some? && d.actions.Some?
    && if b.actions.value == {} || c.actions.None? || c.actions.value == {} then d.actions == b.actions
       else d.actions.value == merge(c.actions.value, b.actions.value)
  }

  lemma PathReplaces(start: PathDoc, bodies: seq<PathBody>, b: PathBody, merge: MergeSets)
    requires b.actions.Some?
    ensures Replaces(PathAfter(start, bodies, merge), b, merge, PathAfter(start, bodies + [b], merge))
  {
    assert (bodies + [b])[..|bodies|] == bodies;
  }

  /** GatewayPathService. */
  class PathService {
    const merge: MergeSets
    var state: Option<PathDoc>

    constructor (m: MergeSets)
      ensures merge == m && state == None
    {
      merge, state := m, None;
    }

    method HandleStart(body: Option<PathBody>) returns (error: Option<Refusal>)
      modifies this
      ensures match StartedPath(body)
              case Success(doc) => error == None && state == Some(doc)
              case Failure(e) => error == Some(e) && state == old(state)
      ensures error == (if body.None? then Some(BodyIsRequired)
                        else if body.value.path.None? then Some(PathIsRequired)
                        else None)
      ensures error.None? ==>
                && state.Some? && Some(state.value.path) == body.value.path
                && state.value.actions == body.value.actions
    {
      if body.None? {
        return Some(BodyIsRequired);
      }
      if body.value.path.None? {
        return Some(PathIsRequired);
      }
      state := Some(PathDoc(body.value.path.value, body.value.actions));
      error := None;
    }

    /** handlePatch and handlePut; an accepted body without actions crashes the handler. */
    method HandleUpdate(body: Option<PathBody>) returns (error: Option<Refusal>)
      requires state.Some?
      requires CheckedUpdate(state.value, body).None? ==> body.value.actions.Some?
      modifies this
      ensures error == CheckedUpdate(old(state).value, body)
      ensures error == (if body.None? then Some(BodyIsRequired)
                        else if body.value.path !in {None, Some(old(state).value.path)} then Some(PathCannotBeChanged)
                        else None)
      ensures error.None? ==> state.Some? && Replaces(old(state).value, body.value, merge, state.value)
      ensures state == if error.None? then Some(UpdatedPath(old(state).value, body.value, merge)) else old(state)
    {
      if body.None? {
        return Some(BodyIsRequired);
      }
      var currentState, updatedState := state.value, body.value;
      if updatedState.path.Some? && currentState.path != updatedState.path.value {
        return Some(PathCannotBeChanged);
      }
      currentState := currentState.(actions := MergedActions(currentState.actions, updatedState.actions, merge));
      if updatedState.actions.value == {} {
        currentState := currentState.(actions := updatedState.actions);
      }
      state := Some(currentState);
      error := None;
    }
  }

  function PathAfter(start: PathDoc, bodies: seq<PathBody>, merge: MergeSets): PathDoc
    decreases |bodies|
  {
    if bodies == [] then start
    else UpdatedPath(PathAfter(start, bodies[..|bodies| - 1], merge), bodies[|bodies| - 1], merge)
  }

  /** A path document keeps the path it started with. */
  lemma {:induction false} PathIsImmutable(start: PathDoc, bodies: seq<PathBody>, merge: MergeSets)
    ensures PathAfter(start, bodies, merge).path == start.path
    decreases |bodies|
  {
    if bodies != [] { PathIsImmutable(start, bodies[..|bodies| - 1], merge); }
  }

  /** An update with an empty set of actions wipes out everything before it: the document
      goes on like one that started with no actions, which the cache reads as all. */
  lemma {:induction false} EmptySetResets(
    start: PathDoc, pre: seq<PathBody>, reset: PathBody, post: seq<PathBody>, merge: MergeSets)
    requires reset.actions == Some({})
    ensures PathAfter(start, pre + [reset] + post, merge) == PathAfter(PathDoc(start.path, Some({})), post, merge)
    ensures post == [] ==> Allowed(PathAfter(start, pre + [reset] + post, merge).actions) == ALL_ACTIONS
    decreases |post|
  {
    var all := pre + [reset] + post;
    if post == [] {
      assert all[..|all| - 1] == pre && all[|all| - 1] == reset;
      PathIsImmutable(start, pre, merge);
    } else {
      assert all[..|all| - 1] == pre + [reset] + post[..|post| - 1] && all[|all| - 1] == post[|post| - 1];
      EmptySetResets(start, pre, reset, post[..|post| - 1], merge);
    }
  }
}
