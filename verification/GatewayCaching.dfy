/** The gateway's in-memory cache as an object, absorbing batches of notifications in
    place. */
module GatewayCaching {
  import opened Wrappers
  import opened XenonActions
  import opened GatewayModel

  /** The cached GatewayConfigService.State. */
  class ConfigState {
    var status: Status
    var forwardingUri: Option<string>
    var filterRequests: bool
    var documentVersion: int

    /** createSeedConfig */
    constructor ()
      ensures Value() == CachedConfig(UNAVAILABLE, None, true, -1) == Seed(-1)
    {
      status, forwardingUri, filterRequests, documentVersion := UNAVAILABLE, None, true, -1;
    }

    function Value(): CachedConfig
      reads this
    {
      CachedConfig(status, forwardingUri, filterRequests, documentVersion)
    }
  }

  class GatewayCache {
    const configSelfLink: string
    var configState: ConfigState
    var paths: map<string, CachedPath>

    constructor (self: string)
      ensures configSelfLink == self && CachedView() == START && fresh(configState)
    {
      configSelfLink := self;
      configState := new ConfigState();
      paths := map[];
    }

    function CachedView(): View
      reads this, configState
    {
      View(configState.Value(), paths)
    }

    method GetSupportedActions(path: Option<string>) returns (r: Option<set<Action>>)
      ensures r == if path.Some? && path.value in paths then Some(paths[path.value].actions) else None
    {
      if path.None? || path.value !in paths {
        return None;
      }
      r := Some(paths[path.value].actions);
    }

    method GetGatewayStatus() returns (r: Status)
      ensures r == CachedView().config.status
    {
      r := configState.status;
    }

    method GetForwardingUri() returns (r: Option<string>)
      ensures r == CachedView().config.forwardingUri
    {
      r := configState.forwardingUri;
    }

    method FilterRequests() returns (r: bool)
      ensures r == CachedView().config.filterRequests
    {
      r := configState.filterRequests;
    }

    method HandleConfigUpdate(link: string, deleted: bool, version: nat, doc: ConfigDoc)
      modifies this, configState
      ensures CachedView() == Absorb(configSelfLink, old(CachedView()), ConfigNote(link, deleted, version, doc))
      ensures TakesConfig(configSelfLink, old(CachedView()), link, deleted, version, doc, CachedView())
      ensures configState == old(configState) || fresh(configState)
    {
      ConfigIsTaken(configSelfLink, CachedView(), link, deleted, version, doc);
      if link != configSelfLink {
        return;
      }
      if deleted {
        if configState.documentVersion >= version {
          return;
        }
        configState := new ConfigState();
        configState.documentVersion := version;
      } else {
        if configState.documentVersion >= version {
          return;
        }
        configState.status := if doc.status.Some? then doc.status.value else UNAVAILABLE;
        configState.filterRequests := if doc.filterRequests.Some? then doc.filterRequests.value else true;
        configState.forwardingUri := doc.forwardingUri;
        configState.documentVersion := version;
      }
    }

    method HandlePathUpdate(deleted: bool, version: nat, doc: PathDoc)
      modifies this
      ensures CachedView() == Absorb(configSelfLink, old(CachedView()), PathNote(deleted, version, doc))
      ensures TakesPath(old(CachedView()), deleted, version, doc, CachedView())
      ensures configState == old(configState)
    {
      PathIsTaken(configSelfLink, CachedView(), deleted, version, doc);
      if deleted {
        if doc.path !in paths || paths[doc.path].version >= version {
          assert paths == paths - {doc.path} || doc.path in paths;
          return;
        }
        paths := paths - {doc.path};
      } else {
        var actions := if doc.actions.None? || doc.actions.value == {} then ALL_ACTIONS else doc.actions.value;
        if doc.path in paths && paths[doc.path].version >= version {
          assert paths[doc.path := paths[doc.path]] == paths;
          return;
        }
        paths := paths[doc.path := CachedPath(actions, version)];
      }
    }

    /** handleConfigUpdates: the documents of one notification, one after the other. */
    method HandleConfigUpdates(batch: seq<Notification>)
      modifies this, configState
      ensures CachedView() == AbsorbAll(configSelfLink, old(CachedView()), batch)
      ensures configState == old(configState) || fresh(configState)
    {
      for i := 0 to |batch|
        invariant CachedView() == AbsorbAll(configSelfLink, old(CachedView()), batch[..i])
        invariant configState == old(configState) || fresh(configState)
      {
        assert batch[..i + 1] == batch[..i] + [batch[i]];
        AbsorbMore(configSelfLink, old(CachedView()), batch[..i], batch[i]);
        match batch[i]
        case ConfigNote(link, deleted, version, doc) => HandleConfigUpdate(link, deleted, version, doc);
        case PathNote(deleted, version, doc) => HandlePathUpdate(deleted, version, doc);
        case OtherNote(_) =>
      }
      assert batch[..|batch|] == batch;
    }
  }
}
