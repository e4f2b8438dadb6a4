/**
 What a cache holds after notifications arrived in any order, any number of times.
 The configuration keeps the version of a deletion and so always converges.  A deleted
 path forgets its version, and converges exactly when every other notification for the
 path is followed by a deletion of a higher version.
 */
module GatewayConvergence {
  import opened Wrappers
  import opened GatewayModel

  // ----- Configuration -----

  predicate IsConfigFor(n: Notification, self: string) {
    n.ConfigNote? && n.link == self
  }

  function ProjectedNote(n: Notification): CachedConfig
    requires n.ConfigNote?
  {
    if n.deleted then Seed(n.version) else Projected(n.config, n.version)
  }

  /** `ns[h]` is the first to arrive of the notifications with the highest version. */
  predicate IsFirstHighestConfig(self: string, ns: seq<Notification>, h: nat) {
    && h < |ns| && IsConfigFor(ns[h], self)
    && (forall i :: 0 <= i < |ns| && IsConfigFor(ns[i], self) ==> ns[i].version <= ns[h].version)
    && (forall i :: 0 <= i < h && IsConfigFor(ns[i], self) ==> ns[i].version < ns[h].version)
  }

  predicate NoConfigFor(self: string, ns: seq<Notification>) {
    forall i :: 0 <= i < |ns| ==> !IsConfigFor(ns[i], self)
  }

  /** The cached configuration is that of the highest version delivered, in whatever order
      and however often; other documents do not matter. */
  lemma {:induction false} ConfigIsFirstHighest(self: string, ns: seq<Notification>) returns (h: nat)
    ensures var c := AbsorbAll(self, START, ns).config;
      if NoConfigFor(self, ns) then c == Seed(-1)
      else IsFirstHighestConfig(self, ns, h) && c == ProjectedNote(ns[h])
    decreases |ns|
  {
    h := 0;
    if ns != [] {
      var m := |ns| - 1;
      var pre, n := ns[..m], ns[m];
      var g := ConfigIsFirstHighest(self, pre);
      h := g;
      if IsConfigFor(n, self) {
        if NoConfigFor(self, pre) || n.version > pre[g].version { h := m; }
        assert !NoConfigFor(self, ns);
      } else {
        assert NoConfigFor(self, ns) <==> NoConfigFor(self, pre) by {
          if !NoConfigFor(self, pre) { assert IsConfigFor(ns[g], self); }
        }
      }
    }
  }

  /** Equal versions of the configuration carry equal content. */
  predicate ConsistentConfig(self: string, ns: seq<Notification>) {
    forall i, j | 0 <= i < |ns| && 0 <= j < |ns| && IsConfigFor(ns[i], self) && IsConfigFor(ns[j], self) ::
      ns[i].version == ns[j].version ==> ns[i] == ns[j]
  }

  /** Config convergence: the result is the projection of any notification that has the
      highest version. */
  lemma ConfigConverges(self: string, ns: seq<Notification>, h: nat)
    requires ConsistentConfig(self, ns) && h < |ns| && IsConfigFor(ns[h], self)
    requires forall i :: 0 <= i < |ns| && IsConfigFor(ns[i], self) ==> ns[i].version <= ns[h].version
    ensures AbsorbAll(self, START, ns).config == ProjectedNote(ns[h])
  {
    var g := ConfigIsFirstHighest(self, ns);
  }

  // ----- Paths -----

  predicate IsUpdateOf(n: Notification, p: string) {
    n.PathNote? && n.path.path == p && !n.deleted
  }

  predicate IsDeleteOf(n: Notification, p: string) {
    n.PathNote? && n.path.path == p && n.deleted
  }

  predicate IsNoteOf(n: Notification, p: string) {
    IsUpdateOf(n, p) || IsDeleteOf(n, p)
  }

  function ProjectedPath(n: Notification): Option<CachedPath>
    requires n.PathNote?
  {
    if n.deleted then None else Some(CachedPath(Allowed(n.path.actions), n.version))
  }

  /** The update `ns[j]` is not followed by a deletion of a higher version. */
  predicate Survives(p: string, ns: seq<Notification>, j: nat) {
    j < |ns| && IsUpdateOf(ns[j], p) &&
    forall k :: j < k < |ns| && IsDeleteOf(ns[k], p) ==> ns[k].version <= ns[j].version
  }

  function EntryAfter(self: string, p: string, ns: seq<Notification>): Option<CachedPath> {
    EntryOf(AbsorbAll(self, START, ns), p)
  }

  lemma EntryStep(self: string, p: string, ns: seq<Notification>, n: Notification)
    ensures EntryAfter(self, p, ns + [n]) ==
            if IsNoteOf(n, p) then AbsorbPath(EntryAfter(self, p, ns), n.deleted, n.version, n.path)
            else EntryAfter(self, p, ns)
  {
    AbsorbMore(self, START, ns, n);
  }

  lemma SurvivesStep(p: string, ns: seq<Notification>, n: Notification, j: nat)
    ensures Survives(p, ns + [n], j) <==>
            if j == |ns| then IsUpdateOf(n, p)
            else Survives(p, ns, j) && (IsDeleteOf(n, p) ==> n.version <= ns[j].version)
  {
    var all := ns + [n];
    if j < |ns| {
      assert all[j] == ns[j] && all[|ns|] == n;
      if Survives(p, ns, j) && (IsDeleteOf(n, p) ==> n.version <= ns[j].version) {
        forall k | j < k < |all| && IsDeleteOf(all[k], p) ensures all[k].version <= all[j].version {
          if k < |ns| { assert all[k] == ns[k]; }
        }
      }
      if Survives(p, all, j) {
        forall k | j < k < |ns| && IsDeleteOf(ns[k], p) ensures ns[k].version <= ns[j].version {
          assert all[k] == ns[k];
        }
      }
    }
  }

  /** `c` is what the cache should hold if it keeps exactly the highest survivor. */
  ghost predicate HighestSurvivor(p: string, ns: seq<Notification>, c: Option<CachedPath>) {
    match c
    case None => forall j: nat :: !Survives(p, ns, j)
    case Some(e) =>
      && (forall j: nat :: Survives(p, ns, j) ==> ns[j].version <= e.version)
      && exists j: nat :: Survives(p, ns, j) && ProjectedPath(ns[j]) == c
  }

  /** What the cache holds for a path after any notifications: nothing if no update
      survives, otherwise the projection of a survivor of the highest version. */
  lemma {:induction false} PathIsHighestSurvivor(self: string, p: string, ns: seq<Notification>)
    ensures HighestSurvivor(p, ns, EntryAfter(self, p, ns))
    decreases |ns|
  {
    if ns != [] {
      var pre, n := ns[..|ns| - 1], ns[|ns| - 1];
      assert ns == pre + [n];
      PathIsHighestSurvivor(self, p, pre);
      SurvivorStep(self, p, pre, n);
    }
  }

  lemma SurvivorStep(self: string, p: string, ns: seq<Notification>, n: Notification)
    requires HighestSurvivor(p, ns, EntryAfter(self, p, ns))
    ensures HighestSurvivor(p, ns + [n], EntryAfter(self, p, ns + [n]))
  {
    var e, e' := EntryAfter(self, p, ns), EntryAfter(self, p, ns + [n]);
    EntryStep(self, p, ns, n);
    forall j: nat ensures Survives(p, ns + [n], j) <==>
        if j == |ns| then IsUpdateOf(n, p)
        else Survives(p, ns, j) && (IsDeleteOf(n, p) ==> n.version <= ns[j].version)
    {
      SurvivesStep(p, ns, n, j);
    }
    if e'.Some? {
      if e' == e {
        var j: nat :| Survives(p, ns, j) && ProjectedPath(ns[j]) == e;
        assert Survives(p, ns + [n], j) && (ns + [n])[j] == ns[j];
      } else {
        assert Survives(p, ns + [n], |ns|) && ProjectedPath((ns + [n])[|ns|]) == e';
      }
    }
  }

  // ----- When a path converges -----

  /** Equal versions of a path carry equal content. */
  predicate ConsistentPath(p: string, ns: seq<Notification>) {
    forall i, j | 0 <= i < |ns| && 0 <= j < |ns| && IsNoteOf(ns[i], p) && IsNoteOf(ns[j], p) ::
      ns[i].version == ns[j].version ==> ns[i] == ns[j]
  }

  predicate IsHighest(p: string, ns: seq<Notification>, h: nat) {
    h < |ns| && IsNoteOf(ns[h], p) &&
    forall i :: 0 <= i < |ns| && IsNoteOf(ns[i], p) ==> ns[i].version <= ns[h].version
  }

  /** Every update of the path is followed by a deletion of a higher version. */
  ghost predicate EachUpdateDeletedLater(p: string, ns: seq<Notification>) {
    forall j :: 0 <= j < |ns| && IsUpdateOf(ns[j], p) ==> DeletedLater(p, ns, j)
  }

  predicate DeletedLater(p: string, ns: seq<Notification>, j: nat)
    requires j < |ns| && IsUpdateOf(ns[j], p)
  {
    exists k :: j < k < |ns| && IsDeleteOf(ns[k], p) && ns[k].version > ns[j].version
  }

  /** Path convergence, exactly: the cache ends with the projection of the notification of
      the highest version if and only if that is not a deletion, or every update was
      followed by a deletion of a higher version. */
  lemma PathConvergesExactly(self: string, p: string, ns: seq<Notification>, h: nat)
    requires ConsistentPath(p, ns) && IsHighest(p, ns, h)
    ensures EntryAfter(self, p, ns) == ProjectedPath(ns[h]) <==> !ns[h].deleted || EachUpdateDeletedLater(p, ns)
  {
    var e := EntryAfter(self, p, ns);
    PathIsHighestSurvivor(self, p, ns);
    if !ns[h].deleted {
      assert Survives(p, ns, h);
      var j: nat :| Survives(p, ns, j) && ProjectedPath(ns[j]) == e;
      assert ns[j].version == ns[h].version;
    } else if e.None? {
      forall j | 0 <= j < |ns| && IsUpdateOf(ns[j], p) ensures DeletedLater(p, ns, j) {
        assert !Survives(p, ns, j);
      }
    } else {
      var j: nat :| Survives(p, ns, j) && ProjectedPath(ns[j]) == e;
      assert !DeletedLater(p, ns, j);
    }
  }

  /** After a deletion of the path no update of a lower version is delivered. */
  predicate NoLateUpdate(p: string, ns: seq<Notification>) {
    forall i, j :: 0 <= i < j < |ns| && IsDeleteOf(ns[i], p) && IsUpdateOf(ns[j], p) ==> ns[i].version <= ns[j].version
  }

  /** Under that delivery condition every path converges. */
  lemma PathConverges(self: string, p: string, ns: seq<Notification>, h: nat)
    requires ConsistentPath(p, ns) && IsHighest(p, ns, h) && NoLateUpdate(p, ns)
    ensures EntryAfter(self, p, ns) == ProjectedPath(ns[h])
  {
    PathConvergesExactly(self, p, ns, h);
    if ns[h].deleted {
      forall j | 0 <= j < |ns| && IsUpdateOf(ns[j], p) ensures DeletedLater(p, ns, j) {
        assert ns[j].version != ns[h].version;
        assert j < h;
      }
    }
  }

  /** The condition cannot be dropped: an update delivered again after the deletion brings
      the path back, because removing the entry forgot its version. */
  lemma LateUpdateResurrects(self: string, doc: PathDoc)
    ensures var add, del := PathNote(false, 0, doc), PathNote(true, 1, doc);
      && EntryAfter(self, doc.path, [add, del]) == None
      && EntryAfter(self, doc.path, [add, del, add]) == Some(CachedPath(Allowed(doc.actions), 0))
      && EntryAfter(self, doc.path, [del, add]) == Some(CachedPath(Allowed(doc.actions), 0))
  {
    var p, add, del := doc.path, PathNote(false, 0, doc), PathNote(true, 1, doc);
    EntryStep(self, p, [], add);
    EntryStep(self, p, [], del);
    EntryStep(self, p, [add], del);
    EntryStep(self, p, [del], add);
    EntryStep(self, p, [add, del], add);
    assert [] + [add] == [add] && [] + [del] == [del];
    assert [add] + [del] == [add, del] && [del] + [add] == [del, add] && [add, del] + [add] == [add, del, add];
  }
}
