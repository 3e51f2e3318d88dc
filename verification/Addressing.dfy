/**
 * From the controller's requests to the runs: every request is a step of a run, and the requests about
 * a volume reach the very entry its creation made.
 */
module Addressing {
  import opened Wrappers
  import opened Strings
  import opened Paths
  import opened Metadata
  import opened Integers
  import opened FileSystem
  import opened Volumes
  import opened Remote
  import opened Protocol
  import opened Rounding
  import opened Location
  import opened CsiController
  import opened CsiGroupController
  import opened Clusters
  import opened FailStop

  /** The volume object the provisioner made of the answer to `req` is among the cluster's volumes. */
  ghost predicate Provisioned(cs: Controller, req: CreateVolumeRequest, plan: CreatePlan)
    reads cs
  {
    && cs.PlanCreate(req) == Ok(plan) && plan.key.name in cs.volumes
    && ProvisionedAs(cs.CreateResponse(req, plan), cs.volumes[plan.key.name])
  }

  /** No storage-class parameter gives the volume another group than the one it was created in. */
  predicate GroupKept(req: CreateVolumeRequest, plan: CreatePlan) {
    VOLUME_GROUP_NAME in req.parameters ==> req.parameters[VOLUME_GROUP_NAME] == plan.key.vg
  }

  /**
   * Expanding, snapshotting and deleting a created volume, each by the id of the create's answer, reach
   * the node and the group the volume was created in, if and only if no parameter overwrote the group.
   */
  lemma CreatedIsReached(cs: Controller, req: CreateVolumeRequest, plan: CreatePlan)
    requires Provisioned(cs, req, plan) && plan.node != "" && plan.key.vg != ""
    ensures cs.Locate(plan.key.name) == Ok(Place(plan.node, plan.key.vg)) <==> GroupKept(req, plan)
    ensures ToLower(cs.CreateResponse(req, plan).volumeId) == plan.key.name
    ensures cs.PlanDelete(ToLower(cs.CreateResponse(req, plan).volumeId)) == Ok(Place(plan.node, plan.key.vg)) <==> GroupKept(req, plan)
  {
    var r, pv := cs.CreateResponse(req, plan), cs.volumes[plan.key.name];
    LocationRoundTrip(r, pv, plan.node, plan.key.vg, req.parameters);
    ToLowerIdempotent(req.name);
  }

  /** With a group parameter of its own, the volume is looked for in a group it was not created in. */
  lemma OverwrittenGroup(cs: Controller, req: CreateVolumeRequest, plan: CreatePlan)
    requires Provisioned(cs, req, plan) && plan.node != "" && !GroupKept(req, plan)
    ensures cs.Locate(plan.key.name).Ok? ==> cs.Locate(plan.key.name).value.vg == req.parameters[VOLUME_GROUP_NAME] != plan.key.vg
  {
    var r, pv := cs.CreateResponse(req, plan), cs.volumes[plan.key.name];
    LocationRoundTrip(r, pv, plan.node, plan.key.vg, req.parameters);
  }

  /** The prefix snapshot names are given: the configured one, or the default. */
  function EffectivePrefix(prefix: string): string {
    if prefix == "" then "snap" else prefix
  }

  /** A snapshot named `<prefix>-<uid>` has the content object `snapcontent-<uid>`, whatever the uid contains. */
  lemma ContentOfSnapshot(prefix: string, uid: string)
    ensures ContentName(prefix, EffectivePrefix(prefix) + "-" + uid) == "snapcontent-" + uid
  {
    var p := EffectivePrefix(prefix);
    var id := p + "-" + uid;
    assert p <= id && id[|p|..] == "-" + uid;
    assert "snapcontent" + ("-" + uid) == "snapcontent-" + uid;
  }

  /** A snapshot is deleted where its source lives: its content object names the source. */
  lemma SnapshotIsReached(cs: Controller, uid: string, source: string)
    requires "snapcontent-" + uid in cs.contents && cs.contents["snapcontent-" + uid] == source
    ensures cs.LocateSnapshot(EffectivePrefix(cs.snapshotPrefix) + "-" + uid) == cs.Locate(source)
  {
    ContentOfSnapshot(cs.snapshotPrefix, uid);
  }

  /**
   * What stands for the content object of any snapshot id: the id itself when the prefix does not occur in
   * it, and otherwise the id with the first occurrence replaced.
   */
  lemma ContentExactly(prefix: string, id: string, i: nat)
    ensures !Occurs(EffectivePrefix(prefix), id) ==> ContentName(prefix, id) == id
    ensures FirstAt(EffectivePrefix(prefix), id, i) ==>
      ContentName(prefix, id) == id[..i] + "snapcontent" + id[i + |EffectivePrefix(prefix)|..]
  {
    ReplaceFirstExactly(id, EffectivePrefix(prefix), "snapcontent", i);
  }

  /** A snapshot without the prefix in its id is deleted where the source named by the content object of that very id lives. */
  lemma OrdinaryIsReached(cs: Controller, id: string, source: string)
    requires id != "" && !Occurs(EffectivePrefix(cs.snapshotPrefix), id)
    requires id in cs.contents && cs.contents[id] == source
    ensures cs.LocateSnapshot(id) == cs.Locate(source)
  {
    ContentExactly(cs.snapshotPrefix, id, 0);
  }

  /** A prefix without a hyphen occurs in a group member's id exactly when it occurs in the group or in the volume. */
  lemma MemberPrefix(p: string, group: string, volume: string)
    requires p != "" && '-' !in p
    ensures Occurs(p, group + "-" + volume) <==> Occurs(p, group) || Occurs(p, volume)
  {
    var y := "-" + volume;
    OccursSplit(p, group, "", y);
    assert group + ("" + y) == group + "-" + volume;
    assert "" + y == y && y[1..] == volume;
    assert !(p <= y) by {
      assert y[0] == '-' && p[0] in p;
    }
  }

  /** A member of a group whose id is `group-volume` is deleted where its source lives, by the content object of that id. */
  lemma MemberIsReached(cs: Controller, group: string, volume: string, source: string)
    requires '-' !in cs.snapshotPrefix
    requires var p := EffectivePrefix(cs.snapshotPrefix); !Occurs(p, group) && !Occurs(p, volume)
    requires var id := group + "-" + volume; id in cs.contents && cs.contents[id] == source
    ensures cs.LocateSnapshot(group + "-" + volume) == cs.Locate(source)
  {
    MemberPrefix(EffectivePrefix(cs.snapshotPrefix), group, volume);
    OrdinaryIsReached(cs, group + "-" + volume, source);
  }

  // ---- From the request to the stores -----------------------------------------------------------

  /** The place of a volume is exactly the group and the host its object names, when the host is a connected node. */
  lemma LocateExactly(cs: Controller, id: string, place: Place)
    ensures cs.Locate(id) == Ok(place) <==>
      && id in cs.volumes && place.vg != "" && place.node != "" && place.node in cs.nodes
      && GroupIs(cs.volumes[id], place.vg) && HostIs(cs.volumes[id], place.node)
  {
  }

  /**
   * A create request under a free name on a complete store. Answered, it made a copy of the snapshot or the
   * volume the request names in the group the request names, or a blank volume of the rounded size; on a
   * node that loses nothing it is answered if and only if there is such a source or none is asked for, and
   * otherwise changes nothing.
   */
  lemma CreateMakes(cs: Controller, req: CreateVolumeRequest, plan: CreatePlan, before: Trees, s: Store, replied: bool, after: Trees)
    returns (s': Store)
    requires cs.PlanCreate(req) == Ok(plan) && ValidKey(plan.key)
    requires CreateDone(plan, cs.nodes, before, replied, after) && WellFormed(after[plan.node])
    requires plan.source.Some? ==> ValidName(plan.source.value)
    requires Represents(before[plan.node], s) && plan.key !in s
    ensures cs.ScheduledTo(req, plan.node) && Represents(after[plan.node], s') && "hostpath" in req.parameters
    ensures var vg, name := req.parameters["hostpath"], ToLower(req.name);
      && plan.key == Key(vg, name)
      && (forall id :: (req.source == FromSnapshot(id) || req.source == FromVolume(id)) && id != "" ==>
            MadeFrom(s, cs.nodes[plan.node].lossy, Key(vg, id), Key(vg, name), replied, s'))
      && (req.source in {NoSource, FromSnapshot(""), FromVolume("")} ==>
            && (replied ==> s' == s[Key(vg, name) := Volume(ToUInt64(GetRoundedCapacity(req.requiredBytes)), NO_FILES)])
            && (!cs.nodes[plan.node].lossy ==> replied))
  {
    hide CreateOutcome, Represents, CreateAttempt, GetRoundedCapacity, Controller.PlanCreate, Controller.ScheduledTo;
    s' := CreateRefinesAttempt(before[plan.node], s, cs.nodes[plan.node].lossy, plan.key, ToUInt64(plan.capacity),
                               plan.source, replied, after[plan.node]);
    AttemptMakes(s, cs.nodes[plan.node].lossy, plan.key, ToUInt64(plan.capacity), plan.source, replied, s');
  }

  lemma AttemptMakes(s: Store, lossy: bool, k: Key, size: UInt64, source: Option<string>, replied: bool, s': Store)
    requires CreateAttempt(s, lossy, k, size, source, replied, s') && k !in s
    ensures source.Some? ==> MadeFrom(s, lossy, Key(k.vg, source.value), k, replied, s')
    ensures source.None? && replied ==> s' == s[k := Volume(size, NO_FILES)]
    ensures source.None? && !lossy ==> replied
  {
    hide Copied;
  }

  /** A copy of `src` was made under `k` when the request was answered. */
  ghost predicate MadeFrom(s: Store, lossy: bool, src: Key, k: Key, replied: bool, s': Store) {
    && (replied ==> src in s && Copied(s, src, k, s'))
    && (!lossy ==> (replied <==> src in s))
    && (!lossy && !replied ==> s' == s)
  }

  // ---- Every request is a step of a run ---------------------------------------------------------

  lemma CreateIsStep(plan: CreatePlan, nodes: map<string, Connection>, before: Trees, replied: bool, after: Trees)
    requires CreateDone(plan, nodes, before, replied, after) && WellFormed(after[plan.node])
    ensures TreeStep(Create(plan.node, plan.key, ToUInt64(plan.capacity), plan.source), before, after)
  {
  }

  lemma DeleteVolumeIsStep(node: string, k: Key, lossy: bool, lost: string, before: Trees, replied: bool, after: Trees)
    requires OnlyAt(before, after, node) && WellFormed(after[node])
    requires DeleteVolumeOutcome(before[node], lossy, lost, k, replied, after[node])
    ensures TreeStep(Delete(node, k), before, after)
  {
    var lookup :| DeleteVolumeCall(before[node], lossy, lost, k, replied, after[node], lookup);
  }

  lemma DeleteSnapshotIsStep(node: string, k: Key, lossy: bool, before: Trees, replied: bool, after: Trees)
    requires OnlyAt(before, after, node) && WellFormed(after[node])
    requires DeleteOutcome(before[node], lossy, k, false, replied, after[node])
    ensures TreeStep(Delete(node, k), before, after)
  {
  }

  lemma ExpandIsStep(node: string, k: Key, lossy: bool, size: UInt64, before: Trees, replied: bool, after: Trees)
    requires OnlyAt(before, after, node) && WellFormed(after[node])
    requires ExpandOutcome(before[node], lossy, k, size, replied, after[node])
    ensures TreeStep(Expand(node, k, size), before, after)
  {
  }

  /** One source of a group snapshot, when it is located, is a create of a copy. */
  lemma SourceIsStep(nodes: map<string, Connection>, group: string, place: Place, volume: string, o: SourceOutcome,
                     before: Trees, after: Trees)
    requires SourceStep(nodes, group, Ok(place), volume, o, before, after)
    ensures TreeStep(Create(place.node, Key(place.vg, SnapshotName(group, volume)), 0, Some(volume)), before, after)
  {
    var t, u, lossy := before[place.node], after[place.node], nodes[place.node].lossy;
    var k := Key(place.vg, SnapshotName(group, volume));
    match o
    case LookupFailed => assert CreateOutcome(t, lossy, k, 0, Some(volume), false, u);
    case Existed => assert CreateOutcome(t, lossy, k, 0, Some(volume), true, u);
    case CreateFailed => assert CreateOutcome(t, lossy, k, 0, Some(volume), false, u);
    case Made(_) => assert CreateOutcome(t, lossy, k, 0, Some(volume), true, u);
  }

  /** One turn of the group loop, located or not, leaves an incomplete directory and its group's directories alone. */
  lemma TurnLeaves(nodes: map<string, Connection>, group: string, place: Result<Place>, volume: string, o: SourceOutcome,
                   before: Trees, after: Trees, node: string, vg: string, c: string)
    requires SourceStep(nodes, group, place, volume, o, before, after)
    requires node in before && Incomplete(before[node], vg, c)
    ensures node in after && Incomplete(after[node], vg, c) && SameDirectories(before[node], after[node], vg)
    ensures place == Ok(Place(node, vg)) ==> o.LookupFailed?
  {
    if place.Ok? {
      var op := Create(place.value.node, Key(place.value.vg, SnapshotName(group, volume)), 0, Some(volume));
      SourceIsStep(nodes, group, place.value, volume, o, before, after);
      if place.value.node == node {
        IncompleteStays(op, before[node], after[node], vg, c);
      }
    }
  }

  /**
   * A group request on a half-made group, whatever its other sources are: the group's directories stay as
   * they are, and none of its sources gets a snapshot, in this turn or any other.
   */
  lemma {:induction false} BlockedGroupKept(nodes: map<string, Connection>, group: string, places: seq<Result<Place>>,
      sources: seq<string>, trace: seq<SourceOutcome>, states: seq<Trees>, node: string, vg: string, c: string, n: nat)
    requires GroupRun(nodes, group, places, sources, trace, states) && n <= |sources|
    requires node in states[0] && Incomplete(states[0][node], vg, c)
    ensures node in states[n] && Incomplete(states[n][node], vg, c) && SameDirectories(states[0][node], states[n][node], vg)
    ensures forall i :: 0 <= i < n && places[i] == Ok(Place(node, vg)) ==> trace[i].LookupFailed?
    decreases n
  {
    hide Incomplete, SourceStep;
    if n > 0 {
      BlockedGroupKept(nodes, group, places, sources, trace, states, node, vg, c, n - 1);
      assert SourceStepAt(nodes, group, places, sources, trace, states, n - 1);
      TurnLeaves(nodes, group, places[n - 1], sources[n - 1], trace[n - 1], states[n - 1], states[n], node, vg, c);
    }
  }
}
