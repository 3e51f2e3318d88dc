/** Group snapshots (pkg/driver/group_controller.go): the loops over sources and snapshots. */
module CsiGroupController {
  import opened Wrappers
  import opened Paths
  import opened Integers
  import opened FileSystem
  import opened StoreEffects
  import opened Volumes
  import opened Remote
  import opened Protocol
  import opened CsiController

  /** How one source of a group snapshot fared. */
  datatype SourceOutcome = Unresolved | LookupFailed | Existed | CreateFailed | Made(size: Int64)

  function SnapshotName(group: string, volume: string): string {
    group + "-" + volume
  }

  /** The name is the group's text, a hyphen and the volume's text, so for one volume different groups give different names. */
  lemma SnapshotNameShape(group: string, volume: string)
    ensures var name := SnapshotName(group, volume);
      && |name| == |group| + 1 + |volume|
      && group <= name && name[|group|] == '-' && name[|group| + 1..] == volume
  {
  }

  /**
   * Exactly when two group members share a name: they are the same, or one group continues the other with
   * a hyphen and a text that the other volume starts with.
   */
  lemma SnapshotNamesCollide(g: string, v: string, h: string, w: string)
    ensures SnapshotName(g, v) == SnapshotName(h, w)
       <==> (g == h && v == w)
            || (exists x :: Continues(g, v, h, w, x)) || (exists x :: Continues(h, w, g, v, x))
    ensures v == w && SnapshotName(g, v) == SnapshotName(h, w) ==> g == h
  {
    SnapshotNameShape(g, v);
    SnapshotNameShape(h, w);
    if SnapshotName(g, v) == SnapshotName(h, w) {
      if |g| < |h| {
        NameContinues(g, v, h, w);
      } else if |h| < |g| {
        NameContinues(h, w, g, v);
      } else {
        assert g == SnapshotName(g, v)[..|g|] == SnapshotName(h, w)[..|h|] == h;
      }
    }
    forall x | Continues(g, v, h, w, x)
      ensures SnapshotName(g, v) == SnapshotName(h, w)
    {
      assert g + "-" + (x + "-" + w) == (g + "-" + x) + "-" + w;
    }
    forall x | Continues(h, w, g, v, x)
      ensures SnapshotName(g, v) == SnapshotName(h, w)
    {
      assert h + "-" + (x + "-" + v) == (h + "-" + x) + "-" + v;
    }
  }

  /** `h` is `g` with `-x` behind it, and `v` is `w` with `x-` before it. */
  predicate Continues(g: string, v: string, h: string, w: string, x: string) {
    h == g + "-" + x && v == x + "-" + w
  }

  lemma NameContinues(g: string, v: string, h: string, w: string)
    requires |g| < |h| && g + "-" + v == h + "-" + w
    ensures exists x :: Continues(g, v, h, w, x)
  {
    var name := g + "-" + v;
    var x := h[|g| + 1..];
    assert name == h + "-" + w;
    assert name[..|h|] == h && name[..|g|] == g && name[|g|] == '-';
    assert h[..|g|] == name[..|h|][..|g|] == name[..|g|] && h[|g|] == name[|g|];
    assert h == g + "-" + x;
    assert v == name[|g| + 1..] && w == name[|h| + 1..];
    assert v == x + "-" + w;
    assert Continues(g, v, h, w, x);
  }

  ghost predicate SourceEffect(t: Tree, lossy: bool, k: Key, src: string, o: SourceOutcome, u: Tree) {
    match o
    case Unresolved => false
    case LookupFailed => u == t && (lossy || ListingFails(t, k.vg))
    case Existed => u == t && !ListingFails(t, k.vg) && Listed(t, k)
    case CreateFailed =>
      !ListingFails(t, k.vg) && !Listed(t, k) && exists call :: PlaceCall(t, lossy, k, 0, Some(src), false, u, call)
    case Made(size) =>
      !ListingFails(t, k.vg) && !Listed(t, k) && ReportedSize(t, k, src, size)
      && exists call :: PlaceCall(t, lossy, k, 0, Some(src), true, u, call)
  }

  /** One turn of the loop. */
  ghost predicate SourceStep(nodes: map<string, Connection>, group: string, place: Result<Place>, volume: string,
                             o: SourceOutcome, before: Trees, after: Trees)
  {
    if place.Err? then o.Unresolved? && after == before
    else
      && place.value.node in nodes && OnlyAt(before, after, place.value.node)
      && WellFormed(after[place.value.node])
      && SourceEffect(before[place.value.node], nodes[place.value.node].lossy,
                      Key(place.value.vg, SnapshotName(group, volume)), volume, o, after[place.value.node])
  }

  /** The whole loop: the trees before each turn and at the end, and how each source fared. */
  ghost predicate GroupRun(nodes: map<string, Connection>, group: string, places: seq<Result<Place>>, sources: seq<string>,
                           trace: seq<SourceOutcome>, states: seq<Trees>)
  {
    && |places| == |sources| && |trace| == |sources| && |states| == |sources| + 1
    && forall i :: 0 <= i < |sources| ==> SourceStepAt(nodes, group, places, sources, trace, states, i)
  }

  ghost predicate SourceStepAt(nodes: map<string, Connection>, group: string, places: seq<Result<Place>>,
                               sources: seq<string>, trace: seq<SourceOutcome>, states: seq<Trees>, i: nat)
    requires |places| == |sources| == |trace| && |states| == |sources| + 1 && i < |sources|
  {
    SourceStep(nodes, group, places[i], sources[i], trace[i], states[i], states[i + 1])
  }

  /** The snapshots the response lists. */
  function SnapshotsOf(group: string, sources: seq<string>, trace: seq<SourceOutcome>): seq<Snapshot>
    requires |trace| == |sources|
  {
    if sources == [] then []
    else
      var n := |sources| - 1;
      SnapshotsOf(group, sources[..n], trace[..n]) +
      (if trace[n].Made? && trace[n].size > 0
       then [Snapshot(sources[n], SnapshotName(group, sources[n]), trace[n].size, group)] else [])
  }

  predicate Ready(trace: seq<SourceOutcome>) {
    forall i :: 0 <= i < |trace| ==> !trace[i].Unresolved? && !trace[i].CreateFailed?
  }

  ghost predicate DeleteStep(nodes: map<string, Connection>, place: Result<Place>, id: string, replied: bool,
                             before: Trees, after: Trees)
  {
    if place.Err? then !replied && after == before
    else
      && place.value.node in nodes && OnlyAt(before, after, place.value.node)
      && DeleteOutcome(before[place.value.node], nodes[place.value.node].lossy, Key(place.value.vg, id), false, replied,
                       after[place.value.node])
  }

  /** The turns of the delete loop that were answered with success. */
  ghost predicate DeleteRun(nodes: map<string, Connection>, places: seq<Result<Place>>, ids: seq<string>, states: seq<Trees>) {
    && |places| == |ids| && |states| == |ids| + 1
    && forall i :: 0 <= i < |ids| ==> DeleteStepAt(nodes, places, ids, states, i)
  }

  ghost predicate DeleteStepAt(nodes: map<string, Connection>, places: seq<Result<Place>>, ids: seq<string>,
                               states: seq<Trees>, i: nat)
    requires |places| == |ids| && |states| == |ids| + 1 && i < |ids|
  {
    DeleteStep(nodes, places[i], ids[i], true, states[i], states[i + 1])
  }

  /** The loop went through, or stopped at the first snapshot that was not deleted. */
  ghost predicate DeleteResult(nodes: map<string, Connection>, places: seq<Result<Place>>, ids: seq<string>, done: nat,
                               states: seq<Trees>, ok: bool, last: Trees)
  {
    && |places| == |ids| && done <= |ids| && (ok <==> done == |ids|)
    && DeleteRun(nodes, places[..done], ids[..done], states)
    && (if ok then last == states[done] else DeleteStep(nodes, places[done], ids[done], false, states[done], last))
  }

  class GroupController {
    const cs: Controller

    constructor (cs: Controller)
      ensures this.cs == cs
    {
      this.cs := cs;
    }

    function Places(ids: seq<string>): (places: seq<Result<Place>>)
      reads cs
      ensures |places| == |ids| && forall i :: 0 <= i < |ids| ==> places[i] == cs.Locate(ids[i])
    {
      seq(|ids|, i requires 0 <= i < |ids| reads cs => cs.Locate(ids[i]))
    }

    function SnapshotPlaces(ids: seq<string>): (places: seq<Result<Place>>)
      reads cs
      ensures |places| == |ids| && forall i :: 0 <= i < |ids| ==> places[i] == cs.LocateSnapshot(ids[i])
    {
      seq(|ids|, i requires 0 <= i < |ids| reads cs => cs.LocateSnapshot(ids[i]))
    }

    /** One located source: a failed lookup is only logged, a failed create is reported. */
    static method SnapshotSource(conn: Connection, vgName: string, snapshotName: string, volName: string)
      returns (sizeBytes: Int64, failed: bool, ghost outcome: SourceOutcome)
      requires ValidName(vgName) && ValidName(snapshotName) && ValidName(volName) && WellFormed(conn.Disk().tree)
      modifies conn.Disk()
      ensures WellFormed(conn.Disk().tree)
      ensures SourceEffect(old(conn.Disk().tree), conn.lossy, Key(vgName, snapshotName), volName, outcome, conn.Disk().tree)
      ensures failed <==> outcome.CreateFailed?
      ensures sizeBytes == if outcome.Made? then outcome.size else 0
    {
      ghost var t := conn.Disk().tree;
      sizeBytes, failed := 0, false;
      var volObj := conn.GetVolume(vgName, snapshotName);
      if volObj.Err? {
        outcome := LookupFailed;
      } else if volObj.value.None? {
        var made, call := conn.CreateSnapshot(vgName, snapshotName, volName);
        assert PlaceCall(t, conn.lossy, Key(vgName, snapshotName), 0, Some(volName), made.Ok?, conn.Disk().tree, call);
        if made.Err? {
          failed := true;
          outcome := CreateFailed;
        } else {
          sizeBytes := made.value;
          outcome := Made(made.value);
        }
      } else {
        outcome := Existed;
      }
    }

    /** One source, located first; a source that cannot be located makes the group not ready. */
    method Turn(name: string, volName: string) returns (sizeBytes: Int64, failed: bool, ghost outcome: SourceOutcome)
      requires cs.Valid() && cs.ProperNames()
      requires volName in cs.volumes ==> ValidName(SnapshotName(name, volName))
      modifies cs.Disks()
      ensures cs.Valid()
      ensures SourceStep(cs.nodes, name, cs.Locate(volName), volName, outcome, old(cs.Trees()), cs.Trees())
      ensures failed <==> outcome.Unresolved? || outcome.CreateFailed?
      ensures sizeBytes == if outcome.Made? then outcome.size else 0
    {
      sizeBytes, failed, outcome := 0, true, Unresolved;
      var place := cs.Locate(volName);
      if place.Ok? {
        var node := place.value.node;
        sizeBytes, failed, outcome := SnapshotSource(cs.nodes[node], place.value.vg, SnapshotName(name, volName), volName);
        cs.OneDiskChanged(node);
      }
    }

    method DeleteOne(id: string) returns (r: Result<()>)
      requires cs.Valid() && cs.ProperNames() && (id != "" ==> ValidName(id))
      modifies cs.Disks()
      ensures cs.Valid()
      ensures DeleteStep(cs.nodes, cs.LocateSnapshot(id), id, r.Ok?, old(cs.Trees()), cs.Trees())
    {
      r := cs.DeleteSnapshot(id);
    }

    method CreateVolumeGroupSnapshot(name: string, sourceVolumeIds: seq<string>)
      returns (snapshots: seq<Snapshot>, volGroupSnapReady: bool, ghost trace: seq<SourceOutcome>, ghost states: seq<Trees>)
      requires cs.Valid() && cs.ProperNames()
      requires forall id :: id in sourceVolumeIds && id in cs.volumes ==> ValidName(SnapshotName(name, id))
      modifies cs.Disks()
      ensures cs.Valid()
      ensures GroupRun(cs.nodes, name, Places(sourceVolumeIds), sourceVolumeIds, trace, states)
      ensures states[0] == old(cs.Trees()) && states[|sourceVolumeIds|] == cs.Trees()
      ensures snapshots == SnapshotsOf(name, sourceVolumeIds, trace)
      ensures volGroupSnapReady == Ready(trace)
    {
      hide Controller.Trees, Controller.Valid, Controller.Disks, GroupRun, SourceStep, SnapshotsOf, Ready;
      snapshots, volGroupSnapReady := [], true;
      trace, states := [], [cs.Trees()];
      ghost var places := Places(sourceVolumeIds);
      NothingDone(cs.nodes, name, places, sourceVolumeIds, cs.Trees());
      var i := 0;
      while i < |sourceVolumeIds|
        invariant 0 <= i <= |sourceVolumeIds|
        invariant cs.Valid()
        invariant places == Places(sourceVolumeIds)
        invariant Progress(cs.nodes, name, places[..i], sourceVolumeIds[..i], trace, states, snapshots, volGroupSnapReady)
        invariant |states| == i + 1 && states[0] == old(cs.Trees()) && states[i] == cs.Trees()
      {
        var volName := sourceVolumeIds[i];
        assert volName in sourceVolumeIds;
        var sizeBytes, failed, outcome := Turn(name, volName);
        RunGrows(cs.nodes, name, places, sourceVolumeIds, i, trace, states, snapshots, volGroupSnapReady, outcome, cs.Trees());
        if failed {
          volGroupSnapReady := false;
        }
        if sizeBytes > 0 {
          snapshots := snapshots + [Snapshot(volName, SnapshotName(name, volName), sizeBytes, name)];
        }
        trace, states := trace + [outcome], states + [cs.Trees()];
        i := i + 1;
      }
      assert places[..i] == places && sourceVolumeIds[..i] == sourceVolumeIds;
    }

    method DeleteVolumeGroupSnapshot(snapshotIds: seq<string>)
      returns (r: Result<()>, ghost done: nat, ghost states: seq<Trees>)
      requires cs.Valid() && cs.ProperNames()
      requires forall id :: id in snapshotIds && id != "" ==> ValidName(id)
      modifies cs.Disks()
      ensures cs.Valid()
      ensures |states| > 0 && states[0] == old(cs.Trees())
      ensures DeleteResult(cs.nodes, SnapshotPlaces(snapshotIds), snapshotIds, done, states, r.Ok?, cs.Trees())
    {
      hide Controller.Trees, Controller.Valid, Controller.Disks, DeleteRun, DeleteStep;
      states := [cs.Trees()];
      ghost var places := SnapshotPlaces(snapshotIds);
      NothingDeleted(cs.nodes, places, snapshotIds, cs.Trees());
      done := 0;
      var i := 0;
      while i < |snapshotIds|
        invariant 0 <= i <= |snapshotIds| && done == i
        invariant cs.Valid()
        invariant places == SnapshotPlaces(snapshotIds)
        invariant DeleteRun(cs.nodes, places[..i], snapshotIds[..i], states)
        invariant |states| == i + 1 && states[0] == old(cs.Trees()) && states[i] == cs.Trees()
      {
        assert snapshotIds[i] in snapshotIds;
        var deleted := DeleteOne(snapshotIds[i]);
        if deleted.Err? {
          return Err(deleted.text), done, states;
        }
        DeleteGrows(cs.nodes, places, snapshotIds, i, states, cs.Trees());
        states := states + [cs.Trees()];
        i := i + 1;
        done := i;
      }
      return Ok(()), done, states;
    }
  }

  lemma NothingDeleted(nodes: map<string, Connection>, places: seq<Result<Place>>, ids: seq<string>, start: Trees)
    requires |places| == |ids|
    ensures DeleteRun(nodes, places[..0], ids[..0], [start])
  {
  }

  lemma DeleteGrows(nodes: map<string, Connection>, places: seq<Result<Place>>, ids: seq<string>, i: nat,
                    states: seq<Trees>, after: Trees)
    requires |places| == |ids| && i < |ids|
    requires DeleteRun(nodes, places[..i], ids[..i], states)
    requires DeleteStep(nodes, places[i], ids[i], true, states[i], after)
    ensures DeleteRun(nodes, places[..i + 1], ids[..i + 1], states + [after])
  {
    var places', ids', states' := places[..i + 1], ids[..i + 1], states + [after];
    forall j | 0 <= j < i + 1
      ensures DeleteStepAt(nodes, places', ids', states', j)
    {
      if j < i {
        assert DeleteStepAt(nodes, places[..i], ids[..i], states, j);
      }
    }
  }

  /** The loop's state after the given sources. */
  ghost predicate Progress(nodes: map<string, Connection>, group: string, places: seq<Result<Place>>, sources: seq<string>,
                           trace: seq<SourceOutcome>, states: seq<Trees>, snapshots: seq<Snapshot>, ready: bool)
  {
    && GroupRun(nodes, group, places, sources, trace, states)
    && snapshots == SnapshotsOf(group, sources, trace)
    && ready == Ready(trace)
  }

  lemma NothingDone(nodes: map<string, Connection>, group: string, places: seq<Result<Place>>, sources: seq<string>, start: Trees)
    requires |places| == |sources|
    ensures Progress(nodes, group, places[..0], sources[..0], [], [start], [], true)
  {
  }

  lemma RunGrows(nodes: map<string, Connection>, group: string, places: seq<Result<Place>>, sources: seq<string>, i: nat,
                 trace: seq<SourceOutcome>, states: seq<Trees>, snapshots: seq<Snapshot>, ready: bool,
                 o: SourceOutcome, after: Trees)
    requires |places| == |sources| && i < |sources|
    requires Progress(nodes, group, places[..i], sources[..i], trace, states, snapshots, ready)
    requires SourceStep(nodes, group, places[i], sources[i], o, states[i], after)
    ensures Progress(nodes, group, places[..i + 1], sources[..i + 1], trace + [o], states + [after],
                     if o.Made? && o.size > 0
                     then snapshots + [Snapshot(sources[i], SnapshotName(group, sources[i]), o.size, group)] else snapshots,
                     ready && !o.Unresolved? && !o.CreateFailed?)
  {
    assert sources[..i + 1][..i] == sources[..i] && (trace + [o])[..i] == trace;
    ReadyGrows(trace, o);
    RunPrefixGrows(nodes, group, places, sources, i, trace, states, o, after);
    assert snapshots + [] == snapshots;
  }

  lemma ReadyGrows(trace: seq<SourceOutcome>, o: SourceOutcome)
    ensures Ready(trace + [o]) <==> Ready(trace) && !o.Unresolved? && !o.CreateFailed?
  {
    var i := |trace|;
    assert (trace + [o])[i] == o;
    assert forall j :: 0 <= j < i ==> (trace + [o])[j] == trace[j];
  }

  lemma RunPrefixGrows(nodes: map<string, Connection>, group: string, places: seq<Result<Place>>, sources: seq<string>,
                       i: nat, trace: seq<SourceOutcome>, states: seq<Trees>, o: SourceOutcome, after: Trees)
    requires |places| == |sources| && i < |sources|
    requires GroupRun(nodes, group, places[..i], sources[..i], trace, states)
    requires SourceStep(nodes, group, places[i], sources[i], o, states[i], after)
    ensures GroupRun(nodes, group, places[..i + 1], sources[..i + 1], trace + [o], states + [after])
  {
    var places', sources', trace', states' := places[..i + 1], sources[..i + 1], trace + [o], states + [after];
    forall j | 0 <= j < i + 1
      ensures SourceStepAt(nodes, group, places', sources', trace', states', j)
    {
      if j < i {
        assert SourceStepAt(nodes, group, places[..i], sources[..i], trace, states, j);
      }
    }
  }
}
