/**
 * The CSI controller (pkg/driver/controller.go): volumes and snapshots on the nodes' stores, located
 * through the cluster's volume objects. Cluster objects are the maps the listers would read.
 */
module CsiController {
  import opened Wrappers
  import opened Strings
  import opened Paths
  import opened Metadata
  import opened Integers
  import opened FileSystem
  import opened Volumes
  import opened Remote
  import opened Protocol
  import opened Rounding
  import opened Location

  type Trees = map<string, Tree>

  datatype Claim = Claim(namespace: string, name: string)

  datatype CreateVolumeRequest = CreateVolumeRequest(
    name: string, requiredBytes: Int64, parameters: map<string, string>, source: ContentSource)

  datatype Snapshot = Snapshot(sourceVolumeId: string, snapshotId: string, sizeBytes: Int64, groupSnapshotId: string)

  /** Where a request goes and what it asks of the node. */
  datatype CreatePlan = CreatePlan(node: string, key: Key, capacity: Int64, source: Option<string>)
  datatype Place = Place(node: string, vg: string)

  function Parameter(m: map<string, string>, key: string): string {
    if key in m then m[key] else ""
  }

  /** The volume a content source names; an empty name is no source to the node's service. */
  function SourceName(source: ContentSource): Option<string> {
    match source
    case NoSource => None
    case FromSnapshot(id) => if id == "" then None else Some(id)
    case FromVolume(id) => if id == "" then None else Some(id)
  }

  /** What is asked of the node: a snapshot, a volume to clone, or a blank volume. */
  function Options(k: Key, capacity: Int64, source: ContentSource): (req: CreateVolRequest)
    ensures Source(req) == SourceName(source)
    ensures req.volumeGroup == k.vg && req.name == k.name && req.size == ToUInt64(capacity)
    ensures req.snapshotName == if source.FromSnapshot? then source.snapshotId else ""
    ensures req.cloneName == if source.FromVolume? then source.volumeId else ""
  {
    CreateVolRequest(k.vg, k.name, ToUInt64(capacity),
      if source.FromVolume? then source.volumeId else "",
      if source.FromSnapshot? then source.snapshotId else "")
  }

  /** Only node `n`'s tree may differ. */
  ghost predicate OnlyAt(before: Trees, after: Trees, n: string) {
    n in before && n in after && after == before[n := after[n]]
  }

  lemma OnlyAtOne(before: Trees, after: Trees, n: string)
    requires before.Keys == after.Keys && n in before
    requires forall m :: m in before && m != n ==> after[m] == before[m]
    ensures OnlyAt(before, after, n)
  {
  }

  /** What a create request that passed its checks does to the cluster. */
  ghost predicate CreateDone(plan: CreatePlan, nodes: map<string, Connection>, before: Trees, replied: bool, after: Trees) {
    && plan.node in nodes && OnlyAt(before, after, plan.node)
    && CreateOutcome(before[plan.node], nodes[plan.node].lossy, plan.key, ToUInt64(plan.capacity), plan.source, replied,
                     after[plan.node])
  }

  /** The group, name and capacity the request asks for, and the volume or snapshot it is to be copied from. */
  ghost predicate PlanFor(req: CreateVolumeRequest, plan: CreatePlan) {
    && plan.key.name == ToLower(req.name)
    && plan.key.vg == (if "hostpath" in req.parameters then req.parameters["hostpath"] else "")
    && plan.capacity == GetRoundedCapacity(req.requiredBytes)
    && (forall id :: req.source == FromSnapshot(id) && id != "" ==> plan.source == Some(id))
    && (forall id :: req.source == FromVolume(id) && id != "" ==> plan.source == Some(id))
    && (req.source in {NoSource, FromSnapshot(""), FromVolume("")} ==> plan.source == None)
  }

  class Controller {
    var nodes: map<string, Connection>
    var volumes: map<string, PV>
    var claims: map<Claim, map<string, string>>
    var contents: map<string, string>
    var snapshotPrefix: string

    constructor (nodes: map<string, Connection>, volumes: map<string, PV>, claims: map<Claim, map<string, string>>,
                 contents: map<string, string>, snapshotPrefix: string)
      ensures this.nodes == nodes && this.volumes == volumes && this.claims == claims
      ensures this.contents == contents && this.snapshotPrefix == snapshotPrefix
    {
      this.nodes, this.volumes, this.claims, this.contents, this.snapshotPrefix :=
        nodes, volumes, claims, contents, snapshotPrefix;
    }

    function Disks(): set<Disk>
      reads this
    {
      set n | n in nodes :: nodes[n].Disk()
    }

    /** Each node has its own disk, and each disk holds a proper tree. */
    ghost predicate Valid()
      reads this, Disks()
    {
      && (forall m, n :: m in nodes && n in nodes && m != n ==> nodes[m].Disk() != nodes[n].Disk())
      && (forall n :: n in nodes ==> WellFormed(nodes[n].Disk().tree))
    }

    ghost function Trees(): Trees
      reads this, Disks()
    {
      map n | n in nodes :: nodes[n].Disk().tree
    }

    /** Object names and groups are proper file names; a volume object's group may be missing. */
    ghost predicate ProperNames()
      reads this
    {
      && (forall id :: id in volumes ==>
            ValidName(id) && (GetVGNameFromCsiPV(volumes[id]) == "" || ValidName(GetVGNameFromCsiPV(volumes[id]))))
      && (forall id :: id in contents ==> ValidName(contents[id]))
    }

    /** Looking a volume's node and group up; every way this fails ends the request. */
    function Locate(volumeID: string): (r: Result<Place>)
      reads this
      ensures r.Ok? <==> volumeID in volumes && GetVGNameFromCsiPV(volumes[volumeID]) != ""
                         && GetNodeNameFromCsiPV(volumes[volumeID]) != "" && GetNodeNameFromCsiPV(volumes[volumeID]) in nodes
      ensures r.Ok? ==>
        && GetVGNameFromCsiPV(volumes[volumeID]) == r.value.vg
        && GetNodeNameFromCsiPV(volumes[volumeID]) == r.value.node
    {
      if volumeID !in volumes then Err("fail to get pv")
      else
        var vg, node := GetVGNameFromCsiPV(volumes[volumeID]), GetNodeNameFromCsiPV(volumes[volumeID]);
        if vg == "" then Err("fail to get vgName of pv " + volumeID)
        else if node == "" then Err("fail to get node name of pv " + volumeID)
        else if node !in nodes then Err("fail to get grpc client at node " + node)
        else Ok(Place(node, vg))
    }

    /** After one node's disk changed, the trees differ at that node only. */
    twostate lemma OneDiskChanged(node: string)
      requires old(Valid()) && node in nodes && unchanged(this)
      requires WellFormed(nodes[node].Disk().tree)
      requires forall n :: n in nodes && n != node ==> unchanged(nodes[n].Disk())
      ensures Valid() && OnlyAt(old(Trees()), Trees(), node)
      ensures old(Trees())[node] == old(nodes[node].Disk().tree) && Trees()[node] == nodes[node].Disk().tree
    {
      OnlyAtOne(old(Trees()), Trees(), node);
    }

    // ---- CreateVolume -----------------------------------------------------------------------

    /** The claim the request is for is known, and the scheduler chose this connected node for it. */
    predicate ScheduledTo(req: CreateVolumeRequest, node: string)
      reads this
    {
      && "csi.storage.k8s.io/pvc/namespace" in req.parameters && "csi.storage.k8s.io/pvc/name" in req.parameters
      && var claim := Claim(req.parameters["csi.storage.k8s.io/pvc/namespace"], req.parameters["csi.storage.k8s.io/pvc/name"]);
      && claim.namespace != "" && claim.name != "" && claim in claims
      && "volume.kubernetes.io/selected-node" in claims[claim]
      && claims[claim]["volume.kubernetes.io/selected-node"] == node && node in nodes
    }

    /** The checks before anything is asked of a node. */
    function PlanCreate(req: CreateVolumeRequest): (r: Result<CreatePlan>)
      reads this
      ensures r.Ok? ==> r.value.node in nodes
      ensures r.Ok? ==> req.name != "" && ScheduledTo(req, r.value.node)
      ensures forall node :: req.name != "" && ScheduledTo(req, node) ==> r.Ok? && r.value.node == node
      ensures r.Ok? ==> PlanFor(req, r.value)
    {
      var claim := Claim(Parameter(req.parameters, "csi.storage.k8s.io/pvc/namespace"),
                         Parameter(req.parameters, "csi.storage.k8s.io/pvc/name"));
      if req.name == "" then Err("missing volume name")
      else if claim.name == "" || claim.namespace == "" then Err("pvcName or pvcNamespace can not be empty")
      else if claim !in claims then Err("fail to get pvc")
      else if ANNO_SELECTED_NODE !in claims[claim] then Err("no selected node")
      else
        var node := claims[claim][ANNO_SELECTED_NODE];
        if node !in nodes then Err("fail to connect to node " + node)
        else Ok(CreatePlan(node, Key(Parameter(req.parameters, "hostpath"), ToLower(req.name)),
                           GetRoundedCapacity(req.requiredBytes), SourceName(req.source)))
    }

    /** The answer a successful create gives: it depends on the request and the claim, not on the store. */
    function CreateResponse(req: CreateVolumeRequest, plan: CreatePlan): CreateVolumeResponse {
      CreateVolumeResponse(plan.key.name, plan.capacity,
        map[ANNO_SELECTED_NODE := plan.node, VOLUME_GROUP_NAME := plan.key.vg] + req.parameters,
        req.source, map[NODE_KEY := plan.node])
    }

    ghost predicate ProperCreate(req: CreateVolumeRequest)
      reads this
    {
      PlanCreate(req).Ok? ==>
        ValidKey(PlanCreate(req).value.key)
        && (SourceName(req.source).Some? ==> ValidName(SourceName(req.source).value))
    }

    method CreateVolume(req: CreateVolumeRequest) returns (r: Result<CreateVolumeResponse>)
      requires Valid() && ProperCreate(req)
      modifies Disks()
      ensures Valid()
      ensures match PlanCreate(req)
              case Err(_) => r.Err? && Trees() == old(Trees())
              case Ok(plan) => CreateDone(plan, nodes, old(Trees()), r.Ok?, Trees())
                               && (r.Ok? ==> r.value == CreateResponse(req, plan))
      ensures r.Ok? ==>
        && r.value.volumeId == ToLower(req.name) && r.value.capacity == GetRoundedCapacity(req.requiredBytes)
        && r.value.source == req.source
        && (exists node :: ScheduledTo(req, node) && r.value.topology == map["kubernetes.io/hostname" := node]
              && r.value.context == map["volume.kubernetes.io/selected-node" := node,
                                        "csi.io/volume-group-name" := Parameter(req.parameters, "hostpath")] + req.parameters)
    {
      match PlanCreate(req)
      case Err(text) => r := Err(text);
      case Ok(plan) => r := CreatePlanned(req, plan);
    }

    method CreatePlanned(req: CreateVolumeRequest, plan: CreatePlan) returns (r: Result<CreateVolumeResponse>)
      requires Valid() && plan.node in nodes && ValidKey(plan.key) && plan.source == SourceName(req.source)
      requires plan.source.Some? ==> ValidName(plan.source.value)
      modifies Disks()
      ensures Valid()
      ensures CreateDone(plan, nodes, old(Trees()), r.Ok?, Trees())
      ensures r.Ok? ==> r.value == CreateResponse(req, plan)
    {
      hide CreateDone, WellFormed, GetRoundedCapacity;
      var ensured := EnsureOnNode(plan, Options(plan.key, plan.capacity, req.source));
      var context := BuildContext(plan.node, plan.key.vg, req.parameters);
      r := if ensured.Err? then Err(ensured.text)
           else Ok(CreateVolumeResponse(plan.key.name, plan.capacity, context, req.source, map[NODE_KEY := plan.node]));
    }

    method EnsureOnNode(plan: CreatePlan, options: CreateVolRequest) returns (r: Result<()>)
      requires Valid() && plan.node in nodes && ProperRequest(options)
      requires plan.key == Key(options.volumeGroup, options.name) && plan.source == Source(options)
      requires options.size == ToUInt64(plan.capacity)
      modifies Disks()
      ensures Valid()
      ensures CreateDone(plan, nodes, old(Trees()), r.Ok?, Trees())
    {
      r := EnsureVolume(nodes[plan.node], options, plan.key, ToUInt64(plan.capacity), plan.source);
      OneDiskChanged(plan.node);
    }

    /** The part the three kinds of create share: look the volume up, create it if it is not there. */
    static method EnsureVolume(conn: Connection, options: CreateVolRequest, ghost k: Key, ghost size: UInt64,
                               ghost source: Option<string>) returns (r: Result<()>)
      requires ProperRequest(options) && WellFormed(conn.Disk().tree)
      requires k == Key(options.volumeGroup, options.name) && size == options.size && source == Source(options)
      modifies conn.Disk()
      ensures WellFormed(conn.Disk().tree)
      ensures CreateOutcome(old(conn.Disk().tree), conn.lossy, k, size, source, r.Ok?, conn.Disk().tree)
    {
      ghost var t := conn.Disk().tree;
      var volObj := conn.GetVolume(options.volumeGroup, options.name);
      if volObj.Err? {
        return Err("CreateVolume: fail to get lv: " + volObj.text);
      }
      if volObj.value.None? {
        var created, call := conn.CreateVolume(options);
        assert PlaceCall(t, conn.lossy, k, size, source, created.Ok?, conn.Disk().tree, call);
        if created.Err? {
          return Err("CreateVolume: fail to create lv: " + created.text);
        }
      }
      return Ok(());
    }

    // ---- DeleteVolume -----------------------------------------------------------------------

    /** The checks of a delete, in their order; an empty group means there is nothing to delete. */
    function PlanDelete(volumeID: string): (r: Result<Place>)
      reads this
      ensures r.Ok? ==> volumeID in volumes && r.value.node in nodes
      ensures r.Ok? <==> volumeID != "" && volumeID in volumes
                         && GetNodeNameFromCsiPV(volumes[volumeID]) != "" && GetNodeNameFromCsiPV(volumes[volumeID]) in nodes
      ensures r.Ok? ==>
        && GetNodeNameFromCsiPV(volumes[volumeID]) == r.value.node
        && GetVGNameFromCsiPV(volumes[volumeID]) == r.value.vg
    {
      if volumeID == "" then Err("missing volume id")
      else if volumeID !in volumes then Err("DeleteVolume: fail to get pv")
      else
        var node := GetNodeNameFromCsiPV(volumes[volumeID]);
        if node == "" then Err("DeleteVolume: fail to get node name of pv " + volumeID)
        else if node !in nodes then Err("DeleteVolume: fail to connect to node " + node)
        else Ok(Place(node, GetVGNameFromCsiPV(volumes[volumeID])))
    }

    method DeleteVolume(id: string) returns (r: Result<()>)
      requires Valid() && ProperNames()
      modifies Disks()
      ensures Valid()
      ensures var plan := PlanDelete(ToLower(id));
        && (plan.Err? ==> r.Err? && Trees() == old(Trees()))
        && (plan.Ok? && plan.value.vg == "" ==> r.Ok? && Trees() == old(Trees()))
        && (plan.Ok? && plan.value.vg != "" ==>
              && OnlyAt(old(Trees()), Trees(), plan.value.node)
              && (var t, conn := old(Trees()[plan.value.node]), nodes[plan.value.node];
                  DeleteVolumeOutcome(t, conn.lossy, conn.lost, Key(plan.value.vg, ToLower(id)), r.Ok?, Trees()[plan.value.node])))
      ensures NoCapitals(id) && PlanDelete(id).Ok? && PlanDelete(id).value.vg != "" ==>
        var node := PlanDelete(id).value.node;
        && OnlyAt(old(Trees()), Trees(), node)
        && DeleteVolumeOutcome(old(Trees()[node]), nodes[node].lossy, nodes[node].lost,
                               Key(GetVGNameFromCsiPV(volumes[id]), id), r.Ok?, Trees()[node])
    {
      LowerExactly(id);
      var volumeID := ToLower(id);
      var plan := PlanDelete(volumeID);
      if plan.Err? {
        return Err(plan.text);
      }
      var node, vgName := plan.value.node, plan.value.vg;
      if vgName == "" {
        return Ok(());
      }
      r := RemoveVolume(nodes[node], vgName, volumeID);
      OneDiskChanged(node);
    }

    /** Look the volume up, remove it if it is there; some lookup errors count as "not there". */
    static method RemoveVolume(conn: Connection, vgName: string, volumeID: string) returns (r: Result<()>)
      requires ValidName(vgName) && ValidName(volumeID) && WellFormed(conn.Disk().tree)
      modifies conn.Disk()
      ensures WellFormed(conn.Disk().tree)
      ensures DeleteVolumeOutcome(old(conn.Disk().tree), conn.lossy, conn.lost, Key(vgName, volumeID), r.Ok?, conn.Disk().tree)
    {
      ghost var t, k, lookup := conn.Disk().tree, Key(vgName, volumeID), conn.lost;
      var volObj := conn.GetVolume(vgName, volumeID);
      if volObj.Err? {
        lookup := volObj.text;
        r := if Swallowed(volObj.text, vgName) then Ok(())
             else Err("DeleteVolume: fail to get lv " + volumeID + ": " + volObj.text);
      } else if volObj.value.Some? {
        var deleted, call := conn.DeleteVolume(vgName, volumeID);
        assert RemoveCall(t, conn.lossy, k, deleted.Ok?, conn.Disk().tree, call);
        r := if deleted.Ok? then Ok(())
             else Err("DeleteVolume: fail to delete lv " + volumeID + ": " + deleted.text);
      } else {
        r := Ok(());
      }
      assert DeleteVolumeCall(t, conn.lossy, conn.lost, k, r.Ok?, conn.Disk().tree, lookup);
    }

    // ---- ControllerExpandVolume -------------------------------------------------------------

    method ControllerExpandVolume(volumeID: string, requiredBytes: Int64) returns (r: Result<Int64>)
      requires Valid() && ProperNames()
      modifies Disks()
      ensures Valid()
      ensures Locate(volumeID).Err? ==> r.Err? && Trees() == old(Trees())
      ensures Locate(volumeID).Ok? ==>
        var place := Locate(volumeID).value;
        && OnlyAt(old(Trees()), Trees(), place.node)
        && ExpandOutcome(old(Trees()[place.node]), nodes[place.node].lossy, Key(place.vg, volumeID),
                         ToUInt64(GetRoundedCapacity(requiredBytes)), r.Ok?, Trees()[place.node])
      ensures r.Ok? ==> r.value == GetRoundedCapacity(requiredBytes)
    {
      var place := Locate(volumeID);
      if place.Err? {
        return Err(place.text);
      }
      var node, vgName := place.value.node, place.value.vg;
      var volSizeBytes := GetRoundedCapacity(requiredBytes);
      var conn := nodes[node];
      ghost var t := conn.Disk().tree;
      var expanded, call := conn.ExpandVolume(vgName, volumeID, ToUInt64(volSizeBytes));
      OneDiskChanged(node);
      assert ExpandCall(t, conn.lossy, Key(vgName, volumeID), ToUInt64(volSizeBytes), expanded.Ok?, conn.Disk().tree, call);
      if expanded.Err? {
        return Err("ControllerExpandVolume: fail to expand lv: " + expanded.text);
      }
      return Ok(volSizeBytes);
    }

    // ---- CreateSnapshot ---------------------------------------------------------------------

    method CreateSnapshot(name: string, sourceVolumeId: string) returns (r: Result<Snapshot>)
      requires Valid() && ProperNames() && (name != "" ==> ValidName(name))
      modifies Disks()
      ensures Valid()
      ensures name == "" || Locate(sourceVolumeId).Err? ==> r.Err? && Trees() == old(Trees())
      ensures name != "" && Locate(sourceVolumeId).Ok? ==>
        var place := Locate(sourceVolumeId).value;
        var t, k := old(Trees()[place.node]), Key(place.vg, name);
        && OnlyAt(old(Trees()), Trees(), place.node)
        && CreateOutcome(t, nodes[place.node].lossy, k, 0, Some(sourceVolumeId), r.Ok?, Trees()[place.node])
        && (r.Ok? ==> ReportedSize(t, k, sourceVolumeId, r.value.sizeBytes)
                      && r.value == Snapshot(sourceVolumeId, name, r.value.sizeBytes, ""))
    {
      if name == "" {
        return Err("CreateSnapshot error invalid request");
      }
      var place := Locate(sourceVolumeId);
      if place.Err? {
        return Err(place.text);
      }
      var node, vgName := place.value.node, place.value.vg;
      var sizeBytes := EnsureSnapshot(nodes[node], vgName, name, sourceVolumeId);
      OneDiskChanged(node);
      r := if sizeBytes.Err? then Err(sizeBytes.text) else Ok(Snapshot(sourceVolumeId, name, sizeBytes.value, ""));
    }

    /** Look the snapshot up, make it if it is not there; the size stays 0 when it is. */
    static method EnsureSnapshot(conn: Connection, vgName: string, name: string, sourceVolumeId: string)
      returns (r: Result<Int64>)
      requires ValidName(vgName) && ValidName(name) && ValidName(sourceVolumeId) && WellFormed(conn.Disk().tree)
      modifies conn.Disk()
      ensures WellFormed(conn.Disk().tree)
      ensures CreateOutcome(old(conn.Disk().tree), conn.lossy, Key(vgName, name), 0, Some(sourceVolumeId), r.Ok?, conn.Disk().tree)
      ensures r.Ok? ==> ReportedSize(old(conn.Disk().tree), Key(vgName, name), sourceVolumeId, r.value)
    {
      ghost var t := conn.Disk().tree;
      var volObj := conn.GetVolume(vgName, name);
      if volObj.Err? {
        return Err("CreateSnapshot: get lvm snapshot " + name + " failed: " + volObj.text);
      }
      var sizeBytes: Int64 := 0;
      if volObj.value.None? {
        var made, call := conn.CreateSnapshot(vgName, name, sourceVolumeId);
        assert PlaceCall(t, conn.lossy, Key(vgName, name), 0, Some(sourceVolumeId), made.Ok?, conn.Disk().tree, call);
        if made.Err? {
          return Err("CreateSnapshot: create lvm snapshot " + name + " failed: " + made.text);
        }
        sizeBytes := made.value;
      }
      return Ok(sizeBytes);
    }

    // ---- DeleteSnapshot ---------------------------------------------------------------------

    /** The source volume is known from the snapshot's content object only. */
    function LocateSnapshot(snapshotID: string): (r: Result<Place>)
      reads this
      ensures r.Ok? ==> r.value.node in nodes && r.value.vg != ""
      ensures r.Ok? ==> snapshotID != ""
      ensures var content := ContentName(snapshotPrefix, snapshotID);
        && (content !in contents ==> r.Err?)
        && (snapshotID != "" && content in contents ==> r == Locate(contents[content]))
    {
      var content := ContentName(snapshotPrefix, snapshotID);
      if snapshotID == "" then Err("DeleteSnapshot: Snapshot ID not provided")
      else if content !in contents then Err("DeleteSnapshot: get snapContent " + snapshotID)
      else Locate(contents[content])
    }

    method DeleteSnapshot(snapshotID: string) returns (r: Result<()>)
      requires Valid() && ProperNames() && (snapshotID != "" ==> ValidName(snapshotID))
      modifies Disks()
      ensures Valid()
      ensures LocateSnapshot(snapshotID).Err? ==> r.Err? && Trees() == old(Trees())
      ensures LocateSnapshot(snapshotID).Ok? ==>
        var place := LocateSnapshot(snapshotID).value;
        var t := old(Trees()[place.node]);
        && OnlyAt(old(Trees()), Trees(), place.node)
        && DeleteOutcome(t, nodes[place.node].lossy, Key(place.vg, snapshotID), false, r.Ok?, Trees()[place.node])
    {
      var place := LocateSnapshot(snapshotID);
      if place.Err? {
        return Err(place.text);
      }
      var node, vgName := place.value.node, place.value.vg;
      r := RemoveListed(nodes[node], vgName, snapshotID);
      OneDiskChanged(node);
    }

    /** Look the snapshot up, remove it if it is there. */
    static method RemoveListed(conn: Connection, vgName: string, snapshotID: string) returns (r: Result<()>)
      requires ValidName(vgName) && ValidName(snapshotID) && WellFormed(conn.Disk().tree)
      modifies conn.Disk()
      ensures WellFormed(conn.Disk().tree)
      ensures DeleteOutcome(old(conn.Disk().tree), conn.lossy, Key(vgName, snapshotID), false, r.Ok?, conn.Disk().tree)
    {
      ghost var t := conn.Disk().tree;
      var volObj := conn.GetVolume(vgName, snapshotID);
      if volObj.Err? {
        return Err("DeleteSnapshot: get lvm snapshot " + snapshotID + " failed: " + volObj.text);
      }
      if volObj.value.Some? {
        var deleted, call := conn.DeleteSnapshot(vgName, snapshotID);
        assert RemoveCall(t, conn.lossy, Key(vgName, snapshotID), deleted.Ok?, conn.Disk().tree, call);
        if deleted.Err? {
          return Err("DeleteSnapshot: delete lvm snapshot " + snapshotID + " failed: " + deleted.text);
        }
      }
      return Ok(());
    }
  }
}
