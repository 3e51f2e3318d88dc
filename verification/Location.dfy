/**
 * Where a volume lives: reading node and group back from a persistent volume (pkg/utils/common.go),
 * and the response from which the volume object is made (pkg/driver/controller.go, CreateVolume).
 */
module Location {
  import opened Wrappers
  import opened Strings
  import opened Integers

  const ANNO_SELECTED_NODE := "volume.kubernetes.io/selected-node"
  const NODE_KEY := "kubernetes.io/hostname"
  const VOLUME_GROUP_NAME := "csi.io/volume-group-name"

  datatype Requirement = Requirement(key: string, values: seq<string>)

  /**
   * The parts of a PersistentVolume the driver reads. `attributes` is None without a CSI source;
   * `affinity` is None without node affinity or without its required terms.
   */
  datatype PV = PV(name: string, attributes: Option<map<string, string>>, affinity: Option<seq<seq<Requirement>>>)

  /** The volume object's attributes name this group. */
  predicate GroupIs(pv: PV, vg: string) {
    && pv.attributes.Some? && "csi.io/volume-group-name" in pv.attributes.value
    && pv.attributes.value["csi.io/volume-group-name"] == vg
  }

  /** The first requirement of the volume object's first term is about the host name, and this is its first value. */
  predicate HostIs(pv: PV, node: string) {
    && pv.affinity.Some? && |pv.affinity.value| > 0 && |pv.affinity.value[0]| > 0
    && var first := pv.affinity.value[0][0];
       first.key == "kubernetes.io/hostname" && |first.values| > 0 && first.values[0] == node
  }

  function GetVGNameFromCsiPV(pv: PV): (vg: string)
    ensures vg != "" ==> GroupIs(pv, vg)
    ensures forall g :: GroupIs(pv, g) ==> vg == g
  {
    if pv.attributes.Some? && VOLUME_GROUP_NAME in pv.attributes.value
    then pv.attributes.value[VOLUME_GROUP_NAME] else ""
  }

  function GetNodeNameFromCsiPV(pv: PV): (node: string)
    ensures node != "" ==> HostIs(pv, node)
    ensures forall n :: HostIs(pv, n) ==> node == n
  {
    if pv.affinity.None? || |pv.affinity.value| == 0 then ""
    else if |pv.affinity.value[0]| == 0 then ""
    else
      var first := pv.affinity.value[0][0];
      if first.key != NODE_KEY || |first.values| == 0 then "" else first.values[0]
  }

  /** The name under which a snapshot's content object is looked up: the prefix replaced once. */
  function ContentName(prefix: string, snapshotID: string): string {
    ReplaceFirst(snapshotID, if prefix == "" then "snap" else prefix, "snapcontent")
  }

  datatype ContentSource = NoSource | FromSnapshot(snapshotId: string) | FromVolume(volumeId: string)

  datatype CreateVolumeResponse = CreateVolumeResponse(
    volumeId: string, capacity: Int64, context: map<string, string>, source: ContentSource,
    topology: map<string, string>)

  /** The volume context: node and group first, then every storage-class parameter over them. */
  method BuildContext(node: string, vg: string, parameters: map<string, string>) returns (context: map<string, string>)
    ensures context == map[ANNO_SELECTED_NODE := node, VOLUME_GROUP_NAME := vg] + parameters
  {
    context := map[ANNO_SELECTED_NODE := node, VOLUME_GROUP_NAME := vg];
    ghost var base := context;
    var rest := parameters.Keys;
    while rest != {}
      invariant rest <= parameters.Keys
      invariant context == base + (map key | key in parameters.Keys - rest :: parameters[key])
      decreases rest
    {
      var key :| key in rest;
      context := context[key := parameters[key]];
      rest := rest - {key};
    }
    assert (map key | key in parameters.Keys - rest :: parameters[key]) == parameters;
  }

  /** A sequence of the topology's requirements, one per segment. */
  ghost predicate SegmentsOf(topology: map<string, string>, term: seq<Requirement>) {
    && |term| == |topology|
    && forall i :: 0 <= i < |term| ==> term[i].key in topology && term[i].values == [topology[term[i].key]]
  }

  /** How the provisioner turns the response into a volume object: context to attributes, topology to the first term. */
  ghost predicate ProvisionedAs(r: CreateVolumeResponse, pv: PV) {
    && pv.name == r.volumeId
    && pv.attributes == Some(r.context)
    && pv.affinity.Some? && |pv.affinity.value| == 1 && SegmentsOf(r.topology, pv.affinity.value[0])
  }

  /**
   * Reading the location back from the provisioned volume gives the node always, and the group exactly
   * when no storage-class parameter of that name says otherwise.
   */
  lemma LocationRoundTrip(r: CreateVolumeResponse, pv: PV, node: string, vg: string, parameters: map<string, string>)
    requires r.context == map[ANNO_SELECTED_NODE := node, VOLUME_GROUP_NAME := vg] + parameters
    requires r.topology == map[NODE_KEY := node]
    requires ProvisionedAs(r, pv)
    ensures GetNodeNameFromCsiPV(pv) == node
    ensures GetVGNameFromCsiPV(pv) == vg
       <==> (VOLUME_GROUP_NAME in parameters ==> parameters[VOLUME_GROUP_NAME] == vg)
  {
    var term := pv.affinity.value[0];
    assert |r.topology| == 1 by {
      assert r.topology.Keys == {NODE_KEY};
    }
    assert term[0].key in r.topology;
    assert ANNO_SELECTED_NODE != VOLUME_GROUP_NAME by {
      assert ANNO_SELECTED_NODE[0] != VOLUME_GROUP_NAME[0];
    }
  }
}
