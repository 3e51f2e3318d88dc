/**
 * The node's volume service (pkg/server/server.go) and the controller's connection to it
 * (pkg/client/grpc.go). A remote call may lose its request or its reply when the network is lossy.
 */
module Remote {
  import opened Wrappers
  import opened Paths
  import opened Metadata
  import opened Integers
  import opened FileSystem
  import opened StoreEffects
  import opened Volumes
  import opened HostPath

  datatype CreateVolRequest = CreateVolRequest(
    volumeGroup: string, name: string, size: UInt64, cloneName: string, snapshotName: string)

  /** The volume a create request copies, when it copies one; an empty name is no source. */
  function Source(req: CreateVolRequest): Option<string> {
    if req.snapshotName != "" then Some(req.snapshotName)
    else if req.cloneName != "" then Some(req.cloneName)
    else None
  }

  predicate ProperRequest(req: CreateVolRequest) {
    && ValidName(req.volumeGroup) && ValidName(req.name)
    && (Source(req).Some? ==> ValidName(Source(req).value))
  }

  /** A blank volume of the requested size, or a copy of the source, whose size the request does not affect. */
  ghost predicate PlaceEffect(t: Tree, k: Key, size: UInt64, source: Option<string>, ok: bool, u: Tree) {
    match source
    case None => CreateEffect(t, k.vg, k.name, size, ok, u)
    case Some(src) => CopyEffect(t, k.vg, src, k.name, ok, u)
  }

  /** The records of a listing in their reply form. */
  ghost predicate Replies(vols: seq<Vol>, r: seq<LogicalVolume>) {
    |r| == |vols| && forall i :: 0 <= i < |r| ==> IsReply(r[i], vols[i])
  }

  /** The group's records in reply form, in the order its directory was read, or the listing's failure. */
  ghost predicate ReplyEffect(t: Tree, vg: string, r: Result<seq<LogicalVolume>>) {
    && (r.Err? <==> ListingFails(t, vg))
    && (r.Ok? ==> exists names, vols :: Lists(t, vg, names, vols) && Replies(vols, r.value))
  }

  const LIST_ERROR := "failed to list LVs: "

  /** How the client sees an error of the service. */
  const RPC_ERROR := "rpc error: code = Internal desc = "

  /** The text of a listing that failed on the node, as the client gets it. */
  ghost predicate LookupText(t: Tree, vg: string, text: string) {
    RPC_ERROR + LIST_ERROR <= text && ListingText(t, vg, text[|RPC_ERROR + LIST_ERROR|..])
  }

  lemma LookupTextFails(t: Tree, vg: string, text: string)
    requires LookupText(t, vg, text)
    ensures ListingFails(t, vg)
  {
    var inner := text[|RPC_ERROR + LIST_ERROR|..];
    if !IsFile(t, GroupPath(vg)) {
      var c :| StoppedAt(t, vg, c, inner);
    }
  }

  class Server {
    const impl: HostPathCommands

    constructor (impl: HostPathCommands)
      ensures this.impl == impl
    {
      this.impl := impl;
    }

    method ListVol(volumeGroup: string) returns (r: Result<seq<LogicalVolume>>)
      requires ValidName(volumeGroup) && WellFormed(impl.disk.tree)
      ensures ReplyEffect(impl.disk.tree, volumeGroup, r)
      ensures r.Err? ==> LIST_ERROR <= r.text && ListingText(impl.disk.tree, volumeGroup, r.text[|LIST_ERROR|..])
    {
      var lvs := impl.ListVol(volumeGroup);
      if lvs.Err? {
        r := Err(LIST_ERROR + lvs.text);
        assert r.text[|LIST_ERROR|..] == lvs.text;
        return;
      }
      var pblvs := Convert(lvs.value);
      return Ok(pblvs);
    }

    /** The loop that fills the reply. */
    method Convert(lvs: seq<Vol>) returns (pblvs: seq<LogicalVolume>)
      ensures Replies(lvs, pblvs)
    {
      pblvs := [];
      for i := 0 to |lvs|
        invariant |pblvs| == i && forall j :: 0 <= j < i ==> IsReply(pblvs[j], lvs[j])
      {
        pblvs := pblvs + [ToProto(lvs[i])];
      }
    }

    method CreateVol(req: CreateVolRequest) returns (r: Result<string>)
      requires ProperRequest(req) && WellFormed(impl.disk.tree)
      modifies impl.disk
      ensures WellFormed(impl.disk.tree)
      ensures PlaceEffect(old(impl.disk.tree), Key(req.volumeGroup, req.name), req.size, Source(req), r.Ok?, impl.disk.tree)
      ensures req.snapshotName != "" ==>
        CopyEffect(old(impl.disk.tree), req.volumeGroup, req.snapshotName, req.name, r.Ok?, impl.disk.tree)
      ensures req.snapshotName == "" && req.cloneName != "" ==>
        CopyEffect(old(impl.disk.tree), req.volumeGroup, req.cloneName, req.name, r.Ok?, impl.disk.tree)
      ensures req.snapshotName == "" && req.cloneName == "" ==>
        CreateEffect(old(impl.disk.tree), req.volumeGroup, req.name, req.size, r.Ok?, impl.disk.tree)
    {
      if req.snapshotName != "" {
        r := impl.CloneVol(req.volumeGroup, req.snapshotName, req.name);
        if r.Err? {
          r := Err("failed to create vol from snapshot: " + r.text);
        }
      } else if req.cloneName != "" {
        r := impl.CloneVol(req.volumeGroup, req.cloneName, req.name);
        if r.Err? {
          r := Err("failed to create vol from clone: " + r.text);
        }
      } else {
        r := impl.CreateVol(req.volumeGroup, req.name, req.size);
        if r.Err? {
          r := Err("failed to create vol: " + r.text);
        }
      }
    }
  }

  // ---------------------------------------------------------------------------------------------
  // Looking a volume up
  // ---------------------------------------------------------------------------------------------

  /** Some complete directory of the group holds a record with this name. */
  ghost predicate Listed(t: Tree, k: Key) {
    exists c :: IsDir(t, GroupPath(k.vg) + [c]) && LoadMeta(t, k.vg, c).Some? && LoadMeta(t, k.vg, c).value.name == k.name
  }

  /** The first record with the name, whatever the order of the listing, or a failure of the listing. */
  ghost predicate LookupEffect(t: Tree, k: Key, r: Result<Option<LogicalVolume>>) {
    && (r.Err? <==> ListingFails(t, k.vg))
    && (r.Ok? ==> (r.value.Some? <==> Listed(t, k)))
    && (r.Ok? && r.value.Some? ==>
          r.value.value.name == k.name
          && exists c :: LoadMeta(t, k.vg, c).Some? && IsReply(r.value.value, LoadMeta(t, k.vg, c).value))
  }

  /** One message of a remote call. */
  datatype Delivery = Delivered | RequestLost | ReplyLost

  /** How a remote call that changes the store went: whether it was carried out, and with what success. */
  datatype Call = Call(done: bool, ok: bool)

  /** What the caller may conclude from the reply. */
  ghost predicate Honest(lossy: bool, call: Call, replied: bool) {
    && (replied ==> call.done && call.ok)
    && (!lossy ==> call.done && (call.ok ==> replied))
  }

  class Connection {
    const server: Server
    const lossy: bool
    /** The error text of a lost message. */
    const lost: string

    constructor (server: Server, lossy: bool, lost: string)
      ensures this.server == server && this.lossy == lossy && this.lost == lost
    {
      this.server, this.lossy, this.lost := server, lossy, lost;
    }

    function Disk(): Disk {
      server.impl.disk
    }

    method Deliver() returns (d: Delivery)
      ensures !lossy ==> d == Delivered
    {
      d := Delivered;
      if lossy {
        d := *;
      }
    }

    method GetVolume(volGroup: string, volumeID: string) returns (r: Result<Option<LogicalVolume>>)
      requires ValidName(volGroup) && WellFormed(Disk().tree)
      ensures LookupEffect(Disk().tree, Key(volGroup, volumeID), r) || (lossy && r == Err(lost))
      ensures !lossy ==> LookupEffect(Disk().tree, Key(volGroup, volumeID), r)
      ensures r.Err? ==> (lossy && r.text == lost) || LookupText(Disk().tree, volGroup, r.text)
    {
      var d := Deliver();
      if d != Delivered {
        return Err(lost);
      }
      var rsp := server.ListVol(volGroup);
      if rsp.Err? {
        r := Err(RPC_ERROR + rsp.text);
        assert RPC_ERROR + rsp.text == RPC_ERROR + LIST_ERROR + rsp.text[|LIST_ERROR|..];
        assert r.text[|RPC_ERROR + LIST_ERROR|..] == rsp.text[|LIST_ERROR|..];
        return;
      }
      var found := FirstNamed(rsp.value, volumeID);
      FirstIsListed(Disk().tree, Key(volGroup, volumeID), rsp.value, found);
      return Ok(found);
    }

    /** The search loop over the reply. */
    method FirstNamed(volumes: seq<LogicalVolume>, volumeID: string) returns (found: Option<LogicalVolume>)
      ensures found.Some? ==> found.value in volumes && found.value.name == volumeID
      ensures found.Some? ==>
        exists i :: 0 <= i < |volumes| && volumes[i] == found.value && forall j :: 0 <= j < i ==> volumes[j].name != volumeID
      ensures found.None? ==> forall v :: v in volumes ==> v.name != volumeID
    {
      var i := 0;
      while i < |volumes|
        invariant 0 <= i <= |volumes|
        invariant forall j :: 0 <= j < i ==> volumes[j].name != volumeID
      {
        if volumes[i].name == volumeID {
          return Some(volumes[i]);
        }
        i := i + 1;
      }
      return None;
    }

    method CreateVolume(req: CreateVolRequest) returns (r: Result<string>, ghost call: Call)
      requires ProperRequest(req) && WellFormed(Disk().tree)
      modifies Disk()
      ensures WellFormed(Disk().tree) && Honest(lossy, call, r.Ok?)
      ensures !call.done ==> Disk().tree == old(Disk().tree)
      ensures call.done ==>
        PlaceEffect(old(Disk().tree), Key(req.volumeGroup, req.name), req.size, Source(req), call.ok, Disk().tree)
    {
      var d := Deliver();
      call := Call(false, false);
      if d == RequestLost {
        return Err(lost), call;
      }
      r := server.CreateVol(req);
      call := Call(true, r.Ok?);
      if d == ReplyLost {
        return Err(lost), call;
      }
    }

    method DeleteVolume(volGroup: string, volumeID: string) returns (r: Result<()>, ghost call: Call)
      requires ValidName(volGroup) && ValidName(volumeID) && WellFormed(Disk().tree)
      modifies Disk()
      ensures WellFormed(Disk().tree) && Honest(lossy, call, r.Ok?) && (call.done ==> call.ok)
      ensures !call.done ==> Disk().tree == old(Disk().tree)
      ensures call.done ==> RemoveEffect(old(Disk().tree), volGroup, volumeID, Disk().tree)
    {
      var d := Deliver();
      call := Call(false, false);
      if d == RequestLost {
        return Err(lost), call;
      }
      NameHasNoDots(volGroup);
      NameHasNoDots(volumeID);
      var removed := server.impl.RemoveVol(volGroup, volumeID);
      call := Call(true, true);
      if d == ReplyLost {
        return Err(lost), call;
      }
      return Ok(()), call;
    }

    method DeleteSnapshot(volGroup: string, snapVolumeID: string) returns (r: Result<()>, ghost call: Call)
      requires ValidName(volGroup) && ValidName(snapVolumeID) && WellFormed(Disk().tree)
      modifies Disk()
      ensures WellFormed(Disk().tree) && Honest(lossy, call, r.Ok?) && (call.done ==> call.ok)
      ensures !call.done ==> Disk().tree == old(Disk().tree)
      ensures call.done ==> RemoveEffect(old(Disk().tree), volGroup, snapVolumeID, Disk().tree)
    {
      var d := Deliver();
      call := Call(false, false);
      if d == RequestLost {
        return Err(lost), call;
      }
      NameHasNoDots(volGroup);
      NameHasNoDots(snapVolumeID);
      var removed := server.impl.RemoveSnapshot(volGroup, snapVolumeID);
      call := Call(true, true);
      if d == ReplyLost {
        return Err(lost), call;
      }
      return Ok(()), call;
    }

    method CreateSnapshot(vgName: string, snapshotName: string, srcVolumeName: string)
      returns (r: Result<Int64>, ghost call: Call)
      requires ValidName(vgName) && ValidName(snapshotName) && ValidName(srcVolumeName) && WellFormed(Disk().tree)
      modifies Disk()
      ensures WellFormed(Disk().tree) && Honest(lossy, call, r.Ok?)
      ensures !call.done ==> Disk().tree == old(Disk().tree)
      ensures call.done ==> CopyEffect(old(Disk().tree), vgName, srcVolumeName, snapshotName, call.ok, Disk().tree)
      ensures r.Ok? ==>
        LoadMeta(old(Disk().tree), vgName, srcVolumeName).Some? && r.value == ToInt64(LoadMeta(old(Disk().tree), vgName, srcVolumeName).value.size)
    {
      var d := Deliver();
      call := Call(false, false);
      if d == RequestLost {
        return Err(lost), call;
      }
      r := server.impl.CreateSnapshot(vgName, snapshotName, srcVolumeName);
      call := Call(true, r.Ok?);
      if d == ReplyLost {
        return Err(lost), call;
      }
    }

    method ExpandVolume(volGroup: string, volumeID: string, size: UInt64) returns (r: Result<()>, ghost call: Call)
      requires ValidName(volGroup) && ValidName(volumeID) && WellFormed(Disk().tree)
      modifies Disk()
      ensures WellFormed(Disk().tree) && Honest(lossy, call, r.Ok?)
      ensures !call.done ==> Disk().tree == old(Disk().tree)
      ensures call.done ==> ExpandEffect(old(Disk().tree), volGroup, volumeID, size, call.ok, Disk().tree)
    {
      var d := Deliver();
      call := Call(false, false);
      if d == RequestLost {
        return Err(lost), call;
      }
      var expanded := server.impl.ExpandVol(volGroup, volumeID, size);
      call := Call(true, expanded.Ok?);
      if d == ReplyLost {
        return Err(lost), call;
      }
      match expanded
      case Ok(_) => return Ok(()), call;
      case Err(text) => return Err(text), call;
    }
  }

  lemma FirstIsListed(t: Tree, k: Key, reply: seq<LogicalVolume>, found: Option<LogicalVolume>)
    requires ReplyEffect(t, k.vg, Ok(reply))
    requires found.Some? ==> found.value in reply && found.value.name == k.name
    requires found.None? ==> forall v :: v in reply ==> v.name != k.name
    ensures LookupEffect(t, k, Ok(found))
  {
    var names, vols :| Lists(t, k.vg, names, vols) && Replies(vols, reply);
    if found.Some? {
      var i :| 0 <= i < |reply| && reply[i] == found.value;
      assert names[i] in names;
      assert LoadMeta(t, k.vg, names[i]) == Some(vols[i]);
      assert IsDir(t, GroupPath(k.vg) + [names[i]]);
    } else {
      forall c | IsDir(t, GroupPath(k.vg) + [c]) && LoadMeta(t, k.vg, c).Some?
        ensures LoadMeta(t, k.vg, c).value.name != k.name
      {
        assert c in names;
        var i :| 0 <= i < |names| && names[i] == c;
        assert reply[i] in reply;
      }
    }
  }

  /** Under the directory invariant the group can always be listed, and lists exactly the volumes there are. */
  lemma ListingUnder(t: Tree, s: Store, k: Key)
    requires Represents(t, s) && ValidName(k.vg)
    ensures !ListingFails(t, k.vg)
    ensures Listed(t, k) <==> k in s
  {
    assert CanMake(t, GroupPath(k.vg));
    forall c
      ensures IsDir(t, GroupPath(k.vg) + [c]) <==> Key(k.vg, c) in s
      ensures Key(k.vg, c) in s ==> LoadMeta(t, k.vg, c) == Some(Record(k.vg, c, s[Key(k.vg, c)].size))
    {
      assert Home(Key(k.vg, c)) == GroupPath(k.vg) + [c];
      if Key(k.vg, c) in s {
        PresentVolume(t, s, Key(k.vg, c));
      }
    }
    assert k == Key(k.vg, k.name);
    if k in s {
      assert IsDir(t, GroupPath(k.vg) + [k.name]);
    }
  }

  /**
   * Under the directory invariant the search through the listing agrees with direct lookup: it finds
   * a record exactly when the directory exists, and it is that directory's record.
   */
  lemma SearchAgrees(t: Tree, s: Store, k: Key, r: Result<Option<LogicalVolume>>)
    requires Represents(t, s) && ValidName(k.vg) && LookupEffect(t, k, r)
    ensures r.Ok? && (r.value.Some? <==> k in s) && (r.value.Some? <==> Home(k) in t)
    ensures k in s ==> r.value.value == LogicalVolume(k.vg, k.name, s[k].size, "", None, "", "ok")
    ensures k in s ==> LoadMeta(t, k.vg, k.name).Some? && IsReply(r.value.value, LoadMeta(t, k.vg, k.name).value)
  {
    ListingUnder(t, s, k);
    assert k == Key(k.vg, k.name);
    if k in s {
      PresentVolume(t, s, k);
      var c :| LoadMeta(t, k.vg, c).Some? && IsReply(r.value.value, LoadMeta(t, k.vg, c).value);
      var found := Key(k.vg, c);
      KeyPaths(found);
      AncestorsAreDirs(t, MetaOf(found), Home(found));
      PresentVolume(t, s, found);
    }
  }
}
