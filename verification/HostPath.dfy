/** The store itself: the methods of `HostPathCommads` (pkg/server/hostpath_commands.go). */
module HostPath {
  import opened Wrappers
  import opened Strings
  import opened Paths
  import opened Metadata
  import opened Integers
  import opened FileSystem
  import opened TreeCopy
  import opened StoreEffects

  class HostPathCommands {
    const disk: Disk

    constructor (disk: Disk)
      ensures this.disk == disk
    {
      this.disk := disk;
    }

    /**
     * `CopyFile`: the source is read after the destination was truncated; errors are the caller's to drop.
     * A directory can be opened but not read, so as a source it leaves an empty file.
     */
    method CopyFile(src: string, des: string) returns (ok: bool)
      requires WellFormed(disk.tree)
      modifies disk
      ensures WellFormed(disk.tree)
      ensures ok <==> IsFile(old(disk.tree), Resolve(src)) && CanOpen(old(disk.tree), Resolve(des))
      ensures IsFile(old(disk.tree), Resolve(src)) ==>
        disk.tree == EntryCopied(old(disk.tree), Resolve(src), Resolve(des), false)
      ensures IsDir(old(disk.tree), Resolve(src)) && CanOpen(old(disk.tree), Resolve(des)) ==>
        disk.tree == old(disk.tree)[Resolve(des) := File("")]
      ensures Resolve(src) !in old(disk.tree) || !CanOpen(old(disk.tree), Resolve(des)) ==> disk.tree == old(disk.tree)
    {
      if Resolve(src) !in disk.tree {
        return false;
      }
      ok := disk.OpenFile(des, true);
      if ok {
        var data := disk.ReadAll(src);
        if data.None? {
          return false;
        }
        disk.WriteString(des, data.value);
      }
    }

    /** The walk's callback for an entry; without information the entry could not be looked at, and nothing is done. */
    method VisitEntry(path: string, isDir: Option<bool>, srcMountPoint: string, destMountPoint: string)
      requires srcMountPoint != "" && WellFormed(disk.tree)
      requires isDir.Some? ==> Resolve(path) in disk.tree && isDir.value == disk.tree[Resolve(path)].Dir?
      modifies disk
      ensures WellFormed(disk.tree)
      ensures isDir.None? ==> disk.tree == old(disk.tree)
      ensures isDir.Some? ==>
        var target := Resolve(ReplaceAll(path, srcMountPoint, destMountPoint));
        disk.tree == EntryCopied(old(disk.tree), Resolve(path), target, NotExist(old(disk.tree), target))
    {
      if isDir.None? {
        return;
      }
      var destNewPath := ReplaceAll(path, srcMountPoint, destMountPoint);
      if !isDir.value {
        var _ := CopyFile(path, destNewPath);
      } else {
        var missing := disk.StatNotExist(destNewPath);
        if missing {
          var _ := disk.MkdirAll(destNewPath);
        }
      }
    }

    /** `filepath.Walk` over the source mount point with the copying callback. */
    method CopyTree(srcMountPoint: string, destMountPoint: string, ghost from: Path, ghost to: Path)
      requires IsPath(from) && IsPath(to) && from != [] && to != []
      requires srcMountPoint == Render(from) && destMountPoint == Render(to)
      requires Apart(from, to) || from == to
      requires WellFormed(disk.tree) && IsDir(disk.tree, to)
      modifies disk
      ensures WellFormed(disk.tree) && IsDir(disk.tree, to)
      ensures SameOutside(old(disk.tree), disk.tree, to)
      ensures from != to && Fresh(old(disk.tree), to) ==> OnlyImages(old(disk.tree), from, disk.tree, to)
      ensures from != to && Fresh(old(disk.tree), to) && IsDir(old(disk.tree), from) && Copyable(old(disk.tree), from)
          ==> SameBelow(old(disk.tree), from, disk.tree, to)
      ensures from == to ==> disk.tree == Emptied(old(disk.tree), from, Below(old(disk.tree), from))
    {
      ghost var t0 := disk.tree;
      ghost var done: set<Path> := {};
      ResolveRender(from);
      var root := Resolve(srcMountPoint);
      var pending: seq<Path> := [root];
      if root !in disk.tree {
        RenderNonEmpty(from);
        VisitEntry(srcMountPoint, None, srcMountPoint, destMountPoint);
        pending := [];
      }
      WalkStart(t0, from, to);
      while pending != []
        invariant WalkState(t0, from, disk.tree, to, pending, done)
        decreases Below(t0, from) - done
      {
        var p := pending[0];
        assert p in pending;
        ghost var rel, t1 := p[|from|..], disk.tree;
        SplitPrefix(from, p);
        SourceKept(t0, from, t1, to, done, p);
        TailIsPath(from, rel);
        var kids := Visit(p, srcMountPoint, destMountPoint, from, to, rel);
        WalkStep(t0, from, t1, to, pending, done, rel, kids);
        pending := kids + pending[1..];
        assert p in Below(t0, from) && p !in done;
        done := done + {p};
      }
      WalkEnd(t0, from, disk.tree, to, done);
    }

    /** One entry of the walk: the callback, then the names below it when it is a directory. */
    method Visit(p: Path, srcMountPoint: string, destMountPoint: string, ghost from: Path, ghost to: Path, ghost rel: Path)
      returns (kids: seq<Path>)
      requires IsPath(from) && IsPath(to) && IsPath(rel) && from != [] && to != []
      requires srcMountPoint == Render(from) && destMountPoint == Render(to)
      requires WellFormed(disk.tree) && IsDir(disk.tree, to) && p == from + rel && p in disk.tree
      modifies disk
      ensures disk.tree == Visited(old(disk.tree), from, to, rel)
      ensures NoDup(kids)
      ensures forall q :: q in kids <==> q in disk.tree && q != [] && Parent(q) == p
    {
      ResolveRender(p);
      ResolveRender(from);
      RebasedPath(from, to, rel);
      RenderNonEmpty(from);
      VisitedFrame(disk.tree, from, disk.tree, to, rel);
      var path := Render(p);
      var isDir := disk.tree[p].Dir?;
      assert path == srcMountPoint <==> rel == [] by { SamePlace(from, rel); }
      if path != srcMountPoint {
        VisitEntry(path, Some(isDir), srcMountPoint, destMountPoint);
      }
      kids := [];
      if isDir {
        assert IsDir(disk.tree, p);
        var names := disk.ReadDir(path);
        kids := seq(|names.value|, i requires 0 <= i < |names.value| => p + [names.value[i]]);
        KidsAreChildren(disk.tree, p, names.value, kids);
      } else {
        NoKids(disk.tree, p);
      }
    }

    /** `getVolMeta`. */
    method GetVolMeta(vg: string, vol: string) returns (r: Result<Vol>)
      requires IsComponent(vg) && IsComponent(vol)
      ensures LoadMeta(disk.tree, vg, vol) == if r.Ok? then Some(r.value) else None
      ensures r.Err? ==> MetaText(disk.tree, vg, vol, r.text)
    {
      LayoutStrings(vg, vol);
      ResolveRender(MetaPath(vg, vol));
      var metaFile := MetaFile(VolDir(vg, vol));
      var out := disk.ReadAll(metaFile);
      if out.None? {
        var missing := disk.StatNotExist(metaFile);
        return Err(if Resolve(metaFile) in disk.tree then "read " + metaFile + ": is a directory"
                   else if missing then "open " + metaFile + ": no such file or directory"
                   else "open " + metaFile + ": not a directory");
      }
      match Decode(out.value)
      case None =>
        return Err("failed to unmarshal out:" + out.value);
      case Some(v) =>
        return Ok(v);
    }

    /** The record file is created if need be and the record is written at its start. */
    method WriteMeta(metaFile: string, v: Vol) returns (ok: bool)
      requires WellFormed(disk.tree)
      modifies disk
      ensures WellFormed(disk.tree)
      ensures ok <==> CanOpen(old(disk.tree), Resolve(metaFile))
      ensures !ok ==> disk.tree == old(disk.tree)
      ensures ok ==>
        disk.tree == old(disk.tree)[Resolve(metaFile) := File(Overwrite(DataAt(old(disk.tree), Resolve(metaFile)), Encode(v)))]
    {
      ok := disk.OpenFile(metaFile, false);
      if ok {
        disk.WriteString(metaFile, Encode(v));
      }
    }

    /** The volume's directory and its mount point: MkdirAll twice. */
    method MakeVolume(vg: string, name: string) returns (ok: bool)
      requires ValidName(vg) && ValidName(name) && WellFormed(disk.tree)
      modifies disk
      ensures WellFormed(disk.tree)
      ensures ok <==> CanMake(old(disk.tree), MountPath(vg, name))
      ensures disk.tree == if ok then Made(old(disk.tree), MountPath(vg, name)) else old(disk.tree)
    {
      LayoutStrings(vg, name);
      ResolveRender(VolPath(vg, name));
      ResolveRender(MountPath(vg, name));
      MadeTwice(disk.tree, VolPath(vg, name), MountName());
      var volPath := VolDir(vg, name);
      ok := disk.MkdirAll(volPath);
      if ok {
        var mountPoint := MountPoint(volPath);
        ok := disk.MkdirAll(mountPoint);
      }
    }

    method CreateVol(vg: string, name: string, size: UInt64) returns (r: Result<string>)
      requires ValidName(vg) && ValidName(name) && WellFormed(disk.tree)
      modifies disk
      ensures WellFormed(disk.tree)
      ensures CreateEffect(old(disk.tree), vg, name, size, r.Ok?, disk.tree)
      ensures r.Ok? ==> r.value == name
    {
      LayoutStrings(vg, name);
      ResolveRender(MetaPath(vg, name));
      PlaceForMeta(disk.tree, vg, name);
      var made := MakeVolume(vg, name);
      if !made {
        return Err("failed to create " + VolDir(vg, name));
      }
      var vol := Vol(name, size, None, vg, "ok", "", "");
      var written := WriteMeta(MetaFile(VolDir(vg, name)), vol);
      if !written {
        return Err("failed to create metadata " + MetaFile(VolDir(vg, name)));
      }
      return Ok(name);
    }

    /** The body that CloneVol and CreateSnapshot share: load, make, walk, record. */
    method CopyVolume(vg: string, src: string, dst: string) returns (r: Result<Vol>)
      requires ValidName(vg) && ValidName(src) && ValidName(dst) && WellFormed(disk.tree)
      modifies disk
      ensures WellFormed(disk.tree)
      ensures CopyEffect(old(disk.tree), vg, src, dst, r.Ok?, disk.tree)
      ensures r.Ok? ==>
        LoadMeta(old(disk.tree), vg, src).Some? && r.value == LoadMeta(old(disk.tree), vg, src).value.(name := dst)
    {
      var loaded := GetVolMeta(vg, src);
      if loaded.Err? {
        return Err("failed to load vol " + src + " metadata, err: " + loaded.text);
      }
      var destVolInfo := loaded.value.(name := dst);
      ghost var t := disk.tree;
      var made := MakeVolume(vg, dst);
      if !made {
        return Err("failed to create " + VolDir(vg, dst));
      }
      LayoutStrings(vg, src);
      LayoutStrings(vg, dst);
      MountsApart(vg, src, dst);
      MadeWellFormed(t, MountPath(vg, dst));
      CopyTree(MountPoint(VolDir(vg, src)), MountPoint(VolDir(vg, dst)), MountPath(vg, src), MountPath(vg, dst));
      ghost var copied := disk.tree;
      ResolveRender(MetaPath(vg, dst));
      var written := WriteMeta(MetaFile(VolDir(vg, dst)), destVolInfo);
      CopyEffectDone(t, vg, src, dst, loaded.value, copied, disk.tree);
      if !written {
        return Err("failed to create metadata " + MetaFile(VolDir(vg, dst)));
      }
      return Ok(destVolInfo);
    }

    method CloneVol(vg: string, src: string, dest: string) returns (r: Result<string>)
      requires ValidName(vg) && ValidName(src) && ValidName(dest) && WellFormed(disk.tree)
      modifies disk
      ensures WellFormed(disk.tree)
      ensures CopyEffect(old(disk.tree), vg, src, dest, r.Ok?, disk.tree)
      ensures r.Ok? ==> r.value == dest
    {
      var copied := CopyVolume(vg, src, dest);
      match copied
      case Err(text) => return Err(text);
      case Ok(v) => return Ok(dest);
    }

    /** The reply is the source's size, converted to int64. */
    method CreateSnapshot(vg: string, snapshot: string, src: string) returns (r: Result<Int64>)
      requires ValidName(vg) && ValidName(src) && ValidName(snapshot) && WellFormed(disk.tree)
      modifies disk
      ensures WellFormed(disk.tree)
      ensures CopyEffect(old(disk.tree), vg, src, snapshot, r.Ok?, disk.tree)
      ensures r.Ok? ==>
        LoadMeta(old(disk.tree), vg, src).Some? && r.value == ToInt64(LoadMeta(old(disk.tree), vg, src).value.size)
    {
      var copied := CopyVolume(vg, src, snapshot);
      match copied
      case Err(text) => return Err(text);
      case Ok(v) => return Ok(ToInt64(v.size));
    }

    method ExpandVol(vg: string, vol: string, expectSize: UInt64) returns (r: Result<string>)
      requires ValidName(vg) && ValidName(vol) && WellFormed(disk.tree)
      modifies disk
      ensures WellFormed(disk.tree)
      ensures ExpandEffect(old(disk.tree), vg, vol, expectSize, r.Ok?, disk.tree)
      ensures r.Ok? ==> r.value == vol
    {
      var loaded := GetVolMeta(vg, vol);
      if loaded.Err? {
        return Err("failed to load vol " + vol + " metadata, err: " + loaded.text);
      }
      var volInfo := loaded.value.(size := expectSize);
      LayoutStrings(vg, vol);
      ResolveRender(MetaPath(vg, vol));
      var metaFile := MetaFile(VolDir(vg, vol));
      assert IsDir(disk.tree, Parent(MetaPath(vg, vol)));
      disk.Remove(metaFile);
      assert MetaPath(vg, vol) != Parent(MetaPath(vg, vol));
      var written := WriteMeta(metaFile, volInfo);
      assert disk.tree == old(disk.tree)[MetaPath(vg, vol) := File(Encode(volInfo))];
      return Ok(vol);
    }

    method RemoveVol(vg: string, name: string) returns (r: Result<string>)
      requires NoDots(vg) && NoDots(name) && WellFormed(disk.tree)
      modifies disk
      ensures WellFormed(disk.tree)
      ensures disk.tree == RemovedAll(old(disk.tree), Resolve(VolDir(vg, name))) && r == Ok(name)
      ensures IsComponent(vg) && IsComponent(name) ==> RemoveEffect(old(disk.tree), vg, name, disk.tree)
    {
      VolDirBelowRoot(vg, name);
      if IsComponent(vg) && IsComponent(name) {
        LayoutStrings(vg, name);
        ResolveRender(VolPath(vg, name));
      }
      disk.RemoveAll(VolDir(vg, name));
      return Ok(name);
    }

    method RemoveSnapshot(vg: string, name: string) returns (r: Result<string>)
      requires NoDots(vg) && NoDots(name) && WellFormed(disk.tree)
      modifies disk
      ensures WellFormed(disk.tree)
      ensures disk.tree == RemovedAll(old(disk.tree), Resolve(VolDir(vg, name))) && r == Ok("")
      ensures IsComponent(vg) && IsComponent(name) ==> RemoveEffect(old(disk.tree), vg, name, disk.tree)
    {
      VolDirBelowRoot(vg, name);
      if IsComponent(vg) && IsComponent(name) {
        LayoutStrings(vg, name);
        ResolveRender(VolPath(vg, name));
      }
      disk.RemoveAll(VolDir(vg, name));
      return Ok("");
    }

    /** Read every directory of the group in the order the directory gives them; stop at the first bad one. */
    method ListVol(vg: string) returns (r: Result<seq<Vol>>)
      requires ValidName(vg) && WellFormed(disk.tree)
      ensures ListEffect(disk.tree, vg, r)
      ensures r.Err? ==> ListingText(disk.tree, vg, r.text)
    {
      LayoutStrings(vg, vg);
      ResolveRender(GroupPath(vg));
      var dirPath := GroupDir(vg);
      ghost var names: seq<string> := [];
      if Resolve(dirPath) !in disk.tree {
        EmptyGroup(disk.tree, vg);
        return Ok([]);
      }
      var entries := disk.ReadDir(dirPath);
      if entries.None? {
        return Err("failed to walkup dir " + vg);
      }
      var dirs := entries.value;
      var vols: seq<Vol> := [];
      var i := 0;
      while i < |dirs|
        invariant 0 <= i <= |dirs|
        invariant ListedSoFar(disk.tree, vg, dirs[..i], names, vols)
      {
        assert dirs[i] in dirs;
        if IsDir(disk.tree, GroupPath(vg) + [dirs[i]]) {
          ChildComponent(disk.tree, GroupPath(vg), dirs[i]);
          var vol := GetVolMeta(vg, dirs[i]);
          if vol.Err? {
            assert (Stop(dirs[i]) + vol.text)[|Stop(dirs[i])|..] == vol.text;
            assert StoppedAt(disk.tree, vg, dirs[i], Stop(dirs[i]) + vol.text);
            return Err("Parse metadata: " + dirs[i] + ", with error: " + vol.text);
          }
          ListOne(disk.tree, vg, dirs, i, names, vols, vol.value);
          vols := vols + [vol.value];
          names := names + [dirs[i]];
        } else {
          SkipOne(disk.tree, vg, dirs, i, names, vols);
        }
        i := i + 1;
      }
      assert dirs[..i] == dirs;
      assert Lists(disk.tree, vg, names, vols);
      ListComplete(disk.tree, vg, names, vols);
      return Ok(vols);
    }

    /** The path a pod's mount is bound to: the volume's mount point, whoever the caller is. */
    function GetVolPath(vg: string, vol: string): (path: string)
      ensures path == "" <==> vg == "" || vol == ""
      ensures vg != "" && vol != "" ==> path == "/opt/csi-hostpath/" + vg + "/" + vol + "/mountpoint"
      ensures IsComponent(vg) && IsComponent(vol) ==> Resolve(path) == MountPath(vg, vol)
    {
      if IsComponent(vg) && IsComponent(vol) then
        LayoutStrings(vg, vol);
        ResolveRender(MountPath(vg, vol));
        MountPoint(VolDir(vg, vol))
      else if vg == "" || vol == "" then "" else MountPoint(VolDir(vg, vol))
    }
  }

  lemma SamePlace(from: Path, rel: Path)
    requires IsPath(from) && IsPath(rel)
    ensures Render(from + rel) == Render(from) <==> rel == []
  {
    ResolveRender(from);
    ResolveRender(from + rel);
    if rel == [] {
      assert from + rel == from;
    } else {
      assert |from + rel| != |from|;
    }
  }

  lemma KidsAreChildren(t: Tree, p: Path, names: seq<string>, kids: seq<Path>)
    requires NoDup(names) && forall c :: c in names <==> p + [c] in t
    requires |kids| == |names| && forall i :: 0 <= i < |kids| ==> kids[i] == p + [names[i]]
    ensures NoDup(kids)
    ensures forall q :: q in kids <==> q in t && q != [] && Parent(q) == p
  {
    forall i, j | 0 <= i < j < |kids|
      ensures kids[i] != kids[j]
    {
      assert kids[i][|p|] == names[i] && kids[j][|p|] == names[j];
    }
    forall q
      ensures q in kids <==> q in t && q != [] && Parent(q) == p
    {
      if q in kids {
        var i :| 0 <= i < |kids| && kids[i] == q;
        assert names[i] in names;
      }
      if q in t && q != [] && Parent(q) == p {
        assert q == p + [q[|p|]];
        assert q[|p|] in names;
        var i :| 0 <= i < |names| && names[i] == q[|p|];
        assert kids[i] == q;
      }
    }
  }

  lemma NoKids(t: Tree, p: Path)
    requires WellFormed(t) && IsFile(t, p)
    ensures forall q :: q in t && q != [] ==> Parent(q) != p
  {
  }
}
