/**
 * What each store method of pkg/server/hostpath_commands.go does to the file tree, as relations
 * between the tree before and after, on every tree: complete, half-made or otherwise.
 */
module StoreEffects {
  import opened Wrappers
  import opened Paths
  import opened Metadata
  import opened FileSystem
  import opened TreeCopy

  /** The record of a volume, when there is one that can be read. */
  function LoadMeta(t: Tree, vg: string, name: string): Option<Vol> {
    if IsFile(t, MetaPath(vg, name)) then Decode(t[MetaPath(vg, name)].data) else None
  }

  function DataAt(t: Tree, p: Path): string {
    if IsFile(t, p) then t[p].data else ""
  }

  /** The record is written at the front of whatever the file held. */
  function MetaWritten(t: Tree, vg: string, name: string, v: Vol): Node {
    File(Overwrite(DataAt(t, MetaPath(vg, name)), Encode(v)))
  }

  /** The directories and the record file of a volume can be made. */
  ghost predicate CanPlace(t: Tree, vg: string, name: string) {
    CanMake(t, MountPath(vg, name)) && !IsDir(t, MetaPath(vg, name))
  }

  ghost predicate CreateEffect(t: Tree, vg: string, name: string, size: UInt64, ok: bool, u: Tree) {
    && (ok <==> CanPlace(t, vg, name))
    && (ok ==> u == Made(t, MountPath(vg, name))[MetaPath(vg, name) := MetaWritten(t, vg, name, Record(vg, name, size))])
    && (!ok ==> u == t || u == Made(t, MountPath(vg, name)))
  }

  /** Outside the destination's record and data the tree is `made`: the copy only makes directories there. */
  ghost predicate SameBut(made: Tree, to: Path, meta: Path, u: Tree) {
    forall q :: !(to <= q) && q != meta ==> (q in u <==> q in made) && (q in u ==> u[q] == made[q])
  }

  /** Below `from` the entries are as in `made`, with every file emptied. */
  ghost predicate EmptiedBelow(made: Tree, from: Path, u: Tree) {
    forall q :: from <= q ==>
      (q in u <==> q in made) && (q in u ==> u[q] == Emptied(made, from, Below(made, from))[q])
  }

  /**
   * What the copy leaves below the destination. Into a fresh destination: the source's very tree if
   * and only if no source entry repeats the source's mount point. Onto the source itself: the same
   * entries, with every file emptied.
   */
  ghost predicate CopyData(t: Tree, made: Tree, from: Path, to: Path, u: Tree) {
    && IsDir(u, to)
    && (from != to && Fresh(made, to) && IsDir(t, from) ==> (SameBelow(t, from, u, to) <==> Copyable(t, from)))
    && (from == to ==> EmptiedBelow(made, from, u))
  }

  /** The copy of the data at `from` to `to` with `v` recorded at `meta`. */
  ghost predicate CopyAt(t: Tree, from: Path, to: Path, meta: Path, v: Vol, ok: bool, u: Tree) {
    && (ok <==> CanMake(t, to) && !IsDir(t, meta))
    && (!CanMake(t, to) ==> u == t)
    && (CanMake(t, to) ==> SameBut(Made(t, to), to, meta, u) && CopyData(t, Made(t, to), from, to, u))
    && (ok ==> meta in u && u[meta] == File(Overwrite(DataAt(t, meta), Encode(v))))
  }

  ghost predicate CopyEffect(t: Tree, vg: string, src: string, dst: string, ok: bool, u: Tree) {
    match LoadMeta(t, vg, src)
    case None => !ok && u == t
    case Some(v) => CopyAt(t, MountPath(vg, src), MountPath(vg, dst), MetaPath(vg, dst), v.(name := dst), ok, u)
  }

  ghost predicate ExpandEffect(t: Tree, vg: string, name: string, size: UInt64, ok: bool, u: Tree) {
    match LoadMeta(t, vg, name)
    case None => !ok && u == t
    case Some(v) => ok && u == t[MetaPath(vg, name) := File(Encode(v.(size := size)))]
  }

  ghost predicate RemoveEffect(t: Tree, vg: string, name: string, u: Tree) {
    u == RemovedAll(t, VolPath(vg, name))
  }

  // ---------------------------------------------------------------------------------------------
  // Listing
  // ---------------------------------------------------------------------------------------------

  /** The directories of a group, in one of the orders the directory may be read in. */
  ghost predicate GroupDirs(t: Tree, vg: string, names: seq<string>) {
    && NoDup(names)
    && forall c :: c in names <==> IsDir(t, GroupPath(vg) + [c])
  }

  /** Some directory of the group holds no readable record. */
  ghost predicate HalfMade(t: Tree, vg: string) {
    exists c :: IsDir(t, GroupPath(vg) + [c]) && LoadMeta(t, vg, c).None?
  }

  /** The list holds, for each directory in the order read, the record stored in it. */
  ghost predicate Lists(t: Tree, vg: string, names: seq<string>, vols: seq<Vol>) {
    && GroupDirs(t, vg, names)
    && |vols| == |names|
    && forall i :: 0 <= i < |vols| ==> LoadMeta(t, vg, names[i]) == Some(vols[i])
  }

  /** The group's directory cannot be listed: it is a file, or one of its directories is half-made. */
  ghost predicate ListingFails(t: Tree, vg: string) {
    IsFile(t, GroupPath(vg)) || HalfMade(t, vg)
  }

  /** A listing fails exactly when it must, and otherwise gives the records in the order the directory was read. */
  ghost predicate ListEffect(t: Tree, vg: string, r: Result<seq<Vol>>) {
    && (r.Err? <==> ListingFails(t, vg))
    && (r.Ok? ==> exists names :: Lists(t, vg, names, r.value))
  }

  /** What a failed listing says: which directory it stopped at, or that the group is no directory. */
  ghost predicate ListingText(t: Tree, vg: string, text: string) {
    || (IsFile(t, GroupPath(vg)) && text == "failed to walkup dir " + vg)
    || exists c :: StoppedAt(t, vg, c, text)
  }

  ghost predicate StoppedAt(t: Tree, vg: string, c: string, text: string) {
    && IsDir(t, GroupPath(vg) + [c]) && LoadMeta(t, vg, c).None?
    && Stop(c) <= text && MetaText(t, vg, c, text[|Stop(c)|..])
  }

  function Stop(c: string): string {
    "Parse metadata: " + c + ", with error: "
  }

  /** Why a record cannot be loaded: the path is quoted, or what the file holds. */
  ghost predicate MetaText(t: Tree, vg: string, name: string, text: string) {
    var p, file := MetaPath(vg, name), MetaFile(VolDir(vg, name));
    if IsFile(t, p) then "failed to unmarshal out:" + t[p].data <= text
    else if IsDir(t, p) then text == "read " + file + ": is a directory"
    else if NotExist(t, p) then text == "open " + file + ": no such file or directory"
    else text == "open " + file + ": not a directory"
  }

  // ---------------------------------------------------------------------------------------------
  // From the system calls to the effects
  // ---------------------------------------------------------------------------------------------

  /** Making a directory and then one inside it is making the inner one; if only the first can be made, it was there. */
  lemma MadeTwice(t: Tree, p: Path, c: string)
    requires WellFormed(t)
    ensures CanMake(t, p + [c]) ==> CanMake(t, p) && CanMake(Made(t, p), p + [c])
    ensures CanMake(t, p + [c]) ==> Made(Made(t, p), p + [c]) == Made(t, p + [c])
    ensures CanMake(t, p) && !CanMake(t, p + [c]) ==> !CanMake(Made(t, p), p + [c]) && Made(t, p) == t
  {
    if CanMake(t, p + [c]) {
      MadeInside(t, p, c);
    } else if CanMake(t, p) {
      var bad :| bad <= p + [c] && bad in t && t[bad].File?;
      PrefixCases(bad, p, c);
      AncestorsAreDirs(t, p + [c], p);
      MadeExisting(t, p);
    }
  }

  lemma MadeInside(t: Tree, p: Path, c: string)
    requires CanMake(t, p + [c])
    ensures CanMake(t, p) && CanMake(Made(t, p), p + [c])
    ensures Made(Made(t, p), p + [c]) == Made(t, p + [c])
  {
    hide Made;
    var inner, once := p + [c], Made(t, p);
    forall q | q <= p && q in t
      ensures t[q].Dir?
    {
      PrefixCases(q, p, c);
    }
    var twice, direct := Made(once, inner), Made(t, inner);
    forall q
      ensures q in twice <==> q in direct
    {
      PrefixCases(q, p, c);
    }
    assert twice == direct;
  }

  lemma PrefixCases(q: Path, p: Path, c: string)
    ensures q <= p + [c] <==> q <= p || q == p + [c]
  {
    if q <= p + [c] && q != p + [c] {
      ProperPrefix(q, p + [c]);
      assert Parent(p + [c]) == p;
    }
  }

  lemma MountsApart(vg: string, a: string, b: string)
    ensures a != b ==> Apart(MountPath(vg, a), MountPath(vg, b))
    ensures MetaPath(vg, a) != VolPath(vg, b) && !(MountPath(vg, a) <= MetaPath(vg, b))
    ensures !(MountPath(vg, a) <= VolPath(vg, b))
    ensures !(MetaPath(vg, a) <= MountPath(vg, b))
    ensures Parent(MetaPath(vg, a)) == VolPath(vg, a) && Parent(MountPath(vg, a)) == VolPath(vg, a)
  {
    assert MountPath(vg, a)[3] == a && MountPath(vg, b)[3] == b;
    assert MountPath(vg, a)[4] == MountName() && MountPath(vg, b)[4] == MountName();
    assert MetaPath(vg, a)[4] == MetaName() && MetaPath(vg, b)[4] == MetaName();
    assert |MetaName()| != |MountName()|;
  }

  /** Once the volume's directories are made, the record can be opened unless a directory is in its place. */
  lemma PlaceForMeta(t: Tree, vg: string, name: string)
    requires WellFormed(t)
    ensures CanMake(t, MountPath(vg, name)) ==>
      && (CanOpen(Made(t, MountPath(vg, name)), MetaPath(vg, name)) <==> !IsDir(t, MetaPath(vg, name)))
      && DataAt(Made(t, MountPath(vg, name)), MetaPath(vg, name)) == DataAt(t, MetaPath(vg, name))
  {
    MountsApart(vg, name, name);
    assert VolPath(vg, name) <= MountPath(vg, name);
  }

  lemma EmptyGroup(t: Tree, vg: string)
    requires WellFormed(t) && GroupPath(vg) !in t
    ensures Lists(t, vg, [], [])
    ensures !HalfMade(t, vg)
  {
    forall c
      ensures !IsDir(t, GroupPath(vg) + [c])
    {
      assert Parent(GroupPath(vg) + [c]) == GroupPath(vg);
    }
  }

  /** The records read so far, of the directories among the entries `seen`. */
  ghost predicate ListedSoFar(t: Tree, vg: string, seen: seq<string>, names: seq<string>, vols: seq<Vol>) {
    && NoDup(names) && |vols| == |names|
    && (forall c :: c in names <==> c in seen && IsDir(t, GroupPath(vg) + [c]))
    && (forall k :: 0 <= k < |vols| ==> LoadMeta(t, vg, names[k]) == Some(vols[k]))
  }

  lemma ListOne(t: Tree, vg: string, dirs: seq<string>, i: nat, names: seq<string>, vols: seq<Vol>, v: Vol)
    requires NoDup(dirs) && i < |dirs| && IsDir(t, GroupPath(vg) + [dirs[i]]) && LoadMeta(t, vg, dirs[i]) == Some(v)
    requires ListedSoFar(t, vg, dirs[..i], names, vols)
    ensures ListedSoFar(t, vg, dirs[..i + 1], names + [dirs[i]], vols + [v])
  {
    assert dirs[..i + 1] == dirs[..i] + [dirs[i]];
    assert dirs[i] !in dirs[..i];
  }

  lemma SkipOne(t: Tree, vg: string, dirs: seq<string>, i: nat, names: seq<string>, vols: seq<Vol>)
    requires i < |dirs| && !IsDir(t, GroupPath(vg) + [dirs[i]])
    requires ListedSoFar(t, vg, dirs[..i], names, vols)
    ensures ListedSoFar(t, vg, dirs[..i + 1], names, vols)
  {
    assert dirs[..i + 1] == dirs[..i] + [dirs[i]];
  }

  lemma ListComplete(t: Tree, vg: string, names: seq<string>, vols: seq<Vol>)
    requires Lists(t, vg, names, vols)
    ensures !HalfMade(t, vg)
  {
    forall c | IsDir(t, GroupPath(vg) + [c])
      ensures LoadMeta(t, vg, c).Some?
    {
      assert c in names;
      var i :| 0 <= i < |names| && names[i] == c;
    }
  }

  /** The copy's steps put together: directories made, tree walked, record written. */
  lemma CopyEffectDone(t: Tree, vg: string, src: string, dst: string, v: Vol, c: Tree, u: Tree)
    requires ValidName(vg) && ValidName(src) && ValidName(dst) && WellFormed(t)
    requires LoadMeta(t, vg, src) == Some(v) && CanMake(t, MountPath(vg, dst))
    requires Walked(Made(t, MountPath(vg, dst)), MountPath(vg, src), MountPath(vg, dst), c)
    requires u == Recorded(c, MetaPath(vg, dst), v.(name := dst))
    ensures CopyEffect(t, vg, src, dst, CanOpen(c, MetaPath(vg, dst)), u)
  {
    MountsApart(vg, dst, dst);
    MountsApart(vg, src, dst);
    PlaceForMeta(t, vg, dst);
    MadeWellFormed(t, MountPath(vg, dst));
    if src != dst {
      MountImagesClean(vg, src, dst);
    }
    CopyStepsDone(t, MountPath(vg, src), MountPath(vg, dst), MetaPath(vg, dst), v.(name := dst), c, u);
  }

  /** What the walk guarantees of the tree it leaves. */
  ghost predicate Walked(m: Tree, from: Path, to: Path, c: Tree)
    requires from != []
  {
    && WellFormed(c) && IsDir(c, to) && SameOutside(m, c, to)
    && (from != to && Fresh(m, to) ==> OnlyImages(m, from, c, to))
    && (from != to && Fresh(m, to) && IsDir(m, from) && Copyable(m, from) ==> SameBelow(m, from, c, to))
    && (from == to ==> c == Emptied(m, from, Below(m, from)))
  }

  function Recorded(c: Tree, meta: Path, v: Vol): Tree {
    if CanOpen(c, meta) then c[meta := File(Overwrite(DataAt(c, meta), Encode(v)))] else c
  }

  lemma CopyStepsDone(t: Tree, from: Path, to: Path, meta: Path, v: Vol, c: Tree, u: Tree)
    requires from != [] && to != [] && meta != [] && IsPath(to)
    requires WellFormed(t) && CanMake(t, to) && WellFormed(Made(t, to))
    requires Apart(from, to) || from == to
    requires !(to <= meta) && !(to <= Parent(meta))
    requires from != to ==> ImagesClean(from, to)
    requires Walked(Made(t, to), from, to, c)
    requires u == Recorded(c, meta, v)
    ensures CanOpen(c, meta) <==> CanOpen(Made(t, to), meta)
    ensures CanOpen(c, meta) ==> meta in u && u[meta] == File(Overwrite(DataAt(Made(t, to), meta), Encode(v)))
    ensures SameBut(Made(t, to), to, meta, u)
    ensures CopyData(t, Made(t, to), from, to, u)
  {
    var m := Made(t, to);
    RecordedOutside(m, to, meta, v, c, u);
    if from != to && Fresh(m, to) && IsDir(t, from) {
      CopyExactness(t, from, m, c, u, to, meta);
    }
    if from == to {
      SelfCopyEmpties(m, from, meta, c, u);
    }
  }

  lemma SelfCopyEmpties(m: Tree, from: Path, meta: Path, c: Tree, u: Tree)
    requires !(from <= meta) && c == Emptied(m, from, Below(m, from))
    requires forall q :: q != meta ==> (q in u <==> q in c) && (q in u ==> u[q] == c[q])
    ensures EmptiedBelow(m, from, u)
  {
  }

  lemma RecordedOutside(m: Tree, to: Path, meta: Path, v: Vol, c: Tree, u: Tree)
    requires meta != [] && !(to <= meta) && !(to <= Parent(meta))
    requires SameOutside(m, c, to) && u == Recorded(c, meta, v)
    ensures CanOpen(c, meta) <==> CanOpen(m, meta)
    ensures CanOpen(c, meta) ==> meta in u && u[meta] == File(Overwrite(DataAt(m, meta), Encode(v)))
    ensures SameBut(m, to, meta, u)
    ensures forall q :: q != meta ==> (q in u <==> q in c) && (q in u ==> u[q] == c[q])
  {
  }

  lemma CopyExactness(t: Tree, from: Path, m: Tree, c: Tree, u: Tree, to: Path, meta: Path)
    requires WellFormed(t) && from != [] && IsDir(t, from) && IsDir(m, from) && Apart(from, to)
    requires m == Made(t, to) && WellFormed(m) && !(to <= meta)
    requires ImagesClean(from, to) && OnlyImages(m, from, c, to)
    requires Copyable(m, from) ==> SameBelow(m, from, c, to)
    requires forall q :: q != meta ==> (q in u <==> q in c) && (q in u ==> u[q] == c[q])
    ensures SameBelow(t, from, u, to) <==> Copyable(t, from)
  {
    forall rel: Path
      ensures from + rel in m <==> from + rel in t
      ensures from + rel in t ==> m[from + rel] == t[from + rel]
      ensures to + rel in u <==> to + rel in c
      ensures to + rel in u ==> u[to + rel] == c[to + rel]
    {
      assert from <= from + rel && to <= to + rel;
      if from + rel <= to {
        PrefixTransitive(from, from + rel, to);
      }
    }
    if SameBelow(t, from, u, to) {
      assert SameBelow(m, from, c, to);
      ExactOnlyIfCopyable(m, from, c, to);
    }
  }

  lemma PrefixTransitive(p: Path, q: Path, r: Path)
    requires p <= q && q <= r
    ensures p <= r
  {
  }
}
