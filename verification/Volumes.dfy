/**
 * The abstract store: a map from group and name to size and data. `Represents` says that a file tree
 * implements such a map; it is the invariant the store's directories keep, and every store method is
 * shown to implement the corresponding step on the map.
 */
module Volumes {
  import opened Wrappers
  import opened Paths
  import opened Metadata
  import opened FileSystem
  import opened TreeCopy
  import opened StoreEffects

  datatype Key = Key(vg: string, name: string)

  /** `files` holds the data by path relative to the mount point; the mount point itself is `[]`. */
  datatype Volume = Volume(size: UInt64, files: Tree)

  type Store = map<Key, Volume>

  const NO_FILES: Tree := map[[] := Dir]

  predicate ValidKey(k: Key) {
    ValidName(k.vg) && ValidName(k.name)
  }

  function Home(k: Key): Path { VolPath(k.vg, k.name) }
  function MetaOf(k: Key): Path { MetaPath(k.vg, k.name) }
  function MountOf(k: Key): Path { MountPath(k.vg, k.name) }

  /** What the tree has below `p` is exactly `files`. */
  ghost predicate HoldsFiles(t: Tree, p: Path, files: Tree) {
    forall rel: Path ::
      && (p + rel in t <==> rel in files)
      && (p + rel in t ==> t[p + rel] == files[rel])
  }

  function FilesAt(t: Tree, p: Path): Tree {
    map rel | rel in RelativeBelow(t, p) :: t[p + rel]
  }

  function RelativeBelow(t: Tree, p: Path): (rels: set<Path>)
    ensures forall rel :: rel in rels <==> p + rel in t
  {
    var rels := set q | q in t && p <= q :: q[|p|..];
    assert forall rel :: rel in rels <==> p + rel in t by {
      forall rel: Path
        ensures rel in rels <==> p + rel in t
      {
        assert (p + rel)[|p|..] == rel;
        if rel in rels {
          var q :| q in t && p <= q && q[|p|..] == rel;
          SplitPrefix(p, q);
        }
      }
    }
    rels
  }

  /** The volume's record and data are on disk as the map has them. */
  ghost predicate Stored(t: Tree, k: Key, v: Volume) {
    && IsFile(t, MetaOf(k)) && t[MetaOf(k)].data == Encode(Record(k.vg, k.name, v.size))
    && IsDir(t, MountOf(k))
    && HoldsFiles(t, MountOf(k), v.files)
  }

  /**
   * The directory invariant and the abstraction in one: the directories of the groups are exactly the
   * map's keys, each complete, with a record naming its own directory and group.
   */
  ghost predicate Represents(t: Tree, s: Store) {
    && WellFormed(t)
    && GroupsClear(t)
    && KeysMatch(t, s)
    && AllStored(t, s)
  }

  /** No file stands where a group's directory belongs. */
  ghost predicate GroupsClear(t: Tree) {
    forall vg :: ValidName(vg) ==> CanMake(t, GroupPath(vg))
  }

  ghost predicate KeysMatch(t: Tree, s: Store) {
    && (forall k :: k in s ==> ValidKey(k))
    && (forall k: Key :: ValidName(k.vg) ==> (k in s <==> Home(k) in t))
  }

  ghost predicate AllStored(t: Tree, s: Store) {
    forall k :: k in s ==> Stored(t, k, s[k])
  }

  /** A new disk holds the empty store. */
  lemma NewDiskIsEmpty()
    ensures Represents(map[[] := Dir], map[])
  {
  }

  /** The trees agree at and below `p`. */
  ghost predicate Unchanged(t: Tree, u: Tree, p: Path) {
    forall q :: p <= q ==> (q in t <==> q in u) && (q in t ==> t[q] == u[q])
  }

  lemma KeyPaths(k: Key)
    ensures Home(k) <= MetaOf(k) && Home(k) <= MountOf(k)
    ensures Parent(Home(k)) == GroupPath(k.vg) && Parent(MetaOf(k)) == Home(k) && Parent(MountOf(k)) == Home(k)
    ensures Apart(MetaOf(k), MountOf(k))
    ensures MetaOf(k) != Home(k) && MountOf(k) != Home(k) && Home(k) != [] && MountOf(k) != []
    ensures GroupPath(k.vg) <= Home(k)
  {
    VolumesApart(k.vg, k.name, k.vg, k.name, []);
  }

  lemma KeysApart(k: Key, k': Key, q: Path)
    requires k != k' && Home(k) <= q
    ensures !(Home(k') <= q)
  {
    VolumesApart(k.vg, k.name, k'.vg, k'.name, q);
  }

  lemma StoredFrame(t: Tree, u: Tree, k: Key, v: Volume)
    requires Stored(t, k, v) && Unchanged(t, u, Home(k))
    ensures Stored(u, k, v)
  {
    KeyPaths(k);
    forall q | MountOf(k) <= q && (q in t || q in u)
      ensures Home(k) <= q
    {
      PrefixTransitive(Home(k), MountOf(k), q);
    }
    HoldsElsewhere(t, u, MountOf(k), v.files);
  }

  lemma HoldsElsewhere(t: Tree, u: Tree, p: Path, files: Tree)
    requires HoldsFiles(t, p, files) && Unchanged(t, u, p)
    ensures HoldsFiles(u, p, files)
  {
    assert forall rel: Path :: p + rel in t || p + rel in u ==> p <= p + rel;
  }

  /** The trees differ at and below `home` only, but for directories made on the way to it. */
  ghost predicate ChangedOnlyIn(t: Tree, u: Tree, home: Path) {
    && (forall q :: !(home <= q) && q in t ==> q in u && u[q] == t[q])
    && (forall q :: !(home <= q) && q in u && q !in t ==> q <= home && u[q].Dir?)
  }

  /**
   * A change confined to one volume's directory, which leaves that volume complete, changes just that
   * volume of the map.
   */
  lemma OneVolumeChanged(t: Tree, s: Store, u: Tree, k: Key, v: Volume)
    requires Represents(t, s) && ValidKey(k) && WellFormed(u)
    requires ChangedOnlyIn(t, u, Home(k))
    requires Stored(u, k, v)
    ensures Represents(u, s[k := v])
  {
    GroupsStay(t, u, k);
    KeyPaths(k);
    AncestorsAreDirs(u, MetaOf(k), Home(k));
    KeysStay(t, s, u, k, v);
    OthersStored(t, s, u, k, v);
  }

  lemma KeysStay(t: Tree, s: Store, u: Tree, k: Key, v: Volume)
    requires KeysMatch(t, s) && ValidKey(k)
    requires ChangedOnlyIn(t, u, Home(k)) && Home(k) in u
    ensures KeysMatch(u, s[k := v])
  {
    forall k': Key | ValidName(k'.vg)
      ensures k' in s[k := v] <==> Home(k') in u
    {
      if k' != k {
        ElsewhereUnchanged(t, u, k, k');
      }
    }
  }

  lemma OthersStored(t: Tree, s: Store, u: Tree, k: Key, v: Volume)
    requires AllStored(t, s) && Stored(u, k, v)
    requires ChangedOnlyIn(t, u, Home(k))
    ensures AllStored(u, s[k := v])
  {
    forall k' | k' in s && k' != k
      ensures Stored(u, k', s[k'])
    {
      ElsewhereUnchanged(t, u, k, k');
      StoredFrame(t, u, k', s[k']);
    }
  }

  lemma GroupsStay(t: Tree, u: Tree, k: Key)
    requires GroupsClear(t)
    requires ChangedOnlyIn(t, u, Home(k))
    ensures GroupsClear(u)
  {
    forall vg | ValidName(vg)
      ensures CanMake(u, GroupPath(vg))
    {
      GroupStays(t, u, k, vg);
    }
  }

  lemma GroupStays(t: Tree, u: Tree, k: Key, vg: string)
    requires CanMake(t, GroupPath(vg))
    requires ChangedOnlyIn(t, u, Home(k))
    ensures CanMake(u, GroupPath(vg))
  {
    forall q | q <= GroupPath(vg) && q in u
      ensures u[q].Dir?
    {
      assert |GroupPath(vg)| == 3 && |Home(k)| == 4;
      assert !(Home(k) <= q);
    }
  }

  lemma ElsewhereUnchanged(t: Tree, u: Tree, k: Key, k': Key)
    requires k != k'
    requires ChangedOnlyIn(t, u, Home(k))
    ensures Unchanged(t, u, Home(k'))
  {
    forall q | Home(k') <= q && (q in t || q in u)
      ensures !(Home(k) <= q) && !(q <= Home(k))
    {
      KeysApart(k', k, q);
      if q <= Home(k) {
        PrefixTransitive(Home(k'), q, Home(k));
        KeysApart(k', k, Home(k));
      }
    }
  }

  // ---------------------------------------------------------------------------------------------
  // The store methods implement the map's steps
  // ---------------------------------------------------------------------------------------------

  lemma AbsentVolume(t: Tree, s: Store, k: Key)
    requires Represents(t, s) && ValidKey(k) && k !in s
    ensures forall q :: Home(k) <= q ==> q !in t
    ensures CanMake(t, MountOf(k))
    ensures LoadMeta(t, k.vg, k.name).None?
  {
    KeyPaths(k);
    forall q | Home(k) <= q && q in t
      ensures false
    {
      AncestorsAreDirs(t, q, Home(k));
    }
    forall q | q <= MountOf(k) && q in t
      ensures t[q].Dir?
    {
      BothPrefixes(q, Home(k), MountOf(k));
      if q <= Home(k) && q != Home(k) {
        ProperPrefix(q, Home(k));
        assert CanMake(t, GroupPath(k.vg));
      }
    }
  }

  lemma PresentVolume(t: Tree, s: Store, k: Key)
    requires Represents(t, s) && k in s
    ensures LoadMeta(t, k.vg, k.name) == Some(Record(k.vg, k.name, s[k].size))
    ensures IsDir(t, Home(k)) && IsDir(t, MountOf(k))
  {
    KeyPaths(k);
    DecodeEncode(Record(k.vg, k.name, s[k].size), "");
    AncestorsAreDirs(t, MetaOf(k), Home(k));
  }

  /** A blank volume under a new name. */
  lemma CreateRefines(t: Tree, s: Store, k: Key, size: UInt64, ok: bool, u: Tree)
    requires Represents(t, s) && ValidKey(k) && k !in s
    requires CreateEffect(t, k.vg, k.name, size, ok, u) && WellFormed(u)
    ensures ok && Represents(u, s[k := Volume(size, NO_FILES)])
  {
    KeyPaths(k);
    AbsentVolume(t, s, k);
    BlankPlaced(t, Home(k), MountOf(k), MetaOf(k), Encode(Record(k.vg, k.name, size)), u);
    OneVolumeChanged(t, s, u, k, Volume(size, NO_FILES));
  }

  lemma BlankPlaced(t: Tree, home: Path, to: Path, meta: Path, text: string, u: Tree)
    requires forall q :: home <= q ==> q !in t
    requires home <= to && home <= meta && !(to <= meta) && !(meta <= to)
    requires u == Made(t, to)[meta := File(text)]
    ensures IsDir(u, to) && HoldsFiles(u, to, NO_FILES)
    ensures ChangedOnlyIn(t, u, home)
  {
    forall rel: Path
      ensures to + rel in u <==> rel in NO_FILES
      ensures to + rel in u ==> u[to + rel] == NO_FILES[rel]
    {
      PrefixTransitive(home, to, to + rel);
      assert to + rel <= to <==> rel == [];
      if rel == [] {
        assert to + rel == to;
      }
    }
    forall q | !(home <= q) && q in u && q !in t
      ensures q <= home
    {
      BothPrefixes(q, home, to);
    }
  }

  /** No file name in the data repeats the mount point of the volume it lies in. */
  ghost predicate CopyableFiles(k: Key, files: Tree) {
    forall rel :: rel in files ==> !Repeats(MountOf(k), rel)
  }

  /**
   * A clone or snapshot under a new name is always a complete volume with the source's size, and its
   * data is the source's data if and only if no name in the data repeats the source's mount point.
   */
  lemma CopyRefines(t: Tree, s: Store, src: Key, k: Key, ok: bool, u: Tree) returns (files: Tree)
    requires Represents(t, s) && src in s && ValidKey(k) && k !in s && k.vg == src.vg
    requires CopyEffect(t, k.vg, src.name, k.name, ok, u) && WellFormed(u)
    ensures ok && Represents(u, s[k := Volume(s[src].size, files)])
    ensures files == s[src].files <==> CopyableFiles(src, s[src].files)
  {
    files := FilesAt(u, MountOf(k));
    CopyPlaces(t, s, src, k, ok, u);
    OneVolumeChanged(t, s, u, k, Volume(s[src].size, files));
    CopyExact(t, s, src, k, ok, u);
    assert Stored(t, src, s[src]);
    CopiedFiles(t, src, s[src].files, u, k, files);
  }

  lemma CopyPlaces(t: Tree, s: Store, src: Key, k: Key, ok: bool, u: Tree)
    requires Represents(t, s) && src in s && ValidKey(k) && k !in s && k.vg == src.vg
    requires CopyEffect(t, k.vg, src.name, k.name, ok, u) && WellFormed(u)
    ensures ok && Stored(u, k, Volume(s[src].size, FilesAt(u, MountOf(k))))
    ensures ChangedOnlyIn(t, u, Home(k))
  {
    KeyPaths(k);
    AbsentVolume(t, s, k);
    PresentVolume(t, s, src);
    CopyAtPlaces(t, MountOf(src), Home(k), MountOf(k), MetaOf(k), Record(k.vg, k.name, s[src].size), ok, u);
  }

  lemma CopyExact(t: Tree, s: Store, src: Key, k: Key, ok: bool, u: Tree)
    requires Represents(t, s) && src in s && ValidKey(k) && k !in s && k.vg == src.vg
    requires CopyEffect(t, k.vg, src.name, k.name, ok, u)
    ensures SameBelow(t, MountOf(src), u, MountOf(k)) <==> Copyable(t, MountOf(src))
  {
    KeyPaths(k);
    AbsentVolume(t, s, k);
    PresentVolume(t, s, src);
    MountsApart(k.vg, src.name, k.name);
    CopyAtExact(t, MountOf(src), Home(k), MountOf(k), MetaOf(k), Record(k.vg, k.name, s[src].size), ok, u);
  }

  lemma CopyAtPlaces(t: Tree, from: Path, home: Path, to: Path, meta: Path, v: Vol, ok: bool, u: Tree)
    requires CopyAt(t, from, to, meta, v, ok, u)
    requires CanMake(t, to) && forall q :: home <= q ==> q !in t
    requires home <= to && home <= meta && !(to <= meta) && to != [] && Parent(to) == home
    ensures ok && IsFile(u, meta) && u[meta].data == Encode(v) && IsDir(u, to)
    ensures ChangedOnlyIn(t, u, home)
  {
    var made := Made(t, to);
    forall q | !(home <= q) && (q in t || q in u || q in made)
      ensures !(to <= q) && q != meta
      ensures q <= to ==> q <= home
    {
      if to <= q {
        PrefixTransitive(home, to, q);
      }
      if q <= to {
        BothPrefixes(q, home, to);
      }
    }
  }

  lemma CopyAtExact(t: Tree, from: Path, home: Path, to: Path, meta: Path, v: Vol, ok: bool, u: Tree)
    requires CopyAt(t, from, to, meta, v, ok, u)
    requires CanMake(t, to) && IsDir(t, from) && from != to && to != [] && forall q :: home <= q ==> q !in t
    requires home <= to
    ensures SameBelow(t, from, u, to) <==> Copyable(t, from)
  {
    var made := Made(t, to);
    forall q | q in made && to <= q
      ensures q == to
    {
      PrefixTransitive(home, to, q);
    }
  }

  lemma CopiedFiles(t: Tree, src: Key, before: Tree, u: Tree, k: Key, files: Tree)
    requires HoldsFiles(t, MountOf(src), before) && files == FilesAt(u, MountOf(k))
    requires SameBelow(t, MountOf(src), u, MountOf(k)) <==> Copyable(t, MountOf(src))
    ensures files == before <==> CopyableFiles(src, before)
  {
    assert Copyable(t, MountOf(src)) <==> CopyableFiles(src, before);
    if SameBelow(t, MountOf(src), u, MountOf(k)) {
      assert files == before;
    }
    if files == before {
      forall rel: Path
        ensures MountOf(src) + rel in t <==> MountOf(k) + rel in u
        ensures MountOf(src) + rel in t ==> t[MountOf(src) + rel] == u[MountOf(k) + rel]
      {
        assert rel in files <==> rel in before;
      }
    }
  }

  /** A copy from a missing source changes nothing and fails; in particular a missing volume is never copied onto itself. */
  lemma CopyOfMissing(t: Tree, s: Store, src: Key, k: Key, ok: bool, u: Tree)
    requires Represents(t, s) && ValidKey(src) && src !in s && k.vg == src.vg
    requires CopyEffect(t, k.vg, src.name, k.name, ok, u)
    ensures !ok && u == t
  {
    AbsentVolume(t, s, src);
  }

  // ---- Under a taken name: the methods have no guard of their own ------------------------------

  /** A record of another size written over the volume's, all else of it being complete. */
  lemma RecordOverwritten(t: Tree, s: Store, k: Key, size: UInt64, files: Tree, u: Tree)
    requires Represents(t, s) && k in s && WellFormed(u) && ChangedOnlyIn(t, u, Home(k))
    requires IsDir(u, MountOf(k)) && HoldsFiles(u, MountOf(k), files)
    requires IsFile(u, MetaOf(k))
    requires u[MetaOf(k)].data == Overwrite(Encode(Record(k.vg, k.name, s[k].size)), Encode(Record(k.vg, k.name, size)))
    ensures |Decimal(size)| >= |Decimal(s[k].size)| ==> Represents(u, s[k := Volume(size, files)])
    ensures |Decimal(size)| < |Decimal(s[k].size)| ==> HalfMade(u, k.vg) && forall s' :: !Represents(u, s')
  {
    OverwriteDecodes(Record(k.vg, k.name, s[k].size), Record(k.vg, k.name, size));
    RecordLength(k.vg, k.name, s[k].size, size);
    KeyPaths(k);
    if |Decimal(size)| >= |Decimal(s[k].size)| {
      assert Stored(u, k, Volume(size, files));
      OneVolumeChanged(t, s, u, k, Volume(size, files));
    } else {
      AncestorsAreDirs(u, MetaOf(k), Home(k));
      assert Home(k) == GroupPath(k.vg) + [k.name];
      Unreadable(u, k);
    }
  }

  lemma Unreadable(u: Tree, k: Key)
    requires ValidKey(k) && IsDir(u, Home(k)) && LoadMeta(u, k.vg, k.name).None?
    ensures forall s :: !Represents(u, s)
  {
    forall s | Represents(u, s)
      ensures false
    {
      assert k in s;
      PresentVolume(u, s, k);
    }
  }

  /**
   * A blank create under a taken name, as when two creates both found the name free, always reports
   * success: it is a resize that keeps the data when the new size has at least as many digits, and
   * otherwise leaves the group half-made.
   */
  lemma CreateOverTaken(t: Tree, s: Store, k: Key, size: UInt64, ok: bool, u: Tree)
    requires Represents(t, s) && k in s
    requires CreateEffect(t, k.vg, k.name, size, ok, u) && WellFormed(u)
    ensures ok
    ensures |Decimal(size)| >= |Decimal(s[k].size)| ==> Represents(u, s[k := s[k].(size := size)])
    ensures |Decimal(size)| < |Decimal(s[k].size)| ==> HalfMade(u, k.vg) && forall s' :: !Represents(u, s')
  {
    KeyPaths(k);
    PresentVolume(t, s, k);
    MadeExisting(t, MountOf(k));
    assert Stored(t, k, s[k]);
    HoldsElsewhere(t, u, MountOf(k), s[k].files);
    RecordOverwritten(t, s, k, size, s[k].files, u);
  }

  /**
   * The same for a clone or snapshot: the record's fate is decided by the digits of the two sizes. What
   * the data becomes where the trees meet is not said.
   */
  lemma CopyOverTaken(t: Tree, s: Store, src: Key, k: Key, ok: bool, u: Tree) returns (files: Tree)
    requires Represents(t, s) && src in s && k in s && k.vg == src.vg
    requires CopyEffect(t, k.vg, src.name, k.name, ok, u) && WellFormed(u)
    ensures ok
    ensures |Decimal(s[src].size)| >= |Decimal(s[k].size)| ==> Represents(u, s[k := Volume(s[src].size, files)])
    ensures |Decimal(s[src].size)| < |Decimal(s[k].size)| ==> HalfMade(u, k.vg) && forall s' :: !Represents(u, s')
  {
    KeyPaths(k);
    PresentVolume(t, s, src);
    PresentVolume(t, s, k);
    MadeExisting(t, MountOf(k));
    assert Stored(t, k, s[k]);
    files := FilesAt(u, MountOf(k));
    CopyStaysHome(t, MountOf(src), Home(k), MountOf(k), MetaOf(k), Record(k.vg, k.name, s[src].size), ok, u);
    RecordOverwritten(t, s, k, s[src].size, files, u);
  }

  lemma CopyStaysHome(t: Tree, from: Path, home: Path, to: Path, meta: Path, v: Vol, ok: bool, u: Tree)
    requires CopyAt(t, from, to, meta, v, ok, u) && CanMake(t, to) && Made(t, to) == t
    requires home <= to && home <= meta
    ensures ChangedOnlyIn(t, u, home)
  {
    forall q | !(home <= q) && (q in t || q in u)
      ensures !(to <= q) && q != meta
    {
      if to <= q {
        PrefixTransitive(home, to, q);
      }
    }
  }

  lemma ExpandRefines(t: Tree, s: Store, k: Key, size: UInt64, ok: bool, u: Tree)
    requires Represents(t, s) && ValidKey(k) && WellFormed(u)
    requires ExpandEffect(t, k.vg, k.name, size, ok, u)
    ensures ok <==> k in s
    ensures k in s ==> Represents(u, s[k := s[k].(size := size)])
    ensures k !in s ==> u == t
  {
    if k in s {
      PresentVolume(t, s, k);
      SizeRewritten(t, u, k, s[k], size);
      OneVolumeChanged(t, s, u, k, s[k].(size := size));
    } else {
      AbsentVolume(t, s, k);
    }
  }

  lemma SizeRewritten(t: Tree, u: Tree, k: Key, v: Volume, size: UInt64)
    requires Stored(t, k, v)
    requires u == t[MetaOf(k) := File(Encode(Record(k.vg, k.name, size)))]
    ensures Stored(u, k, v.(size := size)) && ChangedOnlyIn(t, u, Home(k))
  {
    KeyPaths(k);
    HoldsElsewhere(t, u, MountOf(k), v.files);
  }

  lemma RemoveRefines(t: Tree, s: Store, k: Key, u: Tree)
    requires Represents(t, s) && ValidKey(k)
    requires RemoveEffect(t, k.vg, k.name, u)
    ensures Represents(u, s - {k})
  {
    KeyPaths(k);
    RemovedAllWellFormed(t, Home(k));
    forall k' | k' in s - {k}
      ensures Stored(u, k', s[k'])
    {
      RemovedElsewhere(t, k, k');
      StoredFrame(t, u, k', s[k']);
    }
    forall vg | ValidName(vg)
      ensures CanMake(u, GroupPath(vg))
    {
      assert CanMake(t, GroupPath(vg));
    }
    forall k': Key | ValidName(k'.vg)
      ensures k' in s - {k} <==> Home(k') in u
    {
      if k' != k && Home(k) <= Home(k') {
        KeysApart(k', k, Home(k'));
      }
    }
  }

  function WithoutGroup(s: Store, vg: string): Store {
    map k | k in s && k.vg != vg :: s[k]
  }

  /** Removing without a name removes every volume and snapshot of the group. */
  lemma NamelessRemovesGroup(t: Tree, s: Store, vg: string)
    requires Represents(t, s) && ValidName(vg)
    ensures Represents(RemovedAll(t, Resolve(VolDir(vg, ""))), WithoutGroup(s, vg))
  {
    NamelessIsGroup(vg);
    GroupRemoved(t, s, vg);
  }

  lemma GroupRemoved(t: Tree, s: Store, vg: string)
    requires Represents(t, s) && ValidName(vg)
    ensures Represents(RemovedAll(t, GroupPath(vg)), WithoutGroup(s, vg))
  {
    var u := RemovedAll(t, GroupPath(vg));
    RemovedAllWellFormed(t, GroupPath(vg));
    forall k | k in WithoutGroup(s, vg)
      ensures Stored(u, k, s[k])
    {
      OtherGroupStays(t, k, vg);
      StoredFrame(t, u, k, s[k]);
    }
    forall vg' | ValidName(vg')
      ensures CanMake(u, GroupPath(vg'))
    {
      assert CanMake(t, GroupPath(vg'));
    }
    forall k: Key | ValidName(k.vg)
      ensures k in WithoutGroup(s, vg) <==> Home(k) in u
    {
      assert GroupPath(vg) <= Home(k) <==> k.vg == vg by {
        assert Home(k)[2] == k.vg && GroupPath(vg)[2] == vg;
        KeyPaths(k);
      }
    }
  }

  lemma OtherGroupStays(t: Tree, k: Key, vg: string)
    requires k.vg != vg
    ensures Unchanged(t, RemovedAll(t, GroupPath(vg)), Home(k))
  {
    forall q | Home(k) <= q && q in t
      ensures !(GroupPath(vg) <= q)
    {
      assert Home(k)[2] == k.vg && GroupPath(vg)[2] == vg && q[2] == k.vg;
    }
  }

  lemma RemovedElsewhere(t: Tree, k: Key, k': Key)
    requires k' != k
    ensures Unchanged(t, RemovedAll(t, Home(k)), Home(k'))
  {
    forall q | Home(k') <= q && q in t
      ensures !(Home(k) <= q)
    {
      KeysApart(k', k, q);
    }
  }

  /** A pod changes what lies below the mount point of the volume it uses, and nothing else. */
  ghost predicate PodWriteEffect(t: Tree, k: Key, u: Tree) {
    WellFormed(u) && IsDir(u, MountOf(k)) && SameOutside(t, u, MountOf(k))
  }

  lemma PodWriteRefines(t: Tree, s: Store, k: Key, u: Tree)
    requires Represents(t, s) && k in s && PodWriteEffect(t, k, u)
    ensures Represents(u, s[k := s[k].(files := FilesAt(u, MountOf(k)))])
  {
    KeyPaths(k);
    forall q | !(Home(k) <= q) && (q in t || q in u)
      ensures !(MountOf(k) <= q)
    {
      if MountOf(k) <= q {
        PrefixTransitive(Home(k), MountOf(k), q);
      }
    }
    OneVolumeChanged(t, s, u, k, s[k].(files := FilesAt(u, MountOf(k))));
  }

  /** The map is determined by the tree. */
  lemma RepresentsUnique(t: Tree, s: Store, s': Store)
    requires Represents(t, s) && Represents(t, s')
    ensures s == s'
  {
    assert forall k: Key :: k in s ==> ValidName(k.vg) && k in s';
    assert forall k: Key :: k in s' ==> ValidName(k.vg) && k in s;
    forall k | k in s
      ensures s[k] == s'[k]
    {
      assert Stored(t, k, s[k]) && Stored(t, k, s'[k]);
      StoredUnique(t, k, s[k], s'[k]);
    }
    SameStores(s, s');
  }

  lemma SameStores(s: Store, s': Store)
    requires forall k: Key :: k in s <==> k in s'
    requires forall k :: k in s ==> s[k] == s'[k]
    ensures s == s'
  {
  }

  lemma StoredUnique(t: Tree, k: Key, v: Volume, v': Volume)
    requires Stored(t, k, v) && Stored(t, k, v')
    ensures v == v'
  {
    DecodeEncode(Record(k.vg, k.name, v.size), "");
    DecodeEncode(Record(k.vg, k.name, v'.size), "");
    SameFiles(t, MountOf(k), v.files, v'.files);
  }

  lemma SameFiles(t: Tree, p: Path, a: Tree, b: Tree)
    requires HoldsFiles(t, p, a) && HoldsFiles(t, p, b)
    ensures a == b
  {
    forall rel: Path
      ensures rel in a <==> rel in b
      ensures rel in a ==> a[rel] == b[rel]
    {
      assert rel in a <==> p + rel in t;
    }
  }

  // ---------------------------------------------------------------------------------------------
  // One volume on disk
  // ---------------------------------------------------------------------------------------------

  /** On disk: the record is the volume's own with this size, and there is a mount point. */
  ghost predicate OnDisk(t: Tree, k: Key, size: UInt64) {
    LoadMeta(t, k.vg, k.name) == Some(Record(k.vg, k.name, size)) && IsDir(t, MountOf(k))
  }

  /** The size in the volume's record. */
  function SizeOn(t: Tree, k: Key): UInt64 {
    match LoadMeta(t, k.vg, k.name)
    case Some(v) => v.size
    case None => 0
  }

  /** The data below the volume's mount point. */
  function FilesOn(t: Tree, k: Key): Tree {
    FilesAt(t, MountOf(k))
  }

  lemma StoredOnDisk(t: Tree, s: Store, k: Key)
    requires Represents(t, s) && k in s
    ensures OnDisk(t, k, s[k].size) && SizeOn(t, k) == s[k].size && FilesOn(t, k) == s[k].files
  {
    PresentVolume(t, s, k);
    assert Stored(t, k, s[k]);
    FilesAtHeld(t, MountOf(k), s[k].files);
  }

  lemma FilesAtHeld(t: Tree, p: Path, files: Tree)
    requires HoldsFiles(t, p, files)
    ensures FilesAt(t, p) == files
  {
  }

  /** The tree holds a complete store with the volume in it. */
  ghost predicate Alive(t: Tree, k: Key) {
    exists s :: HoldsVolume(t, s, k)
  }

  ghost predicate HoldsVolume(t: Tree, s: Store, k: Key) {
    Represents(t, s) && k in s
  }

  lemma AliveOnDisk(t: Tree, k: Key)
    requires Alive(t, k)
    ensures OnDisk(t, k, SizeOn(t, k))
  {
    hide Represents, OnDisk, SizeOn;
    var s :| HoldsVolume(t, s, k);
    StoredOnDisk(t, s, k);
  }

  // ---------------------------------------------------------------------------------------------
  // Listing
  // ---------------------------------------------------------------------------------------------

  /** A list of records has, in some order, one record per volume of the group, and no other. */
  ghost predicate TrueListing(s: Store, vg: string, vols: seq<Vol>) {
    && (forall i :: 0 <= i < |vols| ==> 
          Key(vg, vols[i].name) in s && vols[i] == Record(vg, vols[i].name, s[Key(vg, vols[i].name)].size))
    && (forall name :: Key(vg, name) in s ==> exists i :: 0 <= i < |vols| && vols[i].name == name)
    && (forall i, j :: 0 <= i < j < |vols| ==> vols[i].name != vols[j].name)
  }

  /**
   * On a tree that keeps the directory invariant a listing never fails and returns exactly one record
   * per directory, whatever order the directory is read in.
   */
  lemma ListingIsTrue(t: Tree, s: Store, vg: string, r: Result<seq<Vol>>)
    requires Represents(t, s) && ValidName(vg) && ListEffect(t, vg, r)
    ensures r.Ok? && TrueListing(s, vg, r.value)
  {
    assert CanMake(t, GroupPath(vg));
    forall c
      ensures IsDir(t, GroupPath(vg) + [c]) <==> Key(vg, c) in s
      ensures Key(vg, c) in s ==> LoadMeta(t, vg, c) == Some(Record(vg, c, s[Key(vg, c)].size))
    {
      assert Home(Key(vg, c)) == GroupPath(vg) + [c];
      if Key(vg, c) in s {
        PresentVolume(t, s, Key(vg, c));
      }
    }
    var vols := r.value;
    var names :| Lists(t, vg, names, vols);
    assert forall i :: 0 <= i < |vols| ==> names[i] in names;
    assert forall i :: 0 <= i < |vols| ==> vols[i].name == names[i];
    forall name | Key(vg, name) in s
      ensures exists i :: 0 <= i < |vols| && vols[i].name == name
    {
      assert name in names;
      var i :| 0 <= i < |names| && names[i] == name;
      assert vols[i].name == name;
    }
  }
}
