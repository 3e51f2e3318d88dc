/**
 * Where the copying walk is safe and where it is not: the controller never lets a volume be copied onto
 * itself, and data that repeats the source's mount point is copied to the wrong place.
 */
module Copies {
  import opened Wrappers
  import opened Paths
  import opened Metadata
  import opened FileSystem
  import opened TreeCopy
  import opened StoreEffects
  import opened Volumes
  import opened Protocol
  import opened CsiController
  import opened Clusters
  import opened Retries

  /** Entries below mount points of different volumes are different: a file is never copied onto itself. */
  lemma CopyElsewhere(vg: string, src: string, dst: string, rel: Path, rel': Path)
    requires src != dst
    ensures MountPath(vg, src) + rel != MountPath(vg, dst) + rel'
  {
    MountsApart(vg, src, dst);
    assert MountPath(vg, src) <= MountPath(vg, src) + rel && MountPath(vg, dst) <= MountPath(vg, dst) + rel';
    if MountPath(vg, src) + rel == MountPath(vg, dst) + rel' {
      BothPrefixes(MountPath(vg, src), MountPath(vg, dst), MountPath(vg, src) + rel);
    }
  }

  /**
   * In every run through the controller, a request to copy a volume onto itself changes nothing: the
   * volume is found by the lookup, or its record cannot be read and nothing is made.
   */
  lemma NoSelfCopy(ops: seq<Op>, states: seq<Trees>, c: Cluster, i: nat)
    requires Run(ops, states) && RepresentsAll(states[0], c) && i < |ops|
    requires ops[i].Create? && ops[i].source == Some(ops[i].key.name)
    ensures states[i + 1] == states[i]
  {
    var clusters := RunRefines(ops, states, c);
    assert TreeStepAt(ops, states, i);
    var node, k := ops[i].node, ops[i].key;
    HeldAt(ops, states, clusters, i, node);
    SelfCopyInVain(ops[i], states[i][node], clusters[i][node], states[i + 1][node]);
  }

  lemma SelfCopyInVain(op: Op, t: Tree, s: Store, u: Tree)
    requires Represents(t, s) && ProperOp(op) && NodeStep(op, t, u)
    requires op.Create? && op.source == Some(op.key.name)
    ensures u == t
  {
    var k := op.key;
    assert Key(k.vg, k.name) == k;
    var lossy, replied :| CreateOutcome(t, lossy, k, op.size, op.source, replied, u);
    if k in s {
      CreateAgain(t, s, lossy, k, op.size, op.source, replied, u);
    } else {
      CreateInVain(t, s, lossy, k, op.size, k.name, replied, u);
    }
  }

  /** A create whose source does not exist changes nothing, in every run. */
  lemma MissingSourceInVain(ops: seq<Op>, states: seq<Trees>, c: Cluster, i: nat)
    requires Run(ops, states) && RepresentsAll(states[0], c) && i < |ops|
    requires ops[i].Create? && ops[i].source.Some? && ops[i].node in states[i]
    requires Home(SourceOf(ops[i])) !in states[i][ops[i].node]
    ensures states[i + 1] == states[i]
  {
    var clusters := RunRefines(ops, states, c);
    assert TreeStepAt(ops, states, i);
    var node, k := ops[i].node, ops[i].key;
    HeldAt(ops, states, clusters, i, node);
    var t, s, u := states[i][node], clusters[i][node], states[i + 1][node];
    var lossy, replied :| CreateOutcome(t, lossy, k, ops[i].size, ops[i].source, replied, u);
    if k in s {
      CreateAgain(t, s, lossy, k, ops[i].size, ops[i].source, replied, u);
    } else {
      CreateInVain(t, s, lossy, k, ops[i].size, ops[i].source.value, replied, u);
    }
  }

  // ---------------------------------------------------------------------------------------------
  // An unfaithful copy
  // ---------------------------------------------------------------------------------------------

  /** Every path repeats itself. */
  lemma RepeatsItself(p: Path)
    ensures Repeats(p, p)
  {
  }

  /** A volume whose data holds a directory with the volume's own mount point as its path. */
  function NestedTree(vg: string, src: string, size: UInt64): Tree {
    Made(map[[] := Dir], MountPath(vg, src) + MountPath(vg, src))[MetaPath(vg, src) := File(Encode(Record(vg, src, size)))]
  }

  lemma NestedIsStored(vg: string, src: string, size: UInt64)
    requires ValidName(vg) && ValidName(src)
    ensures var t := NestedTree(vg, src, size);
      && WellFormed(t) && IsDir(t, MountPath(vg, src)) && MountPath(vg, src) + MountPath(vg, src) in t
      && LoadMeta(t, vg, src) == Some(Record(vg, src, size))
  {
    LayoutStrings(vg, src);
    MountsApart(vg, src, src);
    DecodeEncode(Record(vg, src, size), "");
    NestedWellFormed(MountPath(vg, src), MetaPath(vg, src), Encode(Record(vg, src, size)));
  }

  lemma NestedWellFormed(from: Path, meta: Path, text: string)
    requires IsPath(from) && IsPath(meta) && from != [] && meta != [] && Parent(meta) == Parent(from)
    requires !(from <= meta) && !(meta <= from)
    ensures var t := Made(map[[] := Dir], from + from)[meta := File(text)];
      WellFormed(t) && IsDir(t, from) && from + from in t && IsFile(t, meta) && t[meta].data == text
  {
    var t := Made(map[[] := Dir], from + from);
    MadeWellFormed(map[[] := Dir], from + from);
    assert from <= from + from && Parent(from) <= from;
    PrefixTransitive(Parent(from), from, from + from);
    if meta <= from + from {
      BothPrefixes(meta, from, from + from);
    }
    OpenedWellFormed(t, meta, text);
  }

  /**
   * Without the hypothesis that no name repeats the source's mount point the copy is not faithful: for
   * every two names there is such a volume, and every copy of it succeeds and differs from it.
   */
  lemma UnfaithfulCopy(vg: string, src: string, dst: string, size: UInt64, ok: bool, u: Tree)
    requires ValidName(vg) && ValidName(src) && ValidName(dst) && src != dst
    requires CopyEffect(NestedTree(vg, src, size), vg, src, dst, ok, u)
    ensures ok && !SameBelow(NestedTree(vg, src, size), MountPath(vg, src), u, MountPath(vg, dst))
  {
    var t, from, to := NestedTree(vg, src, size), MountPath(vg, src), MountPath(vg, dst);
    NestedIsStored(vg, src, size);
    RepeatsItself(from);
    MountsApart(vg, src, dst);
    NothingAt(vg, src, dst, size);
    NotFaithful(t, from, to, MetaPath(vg, dst), Record(vg, src, size).(name := dst), ok, u);
  }

  /** There is nothing under the other name yet. */
  lemma NothingAt(vg: string, src: string, dst: string, size: UInt64)
    requires src != dst
    ensures forall q :: VolPath(vg, dst) <= q ==> q !in NestedTree(vg, src, size)
    ensures CanMake(NestedTree(vg, src, size), MountPath(vg, dst)) && MetaPath(vg, dst) !in NestedTree(vg, src, size)
  {
    var from, to := MountPath(vg, src), MountPath(vg, dst);
    forall q | VolPath(vg, dst) <= q
      ensures q !in NestedTree(vg, src, size)
    {
      assert q[3] == dst;
      assert MetaPath(vg, src)[3] == src && (from + from)[3] == src;
    }
    assert VolPath(vg, dst) <= MetaPath(vg, dst);
    forall q | q <= to && q in NestedTree(vg, src, size)
      ensures NestedTree(vg, src, size)[q].Dir?
    {
      MountsApart(vg, src, dst);
      assert !(MetaPath(vg, src) <= to);
    }
  }

  lemma NotFaithful(t: Tree, from: Path, to: Path, meta: Path, v: Vol, ok: bool, u: Tree)
    requires CopyAt(t, from, to, meta, v, ok, u)
    requires CanMake(t, to) && meta !in t && from != to && to != []
    requires IsDir(t, from) && from + from in t && Repeats(from, from)
    requires forall q :: Parent(to) <= q ==> q !in t
    ensures ok && !SameBelow(t, from, u, to)
  {
    var made := Made(t, to);
    forall q | q in made && to <= q
      ensures q == to
    {
      PrefixTransitive(Parent(to), to, q);
    }
  }
}
