/**
 * Whole runs over a cluster: any sequence of controller requests (each possibly with lost messages)
 * and pod writes, on the nodes' file trees, and what holds at its end.
 */
module Clusters {
  import opened Wrappers
  import opened Paths
  import opened Metadata
  import opened FileSystem
  import opened TreeCopy
  import opened StoreEffects
  import opened Volumes
  import opened Protocol
  import opened CsiController

  type Cluster = map<string, Store>

  /** Every node's tree keeps the directory invariant; `c` is what the trees hold. */
  ghost predicate RepresentsAll(trees: Trees, c: Cluster) {
    && trees.Keys == c.Keys
    && forall n :: n in c ==> Represents(trees[n], c[n])
  }

  /** A request or a pod's write; a snapshot is a create with a source. */
  datatype Op =
    | Create(node: string, key: Key, size: UInt64, source: Option<string>)
    | Delete(node: string, key: Key)
    | Expand(node: string, key: Key, size: UInt64)
    | PodWrite(node: string, key: Key)

  predicate ProperOp(op: Op) {
    ValidKey(op.key) && (op.Create? && op.source.Some? ==> ValidName(op.source.value))
  }

  ghost predicate NodeStep(op: Op, t: Tree, u: Tree) {
    match op
    case Create(_, k, size, source) => exists lossy, replied :: CreateOutcome(t, lossy, k, size, source, replied, u)
    case Delete(_, k) => exists lossy, swallowed, replied :: DeleteOutcome(t, lossy, k, swallowed, replied, u)
    case Expand(_, k, size) => exists lossy, replied :: ExpandOutcome(t, lossy, k, size, replied, u)
    case PodWrite(_, k) => Home(k) in t && PodWriteEffect(t, k, u)
  }

  /** One step of a run on the nodes' trees. */
  ghost predicate TreeStep(op: Op, before: Trees, after: Trees) {
    && OnlyAt(before, after, op.node) && WellFormed(after[op.node])
    && NodeStep(op, before[op.node], after[op.node])
  }

  ghost predicate Run(ops: seq<Op>, states: seq<Trees>) {
    && |states| == |ops| + 1
    && (forall i :: 0 <= i < |ops| ==> ProperOp(ops[i]))
    && (forall i :: 0 <= i < |ops| ==> TreeStepAt(ops, states, i))
  }

  ghost predicate TreeStepAt(ops: seq<Op>, states: seq<Trees>, i: nat)
    requires |states| == |ops| + 1 && i < |ops|
  {
    TreeStep(ops[i], states[i], states[i + 1])
  }

  /** The same step on what a node's tree holds. */
  ghost predicate StoreStep(op: Op, s: Store, s': Store) {
    match op
    case Create(_, k, size, source) => s' == s || CreateStep(s, k, size, source, s')
    case Delete(_, k) => s' == s || s' == s - {k}
    case Expand(_, k, size) => s' == s || s' == ExpandStep(s, k, size)
    case PodWrite(_, k) => k in s && k in s' && s' == s[k := s[k].(files := s'[k].files)]
  }

  lemma NodeStepRefines(op: Op, t: Tree, s: Store, u: Tree) returns (s': Store)
    requires Represents(t, s) && ProperOp(op) && WellFormed(u) && NodeStep(op, t, u)
    ensures Represents(u, s') && StoreStep(op, s, s')
  {
    match op
    case Create(_, k, size, source) =>
      var lossy, replied :| CreateOutcome(t, lossy, k, size, source, replied, u);
      s' := CreateRefinesAttempt(t, s, lossy, k, size, source, replied, u);
    case Delete(_, k) =>
      var lossy, swallowed, replied :| DeleteOutcome(t, lossy, k, swallowed, replied, u);
      s' := DeleteRefinesAttempt(t, s, lossy, k, swallowed, replied, u);
    case Expand(_, k, size) =>
      var lossy, replied :| ExpandOutcome(t, lossy, k, size, replied, u);
      s' := ExpandRefinesAttempt(t, s, lossy, k, size, replied, u);
    case PodWrite(_, k) =>
      assert k in s;
      PodWriteRefines(t, s, k, u);
      s' := s[k := s[k].(files := FilesAt(u, MountOf(k)))];
  }

  /** A run of the abstract stores. */
  ghost predicate StoreRun(ops: seq<Op>, clusters: seq<Cluster>) {
    && |clusters| == |ops| + 1
    && forall i :: 0 <= i < |ops| ==> StepAt(ops, clusters, i)
  }

  ghost predicate StepAt(ops: seq<Op>, clusters: seq<Cluster>, i: nat)
    requires |clusters| == |ops| + 1 && i < |ops|
  {
    ClusterStep(ops[i], clusters[i], clusters[i + 1])
  }

  ghost predicate ClusterStep(op: Op, c: Cluster, c': Cluster) {
    && op.node in c && op.node in c' && c' == c[op.node := c'[op.node]]
    && StoreStep(op, c[op.node], c'[op.node])
  }

  /** `clusters` is what the trees of the run hold, step by step. */
  ghost predicate Simulates(ops: seq<Op>, states: seq<Trees>, clusters: seq<Cluster>) {
    && StoreRun(ops, clusters) && |states| == |clusters|
    && forall i {:trigger RepresentsAll(states[i], clusters[i])} :: 0 <= i <= |ops| ==> RepresentsAll(states[i], clusters[i])
  }

  /**
   * Every run from complete stores keeps every node's directory invariant at every step, and is a run
   * of the abstract stores.
   */
  lemma {:induction false} RunRefines(ops: seq<Op>, states: seq<Trees>, c: Cluster) returns (clusters: seq<Cluster>)
    requires Run(ops, states) && RepresentsAll(states[0], c)
    ensures Simulates(ops, states, clusters) && clusters[0] == c
    decreases |ops|
  {
    var n := |ops|;
    if n == 0 {
      clusters := [c];
    } else {
      RunPrefix(ops, states, ops[..n - 1], states[..n]);
      var before := RunRefines(ops[..n - 1], states[..n], c);
      var op, last := ops[n - 1], before[n - 1];
      assert TreeStepAt(ops, states, n - 1);
      HeldAt(ops[..n - 1], states[..n], before, n - 1, op.node);
      var s' := NodeStepRefines(op, states[n - 1][op.node], last[op.node], states[n][op.node]);
      clusters := before + [last[op.node := s']];
      SimulationGrows(ops, states, before, s');
    }
  }

  lemma RunPrefix(ops: seq<Op>, states: seq<Trees>, ops': seq<Op>, states': seq<Trees>)
    requires Run(ops, states) && ops' <= ops && states' <= states && |states'| == |ops'| + 1
    ensures Run(ops', states')
  {
    forall i | 0 <= i < |ops'|
      ensures TreeStepAt(ops', states', i)
    {
      assert TreeStepAt(ops, states, i);
    }
  }

  lemma SimulationGrows(ops: seq<Op>, states: seq<Trees>, before: seq<Cluster>, s': Store)
    requires |ops| > 0 && |states| == |ops| + 1
    requires Simulates(ops[..|ops| - 1], states[..|ops|], before)
    requires var op, n := ops[|ops| - 1], |ops|;
      && OnlyAt(states[n - 1], states[n], op.node) && op.node in before[n - 1]
      && Represents(states[n][op.node], s') && StoreStep(op, before[n - 1][op.node], s')
    ensures Simulates(ops, states, before + [before[|ops| - 1][ops[|ops| - 1].node := s']])
  {
    var n := |ops|;
    var op, last := ops[n - 1], before[n - 1];
    assert states[..n][n - 1] == states[n - 1];
    NextHeld(states[n - 1], last, op.node, states[n], s');
    HeldGrows(states, before, last[op.node := s']);
    StoreRunGrows(ops, before, last[op.node := s']);
  }

  lemma NextHeld(trees: Trees, c: Cluster, node: string, after: Trees, s': Store)
    requires RepresentsAll(trees, c) && OnlyAt(trees, after, node) && Represents(after[node], s')
    ensures RepresentsAll(after, c[node := s'])
  {
  }

  lemma HeldGrows(states: seq<Trees>, before: seq<Cluster>, next: Cluster)
    requires |states| == |before| + 1 && RepresentsAll(states[|before|], next)
    requires forall i {:trigger RepresentsAll(states[..|before|][i], before[i])} ::
               0 <= i < |before| ==> RepresentsAll(states[..|before|][i], before[i])
    ensures forall i {:trigger RepresentsAll(states[i], (before + [next])[i])} ::
              0 <= i < |states| ==> RepresentsAll(states[i], (before + [next])[i])
  {
    forall i | 0 <= i < |states|
      ensures RepresentsAll(states[i], (before + [next])[i])
    {
      if i < |before| {
        assert RepresentsAll(states[..|before|][i], before[i]);
        assert states[..|before|][i] == states[i] && (before + [next])[i] == before[i];
      }
    }
  }

  lemma StoreRunGrows(ops: seq<Op>, before: seq<Cluster>, next: Cluster)
    requires |ops| > 0 && StoreRun(ops[..|ops| - 1], before)
    requires ClusterStep(ops[|ops| - 1], before[|ops| - 1], next)
    ensures StoreRun(ops, before + [next])
  {
    var n := |ops|;
    forall i | 0 <= i < n
      ensures StepAt(ops, before + [next], i)
    {
      if i < n - 1 {
        assert StepAt(ops[..n - 1], before, i);
        assert ops[..n - 1][i] == ops[i];
      }
    }
  }

  /** The op may remove, resize or rewrite what is stored under `k` on `node`. */
  predicate Touches(op: Op, node: string, k: Key) {
    !op.Create? && op.node == node && op.key == k
  }

  /** No step from `i` on and before `j` touches it. */
  ghost predicate Untouched(ops: seq<Op>, i: nat, j: nat, node: string, k: Key) {
    forall m :: i <= m < j && m < |ops| ==> !Touches(ops[m], node, k)
  }

  /** What is stored under a name stays as it is until an operation touches it: creating never does. */
  lemma {:induction false} KeptUntilTouched(ops: seq<Op>, clusters: seq<Cluster>, i: nat, j: nat, node: string, k: Key)
    requires StoreRun(ops, clusters) && i <= j <= |ops|
    requires node in clusters[i] && k in clusters[i][node]
    requires Untouched(ops, i, j, node, k)
    ensures node in clusters[j] && k in clusters[j][node] && clusters[j][node][k] == clusters[i][node][k]
    decreases j - i
  {
    if i < j {
      KeptUntilTouched(ops, clusters, i, j - 1, node, k);
      assert StepAt(ops, clusters, j - 1);
      StepKeeps(ops[j - 1], clusters[j - 1], clusters[j], node, k);
    }
  }

  lemma StepKeeps(op: Op, c: Cluster, c': Cluster, node: string, k: Key)
    requires ClusterStep(op, c, c') && !Touches(op, node, k)
    requires node in c && k in c[node]
    ensures node in c' && k in c'[node] && c'[node][k] == c[node][k]
  {
  }

  /** The volume `k` at the end of the run has the data and the size `src` had before step `i`. */
  ghost predicate HasDataOf(u: Tree, k: Key, t: Tree, src: Key) {
    && SameBelow(t, MountOf(src), u, MountOf(k))
    && LoadMeta(u, k.vg, k.name).Some? && LoadMeta(t, src.vg, src.name).Some?
    && LoadMeta(u, k.vg, k.name).value.size == LoadMeta(t, src.vg, src.name).value.size
  }

  lemma SameVolumeSameData(t: Tree, s: Store, src: Key, u: Tree, s': Store, k: Key)
    requires Represents(t, s) && src in s && Represents(u, s') && k in s' && s'[k] == s[src]
    ensures HasDataOf(u, k, t, src)
  {
    PresentVolume(t, s, src);
    PresentVolume(u, s', k);
    assert Stored(t, src, s[src]) && Stored(u, k, s'[k]);
    SameFilesBelow(t, MountOf(src), u, MountOf(k), s[src].files);
  }

  lemma SameFilesBelow(t: Tree, p: Path, u: Tree, q: Path, files: Tree)
    requires HoldsFiles(t, p, files) && HoldsFiles(u, q, files)
    ensures SameBelow(t, p, u, q)
  {
    forall rel: Path
      ensures p + rel in t <==> q + rel in u
      ensures p + rel in t ==> t[p + rel] == u[q + rel]
    {
      assert p + rel in t <==> rel in files;
    }
  }

  function SourceOf(op: Op): Key
    requires op.Create? && op.source.Some?
  {
    Key(op.key.vg, op.source.value)
  }

  /** The step makes a new snapshot or clone, and no name in the source's data repeats the source's mount point. */
  ghost predicate MakesCopy(op: Op, before: Trees, after: Trees) {
    && op.Create? && op.source.Some? && op.node in before && op.node in after
    && Home(op.key) !in before[op.node] && Home(op.key) in after[op.node]
    && Copyable(before[op.node], MountOf(SourceOf(op)))
  }

  /**
   * Snapshot safety over whole runs. Let step `i` make the snapshot of a source. As long as no step
   * deletes, expands or writes to the snapshot, it keeps the very data and size the source had before
   * step `i`, whatever happens to the source; messages may be lost throughout.
   */
  lemma SnapshotSafety(ops: seq<Op>, states: seq<Trees>, c: Cluster, i: nat, j: nat)
    requires Run(ops, states) && RepresentsAll(states[0], c)
    requires i < j <= |ops| && MakesCopy(ops[i], states[i], states[i + 1])
    requires Untouched(ops, i + 1, j, ops[i].node, ops[i].key)
    ensures ops[i].node in states[j]
    ensures HasDataOf(states[j][ops[i].node], ops[i].key, states[i][ops[i].node], SourceOf(ops[i]))
  {
    var clusters := RunRefines(ops, states, c);
    SnapshotVolume(ops, states, clusters, i, j);
    DataHeld(ops, states, clusters, ops[i].node, i, SourceOf(ops[i]), j, ops[i].key);
  }

  /** The same on the abstract stores: the snapshot is, as a volume, what the source was. */
  lemma SnapshotVolume(ops: seq<Op>, states: seq<Trees>, clusters: seq<Cluster>, i: nat, j: nat)
    requires Simulates(ops, states, clusters)
    requires i < j <= |ops| && MakesCopy(ops[i], states[i], states[i + 1]) && ProperOp(ops[i])
    requires Untouched(ops, i + 1, j, ops[i].node, ops[i].key)
    ensures SameVolume(clusters, ops[i].node, i, SourceOf(ops[i]), j, ops[i].key)
  {
    MadeAt(ops, states, clusters, i);
    KeptUntilTouched(ops, clusters, i + 1, j, ops[i].node, ops[i].key);
  }

  /** On `node`, what is stored under `k` at step `j` is what was stored under `src` at step `i`. */
  ghost predicate SameVolume(clusters: seq<Cluster>, node: string, i: nat, src: Key, j: nat, k: Key) {
    && i < |clusters| && j < |clusters| && node in clusters[i] && node in clusters[j]
    && src in clusters[i][node] && k in clusters[j][node] && clusters[j][node][k] == clusters[i][node][src]
  }

  lemma DataHeld(ops: seq<Op>, states: seq<Trees>, clusters: seq<Cluster>, node: string, i: nat, src: Key, j: nat, k: Key)
    requires Simulates(ops, states, clusters) && SameVolume(clusters, node, i, src, j, k)
    ensures node in states[i] && node in states[j] && HasDataOf(states[j][node], k, states[i][node], src)
  {
    HeldAt(ops, states, clusters, i, node);
    HeldAt(ops, states, clusters, j, node);
    SameVolumeSameData(states[i][node], clusters[i][node], src, states[j][node], clusters[j][node], k);
  }

  lemma MadeAt(ops: seq<Op>, states: seq<Trees>, clusters: seq<Cluster>, i: nat)
    requires Simulates(ops, states, clusters)
    requires i < |ops| && MakesCopy(ops[i], states[i], states[i + 1]) && ProperOp(ops[i])
    ensures ops[i].node in clusters[i] && ops[i].node in clusters[i + 1]
    ensures SourceOf(ops[i]) in clusters[i][ops[i].node] && ops[i].key in clusters[i + 1][ops[i].node]
    ensures clusters[i + 1][ops[i].node][ops[i].key] == clusters[i][ops[i].node][SourceOf(ops[i])]
  {
    var node := ops[i].node;
    HeldAt(ops, states, clusters, i, node);
    HeldAt(ops, states, clusters, i + 1, node);
    assert StepAt(ops, clusters, i);
    NewCopy(ops[i], states[i][node], clusters[i][node], states[i + 1][node], clusters[i + 1][node]);
  }

  lemma HeldAt(ops: seq<Op>, states: seq<Trees>, clusters: seq<Cluster>, i: nat, node: string)
    requires Simulates(ops, states, clusters) && i <= |ops|
    ensures node in states[i] <==> node in clusters[i]
    ensures node in states[i] ==> Represents(states[i][node], clusters[i][node])
  {
    assert RepresentsAll(states[i], clusters[i]);
  }

  lemma NewCopy(op: Op, t: Tree, s: Store, u: Tree, s': Store)
    requires Represents(t, s) && Represents(u, s') && StoreStep(op, s, s') && ProperOp(op)
    requires op.Create? && op.source.Some? && Home(op.key) !in t && Home(op.key) in u
    requires Copyable(t, MountOf(SourceOf(op)))
    ensures SourceOf(op) in s && op.key in s' && s'[op.key] == s[SourceOf(op)]
  {
    assert op.key !in s && op.key in s';
    CopiedWhole(t, s, SourceOf(op), op.key, s');
  }

  /** A copy of copyable data is a volume equal to its source. */
  lemma CopiedWhole(t: Tree, s: Store, src: Key, k: Key, s': Store)
    requires Represents(t, s) && src in s && Copied(s, src, k, s') && Copyable(t, MountOf(src))
    ensures s'[k] == s[src]
  {
    assert Stored(t, src, s[src]);
    CopyableAgrees(t, src, s[src].files);
  }

  lemma CopyableAgrees(t: Tree, k: Key, files: Tree)
    requires HoldsFiles(t, MountOf(k), files)
    ensures Copyable(t, MountOf(k)) <==> CopyableFiles(k, files)
  {
    if CopyableFiles(k, files) {
      forall rel: Path | MountOf(k) + rel in t
        ensures !Repeats(MountOf(k), rel)
      {
        assert rel in files;
      }
    }
  }

  /**
   * Restoring. A volume made from the snapshot at a later step `m` starts with the data and size the
   * source had before step `i`, even if the source was rewritten, expanded or deleted in between.
   */
  lemma RestoreSafety(ops: seq<Op>, states: seq<Trees>, c: Cluster, i: nat, m: nat)
    requires Run(ops, states) && RepresentsAll(states[0], c)
    requires i < m < |ops|
    requires MakesCopy(ops[i], states[i], states[i + 1]) && MakesCopy(ops[m], states[m], states[m + 1])
    requires ops[m].node == ops[i].node && SourceOf(ops[m]) == ops[i].key
    requires Untouched(ops, i + 1, m, ops[i].node, ops[i].key)
    ensures ops[i].node in states[m + 1]
    ensures HasDataOf(states[m + 1][ops[i].node], ops[m].key, states[i][ops[i].node], SourceOf(ops[i]))
  {
    var clusters := RunRefines(ops, states, c);
    RestoredVolume(ops, states, clusters, i, m);
    DataHeld(ops, states, clusters, ops[i].node, i, SourceOf(ops[i]), m + 1, ops[m].key);
  }

  lemma RestoredVolume(ops: seq<Op>, states: seq<Trees>, clusters: seq<Cluster>, i: nat, m: nat)
    requires Simulates(ops, states, clusters)
    requires i < m < |ops| && ProperOp(ops[i]) && ProperOp(ops[m])
    requires MakesCopy(ops[i], states[i], states[i + 1]) && MakesCopy(ops[m], states[m], states[m + 1])
    requires ops[m].node == ops[i].node && SourceOf(ops[m]) == ops[i].key
    requires Untouched(ops, i + 1, m, ops[i].node, ops[i].key)
    ensures SameVolume(clusters, ops[i].node, i, SourceOf(ops[i]), m + 1, ops[m].key)
  {
    SnapshotVolume(ops, states, clusters, i, m);
    MadeAt(ops, states, clusters, m);
  }
}
