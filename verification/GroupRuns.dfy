/** What the group loops achieve, on nodes whose trees keep the directory invariant. */
module GroupRuns {
  import opened Wrappers
  import opened Paths
  import opened Integers
  import opened FileSystem
  import opened StoreEffects
  import opened Volumes
  import opened Remote
  import opened Protocol
  import opened CsiController
  import opened CsiGroupController
  import opened Clusters

  // ---------------------------------------------------------------------------------------------
  // Creating
  // ---------------------------------------------------------------------------------------------

  function SnapshotKey(place: Place, group: string, volume: string): Key {
    Key(place.vg, SnapshotName(group, volume))
  }

  /** What a turn does to the store of the source's node. */
  ghost predicate SnapshotHeld(lossy: bool, k: Key, src: Key, o: SourceOutcome, s: Store, s': Store) {
    match o
    case Unresolved => false
    case LookupFailed => lossy && s' == s
    case Existed => k in s && s' == s
    case CreateFailed => k !in s && (s' == s || CreateStep(s, k, 0, Some(src.name), s')) && (lossy || src !in s)
    case Made(size) => k !in s && src in s && Copied(s, src, k, s') && size == ToInt64(s[src].size)
  }

  /** One turn of the create loop on the abstract stores. */
  ghost predicate SourceHeld(group: string, lossy: bool, place: Result<Place>, volume: string, o: SourceOutcome,
                             c: Cluster, c': Cluster)
  {
    if place.Err? then o.Unresolved? && c' == c
    else
      var node := place.value.node;
      && node in c && node in c' && c' == c[node := c'[node]]
      && SnapshotHeld(lossy, SnapshotKey(place.value, group, volume), Key(place.value.vg, volume), o, c[node], c'[node])
  }

  predicate ProperPlace(place: Result<Place>) {
    place.Ok? ==> ValidName(place.value.vg)
  }

  lemma SourceRefines(nodes: map<string, Connection>, group: string, place: Result<Place>, volume: string, o: SourceOutcome,
                      before: Trees, c: Cluster, after: Trees) returns (c': Cluster)
    requires RepresentsAll(before, c) && SourceStep(nodes, group, place, volume, o, before, after)
    requires ProperPlace(place) && (place.Ok? ==> ValidName(volume) && ValidName(SnapshotName(group, volume)))
    ensures RepresentsAll(after, c') && (place.Ok? ==> place.value.node in nodes)
    ensures SourceHeld(group, place.Ok? && nodes[place.value.node].lossy, place, volume, o, c, c')
  {
    c' := c;
    if place.Ok? {
      var node, k := place.value.node, SnapshotKey(place.value, group, volume);
      var s' := OneSourceRefines(before[node], c[node], nodes[node].lossy, k, volume, o, after[node]);
      c' := c[node := s'];
      NextHeld(before, c, node, after, s');
    }
  }

  /** The same on one node. */
  lemma OneSourceRefines(t: Tree, s: Store, lossy: bool, k: Key, volume: string, o: SourceOutcome, u: Tree) returns (s': Store)
    requires Represents(t, s) && WellFormed(u) && ValidKey(k) && ValidName(volume)
    requires SourceEffect(t, lossy, k, volume, o, u)
    ensures Represents(u, s') && SnapshotHeld(lossy, k, Key(k.vg, volume), o, s, s')
  {
    ListingUnder(t, s, k);
    s' := s;
    match o
    case CreateFailed =>
      var call :| PlaceCall(t, lossy, k, 0, Some(volume), false, u, call);
      if call.done {
        s' := PlaceRefines(t, s, k, 0, Some(volume), call.ok, u);
      }
    case Made(size) =>
      var call :| PlaceCall(t, lossy, k, 0, Some(volume), true, u, call);
      s' := PlaceRefines(t, s, k, 0, Some(volume), call.ok, u);
      ReportedSizeUnder(t, s, k, volume, size);
    case _ =>
  }

  /** The whole create loop on the abstract stores; `lossy[i]` is whether source `i`'s node may lose messages. */
  ghost predicate GroupHeld(group: string, lossy: seq<bool>, places: seq<Result<Place>>, sources: seq<string>,
                            trace: seq<SourceOutcome>, clusters: seq<Cluster>)
  {
    && |lossy| == |places| == |sources| == |trace| && |clusters| == |sources| + 1
    && forall i :: 0 <= i < |sources| ==> TurnAt(group, lossy, places, sources, trace, clusters, i)
  }

  ghost predicate TurnAt(group: string, lossy: seq<bool>, places: seq<Result<Place>>, sources: seq<string>,
                         trace: seq<SourceOutcome>, clusters: seq<Cluster>, i: nat)
    requires |lossy| == |places| == |sources| == |trace| && |clusters| == |sources| + 1 && i < |sources|
  {
    SourceHeld(group, lossy[i], places[i], sources[i], trace[i], clusters[i], clusters[i + 1])
  }

  function LossyAt(nodes: map<string, Connection>, places: seq<Result<Place>>): seq<bool> {
    seq(|places|, i requires 0 <= i < |places| =>
      places[i].Ok? && places[i].value.node in nodes && nodes[places[i].value.node].lossy)
  }

  predicate ProperSources(group: string, places: seq<Result<Place>>, sources: seq<string>)
    requires |places| == |sources|
  {
    forall i :: 0 <= i < |sources| && places[i].Ok? ==>
      ProperPlace(places[i]) && ValidName(sources[i]) && ValidName(SnapshotName(group, sources[i]))
  }

  /** The group loop on complete stores keeps them complete and is a loop on the abstract stores. */
  lemma {:induction false} GroupRefines(nodes: map<string, Connection>, group: string, places: seq<Result<Place>>,
      sources: seq<string>, trace: seq<SourceOutcome>, states: seq<Trees>, c: Cluster) returns (clusters: seq<Cluster>)
    requires GroupRun(nodes, group, places, sources, trace, states) && RepresentsAll(states[0], c)
    requires ProperSources(group, places, sources)
    ensures GroupHeld(group, LossyAt(nodes, places), places, sources, trace, clusters)
    ensures clusters[0] == c && RepresentsAll(states[|sources|], clusters[|sources|])
    decreases |sources|
  {
    hide SourceStep, RepresentsAll, SourceHeld;
    var n := |sources|;
    if n == 0 {
      clusters := [c];
    } else {
      RunPrefix(nodes, group, places, sources, trace, states);
      var before := GroupRefines(nodes, group, places[..n - 1], sources[..n - 1], trace[..n - 1], states[..n], c);
      assert SourceStepAt(nodes, group, places, sources, trace, states, n - 1);
      var c' := SourceRefines(nodes, group, places[n - 1], sources[n - 1], trace[n - 1], states[n - 1], before[n - 1], states[n]);
      clusters := before + [c'];
      HeldTurns(nodes, group, places, sources, trace, before, c');
    }
  }

  lemma RunPrefix(nodes: map<string, Connection>, group: string, places: seq<Result<Place>>, sources: seq<string>,
                  trace: seq<SourceOutcome>, states: seq<Trees>)
    requires GroupRun(nodes, group, places, sources, trace, states) && sources != []
    ensures var n := |sources|;
      && GroupRun(nodes, group, places[..n - 1], sources[..n - 1], trace[..n - 1], states[..n])
      && states[..n][n - 1] == states[n - 1]
  {
    var n := |sources|;
    var places', sources', trace', states' := places[..n - 1], sources[..n - 1], trace[..n - 1], states[..n];
    forall i | 0 <= i < n - 1
      ensures SourceStepAt(nodes, group, places', sources', trace', states', i)
    {
      assert SourceStepAt(nodes, group, places, sources, trace, states, i);
    }
  }

  lemma HeldTurns(nodes: map<string, Connection>, group: string, places: seq<Result<Place>>, sources: seq<string>,
                  trace: seq<SourceOutcome>, before: seq<Cluster>, c': Cluster)
    requires |places| == |sources| == |trace| && sources != []
    requires var n := |sources|;
      && GroupHeld(group, LossyAt(nodes, places[..n - 1]), places[..n - 1], sources[..n - 1], trace[..n - 1], before)
      && SourceHeld(group, LossyAt(nodes, places)[n - 1], places[n - 1], sources[n - 1], trace[n - 1], before[n - 1], c')
    ensures GroupHeld(group, LossyAt(nodes, places), places, sources, trace, before + [c'])
  {
    var n := |sources|;
    var clusters := before + [c'];
    forall i | 0 <= i < n
      ensures TurnAt(group, LossyAt(nodes, places), places, sources, trace, clusters, i)
    {
      if i < n - 1 {
        assert TurnAt(group, LossyAt(nodes, places[..n - 1]), places[..n - 1], sources[..n - 1], trace[..n - 1], before, i);
      }
    }
  }

  /** What is stored stays stored through the loop: it only adds snapshots. */
  lemma {:induction false} GroupKeeps(group: string, lossy: seq<bool>, places: seq<Result<Place>>, sources: seq<string>,
      trace: seq<SourceOutcome>, clusters: seq<Cluster>, i: nat, j: nat, node: string, k: Key)
    requires GroupHeld(group, lossy, places, sources, trace, clusters) && i <= j <= |sources|
    requires node in clusters[i] && k in clusters[i][node]
    ensures node in clusters[j] && k in clusters[j][node] && clusters[j][node][k] == clusters[i][node][k]
    decreases j - i
  {
    if i < j {
      GroupKeeps(group, lossy, places, sources, trace, clusters, i, j - 1, node, k);
      assert TurnAt(group, lossy, places, sources, trace, clusters, j - 1);
    }
  }

  predicate ListedAt(trace: seq<SourceOutcome>, i: nat)
    requires i < |trace|
  {
    trace[i].Made? && trace[i].size > 0
  }

  /** What the response says of source `i`. */
  function Entry(group: string, sources: seq<string>, trace: seq<SourceOutcome>, i: nat): Snapshot
    requires |trace| == |sources| && i < |sources| && ListedAt(trace, i)
  {
    Snapshot(sources[i], SnapshotName(group, sources[i]), trace[i].size, group)
  }

  /** `from` maps the response's snapshots to their sources, in source order and leaving out none that was made. */
  ghost predicate InSourceOrder(group: string, sources: seq<string>, trace: seq<SourceOutcome>, snapshots: seq<Snapshot>,
                                from: seq<nat>)
    requires |trace| == |sources|
  {
    && |from| == |snapshots|
    && (forall a :: 0 <= a < |from| ==>
          from[a] < |sources| && ListedAt(trace, from[a])
          && snapshots[a] == Entry(group, sources, trace, from[a]))
    && (forall a, b :: 0 <= a < b < |from| ==> from[a] < from[b])
    && (forall i :: 0 <= i < |sources| && ListedAt(trace, i) ==> i in from)
  }

  lemma {:induction false} ResponseOrder(group: string, sources: seq<string>, trace: seq<SourceOutcome>) returns (from: seq<nat>)
    requires |trace| == |sources|
    ensures InSourceOrder(group, sources, trace, SnapshotsOf(group, sources, trace), from)
    decreases |sources|
  {
    if sources == [] {
      from := [];
    } else {
      var n := |sources| - 1;
      var earlier := ResponseOrder(group, sources[..n], trace[..n]);
      from := if ListedAt(trace, n) then earlier + [n] else earlier;
      OrderGrows(group, sources, trace, earlier);
    }
  }

  lemma OrderGrows(group: string, sources: seq<string>, trace: seq<SourceOutcome>, earlier: seq<nat>)
    requires |trace| == |sources| && sources != []
    requires var n := |sources| - 1;
      InSourceOrder(group, sources[..n], trace[..n], SnapshotsOf(group, sources[..n], trace[..n]), earlier)
    ensures var n := |sources| - 1;
      InSourceOrder(group, sources, trace, SnapshotsOf(group, sources, trace),
                    if ListedAt(trace, n) then earlier + [n] else earlier)
  {
    var n := |sources| - 1;
    var shorter := SnapshotsOf(group, sources[..n], trace[..n]);
    forall i | 0 <= i < n && ListedAt(trace, i)
      ensures i in earlier
    {
      assert ListedAt(trace[..n], i);
    }
    forall a | 0 <= a < |earlier|
      ensures earlier[a] < n && ListedAt(trace, earlier[a]) && shorter[a] == Entry(group, sources, trace, earlier[a])
    {
      assert ListedAt(trace[..n], earlier[a]);
      assert shorter[a] == Entry(group, sources[..n], trace[..n], earlier[a]);
    }
    if ListedAt(trace, n) {
      assert SnapshotsOf(group, sources, trace) == shorter + [Entry(group, sources, trace, n)];
      OrderExtended(group, sources, trace, earlier, shorter);
    } else {
      assert SnapshotsOf(group, sources, trace) == shorter + [] == shorter;
      OrderKept(group, sources, trace, earlier, shorter);
    }
  }

  lemma OrderKept(group: string, sources: seq<string>, trace: seq<SourceOutcome>, earlier: seq<nat>, shorter: seq<Snapshot>)
    requires |trace| == |sources| && sources != [] && |earlier| == |shorter|
    requires !ListedAt(trace, |sources| - 1)
    requires forall a :: 0 <= a < |earlier| ==>
      earlier[a] < |sources| - 1 && ListedAt(trace, earlier[a]) && shorter[a] == Entry(group, sources, trace, earlier[a])
    requires forall a, b :: 0 <= a < b < |earlier| ==> earlier[a] < earlier[b]
    requires forall i :: 0 <= i < |sources| - 1 && ListedAt(trace, i) ==> i in earlier
    ensures InSourceOrder(group, sources, trace, shorter, earlier)
  {
    forall i | 0 <= i < |sources| && ListedAt(trace, i)
      ensures i in earlier
    {
      assert i < |sources| - 1;
    }
  }

  lemma OrderExtended(group: string, sources: seq<string>, trace: seq<SourceOutcome>, earlier: seq<nat>, shorter: seq<Snapshot>)
    requires |trace| == |sources| && sources != [] && |earlier| == |shorter|
    requires ListedAt(trace, |sources| - 1)
    requires forall a :: 0 <= a < |earlier| ==>
      earlier[a] < |sources| - 1 && ListedAt(trace, earlier[a]) && shorter[a] == Entry(group, sources, trace, earlier[a])
    requires forall a, b :: 0 <= a < b < |earlier| ==> earlier[a] < earlier[b]
    requires forall i :: 0 <= i < |sources| - 1 && ListedAt(trace, i) ==> i in earlier
    ensures InSourceOrder(group, sources, trace, shorter + [Entry(group, sources, trace, |sources| - 1)],
                          earlier + [|sources| - 1])
  {
    var from := earlier + [|sources| - 1];
    forall i | 0 <= i < |sources| && ListedAt(trace, i)
      ensures i in from
    {
      if i < |sources| - 1 {
        assert i in earlier;
      } else {
        assert from[|earlier|] == i;
      }
    }
  }

  /**
   * Exactness of the response: in source order, and exactly the sources for which this call made a
   * snapshot of positive size; each is stored at the end, with the size its source is stored with.
   */
  lemma GroupExact(group: string, lossy: seq<bool>, places: seq<Result<Place>>, sources: seq<string>,
                   trace: seq<SourceOutcome>, clusters: seq<Cluster>, i: nat)
    requires GroupHeld(group, lossy, places, sources, trace, clusters) && i < |sources| && ListedAt(trace, i)
    ensures places[i].Ok? && places[i].value.node in clusters[|sources|]
    ensures var last, place := clusters[|sources|][places[i].value.node], places[i].value;
      var k, src := SnapshotKey(place, group, sources[i]), Key(place.vg, sources[i]);
      && k in last && src in last && last[k].size == last[src].size && trace[i].size == last[k].size
      && place.node in clusters[i] && k !in clusters[i][place.node]
  {
    assert TurnAt(group, lossy, places, sources, trace, clusters, i);
    var place := places[i].value;
    var k, src := SnapshotKey(place, group, sources[i]), Key(place.vg, sources[i]);
    assert k != src;
    GroupKeeps(group, lossy, places, sources, trace, clusters, i + 1, |sources|, place.node, k);
    GroupKeeps(group, lossy, places, sources, trace, clusters, i + 1, |sources|, place.node, src);
  }

  predicate AllListed(trace: seq<SourceOutcome>) {
    forall i :: 0 <= i < |trace| ==> ListedAt(trace, i)
  }

  /** The ways a source is neither listed nor reported as failed. */
  predicate Silent(o: SourceOutcome) {
    o.LookupFailed? || o.Existed? || (o.Made? && o.size <= 0)
  }

  lemma ReadyWithoutSilence(trace: seq<SourceOutcome>)
    requires forall i :: 0 <= i < |trace| ==> !Silent(trace[i])
    ensures Ready(trace) <==> AllListed(trace)
  {
    forall i | 0 <= i < |trace|
      ensures ListedAt(trace, i) <==> !trace[i].Unresolved? && !trace[i].CreateFailed?
    {
      assert !Silent(trace[i]);
    }
  }

  predicate Distinct(sources: seq<string>) {
    forall i, j :: 0 <= i < j < |sources| ==> sources[i] != sources[j]
  }

  function SourceKey(place: Place, volume: string): Key {
    Key(place.vg, volume)
  }

  /** Each source that is stored has a positive size. */
  ghost predicate SizesPositive(c: Cluster, places: seq<Result<Place>>, sources: seq<string>)
    requires |places| == |sources|
  {
    forall i :: 0 <= i < |sources| && places[i].Ok? ==> PositiveAt(c, places[i].value, sources[i])
  }

  predicate PositiveAt(c: Cluster, place: Place, volume: string) {
    place.node in c && SourceKey(place, volume) in c[place.node] ==> 0 < c[place.node][SourceKey(place, volume)].size < TWO_63
  }

  /** None of the snapshots the request would make is there yet. */
  ghost predicate NamesFree(c: Cluster, group: string, places: seq<Result<Place>>, sources: seq<string>)
    requires |places| == |sources|
  {
    forall i :: 0 <= i < |sources| && places[i].Ok? && places[i].value.node in c ==>
      SnapshotKey(places[i].value, group, sources[i]) !in c[places[i].value.node]
  }

  /** The snapshot of source `i` is the one stored under `k` on `node`. */
  predicate MakesAt(group: string, places: seq<Result<Place>>, sources: seq<string>, i: int, node: string, k: Key)
    requires |places| == |sources|
  {
    0 <= i < |sources| && places[i].Ok? && places[i].value.node == node && SnapshotKey(places[i].value, group, sources[i]) == k
  }

  /** Whatever is in a store during the loop was there before, or is the snapshot of an earlier source, of its size. */
  lemma {:induction false} GroupAdds(group: string, lossy: seq<bool>, places: seq<Result<Place>>, sources: seq<string>,
      trace: seq<SourceOutcome>, clusters: seq<Cluster>, i: nat, node: string, k: Key) returns (j: int)
    requires GroupHeld(group, lossy, places, sources, trace, clusters) && i <= |sources|
    requires node in clusters[i] && k in clusters[i][node]
    ensures node in clusters[0]
    ensures k !in clusters[0][node] ==>
      && 0 <= j < i && MakesAt(group, places, sources, j, node, k)
      && node in clusters[j] && SourceKey(places[j].value, sources[j]) in clusters[j][node]
      && clusters[i][node][k].size == clusters[j][node][SourceKey(places[j].value, sources[j])].size
    decreases i
  {
    j := -1;
    if i > 0 {
      assert TurnAt(group, lossy, places, sources, trace, clusters, i - 1);
      if node in clusters[i - 1] && k in clusters[i - 1][node] {
        GroupKeeps(group, lossy, places, sources, trace, clusters, i - 1, i, node, k);
        j := GroupAdds(group, lossy, places, sources, trace, clusters, i - 1, node, k);
      } else {
        j := i - 1;
        var src := SourceKey(places[j].value, sources[j]);
        var _ := GroupAdds(group, lossy, places, sources, trace, clusters, i - 1, node, src);
      }
    }
  }

  /** A source that is stored when its turn comes has a positive size, also when it is a snapshot made before. */
  lemma {:induction false} SourcePositive(group: string, lossy: seq<bool>, places: seq<Result<Place>>, sources: seq<string>,
      trace: seq<SourceOutcome>, clusters: seq<Cluster>, i: nat)
    requires GroupHeld(group, lossy, places, sources, trace, clusters) && i < |sources| && places[i].Ok?
    requires SizesPositive(clusters[0], places, sources)
    requires places[i].value.node in clusters[i]
    requires SourceKey(places[i].value, sources[i]) in clusters[i][places[i].value.node]
    ensures 0 < clusters[i][places[i].value.node][SourceKey(places[i].value, sources[i])].size < TWO_63
    decreases i
  {
    var node, src := places[i].value.node, SourceKey(places[i].value, sources[i]);
    var j := GroupAdds(group, lossy, places, sources, trace, clusters, i, node, src);
    if src in clusters[0][node] {
      GroupKeeps(group, lossy, places, sources, trace, clusters, 0, i, node, src);
      assert PositiveAt(clusters[0], places[i].value, sources[i]);
    } else {
      SourcePositive(group, lossy, places, sources, trace, clusters, j);
    }
  }

  /**
   * For distinct sources, free snapshot names, sources of positive size and no failed lookup, the group
   * is ready exactly when every source is listed, whatever else is lost.
   */
  lemma GroupReady(group: string, lossy: seq<bool>, places: seq<Result<Place>>, sources: seq<string>,
                   trace: seq<SourceOutcome>, clusters: seq<Cluster>)
    requires GroupHeld(group, lossy, places, sources, trace, clusters)
    requires Distinct(sources) && NamesFree(clusters[0], group, places, sources)
    requires SizesPositive(clusters[0], places, sources)
    requires forall i :: 0 <= i < |trace| ==> !trace[i].LookupFailed?
    ensures Ready(trace) <==> AllListed(trace)
  {
    forall i | 0 <= i < |trace|
      ensures !Silent(trace[i])
    {
      TurnNotSilent(group, lossy, places, sources, trace, clusters, i);
    }
    ReadyWithoutSilence(trace);
  }

  lemma TurnNotSilent(group: string, lossy: seq<bool>, places: seq<Result<Place>>, sources: seq<string>,
                      trace: seq<SourceOutcome>, clusters: seq<Cluster>, i: nat)
    requires GroupHeld(group, lossy, places, sources, trace, clusters) && i < |trace|
    requires Distinct(sources) && NamesFree(clusters[0], group, places, sources)
    requires SizesPositive(clusters[0], places, sources)
    requires !trace[i].LookupFailed?
    ensures !Silent(trace[i])
  {
    assert TurnAt(group, lossy, places, sources, trace, clusters, i);
    if trace[i].Existed? {
      var place := places[i].value;
      var k := SnapshotKey(place, group, sources[i]);
      var j := GroupAdds(group, lossy, places, sources, trace, clusters, i, place.node, k);
      SameSnapshotName(group, sources[j], sources[i]);
    } else if trace[i].Made? {
      SourcePositive(group, lossy, places, sources, trace, clusters, i);
    }
  }

  // ---- The exact condition, without losses -------------------------------------------------------

  /** Every source was located and is stored, and no node loses messages. */
  ghost predicate AllStoredSources(c: Cluster, lossy: seq<bool>, places: seq<Result<Place>>, sources: seq<string>)
    requires |lossy| == |places| == |sources|
  {
    forall i :: 0 <= i < |sources| ==> !lossy[i] && StoredSource(c, places[i], sources[i])
  }

  predicate StoredSource(c: Cluster, place: Result<Place>, volume: string) {
    place.Ok? && place.value.node in c && SourceKey(place.value, volume) in c[place.value.node]
  }

  /** The snapshot's name is free before the call, no earlier source claims it, and the source's size reads as positive. */
  predicate Fresh(c: Cluster, group: string, places: seq<Result<Place>>, sources: seq<string>, i: nat)
    requires |places| == |sources| && i < |sources| && StoredSource(c, places[i], sources[i])
  {
    var node, k := places[i].value.node, SnapshotKey(places[i].value, group, sources[i]);
    && k !in c[node]
    && (forall j :: 0 <= j < i ==> !MakesAt(group, places, sources, j, node, k))
    && ToInt64(c[node][SourceKey(places[i].value, sources[i])].size) > 0
  }

  /**
   * What readiness is worth. When every source is located and stored and nothing is lost, the group is
   * always reported ready, and every source is listed if and only if, before the call, each snapshot's
   * name was free, no two sources shared one, and each source's size reads as a positive int64.
   */
  lemma ReadyExactly(group: string, lossy: seq<bool>, places: seq<Result<Place>>, sources: seq<string>,
                     trace: seq<SourceOutcome>, clusters: seq<Cluster>)
    requires GroupHeld(group, lossy, places, sources, trace, clusters)
    requires AllStoredSources(clusters[0], lossy, places, sources)
    ensures Ready(trace)
    ensures AllListed(trace) <==> forall i :: 0 <= i < |sources| ==> Fresh(clusters[0], group, places, sources, i)
  {
    forall i | 0 <= i < |sources|
      ensures !trace[i].Unresolved? && !trace[i].CreateFailed?
    {
      TurnMade(group, lossy, places, sources, trace, clusters, i);
    }
    if AllListed(trace) {
      forall i | 0 <= i < |sources|
        ensures Fresh(clusters[0], group, places, sources, i)
      {
        ListedIsFresh(group, lossy, places, sources, trace, clusters, i);
      }
    }
    if forall i :: 0 <= i < |sources| ==> Fresh(clusters[0], group, places, sources, i) {
      forall i | 0 <= i < |trace|
        ensures ListedAt(trace, i)
      {
        assert Fresh(clusters[0], group, places, sources, i);
        FreshIsListed(group, lossy, places, sources, trace, clusters, i);
      }
    }
  }

  /** A turn without losses makes the snapshot of its source's size, or finds its name taken. */
  lemma TurnMade(group: string, lossy: seq<bool>, places: seq<Result<Place>>, sources: seq<string>,
                 trace: seq<SourceOutcome>, clusters: seq<Cluster>, i: nat)
    requires GroupHeld(group, lossy, places, sources, trace, clusters) && i < |sources|
    requires AllStoredSources(clusters[0], lossy, places, sources)
    ensures StoredSource(clusters[0], places[i], sources[i]) && places[i].value.node in clusters[i]
    ensures var node, k, src := places[i].value.node, SnapshotKey(places[i].value, group, sources[i]),
                                SourceKey(places[i].value, sources[i]);
      trace[i] == (if k in clusters[i][node] then Existed else Made(ToInt64(clusters[0][node][src].size)))
  {
    assert StoredSource(clusters[0], places[i], sources[i]);
    var node, src := places[i].value.node, SourceKey(places[i].value, sources[i]);
    GroupKeeps(group, lossy, places, sources, trace, clusters, 0, i, node, src);
    assert TurnAt(group, lossy, places, sources, trace, clusters, i);
  }

  lemma FreshIsListed(group: string, lossy: seq<bool>, places: seq<Result<Place>>, sources: seq<string>,
                      trace: seq<SourceOutcome>, clusters: seq<Cluster>, i: nat)
    requires GroupHeld(group, lossy, places, sources, trace, clusters) && i < |sources|
    requires AllStoredSources(clusters[0], lossy, places, sources)
    requires StoredSource(clusters[0], places[i], sources[i]) && Fresh(clusters[0], group, places, sources, i)
    ensures ListedAt(trace, i)
  {
    TurnMade(group, lossy, places, sources, trace, clusters, i);
    var node, k := places[i].value.node, SnapshotKey(places[i].value, group, sources[i]);
    if k in clusters[i][node] {
      var j := GroupAdds(group, lossy, places, sources, trace, clusters, i, node, k);
    }
  }

  lemma ListedIsFresh(group: string, lossy: seq<bool>, places: seq<Result<Place>>, sources: seq<string>,
                      trace: seq<SourceOutcome>, clusters: seq<Cluster>, i: nat)
    requires GroupHeld(group, lossy, places, sources, trace, clusters) && i < |sources|
    requires AllStoredSources(clusters[0], lossy, places, sources) && AllListed(trace)
    ensures StoredSource(clusters[0], places[i], sources[i]) && Fresh(clusters[0], group, places, sources, i)
  {
    TurnMade(group, lossy, places, sources, trace, clusters, i);
    assert ListedAt(trace, i);
    var node, k := places[i].value.node, SnapshotKey(places[i].value, group, sources[i]);
    if k in clusters[0][node] {
      GroupKeeps(group, lossy, places, sources, trace, clusters, 0, i, node, k);
    }
    forall j | 0 <= j < i
      ensures !MakesAt(group, places, sources, j, node, k)
    {
      assert ListedAt(trace, j) && TurnAt(group, lossy, places, sources, trace, clusters, j);
      if MakesAt(group, places, sources, j, node, k) {
        GroupKeeps(group, lossy, places, sources, trace, clusters, j + 1, i, node, k);
      }
    }
  }

  lemma SameSnapshotName(group: string, a: string, b: string)
    ensures SnapshotName(group, a) == SnapshotName(group, b) ==> a == b
  {
    SnapshotNameShape(group, a);
    SnapshotNameShape(group, b);
  }

  /** The same volume was not asked for before source `i`. */
  predicate FirstClaim(places: seq<Result<Place>>, sources: seq<string>, i: nat)
    requires |places| == |sources| && i < |sources|
  {
    forall j :: 0 <= j < i && sources[j] == sources[i] ==> places[j] != places[i]
  }

  /**
   * A source of positive size whose snapshot's name, the text of the group and the volume with a hyphen
   * between them, is free, is listed under that very text with its size, and stored under it.
   */
  lemma ListedUnder(group: string, lossy: seq<bool>, places: seq<Result<Place>>, sources: seq<string>,
                    trace: seq<SourceOutcome>, clusters: seq<Cluster>, i: nat)
    requires GroupHeld(group, lossy, places, sources, trace, clusters) && i < |sources|
    requires AllStoredSources(clusters[0], lossy, places, sources) && StoredSource(clusters[0], places[i], sources[i])
    requires FirstClaim(places, sources, i)
    requires var s := clusters[0][places[i].value.node];
      && Key(places[i].value.vg, group + "-" + sources[i]) !in s
      && ToInt64(s[Key(places[i].value.vg, sources[i])].size) > 0
    ensures var place, volume := places[i].value, sources[i];
      var size := clusters[0][place.node][Key(place.vg, volume)].size;
      && Snapshot(volume, group + "-" + volume, ToInt64(size), group) in SnapshotsOf(group, sources, trace)
      && place.node in clusters[|sources|] && Key(place.vg, group + "-" + volume) in clusters[|sources|][place.node]
      && clusters[|sources|][place.node][Key(place.vg, group + "-" + volume)].size == size
  {
    var place, volume := places[i].value, sources[i];
    assert SnapshotKey(place, group, volume) == Key(place.vg, group + "-" + volume);
    forall j | 0 <= j < i
      ensures !MakesAt(group, places, sources, j, place.node, SnapshotKey(place, group, volume))
    {
      SameSnapshotName(group, sources[j], volume);
    }
    FreshIsListed(group, lossy, places, sources, trace, clusters, i);
    TurnMade(group, lossy, places, sources, trace, clusters, i);
    GroupExact(group, lossy, places, sources, trace, clusters, i);
    GroupKeeps(group, lossy, places, sources, trace, clusters, 0, |sources|, place.node, Key(place.vg, volume));
    var from := ResponseOrder(group, sources, trace);
    var a :| 0 <= a < |from| && from[a] == i;
    assert SnapshotsOf(group, sources, trace)[a] == Entry(group, sources, trace, i);
  }

  /**
   * Two requests for the same volume, under two names of which neither was used: both list one snapshot,
   * each under its own name, and in the end both are stored.
   */
  lemma TwoGroups(first: string, second: string, lossy: bool, place: Place, volume: string, trace: seq<SourceOutcome>,
                  clusters: seq<Cluster>, trace': seq<SourceOutcome>, clusters': seq<Cluster>)
    requires first != second && !lossy
    requires GroupHeld(first, [lossy], [Ok(place)], [volume], trace, clusters)
    requires GroupHeld(second, [lossy], [Ok(place)], [volume], trace', clusters') && clusters'[0] == clusters[1]
    requires StoredSource(clusters[0], Ok(place), volume)
    requires var s := clusters[0][place.node];
      && Key(place.vg, first + "-" + volume) !in s && Key(place.vg, second + "-" + volume) !in s
      && ToInt64(s[Key(place.vg, volume)].size) > 0
    ensures var size := ToInt64(clusters[0][place.node][Key(place.vg, volume)].size);
      && SnapshotsOf(first, [volume], trace) == [Snapshot(volume, first + "-" + volume, size, first)]
      && SnapshotsOf(second, [volume], trace') == [Snapshot(volume, second + "-" + volume, size, second)]
    ensures place.node in clusters'[1]
    ensures Key(place.vg, first + "-" + volume) in clusters'[1][place.node]
    ensures Key(place.vg, second + "-" + volume) in clusters'[1][place.node]
  {
    var places, sources, src := [Ok(place)], [volume], Key(place.vg, volume);
    ListedUnder(first, [lossy], places, sources, trace, clusters, 0);
    GroupKeeps(first, [lossy], places, sources, trace, clusters, 0, 1, place.node, src);
    var k, k' := Key(place.vg, first + "-" + volume), Key(place.vg, second + "-" + volume);
    assert k' !in clusters[1][place.node] by {
      if k' in clusters[1][place.node] {
        var j := GroupAdds(first, [lossy], places, sources, trace, clusters, 1, place.node, k');
        SnapshotNamesCollide(first, volume, second, volume);
      }
    }
    ListedUnder(second, [lossy], places, sources, trace', clusters', 0);
    GroupKeeps(second, [lossy], places, sources, trace', clusters', 0, 1, place.node, k);
  }

  predicate AllLocated(places: seq<Result<Place>>) {
    forall i :: 0 <= i < |places| ==> places[i].Ok?
  }

  lemma LocatedGrows(places: seq<Result<Place>>)
    requires places != []
    ensures AllLocated(places) <==> AllLocated(places[..|places| - 1]) && places[|places| - 1].Ok?
  {
    if AllLocated(places[..|places| - 1]) && places[|places| - 1].Ok? {
      forall i | 0 <= i < |places|
        ensures places[i].Ok?
      {
        assert i < |places| - 1 ==> places[..|places| - 1][i] == places[i];
      }
    }
  }

  /**
   * Fail-stop, and what it looks like: when every located source lies in a group with a half-made
   * directory, no tree changes and nothing is listed, yet the group is ready if all sources were located.
   */
  lemma {:induction false} GroupOnHalfMade(nodes: map<string, Connection>, group: string, places: seq<Result<Place>>,
      sources: seq<string>, trace: seq<SourceOutcome>, states: seq<Trees>)
    requires GroupRun(nodes, group, places, sources, trace, states)
    requires forall i :: 0 <= i < |places| ==>
               places[i].Ok? ==> places[i].value.node in states[0] && HalfMade(states[0][places[i].value.node], places[i].value.vg)
    ensures states[|sources|] == states[0]
    ensures SnapshotsOf(group, sources, trace) == []
    ensures Ready(trace) <==> AllLocated(places)
    decreases |sources|
  {
    var n := |sources|;
    if n > 0 {
      RunPrefix(nodes, group, places, sources, trace, states);
      GroupOnHalfMade(nodes, group, places[..n - 1], sources[..n - 1], trace[..n - 1], states[..n]);
      assert SourceStepAt(nodes, group, places, sources, trace, states, n - 1);
      assert trace == trace[..n - 1] + [trace[n - 1]];
      ReadyGrows(trace[..n - 1], trace[n - 1]);
      LocatedGrows(places);
    }
  }

  // ---------------------------------------------------------------------------------------------
  // Deleting
  // ---------------------------------------------------------------------------------------------

  datatype Located = Located(node: string, key: Key)

  /** Where the first `m` snapshots of the request are stored. */
  function Targets(places: seq<Result<Place>>, ids: seq<string>, m: nat): set<Located>
    requires |places| == |ids| && m <= |ids|
  {
    set i | 0 <= i < m && places[i].Ok? :: Located(places[i].value.node, Key(places[i].value.vg, ids[i]))
  }

  function RemoveAt(c: Cluster, gone: set<Located>): Cluster {
    map n | n in c :: map k | k in c[n] && Located(n, k) !in gone :: c[n][k]
  }

  lemma RemoveAtNothing(c: Cluster)
    ensures RemoveAt(c, {}) == c
  {
    forall n | n in c
      ensures RemoveAt(c, {})[n] == c[n]
    {
    }
  }

  lemma RemoveAtTwice(c: Cluster, a: set<Located>, b: set<Located>)
    ensures RemoveAt(RemoveAt(c, a), b) == RemoveAt(c, a + b)
  {
    forall n | n in c
      ensures RemoveAt(RemoveAt(c, a), b)[n] == RemoveAt(c, a + b)[n]
    {
    }
  }

  lemma RemoveAtOne(c: Cluster, node: string, k: Key)
    requires node in c
    ensures RemoveAt(c, {Located(node, k)}) == c[node := c[node] - {k}]
  {
    var removed := RemoveAt(c, {Located(node, k)});
    forall n | n in c
      ensures removed[n] == c[node := c[node] - {k}][n]
    {
    }
  }

  lemma TargetsGrow(places: seq<Result<Place>>, ids: seq<string>, m: nat)
    requires |places| == |ids| && m < |ids|
    ensures Targets(places, ids, m + 1)
         == Targets(places, ids, m)
            + (if places[m].Ok? then {Located(places[m].value.node, Key(places[m].value.vg, ids[m]))} else {})
  {
  }

  lemma SameAt(c: Cluster, node: string)
    requires node in c
    ensures c[node := c[node]] == c
  {
  }

  /** One turn of the delete loop: the snapshot is removed, or the turn failed and changed nothing else. */
  lemma DeleteStepRefines(nodes: map<string, Connection>, place: Result<Place>, id: string, replied: bool,
                          before: Trees, c: Cluster, after: Trees) returns (c': Cluster)
    requires RepresentsAll(before, c) && DeleteStep(nodes, place, id, replied, before, after)
    requires ProperPlace(place) && (place.Ok? ==> ValidName(id))
    ensures RepresentsAll(after, c')
    ensures replied ==> place.Ok?
    ensures place.Ok? ==> c' == c || c' == RemoveAt(c, {Located(place.value.node, Key(place.value.vg, id))})
    ensures replied ==> c' == RemoveAt(c, {Located(place.value.node, Key(place.value.vg, id))})
    ensures place.Err? ==> c' == c
    ensures place.Ok? && !nodes[place.value.node].lossy ==> replied
  {
    c' := c;
    if place.Ok? {
      var node, k := place.value.node, Key(place.value.vg, id);
      var s' := DeleteRefinesAttempt(before[node], c[node], nodes[node].lossy, k, false, replied, after[node]);
      c' := c[node := s'];
      NextHeld(before, c, node, after, s');
      RemoveAtOne(c, node, k);
      SameAt(c, node);
    }
  }

  predicate ProperTargets(places: seq<Result<Place>>, ids: seq<string>)
    requires |places| == |ids|
  {
    forall i :: 0 <= i < |ids| && places[i].Ok? ==> ProperPlace(places[i]) && ValidName(ids[i])
  }

  /** The answered turns have removed exactly their snapshots. */
  lemma {:induction false} DeletedSoFar(nodes: map<string, Connection>, places: seq<Result<Place>>, ids: seq<string>, m: nat,
                                        states: seq<Trees>, c: Cluster)
    requires |places| == |ids| && m <= |ids| && ProperTargets(places, ids)
    requires DeleteRun(nodes, places[..m], ids[..m], states) && RepresentsAll(states[0], c)
    ensures RepresentsAll(states[m], RemoveAt(c, Targets(places, ids, m)))
    decreases m
  {
    if m == 0 {
      assert Targets(places, ids, 0) == {};
      RemoveAtNothing(c);
    } else {
      DeletePrefix(nodes, places, ids, m, states);
      DeletedSoFar(nodes, places, ids, m - 1, states[..m], c);
      DeletedOneMore(nodes, places, ids, m - 1, states[m - 1], c, states[m]);
    }
  }

  lemma DeletedOneMore(nodes: map<string, Connection>, places: seq<Result<Place>>, ids: seq<string>, m: nat,
                       before: Trees, c: Cluster, after: Trees)
    requires |places| == |ids| && m < |ids| && ProperTargets(places, ids)
    requires RepresentsAll(before, RemoveAt(c, Targets(places, ids, m)))
    requires DeleteStep(nodes, places[m], ids[m], true, before, after)
    ensures RepresentsAll(after, RemoveAt(c, Targets(places, ids, m + 1)))
  {
    var c' := DeleteStepRefines(nodes, places[m], ids[m], true, before, RemoveAt(c, Targets(places, ids, m)), after);
    TargetsGrow(places, ids, m);
    RemoveAtTwice(c, Targets(places, ids, m), {Located(places[m].value.node, Key(places[m].value.vg, ids[m]))});
  }

  lemma DeletePrefix(nodes: map<string, Connection>, places: seq<Result<Place>>, ids: seq<string>, m: nat, states: seq<Trees>)
    requires |places| == |ids| && 0 < m <= |ids|
    requires DeleteRun(nodes, places[..m], ids[..m], states)
    ensures DeleteRun(nodes, places[..m - 1], ids[..m - 1], states[..m])
    ensures DeleteStep(nodes, places[m - 1], ids[m - 1], true, states[m - 1], states[m])
    ensures states[..m][m - 1] == states[m - 1] && states[..m][0] == states[0]
  {
    var places', ids', states' := places[..m - 1], ids[..m - 1], states[..m];
    forall i | 0 <= i < m - 1
      ensures DeleteStepAt(nodes, places', ids', states', i)
    {
      assert DeleteStepAt(nodes, places[..m], ids[..m], states, i);
    }
    assert DeleteStepAt(nodes, places[..m], ids[..m], states, m - 1);
  }

  /**
   * A group delete that succeeds has removed exactly the listed snapshots and changed nothing else. One
   * that fails at snapshot `done` has removed exactly the ones before it, and that one only if its own
   * reply was lost.
   */
  lemma GroupDeleteExact(nodes: map<string, Connection>, places: seq<Result<Place>>, ids: seq<string>, done: nat,
                         states: seq<Trees>, ok: bool, last: Trees, c: Cluster) returns (removed: nat)
    requires DeleteResult(nodes, places, ids, done, states, ok, last) && ProperTargets(places, ids)
    requires RepresentsAll(states[0], c)
    ensures removed == done || (removed == done + 1 <= |ids| && places[done].Ok? && nodes[places[done].value.node].lossy)
    ensures ok ==> removed == |ids|
    ensures RepresentsAll(last, RemoveAt(c, Targets(places, ids, removed)))
  {
    DeletedSoFar(nodes, places, ids, done, states, c);
    removed := done;
    if !ok {
      var before := RemoveAt(c, Targets(places, ids, done));
      var c' := DeleteStepRefines(nodes, places[done], ids[done], false, states[done], before, last);
      if c' != before {
        removed := done + 1;
        TargetsGrow(places, ids, done);
        RemoveAtTwice(c, Targets(places, ids, done), {Located(places[done].value.node, Key(places[done].value.vg, ids[done]))});
      }
    }
  }

  /** One call of the group delete: how far it came, the trees on the way, and its answer. */
  datatype DeleteCall = DeleteCall(done: nat, states: seq<Trees>, ok: bool)

  ghost predicate DeleteCallStep(nodes: map<string, Connection>, places: seq<Result<Place>>, ids: seq<string>, call: DeleteCall,
                                 before: Trees, after: Trees)
  {
    && |call.states| > 0 && call.states[0] == before
    && DeleteResult(nodes, places, ids, call.done, call.states, call.ok, after)
  }

  /** Calls of the group delete for the same snapshots, one after the other. */
  ghost predicate DeleteCalls(nodes: map<string, Connection>, places: seq<Result<Place>>, ids: seq<string>,
                              calls: seq<DeleteCall>, trees: seq<Trees>)
  {
    && |trees| == |calls| + 1
    && forall i :: 0 <= i < |calls| ==> DeleteCallAt(nodes, places, ids, calls, trees, i)
  }

  ghost predicate DeleteCallAt(nodes: map<string, Connection>, places: seq<Result<Place>>, ids: seq<string>,
                               calls: seq<DeleteCall>, trees: seq<Trees>, i: nat)
    requires |trees| == |calls| + 1 && i < |calls|
  {
    DeleteCallStep(nodes, places, ids, calls[i], trees[i], trees[i + 1])
  }

  lemma TargetsFirst(places: seq<Result<Place>>, ids: seq<string>, m: nat)
    requires |places| == |ids| && m <= |ids|
    ensures Targets(places, ids, m) <= Targets(places, ids, |ids|)
  {
  }

  /** The store less some of the listed snapshots is what the trees hold. */
  ghost predicate HeldWithout(trees: Trees, c: Cluster, gone: set<Located>) {
    RepresentsAll(trees, RemoveAt(c, gone))
  }

  /** One call removes a first part of the list from whatever the calls before it left; all of it when it succeeds. */
  lemma OneMoreCall(nodes: map<string, Connection>, places: seq<Result<Place>>, ids: seq<string>, call: DeleteCall,
                    before: Trees, after: Trees, c: Cluster, gone: set<Located>) returns (gone': set<Located>)
    requires |places| == |ids| && ProperTargets(places, ids)
    requires HeldWithout(before, c, gone) && gone <= Targets(places, ids, |ids|)
    requires DeleteCallStep(nodes, places, ids, call, before, after)
    ensures HeldWithout(after, c, gone') && gone' <= Targets(places, ids, |ids|)
    ensures call.ok ==> gone' == Targets(places, ids, |ids|)
  {
    var removed := GroupDeleteExact(nodes, places, ids, call.done, call.states, call.ok, after, RemoveAt(c, gone));
    TargetsFirst(places, ids, removed);
    gone' := gone + Targets(places, ids, removed);
    RemoveAtTwice(c, gone, Targets(places, ids, removed));
  }

  lemma {:induction false} CallsSoFar(nodes: map<string, Connection>, places: seq<Result<Place>>, ids: seq<string>,
      calls: seq<DeleteCall>, trees: seq<Trees>, c: Cluster, n: nat) returns (gone: set<Located>)
    requires |places| == |ids| && ProperTargets(places, ids)
    requires DeleteCalls(nodes, places, ids, calls, trees) && HeldWithout(trees[0], c, {}) && n <= |calls|
    ensures HeldWithout(trees[n], c, gone) && gone <= Targets(places, ids, |ids|)
    ensures n > 0 && calls[n - 1].ok ==> gone == Targets(places, ids, |ids|)
    decreases n
  {
    hide HeldWithout, DeleteCallStep, Targets;
    if n == 0 {
      gone := {};
    } else {
      var before := CallsSoFar(nodes, places, ids, calls, trees, c, n - 1);
      assert DeleteCallAt(nodes, places, ids, calls, trees, n - 1);
      gone := OneMoreCall(nodes, places, ids, calls[n - 1], trees[n - 1], trees[n], c, before);
    }
  }

  /**
   * Retrying until success, after however many failures at whatever snapshots and with lost messages,
   * leaves what one uninterrupted call leaves: the store less exactly the listed snapshots.
   */
  lemma GroupDeleteConverges(nodes: map<string, Connection>, places: seq<Result<Place>>, ids: seq<string>,
                             calls: seq<DeleteCall>, trees: seq<Trees>, c: Cluster)
    requires |places| == |ids| && ProperTargets(places, ids)
    requires DeleteCalls(nodes, places, ids, calls, trees) && RepresentsAll(trees[0], c)
    requires calls != [] && calls[|calls| - 1].ok
    ensures RepresentsAll(trees[|calls|], RemoveAt(c, Targets(places, ids, |ids|)))
  {
    RemoveAtNothing(c);
    hide RepresentsAll, RemoveAt, Targets, DeleteCallAt, ProperTargets;
    var gone := CallsSoFar(nodes, places, ids, calls, trees, c, |calls|);
  }
}
