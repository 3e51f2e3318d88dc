/**
 * Capacity honesty: along any run in which a volume is created and resized, with anything else going
 * on beside it, what the store records is what the controller reported.
 */
module Capacity {
  import opened Wrappers
  import opened Paths
  import opened Metadata
  import opened Integers
  import opened FileSystem
  import opened Volumes
  import opened Protocol
  import opened Rounding
  import opened Clusters

  /** A resize of the volume, answered or not, or anything else but its removal: its pod may write at any time. */
  datatype Event = Resize(size: UInt64, replied: bool) | Other(op: Op)

  ghost predicate EventStep(e: Event, lossy: bool, k: Key, t: Tree, u: Tree) {
    WellFormed(u) &&
    match e
    case Resize(size, replied) => ExpandOutcome(t, lossy, k, size, replied, u)
    case Other(op) => ProperOp(op) && (op.Create? || op.PodWrite? || op.key != k) && NodeStep(op, t, u)
  }

  ghost predicate History(events: seq<Event>, lossy: bool, k: Key, trees: seq<Tree>) {
    && |trees| == |events| + 1
    && forall i :: 0 <= i < |events| ==> EventStepAt(events, lossy, k, trees, i)
  }

  ghost predicate EventStepAt(events: seq<Event>, lossy: bool, k: Key, trees: seq<Tree>, i: nat)
    requires |trees| == |events| + 1 && i < |events|
  {
    EventStep(events[i], lossy, k, trees[i], trees[i + 1])
  }

  /** The size after an event: an answered resize sets it, an unanswered one may have. */
  predicate SizeStep(e: Event, size: UInt64, size': UInt64) {
    match e
    case Resize(asked, replied) => size' == asked || (!replied && size' == size)
    case Other(_) => size' == size
  }

  ghost predicate Sizes(events: seq<Event>, sizes: seq<UInt64>) {
    && |sizes| == |events| + 1
    && forall i :: 0 <= i < |events| ==> SizeStepAt(events, sizes, i)
  }

  predicate SizeStepAt(events: seq<Event>, sizes: seq<UInt64>, i: nat)
    requires i < |events| && i + 1 < |sizes|
  {
    SizeStep(events[i], sizes[i], sizes[i + 1])
  }

  /** The volume's own pod writes its data. */
  predicate Writes(e: Event, k: Key) {
    e.Other? && e.op.PodWrite? && e.op.key == k
  }

  lemma EventRefines(e: Event, lossy: bool, k: Key, t: Tree, s: Store, u: Tree) returns (s': Store)
    requires Represents(t, s) && k in s && EventStep(e, lossy, k, t, u)
    ensures Represents(u, s') && k in s' && SizeStep(e, s[k].size, s'[k].size)
    ensures !Writes(e, k) ==> s'[k].files == s[k].files
  {
    match e
    case Resize(size, replied) => s' := ResizeRefines(size, replied, lossy, k, t, s, u);
    case Other(op) =>
      s' := NodeStepRefines(op, t, s, u);
      SizeLeftAlone(op, s, s', k);
  }

  lemma ResizeRefines(size: UInt64, replied: bool, lossy: bool, k: Key, t: Tree, s: Store, u: Tree) returns (s': Store)
    requires Represents(t, s) && k in s && WellFormed(u)
    requires ExpandOutcome(t, lossy, k, size, replied, u)
    ensures Represents(u, s') && k in s' && s'[k].files == s[k].files
    ensures s'[k].size == size || (!replied && s'[k].size == s[k].size)
  {
    s' := ExpandRefinesAttempt(t, s, lossy, k, size, replied, u);
  }

  lemma SizeLeftAlone(op: Op, s: Store, s': Store, k: Key)
    requires StoreStep(op, s, s') && k in s && (op.Create? || op.PodWrite? || op.key != k)
    ensures k in s' && s'[k].size == s[k].size
    ensures !(op.PodWrite? && op.key == k) ==> s'[k].files == s[k].files
  {
  }

  function SizesOf(trees: seq<Tree>, k: Key): seq<UInt64> {
    seq(|trees|, i requires 0 <= i < |trees| => SizeOn(trees[i], k))
  }

  lemma EventKeeps(e: Event, lossy: bool, k: Key, t: Tree, u: Tree)
    requires Alive(t, k) && EventStep(e, lossy, k, t, u)
    ensures Alive(u, k) && SizeStep(e, SizeOn(t, k), SizeOn(u, k))
    ensures !Writes(e, k) ==> FilesOn(u, k) == FilesOn(t, k)
  {
    hide Represents, EventStep, SizeStep, OnDisk, SizeOn, FilesOn, Writes;
    var s :| HoldsVolume(t, s, k);
    var s' := EventRefines(e, lossy, k, t, s, u);
    assert HoldsVolume(u, s', k);
    StoredOnDisk(t, s, k);
    StoredOnDisk(u, s', k);
  }

  lemma {:induction false} AliveAfter(events: seq<Event>, lossy: bool, k: Key, trees: seq<Tree>, n: nat)
    requires History(events, lossy, k, trees) && Alive(trees[0], k) && n <= |events|
    ensures Alive(trees[n], k)
    decreases n
  {
    hide Alive, EventStep;
    if n > 0 {
      AliveAfter(events, lossy, k, trees, n - 1);
      assert EventStepAt(events, lossy, k, trees, n - 1);
      EventKeeps(events[n - 1], lossy, k, trees[n - 1], trees[n]);
    }
  }

  /**
   * Along any run the record stays on disk at every step, its own in every field, and its size is set by
   * the resizes alone.
   */
  lemma SizesOnDisk(events: seq<Event>, lossy: bool, k: Key, trees: seq<Tree>)
    requires History(events, lossy, k, trees) && Alive(trees[0], k)
    ensures Sizes(events, SizesOf(trees, k))
    ensures forall i :: 0 <= i <= |events| ==> OnDisk(trees[i], k, SizesOf(trees, k)[i])
  {
    hide Alive, EventStep, OnDisk, SizeOn, SizeStep;
    forall i | 0 <= i < |events|
      ensures SizeStepAt(events, SizesOf(trees, k), i)
    {
      AliveAfter(events, lossy, k, trees, i);
      assert EventStepAt(events, lossy, k, trees, i);
      EventKeeps(events[i], lossy, k, trees[i], trees[i + 1]);
    }
    forall i | 0 <= i <= |events|
      ensures OnDisk(trees[i], k, SizesOf(trees, k)[i])
    {
      AliveAfter(events, lossy, k, trees, i);
      AliveOnDisk(trees[i], k);
    }
  }

  predicate NoWrite(events: seq<Event>, k: Key, i: nat, j: nat) {
    forall m :: i <= m < j && m < |events| ==> !Writes(events[m], k)
  }

  /** Between two writes of its pod the volume's data is the same at every step: resizing does not touch it. */
  lemma {:induction false} DataKept(events: seq<Event>, lossy: bool, k: Key, trees: seq<Tree>, i: nat, j: nat)
    requires History(events, lossy, k, trees) && Alive(trees[0], k)
    requires i <= j <= |events| && NoWrite(events, k, i, j)
    ensures FilesOn(trees[j], k) == FilesOn(trees[i], k)
    decreases j - i
  {
    hide Alive, EventStep, SizeStep, FilesOn;
    if i < j {
      DataKept(events, lossy, k, trees, i, j - 1);
      AliveAfter(events, lossy, k, trees, j - 1);
      assert EventStepAt(events, lossy, k, trees, j - 1);
      EventKeeps(events[j - 1], lossy, k, trees[j - 1], trees[j]);
    }
  }

  // ---------------------------------------------------------------------------------------------
  // What the sizes are
  // ---------------------------------------------------------------------------------------------

  /** No resize from `i` on and before `j` was answered. */
  predicate NoAnswer(events: seq<Event>, i: nat, j: nat) {
    forall m :: i <= m < j && m < |events| ==> !(events[m].Resize? && events[m].replied)
  }

  /** Event `i` may be the one that set the size at `j`: it is a resize, and none was answered since. */
  predicate MaySet(events: seq<Event>, i: int, j: nat) {
    0 <= i < j <= |events| && events[i].Resize? && NoAnswer(events, i + 1, j)
  }

  /** Every size is the first one or a resize's, and no older than the last answer. */
  lemma {:induction false} SizeComesFrom(events: seq<Event>, sizes: seq<UInt64>, j: nat)
    requires Sizes(events, sizes) && j <= |events|
    ensures (sizes[j] == sizes[0] && NoAnswer(events, 0, j)) || exists i :: MaySet(events, i, j) && sizes[j] == events[i].size
    decreases j
  {
    if j > 0 {
      assert SizeStepAt(events, sizes, j - 1);
      if events[j - 1].Resize? && sizes[j] == events[j - 1].size {
        assert MaySet(events, j - 1, j);
      } else {
        SizeComesFrom(events, sizes, j - 1);
        if i :| MaySet(events, i, j - 1) && sizes[j - 1] == events[i].size {
          assert MaySet(events, i, j);
        }
      }
    }
  }

  predicate NoResize(events: seq<Event>, i: nat, j: nat) {
    forall m :: i <= m < j && m < |events| ==> events[m].Other?
  }

  /** Every size sent is at least as large as those before it, `first` included. */
  ghost predicate Growing(first: UInt64, events: seq<Event>) {
    && (forall i :: 0 <= i < |events| && events[i].Resize? ==> first <= events[i].size)
    && (forall i, j :: 0 <= i < j < |events| && events[i].Resize? && events[j].Resize? ==> events[i].size <= events[j].size)
  }

  lemma {:induction false} SizeBounded(events: seq<Event>, sizes: seq<UInt64>, i: nat, bound: UInt64)
    requires Sizes(events, sizes) && i <= |events| && sizes[0] <= bound
    requires forall m :: 0 <= m < i && events[m].Resize? ==> events[m].size <= bound
    ensures sizes[i] <= bound
    decreases i
  {
    if i > 0 {
      assert SizeStepAt(events, sizes, i - 1);
      SizeBounded(events, sizes, i - 1, bound);
    }
  }

  lemma {:induction false} NeverShrinks(events: seq<Event>, sizes: seq<UInt64>, i: nat, j: nat)
    requires Sizes(events, sizes) && Growing(sizes[0], events) && i <= j <= |events|
    ensures sizes[i] <= sizes[j]
    decreases j
  {
    if i < j {
      NeverShrinks(events, sizes, i, j - 1);
      assert SizeStepAt(events, sizes, j - 1);
      if events[j - 1].Resize? {
        SizeBounded(events, sizes, j - 1, events[j - 1].size);
      }
    }
  }

  // ---------------------------------------------------------------------------------------------
  // What the controller reports
  // ---------------------------------------------------------------------------------------------

  /** What the controller sends to the node, and reports when the request succeeds, for `bytes` requested. */
  function StoredFor(bytes: Int64): UInt64 {
    ToUInt64(GetRoundedCapacity(bytes))
  }

  /** The resizes are the controller's, for the bytes requested. */
  predicate Requested(events: seq<Event>, requests: seq<Int64>) {
    |requests| == |events| && forall i :: 0 <= i < |events| && events[i].Resize? ==> events[i].size == StoredFor(requests[i])
  }

  /** The size on disk is the capacity reported for `bytes`, read back as int64 without loss. */
  ghost predicate HoldsReported(t: Tree, k: Key, bytes: Int64) {
    SizeOn(t, k) == StoredFor(bytes) && ToInt64(SizeOn(t, k)) == GetRoundedCapacity(bytes)
  }

  /** On disk is what resize `i` reported, if it was answered; none was answered since. */
  ghost predicate ReportedAt(events: seq<Event>, requests: seq<Int64>, i: int, j: nat, t: Tree, k: Key) {
    |requests| == |events| && MaySet(events, i, j) && HoldsReported(t, k, requests[i])
  }

  lemma StoredIsReported(t: Tree, k: Key, bytes: Int64)
    requires SizeOn(t, k) == StoredFor(bytes)
    ensures HoldsReported(t, k, bytes)
  {
    ConversionsRoundTrip(GetRoundedCapacity(bytes), StoredFor(bytes));
  }

  /** An answered create of a blank volume: on disk is the capacity reported, and no data. */
  lemma BlankCreated(t: Tree, s: Store, lossy: bool, k: Key, bytes: Int64, u: Tree)
    requires Represents(t, s) && ValidKey(k) && k !in s && WellFormed(u)
    requires CreateOutcome(t, lossy, k, StoredFor(bytes), None, true, u)
    ensures Alive(u, k) && HoldsReported(u, k, bytes) && FilesOn(u, k) == NO_FILES
  {
    var s' := CreateRefinesAttempt(t, s, lossy, k, StoredFor(bytes), None, true, u);
    assert HoldsVolume(u, s', k);
    StoredOnDisk(u, s', k);
    StoredIsReported(u, k, bytes);
  }

  /**
   * Capacity honesty. A blank volume is created, answered, and then anything happens but its removal:
   * expansions, answered or not, writes of its pod, requests about other volumes. At every step its
   * record is its own, and the size in it is the capacity reported by the last answered request or sent
   * by an unanswered one since.
   */
  lemma CapacityHonest(t: Tree, s: Store, lossy: bool, k: Key, bytes: Int64, events: seq<Event>, requests: seq<Int64>,
                       trees: seq<Tree>, j: nat)
    requires Represents(t, s) && ValidKey(k) && k !in s
    requires History(events, lossy, k, trees) && Requested(events, requests) && WellFormed(trees[0]) && j <= |events|
    requires CreateOutcome(t, lossy, k, StoredFor(bytes), None, true, trees[0])
    ensures OnDisk(trees[j], k, SizeOn(trees[j], k))
    ensures (NoAnswer(events, 0, j) && HoldsReported(trees[j], k, bytes))
         || exists i :: ReportedAt(events, requests, i, j, trees[j], k)
  {
    hide Represents, CreateOutcome, OnDisk, SizeOn, StoredFor, Alive, EventStepAt, GetRoundedCapacity, NoAnswer;
    BlankCreated(t, s, lossy, k, bytes, trees[0]);
    SizesOnDisk(events, lossy, k, trees);
    SizeComesFrom(events, SizesOf(trees, k), j);
    if i :| MaySet(events, i, j) && SizeOn(trees[j], k) == events[i].size {
      StoredIsReported(trees[j], k, requests[i]);
      assert ReportedAt(events, requests, i, j, trees[j], k);
    } else {
      StoredIsReported(trees[j], k, bytes);
    }
  }

  /** Until the first expansion is asked for, the record holds what the create reported. */
  lemma ReportedByCreate(t: Tree, s: Store, lossy: bool, k: Key, bytes: Int64, events: seq<Event>, requests: seq<Int64>,
                         trees: seq<Tree>, j: nat)
    requires Represents(t, s) && ValidKey(k) && k !in s
    requires History(events, lossy, k, trees) && Requested(events, requests) && WellFormed(trees[0]) && j <= |events|
    requires CreateOutcome(t, lossy, k, StoredFor(bytes), None, true, trees[0])
    requires NoResize(events, 0, j)
    ensures HoldsReported(trees[j], k, bytes)
  {
    hide Represents, CreateOutcome, OnDisk, SizeOn, StoredFor, EventStepAt, GetRoundedCapacity, HoldsReported;
    CapacityHonest(t, s, lossy, k, bytes, events, requests, trees, j);
    forall i
      ensures !MaySet(events, i, j)
    {
      assert 0 <= i < j && i < |events| ==> events[i].Other?;
    }
  }

  /** After an answered expansion and until the next one is asked for, the record holds what it reported. */
  lemma ReportedIsStored(events: seq<Event>, requests: seq<Int64>, lossy: bool, k: Key, trees: seq<Tree>, i: nat, j: nat)
    requires History(events, lossy, k, trees) && Alive(trees[0], k) && Requested(events, requests)
    requires i < j <= |events| && events[i].Resize? && events[i].replied && NoResize(events, i + 1, j)
    ensures OnDisk(trees[j], k, StoredFor(requests[i])) && HoldsReported(trees[j], k, requests[i])
  {
    hide OnDisk, SizeOn, StoredFor, Alive, EventStepAt, GetRoundedCapacity, HoldsReported;
    SizesOnDisk(events, lossy, k, trees);
    SizeComesFrom(events, SizesOf(trees, k), j);
    assert !NoAnswer(events, 0, j) by { assert events[i].replied; }
    var m :| MaySet(events, m, j) && SizesOf(trees, k)[j] == events[m].size;
    assert m == i;
    StoredIsReported(trees[j], k, requests[i]);
  }

  /** Every request can be rounded, and is at least as large as those before it, `first` included. */
  ghost predicate GrowingRequests(first: Int64, events: seq<Event>, requests: seq<Int64>)
    requires |requests| == |events|
  {
    && 0 <= first <= LAST_ROUNDABLE
    && (forall i :: 0 <= i < |events| && events[i].Resize? ==> first <= requests[i] <= LAST_ROUNDABLE)
    && (forall i, j :: 0 <= i < j < |events| && events[i].Resize? && events[j].Resize? ==> requests[i] <= requests[j])
  }

  lemma StoredMonotone(a: Int64, b: Int64)
    requires 0 <= a <= b <= LAST_ROUNDABLE
    ensures StoredFor(a) <= StoredFor(b)
  {
    RoundingStable(a, b);
    RoundedExactly(a);
    RoundedExactly(b);
  }

  /** From the create on, the size on disk never shrinks if the requests do not, lost messages or not. */
  lemma CapacityNeverShrinks(t: Tree, s: Store, lossy: bool, k: Key, bytes: Int64, events: seq<Event>, requests: seq<Int64>,
                             trees: seq<Tree>, i: nat, j: nat)
    requires Represents(t, s) && ValidKey(k) && k !in s
    requires History(events, lossy, k, trees) && Requested(events, requests) && WellFormed(trees[0])
    requires CreateOutcome(t, lossy, k, StoredFor(bytes), None, true, trees[0])
    requires GrowingRequests(bytes, events, requests) && i <= j <= |events|
    ensures SizeOn(trees[i], k) <= SizeOn(trees[j], k)
  {
    hide Represents, CreateOutcome, OnDisk, SizeOn, StoredFor, Alive, EventStepAt, GetRoundedCapacity, GrowingRequests, Growing;
    BlankCreated(t, s, lossy, k, bytes, trees[0]);
    SizesOnDisk(events, lossy, k, trees);
    SizesGrow(bytes, events, requests);
    NeverShrinks(events, SizesOf(trees, k), i, j);
  }

  lemma SizesGrow(first: Int64, events: seq<Event>, requests: seq<Int64>)
    requires Requested(events, requests) && GrowingRequests(first, events, requests)
    ensures Growing(StoredFor(first), events)
  {
    forall i | 0 <= i < |events| && events[i].Resize?
      ensures StoredFor(first) <= events[i].size
    {
      StoredMonotone(first, requests[i]);
    }
    forall i, j | 0 <= i < j < |events| && events[i].Resize? && events[j].Resize?
      ensures events[i].size <= events[j].size
    {
      StoredMonotone(requests[i], requests[j]);
    }
  }

  /**
   * An answered create of a new volume: a blank volume holds the reported capacity; a clone or a
   * restored snapshot holds it exactly when the source's size is the rounded request.
   */
  lemma CreatedSize(t: Tree, s: Store, lossy: bool, k: Key, bytes: Int64, source: Option<string>, u: Tree)
    requires Represents(t, s) && ValidKey(k) && (source.Some? ==> ValidName(source.value)) && WellFormed(u)
    requires k !in s && CreateOutcome(t, lossy, k, StoredFor(bytes), source, true, u)
    ensures Alive(u, k)
    ensures source.Some? ==> Key(k.vg, source.value) in s
    ensures HoldsReported(u, k, bytes)
       <==> (source.Some? && Key(k.vg, source.value) in s ==> s[Key(k.vg, source.value)].size == StoredFor(bytes))
  {
    var s' := CreateRefinesAttempt(t, s, lossy, k, StoredFor(bytes), source, true, u);
    assert HoldsVolume(u, s', k);
    StoredOnDisk(u, s', k);
    ConversionsRoundTrip(GetRoundedCapacity(bytes), s'[k].size);
  }
}
