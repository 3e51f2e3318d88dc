/**
 * The same request again: once an attempt at it was answered, further attempts leave the file tree
 * exactly as it is, byte for byte.
 */
module Retries {
  import opened Wrappers
  import opened Paths
  import opened Metadata
  import opened FileSystem
  import opened Volumes
  import opened Remote
  import opened Protocol

  /** After an answered create the name is listed, so the next one changes nothing; a reliable one is answered again. */
  lemma CreateAgain(t: Tree, s: Store, lossy: bool, k: Key, size: UInt64, source: Option<string>, replied: bool, u: Tree)
    requires Represents(t, s) && k in s
    requires CreateOutcome(t, lossy, k, size, source, replied, u)
    ensures u == t && (!lossy ==> replied)
  {
    ListingUnder(t, s, k);
  }

  /** A create whose source is missing changes nothing and is never answered. */
  lemma CreateInVain(t: Tree, s: Store, lossy: bool, k: Key, size: UInt64, src: string, replied: bool, u: Tree)
    requires Represents(t, s) && ValidKey(k) && ValidName(src) && k !in s && Key(k.vg, src) !in s
    requires CreateOutcome(t, lossy, k, size, Some(src), replied, u)
    ensures u == t && !replied
  {
    ListingUnder(t, s, k);
    if u != t || replied {
      var call :| PlaceCall(t, lossy, k, size, Some(src), replied, u, call);
      if call.done {
        CopyOfMissing(t, s, Key(k.vg, src), k, call.ok, u);
      }
    }
  }

  lemma DeleteAgain(t: Tree, s: Store, lossy: bool, k: Key, swallowed: bool, replied: bool, u: Tree)
    requires Represents(t, s) && ValidKey(k) && k !in s
    requires DeleteOutcome(t, lossy, k, swallowed, replied, u)
    ensures u == t && (!lossy ==> replied)
  {
    ListingUnder(t, s, k);
  }

  /** A request that may be tried several times. */
  datatype Request =
    | CreateRequest(size: UInt64, source: Option<string>)
    | DeleteVolumeRequest
    | DeleteSnapshotRequest

  ghost predicate Attempt(r: Request, lossy: bool, lost: string, k: Key, t: Tree, replied: bool, u: Tree) {
    WellFormed(u) &&
    match r
    case CreateRequest(size, source) => CreateOutcome(t, lossy, k, size, source, replied, u)
    case DeleteVolumeRequest => DeleteVolumeOutcome(t, lossy, lost, k, replied, u)
    case DeleteSnapshotRequest => DeleteOutcome(t, lossy, k, false, replied, u)
  }

  predicate ProperRequestFor(r: Request, k: Key) {
    ValidKey(k) && (r.CreateRequest? && r.source.Some? ==> ValidName(r.source.value))
  }

  /** The request has been carried out: its volume is there, or is gone. */
  predicate Settled(r: Request, k: Key, s: Store) {
    if r.CreateRequest? then k in s else k !in s
  }

  /** The request deletes a volume, and the text of a lost message would be taken for "the volume is gone". */
  predicate Mistaken(r: Request, lossy: bool, lost: string, k: Key) {
    r.DeleteVolumeRequest? && lossy && Swallowed(lost, k.vg)
  }

  /** Consecutive attempts at one request. */
  ghost predicate Attempts(r: Request, lossy: bool, lost: string, k: Key, trees: seq<Tree>, replies: seq<bool>) {
    && |trees| == |replies| + 1
    && forall i :: 0 <= i < |replies| ==> AttemptAt(r, lossy, lost, k, trees, replies, i)
  }

  ghost predicate AttemptAt(r: Request, lossy: bool, lost: string, k: Key, trees: seq<Tree>, replies: seq<bool>, i: nat)
    requires |trees| == |replies| + 1 && i < |replies|
  {
    Attempt(r, lossy, lost, k, trees[i], replies[i], trees[i + 1])
  }

  lemma AttemptRefines(r: Request, lossy: bool, lost: string, k: Key, t: Tree, s: Store, replied: bool, u: Tree) returns (s': Store)
    requires Represents(t, s) && ProperRequestFor(r, k) && Attempt(r, lossy, lost, k, t, replied, u)
    ensures Represents(u, s') && (replied && !Mistaken(r, lossy, lost, k) ==> Settled(r, k, s'))
  {
    match r
    case CreateRequest(size, source) => s' := CreateRefinesAttempt(t, s, lossy, k, size, source, replied, u);
    case DeleteVolumeRequest => s' := DeleteVolumeRefines(t, s, lossy, lost, k, replied, u);
    case DeleteSnapshotRequest => s' := DeleteRefinesAttempt(t, s, lossy, k, false, replied, u);
  }

  /** On disk: the volume's directory is there, or is gone. */
  predicate SettledOn(r: Request, k: Key, t: Tree) {
    if r.CreateRequest? then Home(k) in t else Home(k) !in t
  }

  /**
   * When an answer can be believed: every answered attempt has carried the request out if and only if
   * lost messages are not mistaken, or it had been carried out before.
   */
  lemma AnswerIsTrue(r: Request, lossy: bool, lost: string, k: Key, t: Tree, s: Store)
    requires Represents(t, s) && ProperRequestFor(r, k)
    ensures (forall u :: Attempt(r, lossy, lost, k, t, true, u) ==> SettledOn(r, k, u))
       <==> !Mistaken(r, lossy, lost, k) || Settled(r, k, s)
  {
    if Mistaken(r, lossy, lost, k) && !Settled(r, k, s) {
      assert DeleteVolumeCall(t, lossy, lost, k, true, t, lost);
      assert Attempt(r, lossy, lost, k, t, true, t) && !SettledOn(r, k, t);
    } else {
      forall u | Attempt(r, lossy, lost, k, t, true, u)
        ensures SettledOn(r, k, u)
      {
        if Settled(r, k, s) {
          SettledStays(r, lossy, lost, k, t, s, true, u);
        } else {
          var s' := AttemptRefines(r, lossy, lost, k, t, s, true, u);
        }
      }
    }
  }

  lemma SettledStays(r: Request, lossy: bool, lost: string, k: Key, t: Tree, s: Store, replied: bool, u: Tree)
    requires Represents(t, s) && ProperRequestFor(r, k) && Settled(r, k, s) && Attempt(r, lossy, lost, k, t, replied, u)
    ensures u == t && (!lossy ==> replied)
  {
    match r
    case CreateRequest(size, source) => CreateAgain(t, s, lossy, k, size, source, replied, u);
    case DeleteVolumeRequest =>
      var lookup :| DeleteVolumeCall(t, lossy, lost, k, replied, u, lookup);
      DeleteAgain(t, s, lossy, k, Swallowed(lookup, k.vg), replied, u);
    case DeleteSnapshotRequest => DeleteAgain(t, s, lossy, k, false, replied, u);
  }

  lemma NextRefines(r: Request, lossy: bool, lost: string, k: Key, trees: seq<Tree>, replies: seq<bool>, j: nat, s: Store)
    returns (s': Store)
    requires Attempts(r, lossy, lost, k, trees, replies) && ProperRequestFor(r, k)
    requires 0 < j <= |replies| && Represents(trees[j - 1], s)
    ensures Represents(trees[j], s') && (replies[j - 1] && !Mistaken(r, lossy, lost, k) ==> Settled(r, k, s'))
  {
    assert AttemptAt(r, lossy, lost, k, trees, replies, j - 1);
    s' := AttemptRefines(r, lossy, lost, k, trees[j - 1], s, replies[j - 1], trees[j]);
  }

  lemma NextStays(r: Request, lossy: bool, lost: string, k: Key, trees: seq<Tree>, replies: seq<bool>, i: nat, s: Store)
    requires Attempts(r, lossy, lost, k, trees, replies) && ProperRequestFor(r, k) && i < |replies| && Represents(trees[i], s)
    requires Settled(r, k, s)
    ensures trees[i + 1] == trees[i] && (!lossy ==> replies[i])
    ensures Represents(trees[i + 1], s)
  {
    assert AttemptAt(r, lossy, lost, k, trees, replies, i);
    SettledStays(r, lossy, lost, k, trees[i], s, replies[i], trees[i + 1]);
  }

  lemma {:induction false} AttemptsRefine(r: Request, lossy: bool, lost: string, k: Key, trees: seq<Tree>, replies: seq<bool>, i: nat, s: Store)
    returns (s': Store)
    requires Attempts(r, lossy, lost, k, trees, replies) && ProperRequestFor(r, k) && Represents(trees[0], s) && i <= |replies|
    ensures Represents(trees[i], s')
    decreases i
  {
    if i == 0 {
      s' := s;
    } else {
      var before := AttemptsRefine(r, lossy, lost, k, trees, replies, i - 1, s);
      s' := NextRefines(r, lossy, lost, k, trees, replies, i, before);
    }
  }

  lemma {:induction false} StaysFrom(r: Request, lossy: bool, lost: string, k: Key, trees: seq<Tree>, replies: seq<bool>, i: nat, j: nat, s: Store)
    requires Attempts(r, lossy, lost, k, trees, replies) && ProperRequestFor(r, k)
    requires i <= j <= |replies| && Represents(trees[i], s) && Settled(r, k, s)
    ensures trees[j] == trees[i] && (!lossy && i < j ==> replies[j - 1])
    decreases j - i
  {
    if i < j {
      NextStays(r, lossy, lost, k, trees, replies, i, s);
      StaysFrom(r, lossy, lost, k, trees, replies, i + 1, j, s);
    }
  }

  /**
   * Idempotence of create, delete and their snapshot forms: after the first answered attempt every
   * later one, answered or not, leaves the very same tree; without losses all of them are answered. The
   * one exception is a volume's delete over a network whose lost messages read as "gone".
   */
  lemma SettledFrom(r: Request, lossy: bool, lost: string, k: Key, trees: seq<Tree>, replies: seq<bool>, i: nat, j: nat, s: Store)
    requires Attempts(r, lossy, lost, k, trees, replies) && ProperRequestFor(r, k) && Represents(trees[0], s)
    requires i < j <= |replies| && replies[i] && !Mistaken(r, lossy, lost, k)
    ensures trees[j] == trees[i + 1]
    ensures !lossy ==> replies[j - 1]
  {
    var before := AttemptsRefine(r, lossy, lost, k, trees, replies, i, s);
    var s' := NextRefines(r, lossy, lost, k, trees, replies, i + 1, before);
    StaysFrom(r, lossy, lost, k, trees, replies, i + 1, j, s');
  }

  /** Without losses, trying n >= 1 times is trying once, whatever the answer is. */
  lemma {:induction false} ManyIsOne(r: Request, lost: string, k: Key, trees: seq<Tree>, replies: seq<bool>, n: nat, s: Store)
    requires Attempts(r, false, lost, k, trees, replies) && ProperRequestFor(r, k) && Represents(trees[0], s)
    requires 1 <= n <= |replies|
    ensures trees[n] == trees[1] && replies[n - 1] == replies[0]
    decreases n
  {
    assert AttemptAt(r, false, lost, k, trees, replies, 0);
    if replies[0] {
      SettledFrom(r, false, lost, k, trees, replies, 0, n, s);
    } else {
      NeverAnswered(r, lost, k, trees, replies, 1, s);
      NeverAnswered(r, lost, k, trees, replies, n, s);
    }
  }

  /** Without losses only a create whose source is missing stays unanswered; it never changes anything. */
  lemma {:induction false} NeverAnswered(r: Request, lost: string, k: Key, trees: seq<Tree>, replies: seq<bool>, n: nat, s: Store)
    requires Attempts(r, false, lost, k, trees, replies) && ProperRequestFor(r, k) && Represents(trees[0], s)
    requires 1 <= n <= |replies| && !replies[0]
    ensures trees[n] == trees[0] && !replies[n - 1]
    decreases n
  {
    if n > 1 {
      NeverAnswered(r, lost, k, trees, replies, n - 1, s);
    }
    assert AttemptAt(r, false, lost, k, trees, replies, 0) && AttemptAt(r, false, lost, k, trees, replies, n - 1);
    VainOnce(r, lost, k, trees[0], s, trees[1]);
    VainAgain(r, lost, k, trees[0], s, replies[n - 1], trees[n]);
  }

  lemma VainOnce(r: Request, lost: string, k: Key, t: Tree, s: Store, u: Tree)
    requires Represents(t, s) && ProperRequestFor(r, k) && Attempt(r, false, lost, k, t, false, u)
    ensures r.CreateRequest? && r.source.Some? && k !in s && Key(k.vg, r.source.value) !in s
  {
    match r
    case CreateRequest(size, source) => var s' := CreateRefinesAttempt(t, s, false, k, size, source, false, u);
    case DeleteVolumeRequest => var s' := DeleteVolumeRefines(t, s, false, lost, k, false, u);
    case DeleteSnapshotRequest => var s' := DeleteRefinesAttempt(t, s, false, k, false, false, u);
  }

  lemma VainAgain(r: Request, lost: string, k: Key, t: Tree, s: Store, replied: bool, u: Tree)
    requires Represents(t, s) && ProperRequestFor(r, k) && Attempt(r, false, lost, k, t, replied, u)
    requires r.CreateRequest? && r.source.Some? && k !in s && Key(k.vg, r.source.value) !in s
    ensures u == t && !replied
  {
    CreateInVain(t, s, false, k, r.size, r.source.value, replied, u);
  }

  // ---------------------------------------------------------------------------------------------
  // With losses: once or not at all
  // ---------------------------------------------------------------------------------------------

  /** The request carried out once, on the abstract store. */
  ghost predicate Carried(r: Request, k: Key, s: Store, s': Store) {
    match r
    case CreateRequest(size, source) => CreateStep(s, k, size, source, s') && k in s'
    case _ => s' == s - {k}
  }

  /** An attempt that changed the tree has carried the request out, whatever its answer. */
  lemma ChangeCarries(r: Request, lossy: bool, lost: string, k: Key, t: Tree, s: Store, replied: bool, u: Tree) returns (s': Store)
    requires Represents(t, s) && ProperRequestFor(r, k) && Attempt(r, lossy, lost, k, t, replied, u)
    ensures Represents(u, s') && ((u == t && s' == s) || Carried(r, k, s, s'))
  {
    if u == t {
      s' := s;
    } else {
      match r
      case CreateRequest(size, source) => s' := CreateCarries(lossy, k, t, s, size, source, replied, u);
      case DeleteVolumeRequest =>
        var lookup :| DeleteVolumeCall(t, lossy, lost, k, replied, u, lookup);
        s' := DeleteCarries(lossy, k, t, s, Swallowed(lookup, k.vg), replied, u);
      case DeleteSnapshotRequest => s' := DeleteCarries(lossy, k, t, s, false, replied, u);
    }
  }

  lemma CreateCarries(lossy: bool, k: Key, t: Tree, s: Store, size: UInt64, source: Option<string>, replied: bool, u: Tree)
    returns (s': Store)
    requires Represents(t, s) && ValidKey(k) && (source.Some? ==> ValidName(source.value)) && WellFormed(u)
    requires CreateOutcome(t, lossy, k, size, source, replied, u) && u != t
    ensures Represents(u, s') && CreateStep(s, k, size, source, s') && k in s'
  {
    ListingUnder(t, s, k);
    var call :| PlaceCall(t, lossy, k, size, source, replied, u, call);
    s' := PlaceRefines(t, s, k, size, source, call.ok, u);
    if !call.ok {
      CopyOfMissing(t, s, Key(k.vg, source.value), k, call.ok, u);
    }
  }

  lemma DeleteCarries(lossy: bool, k: Key, t: Tree, s: Store, swallowed: bool, replied: bool, u: Tree) returns (s': Store)
    requires Represents(t, s) && ValidKey(k)
    requires DeleteOutcome(t, lossy, k, swallowed, replied, u) && u != t
    ensures Represents(u, s') && s' == s - {k}
  {
    RemoveRefines(t, s, k, u);
    s' := s - {k};
  }

  /** Attempt `i` is the one that changed the first tree into the `n`th. */
  predicate OnceAt(trees: seq<Tree>, i: int, n: nat) {
    0 <= i < n < |trees| && trees[i] == trees[0] && trees[i + 1] == trees[n]
  }

  /**
   * However many times a request is tried, whichever messages are lost and whatever is made of their
   * errors: the tree is the first one, or exactly one attempt changed it, and carried the request out.
   */
  lemma {:induction false} OnceOrNotAtAll(r: Request, lossy: bool, lost: string, k: Key, trees: seq<Tree>, replies: seq<bool>,
                                          n: nat, s: Store) returns (s': Store)
    requires Attempts(r, lossy, lost, k, trees, replies) && ProperRequestFor(r, k) && Represents(trees[0], s) && n <= |replies|
    ensures Represents(trees[n], s')
    ensures (trees[n] == trees[0] && s' == s) || (Carried(r, k, s, s') && exists i :: OnceAt(trees, i, n))
    decreases n
  {
    hide Represents, Attempt, Carried;
    if n == 0 {
      s' := s;
    } else {
      var before := OnceOrNotAtAll(r, lossy, lost, k, trees, replies, n - 1, s);
      if trees[n - 1] == trees[0] && before == s {
        assert AttemptAt(r, lossy, lost, k, trees, replies, n - 1);
        s' := ChangeCarries(r, lossy, lost, k, trees[0], s, replies[n - 1], trees[n]);
        assert OnceAt(trees, n - 1, n);
      } else {
        CarriedSettles(r, k, s, before);
        NextStays(r, lossy, lost, k, trees, replies, n - 1, before);
        s' := before;
        var i :| OnceAt(trees, i, n - 1);
        assert OnceAt(trees, i, n);
      }
    }
  }

  lemma CarriedSettles(r: Request, k: Key, s: Store, s': Store)
    requires Carried(r, k, s, s')
    ensures Settled(r, k, s')
  {
  }
}
