/**
 * A directory without a readable record, such as a crash in the middle of a create leaves. It blocks
 * its whole group: the controller neither creates nor removes anything there any more, in any run.
 */
module FailStop {
  import opened Wrappers
  import opened Strings
  import opened Paths
  import opened Metadata
  import opened FileSystem
  import opened StoreEffects
  import opened Volumes
  import opened Remote
  import opened Protocol
  import opened CsiController
  import opened Clusters

  ghost predicate Incomplete(t: Tree, vg: string, c: string) {
    IsDir(t, GroupPath(vg) + [c]) && LoadMeta(t, vg, c).None?
  }

  ghost predicate SameDirectories(t: Tree, u: Tree, vg: string) {
    forall c :: IsDir(t, GroupPath(vg) + [c]) <==> IsDir(u, GroupPath(vg) + [c])
  }

  /** In a blocked group a create changes nothing, and is not answered with success. */
  lemma CreateStops(t: Tree, lossy: bool, k: Key, size: UInt64, source: Option<string>, replied: bool, u: Tree)
    requires HalfMade(t, k.vg) && CreateOutcome(t, lossy, k, size, source, replied, u)
    ensures u == t && !replied
  {
  }

  /** A delete changes nothing either, and succeeds only by mistaking the listing's error for "already gone". */
  lemma DeleteStops(t: Tree, lossy: bool, k: Key, swallowed: bool, replied: bool, u: Tree)
    requires HalfMade(t, k.vg) && DeleteOutcome(t, lossy, k, swallowed, replied, u)
    ensures u == t && (replied <==> swallowed)
  {
  }

  /** Expanding a complete volume of the same group still works: it does not look at the listing. */
  lemma ExpandGoesOn(t: Tree, k: Key, size: UInt64, replied: bool, u: Tree, v: Vol)
    requires HalfMade(t, k.vg) && LoadMeta(t, k.vg, k.name) == Some(v)
    requires ExpandOutcome(t, false, k, size, replied, u)
    ensures replied && LoadMeta(u, k.vg, k.name) == Some(v.(size := size))
    ensures forall q :: q != MetaOf(k) ==> (q in u <==> q in t) && (q in t ==> u[q] == t[q])
  {
    DecodeEncode(v.(size := size), "");
  }

  // ---------------------------------------------------------------------------------------------
  // Whole runs
  // ---------------------------------------------------------------------------------------------

  /** The directories of a group and their records are those of the other tree. */
  ghost predicate GroupUntouched(t: Tree, u: Tree, vg: string) {
    forall q :: GroupPath(vg) <= q && q != GroupPath(vg) && |q| <= 5 && (|q| == 5 ==> q[4] == MetaName()) ==>
      (q in t <==> q in u) && (q in t ==> t[q] == u[q])
  }

  lemma UntouchedStays(t: Tree, u: Tree, vg: string, c: string)
    requires GroupUntouched(t, u, vg) && Incomplete(t, vg, c)
    ensures Incomplete(u, vg, c) && SameDirectories(t, u, vg)
  {
    forall d
      ensures IsDir(t, GroupPath(vg) + [d]) <==> IsDir(u, GroupPath(vg) + [d])
    {
      assert GroupPath(vg) <= GroupPath(vg) + [d];
    }
    assert GroupPath(vg) <= MetaPath(vg, c) && MetaPath(vg, c)[4] == MetaName();
    assert GroupPath(vg) <= GroupPath(vg) + [c];
  }

  /** A volume of another group. */
  lemma OtherGroup(k: Key, vg: string, q: Path)
    requires k.vg != vg && GroupPath(vg) <= q
    ensures !(Home(k) <= q) && !(q <= Home(k)) && !(q <= MountOf(k))
  {
    assert q[2] == vg && Home(k)[2] == k.vg && MountOf(k)[2] == k.vg;
  }

  lemma ElsewhereUntouched(t: Tree, u: Tree, k: Key, vg: string)
    requires k.vg != vg
    requires forall q :: !(Home(k) <= q) && !(q <= MountOf(k)) ==> (q in t <==> q in u) && (q in t ==> t[q] == u[q])
    ensures GroupUntouched(t, u, vg)
  {
    forall q | GroupPath(vg) <= q && (q in t || q in u)
      ensures !(Home(k) <= q) && !(q <= MountOf(k))
    {
      OtherGroup(k, vg, q);
    }
  }

  /** Whatever a create does, it does it in the directory of its own volume or on the way to it. */
  lemma PlacedElsewhere(t: Tree, k: Key, size: UInt64, source: Option<string>, ok: bool, u: Tree)
    requires PlaceEffect(t, k, size, source, ok, u)
    ensures forall q :: !(Home(k) <= q) && !(q <= MountOf(k)) ==> (q in t <==> q in u) && (q in t ==> t[q] == u[q])
  {
    KeyPaths(k);
    forall q | !(Home(k) <= q) && !(q <= MountOf(k))
      ensures (q in t <==> q in u) && (q in t ==> t[q] == u[q])
    {
      assert q != MetaOf(k);
      if MountOf(k) <= q {
        PrefixTransitive(Home(k), MountOf(k), q);
      }
    }
  }

  lemma PodElsewhere(t: Tree, u: Tree, k: Key, vg: string)
    requires PodWriteEffect(t, k, u)
    ensures GroupUntouched(t, u, vg)
  {
    forall q | MountOf(k) <= q
      ensures |q| >= 5 && q[4] != MetaName()
    {
      assert q[4] == MountOf(k)[4] == MountName();
      assert |MountName()| != |MetaName()|;
    }
  }

  lemma ExpandedStays(t: Tree, u: Tree, k: Key, size: UInt64, v: Vol, vg: string, c: string)
    requires LoadMeta(t, k.vg, k.name) == Some(v) && u == t[MetaOf(k) := File(Encode(v.(size := size)))]
    requires Incomplete(t, vg, c)
    ensures Incomplete(u, vg, c) && SameDirectories(t, u, vg)
  {
    assert |MetaOf(k)| == 5;
    forall d
      ensures GroupPath(vg) + [d] != MetaOf(k)
    {
      assert |GroupPath(vg) + [d]| == 4;
    }
    if MetaPath(vg, c) == MetaOf(k) {
      RecordOfOne(vg, c, k);
    }
  }

  lemma RecordOfOne(vg: string, c: string, k: Key)
    requires MetaPath(vg, c) == MetaOf(k)
    ensures k == Key(vg, c)
  {
    assert MetaPath(vg, c)[2] == vg && MetaPath(vg, c)[3] == c;
    assert MetaOf(k)[2] == k.vg && MetaOf(k)[3] == k.name;
  }

  /** One step of a run leaves an incomplete directory incomplete and the group's directories as they are. */
  lemma IncompleteStays(op: Op, t: Tree, u: Tree, vg: string, c: string)
    requires NodeStep(op, t, u) && Incomplete(t, vg, c)
    ensures Incomplete(u, vg, c) && SameDirectories(t, u, vg)
    ensures (op.Create? || op.Delete?) && op.key.vg == vg ==> u == t
  {
    match op
    case Create(_, k, size, source) =>
      var lossy, replied :| CreateOutcome(t, lossy, k, size, source, replied, u);
      CreateLeaves(t, lossy, k, size, source, replied, u, vg, c);
    case Delete(_, k) =>
      var lossy, swallowed, replied :| DeleteOutcome(t, lossy, k, swallowed, replied, u);
      DeleteLeaves(t, lossy, k, swallowed, replied, u, vg, c);
    case Expand(_, k, size) =>
      var lossy, replied :| ExpandOutcome(t, lossy, k, size, replied, u);
      ExpandLeaves(t, lossy, k, size, replied, u, vg, c);
    case PodWrite(_, k) =>
      PodElsewhere(t, u, k, vg);
      UntouchedStays(t, u, vg, c);
  }

  lemma CreateLeaves(t: Tree, lossy: bool, k: Key, size: UInt64, source: Option<string>, replied: bool, u: Tree, vg: string, c: string)
    requires CreateOutcome(t, lossy, k, size, source, replied, u) && Incomplete(t, vg, c)
    ensures Incomplete(u, vg, c) && SameDirectories(t, u, vg)
    ensures k.vg == vg ==> u == t
  {
    if k.vg == vg {
      CreateStops(t, lossy, k, size, source, replied, u);
    } else if u != t {
      var call :| PlaceCall(t, lossy, k, size, source, replied, u, call);
      PlacedElsewhere(t, k, size, source, call.ok, u);
      ElsewhereUntouched(t, u, k, vg);
      UntouchedStays(t, u, vg, c);
    }
  }

  lemma DeleteLeaves(t: Tree, lossy: bool, k: Key, swallowed: bool, replied: bool, u: Tree, vg: string, c: string)
    requires DeleteOutcome(t, lossy, k, swallowed, replied, u) && Incomplete(t, vg, c)
    ensures Incomplete(u, vg, c) && SameDirectories(t, u, vg)
    ensures k.vg == vg ==> u == t
  {
    if k.vg == vg {
      DeleteStops(t, lossy, k, swallowed, replied, u);
    } else if u != t {
      var call :| RemoveCall(t, lossy, k, replied, u, call);
      ElsewhereUntouched(t, u, k, vg);
      UntouchedStays(t, u, vg, c);
    }
  }

  lemma ExpandLeaves(t: Tree, lossy: bool, k: Key, size: UInt64, replied: bool, u: Tree, vg: string, c: string)
    requires ExpandOutcome(t, lossy, k, size, replied, u) && Incomplete(t, vg, c)
    ensures Incomplete(u, vg, c) && SameDirectories(t, u, vg)
  {
    var call :| ExpandCall(t, lossy, k, size, replied, u, call);
    if u != t {
      ExpandedStays(t, u, k, size, LoadMeta(t, k.vg, k.name).value, vg, c);
    }
  }

  /**
   * Fail-stop over whole runs: once a directory of the group has no readable record, it never gets one,
   * and whatever is requested, no directory of the group is ever added or removed again.
   */
  lemma {:induction false} GroupStopped(ops: seq<Op>, states: seq<Trees>, i: nat, node: string, vg: string, c: string)
    requires Run(ops, states) && i <= |ops|
    requires node in states[0] && Incomplete(states[0][node], vg, c)
    ensures node in states[i] && Incomplete(states[i][node], vg, c)
    ensures SameDirectories(states[0][node], states[i][node], vg)
    decreases i
  {
    if i > 0 {
      GroupStopped(ops, states, i - 1, node, vg, c);
      assert TreeStepAt(ops, states, i - 1);
      if ops[i - 1].node == node {
        IncompleteStays(ops[i - 1], states[i - 1][node], states[i][node], vg, c);
      }
    }
  }

  // ---------------------------------------------------------------------------------------------
  // A failure that is taken for success
  // ---------------------------------------------------------------------------------------------

  /** `c` is the one directory of the group without a readable record. */
  ghost predicate OnlyIncomplete(t: Tree, vg: string, c: string) {
    Incomplete(t, vg, c) && forall d :: Incomplete(t, vg, d) ==> d == c
  }

  /** The error of a failed listing quotes the directory's name, and a delete reads it for its own purpose. */
  lemma ReadsAsGone(t: Tree, vg: string, c: string, text: string)
    requires WellFormed(t) && OnlyIncomplete(t, vg, c) && Occurs("Failed to find logical volume", c)
    requires LookupText(t, vg, text)
    ensures Swallowed(text, vg)
  {
    assert Parent(GroupPath(vg) + [c]) == GroupPath(vg);
    hide Occurs, WellFormed;
    var front, inner := RPC_ERROR + LIST_ERROR, text[|RPC_ERROR + LIST_ERROR|..];
    var d :| StoppedAt(t, vg, d, inner);
    assert Incomplete(t, vg, d);
    assert Stop(c) == "Parse metadata: " + c + ", with error: ";
    QuotedText("Failed to find logical volume", "Parse metadata: ", c, ", with error: ", front, inner);
    assert front + inner == text;
  }

  /** What occurs in a quoted name occurs in the text that quotes it. */
  lemma QuotedText(o: string, before: string, name: string, behind: string, front: string, inner: string)
    requires Occurs(o, name) && before + name + behind <= inner
    ensures Occurs(o, front + inner)
  {
    hide Occurs;
    var quoted := before + name + behind;
    OccursMonotone(o, name, behind);
    OccursAfter(o, before, name + behind);
    assert before + (name + behind) == quoted;
    OccursMonotone(o, quoted, inner[|quoted|..]);
    assert quoted + inner[|quoted|..] == inner;
    OccursAfter(o, front, inner);
  }

  /**
   * Without any loss of messages: if the one incomplete directory of a group is named like the error
   * DeleteVolume swallows, every delete of every volume of the group reports success and removes nothing.
   */
  lemma DeletesMistaken(t: Tree, lost: string, k: Key, c: string, replied: bool, u: Tree)
    requires WellFormed(t) && OnlyIncomplete(t, k.vg, c) && Occurs("Failed to find logical volume", c)
    requires DeleteVolumeOutcome(t, false, lost, k, replied, u)
    ensures replied && u == t
  {
    var lookup :| DeleteVolumeCall(t, false, lost, k, replied, u, lookup);
    assert HalfMade(t, k.vg);
    ReadsAsGone(t, k.vg, c, lookup);
    DeleteStops(t, false, k, true, replied, u);
  }

  /** The text of a listing that stopped at `c` for this reason, as the client gets it. */
  lemma QuotedBy(t: Tree, vg: string, c: string, reason: string)
    requires Incomplete(t, vg, c) && MetaText(t, vg, c, reason)
    ensures LookupText(t, vg, RPC_ERROR + LIST_ERROR + (Stop(c) + reason))
  {
    hide MetaText;
    var front, inner := RPC_ERROR + LIST_ERROR, Stop(c) + reason;
    assert (front + inner)[|front|..] == inner && inner[|Stop(c)|..] == reason;
    assert StoppedAt(t, vg, c, inner);
  }

  // ---- Exactly when, for directories without a record file ---------------------------------------

  /** What the client gets when the listing stops at a directory without a record file. */
  function MissingText(vg: string, c: string): string {
    RPC_ERROR + LIST_ERROR + (Stop(c) + ("open " + MetaFile(VolDir(vg, c)) + ": no such file or directory"))
  }

  /** The same text, by its fixed parts and the names in it. */
  lemma MissingParts(vg: string, c: string)
    ensures MissingText(vg, c)
         == RPC_ERROR + LIST_ERROR + "Parse metadata: "
            + (c + (", with error: open " + ("/opt/csi-hostpath/" + (vg + ("" + ("/" + (c + ("" + "/meta.json: no such file or directory"))))))))
  {
    FileParts("/opt/csi-hostpath/", vg, "/", c, "/meta.json", ": no such file or directory");
    TextParts(RPC_ERROR + LIST_ERROR, "Parse metadata: ", c, ", with error: ", "open ", MetaFile(VolDir(vg, c)),
              ": no such file or directory");
    assert "/meta.json" + ": no such file or directory" == "/meta.json: no such file or directory";
    assert ", with error: " + "open " == ", with error: open ";
    assert "" + "/meta.json: no such file or directory" == "/meta.json: no such file or directory";
    assert "" + ("/" + (c + "/meta.json: no such file or directory")) == "/" + (c + "/meta.json: no such file or directory");
  }

  lemma FileParts(root: string, vg: string, slash: string, c: string, meta: string, tail: string)
    ensures root + vg + slash + c + meta + tail == root + (vg + (slash + (c + (meta + tail))))
  {
    assert root + vg + slash + c + meta + tail == root + vg + slash + c + (meta + tail);
    assert root + vg + slash + c + (meta + tail) == root + vg + slash + (c + (meta + tail));
    assert root + vg + slash + (c + (meta + tail)) == root + vg + (slash + (c + (meta + tail)));
  }

  lemma TextParts(front: string, parse: string, c: string, behind: string, verb: string, file: string, tail: string)
    ensures front + ((parse + c + behind) + (verb + file + tail)) == front + parse + (c + (behind + verb + (file + tail)))
  {
    assert verb + file + tail == verb + (file + tail);
    assert parse + c + behind + (verb + (file + tail)) == parse + (c + (behind + (verb + (file + tail))));
    assert behind + (verb + (file + tail)) == behind + verb + (file + tail);
  }

  lemma FixedParts(o: string)
    requires |o| >= 2 && (o[0] == 'F' || (o[0] == 'V' && o[1] == 'o'))
    ensures NoStart(o, RPC_ERROR + LIST_ERROR + "Parse metadata: ") && NoStart(o, ", with error: open ")
    ensures NoStart(o, "/opt/csi-hostpath/") && NoStart(o, "/") && NoStart(o, "/meta.json: no such file or directory")
  {
    FixedFront(o);
    FixedEnd(o);
  }

  lemma FixedFront(o: string)
    requires |o| >= 2 && (o[0] == 'F' || (o[0] == 'V' && o[1] == 'o'))
    ensures NoStart(o, RPC_ERROR + LIST_ERROR + "Parse metadata: ")
  {
    assert NoStart(o, RPC_ERROR) && NoStart(o, LIST_ERROR) && NoStart(o, "Parse metadata: ");
    NoStartConcat(o, RPC_ERROR, LIST_ERROR);
    NoStartConcat(o, RPC_ERROR + LIST_ERROR, "Parse metadata: ");
  }

  lemma FixedEnd(o: string)
    requires |o| >= 2 && (o[0] == 'F' || (o[0] == 'V' && o[1] == 'o'))
    ensures NoStart(o, ", with error: open ") && NoStart(o, "/opt/csi-hostpath/") && NoStart(o, "/")
    ensures NoStart(o, "/meta.json: no such file or directory")
  {
    NoCapitals();
  }

  lemma NoCapitals()
    ensures forall x :: x in ", with error: open " || x in "/opt/csi-hostpath/" || x in "/meta.json: no such file or directory" ==>
      x != 'F' && x != 'V'
  {
  }

  /** A text that cannot start in the fixed parts nor run across them occurs only in the names. */
  lemma OnlyInNames(o: string, vg: string, c: string)
    requires |o| >= 2 && '/' !in o && (',' !in o || o[|o| - 1] !in ", with error: open ")
    requires o[0] == 'F' || (o[0] == 'V' && o[1] == 'o')
    ensures Occurs(o, MissingText(vg, c)) <==> Occurs(o, c) || Occurs(o, vg)
  {
    FixedParts(o);
    hide Occurs, NoStart;
    MissingParts(vg, c);
    var end := "/meta.json: no such file or directory";
    var last := c + ("" + end);
    var middle := vg + ("" + ("/" + last));
    var path := "/opt/csi-hostpath/" + middle;
    NothingIn(o, end);
    assert "" + end == end;
    OccursSplit(o, c, "", end);
    OccursSkip(o, "/", last);
    assert "" + ("/" + last) == "/" + last;
    OccursSplit(o, vg, "", "/" + last);
    OccursSkip(o, "/opt/csi-hostpath/", middle);
    OccursSkip(o, ", with error: open ", path);
    OccursSplit(o, c, ", with error: open ", path);
    OccursSkip(o, RPC_ERROR + LIST_ERROR + "Parse metadata: ", c + (", with error: open " + path));
  }

  lemma NothingIn(o: string, a: string)
    requires |o| >= 2 && NoStart(o, a)
    ensures !Occurs(o, a)
  {
    OccursSkip(o, a, "");
    assert a + "" == a;
  }

  /** The names with which a delete takes the failed listing for "the volume is gone". */
  predicate ReadsGone(vg: string, c: string) {
    || Occurs("Failed to find logical volume", c) || Occurs("Failed to find logical volume", vg)
    || Occurs("Volume group \"" + vg + "\" not found", c)
  }

  lemma SwallowedExactly(vg: string, c: string)
    requires IsComponent(vg)
    ensures Swallowed(MissingText(vg, c), vg) <==> ReadsGone(vg, c)
  {
    hide MissingText, Occurs;
    VolumeTextShape();
    OnlyInNames("Failed to find logical volume", vg, c);
    GroupTextShape(vg);
    var o := "Volume group \"" + vg + "\" not found";
    OnlyInNames(o, vg, c);
    if Occurs(o, vg) {
      OccursShorter(o, vg);
    }
  }

  lemma VolumeTextShape()
    ensures var o := "Failed to find logical volume"; |o| >= 2 && o[0] == 'F' && '/' !in o && ',' !in o
  {
  }

  lemma GroupTextShape(vg: string)
    requires IsComponent(vg)
    ensures var o := "Volume group \"" + vg + "\" not found";
      |o| > |vg| + 1 && o[0] == 'V' && o[1] == 'o' && '/' !in o && o[|o| - 1] !in ", with error: open "
  {
    var o := "Volume group \"" + vg + "\" not found";
    assert o[|o| - 1] == 'd';
    assert forall x :: x in o ==> x in "Volume group \"" || x in vg || x in "\" not found";
  }

  /** Some directory of the group has no readable record, and none that has not has a record file. */
  ghost predicate RecordsMissing(t: Tree, vg: string) {
    HalfMade(t, vg) && forall c :: Incomplete(t, vg, c) ==> MetaPath(vg, c) !in t
  }

  lemma MissingIsQuoted(t: Tree, vg: string, c: string)
    requires WellFormed(t) && Incomplete(t, vg, c) && MetaPath(vg, c) !in t
    ensures MetaText(t, vg, c, "open " + MetaFile(VolDir(vg, c)) + ": no such file or directory")
    ensures IsComponent(c)
  {
    ChildComponent(t, GroupPath(vg), c);
    assert VolPath(vg, c) == GroupPath(vg) + [c];
    forall q | q <= MetaPath(vg, c) && q in t
      ensures t[q].Dir?
    {
      PrefixCases(q, VolPath(vg, c), MetaName());
      AncestorsAreDirs(t, VolPath(vg, c), q);
    }
  }

  /** Where the records are missing, a failed listing says exactly one of these texts. */
  lemma MissingTexts(t: Tree, vg: string, text: string) returns (c: string)
    requires WellFormed(t) && RecordsMissing(t, vg) && LookupText(t, vg, text)
    ensures Incomplete(t, vg, c) && text == MissingText(vg, c)
  {
    var front, inner := RPC_ERROR + LIST_ERROR, text[|RPC_ERROR + LIST_ERROR|..];
    var d :| IsDir(t, GroupPath(vg) + [d]) && LoadMeta(t, vg, d).None?;
    assert Parent(GroupPath(vg) + [d]) == GroupPath(vg);
    c :| StoppedAt(t, vg, c, inner);
    assert Incomplete(t, vg, c);
    MissingIsQuoted(t, vg, c);
    assert inner == Stop(c) + inner[|Stop(c)|..];
    assert text == front + inner;
  }

  /**
   * On a group whose incomplete directories have no record file, and without any loss of messages: no
   * delete removes anything, and one may be answered with success if and only if the group's name or that
   * of an incomplete directory reads as a swallowed error; it may fail if and only if some does not.
   */
  lemma DeletesMistakenExactly(t: Tree, lost: string, k: Key)
    requires WellFormed(t) && ValidKey(k) && RecordsMissing(t, k.vg)
    ensures forall replied, u :: DeleteVolumeOutcome(t, false, lost, k, replied, u) ==> u == t
    ensures DeleteVolumeOutcome(t, false, lost, k, true, t) <==> exists c :: Incomplete(t, k.vg, c) && ReadsGone(k.vg, c)
    ensures DeleteVolumeOutcome(t, false, lost, k, false, t) <==> exists c :: Incomplete(t, k.vg, c) && !ReadsGone(k.vg, c)
  {
    forall replied, u | DeleteVolumeOutcome(t, false, lost, k, replied, u)
      ensures u == t && exists c :: Incomplete(t, k.vg, c) && (replied <==> ReadsGone(k.vg, c))
    {
      var c := HeardOf(t, lost, k, replied, u);
    }
    forall c | Incomplete(t, k.vg, c)
      ensures DeleteVolumeOutcome(t, false, lost, k, ReadsGone(k.vg, c), t)
    {
      MayBeHeard(t, lost, k, c);
    }
  }

  lemma HeardOf(t: Tree, lost: string, k: Key, replied: bool, u: Tree) returns (c: string)
    requires WellFormed(t) && ValidKey(k) && RecordsMissing(t, k.vg)
    requires DeleteVolumeOutcome(t, false, lost, k, replied, u)
    ensures u == t && Incomplete(t, k.vg, c) && (replied <==> ReadsGone(k.vg, c))
  {
    hide Swallowed, ReadsGone, Incomplete;
    var lookup :| DeleteVolumeCall(t, false, lost, k, replied, u, lookup);
    DeleteStops(t, false, k, Swallowed(lookup, k.vg), replied, u);
    c := MissingTexts(t, k.vg, lookup);
    SwallowedExactly(k.vg, c);
  }

  lemma MayBeHeard(t: Tree, lost: string, k: Key, c: string)
    requires WellFormed(t) && ValidKey(k) && Incomplete(t, k.vg, c) && MetaPath(k.vg, c) !in t
    ensures DeleteVolumeOutcome(t, false, lost, k, ReadsGone(k.vg, c), t)
  {
    MissingIsQuoted(t, k.vg, c);
    QuotedBy(t, k.vg, c, "open " + MetaFile(VolDir(k.vg, c)) + ": no such file or directory");
    SwallowedExactly(k.vg, c);
    hide Swallowed, ReadsGone, LookupText;
    assert DeleteVolumeCall(t, false, lost, k, ReadsGone(k.vg, c), t, MissingText(k.vg, c));
  }

  /** A complete volume beside a directory without a record. */
  function BesideIncomplete(k: Key, size: UInt64, c: string): Tree {
    Made(Made(map[[] := Dir], MountOf(k)), GroupPath(k.vg) + [c])[MetaOf(k) := File(Encode(Record(k.vg, k.name, size)))]
  }

  lemma BesideIsProper(k: Key, size: UInt64, c: string)
    requires ValidKey(k) && IsComponent(c) && c != k.name
    ensures var t := BesideIncomplete(k, size, c);
      WellFormed(t) && OnlyIncomplete(t, k.vg, c) && LoadMeta(t, k.vg, k.name) == Some(Record(k.vg, k.name, size))
  {
    LayoutStrings(k.vg, k.name);
    LayoutStrings(k.vg, c);
    KeyPaths(k);
    DecodeEncode(Record(k.vg, k.name, size), "");
    assert VolPath(k.vg, c) == GroupPath(k.vg) + [c];
    BesideShape(Home(k), MountOf(k), MetaOf(k), VolPath(k.vg, c), Encode(Record(k.vg, k.name, size)));
    BesideNames(k, size, c);
  }

  lemma BesideShape(home: Path, mount: Path, meta: Path, other: Path, text: string)
    requires IsPath(mount) && IsPath(meta) && IsPath(other)
    requires meta != [] && Parent(meta) == home && home <= mount && Apart(meta, mount) && !(meta <= other)
    ensures WellFormed(Made(Made(map[[] := Dir], mount), other)[meta := File(text)])
  {
    MadeWellFormed(map[[] := Dir], mount);
    MadeWellFormed(Made(map[[] := Dir], mount), other);
    OpenedWellFormed(Made(Made(map[[] := Dir], mount), other), meta, text);
  }

  lemma BesideEntries(k: Key, size: UInt64, c: string, q: Path)
    ensures q in BesideIncomplete(k, size, c) <==> q <= MountOf(k) || q <= VolPath(k.vg, c) || q == MetaOf(k)
  {
    hide Encode, MountOf, MetaOf;
    assert VolPath(k.vg, c) == GroupPath(k.vg) + [c];
  }

  /** The new directory has no record, and is the only other one in the group. */
  lemma BesideDirectories(k: Key, c: string, d: string)
    requires c != k.name
    ensures !(MetaPath(k.vg, c) <= MountOf(k)) && !(MetaPath(k.vg, c) <= VolPath(k.vg, c)) && MetaPath(k.vg, c) != MetaOf(k)
    ensures var q := GroupPath(k.vg) + [d];
      q <= MountOf(k) || q <= VolPath(k.vg, c) || q == MetaOf(k) ==> d == c || d == k.name
  {
    var q := GroupPath(k.vg) + [d];
    assert MetaPath(k.vg, c)[3] == c && MetaOf(k)[3] == k.name && MountOf(k)[3] == k.name && VolPath(k.vg, c)[3] == c;
    assert |MetaPath(k.vg, c)| == 5 && |VolPath(k.vg, c)| == 4 && |q| == 4 && q[3] == d && |MetaOf(k)| == 5;
  }

  lemma BesideNames(k: Key, size: UInt64, c: string)
    requires c != k.name
    ensures LoadMeta(BesideIncomplete(k, size, c), k.vg, k.name).Some? ==> OnlyIncomplete(BesideIncomplete(k, size, c), k.vg, c)
  {
    var t := BesideIncomplete(k, size, c);
    forall d
      ensures IsDir(t, GroupPath(k.vg) + [d]) ==> d == c || d == k.name
    {
      BesideEntries(k, size, c, GroupPath(k.vg) + [d]);
      BesideDirectories(k, c, d);
    }
    BesideEntries(k, size, c, MetaPath(k.vg, c));
    BesideEntries(k, size, c, VolPath(k.vg, c));
    BesideDirectories(k, c, c);
    BesideIsDir(k, size, c);
    hide Decode, Encode, BesideIncomplete, MountOf, MetaOf, MetaPath;
    assert LoadMeta(t, k.vg, c).None?;
  }

  lemma BesideIsDir(k: Key, size: UInt64, c: string)
    ensures IsDir(BesideIncomplete(k, size, c), GroupPath(k.vg) + [c])
  {
    hide Encode;
    assert |MetaOf(k)| == 5 && |GroupPath(k.vg) + [c]| == 4 && |MountOf(k)| == 5;
  }

  /** For every volume there is a tree on which it is complete, and every delete of it succeeds without effect. */
  lemma DeletedButThere(k: Key, size: UInt64, lost: string) returns (t: Tree)
    requires ValidKey(k)
    ensures WellFormed(t) && LoadMeta(t, k.vg, k.name) == Some(Record(k.vg, k.name, size))
    ensures DeleteVolumeOutcome(t, false, lost, k, true, t)
    ensures forall replied, u :: DeleteVolumeOutcome(t, false, lost, k, replied, u) ==> replied && u == t
  {
    var c := "Failed to find logical volume" + k.name;
    t := BesideIncomplete(k, size, c);
    BesideIsProper(k, size, c);
    assert "Failed to find logical volume" <= c;
    var lookup := ListingErrorAt(t, k.vg, c);
    ReadsAsGone(t, k.vg, c, lookup);
    assert HalfMade(t, k.vg);
    assert DeleteVolumeCall(t, false, lost, k, true, t, lookup);
    forall replied, u | DeleteVolumeOutcome(t, false, lost, k, replied, u)
      ensures replied && u == t
    {
      DeletesMistaken(t, lost, k, c, replied, u);
    }
  }

  lemma ListingErrorAt(t: Tree, vg: string, c: string) returns (text: string)
    requires Incomplete(t, vg, c)
    ensures LookupText(t, vg, text)
  {
    var file := MetaFile(VolDir(vg, c));
    var reason :=
      if IsFile(t, MetaPath(vg, c)) then "failed to unmarshal out:" + t[MetaPath(vg, c)].data
      else if IsDir(t, MetaPath(vg, c)) then "read " + file + ": is a directory"
      else if NotExist(t, MetaPath(vg, c)) then "open " + file + ": no such file or directory"
      else "open " + file + ": not a directory";
    text := RPC_ERROR + LIST_ERROR + (Stop(c) + reason);
    QuotedBy(t, vg, c, reason);
  }
}
