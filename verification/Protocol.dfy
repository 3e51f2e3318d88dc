/**
 * The check-then-act protocol of the controller: look the name up in the node's listing, and change
 * the store only on the answer. An outcome relates a node's tree before and after one request and says
 * whether the request was answered with success; an attempt is the same on the abstract store.
 */
module Protocol {
  import opened Wrappers
  import opened Strings
  import opened Paths
  import opened Metadata
  import opened Integers
  import opened FileSystem
  import opened StoreEffects
  import opened Volumes
  import opened Remote

  // ---------------------------------------------------------------------------------------------
  // Outcomes on a node's tree
  // ---------------------------------------------------------------------------------------------

  ghost predicate PlaceCall(t: Tree, lossy: bool, k: Key, size: UInt64, source: Option<string>, replied: bool, u: Tree, call: Call) {
    && Honest(lossy, call, replied)
    && (if call.done then PlaceEffect(t, k, size, source, call.ok, u) else u == t)
  }

  ghost predicate CreateOutcome(t: Tree, lossy: bool, k: Key, size: UInt64, source: Option<string>, replied: bool, u: Tree) {
    || (u == t && !replied && (lossy || ListingFails(t, k.vg)))
    || (u == t && replied && !ListingFails(t, k.vg) && Listed(t, k))
    || (!ListingFails(t, k.vg) && !Listed(t, k) && exists call :: PlaceCall(t, lossy, k, size, source, replied, u, call))
  }

  ghost predicate RemoveCall(t: Tree, lossy: bool, k: Key, replied: bool, u: Tree, call: Call) {
    && Honest(lossy, call, replied) && (call.done ==> call.ok)
    && (if call.done then RemoveEffect(t, k.vg, k.name, u) else u == t)
  }

  /** `swallowed`: the lookup's error text reads as if the volume were gone, and the caller takes it so. */
  ghost predicate DeleteOutcome(t: Tree, lossy: bool, k: Key, swallowed: bool, replied: bool, u: Tree) {
    || (u == t && (replied <==> swallowed) && (lossy || ListingFails(t, k.vg)))
    || (u == t && replied && !ListingFails(t, k.vg) && !Listed(t, k))
    || (!ListingFails(t, k.vg) && Listed(t, k) && exists call :: RemoveCall(t, lossy, k, replied, u, call))
  }

  ghost predicate ExpandCall(t: Tree, lossy: bool, k: Key, size: UInt64, replied: bool, u: Tree, call: Call) {
    && Honest(lossy, call, replied)
    && (if call.done then ExpandEffect(t, k.vg, k.name, size, call.ok, u) else u == t)
  }

  /** Expanding does not look at the listing. */
  ghost predicate ExpandOutcome(t: Tree, lossy: bool, k: Key, size: UInt64, replied: bool, u: Tree) {
    exists call :: ExpandCall(t, lossy, k, size, replied, u, call)
  }

  /** The size a snapshot request reports: the source's when it made the snapshot, 0 when it found one. */
  ghost predicate ReportedSize(t: Tree, k: Key, src: string, size: Int64) {
    if Listed(t, k) then size == 0
    else LoadMeta(t, k.vg, src).Some? && size == ToInt64(LoadMeta(t, k.vg, src).value.size)
  }

  /** The texts DeleteVolume takes for "the volume is gone". */
  predicate Swallowed(text: string, vg: string) {
    Occurs("Failed to find logical volume", text) || Occurs("Volume group \"" + vg + "\" not found", text)
  }

  /** The error a lookup may have got: the node's listing failed with this text, or a message was lost. */
  ghost predicate Heard(t: Tree, lossy: bool, lost: string, vg: string, lookup: string) {
    && (lookup == lost || LookupText(t, vg, lookup))
    && (!lossy && ListingFails(t, vg) ==> LookupText(t, vg, lookup))
  }

  ghost predicate DeleteVolumeCall(t: Tree, lossy: bool, lost: string, k: Key, replied: bool, u: Tree, lookup: string) {
    DeleteOutcome(t, lossy, k, Swallowed(lookup, k.vg), replied, u) && Heard(t, lossy, lost, k.vg, lookup)
  }

  /** A delete of a volume, whose lookup error may be mistaken for "gone". */
  ghost predicate DeleteVolumeOutcome(t: Tree, lossy: bool, lost: string, k: Key, replied: bool, u: Tree) {
    exists lookup :: DeleteVolumeCall(t, lossy, lost, k, replied, u, lookup)
  }

  // ---------------------------------------------------------------------------------------------
  // Steps and attempts on the abstract store
  // ---------------------------------------------------------------------------------------------

  /** The store after a copy of `src` was placed under the new name `k`. */
  ghost predicate Copied(s: Store, src: Key, k: Key, s': Store)
    requires src in s
  {
    && k in s'
    && s' == s[k := Volume(s[src].size, s'[k].files)]
    && (s'[k].files == s[src].files <==> CopyableFiles(src, s[src].files))
  }

  /** One completed create: nothing if the name is taken or the source is missing. */
  ghost predicate CreateStep(s: Store, k: Key, size: UInt64, source: Option<string>, s': Store) {
    if k in s then s' == s
    else if source.None? then s' == s[k := Volume(size, NO_FILES)]
    else if Key(k.vg, source.value) !in s then s' == s
    else Copied(s, Key(k.vg, source.value), k, s')
  }

  predicate CanCreate(s: Store, k: Key, source: Option<string>) {
    k in s || source.None? || Key(k.vg, source.value) in s
  }

  ghost predicate CreateAttempt(s: Store, lossy: bool, k: Key, size: UInt64, source: Option<string>, replied: bool, s': Store) {
    && (s' == s || CreateStep(s, k, size, source, s'))
    && (replied ==> CreateStep(s, k, size, source, s') && k in s')
    && (!lossy ==> CreateStep(s, k, size, source, s') && (replied <==> CanCreate(s, k, source)))
  }

  ghost predicate DeleteAttempt(s: Store, lossy: bool, k: Key, swallowed: bool, replied: bool, s': Store) {
    && (s' == s || s' == s - {k})
    && (replied && !swallowed ==> s' == s - {k})
    && (!lossy ==> s' == s - {k} && replied)
  }

  function ExpandStep(s: Store, k: Key, size: UInt64): Store {
    if k in s then s[k := s[k].(size := size)] else s
  }

  ghost predicate ExpandAttempt(s: Store, lossy: bool, k: Key, size: UInt64, replied: bool, s': Store) {
    && (s' == s || s' == ExpandStep(s, k, size))
    && (replied ==> k in s && s' == ExpandStep(s, k, size))
    && (!lossy ==> s' == ExpandStep(s, k, size) && (replied <==> k in s))
  }

  // ---------------------------------------------------------------------------------------------
  // Outcomes implement attempts
  // ---------------------------------------------------------------------------------------------

  lemma PlaceRefines(t: Tree, s: Store, k: Key, size: UInt64, source: Option<string>, ok: bool, u: Tree) returns (s': Store)
    requires Represents(t, s) && ValidKey(k) && k !in s && (source.Some? ==> ValidName(source.value)) && WellFormed(u)
    requires PlaceEffect(t, k, size, source, ok, u)
    ensures Represents(u, s') && CreateStep(s, k, size, source, s')
    ensures ok <==> CanCreate(s, k, source)
    ensures ok ==> k in s'
  {
    match source
    case None =>
      CreateRefines(t, s, k, size, ok, u);
      s' := s[k := Volume(size, NO_FILES)];
    case Some(src) =>
      if Key(k.vg, src) in s {
        var files := CopyRefines(t, s, Key(k.vg, src), k, ok, u);
        s' := s[k := Volume(s[Key(k.vg, src)].size, files)];
      } else {
        CopyOfMissing(t, s, Key(k.vg, src), k, ok, u);
        s' := s;
      }
  }

  /** A create request, retried or not, with or without losses, is an attempt at the abstract create. */
  lemma CreateRefinesAttempt(t: Tree, s: Store, lossy: bool, k: Key, size: UInt64, source: Option<string>, replied: bool, u: Tree)
    returns (s': Store)
    requires Represents(t, s) && ValidKey(k) && (source.Some? ==> ValidName(source.value)) && WellFormed(u)
    requires CreateOutcome(t, lossy, k, size, source, replied, u)
    ensures Represents(u, s') && CreateAttempt(s, lossy, k, size, source, replied, s')
  {
    ListingUnder(t, s, k);
    s' := s;
    if k !in s {
      if u == t && !replied && lossy {
      } else {
        var call :| PlaceCall(t, lossy, k, size, source, replied, u, call);
        if call.done {
          s' := PlaceRefines(t, s, k, size, source, call.ok, u);
        }
      }
    }
  }

  lemma DeleteRefinesAttempt(t: Tree, s: Store, lossy: bool, k: Key, swallowed: bool, replied: bool, u: Tree)
    returns (s': Store)
    requires Represents(t, s) && ValidKey(k)
    requires DeleteOutcome(t, lossy, k, swallowed, replied, u)
    ensures Represents(u, s') && DeleteAttempt(s, lossy, k, swallowed, replied, s')
  {
    ListingUnder(t, s, k);
    s' := s;
    if k !in s {
      assert s - {k} == s;
    } else if u == t && lossy && (replied <==> swallowed) {
    } else {
      var call :| RemoveCall(t, lossy, k, replied, u, call);
      if call.done {
        RemoveRefines(t, s, k, u);
        s' := s - {k};
      }
    }
  }

  /** On a complete store only the text of a lost message can be mistaken. */
  lemma DeleteVolumeRefines(t: Tree, s: Store, lossy: bool, lost: string, k: Key, replied: bool, u: Tree) returns (s': Store)
    requires Represents(t, s) && ValidKey(k)
    requires DeleteVolumeOutcome(t, lossy, lost, k, replied, u)
    ensures Represents(u, s') && DeleteAttempt(s, lossy, k, Swallowed(lost, k.vg), replied, s')
  {
    var lookup :| DeleteVolumeCall(t, lossy, lost, k, replied, u, lookup);
    ListingUnder(t, s, k);
    if LookupText(t, k.vg, lookup) {
      LookupTextFails(t, k.vg, lookup);
    }
    s' := DeleteRefinesAttempt(t, s, lossy, k, Swallowed(lost, k.vg), replied, u);
  }

  lemma ExpandRefinesAttempt(t: Tree, s: Store, lossy: bool, k: Key, size: UInt64, replied: bool, u: Tree)
    returns (s': Store)
    requires Represents(t, s) && ValidKey(k) && WellFormed(u)
    requires ExpandOutcome(t, lossy, k, size, replied, u)
    ensures Represents(u, s') && ExpandAttempt(s, lossy, k, size, replied, s')
  {
    var call :| ExpandCall(t, lossy, k, size, replied, u, call);
    s' := s;
    if call.done {
      ExpandRefines(t, s, k, size, call.ok, u);
      s' := ExpandStep(s, k, size);
    }
  }

  /** A snapshot request reports the source's size when it makes the snapshot and 0 when it is a retry. */
  lemma ReportedSizeUnder(t: Tree, s: Store, k: Key, src: string, size: Int64)
    requires Represents(t, s) && ValidKey(k) && ValidName(src)
    requires ReportedSize(t, k, src, size)
    ensures k in s ==> size == 0
    ensures k !in s ==> Key(k.vg, src) in s && size == ToInt64(s[Key(k.vg, src)].size)
  {
    ListingUnder(t, s, k);
    if k !in s {
      if Key(k.vg, src) in s {
        PresentVolume(t, s, Key(k.vg, src));
      } else {
        AbsentVolume(t, s, Key(k.vg, src));
      }
    }
  }
}
