/**
 * Copying a mount point's tree with `filepath.Walk` and a callback that re-bases each path with
 * `strings.Replace` (pkg/server/hostpath_commands.go, CloneVol and CreateSnapshot step 2).
 */
module TreeCopy {
  import opened Strings
  import opened Paths
  import opened FileSystem

  // ---------------------------------------------------------------------------------------------
  // One callback
  // ---------------------------------------------------------------------------------------------

  /** The tree after the callback handled entry `p` with re-based path `target`. */
  function EntryCopied(t: Tree, p: Path, target: Path, missing: bool): Tree
    requires p in t
  {
    if t[p].Dir? then
      if missing then Made(t, target) else t
    else if CanOpen(t, target) then
      var u := Opened(t, target, true);
      u[target := File(if u[p].File? then u[p].data else "")]
    else t
  }

  /** The callback changes nothing outside the destination, and adds only the target and what leads to it. */
  lemma EntryCopiedFrame(t: Tree, p: Path, target: Path, to: Path)
    requires WellFormed(t) && p in t && IsPath(target)
    requires IsDir(t, to) && to <= target
    ensures WellFormed(EntryCopied(t, p, target, NotExist(t, target)))
    ensures SameOutside(t, EntryCopied(t, p, target, NotExist(t, target)), to)
    ensures IsDir(EntryCopied(t, p, target, NotExist(t, target)), to)
    ensures forall q :: q in EntryCopied(t, p, target, NotExist(t, target)) && q !in t ==> q <= target
  {
    var u := EntryCopied(t, p, target, NotExist(t, target));
    if t[p].Dir? && NotExist(t, target) {
      MadeWellFormed(t, target);
      forall q | q in u && q !in t
        ensures to <= q
      {
        BothPrefixes(q, to, target);
        if q <= to {
          AncestorsAreDirs(t, to, q);
        }
      }
    } else if t[p].File? && CanOpen(t, target) {
      OpenedWellFormed(t, target, u[target].data);
    }
  }

  lemma BothPrefixes(p: Path, q: Path, whole: Path)
    requires p <= whole && q <= whole
    ensures p <= q || q <= p
  {
    assert p == whole[..|p|] && q == whole[..|q|];
  }

  /** Below an existing directory, where nothing is yet, the callback makes an exact copy of the entry. */
  lemma EntryCopiedExactly(t: Tree, p: Path, target: Path)
    requires WellFormed(t) && p in t && p != target
    requires target != [] && target !in t && IsDir(t, Parent(target))
    ensures EntryCopied(t, p, target, NotExist(t, target)) == t[target := t[p]]
  {
    MadeOne(t, target);
  }

  // ---------------------------------------------------------------------------------------------
  // The walk's bookkeeping: what has been visited and what is still to come
  // ---------------------------------------------------------------------------------------------

  /** `pending` is the edge of the visited part of the tree below `from`; parents come before children. */
  ghost predicate Frontier(t: Tree, from: Path, pending: seq<Path>, done: set<Path>) {
    && NoDup(pending)
    && (forall q :: q in done ==> q in t && from <= q && (q == from || Parent(q) in done))
    && (forall q :: q in pending ==> q in t && from <= q && q !in done && (q == from || Parent(q) in done))
    && (forall q :: q in t && from <= q && (q == from || Parent(q) in done) ==> q in done || q in pending)
  }

  lemma FrontierStep(t: Tree, from: Path, pending: seq<Path>, done: set<Path>, kids: seq<Path>)
    requires WellFormed(t) && from != []
    requires Frontier(t, from, pending, done) && pending != []
    requires NoDup(kids) && (forall q :: q in kids <==> q in t && q != [] && Parent(q) == pending[0])
    ensures Frontier(t, from, kids + pending[1..], done + {pending[0]})
  {
    var p, rest := pending[0], pending[1..];
    assert pending == [p] + rest;
    assert p !in rest && NoDup(rest);
    KidsAreNew(t, from, pending, done, kids);
    NoDupConcat(kids, rest);
    assert forall q :: q in kids + rest <==> q in kids || q in rest;
    assert forall q :: q in pending <==> q == p || q in rest;
  }

  lemma KidsAreNew(t: Tree, from: Path, pending: seq<Path>, done: set<Path>, kids: seq<Path>)
    requires WellFormed(t) && from != []
    requires Frontier(t, from, pending, done) && pending != []
    requires forall q :: q in kids <==> q in t && q != [] && Parent(q) == pending[0]
    ensures forall q :: q in kids ==> from <= q && q != from && q !in done && q !in pending
  {
    forall q | q in kids
      ensures from <= q && q != from && q !in done && q !in pending
    {
      assert pending[0] in pending;
      assert from <= Parent(q) && Parent(q) <= q && |q| == |Parent(q)| + 1;
    }
  }

  lemma NoDupConcat(a: seq<Path>, b: seq<Path>)
    requires NoDup(a) && NoDup(b) && forall q :: q in a ==> q !in b
    ensures NoDup(a + b)
  {
    forall i, j | 0 <= i < j < |a + b|
      ensures (a + b)[i] != (a + b)[j]
    {
      if i < |a| <= j {
        assert (a + b)[i] in a && (a + b)[j] == b[j - |a|] && b[j - |a|] in b;
      }
    }
  }

  lemma {:induction false} FrontierEnd(t: Tree, from: Path, done: set<Path>, q: Path)
    requires WellFormed(t) && from != [] && Frontier(t, from, [], done) && q in t && from <= q
    ensures q in done
    decreases |q|
  {
    if q != from {
      ProperPrefix(from, q);
      FrontierEnd(t, from, done, Parent(q));
    }
  }

  function Below(t: Tree, p: Path): set<Path> {
    set q | q in t && p <= q
  }

  // ---------------------------------------------------------------------------------------------
  // What the walk has built
  // ---------------------------------------------------------------------------------------------

  /** Nothing lies below `to` yet. */
  ghost predicate Fresh(t: Tree, to: Path) {
    IsDir(t, to) && forall q :: q in t && to <= q ==> q == to
  }

  /** No entry below `from` repeats the path of `from` inside its own. */
  ghost predicate Copyable(t: Tree, from: Path) {
    forall rel: Path :: from + rel in t ==> !Repeats(from, rel)
  }

  /** `x`, below `to`, is the image of the source entry `q` or one of the directories above it. */
  ghost predicate LeadsTo(t0: Tree, from: Path, to: Path, x: Path, q: Path)
    requires from != [] && to <= x
  {
    q in t0 && from <= q && x[|to|..] <= Image(from, to, q[|from|..])
  }

  /** Every entry strictly below `to` is an image of a source entry, or leads to one. */
  ghost predicate OnlyImages(t0: Tree, from: Path, t: Tree, to: Path)
    requires from != []
  {
    forall x :: x in t && to <= x && x != to ==> exists q :: LeadsTo(t0, from, to, x, q)
  }

  /** The entries copied so far are exact copies, and there is nothing else below `to`. */
  ghost predicate CopiedSoFar(t0: Tree, from: Path, t: Tree, to: Path, done: set<Path>) {
    forall rel: Path ::
      && (to + rel in t <==> rel == [] || from + rel in done)
      && (rel != [] && from + rel in done && from + rel in t0 ==> to + rel in t && t[to + rel] == t0[from + rel])
  }

  /** Copying a tree onto itself: every file handled so far is empty. */
  function Emptied(t: Tree, from: Path, done: set<Path>): Tree {
    map q | q in t :: if q in done && q != from && t[q].File? then File("") else t[q]
  }

  lemma ImagesGrow(t0: Tree, from: Path, t: Tree, u: Tree, to: Path, rel: Path)
    requires from != [] && to != [] && from + rel in t0
    requires OnlyImages(t0, from, t, to)
    requires forall q :: q in u && q !in t ==> q <= to + Image(from, to, rel)
    ensures OnlyImages(t0, from, u, to)
  {
    var target := to + Image(from, to, rel);
    assert (from + rel)[|from|..] == rel && target[|to|..] == Image(from, to, rel);
    forall x | x in u && to <= x && x != to
      ensures exists q :: LeadsTo(t0, from, to, x, q)
    {
      if x !in t {
        assert x == target[..|x|] && x[|to|..] == target[|to|..][..|x| - |to|];
        assert LeadsTo(t0, from, to, x, from + rel);
      } else {
        var q :| LeadsTo(t0, from, to, x, q);
      }
    }
  }

  lemma CopyGrows(t0: Tree, from: Path, t: Tree, to: Path, done: set<Path>, rel: Path)
    requires from != [] && to != [] && rel != [] && from + rel in t0
    requires CopiedSoFar(t0, from, t, to, done)
    ensures CopiedSoFar(t0, from, t[to + rel := t0[from + rel]], to, done + {from + rel})
  {
    var u := t[to + rel := t0[from + rel]];
    forall x: Path
      ensures to + x in u <==> x == [] || from + x in done + {from + rel}
      ensures x != [] && from + x in done + {from + rel} && from + x in t0
          ==> to + x in u && u[to + x] == t0[from + x]
    {
      assert (to + x)[|to|..] == x && (to + rel)[|to|..] == rel;
      assert (from + x)[|from|..] == x && (from + rel)[|from|..] == rel;
    }
  }

  /** A finished exact copy has the source's tree. */
  lemma CopyFinished(t0: Tree, from: Path, t: Tree, to: Path, done: set<Path>)
    requires IsDir(t0, from) && IsDir(t, to)
    requires CopiedSoFar(t0, from, t, to, done) && done == Below(t0, from)
    ensures SameBelow(t0, from, t, to)
  {
    forall rel: Path
      ensures from + rel in t0 <==> to + rel in t
      ensures from + rel in t0 ==> t0[from + rel] == t[to + rel]
    {
      assert from <= from + rel;
      if rel == [] {
        assert from + rel == from && to + rel == to;
      }
    }
  }

  /** Before the walk there is nothing but the destination directory itself. */
  lemma StartCopy(t0: Tree, from: Path, to: Path)
    requires from != [] && Fresh(t0, to)
    ensures OnlyImages(t0, from, t0, to)
    ensures CopiedSoFar(t0, from, t0, to, {})
  {
    forall rel: Path
      ensures to + rel in t0 <==> rel == []
    {
      assert to <= to + rel && (to + rel == to <==> rel == []);
    }
  }

  /** The source's entries stay where they are while the walk runs. */
  lemma SourceKept(t0: Tree, from: Path, t: Tree, to: Path, done: set<Path>, p: Path)
    requires p in t0 && from <= p && p !in done
    requires Apart(from, to) || from == to
    requires SameOutside(t0, t, to)
    requires from == to ==> t == Emptied(t0, from, done)
    ensures p in t && t[p] == t0[p]
  {
    if from != to && to <= p {
      BothPrefixes(from, to, p);
    }
  }

  lemma KidsKept(t0: Tree, from: Path, t: Tree, to: Path, done: set<Path>, p: Path, c: string)
    requires from <= p
    requires Apart(from, to) || from == to
    requires SameOutside(t0, t, to)
    requires from == to ==> t == Emptied(t0, from, done)
    ensures p + [c] in t <==> p + [c] in t0
  {
    if from != to {
      assert from <= p + [c];
      if to <= p + [c] {
        BothPrefixes(from, to, p + [c]);
      }
    }
  }

  /** The tree after the entry `from + rel` was visited. */
  ghost function Visited(t: Tree, from: Path, to: Path, rel: Path): Tree
    requires from != [] && from + rel in t
  {
    if rel == [] then t
    else EntryCopied(t, from + rel, to + Image(from, to, rel), NotExist(t, to + Image(from, to, rel)))
  }

  lemma VisitedFrame(t0: Tree, from: Path, t: Tree, to: Path, rel: Path)
    requires from != [] && IsPath(to) && from + rel in t
    requires WellFormed(t) && IsDir(t, to) && SameOutside(t0, t, to)
    ensures WellFormed(Visited(t, from, to, rel)) && IsDir(Visited(t, from, to, rel), to)
    ensures SameOutside(t0, Visited(t, from, to, rel), to)
    ensures forall q :: q in Visited(t, from, to, rel) && q !in t ==> q <= to + Image(from, to, rel)
  {
    if rel != [] {
      ResolveIsPath(ReplaceAll(Render(rel), Render(from), Render(to)));
      EntryCopiedFrame(t, from + rel, to + Image(from, to, rel), to);
    }
  }

  lemma VisitedSelf(t0: Tree, from: Path, t: Tree, done: set<Path>, rel: Path)
    requires from != [] && IsPath(from) && IsPath(rel) && from + rel in t
    requires t == Emptied(t0, from, done)
    ensures Visited(t, from, from, rel) == Emptied(t0, from, done + {from + rel})
  {
    var u := Visited(t, from, from, rel);
    RebaseExact(from, from, rel);
    assert from + rel == from <==> rel == [];
    assert u == Emptied(t0, from, done + {from + rel});
  }

  lemma VisitedExact(t0: Tree, from: Path, t: Tree, to: Path, done: set<Path>, rel: Path)
    requires from != [] && to != [] && IsPath(from) && IsPath(to) && IsPath(rel)
    requires Apart(from, to) && WellFormed(t0) && WellFormed(t) && IsDir(t, to)
    requires from + rel in t && from + rel in t0 && t[from + rel] == t0[from + rel]
    requires from + rel !in done && (rel == [] || Parent(from + rel) in done)
    requires !Repeats(from, rel) && CopiedSoFar(t0, from, t, to, done)
    ensures CopiedSoFar(t0, from, Visited(t, from, to, rel), to, done + {from + rel})
  {
    if rel == [] {
      RootCopied(t0, from, t, to, done);
    } else {
      RebaseExact(from, to, rel);
      ParentCopied(t0, from, t, to, done, rel);
      EntryCopiedExactly(t, from + rel, to + rel);
      CopyGrows(t0, from, t, to, done, rel);
    }
  }

  lemma RootCopied(t0: Tree, from: Path, t: Tree, to: Path, done: set<Path>)
    requires CopiedSoFar(t0, from, t, to, done)
    ensures CopiedSoFar(t0, from, t, to, done + {from + []})
  {
    forall rel: Path
      ensures to + rel in t <==> rel == [] || from + rel in done + {from + []}
      ensures rel != [] && from + rel in done + {from + []} && from + rel in t0 ==> to + rel in t && t[to + rel] == t0[from + rel]
    {
      assert (from + rel)[|from|..] == rel && (from + [])[|from|..] == [];
    }
  }

  /** Everything the walk keeps from one entry to the next. */
  ghost predicate WalkState(t0: Tree, from: Path, t: Tree, to: Path, pending: seq<Path>, done: set<Path>)
    requires from != []
  {
    && WellFormed(t) && IsDir(t, to)
    && SameOutside(t0, t, to)
    && Frontier(t0, from, pending, done)
    && (from == to ==> t == Emptied(t0, from, done))
    && (from != to && Fresh(t0, to) ==> OnlyImages(t0, from, t, to))
    && (from != to && Fresh(t0, to) && Copyable(t0, from) ==> CopiedSoFar(t0, from, t, to, done))
  }

  /** Visiting the first pending entry and queueing its children keeps the walk's state. */
  lemma WalkStep(t0: Tree, from: Path, t: Tree, to: Path, pending: seq<Path>, done: set<Path>, rel: Path, kids: seq<Path>)
    requires from != [] && to != [] && IsPath(from) && IsPath(to) && IsPath(rel)
    requires Apart(from, to) || from == to
    requires WellFormed(t0) && WalkState(t0, from, t, to, pending, done)
    requires pending != [] && pending[0] == from + rel && from + rel in t
    requires NoDup(kids)
    requires forall q :: q in kids <==> q in Visited(t, from, to, rel) && q != [] && Parent(q) == from + rel
    ensures WalkState(t0, from, Visited(t, from, to, rel), to, kids + pending[1..], done + {from + rel})
  {
    var p, u := from + rel, Visited(t, from, to, rel);
    assert p in pending;
    SourceKept(t0, from, t, to, done, p);
    VisitedFrame(t0, from, t, to, rel);
    if from == to {
      VisitedSelf(t0, from, t, done, rel);
    } else if Fresh(t0, to) {
      ImagesGrow(t0, from, t, u, to, rel);
      if Copyable(t0, from) {
        VisitedExact(t0, from, t, to, done, rel);
      }
    }
    forall q | q != [] && Parent(q) == p
      ensures q in u <==> q in t0
    {
      LastComponent(q);
      KidsKept(t0, from, u, to, done + {p}, p, q[|q| - 1]);
    }
    FrontierStep(t0, from, pending, done, kids);
  }

  lemma WalkStart(t0: Tree, from: Path, to: Path)
    requires from != [] && to != [] && WellFormed(t0) && IsDir(t0, to)
    ensures WalkState(t0, from, t0, to, if from in t0 then [from] else [], {})
  {
    if Fresh(t0, to) {
      StartCopy(t0, from, to);
    }
    forall q | q in t0 && from <= q
      ensures from in t0
    {
      AncestorsAreDirs(t0, q, from);
    }
  }

  lemma WalkEnd(t0: Tree, from: Path, t: Tree, to: Path, done: set<Path>)
    requires from != [] && to != [] && WellFormed(t0)
    requires WalkState(t0, from, t, to, [], done)
    ensures done == Below(t0, from)
    ensures from != to && Fresh(t0, to) && IsDir(t0, from) && Copyable(t0, from) ==> SameBelow(t0, from, t, to)
  {
    forall q | q in t0 && from <= q
      ensures q in done
    {
      FrontierEnd(t0, from, done, q);
    }
    assert done == Below(t0, from);
    if from != to && Fresh(t0, to) && IsDir(t0, from) && Copyable(t0, from) {
      CopyFinished(t0, from, t, to, done);
    }
  }

  lemma ParentCopied(t0: Tree, from: Path, t: Tree, to: Path, done: set<Path>, rel: Path)
    requires from != [] && to != [] && rel != [] && WellFormed(t0)
    requires IsDir(t, to) && CopiedSoFar(t0, from, t, to, done)
    requires from + rel in t0 && from + rel !in done && Parent(from + rel) in done
    ensures to + rel !in t && IsDir(t, Parent(to + rel))
    ensures Apart(from, to) ==> from + rel != to + rel
  {
    var up := rel[..|rel| - 1];
    assert Parent(from + rel) == from + up && Parent(to + rel) == to + up;
    if up == [] {
      assert to + up == to;
    }
    if Apart(from, to) && from + rel == to + rel {
      BothPrefixes(from, to, from + rel);
    }
  }

  /** Re-basing from `from` to `to` never produces a path that names `from` again. */
  ghost predicate ImagesClean(from: Path, to: Path)
    requires from != []
  {
    forall rel: Path, part: Path :: IsPath(rel) && part <= Image(from, to, rel) ==> !Repeats(from, part)
  }

  lemma MountImagesClean(vg: string, src: string, dst: string)
    requires ValidName(vg) && ValidName(src) && ValidName(dst) && src != dst
    ensures ImagesClean(MountPath(vg, src), MountPath(vg, dst))
  {
    forall rel: Path, part: Path | IsPath(rel) && part <= Image(MountPath(vg, src), MountPath(vg, dst), rel)
      ensures !Repeats(MountPath(vg, src), part)
    {
      ImageNeverRepeats(vg, src, dst, rel, part);
    }
  }

  lemma TailIsPath(p: Path, q: Path)
    requires IsPath(p + q)
    ensures IsPath(q)
  {
    assert forall i :: 0 <= i < |q| ==> q[i] == (p + q)[|p| + i];
  }

  /**
   * When the tree below the destination consists of images only, it can equal the source's tree only
   * if no source entry repeats the source's path: such an entry has no place among the images.
   */
  lemma ExactOnlyIfCopyable(t0: Tree, from: Path, t: Tree, to: Path)
    requires WellFormed(t0) && from != []
    requires ImagesClean(from, to)
    requires OnlyImages(t0, from, t, to)
    requires SameBelow(t0, from, t, to)
    ensures Copyable(t0, from)
  {
    forall rel: Path | from + rel in t0
      ensures !Repeats(from, rel)
    {
      EntryNotRepeating(t0, from, t, to, rel);
    }
  }

  lemma EntryNotRepeating(t0: Tree, from: Path, t: Tree, to: Path, rel: Path)
    requires WellFormed(t0) && from != []
    requires ImagesClean(from, to)
    requires OnlyImages(t0, from, t, to)
    requires to + rel in t
    ensures !Repeats(from, rel)
  {
    if rel == [] {
      RenderNonEmpty(from);
      assert Render(rel) == "";
      return;
    }
    assert to + rel != to;
    var q :| LeadsTo(t0, from, to, to + rel, q);
    assert (to + rel)[|to|..] == rel && q == from + q[|from|..];
    TailIsPath(from, q[|from|..]);
  }
}
