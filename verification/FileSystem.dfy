/**
 * The file system the store runs on: a tree of directories and files, keyed by path, and the system
 * calls the program makes with their exact effect on it. Faults of the medium, permissions and links
 * are not modelled.
 */
module FileSystem {
  import opened Wrappers
  import opened Paths

  datatype Node = Dir | File(data: string)

  type Tree = map<Path, Node>

  predicate IsDir(t: Tree, p: Path) {
    p in t && t[p].Dir?
  }

  predicate IsFile(t: Tree, p: Path) {
    p in t && t[p].File?
  }

  function Parent(p: Path): Path
    requires p != []
  {
    p[..|p| - 1]
  }

  lemma LastComponent(q: Path)
    requires q != []
    ensures q == Parent(q) + [q[|q| - 1]]
  {
  }

  lemma SplitPrefix(p: Path, q: Path)
    requires p <= q
    ensures q == p + q[|p|..]
  {
  }

  lemma ChildComponent(t: Tree, p: Path, c: string)
    requires WellFormed(t) && p + [c] in t
    ensures IsComponent(c)
  {
    assert (p + [c])[|p|] == c;
  }

  lemma ProperPrefix(q: Path, p: Path)
    requires q <= p && q != p
    ensures p != [] && q <= Parent(p)
  {
    assert p[..|p|] == p && q == p[..|q|];
  }

  /** There is a root, and every other entry lies in a directory. */
  ghost predicate WellFormed(t: Tree) {
    && IsDir(t, [])
    && (forall p :: p in t ==> IsPath(p))
    && (forall p {:trigger Parent(p)} :: p in t && p != [] ==> IsDir(t, Parent(p)))
  }

  lemma {:induction false} AncestorsAreDirs(t: Tree, p: Path, q: Path)
    requires WellFormed(t) && p in t && q <= p
    ensures q != p ==> IsDir(t, q)
    decreases |p|
  {
    if q != p {
      assert q <= Parent(p);
      AncestorsAreDirs(t, Parent(p), q);
    }
  }

  // ---------------------------------------------------------------------------------------------
  // What the system calls do to the tree
  // ---------------------------------------------------------------------------------------------

  /** `os.MkdirAll` succeeds unless the path runs through or ends at a file. */
  ghost predicate CanMake(t: Tree, p: Path) {
    forall q :: q <= p && q in t ==> t[q].Dir?
  }

  /** The path and all its missing ancestors become directories. */
  function Made(t: Tree, p: Path): (u: Tree)
    ensures forall q :: q in u <==> q in t || q <= p
    ensures forall q :: q in u ==> u[q] == if q in t then t[q] else Dir
    decreases |p|
  {
    var v := if p == [] then t else Made(t, Parent(p));
    assert forall q :: q in v || q == p <==> q in t || q <= p;
    if p in v then v else v[p := Dir]
  }

  lemma MadeWellFormed(t: Tree, p: Path)
    requires WellFormed(t) && IsPath(p) && CanMake(t, p)
    ensures WellFormed(Made(t, p)) && IsDir(Made(t, p), p)
  {
    var u := Made(t, p);
    forall q | q in u && q != []
      ensures IsDir(u, Parent(q))
    {
      if q !in t {
        assert Parent(q) <= p;
      }
    }
  }

  lemma MadeExisting(t: Tree, p: Path)
    requires WellFormed(t) && p in t
    ensures Made(t, p) == t
    ensures IsDir(t, p) ==> CanMake(t, p)
  {
    forall q | q <= p
      ensures q in t && (q != p ==> t[q].Dir?)
    {
      AncestorsAreDirs(t, p, q);
    }
  }

  /** Making one entry below an existing directory adds just that entry. */
  lemma MadeOne(t: Tree, p: Path)
    requires WellFormed(t) && p != [] && p !in t && IsDir(t, Parent(p))
    ensures CanMake(t, p) && Made(t, p) == t[p := Dir]
  {
    MadeExisting(t, Parent(p));
    forall q | q <= p && q in t
      ensures t[q].Dir?
    {
      ProperPrefix(q, p);
    }
  }

  /** Nothing can be made or found below a missing entry whose ancestors are files. */
  ghost predicate NotExist(t: Tree, p: Path) {
    p !in t && CanMake(t, p)
  }

  /** Opening for writing with O_CREATE needs a file there, or a directory to put it in. */
  predicate CanOpen(t: Tree, p: Path) {
    if p in t then t[p].File? else p != [] && IsDir(t, Parent(p))
  }

  function Opened(t: Tree, p: Path, truncate: bool): Tree {
    if p in t && !truncate then t else t[p := File("")]
  }

  /** Writing `text` at the start of a file that holds `before` and was opened without O_TRUNC. */
  function Overwrite(before: string, text: string): string {
    if |before| <= |text| then text else text + before[|text|..]
  }

  /** Place for place: the new text, and behind its end what was there before. */
  lemma OverwriteExactly(before: string, text: string, r: string)
    ensures r == Overwrite(before, text) <==>
      && |r| == (if |text| < |before| then |before| else |text|)
      && (forall i :: 0 <= i < |text| ==> r[i] == text[i])
      && (forall i :: |text| <= i < |r| ==> r[i] == before[i])
  {
    var made := Overwrite(before, text);
    if |made| == |r| && (forall i :: 0 <= i < |text| ==> r[i] == text[i]) && (forall i :: |text| <= i < |r| ==> r[i] == before[i]) {
      assert forall i :: 0 <= i < |r| ==> r[i] == made[i];
    }
  }

  lemma OpenedWellFormed(t: Tree, p: Path, data: string)
    requires WellFormed(t) && IsPath(p) && CanOpen(t, p)
    ensures WellFormed(t[p := File(data)])
  {
    var u := t[p := File(data)];
    forall q | q in u && q != []
      ensures IsDir(u, Parent(q))
    {
      if q == p {
        assert Parent(p) != p;
      }
    }
  }

  /** `os.RemoveAll`. */
  function RemovedAll(t: Tree, p: Path): Tree {
    map q | q in t && !(p <= q) :: t[q]
  }

  lemma RemovedAllWellFormed(t: Tree, p: Path)
    requires WellFormed(t) && p != []
    ensures WellFormed(RemovedAll(t, p))
  {
    var u := RemovedAll(t, p);
    forall q | q in u && q != []
      ensures IsDir(u, Parent(q))
    {
      assert !(p <= Parent(q)) by {
        assert Parent(q) <= q;
      }
    }
  }

  function Children(t: Tree, p: Path): set<string> {
    set q | q in t && q != [] && Parent(q) == p :: q[|q| - 1]
  }

  lemma ChildrenAre(t: Tree, p: Path, c: string)
    ensures c in Children(t, p) <==> p + [c] in t
  {
    assert Parent(p + [c]) == p;
    if c in Children(t, p) {
      var q :| q in t && q != [] && Parent(q) == p && q[|q| - 1] == c;
      assert q == p + [c];
    }
  }

  /** The two trees have the same entries except at and below `p`. */
  ghost predicate SameOutside(t: Tree, u: Tree, p: Path) {
    forall q :: !(p <= q) ==> (q in t <==> q in u) && (q in t ==> t[q] == u[q])
  }

  /** What `u` has at and below `q` is what `t` has at and below `p`. */
  ghost predicate SameBelow(t: Tree, p: Path, u: Tree, q: Path) {
    forall rel: Path ::
      && (p + rel in t <==> q + rel in u)
      && (p + rel in t ==> t[p + rel] == u[q + rel])
  }

  predicate NoDup<T(==)>(s: seq<T>) {
    forall i, j :: 0 <= i < j < |s| ==> s[i] != s[j]
  }

  // ---------------------------------------------------------------------------------------------
  // The calls
  // ---------------------------------------------------------------------------------------------

  class Disk {
    var tree: Tree

    constructor ()
      ensures WellFormed(tree) && tree == map[[] := Dir]
    {
      tree := map[[] := Dir];
    }

    method MkdirAll(path: string) returns (ok: bool)
      requires WellFormed(tree)
      modifies this
      ensures WellFormed(tree)
      ensures ok <==> CanMake(old(tree), Resolve(path))
      ensures tree == if ok then Made(old(tree), Resolve(path)) else old(tree)
    {
      var p := Resolve(path);
      ResolveIsPath(path);
      ok := AllDirectories(p);
      if ok {
        MadeWellFormed(tree, p);
        tree := Made(tree, p);
      }
    }

    /** Whether nothing on the way to `p`, `p` included, is a file. */
    method AllDirectories(p: Path) returns (clear: bool)
      ensures clear <==> CanMake(tree, p)
    {
      var k := 0;
      while k <= |p|
        invariant 0 <= k <= |p| + 1
        invariant forall q :: q <= p && |q| < k && q in tree ==> tree[q].Dir?
      {
        if IsFile(tree, p[..k]) {
          assert p[..k] <= p;
          return false;
        }
        assert forall q :: q <= p && |q| == k && q in tree ==> q == p[..k];
        k := k + 1;
      }
      return true;
    }

    /** `os.IsNotExist` of `os.Stat`: a path that runs through a file gives another error. */
    method StatNotExist(path: string) returns (missing: bool)
      ensures missing <==> NotExist(tree, Resolve(path))
    {
      var clear := AllDirectories(Resolve(path));
      missing := clear && Resolve(path) !in tree;
    }

    /** `os.OpenFile(path, O_RDWR|O_CREATE[|O_TRUNC])`. */
    method OpenFile(path: string, truncate: bool) returns (ok: bool)
      requires WellFormed(tree)
      modifies this
      ensures WellFormed(tree)
      ensures ok <==> CanOpen(old(tree), Resolve(path))
      ensures tree == if ok then Opened(old(tree), Resolve(path), truncate) else old(tree)
      ensures ok ==> IsFile(tree, Resolve(path))
    {
      var p := Resolve(path);
      ResolveIsPath(path);
      ok := CanOpen(tree, p);
      if ok {
        OpenedWellFormed(tree, p, "");
        tree := Opened(tree, p, truncate);
      }
    }

    /** `io.WriteString` to a file just opened: at its start, keeping what lies beyond the text. */
    method WriteString(path: string, text: string)
      requires WellFormed(tree) && IsFile(tree, Resolve(path))
      modifies this
      ensures WellFormed(tree)
      ensures tree == old(tree)[Resolve(path) := File(Overwrite(old(tree)[Resolve(path)].data, text))]
    {
      var p := Resolve(path);
      ResolveIsPath(path);
      OpenedWellFormed(tree, p, Overwrite(tree[p].data, text));
      tree := tree[p := File(Overwrite(tree[p].data, text))];
    }

    /** `os.Open` and `io.ReadAll`; reading a directory is an error like a missing file. */
    method ReadAll(path: string) returns (data: Option<string>)
      ensures data.Some? <==> IsFile(tree, Resolve(path))
      ensures data.Some? ==> tree[Resolve(path)] == File(data.value)
    {
      var p := Resolve(path);
      data := if IsFile(tree, p) then Some(tree[p].data) else None;
    }

    /** `os.Remove`: a file or an empty directory; any failure is ignored by the callers. */
    method Remove(path: string)
      requires WellFormed(tree)
      modifies this
      ensures WellFormed(tree)
      ensures IsFile(old(tree), Resolve(path)) ==> tree == old(tree) - {Resolve(path)}
      ensures IsDir(old(tree), Resolve(path)) && Resolve(path) != [] && (forall c :: Resolve(path) + [c] !in old(tree)) ==>
        tree == old(tree) - {Resolve(path)}
      ensures Resolve(path) == [] || (exists c :: Resolve(path) + [c] in old(tree)) ==> tree == old(tree)
      ensures Resolve(path) !in old(tree) ==> tree == old(tree)
    {
      var p := Resolve(path);
      forall c
        ensures c in Children(tree, p) <==> p + [c] in tree
      {
        ChildrenAre(tree, p, c);
      }
      forall c | p + [c] in tree
        ensures IsDir(tree, p)
      {
        assert Parent(p + [c]) == p;
      }
      if p in tree && p != [] && (tree[p].File? || Children(tree, p) == {}) {
        forall q | q in tree && q != []
          ensures Parent(q) != p
        {
          ChildrenAre(tree, Parent(q), q[|q| - 1]);
        }
        tree := tree - {p};
      }
    }

    method RemoveAll(path: string)
      requires WellFormed(tree) && Resolve(path) != []
      modifies this
      ensures WellFormed(tree)
      ensures tree == RemovedAll(old(tree), Resolve(path))
    {
      RemovedAllWellFormed(tree, Resolve(path));
      tree := RemovedAll(tree, Resolve(path));
    }

    /** The names in a directory, each once, in whatever order the directory keeps them. */
    method ReadDir(path: string) returns (names: Option<seq<string>>)
      ensures names.Some? <==> IsDir(tree, Resolve(path))
      ensures names.Some? ==> NoDup(names.value)
      ensures names.Some? ==> forall c :: c in names.value <==> Resolve(path) + [c] in tree
    {
      var p := Resolve(path);
      if !IsDir(tree, p) {
        return None;
      }
      var rest := Children(tree, p);
      var found: seq<string> := [];
      while rest != {}
        invariant NoDup(found)
        invariant forall c :: c in found ==> c !in rest
        invariant forall c :: c in Children(tree, p) <==> c in found || c in rest
        decreases rest
      {
        var c :| c in rest;
        rest := rest - {c};
        found := found + [c];
      }
      forall c
        ensures c in found <==> p + [c] in tree
      {
        ChildrenAre(tree, p, c);
      }
      return Some(found);
    }
  }
}
