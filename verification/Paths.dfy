/**
 * Path names. The kernel sees a path as a list of components; the program sees a string. `Render`
 * and `Resolve` go between the two, and the layout functions say where the store keeps things:
 * `/opt/csi-hostpath/<vg>/<name>` with a `meta.json` file and a `mountpoint` directory inside.
 */
module Paths {
  import opened Strings

  type Path = seq<string>

  /** A directory entry's name: not empty, and without the separator. */
  predicate IsComponent(c: string) {
    c != "" && '/' !in c
  }

  predicate IsPath(p: Path) {
    forall i :: 0 <= i < |p| ==> IsComponent(p[i])
  }

  /** A volume, snapshot or group name that denotes one directory below its parent. */
  predicate ValidName(s: string) {
    IsComponent(s) && s != "." && s != ".."
  }

  /** The absolute path string of a component list; the root directory itself is the empty string. */
  function Render(p: Path): string {
    if p == [] then "" else "/" + (p[0] + Render(p[1..]))
  }

  /** How the kernel reads a path string: split at the separators, empty components dropped. */
  function Resolve(s: string): Path {
    Split(s, "")
  }

  function Split(s: string, open: string): Path
    decreases |s|
  {
    if s == "" then Close(open)
    else if s[0] == '/' then Close(open) + Split(s[1..], "")
    else Split(s[1..], open + [s[0]])
  }

  function Close(open: string): Path {
    if open == "" then [] else [open]
  }

  /** True of the empty string and of strings that start a new component. */
  predicate AtSeparator(s: string) {
    s == "" || s[0] == '/'
  }

  lemma {:induction false} SplitComponent(c: string, s: string, open: string)
    requires '/' !in c
    ensures Split(c + s, open) == Split(s, open + c)
    decreases |c|
  {
    if c == "" {
      assert c + s == s && open + c == open;
    } else {
      assert (c + s)[0] == c[0] && c[0] in c;
      assert (c + s)[1..] == c[1..] + s;
      SplitComponent(c[1..], s, open + [c[0]]);
      assert open + [c[0]] + c[1..] == open + c;
    }
  }

  lemma SplitAtSeparator(s: string, c: string)
    requires AtSeparator(s) && c != ""
    ensures Split(s, c) == [c] + Split(s, "")
  {
    if s != "" {
      assert Split(s, "") == [] + Split(s[1..], "") == Split(s[1..], "");
    } else {
      assert [c] + [] == [c];
    }
  }

  /** Reading a rendered path followed by more: the path's components, then the rest's. */
  lemma {:induction false} ResolveRenderThen(p: Path, s: string)
    requires IsPath(p) && AtSeparator(s)
    ensures Resolve(Render(p) + s) == p + Resolve(s)
    ensures AtSeparator(Render(p) + s)
  {
    if p == [] {
      assert Render(p) + s == s;
    } else {
      var c, rest := p[0], Render(p[1..]) + s;
      ResolveRenderThen(p[1..], s);
      RenderStepThen(p, s);
      SplitStep(c, rest);
      assert [c] + (p[1..] + Resolve(s)) == p + Resolve(s);
    }
  }

  lemma SplitStep(c: string, rest: string)
    requires IsComponent(c) && AtSeparator(rest)
    ensures Resolve("/" + (c + rest)) == [c] + Resolve(rest)
  {
    SplitSlash(c + rest);
    SplitComponent(c, rest, "");
    assert "" + c == c;
    SplitAtSeparator(rest, c);
  }

  lemma RenderStepThen(p: Path, s: string)
    requires p != []
    ensures Render(p) + s == "/" + (p[0] + (Render(p[1..]) + s))
  {
    var c, rest := p[0], Render(p[1..]);
    assert "/" + (c + rest) + s == "/" + (c + (rest + s));
  }

  lemma SplitSlash(x: string)
    ensures Split("/" + x, "") == Split(x, "")
  {
    assert ("/" + x)[1..] == x;
    assert [] + Split(x, "") == Split(x, "");
  }

  /** Reading a rendered path gives the path back, so distinct paths have distinct strings. */
  lemma ResolveRender(p: Path)
    requires IsPath(p)
    ensures Resolve(Render(p)) == p
    ensures AtSeparator(Render(p))
  {
    ResolveRenderThen(p, "");
    assert Render(p) + "" == Render(p);
  }

  /** Every path the kernel reads is made of proper components. */
  lemma {:induction false} SplitIsPath(s: string, open: string)
    requires '/' !in open
    ensures IsPath(Split(s, open))
    decreases |s|
  {
    if s == "" {
    } else if s[0] == '/' {
      SplitIsPath(s[1..], "");
    } else {
      SplitIsPath(s[1..], open + [s[0]]);
    }
  }

  lemma ResolveIsPath(s: string)
    ensures IsPath(Resolve(s))
  {
    SplitIsPath(s, "");
  }

  lemma {:induction false} RenderConcat(p: Path, q: Path)
    ensures Render(p + q) == Render(p) + Render(q)
  {
    if p == [] {
      assert p + q == q;
    } else {
      assert (p + q)[1..] == p[1..] + q;
      RenderConcat(p[1..], q);
    }
  }

  // ---------------------------------------------------------------------------------------------
  // The layout
  // ---------------------------------------------------------------------------------------------

  function Root(): Path { ["opt", "csi-hostpath"] }
  function MetaName(): string { "meta.json" }
  function MountName(): string { "mountpoint" }

  function GroupPath(vg: string): Path { Root() + [vg] }
  function VolPath(vg: string, name: string): Path { GroupPath(vg) + [name] }
  function MetaPath(vg: string, name: string): Path { VolPath(vg, name) + [MetaName()] }
  function MountPath(vg: string, name: string): Path { VolPath(vg, name) + [MountName()] }

  // The strings the program builds with Sprintf.
  function GroupDir(vg: string): string { "/opt/csi-hostpath/" + vg }
  function VolDir(vg: string, name: string): string { "/opt/csi-hostpath/" + vg + "/" + name }
  function MetaFile(volDir: string): string { volDir + "/meta.json" }
  function MountPoint(volDir: string): string { volDir + "/mountpoint" }

  lemma RootIsRendered()
    ensures Render(Root()) == "/opt/csi-hostpath"
    ensures IsPath(Root())
  {
    assert Render(Root()) == "/" + "opt" + ("/" + "csi-hostpath" + "");
  }

  lemma RenderOne(p: Path, c: string)
    ensures Render(p + [c]) == Render(p) + "/" + c
  {
    RenderConcat(p, [c]);
    assert Render([c]) == "/" + c + "";
  }

  /**
   * The strings the program formats are the rendered layout paths, and the kernel reads them as
   * exactly those paths.
   */
  lemma LayoutStrings(vg: string, name: string)
    requires IsComponent(vg) && IsComponent(name)
    ensures GroupDir(vg) == Render(GroupPath(vg))
    ensures VolDir(vg, name) == Render(VolPath(vg, name))
    ensures MetaFile(VolDir(vg, name)) == Render(MetaPath(vg, name))
    ensures MountPoint(VolDir(vg, name)) == Render(MountPath(vg, name))
    ensures IsPath(GroupPath(vg)) && IsPath(VolPath(vg, name))
    ensures IsPath(MetaPath(vg, name)) && IsPath(MountPath(vg, name))
  {
    RootIsRendered();
    RenderOne(Root(), vg);
    RenderOne(GroupPath(vg), name);
    RenderOne(VolPath(vg, name), MetaName());
    RenderOne(VolPath(vg, name), MountName());
    assert "/opt/csi-hostpath/" == "/opt/csi-hostpath" + "/";
    assert "/meta.json" == "/" + MetaName();
    assert "/mountpoint" == "/" + MountName();
    assert MetaFile(VolDir(vg, name)) == VolDir(vg, name) + "/" + MetaName();
    assert MountPoint(VolDir(vg, name)) == VolDir(vg, name) + "/" + MountName();
  }

  /** No component asks for the directory itself or the one above. */
  predicate NoDots(s: string) {
    forall c :: c in Resolve(s) ==> c != "." && c != ".."
  }

  lemma NameHasNoDots(c: string)
    requires ValidName(c)
    ensures NoDots(c)
  {
    SplitComponent(c, "", "");
    assert c + "" == c && "" + c == c;
  }

  /** Whatever the names are, the volume's directory string denotes something below the store's root. */
  lemma VolDirBelowRoot(vg: string, name: string)
    ensures Resolve(VolDir(vg, name)) == Root() + Resolve("/" + vg + "/" + name)
    ensures Resolve(VolDir(vg, name)) != []
  {
    RootIsRendered();
    ResolveRenderThen(Root(), "/" + vg + "/" + name);
    assert VolDir(vg, name) == "/opt/csi-hostpath" + ("/" + vg + "/" + name);
  }

  /** Without a name the volume's directory string denotes the whole group. */
  lemma NamelessIsGroup(vg: string)
    requires IsComponent(vg)
    ensures Resolve(VolDir(vg, "")) == GroupPath(vg)
  {
    LayoutStrings(vg, vg);
    ResolveRenderThen(GroupPath(vg), "/");
    SplitSlash("");
    assert "/" + "" == "/";
    assert VolDir(vg, "") == GroupDir(vg) + "/";
  }

  /** Without a group the volume's directory string denotes the place of the group of that name. */
  lemma GrouplessIsGroup(name: string)
    requires IsComponent(name)
    ensures Resolve(VolDir("", name)) == GroupPath(name)
  {
    LayoutStrings(name, name);
    RootIsRendered();
    var tail := "/" + ("/" + (name + ""));
    ResolveRenderThen(Root(), tail);
    SplitSlash("/" + (name + ""));
    SplitStep(name, "");
    assert name + "" == name;
    assert VolDir("", name) == Render(Root()) + tail;
  }

  /** Two paths with no common path below or at them. */
  predicate Apart(p: Path, q: Path) {
    !(p <= q) && !(q <= p)
  }

  /**
   * Different volumes own disjoint subtrees, even when one name is a string prefix of the other, and
   * a volume's record is not inside its data.
   */
  lemma VolumesApart(vg: string, name: string, vg': string, name': string, p: Path)
    ensures VolPath(vg, name) <= p && VolPath(vg', name') <= p ==> vg == vg' && name == name'
    ensures vg != vg' || name != name' ==> Apart(VolPath(vg, name), VolPath(vg', name'))
    ensures Apart(MetaPath(vg, name), MountPath(vg, name))
  {
    assert VolPath(vg, name)[2] == vg && VolPath(vg, name)[3] == name;
    assert VolPath(vg', name')[2] == vg' && VolPath(vg', name')[3] == name';
    assert MetaPath(vg, name)[4] == MetaName() && MountPath(vg, name)[4] == MountName();
    assert |MetaName()| != |MountName()|;
    if VolPath(vg, name) <= p && VolPath(vg', name') <= p {
      assert p[2] == vg && p[2] == vg' && p[3] == name && p[3] == name';
    }
  }

  // ---------------------------------------------------------------------------------------------
  // Re-basing a path with strings.Replace
  // ---------------------------------------------------------------------------------------------

  /** Where the copy of the entry `from + rel` goes, relative to `to`. */
  function Image(from: Path, to: Path, rel: Path): Path
    requires from != []
  {
    Resolve(ReplaceAll(Render(rel), Render(from), Render(to)))
  }

  /** Copying from `from` keeps the entry's place exactly when its own name does not repeat `from`. */
  predicate Repeats(from: Path, rel: Path) {
    Occurs(Render(from), Render(rel))
  }

  lemma RenderNonEmpty(p: Path)
    ensures Render(p) == "" <==> p == []
    ensures p != [] ==> Render(p)[0] == '/'
  {
  }

  /** Replacing inside a string that starts a component keeps it at a component start. */
  lemma ReplaceAtSeparator(s: string, o: string, n: string)
    requires o != "" && n != "" && n[0] == '/' && AtSeparator(s)
    ensures AtSeparator(ReplaceAll(s, o, n))
  {
  }

  /**
   * Replacing every occurrence of the source's path in the path of an entry below it: the front goes
   * to the destination, the remainder is replaced again.
   */
  lemma RebasedPath(from: Path, to: Path, rel: Path)
    requires from != [] && to != [] && IsPath(from) && IsPath(to) && IsPath(rel)
    ensures ReplaceAll(Render(from + rel), Render(from), Render(to))
         == Render(to) + ReplaceAll(Render(rel), Render(from), Render(to))
    ensures Resolve(ReplaceAll(Render(from + rel), Render(from), Render(to))) == to + Image(from, to, rel)
  {
    var o, n := Render(from), Render(to);
    RenderConcat(from, rel);
    var whole := o + Render(rel);
    RenderNonEmpty(from);
    assert o <= whole && whole[|o|..] == Render(rel);
    ResolveRender(rel);
    RenderNonEmpty(to);
    ReplaceAtSeparator(Render(rel), o, n);
    ResolveRenderThen(to, ReplaceAll(Render(rel), o, n));
  }

  /**
   * Re-basing is exact: replacing all occurrences equals swapping only the leading one if and only if
   * source and destination are the same or the source's path does not occur again in the remainder.
   */
  lemma RebaseExact(from: Path, to: Path, rel: Path)
    requires from != [] && to != [] && IsPath(from) && IsPath(to) && IsPath(rel)
    ensures ReplaceAll(Render(from + rel), Render(from), Render(to)) == Render(to + rel)
       <==> from == to || !Repeats(from, rel)
    ensures from == to || !Repeats(from, rel) ==> Image(from, to, rel) == rel
  {
    RenderNonEmpty(from);
    RebasedPath(from, to, rel);
    ReplaceAllFixed(Render(rel), Render(from), Render(to));
    RenderConcat(to, rel);
    ResolveRender(rel);
    ResolveRender(from);
    ResolveRender(to);
    var front, back := Render(to), ReplaceAll(Render(rel), Render(from), Render(to));
    assert (front + back)[|front|..] == back;
    assert (front + Render(rel))[|front|..] == Render(rel);
  }

  // ---- The text of a re-based path is always a path's text --------------------------------------

  /** No empty component and no trailing separator; `slash` says the previous character was one. */
  predicate Clean(s: string, slash: bool)
    decreases |s|
  {
    if s == "" then !slash
    else if s[0] == '/' then !slash && Clean(s[1..], true)
    else Clean(s[1..], false)
  }

  lemma {:induction false} CleanComponent(c: string, s: string, slash: bool)
    requires '/' !in c
    ensures Clean(c + s, slash) == Clean(s, slash && c == "")
    decreases |c|
  {
    if c == "" {
      assert c + s == s;
    } else {
      assert c[0] in c && (c + s)[1..] == c[1..] + s;
      CleanComponent(c[1..], s, false);
    }
  }

  lemma {:induction false} CleanPath(p: Path, s: string)
    requires IsPath(p)
    ensures Clean(Render(p) + s, false) == Clean(s, false)
    ensures p != [] ==> !Clean(Render(p) + s, true)
  {
    if p == [] {
      assert Render(p) + s == s;
    } else {
      CleanPath(p[1..], s);
      var rest := Render(p[1..]) + s;
      assert Render(p) + s == "/" + (p[0] + rest);
      assert (Render(p) + s)[1..] == p[0] + rest;
      CleanComponent(p[0], rest, true);
    }
  }

  lemma {:induction false} CleanReplaced(s: string, from: Path, to: Path, slash: bool)
    requires from != [] && to != [] && IsPath(from) && IsPath(to)
    requires Clean(s, slash)
    ensures Clean(ReplaceAll(s, Render(from), Render(to)), slash)
    decreases |s|
  {
    var o, n := Render(from), Render(to);
    RenderNonEmpty(from);
    if s == "" {
    } else if o <= s {
      var rest := s[|o|..];
      assert s == o + rest;
      CleanPath(from, rest);
      assert !slash;
      CleanReplaced(rest, from, to, false);
      CleanPath(to, ReplaceAll(rest, o, n));
    } else {
      var next := ReplaceAll(s[1..], o, n);
      CleanReplaced(s[1..], from, to, s[0] == '/');
      assert ([s[0]] + next)[1..] == next;
    }
  }

  /** A clean string is the rendering of the path it denotes. */
  lemma {:induction false} CleanIsRendered(s: string, open: string)
    requires Clean(s, false) && '/' !in open
    requires open == "" ==> AtSeparator(s)
    ensures Render(Split(s, open)) == Render(Close(open)) + s
    decreases |s|
  {
    if s == "" {
    } else if s[0] == '/' {
      var rest := s[1..];
      assert rest != "" && rest[0] != '/';
      CleanIsRendered(rest[1..], [rest[0]]);
      RenderedAfterSlash(open, rest);
      assert s == "/" + rest;
    } else {
      CleanIsRendered(s[1..], open + [s[0]]);
      RenderedAfterChar(open, s[0], s[1..]);
      assert s == [s[0]] + s[1..];
    }
  }

  lemma RenderedAfterSlash(open: string, rest: string)
    requires rest != "" && rest[0] != '/'
    requires Render(Split(rest[1..], [rest[0]])) == Render(Close([rest[0]])) + rest[1..]
    ensures Render(Close(open) + Split(rest, "")) == Render(Close(open)) + ("/" + rest)
  {
    hide Split, Render, Close;
    RenderConcat(Close(open), Split(rest, ""));
    FirstChar(rest);
    OneComponent([rest[0]]);
    assert rest == [rest[0]] + rest[1..];
    assert "/" + [rest[0]] + rest[1..] == "/" + ([rest[0]] + rest[1..]);
  }

  lemma FirstChar(rest: string)
    requires rest != "" && rest[0] != '/'
    ensures Split(rest, "") == Split(rest[1..], [rest[0]])
  {
    assert "" + [rest[0]] == [rest[0]];
  }

  lemma OneComponent(c: string)
    ensures c != "" ==> Render(Close(c)) == "/" + c
  {
    assert Render([c]) == "/" + (c + "");
    assert c + "" == c;
  }

  lemma RenderedAfterChar(open: string, c: char, tail: string)
    requires open != ""
    ensures Render(Close(open + [c])) + tail == Render(Close(open)) + ([c] + tail)
  {
    OneComponent(open + [c]);
    OneComponent(open);
    assert "/" + (open + [c]) + tail == "/" + open + ([c] + tail);
  }

  lemma ImageRendered(from: Path, to: Path, rel: Path)
    requires from != [] && to != [] && IsPath(from) && IsPath(to) && IsPath(rel)
    ensures Render(Image(from, to, rel)) == ReplaceAll(Render(rel), Render(from), Render(to))
    ensures IsPath(Image(from, to, rel))
  {
    var s := ReplaceAll(Render(rel), Render(from), Render(to));
    CleanPath(rel, "");
    assert Render(rel) + "" == Render(rel);
    CleanReplaced(Render(rel), from, to, false);
    ResolveRender(rel);
    RenderNonEmpty(from);
    RenderNonEmpty(to);
    ReplaceAtSeparator(Render(rel), Render(from), Render(to));
    CleanIsRendered(s, "");
    assert "" + s == s;
    ResolveIsPath(s);
  }

  // ---- The mount points of two volumes of a group do not mix ------------------------------------

  /** A tail of a rendered path that starts with a separator is the rendering of a tail of the path. */
  lemma {:induction false} TailAtSeparator(p: Path, k: nat) returns (j: nat)
    requires IsPath(p) && k < |Render(p)| && Render(p)[k] == '/'
    ensures j < |p| && Render(p)[k..] == Render(p[j..])
    ensures k > 0 ==> j > 0
  {
    if k == 0 {
      j := 0;
      assert p[0..] == p;
    } else {
      var c, rest := p[0], Render(p[1..]);
      var whole := "/" + (c + rest);
      assert forall i :: 1 <= i <= |c| ==> whole[i] == c[i - 1] && c[i - 1] in c;
      var i := TailAtSeparator(p[1..], k - 1 - |c|);
      j := i + 1;
      assert p[1..][i..] == p[j..];
      assert whole[k..] == rest[k - 1 - |c|..];
    }
  }

  /** If a component and what follows it is at the front of another, the components agree or the first one ends the text. */
  lemma {:induction false} ComponentFront(c: string, x: string, d: string, y: string)
    requires '/' !in c && '/' !in d && AtSeparator(x) && AtSeparator(y)
    requires c + x <= d + y
    ensures c <= d
    ensures x != "" ==> c == d && x <= y
    decreases |c|
  {
    if c == "" {
      assert c + x == x;
      assert x != "" ==> (d + y)[0] == '/';
      assert d != "" ==> d[0] in d && (d + y)[0] == d[0];
      assert d == "" ==> d + y == y;
    } else {
      assert c[0] in c && (c + x)[0] == c[0] == (d + y)[0];
      assert d == "" ==> d + y == y;
      assert d != "" && d[0] == c[0];
      assert (c + x)[1..] == c[1..] + x && (d + y)[1..] == d[1..] + y;
      ComponentFront(c[1..], x, d[1..], y);
      assert c == [c[0]] + c[1..] && d == [d[0]] + d[1..];
    }
  }

  lemma StripSlash(u: string, v: string)
    ensures "/" + u <= "/" + v <==> u <= v
  {
    FrontStep("/" + u, '/', v);
    assert ("/" + u)[1..] == u;
  }

  /** If one rendered path runs into another, their first components agree, or the shorter one ends there. */
  lemma FitsFirst(a: Path, b: Path)
    requires IsPath(a) && IsPath(b) && a != [] && b != []
    ensures Fits(Render(a), Render(b)) && |a| > 1 && |b| > 1
        ==> a[0] == b[0] && Fits(Render(a[1..]), Render(b[1..]))
    ensures Fits(Render(a), Render(b)) && |a| == 1 && |b| > 1 ==> a[0] <= b[0]
  {
    if Render(a) <= Render(b) {
      PrefixFirst(a, b);
    }
    if Render(b) <= Render(a) {
      PrefixFirst(b, a);
    }
  }

  lemma PrefixFirst(a: Path, b: Path)
    requires IsPath(a) && IsPath(b) && a != [] && b != []
    requires Render(a) <= Render(b)
    ensures a[0] <= b[0]
    ensures |a| > 1 ==> |b| > 1 && a[0] == b[0] && Render(a[1..]) <= Render(b[1..])
  {
    var x, y := Render(a[1..]), Render(b[1..]);
    RenderNonEmpty(a[1..]);
    RenderNonEmpty(b[1..]);
    assert Render(a) == "/" + (a[0] + x) && Render(b) == "/" + (b[0] + y);
    StripSlash(a[0] + x, b[0] + y);
    ComponentFront(a[0], x, b[0], y);
  }

  /** No tail of one volume's mount point runs into the mount point of another volume of the group. */
  lemma MountTailsDoNotFit(vg: string, a: string, b: string, j: nat)
    requires ValidName(vg) && ValidName(a) && ValidName(b) && a != b
    requires j < 5
    ensures !Fits(Render(MountPath(vg, a)[j..]), Render(MountPath(vg, b)))
  {
    LayoutStrings(vg, a);
    LayoutStrings(vg, b);
    assert MountPath(vg, a) == ["opt", "csi-hostpath", vg, a, "mountpoint"];
    assert MountPath(vg, b) == ["opt", "csi-hostpath", vg, b, "mountpoint"];
    if j >= 2 {
      LateTailsDoNotFit(vg, a, vg, b, j);
    } else {
      EarlyTailsDoNotFit(vg, a, b, j);
    }
  }

  lemma LateTailsDoNotFit(vg: string, a: string, vg': string, b: string, j: nat)
    requires IsComponent(vg) && IsComponent(a) && IsComponent(vg') && IsComponent(b)
    requires 2 <= j < 5 && vg == vg'
    ensures !Fits(Render(["opt", "csi-hostpath", vg, a, "mountpoint"][j..]),
                  Render(["opt", "csi-hostpath", vg', b, "mountpoint"]))
  {
    var p, q := ["opt", "csi-hostpath", vg, a, "mountpoint"], ["opt", "csi-hostpath", vg', b, "mountpoint"];
    var t2, t3, t4: Path := [vg, a, "mountpoint"], [a, "mountpoint"], ["mountpoint"];
    var q1, q2: Path := ["csi-hostpath", vg', b, "mountpoint"], [vg', b, "mountpoint"];
    assert p[2..] == t2 && p[3..] == t3 && p[4..] == t4 && t2[1..] == t3 && t3[1..] == t4;
    assert q[1..] == q1 && q1[1..] == q2;
    assert "mountpoint"[0] == 'm' && "opt"[0] == 'o' && "csi-hostpath"[0] == 'c';
    if j == 4 {
      FitsFirst(t4, q);
    } else if j == 3 {
      FitsFirst(t3, q);
      FitsFirst(t4, q1);
    } else {
      FitsFirst(t2, q);
      FitsFirst(t3, q1);
      FitsFirst(t4, q2);
    }
  }

  lemma EarlyTailsDoNotFit(vg: string, a: string, b: string, j: nat)
    requires IsComponent(vg) && IsComponent(a) && IsComponent(b) && a != b && j < 2
    ensures !Fits(Render(["opt", "csi-hostpath", vg, a, "mountpoint"][j..]),
                  Render(["opt", "csi-hostpath", vg, b, "mountpoint"]))
  {
    var p, q := ["opt", "csi-hostpath", vg, a, "mountpoint"], ["opt", "csi-hostpath", vg, b, "mountpoint"];
    assert "opt"[0] == 'o' && "csi-hostpath"[0] == 'c';
    if j == 1 {
      FitsFirst(p[1..], q);
    } else {
      assert p[0..] == p;
      FitsFirst(p, q);
      FitsFirst(p[1..], q[1..]);
      FitsFirst(p[2..], q[2..]);
      FitsFirst(p[3..], q[3..]);
      assert p[1..][1..] == p[2..] && p[2..][1..] == p[3..];
      assert q[1..][1..] == q[2..] && q[2..][1..] == q[3..];
    }
  }

  lemma MountsUnmixable(vg: string, a: string, b: string)
    requires ValidName(vg) && ValidName(a) && ValidName(b) && a != b
    ensures Unmixable(Render(MountPath(vg, a)), Render(MountPath(vg, b)))
  {
    TailsDoNotFit(vg, a, b);
    TailsDoNotFit(vg, b, a);
  }

  lemma TailsDoNotFit(vg: string, a: string, b: string)
    requires ValidName(vg) && ValidName(a) && ValidName(b) && a != b
    ensures forall k :: 0 <= k < |Render(MountPath(vg, a))|
                   ==> !Fits(Render(MountPath(vg, a))[k..], Render(MountPath(vg, b)))
  {
    var p, o, n := MountPath(vg, a), Render(MountPath(vg, a)), Render(MountPath(vg, b));
    LayoutStrings(vg, a);
    RenderNonEmpty(MountPath(vg, b));
    forall k | 0 <= k < |o|
      ensures !Fits(o[k..], n)
    {
      if o[k] == '/' {
        var j := TailAtSeparator(p, k);
        MountTailsDoNotFit(vg, a, b, j);
      } else {
        assert o[k..][0] == o[k] && n[0] == '/';
      }
    }
  }

  /**
   * A re-based path never names the source again: whatever the tree looked like, no path below the
   * destination of a copy contains the source's mount point.
   */
  lemma ImageNeverRepeats(vg: string, src: string, dst: string, rel: Path, part: Path)
    requires ValidName(vg) && ValidName(src) && ValidName(dst) && src != dst
    requires IsPath(rel)
    requires part <= Image(MountPath(vg, src), MountPath(vg, dst), rel)
    ensures !Repeats(MountPath(vg, src), part)
  {
    var from, to := MountPath(vg, src), MountPath(vg, dst);
    LayoutStrings(vg, src);
    LayoutStrings(vg, dst);
    ImageRendered(from, to, rel);
    MountsUnmixable(vg, src, dst);
    RenderNonEmpty(from);
    ReplaceAllRemoves(Render(rel), Render(from), Render(to));
    var image := Image(from, to, rel);
    assert image == part + image[|part|..];
    RenderConcat(part, image[|part|..]);
    if Occurs(Render(from), Render(part)) {
      OccursMonotone(Render(from), Render(part), Render(image[|part|..]));
    }
  }
}
