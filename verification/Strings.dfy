/**
 * The parts of Go's `strings` package that decide where a copied file lands: substring search and
 * `strings.Replace` with n = -1 (every occurrence, leftmost first, not overlapping) and n = 1.
 */
module Strings {

  /** `strings.Contains(s, o)`. */
  predicate Occurs(o: string, s: string)
    decreases |s|
  {
    o <= s || (s != "" && Occurs(o, s[1..]))
  }

  /** `strings.Replace(s, o, n, -1)`. */
  function ReplaceAll(s: string, o: string, n: string): string
    requires o != ""
    decreases |s|
  {
    if s == "" then ""
    else if o <= s then n + ReplaceAll(s[|o|..], o, n)
    else [s[0]] + ReplaceAll(s[1..], o, n)
  }

  /** `strings.Replace(s, o, n, 1)`. */
  function ReplaceFirst(s: string, o: string, n: string): string
    requires o != ""
    decreases |s|
  {
    if s == "" then ""
    else if o <= s then n + s[|o|..]
    else [s[0]] + ReplaceFirst(s[1..], o, n)
  }

  /** `strings.ToLower`, on the ASCII letters. */
  function ToLower(s: string): (r: string)
    ensures |r| == |s|
    ensures forall i :: 0 <= i < |s| ==> Lowers(s[i], r[i])
  {
    seq(|s|, i requires 0 <= i < |s| => LowerChar(s[i]))
  }

  function LowerChar(c: char): (d: char)
    ensures Lowers(c, d)
  {
    if 'A' <= c <= 'Z' then ((c as int) + 32) as char else c
  }

  /** Capitals go to the small letters at the same distance from the first one; every other character stays. */
  predicate Lowers(c: char, d: char) {
    if 'A' <= c <= 'Z' then 'a' <= d <= 'z' && d as int - 'a' as int == c as int - 'A' as int else d == c
  }

  predicate NoCapitals(s: string) {
    forall i :: 0 <= i < |s| ==> !('A' <= s[i] <= 'Z')
  }

  /** A text is its own lower-casing exactly when it has no capitals, and a lower-cased text has none. */
  lemma LowerExactly(s: string)
    ensures ToLower(s) == s <==> NoCapitals(s)
    ensures NoCapitals(ToLower(s))
  {
    assert forall i :: 0 <= i < |s| ==> (ToLower(s)[i] == s[i] <==> !('A' <= s[i] <= 'Z'));
  }

  /** Lower-casing twice is lower-casing once, so a lower-cased name looks itself up. */
  lemma ToLowerIdempotent(s: string)
    ensures ToLower(ToLower(s)) == ToLower(s)
  {
    assert forall i :: 0 <= i < |s| ==> ToLower(ToLower(s))[i] == ToLower(s)[i];
  }

  /** The first place where the text begins. */
  ghost predicate FirstAt(o: string, s: string, i: nat) {
    i <= |s| && o <= s[i..] && forall j :: 0 <= j < i ==> !(o <= s[j..])
  }

  /** A text occurs exactly when it begins somewhere, and then there is a first place. */
  lemma {:induction false} OccursExactly(o: string, s: string) returns (i: nat)
    ensures Occurs(o, s) <==> exists j :: 0 <= j <= |s| && o <= s[j..]
    ensures Occurs(o, s) ==> FirstAt(o, s, i)
    decreases |s|
  {
    i := 0;
    assert s[0..] == s;
    if !(o <= s) && s != "" {
      var before := OccursExactly(o, s[1..]);
      assert forall j :: 1 <= j <= |s| ==> s[j..] == s[1..][j - 1..];
      assert forall j :: 0 <= j <= |s| - 1 ==> s[1..][j..] == s[j + 1..];
      i := before + 1;
    }
  }

  /**
   * Replacing once leaves a text without the search text alone, and otherwise keeps what stands before
   * its first occurrence and what stands behind that.
   */
  lemma {:induction false} ReplaceFirstExactly(s: string, o: string, n: string, i: nat)
    requires o != ""
    ensures !Occurs(o, s) ==> ReplaceFirst(s, o, n) == s
    ensures FirstAt(o, s, i) ==> ReplaceFirst(s, o, n) == s[..i] + n + s[i + |o|..]
    decreases |s|
  {
    assert s[0..] == s;
    if s != "" && !(o <= s) {
      ReplaceFirstExactly(s[1..], o, n, if i == 0 then 0 else i - 1);
      assert s == [s[0]] + s[1..];
      if FirstAt(o, s, i) {
        FirstStep(o, s, i, n, s[i + |o|..]);
        assert s[1..][i - 1 + |o|..] == s[i + |o|..];
      }
    }
  }

  lemma FirstStep(o: string, s: string, i: nat, n: string, more: string)
    requires s != "" && !(o <= s) && FirstAt(o, s, i)
    ensures i > 0 && FirstAt(o, s[1..], i - 1)
    ensures [s[0]] + (s[1..][..i - 1] + n + more) == s[..i] + n + more
  {
    assert s[0..] == s && s[1..][i - 1..] == s[i..];
    assert forall j :: 0 <= j < i - 1 ==> s[1..][j..] == s[j + 1..];
    assert [s[0]] + s[1..][..i - 1] == s[..i];
  }

  lemma SameTail(s: string, i: nat, n: nat)
    requires 0 < i && i + n <= |s|
    ensures s[1..][i - 1 + n..] == s[i + n..]
  {
  }

  /** Replacing everywhere goes on behind the first occurrence. */
  lemma {:induction false} ReplaceAllStep(s: string, o: string, n: string, i: nat)
    requires o != "" && FirstAt(o, s, i)
    ensures ReplaceAll(s, o, n) == s[..i] + n + ReplaceAll(s[i + |o|..], o, n)
    decreases |s|
  {
    assert s[0..] == s;
    if o <= s {
      assert s[..0] + n == n;
    } else {
      assert ReplaceAll(s, o, n) == [s[0]] + ReplaceAll(s[1..], o, n);
      hide ReplaceAll;
      FirstStep(o, s, i, n, ReplaceAll(s[i + |o|..], o, n));
      hide FirstAt;
      ReplaceAllStep(s[1..], o, n, i - 1);
      SameTail(s, i, |o|);
    }
  }

  /** Where the search text occurs, replacing it by a longer (shorter) text makes the whole longer (shorter). */
  lemma {:induction false} ReplaceAllLength(s: string, o: string, n: string)
    requires o != ""
    ensures |n| >= |o| ==> |ReplaceAll(s, o, n)| >= |s|
    ensures |n| <= |o| ==> |ReplaceAll(s, o, n)| <= |s|
    ensures Occurs(o, s) && |n| > |o| ==> |ReplaceAll(s, o, n)| > |s|
    ensures Occurs(o, s) && |n| < |o| ==> |ReplaceAll(s, o, n)| < |s|
    decreases |s|
  {
    if s == "" {
    } else if o <= s {
      ReplaceAllLength(s[|o|..], o, n);
    } else {
      ReplaceAllLength(s[1..], o, n);
    }
  }

  /**
   * Exactly when replacing changes nothing: the text does not occur, or it is replaced by itself.
   */
  lemma {:induction false} ReplaceAllFixed(s: string, o: string, n: string)
    requires o != ""
    ensures ReplaceAll(s, o, n) == s <==> o == n || !Occurs(o, s)
    decreases |s|
  {
    if |o| != |n| && Occurs(o, s) {
      ReplaceAllLength(s, o, n);
    } else if s == "" {
    } else if o <= s {
      var rest := s[|o|..];
      assert s == o + rest;
      ReplaceAllFixed(rest, o, n);
      if n + ReplaceAll(rest, o, n) == s {
        assert n == (n + ReplaceAll(rest, o, n))[..|n|] == s[..|o|] == o;
      }
    } else {
      ReplaceAllFixed(s[1..], o, n);
      assert s == [s[0]] + s[1..];
      if ReplaceAll(s, o, n) == s {
        assert ReplaceAll(s[1..], o, n) == ReplaceAll(s, o, n)[1..] == s[1..];
      }
    }
  }

  /** One of the two texts continues the other. */
  predicate Fits(a: string, b: string) {
    a <= b || b <= a
  }

  /**
   * Neither a proper tail of `o` runs into `n`, nor any tail of `n` (all of `n` included) runs into
   * `o`: pasting `n` somewhere cannot complete a new `o`.
   */
  ghost predicate Unmixable(o: string, n: string) {
    && (forall k :: 0 < k < |o| ==> !Fits(o[k..], n))
    && (forall k :: 0 <= k < |n| ==> !Fits(n[k..], o))
  }

  /** A text at the front of `b + x` runs into `b`. */
  lemma FrontFits(a: string, b: string, x: string)
    ensures a <= b + x ==> Fits(a, b)
  {
    if a <= b + x {
      if |a| <= |b| {
        assert a == (b + x)[..|a|] == b[..|a|];
      } else {
        assert b == (b + x)[..|b|] == a[..|b|];
      }
    }
  }

  /** A non-empty text is at the front of `c :: x` exactly when it starts with `c` and goes on in `x`. */
  lemma FrontStep(a: string, c: char, x: string)
    requires a != ""
    ensures a <= [c] + x <==> a[0] == c && a[1..] <= x
  {
    assert ([c] + x)[1..] == x;
    if a[0] == c && a[1..] <= x {
      assert a == [a[0]] + a[1..];
    }
    if a <= [c] + x {
      assert a[1..] <= ([c] + x)[1..];
    }
  }

  /** A tail of `o` found at the front of the replaced text was there before. */
  lemma {:induction false} TailSurvives(s: string, o: string, n: string, k: nat)
    requires o != "" && Unmixable(o, n) && 0 < k < |o|
    ensures o[k..] <= ReplaceAll(s, o, n) ==> o[k..] <= s
    decreases |s|
  {
    if s == "" {
    } else if o <= s {
      FrontFits(o[k..], n, ReplaceAll(s[|o|..], o, n));
    } else {
      FrontStep(o[k..], s[0], ReplaceAll(s[1..], o, n));
      FrontStep(o[k..], s[0], s[1..]);
      assert s == [s[0]] + s[1..];
      assert o[k..][1..] == o[k + 1..];
      if k + 1 < |o| {
        TailSurvives(s[1..], o, n, k + 1);
      }
    }
  }

  /** Pasting a tail of `n` in front of a text without `o` does not bring `o` in. */
  lemma {:induction false} PasteAddsNothing(o: string, n: string, k: nat, x: string)
    requires o != "" && Unmixable(o, n) && k <= |n| && !Occurs(o, x)
    ensures !Occurs(o, n[k..] + x)
    decreases |n| - k
  {
    if k == |n| {
      assert n[k..] + x == x;
    } else {
      PasteAddsNothing(o, n, k + 1, x);
      assert (n[k..] + x)[1..] == n[k + 1..] + x;
      FrontFits(o, n[k..], x);
    }
  }

  /** With unmixable texts, replacing every occurrence leaves none. */
  lemma {:induction false} ReplaceAllRemoves(s: string, o: string, n: string)
    requires o != "" && Unmixable(o, n)
    ensures !Occurs(o, ReplaceAll(s, o, n))
    decreases |s|
  {
    if s == "" {
    } else if o <= s {
      ReplaceAllRemoves(s[|o|..], o, n);
      PasteAddsNothing(o, n, 0, ReplaceAll(s[|o|..], o, n));
      assert n[0..] == n;
    } else {
      var rest := ReplaceAll(s[1..], o, n);
      ReplaceAllRemoves(s[1..], o, n);
      assert ([s[0]] + rest)[1..] == rest;
      FrontStep(o, s[0], rest);
      FrontStep(o, s[0], s[1..]);
      assert s == [s[0]] + s[1..];
      if |o| > 1 {
        TailSurvives(s[1..], o, n, 1);
      }
    }
  }

  lemma {:induction false} OccursAfter(o: string, front: string, s: string)
    requires Occurs(o, s)
    ensures Occurs(o, front + s)
    decreases |front|
  {
    if front == "" {
      assert front + s == s;
    } else {
      OccursAfter(o, front[1..], s);
      assert (front + s)[1..] == front[1..] + s;
    }
  }

  lemma {:induction false} OccursShorter(o: string, s: string)
    requires Occurs(o, s)
    ensures |o| <= |s|
    decreases |s|
  {
    if !(o <= s) {
      OccursShorter(o, s[1..]);
    }
  }

  /** The text never starts inside `a`, judged by its first two characters. */
  predicate NoStart(o: string, a: string)
    requires |o| >= 2
  {
    forall i :: 0 <= i < |a| && a[i] == o[0] ==> i + 1 < |a| && a[i + 1] != o[1]
  }

  lemma NoStartConcat(o: string, a: string, b: string)
    requires |o| >= 2 && NoStart(o, a) && NoStart(o, b)
    ensures NoStart(o, a + b)
  {
  }

  /** A front in which the text never starts does not matter to whether it occurs. */
  lemma {:induction false} OccursSkip(o: string, a: string, y: string)
    requires |o| >= 2 && NoStart(o, a)
    ensures Occurs(o, a + y) <==> Occurs(o, y)
    decreases |a|
  {
    if a == "" {
      assert a + y == y;
    } else {
      assert (a + y)[1..] == a[1..] + y;
      OccursSkip(o, a[1..], y);
      assert (a + y)[0] == a[0] && (|a| > 1 ==> (a + y)[1] == a[1]);
    }
  }

  /** Between `x` and what follows there is a stretch the text cannot run across. */
  predicate Barrier(o: string, b: string, y: string)
    requires o != ""
  {
    y != "" && y[0] !in o && (b == "" || b[0] !in o || o[|o| - 1] !in b)
  }

  lemma {:induction false} OccursSplit(o: string, x: string, b: string, y: string)
    requires o != "" && Barrier(o, b, y)
    ensures Occurs(o, x + (b + y)) <==> Occurs(o, x) || Occurs(o, b + y)
    decreases |x|
  {
    var s := x + (b + y);
    if x == "" {
      assert s == b + y;
    } else {
      assert s[1..] == x[1..] + (b + y);
      OccursSplit(o, x[1..], b, y);
      NotAcross(o, x, b, y);
    }
  }

  lemma NotAcross(o: string, x: string, b: string, y: string)
    requires o != "" && Barrier(o, b, y)
    ensures x != "" ==> (o <= x + (b + y) <==> o <= x)
  {
    var s := x + (b + y);
    assert forall i :: 0 <= i < |b| ==> s[|x| + i] == b[i];
    assert s[|x| + |b|] == y[0];
    if o <= s && |o| <= |x| {
      assert o == s[..|o|] == x[..|o|];
    }
  }

  /** A text occurs in every continuation of a text it occurs in. */
  lemma {:induction false} OccursMonotone(o: string, s: string, more: string)
    requires Occurs(o, s)
    ensures Occurs(o, s + more)
    decreases |s|
  {
    if o <= s {
      assert o <= s + more;
    } else {
      OccursMonotone(o, s[1..], more);
      assert (s + more)[1..] == s[1..] + more;
    }
  }
}
