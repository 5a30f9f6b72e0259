/**
 * Searching, splitting and joining sequences: the parts of Go's bytes and
 * strings packages (Index, HasPrefix, Split) that the client is built from.
 */
module Seqs {

  /** pat occurs in s starting at position i */
  predicate OccursAt<T(==)>(s: seq<T>, pat: seq<T>, i: int) {
    0 <= i && i + |pat| <= |s| && s[i..i + |pat|] == pat
  }

  /** pat occurs nowhere in s */
  predicate Free<T(==)>(s: seq<T>, pat: seq<T>) {
    forall j :: 0 <= j < |s| ==> !OccursAt(s, pat, j)
  }

  /** In p + pat the first occurrence of pat is the appended one. */
  predicate Separable<T(==)>(p: seq<T>, pat: seq<T>) {
    forall j :: 0 <= j < |p| ==> !OccursAt(p + pat, pat, j)
  }

  predicate HasPrefix<T(==)>(s: seq<T>, p: seq<T>) {
    |p| <= |s| && s[..|p|] == p
  }

  predicate NoDup<T(==)>(s: seq<T>) {
    forall i, j :: 0 <= i < j < |s| ==> s[i] != s[j]
  }

  /** order lists every element of keys exactly once: one possible iteration order of a Go map */
  ghost predicate Enumerates<T(!new)>(order: seq<T>, keys: set<T>) {
    NoDup(order) && (forall x :: x in order <==> x in keys)
  }

  /** bytes.Index / strings.Index for a non-empty pattern: the first position of pat in s, or -1 */
  function Find<T(==)>(s: seq<T>, pat: seq<T>): (r: int)
    requires |pat| > 0
    ensures r == -1 || OccursAt(s, pat, r)
    ensures forall j :: 0 <= j < |s| && (r == -1 || j < r) ==> !OccursAt(s, pat, j)
  {
    FindFrom(s, pat, 0)
  }

  function FindFrom<T(==)>(s: seq<T>, pat: seq<T>, i: nat): (r: int)
    requires |pat| > 0 && i <= |s|
    ensures r == -1 || (i <= r && OccursAt(s, pat, r))
    ensures forall j :: i <= j < |s| && (r == -1 || j < r) ==> !OccursAt(s, pat, j)
    decreases |s| - i
  {
    if i + |pat| > |s| then -1
    else if s[i..i + |pat|] == pat then i
    else FindFrom(s, pat, i + 1)
  }

  /** The pieces joined back together, sep between neighbours. */
  function Join<T>(pieces: seq<seq<T>>, sep: seq<T>): seq<T>
    requires |pieces| >= 1
  {
    if |pieces| == 1 then pieces[0] else pieces[0] + sep + Join(pieces[1..], sep)
  }

  /**
   * bytes.Split for a non-empty separator: s cut at every occurrence of sep
   * found left to right; always at least one piece.
   */
  function Split<T(==)>(s: seq<T>, sep: seq<T>): (pieces: seq<seq<T>>)
    requires |sep| > 0
    ensures |pieces| >= 1
    decreases |s|
  {
    var e := Find(s, sep);
    if e < 0 then [s] else [s[..e]] + Split(s[e + |sep|..], sep)
  }

  /** No piece of a split holds the separator. */
  lemma {:induction false} SplitFree<T>(s: seq<T>, sep: seq<T>)
    requires |sep| > 0
    ensures forall k :: 0 <= k < |Split(s, sep)| ==> Free(Split(s, sep)[k], sep)
    decreases |s|
  {
    var e := Find(s, sep);
    if e >= 0 {
      SplitFree(s[e + |sep|..], sep);
      forall j | 0 <= j < e ensures !OccursAt(s[..e], sep, j) {
        OccursInPrefix(s, e, sep, j);
      }
    }
  }

  /** Joining the pieces with the separator gives s back. */
  lemma {:induction false} SplitJoinBack<T>(s: seq<T>, sep: seq<T>)
    requires |sep| > 0
    ensures Join(Split(s, sep), sep) == s
    decreases |s|
  {
    var e := Find(s, sep);
    if e >= 0 {
      var pieces := Split(s, sep);
      SplitJoinBack(s[e + |sep|..], sep);
      assert pieces[1..] == Split(s[e + |sep|..], sep);
      assert s[e..e + |sep|] == sep;
      assert s == s[..e] + sep + s[e + |sep|..];
    }
  }

  lemma OccursInPrefix<T>(s: seq<T>, n: int, pat: seq<T>, j: int)
    requires 0 <= n <= |s| && 0 <= j
    ensures j + |pat| <= n ==> (OccursAt(s[..n], pat, j) <==> OccursAt(s, pat, j))
    ensures OccursAt(s[..n], pat, j) ==> OccursAt(s, pat, j)
  {
    if j + |pat| <= n {
      assert s[..n][j..j + |pat|] == s[j..j + |pat|];
    }
  }

  /** Find returns the first occurrence, so any first occurrence is what it returns. */
  lemma FindIs<T>(s: seq<T>, pat: seq<T>, i: int)
    requires |pat| > 0 && OccursAt(s, pat, i)
    requires forall j :: 0 <= j < i ==> !OccursAt(s, pat, j)
    ensures Find(s, pat) == i
  {
  }

  lemma FindNone<T>(s: seq<T>, pat: seq<T>)
    requires |pat| > 0 && Free(s, pat)
    ensures Find(s, pat) == -1
  {
  }

  /** If pat's first element is absent from p, no occurrence can start inside p. */
  lemma SeparableByHead<T>(p: seq<T>, pat: seq<T>)
    requires |pat| > 0 && pat[0] !in p
    ensures Separable(p, pat) && Free(p, pat)
  {
    forall j | 0 <= j < |p| ensures !OccursAt(p + pat, pat, j) && !OccursAt(p, pat, j) {
      assert (p + pat)[j] == p[j] != pat[0];
    }
  }

  /** A single-element pattern occurs exactly where that element is. */
  lemma OccursSingle<T>(s: seq<T>, c: T, j: int)
    ensures OccursAt(s, [c], j) <==> 0 <= j < |s| && s[j] == c
  {
    if 0 <= j < |s| && s[j] == c {
      assert s[j..j + 1] == [c];
    }
  }

  /** Cutting a + sep + b: when a is separable, the first cut is right after a. */
  lemma SplitAt<T>(a: seq<T>, sep: seq<T>, b: seq<T>)
    requires |sep| > 0 && Separable(a, sep)
    ensures Split(a + sep + b, sep) == [a] + Split(b, sep)
  {
    var s := a + sep + b;
    assert s[|a|..|a| + |sep|] == sep;
    assert s[..|a| + |sep|] == a + sep;
    forall j | 0 <= j < |a| ensures !OccursAt(s, sep, j) {
      OccursInPrefix(s, |a| + |sep|, sep, j);
    }
    FindIs(s, sep, |a|);
    assert s[..|a|] == a;
    assert s[|a| + |sep|..] == b;
  }

  /**
   * Splitting undoes joining: when every inner piece is separable and the
   * last piece holds no separator, Split recovers the pieces.
   */
  lemma {:induction false} SplitJoin<T>(pieces: seq<seq<T>>, sep: seq<T>)
    requires |sep| > 0 && |pieces| >= 1
    requires forall k :: 0 <= k < |pieces| - 1 ==> Separable(pieces[k], sep)
    requires Free(pieces[|pieces| - 1], sep)
    ensures Split(Join(pieces, sep), sep) == pieces
  {
    if |pieces| == 1 {
      FindNone(pieces[0], sep);
    } else {
      SplitJoin(pieces[1..], sep);
      SplitAt(pieces[0], sep, Join(pieces[1..], sep));
      assert pieces == [pieces[0]] + pieces[1..];
    }
  }

  /** The elements of s that satisfy p, in order */
  function Keep<T>(p: T -> bool, s: seq<T>): (kept: seq<T>)
    ensures |kept| <= |s|
  {
    if s == [] then [] else (if p(s[0]) then [s[0]] else []) + Keep(p, s[1..])
  }

  /** What Keep keeps is exactly the elements that satisfy p. */
  lemma {:induction false} KeepMembers<T>(p: T -> bool, s: seq<T>)
    ensures forall x :: x in Keep(p, s) <==> x in s && p(x)
    decreases |s|
  {
    if s != [] {
      KeepMembers(p, s[1..]);
      assert s == [s[0]] + s[1..];
    }
  }

  /** When every element satisfies p, Keep keeps them all. */
  lemma {:induction false} KeepAll<T>(p: T -> bool, s: seq<T>)
    requires forall k :: 0 <= k < |s| ==> p(s[k])
    ensures Keep(p, s) == s
    decreases |s|
  {
    if s != [] {
      var tail := s[1..];
      forall k | 0 <= k < |tail| ensures p(tail[k]) {
        assert tail[k] == s[k + 1];
      }
      KeepAll(p, tail);
      assert [s[0]] + tail == s;
    }
  }

  /** Distinct elements: as many as the sequence is long. */
  lemma {:induction false} NoDupCard<T>(s: seq<T>)
    requires NoDup(s)
    ensures |set x | x in s| == |s|
  {
    if s != [] {
      var t := s[..|s| - 1];
      NoDupCard(t);
      assert (set x | x in s) == (set x | x in t) + {s[|s| - 1]};
      assert s[|s| - 1] !in t;
    }
  }

  /** Counting in a sequence without duplicates: each element once. */
  lemma {:induction false} NoDupCount<T>(s: seq<T>, x: T)
    requires NoDup(s)
    ensures multiset(s)[x] == if x in s then 1 else 0
  {
    if s != [] {
      var t := s[..|s| - 1];
      assert s == t + [s[|s| - 1]];
      NoDupCount(t, x);
    }
  }

  /** Two duplicate-free sequences with the same elements are permutations of each other. */
  lemma NoDupPermutation<T>(s: seq<T>, t: seq<T>)
    requires NoDup(s) && NoDup(t)
    requires forall x :: x in s <==> x in t
    ensures multiset(s) == multiset(t)
  {
    forall x ensures multiset(s)[x] == multiset(t)[x] {
      NoDupCount(s, x);
      NoDupCount(t, x);
    }
  }

  /** The pieces f gives for each element of s, one after another. */
  function Flatten<T, U>(f: T -> seq<U>, s: seq<T>): seq<U>
  {
    if s == [] then [] else Flatten(f, s[..|s| - 1]) + f(s[|s| - 1])
  }

  lemma {:induction false} FlattenConcat<T, U>(f: T -> seq<U>, a: seq<T>, b: seq<T>)
    ensures Flatten(f, a + b) == Flatten(f, a) + Flatten(f, b)
    decreases |b|
  {
    if b != [] {
      assert (a + b)[..|a + b| - 1] == a + b[..|b| - 1];
      FlattenConcat(f, a, b[..|b| - 1]);
    } else {
      assert a + b == a;
    }
  }

  lemma FlattenSingle<T, U>(f: T -> seq<U>, x: T)
    ensures Flatten(f, [x]) == f(x)
  {
    assert [x][..0] == [];
  }

  /** An element of the flattened sequence comes from the pieces of some element of s. */
  lemma {:induction false} FlattenMembers<T, U>(f: T -> seq<U>, s: seq<T>, y: U)
    ensures y in Flatten(f, s) <==> exists k :: 0 <= k < |s| && y in f(s[k])
    decreases |s|
  {
    if s != [] {
      var init := s[..|s| - 1];
      FlattenMembers(f, init, y);
      if y in Flatten(f, init) {
        var k :| 0 <= k < |init| && y in f(init[k]);
        assert init[k] == s[k];
      }
      if exists k :: 0 <= k < |s| && y in f(s[k]) {
        var k :| 0 <= k < |s| && y in f(s[k]);
        if k < |init| {
          assert s[k] == init[k];
        }
      }
    }
  }

  /** The element between a and b contributes its pieces between theirs. */
  lemma FlattenAround<T, U>(f: T -> seq<U>, a: seq<T>, x: T, b: seq<T>)
    ensures Flatten(f, a + [x] + b) == Flatten(f, a) + f(x) + Flatten(f, b)
  {
    FlattenConcat(f, a + [x], b);
    FlattenConcat(f, a, [x]);
    FlattenSingle(f, x);
  }

  /** The three parts and the last element of a + b + c + [x], found back by position */
  lemma ConcatParts<T>(a: seq<T>, b: seq<T>, c: seq<T>, x: T)
    ensures var s := a + b + c + [x];
      |s| == |a| + |b| + |c| + 1 && s[..|a|] == a && s[|a|..|a| + |b|] == b &&
      s[|a| + |b|..|s| - 1] == c && s[|s| - 1] == x
  {
    var s := a + b + c + [x];
    assert s[..|a|] == a;
    assert s[|a|..|a| + |b|] == b;
    assert s[|a| + |b|..|s| - 1] == c;
  }

  /** A sequence is what stands before position j, the element there, and what follows. */
  lemma Around<T>(s: seq<T>, j: int)
    requires 0 <= j < |s|
    ensures s == s[..j] + [s[j]] + s[j + 1..]
  {
  }

  /** Taking out the element at j takes one of it out of the multiset. */
  lemma MultisetWithout<T>(s: seq<T>, j: int)
    requires 0 <= j < |s|
    ensures multiset(s[..j] + s[j + 1..]) == multiset(s) - multiset{s[j]}
  {
    Around(s, j);
  }

  /** Moving the element at j to the end keeps the multiset of the flattening. */
  lemma FlattenMoveLast<T, U>(f: T -> seq<U>, a: seq<T>, j: int, init: seq<T>)
    requires 0 <= j < |a|
    requires multiset(Flatten(f, a[..j] + a[j + 1..])) == multiset(Flatten(f, init))
    ensures multiset(Flatten(f, a)) == multiset(Flatten(f, init + [a[j]]))
  {
    var x, pre, post := a[j], a[..j], a[j + 1..];
    Around(a, j);
    FlattenAround(f, pre, x, post);
    FlattenConcat(f, pre, post);
    FlattenConcat(f, init, [x]);
    FlattenSingle(f, x);
  }

  /** An element of the multiset stands at some index. */
  lemma IndexOf<T>(s: seq<T>, x: T) returns (j: int)
    requires x in multiset(s)
    ensures 0 <= j < |s| && s[j] == x
  {
    assert x in s;
    j :| 0 <= j < |s| && s[j] == x;
  }

  /** Dropping the last element takes one of it out of the multiset. */
  lemma MultisetInit<T>(s: seq<T>)
    requires s != []
    ensures multiset(s[..|s| - 1]) == multiset(s) - multiset{s[|s| - 1]}
    ensures s == s[..|s| - 1] + [s[|s| - 1]]
  {
    assert s == s[..|s| - 1] + [s[|s| - 1]];
  }

  /** Flattening a permutation gives a permutation of the pieces. */
  lemma {:induction false} FlattenPermutation<T, U>(f: T -> seq<U>, a: seq<T>, b: seq<T>)
    requires multiset(a) == multiset(b)
    ensures multiset(Flatten(f, a)) == multiset(Flatten(f, b))
    decreases |b|
  {
    if b == [] {
      assert |a| == |multiset(a)| == 0;
    } else {
      var init := b[..|b| - 1];
      MultisetInit(b);
      var j := IndexOf(a, b[|b| - 1]);
      MultisetWithout(a, j);
      FlattenPermutation(f, a[..j] + a[j + 1..], init);
      FlattenMoveLast(f, a, j, init);
    }
  }
}
