/** Sequence operations the game performs on its bullet and alien lists:
    removal at an index, JavaScript's `splice(i, 1)`, `filter`, and the
    subsequence relation used to say that survivors keep their order. */
module Sequences {

  /** The sequence without its element at index i. */
  function RemoveAt<T>(s: seq<T>, i: nat): (r: seq<T>)
    requires i < |s|
    ensures |r| == |s| - 1
    ensures forall k :: 0 <= k < i ==> r[k] == s[k]
    ensures forall k :: i <= k < |r| ==> r[k] == s[k + 1]
  {
    s[..i] + s[i + 1..]
  }

  /** `Array.prototype.splice(i, 1)` for an index that is never negative:
      an index at or past the end removes nothing. */
  function Splice<T>(s: seq<T>, i: nat): seq<T> {
    if i < |s| then RemoveAt(s, i) else s
  }

  /** f maps the positions of xs, in increasing order, to positions of ys holding the same elements. */
  ghost predicate Embeds<T>(f: seq<nat>, xs: seq<T>, ys: seq<T>) {
    && |f| == |xs|
    && (forall k :: 0 <= k < |f| ==> f[k] < |ys| && xs[k] == ys[f[k]])
    && (forall k, l :: 0 <= k < l < |f| ==> f[k] < f[l])
  }

  /** xs is ys with some elements deleted, the rest kept in their order. */
  ghost predicate IsSubseq<T>(xs: seq<T>, ys: seq<T>) {
    exists f :: Embeds(f, xs, ys)
  }

  lemma SubseqRefl<T>(s: seq<T>)
    ensures IsSubseq(s, s)
  {
    var f := seq(|s|, k requires 0 <= k => k as nat);
    assert Embeds(f, s, s);
  }

  lemma SubseqRemoveAt<T>(s: seq<T>, i: nat)
    requires i < |s|
    ensures IsSubseq(RemoveAt(s, i), s)
  {
    var f := seq(|s| - 1, k requires 0 <= k => if k < i then k as nat else (k + 1) as nat);
    assert Embeds(f, RemoveAt(s, i), s);
  }

  lemma SubseqSplice<T>(s: seq<T>, i: nat)
    ensures IsSubseq(Splice(s, i), s)
    ensures |Splice(s, i)| == if i < |s| then |s| - 1 else |s|
  {
    if i < |s| {
      SubseqRemoveAt(s, i);
    } else {
      SubseqRefl(s);
    }
  }

  lemma SubseqTrans<T>(xs: seq<T>, ys: seq<T>, zs: seq<T>)
    requires IsSubseq(xs, ys) && IsSubseq(ys, zs)
    ensures IsSubseq(xs, zs)
  {
    var f :| Embeds(f, xs, ys);
    var g :| Embeds(g, ys, zs);
    var h := seq(|f|, k requires 0 <= k < |f| => g[f[k]]);
    assert Embeds(h, xs, zs);
  }

  /** Everything in a subsequence is in the whole sequence. */
  lemma SubseqMembers<T>(xs: seq<T>, ys: seq<T>)
    requires IsSubseq(xs, ys)
    ensures forall x :: x in xs ==> x in ys
  {
    var f :| Embeds(f, xs, ys);
    forall x | x in xs
      ensures x in ys
    {
      var k :| 0 <= k < |xs| && xs[k] == x;
      assert ys[f[k]] == x;
    }
  }

  /** JavaScript's `filter`: the elements satisfying p, in their order. */
  function Filter<T>(s: seq<T>, p: T -> bool): (r: seq<T>)
    ensures |r| <= |s|
    ensures forall x :: x in r ==> x in s && p(x)
  {
    if s == [] then [] else (if p(s[0]) then [s[0]] else []) + Filter(s[1..], p)
  }

  /** The positions of s whose element satisfies p, in increasing order. */
  ghost function Picks<T>(s: seq<T>, p: T -> bool): (f: seq<nat>)
    ensures |f| == |Filter(s, p)|
  {
    if s == [] then [] else (if p(s[0]) then [0 as nat] else []) + Bumped(Picks(s[1..], p))
  }

  /** Every position moved one place right. */
  ghost function Bumped(f: seq<nat>): (g: seq<nat>)
    ensures |g| == |f| && forall k :: 0 <= k < |f| ==> g[k] == f[k] + 1
  {
    seq(|f|, k requires 0 <= k < |f| => f[k] + 1)
  }

  /** An embedding into the tail of ys, moved one place right, embeds into ys. */
  lemma EmbedsBumped<T>(f: seq<nat>, xs: seq<T>, ys: seq<T>)
    requires ys != [] && Embeds(f, xs, ys[1..])
    ensures Embeds(Bumped(f), xs, ys)
  {
    var g := Bumped(f);
    forall k | 0 <= k < |g|
      ensures g[k] < |ys| && xs[k] == ys[g[k]]
    {
      assert ys[1..][f[k]] == ys[g[k]];
    }
  }

  /** Keeping the head of ys as well extends such an embedding at the front. */
  lemma EmbedsCons<T>(f: seq<nat>, xs: seq<T>, ys: seq<T>)
    requires ys != [] && Embeds(f, xs, ys[1..])
    ensures Embeds([0 as nat] + Bumped(f), [ys[0]] + xs, ys)
  {
    EmbedsBumped(f, xs, ys);
    var g := [0 as nat] + Bumped(f);
    var zs := [ys[0]] + xs;
    forall k | 0 <= k < |g|
      ensures g[k] < |ys| && zs[k] == ys[g[k]]
    {
      if k > 0 {
        assert g[k] == Bumped(f)[k - 1] && zs[k] == xs[k - 1];
      }
    }
  }

  lemma {:induction false} PicksEmbed<T>(s: seq<T>, p: T -> bool)
    ensures Embeds(Picks(s, p), Filter(s, p), s)
  {
    if s != [] {
      PicksEmbed(s[1..], p);
      var tail := Filter(s[1..], p);
      if p(s[0]) {
        EmbedsCons(Picks(s[1..], p), tail, s);
        assert Filter(s, p) == [s[0]] + tail;
      } else {
        EmbedsBumped(Picks(s[1..], p), tail, s);
        assert Filter(s, p) == tail;
      }
    }
  }

  lemma {:induction false} PicksExact<T>(s: seq<T>, p: T -> bool)
    ensures forall i :: 0 <= i < |s| ==> (p(s[i]) <==> i in Picks(s, p))
  {
    if s != [] {
      PicksExact(s[1..], p);
      var f' := Picks(s[1..], p);
      var g := Bumped(f');
      assert Picks(s, p) == (if p(s[0]) then [0 as nat] else []) + g;
      forall i | 0 <= i < |s|
        ensures p(s[i]) <==> i in Picks(s, p)
      {
        if i > 0 {
          assert s[1..][i - 1] == s[i];
          if i in g {
            var k :| 0 <= k < |g| && g[k] == i;
            assert f'[k] == i - 1;
          }
          if i - 1 in f' {
            var k :| 0 <= k < |f'| && f'[k] == i - 1;
            assert g[k] == i;
          }
        } else {
          assert 0 !in g;
        }
      }
    }
  }

  /** The filtered sequence keeps exactly the positions whose element satisfies p,
      in their original order. */
  lemma FilterSelects<T>(s: seq<T>, p: T -> bool)
    ensures exists f :: Embeds(f, Filter(s, p), s) && forall i :: 0 <= i < |s| ==> (p(s[i]) <==> i in f)
  {
    PicksEmbed(s, p);
    PicksExact(s, p);
    assert Embeds(Picks(s, p), Filter(s, p), s);
  }

  /** A filtered sequence is a subsequence of the original. */
  lemma FilterIsSubseq<T>(s: seq<T>, p: T -> bool)
    ensures IsSubseq(Filter(s, p), s)
  {
    FilterSelects(s, p);
  }

  /** Filtering removes nothing when every element passes. */
  lemma {:induction false} FilterAll<T>(s: seq<T>, p: T -> bool)
    requires forall i :: 0 <= i < |s| ==> p(s[i])
    ensures Filter(s, p) == s
  {
    if s != [] {
      FilterAll(s[1..], p);
    }
  }
}
