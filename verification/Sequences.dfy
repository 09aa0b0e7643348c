/** Sequences put together piece by piece. */
module Sequences {
  /** The pieces that `f` gives for the elements of `s`, in order. */
  function FlatMap<A, B>(f: A -> seq<B>, s: seq<A>): seq<B> {
    if s == [] then [] else FlatMap(f, s[..|s| - 1]) + f(s[|s| - 1])
  }

  lemma {:induction false} FlatMapConcat<A, B>(f: A -> seq<B>, a: seq<A>, b: seq<A>)
    ensures FlatMap(f, a + b) == FlatMap(f, a) + FlatMap(f, b)
  {
    if b == [] {
      assert a + b == a;
    } else {
      assert (a + b)[..|a + b| - 1] == a + b[..|b| - 1];
      FlatMapConcat(f, a, b[..|b| - 1]);
    }
  }

  lemma FlatMapSingle<A, B>(f: A -> seq<B>, x: A)
    ensures FlatMap(f, [x]) == f(x)
  {
    assert [x][..0] == [];
  }

  lemma FlatMapAppend<A, B>(f: A -> seq<B>, s: seq<A>, x: A)
    ensures FlatMap(f, s + [x]) == FlatMap(f, s) + f(x)
  {
    FlatMapConcat(f, s, [x]);
    FlatMapSingle(f, x);
  }

  /** One element taken out takes out its piece. */
  lemma FlatMapWithout<A, B>(f: A -> seq<B>, a: seq<A>, x: A, b: seq<A>)
    ensures multiset(FlatMap(f, a + [x] + b)) == multiset(FlatMap(f, a + b)) + multiset(f(x))
  {
    FlatMapConcat(f, a + [x], b);
    FlatMapAppend(f, a, x);
    FlatMapConcat(f, a, b);
  }

  lemma SplitAt<A>(t: seq<A>, x: A) returns (a: seq<A>, b: seq<A>)
    requires x in multiset(t)
    ensures t == a + [x] + b && multiset(a + b) == multiset(t) - multiset{x}
  {
    var i :| 0 <= i < |t| && t[i] == x;
    a, b := t[..i], t[i + 1..];
    assert t == a + [x] + b;
  }

  /** Permuting the elements permutes what comes out. */
  lemma {:induction false} FlatMapPermuted<A, B>(f: A -> seq<B>, s: seq<A>, t: seq<A>)
    requires multiset(s) == multiset(t)
    ensures multiset(FlatMap(f, s)) == multiset(FlatMap(f, t))
  {
    if s == [] {
      assert |multiset(t)| == 0;
    } else {
      var front, x := s[..|s| - 1], s[|s| - 1];
      assert s == front + [x];
      var a, b := SplitAt(t, x);
      FlatMapPermuted(f, front, a + b);
      FlatMapWithout(f, a, x, b);
    }
  }

  lemma SameFew<A>(a: seq<A>, b: seq<A>)
    requires multiset(a) == multiset(b)
    ensures |a| == |b|
    ensures |a| <= 1 ==> a == b
  {
    assert |multiset(a)| == |a| && |multiset(b)| == |b|;
    if |a| == 1 {
      assert a[0] in multiset(a) && b[0] in multiset(b);
      assert a == [a[0]] && b == [b[0]];
    }
  }

  /** One piece is all there is if all other pieces are empty. */
  lemma {:induction false} FlatMapOnly<A, B>(f: A -> seq<B>, s: seq<A>, i: nat)
    requires i < |s| && forall j | 0 <= j < |s| && j != i :: f(s[j]) == []
    ensures FlatMap(f, s) == f(s[i])
  {
    var front := s[..|s| - 1];
    if i < |front| {
      FlatMapOnly(f, front, i);
    } else {
      FlatMapNothing(f, front);
    }
  }

  lemma {:induction false} FlatMapNothing<A, B>(f: A -> seq<B>, s: seq<A>)
    requires forall j | 0 <= j < |s| :: f(s[j]) == []
    ensures FlatMap(f, s) == []
  {
    if s != [] {
      FlatMapNothing(f, s[..|s| - 1]);
    }
  }

  lemma {:induction false} FlatMapAtLeast<A, B>(f: A -> seq<B>, s: seq<A>, i: nat)
    requires i < |s|
    ensures |FlatMap(f, s)| >= |f(s[i])|
  {
    if i < |s| - 1 {
      FlatMapAtLeast(f, s[..|s| - 1], i);
    }
  }

  lemma {:induction false} FlatMapTwo<A, B>(f: A -> seq<B>, s: seq<A>, i: nat, j: nat)
    requires i < j < |s|
    ensures |FlatMap(f, s)| >= |f(s[i])| + |f(s[j])|
  {
    if j < |s| - 1 {
      FlatMapTwo(f, s[..|s| - 1], i, j);
    } else {
      FlatMapAtLeast(f, s[..|s| - 1], i);
    }
  }

  lemma {:induction false} FlatMapFrom<A, B>(f: A -> seq<B>, s: seq<A>, y: B) returns (i: nat)
    requires y in FlatMap(f, s)
    ensures i < |s| && y in f(s[i])
  {
    var front := s[..|s| - 1];
    if y in FlatMap(f, front) {
      i := FlatMapFrom(f, front, y);
    } else {
      i := |s| - 1;
    }
  }

  /** An element that nothing but piece `i` can give comes out alone exactly if that piece is all there is. */
  lemma FlatMapIsOne<A, B>(f: A -> seq<B>, s: seq<A>, i: nat, y: B)
    requires i < |s| && forall k | 0 <= k < |s| && y in f(s[k]) :: f(s[i]) == [y]
    ensures FlatMap(f, s) == [y] <==> f(s[i]) == [y] && forall j | 0 <= j < |s| && j != i :: f(s[j]) == []
  {
    if FlatMap(f, s) == [y] {
      var k := FlatMapFrom(f, s, y);
      forall j | 0 <= j < |s| && j != i ensures f(s[j]) == [] {
        if j < i { FlatMapTwo(f, s, j, i); } else { FlatMapTwo(f, s, i, j); }
      }
    } else if forall j | 0 <= j < |s| && j != i :: f(s[j]) == [] {
      FlatMapOnly(f, s, i);
    }
  }
}
