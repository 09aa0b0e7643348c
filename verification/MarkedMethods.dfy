/** Which marks of a method count when several classes of a hierarchy have one. */
module MarkedMethods {
  /** A class by number, in the resolution order of its owner. */
  type Class = nat

  /** The marks under one name: which classes have one. */
  type Marks = Class -> bool

  type Below = (Class, Class) -> bool

  ghost predicate IsOrder(below: Below) {
    && (forall c: Class :: below(c, c))
    && (forall c: Class, d: Class :: below(c, d) && below(d, c) ==> c == d)
    && (forall c: Class, d: Class, e: Class :: below(c, d) && below(d, e) ==> below(c, e))
  }

  /** A resolution order lists every class once, and before the classes above it. */
  ghost predicate ListsSubclassesFirst(mro: seq<Class>, below: Below) {
    forall i, j | 0 <= i < j < |mro| :: !below(mro[j], mro[i])
  }

  predicate Covered(kept: seq<Class>, c: Class, below: Below) { exists k | 0 <= k < |kept| :: below(kept[k], c) }

  /** A marked class counts unless a nearer one that counts is below it. */
  function Counting(mro: seq<Class>, marks: Marks, below: Below): seq<Class> {
    if mro == [] then []
    else
      var kept, c := Counting(mro[..|mro| - 1], marks, below), mro[|mro| - 1];
      if marks(c) && !Covered(kept, c, below) then kept + [c] else kept
  }

  /** `_rpc_members` for one name. */
  method MarkedClasses(mro: seq<Class>, marks: Marks, below: Below) returns (marked: seq<Class>)
    ensures marked == Counting(mro, marks, below)
  {
    marked := [];
    for i := 0 to |mro|
      invariant marked == Counting(mro[..i], marks, below)
    {
      assert mro[..i + 1][..i] == mro[..i];
      if !marks(mro[i]) {
        continue;
      }
      var covered := false;
      for k := 0 to |marked|
        invariant covered <==> exists j | 0 <= j < k :: below(marked[j], mro[i])
      {
        covered := covered || below(marked[k], mro[i]);
      }
      if !covered {
        marked := marked + [mro[i]];
      }
    }
    assert mro[..|mro|] == mro;
  }

  /** No other marked class of the order is below `c`. */
  ghost predicate Minimal(mro: seq<Class>, marks: Marks, below: Below, c: Class) {
    marks(c) && forall d | d in mro && marks(d) && below(d, c) :: d == c
  }

  /** The minimal marked classes, in the resolution order. */
  ghost function MinimalOf(mro: seq<Class>, marks: Marks, below: Below, among: seq<Class>): seq<Class> {
    if mro == [] then []
    else
      var before, c := MinimalOf(mro[..|mro| - 1], marks, below, among), mro[|mro| - 1];
      if Minimal(among, marks, below, c) then before + [c] else before
  }

  lemma {:induction false} CountingAreMarked(mro: seq<Class>, marks: Marks, below: Below, c: Class)
    requires c in Counting(mro, marks, below)
    ensures c in mro && marks(c)
  {
    var kept := Counting(mro[..|mro| - 1], marks, below);
    if c in kept {
      CountingAreMarked(mro[..|mro| - 1], marks, below, c);
    } else {
      assert c == mro[|mro| - 1];
    }
  }

  /** Every marked class is above one that counts. */
  lemma {:induction false} CountingCover(mro: seq<Class>, marks: Marks, below: Below, c: Class)
    requires IsOrder(below) && c in mro && marks(c)
    ensures Covered(Counting(mro, marks, below), c, below)
  {
    var front, last := mro[..|mro| - 1], mro[|mro| - 1];
    var kept, all := Counting(front, marks, below), Counting(mro, marks, below);
    if c in front {
      CountingCover(front, marks, below, c);
      var k :| 0 <= k < |kept| && below(kept[k], c);
      assert all[k] == kept[k];
    } else {
      assert c == last;
      if Covered(kept, c, below) {
        var k :| 0 <= k < |kept| && below(kept[k], c);
        assert all[k] == kept[k];
      } else {
        assert all[|kept|] == c;
      }
    }
  }

  /** A prefix of the resolution order already decides about its last class. */
  lemma CountsIfMinimal(mro: seq<Class>, n: nat, marks: Marks, below: Below)
    requires IsOrder(below) && ListsSubclassesFirst(mro, below) && n < |mro|
    ensures Minimal(mro, marks, below, mro[n]) <==> marks(mro[n]) && !Covered(Counting(mro[..n], marks, below), mro[n], below)
  {
    var c, kept := mro[n], Counting(mro[..n], marks, below);
    if k :| 0 <= k < |kept| && below(kept[k], c) {
      CountingAreMarked(mro[..n], marks, below, kept[k]);
      var i :| 0 <= i < n && mro[..n][i] == kept[k];
      assert mro[i] == kept[k] && mro[i] in mro;
      assert !below(mro[n], mro[i]);
    }
    if d :| d in mro && marks(d) && below(d, c) && d != c {
      var i :| 0 <= i < |mro| && mro[i] == d;
      assert i < n;
      assert mro[..n][i] == d;
      CountingCover(mro[..n], marks, below, d);
      var k :| 0 <= k < |kept| && below(kept[k], d);
      assert below(kept[k], c);
    }
  }

  lemma {:induction false} PrefixCounts(mro: seq<Class>, n: nat, marks: Marks, below: Below)
    requires IsOrder(below) && ListsSubclassesFirst(mro, below) && n <= |mro|
    ensures Counting(mro[..n], marks, below) == MinimalOf(mro[..n], marks, below, mro)
  {
    if n > 0 {
      assert mro[..n][..n - 1] == mro[..n - 1];
      PrefixCounts(mro, n - 1, marks, below);
      CountsIfMinimal(mro, n - 1, marks, below);
    }
  }

  /** The marks that count are exactly those of the minimal marked classes, in the resolution order. */
  lemma CountingIsMinimal(mro: seq<Class>, marks: Marks, below: Below)
    requires IsOrder(below) && ListsSubclassesFirst(mro, below)
    ensures Counting(mro, marks, below) == MinimalOf(mro, marks, below, mro)
  {
    assert mro[..|mro|] == mro;
    PrefixCounts(mro, |mro|, marks, below);
  }

  /** So the classes that count are pairwise incomparable, and they are all of the minimal ones. */
  lemma CountingIsAntichain(mro: seq<Class>, marks: Marks, below: Below, c: Class, d: Class)
    requires IsOrder(below) && ListsSubclassesFirst(mro, below)
    ensures c in Counting(mro, marks, below) <==> c in mro && Minimal(mro, marks, below, c)
    ensures c in Counting(mro, marks, below) && d in Counting(mro, marks, below) && below(c, d) ==> c == d
  {
    CountingIsMinimal(mro, marks, below);
    MinimalOfExactly(mro, marks, below, mro, c);
    MinimalOfExactly(mro, marks, below, mro, d);
  }

  lemma {:induction false} MinimalOfExactly(mro: seq<Class>, marks: Marks, below: Below, among: seq<Class>, c: Class)
    ensures c in MinimalOf(mro, marks, below, among) <==> c in mro && Minimal(among, marks, below, c)
  {
    if mro != [] {
      MinimalOfExactly(mro[..|mro| - 1], marks, below, among, c);
      assert mro == mro[..|mro| - 1] + [mro[|mro| - 1]];
    }
  }

  /** An order that lists a class after one above it keeps a mark that is overridden. */
  lemma OverriddenMarkKept(marks: Marks, below: Below)
    requires marks(0) && marks(1) && below(1, 0) && !below(0, 1)
    ensures Counting([0, 1], marks, below) == [0, 1] && !Minimal([0, 1], marks, below, 0)
  {
    assert [0, 1][..1] == [0] && [0][..0] == [];
    assert Counting([0], marks, below) == [0];
    assert 1 in [0, 1];
  }

  // ---- All names, and what `remote` sends ----

  function Tagged(name: string, cs: seq<Class>): seq<(string, Class)> {
    if cs == [] then [] else Tagged(name, cs[..|cs| - 1]) + [(name, cs[|cs| - 1])]
  }

  /** `_rpc_members` */
  function Members(names: seq<string>, mro: seq<Class>, marksOf: string -> Marks, below: Below): seq<(string, Class)> {
    if names == [] then []
    else
      var name := names[|names| - 1];
      Members(names[..|names| - 1], mro, marksOf, below) + Tagged(name, Counting(mro, marksOf(name), below))
  }

  /** The first mark of every name. */
  function FirstOf(members: seq<(string, Class)>): map<string, Class> {
    if members == [] then map[]
    else
      var before, last := FirstOf(members[..|members| - 1]), members[|members| - 1];
      if last.0 in before then before else before[last.0 := last.1]
  }

  /** The loop of `_remote_class`. */
  method RemoteMembers(members: seq<(string, Class)>) returns (remote: map<string, Class>)
    ensures remote == FirstOf(members)
  {
    remote := map[];
    for i := 0 to |members|
      invariant remote == FirstOf(members[..i])
    {
      assert members[..i + 1][..i] == members[..i];
      if members[i].0 !in remote {
        remote := remote[members[i].0 := members[i].1];
      }
    }
    assert members[..|members|] == members;
  }

  lemma {:induction false} FirstOfConcat(a: seq<(string, Class)>, b: seq<(string, Class)>, n: string)
    ensures n in FirstOf(a + b) <==> n in FirstOf(a) || n in FirstOf(b)
    ensures n in FirstOf(a) ==> FirstOf(a + b)[n] == FirstOf(a)[n]
    ensures n !in FirstOf(a) && n in FirstOf(b) ==> FirstOf(a + b)[n] == FirstOf(b)[n]
  {
    if b == [] {
      assert a + b == a;
    } else {
      var front, last := b[..|b| - 1], b[|b| - 1];
      assert (a + b)[..|a + b| - 1] == a + front;
      FirstOfConcat(a, front, n);
      FirstOfConcat(a, front, last.0);
    }
  }

  lemma {:induction false} FirstOfTagged(name: string, cs: seq<Class>)
    ensures FirstOf(Tagged(name, cs)) == if cs == [] then map[] else map[name := cs[0]]
  {
    if cs != [] {
      FirstOfTagged(name, cs[..|cs| - 1]);
      assert Tagged(name, cs)[..|Tagged(name, cs)| - 1] == Tagged(name, cs[..|cs| - 1]);
    }
  }

  /** The first class that counts is the first marked one. */
  lemma {:induction false} NearestCountsFirst(mro: seq<Class>, marks: Marks, below: Below, n: nat)
    requires n < |mro| && marks(mro[n]) && forall m | 0 <= m < n :: !marks(mro[m])
    ensures Counting(mro, marks, below) != [] && Counting(mro, marks, below)[0] == mro[n]
  {
    var front := mro[..|mro| - 1];
    if n < |front| {
      NearestCountsFirst(front, marks, below, n);
    } else {
      NothingCounts(front, marks, below);
    }
  }

  lemma {:induction false} NothingCounts(mro: seq<Class>, marks: Marks, below: Below)
    requires forall c | c in mro :: !marks(c)
    ensures Counting(mro, marks, below) == []
  {
    if mro != [] {
      NothingCounts(mro[..|mro| - 1], marks, below);
    }
  }

  lemma {:induction false} RemoteIsFirstCounting(names: seq<string>, mro: seq<Class>, marksOf: string -> Marks, below: Below, name: string)
    ensures var remote, counting := FirstOf(Members(names, mro, marksOf, below)), Counting(mro, marksOf(name), below);
      && (name in remote <==> name in names && counting != [])
      && (name in remote ==> remote[name] == counting[0])
  {
    if names != [] {
      var front, last := names[..|names| - 1], names[|names| - 1];
      assert names == front + [last];
      RemoteIsFirstCounting(front, mro, marksOf, below, name);
      var cs := Counting(mro, marksOf(last), below);
      FirstOfTagged(last, cs);
      FirstOfConcat(Members(front, mro, marksOf, below), Tagged(last, cs), name);
    }
  }

  /** What `remote` sends under a name is what the nearest marked class says; without a mark it sends nothing. */
  lemma RemoteSendsTheNearest(names: seq<string>, mro: seq<Class>, marksOf: string -> Marks, below: Below, name: string, n: nat)
    requires n <= |mro| && forall m | 0 <= m < n :: !marksOf(name)(mro[m])
    requires n < |mro| ==> marksOf(name)(mro[n])
    ensures var remote := FirstOf(Members(names, mro, marksOf, below));
      && (name in remote <==> name in names && n < |mro|)
      && (name in remote ==> remote[name] == mro[n])
  {
    RemoteIsFirstCounting(names, mro, marksOf, below, name);
    if n < |mro| {
      NearestCountsFirst(mro, marksOf(name), below, n);
    } else {
      NothingCounts(mro, marksOf(name), below);
    }
  }
}
