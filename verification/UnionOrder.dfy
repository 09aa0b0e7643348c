/** What the order of the types of a union decides, and what it does not. */
module UnionOrder {
  import opened JsonTypes
  import opened Options
  import opened Sequences
  import opened Decoder
  import opened RoundTrips

  lemma {:induction false} MostSharedIsMaximum(ct: ClassTable, m: map<string, Json>, ts: seq<Type>, known: bool)
    ensures forall t | t in ts && Eligible(ct, m, t, known) :: SharedKeys(ct, m, t.name) <= MostShared(ct, m, ts, known)
    ensures var most := MostShared(ct, m, ts, known);
            most == -1 || exists t | t in ts && Eligible(ct, m, t, known) :: SharedKeys(ct, m, t.name) == most
  {
    if ts != [] {
      var front, last := ts[..|ts| - 1], ts[|ts| - 1];
      MostSharedIsMaximum(ct, m, front, known);
      assert forall t :: t in ts <==> t in front || t == last;
    }
  }

  lemma {:induction false} WithSharedMembers(ct: ClassTable, m: map<string, Json>, ts: seq<Type>, known: bool, n: int, c: string)
    ensures c in WithShared(ct, m, ts, known, n) <==>
      ClassT(c) in ts && Eligible(ct, m, ClassT(c), known) && SharedKeys(ct, m, c) == n
  {
    if ts != [] {
      var front, last := ts[..|ts| - 1], ts[|ts| - 1];
      WithSharedMembers(ct, m, front, known, n, c);
      assert forall t :: t in ts <==> t in front || t == last;
    }
  }

  /** The second pass keeps exactly the eligible classes that share the most keys with the object. */
  lemma BestClassesShareMost(ct: ClassTable, m: map<string, Json>, ts: seq<Type>, known: bool, c: string)
    ensures c in BestClasses(ct, m, ts, known) <==>
      && ClassT(c) in ts && Eligible(ct, m, ClassT(c), known)
      && forall t | t in ts && Eligible(ct, m, t, known) :: SharedKeys(ct, m, t.name) <= SharedKeys(ct, m, c)
  {
    MostSharedIsMaximum(ct, m, ts, known);
    WithSharedMembers(ct, m, ts, known, MostShared(ct, m, ts, known), c);
  }

  /** The object that a type gives if it is a class with `n` shared keys. */
  function FilledOne(ct: ClassTable, v: Json, known: bool, n: int, strict: bool, t: Type): seq<Value>
    requires v.Obj?
  {
    if Eligible(ct, v.members, t, known) && SharedKeys(ct, v.members, t.name) == n then
      CreateAll(ct, v, [t.name], strict)
    else []
  }

  function Filled(ct: ClassTable, v: Json, known: bool, n: int, strict: bool): Type -> seq<Value>
    requires v.Obj?
  {
    t => FilledOne(ct, v, known, n, strict, t)
  }

  lemma CreateAllAppend(ct: ClassTable, v: Json, cs: seq<string>, c: string, strict: bool)
    requires v.Obj?
    ensures CreateAll(ct, v, cs + [c], strict) == CreateAll(ct, v, cs, strict) + CreateAll(ct, v, [c], strict)
  {
    assert (cs + [c])[..|cs|] == cs && [c][..0] == [];
  }

  lemma {:induction false} CreateAllFlat(ct: ClassTable, v: Json, ts: seq<Type>, known: bool, n: int, strict: bool)
    requires v.Obj?
    ensures CreateAll(ct, v, WithShared(ct, v.members, ts, known, n), strict) == FlatMap(Filled(ct, v, known, n, strict), ts)
  {
    if ts != [] {
      var front, t := ts[..|ts| - 1], ts[|ts| - 1];
      CreateAllFlat(ct, v, front, known, n, strict);
      var before := WithShared(ct, v.members, front, known, n);
      var f := Filled(ct, v, known, n, strict);
      assert FlatMap(f, ts) == FlatMap(f, front) + FilledOne(ct, v, known, n, strict, t);
      if Eligible(ct, v.members, t, known) && SharedKeys(ct, v.members, t.name) == n {
        CreateAllAppend(ct, v, before, t.name, strict);
      }
    }
  }

  lemma SameMostShared(ct: ClassTable, m: map<string, Json>, ts: seq<Type>, us: seq<Type>, known: bool)
    requires multiset(ts) == multiset(us)
    ensures MostShared(ct, m, ts, known) == MostShared(ct, m, us, known)
  {
    assert forall t :: t in ts <==> t in multiset(ts);
    assert forall t :: t in us <==> t in multiset(us);
    MostSharedIsMaximum(ct, m, ts, known);
    MostSharedIsMaximum(ct, m, us, known);
    MostSharedAtLeast(ct, m, ts, known);
    MostSharedAtLeast(ct, m, us, known);
  }

  lemma {:induction false} MostSharedAtLeast(ct: ClassTable, m: map<string, Json>, ts: seq<Type>, known: bool)
    ensures MostShared(ct, m, ts, known) >= -1
  {
    if ts != [] { MostSharedAtLeast(ct, m, ts[..|ts| - 1], known); }
  }

  lemma SameCreated(ct: ClassTable, v: Json, ts: seq<Type>, us: seq<Type>, known: bool, strict: bool)
    requires v.Obj? && multiset(ts) == multiset(us)
    ensures var a := CreateAll(ct, v, BestClasses(ct, v.members, ts, known), strict);
            var b := CreateAll(ct, v, BestClasses(ct, v.members, us, known), strict);
            |a| == |b| && (|a| == 1 ==> a[0] == b[0])
  {
    SameMostShared(ct, v.members, ts, us, known);
    var n := MostShared(ct, v.members, ts, known);
    CreateAllFlat(ct, v, ts, known, n, strict);
    CreateAllFlat(ct, v, us, known, n, strict);
    FlatMapPermuted(Filled(ct, v, known, n, strict), ts, us);
    SameFew(FlatMap(Filled(ct, v, known, n, strict), ts), FlatMap(Filled(ct, v, known, n, strict), us));
  }

  /** Class `t` gives an object if it has `n` shared keys and can be filled. */
  ghost predicate Gives(ct: ClassTable, v: Json, known: bool, n: int, strict: bool, t: Type)
    requires v.Obj?
  {
    Eligible(ct, v.members, t, known) && SharedKeys(ct, v.members, t.name) == n && Create(ct, v, t.name, strict).Some?
  }

  lemma CreatedName(ct: ClassTable, v: Json, c: string, strict: bool)
    requires v.Obj? && Create(ct, v, c, strict).Some?
    ensures var x := Create(ct, v, c, strict).value; x.ObjectV? && x.name == c
  {
  }

  lemma CreateAllOne(ct: ClassTable, v: Json, c: string, strict: bool)
    requires v.Obj?
    ensures CreateAll(ct, v, [c], strict) == if Create(ct, v, c, strict).Some? then [Create(ct, v, c, strict).value] else []
  {
    assert [c][..0] == [];
    assert CreateAll(ct, v, [], strict) == [];
  }

  lemma FilledExactlyIf(ct: ClassTable, v: Json, known: bool, n: int, strict: bool, t: Type)
    requires v.Obj?
    ensures Filled(ct, v, known, n, strict)(t) ==
      if Gives(ct, v, known, n, strict, t) then [Create(ct, v, t.name, strict).value] else []
  {
    if t.ClassT? { CreateAllOne(ct, v, t.name, strict); }
  }

  /** The most shared keys are those of a given class exactly if no eligible class shares more. */
  lemma MostSharedExactlyIf(ct: ClassTable, m: map<string, Json>, ts: seq<Type>, t: Type, known: bool)
    requires t in ts && Eligible(ct, m, t, known)
    ensures MostShared(ct, m, ts, known) == SharedKeys(ct, m, t.name) <==>
      forall u | u in ts && Eligible(ct, m, u, known) :: SharedKeys(ct, m, u.name) <= SharedKeys(ct, m, t.name)
  {
    MostSharedIsMaximum(ct, m, ts, known);
  }

  /** Exactly one object is created, and it is that of `ts[i]`, exactly if that class gives one and no other type does. */
  lemma CreatedExactlyIf(ct: ClassTable, v: Json, ts: seq<Type>, i: nat, known: bool, n: int, strict: bool)
    requires v.Obj? && i < |ts| && ts[i].ClassT? && Create(ct, v, ts[i].name, strict).Some?
    ensures CreateAll(ct, v, WithShared(ct, v.members, ts, known, n), strict) == [Create(ct, v, ts[i].name, strict).value] <==>
      Gives(ct, v, known, n, strict, ts[i]) && forall j | 0 <= j < |ts| && j != i :: !Gives(ct, v, known, n, strict, ts[j])
  {
    var f, x := Filled(ct, v, known, n, strict), Create(ct, v, ts[i].name, strict).value;
    CreateAllFlat(ct, v, ts, known, n, strict);
    forall k | 0 <= k < |ts| ensures x in f(ts[k]) ==> f(ts[i]) == [x] {
      OneTypeGives(ct, v, known, n, strict, ts[i], ts[k]);
    }
    FlatMapIsOne(f, ts, i, x);
    forall j | 0 <= j < |ts| ensures f(ts[j]) == [] <==> !Gives(ct, v, known, n, strict, ts[j]) {
      FilledExactlyIf(ct, v, known, n, strict, ts[j]);
    }
    FilledExactlyIf(ct, v, known, n, strict, ts[i]);
  }

  /** What `t` is filled with can come from `t` only. */
  lemma OneTypeGives(ct: ClassTable, v: Json, known: bool, n: int, strict: bool, t: Type, u: Type)
    requires v.Obj? && t.ClassT? && Create(ct, v, t.name, strict).Some?
    ensures var (f, x) := (Filled(ct, v, known, n, strict), Create(ct, v, t.name, strict).value);
      x in f(u) ==> f(t) == [x]
  {
    FilledExactlyIf(ct, v, known, n, strict, t);
    FilledExactlyIf(ct, v, known, n, strict, u);
    CreatedName(ct, v, t.name, strict);
    if Gives(ct, v, known, n, strict, u) { CreatedName(ct, v, u.name, strict); }
  }

  /** Without a type that takes the value in the first pass, a class comes out exactly if the second pass creates it alone. */
  lemma ComesOutExactlyIf(ct: ClassTable, v: Json, ts: seq<Type>, x: Value, strict: bool)
    requires v.Obj? && ts != [] && forall t | t in ts :: t.ClassT?
    ensures Decode(ct, v, ts, strict) == Ok(x) <==> CreateAll(ct, v, BestClasses(ct, v.members, ts, strict), strict) == [x]
  {
    ClassesTakeNothing(ct, v, ts, 0, strict);
  }

  /** No other eligible class of the union shares more keys than `ts[i]`, and none with equally many can be filled too. */
  ghost predicate Prevails(ct: ClassTable, v: Json, ts: seq<Type>, i: nat, known: bool, strict: bool)
    requires v.Obj? && i < |ts| && ts[i].ClassT? && ts[i].name in ct
  {
    var own := SharedKeys(ct, v.members, ts[i].name);
    forall j | 0 <= j < |ts| && j != i && Eligible(ct, v.members, ts[j], known) ::
      var other := SharedKeys(ct, v.members, ts[j].name);
      other < own || (other == own && Create(ct, v, ts[j].name, strict).None?)
  }

  /** The second pass creates the object of a class that can be filled, and no other one, exactly if that class prevails. */
  lemma CreatedAloneExactlyIf(ct: ClassTable, v: Json, ts: seq<Type>, i: nat, known: bool, strict: bool)
    requires v.Obj? && i < |ts| && Eligible(ct, v.members, ts[i], known) && Create(ct, v, ts[i].name, strict).Some?
    ensures CreateAll(ct, v, BestClasses(ct, v.members, ts, known), strict) == [Create(ct, v, ts[i].name, strict).value] <==>
      Prevails(ct, v, ts, i, known, strict)
  {
    CreatedExactlyIf(ct, v, ts, i, known, MostShared(ct, v.members, ts, known), strict);
    MostSharedExactlyIf(ct, v.members, ts, ts[i], known);
  }

  /** In a union of classes, an object comes out as a class that can be filled from it exactly if that class prevails. */
  lemma ClassComesOutExactlyIf(ct: ClassTable, v: Json, ts: seq<Type>, i: nat, strict: bool)
    requires v.Obj? && i < |ts| && forall t | t in ts :: t.ClassT?
    requires Eligible(ct, v.members, ts[i], strict) && Create(ct, v, ts[i].name, strict).Some?
    ensures Decode(ct, v, ts, strict) == Ok(Create(ct, v, ts[i].name, strict).value) <==> Prevails(ct, v, ts, i, strict, strict)
  {
    ComesOutExactlyIf(ct, v, ts, Create(ct, v, ts[i].name, strict).value, strict);
    CreatedAloneExactlyIf(ct, v, ts, i, strict, strict);
  }

  /** Whatever the second pass creates comes from one of the types. */
  lemma CreatedFrom(ct: ClassTable, v: Json, ts: seq<Type>, known: bool, strict: bool, x: Value) returns (i: nat)
    requires v.Obj? && x in CreateAll(ct, v, BestClasses(ct, v.members, ts, known), strict)
    ensures i < |ts| && Eligible(ct, v.members, ts[i], known) && Create(ct, v, ts[i].name, strict) == Some(x)
  {
    var n := MostShared(ct, v.members, ts, known);
    CreateAllFlat(ct, v, ts, known, n, strict);
    i := FlatMapFrom(Filled(ct, v, known, n, strict), ts, x);
    FilledExactlyIf(ct, v, known, n, strict, ts[i]);
  }

  lemma WrittenIsEligible(ct: ClassTable, x: Value, c: string, strict: bool)
    requires TableUnambiguous(ct) && Inhabits(ct, x, ClassT(c))
    ensures c in ct && Encode(ct, x).Obj? && Eligible(ct, Encode(ct, x).members, ClassT(c), strict)
  {
    FieldsComeBack(ct, c, x.fields);
  }

  /** So what was written for a class comes back from a union of classes exactly if the class prevails. */
  lemma WrittenClassComesBackExactlyIf(ct: ClassTable, x: Value, ts: seq<Type>, i: nat, strict: bool)
    requires TableUnambiguous(ct) && i < |ts| && (forall t | t in ts :: t.ClassT?) && Inhabits(ct, x, ts[i])
    ensures Encode(ct, x).Obj? && ts[i].name in ct
    ensures Decode(ct, Encode(ct, x), ts, strict) == Ok(Restored(ct, x)) <==> Prevails(ct, Encode(ct, x), ts, i, strict, strict)
  {
    var c := ts[i].name;
    assert ts[i] == ClassT(c);
    WrittenIsEligible(ct, x, c, strict);
    CreateInvertsEncode(ct, x, c, strict);
    ClassComesOutExactlyIf(ct, Encode(ct, x), ts, i, strict);
  }

  // ---- The order of all types ----

  /** What comes out does not depend on the order of the types. */
  ghost predicate IgnoresOrder(ct: ClassTable, v: Json, ts: seq<Type>, strict: bool) {
    forall us: seq<Type> | multiset(us) == multiset(ts) :: Decode(ct, v, us, strict) == Decode(ct, v, ts, strict)
  }

  predicate Takes(ct: ClassTable, v: Json, t: Type, strict: bool) { Handle(ct, v, t, strict).Fits? }

  /** How the first pass over `n` types ends if `t` is the first one that takes the value. */
  function EndWith(ct: ClassTable, v: Json, t: Type, n: nat, strict: bool): Scanned
    requires Takes(ct, v, t, strict)
  {
    var x := Handle(ct, v, t, strict).value;
    if t.DictT? && n > 1 then Mapped(x) else Returned(x)
  }

  /** What then comes out: the value as `t` takes it, or for a dict type the class that the second pass finds. */
  function ResultWith(ct: ClassTable, v: Json, ts: seq<Type>, t: Type, strict: bool): Decoded
    requires Takes(ct, v, t, strict)
  {
    AfterScan(ct, v, ts, EndWith(ct, v, t, |ts|, strict), strict)
  }

  /** All types that take the value lead to the same result. */
  ghost predicate Agree(ct: ClassTable, v: Json, ts: seq<Type>, strict: bool) {
    forall s, t | s in ts && t in ts && Takes(ct, v, s, strict) && Takes(ct, v, t, strict) ::
      ResultWith(ct, v, ts, s, strict) == ResultWith(ct, v, ts, t, strict)
  }

  /** The second pass never depends on the order. */
  lemma AfterScanPermuted(ct: ClassTable, v: Json, ts: seq<Type>, us: seq<Type>, scan: Scanned, strict: bool)
    requires multiset(ts) == multiset(us)
    ensures AfterScan(ct, v, ts, scan, strict) == AfterScan(ct, v, us, scan, strict)
  {
    if v.Obj? {
      SameCreated(ct, v, ts, us, strict || scan.Mapped?, strict);
    }
  }

  lemma {:induction false} FirstThatTakes(ct: ClassTable, v: Json, ts: seq<Type>, i: nat, strict: bool)
    requires i <= |ts|
    ensures var s := Scan(ct, v, ts, i, strict);
      if s.Exhausted? then forall j | i <= j < |ts| :: !Takes(ct, v, ts[j], strict)
      else exists t | t in ts :: Takes(ct, v, t, strict) && s == EndWith(ct, v, t, |ts|, strict)
    decreases |ts| - i
  {
    if i < |ts| {
      FirstThatTakes(ct, v, ts, i + 1, strict);
      if Takes(ct, v, ts[i], strict) {
        assert Scan(ct, v, ts, i, strict) == EndWith(ct, v, ts[i], |ts|, strict);
      }
    }
  }

  /** Whatever order they are in, the result is the one of some type that takes the value, if there is one. */
  lemma ResultOfSome(ct: ClassTable, v: Json, ts: seq<Type>, us: seq<Type>, strict: bool)
    requires multiset(ts) == multiset(us) && ts != []
    ensures
      if forall t | t in ts :: !Takes(ct, v, t, strict) then Decode(ct, v, us, strict) == AfterScan(ct, v, ts, Exhausted, strict)
      else exists t | t in ts :: Takes(ct, v, t, strict) && Decode(ct, v, us, strict) == ResultWith(ct, v, ts, t, strict)
  {
    SameTypes(ts, us);
    FirstThatTakes(ct, v, us, 0, strict);
    AfterScanPermuted(ct, v, ts, us, Scan(ct, v, us, 0, strict), strict);
  }

  lemma SameTypes(ts: seq<Type>, us: seq<Type>)
    requires multiset(ts) == multiset(us)
    ensures |ts| == |us| && forall t :: t in ts <==> t in us
  {
    SameFew(ts, us);
    forall t ensures t in ts <==> t in us {
      assert t in ts <==> t in multiset(ts);
      assert t in us <==> t in multiset(us);
    }
  }

  lemma PutFirst(ts: seq<Type>, t: Type) returns (us: seq<Type>)
    requires t in ts
    ensures multiset(us) == multiset(ts) && us != [] && us[0] == t
  {
    assert t in multiset(ts);
    var a, b := SplitAt(ts, t);
    us := [t] + (a + b);
    assert multiset(us) == multiset{t} + multiset(a + b);
  }

  lemma FirstEnds(ct: ClassTable, v: Json, us: seq<Type>, strict: bool)
    requires us != [] && Takes(ct, v, us[0], strict)
    ensures Scan(ct, v, us, 0, strict) == EndWith(ct, v, us[0], |us|, strict)
  {
  }

  /** Any type of the union can come first. */
  lemma ResultOfFirst(ct: ClassTable, v: Json, ts: seq<Type>, t: Type, strict: bool) returns (us: seq<Type>)
    requires t in ts && Takes(ct, v, t, strict)
    ensures multiset(us) == multiset(ts) && Decode(ct, v, us, strict) == ResultWith(ct, v, ts, t, strict)
  {
    us := PutFirst(ts, t);
    SameTypes(ts, us);
    FirstEnds(ct, v, us, strict);
    AfterScanPermuted(ct, v, ts, us, EndWith(ct, v, t, |ts|, strict), strict);
  }

  /** The order of a union does not matter for a value exactly if all types that take the value lead to the same result. */
  lemma OrderIgnoredExactlyIfAgreed(ct: ClassTable, v: Json, ts: seq<Type>, strict: bool)
    ensures IgnoresOrder(ct, v, ts, strict) <==> Agree(ct, v, ts, strict)
  {
    if IgnoresOrder(ct, v, ts, strict) {
      forall s, t | s in ts && t in ts && Takes(ct, v, s, strict) && Takes(ct, v, t, strict)
        ensures ResultWith(ct, v, ts, s, strict) == ResultWith(ct, v, ts, t, strict)
      {
        var first := ResultOfFirst(ct, v, ts, s, strict);
        var second := ResultOfFirst(ct, v, ts, t, strict);
        assert Decode(ct, v, first, strict) == Decode(ct, v, ts, strict) == Decode(ct, v, second, strict);
      }
    }
    if Agree(ct, v, ts, strict) {
      forall us: seq<Type> | multiset(us) == multiset(ts) ensures Decode(ct, v, us, strict) == Decode(ct, v, ts, strict) {
        SameFew(ts, us);
        if ts != [] {
          ResultOfSome(ct, v, ts, us, strict);
          ResultOfSome(ct, v, ts, ts, strict);
        }
      }
    }
  }

  /** Classes next to at most one other type, such as None or a dict. */
  lemma UnionOfClassesIgnoresOrder(ct: ClassTable, v: Json, ts: seq<Type>, us: seq<Type>, strict: bool)
    requires multiset(ts) == multiset(us)
    requires forall s, t | s in ts && t in ts :: s.ClassT? || t.ClassT? || s == t
    ensures Decode(ct, v, ts, strict) == Decode(ct, v, us, strict)
  {
    forall t | t in ts && Takes(ct, v, t, strict) ensures !t.ClassT? {}
    OrderIgnoredExactlyIfAgreed(ct, v, ts, strict);
  }

  lemma ApartTakesNotBoth(ct: ClassTable, v: Json, s: Type, t: Type, strict: bool)
    requires Apart(ct, s, t)
    ensures !Takes(ct, v, s, strict) || !Takes(ct, v, t, strict)
  {
    if !Reads(s, KindOf(v)) {
      OtherKindDoesNotFit(ct, v, s, strict);
    } else if !Reads(t, KindOf(v)) {
      OtherKindDoesNotFit(ct, v, t, strict);
    }
  }

  /** And every union whose branches read different kinds. */
  lemma UnambiguousUnionIgnoresOrder(ct: ClassTable, v: Json, ts: seq<Type>, us: seq<Type>, strict: bool)
    requires multiset(ts) == multiset(us) && UnambiguousUnion(ct, ts)
    ensures Decode(ct, v, ts, strict) == Decode(ct, v, us, strict)
  {
    forall s, t | s in ts && t in ts && Takes(ct, v, s, strict) && Takes(ct, v, t, strict) ensures s == t {
      var i :| 0 <= i < |ts| && ts[i] == s;
      var j :| 0 <= j < |ts| && ts[j] == t;
      if i != j {
        ApartTakesNotBoth(ct, v, ts[i], ts[j], strict);
      }
    }
    OrderIgnoredExactlyIfAgreed(ct, v, ts, strict);
  }

  // ---- Flat unions ----

  /** Types that take a value as a whole, and classes. */
  predicate Flat(t: Type) { !t.UnionT? && !t.ListT? && !t.TupleT? && !t.TupleOfT? && !t.DictT? }

  /** `s` converts some value that `t` takes as it is, or as another enum. */
  predicate Converts(s: Type, t: Type, strict: bool) {
    || (s.FloatT? && !strict && (t.IntT? || t.AnyT?))
    || (s.EnumT? && (t.StrT? || t.AnyT?) && s.values != [])
    || (s.EnumT? && (t.LiteralT? || (t.EnumT? && t.enum != s.enum)) && exists x | x in s.values :: x in t.values)
  }

  predicate Clash(s: Type, t: Type, strict: bool) { Converts(s, t, strict) || Converts(t, s, strict) }

  lemma BothTakeAlike(ct: ClassTable, v: Json, s: Type, t: Type, strict: bool)
    requires Flat(s) && Flat(t) && !Clash(s, t, strict) && Takes(ct, v, s, strict) && Takes(ct, v, t, strict)
    ensures Handle(ct, v, s, strict) == Handle(ct, v, t, strict)
  {
  }

  lemma ClashShows(ct: ClassTable, s: Type, t: Type, strict: bool) returns (v: Json)
    requires Converts(s, t, strict)
    ensures Takes(ct, v, s, strict) && Takes(ct, v, t, strict) && Handle(ct, v, s, strict) != Handle(ct, v, t, strict)
  {
    if s.FloatT? {
      v := Int(0);
    } else if t.StrT? || t.AnyT? {
      v := Str(s.values[0]);
    } else {
      var x :| x in s.values && x in t.values;
      v := Str(x);
    }
  }

  lemma ClashMatters(ct: ClassTable, ts: seq<Type>, s: Type, t: Type, strict: bool) returns (v: Json)
    requires s in ts && t in ts && Converts(s, t, strict)
    ensures !IgnoresOrder(ct, v, ts, strict)
  {
    v := ClashShows(ct, s, t, strict);
    assert ResultWith(ct, v, ts, s, strict) != ResultWith(ct, v, ts, t, strict);
    OrderIgnoredExactlyIfAgreed(ct, v, ts, strict);
  }

  /** A flat union ignores its order for all values exactly if no two of its types clash: a float type next to an int type
      or Any unless in strict mode, or an enum next to another type that takes one of its values. */
  lemma FlatOrderIgnoredExactlyIfNoClash(ct: ClassTable, ts: seq<Type>, strict: bool)
    requires forall t | t in ts :: Flat(t)
    ensures (forall v: Json :: IgnoresOrder(ct, v, ts, strict)) <==> forall s, t | s in ts && t in ts :: !Clash(s, t, strict)
  {
    if forall v: Json :: IgnoresOrder(ct, v, ts, strict) {
      forall s, t | s in ts && t in ts ensures !Converts(s, t, strict) {
        if Converts(s, t, strict) {
          var v := ClashMatters(ct, ts, s, t, strict);
        }
      }
    }
    if forall s, t | s in ts && t in ts :: !Clash(s, t, strict) {
      forall v: Json ensures IgnoresOrder(ct, v, ts, strict) {
        forall s, t | s in ts && t in ts && Takes(ct, v, s, strict) && Takes(ct, v, t, strict)
          ensures ResultWith(ct, v, ts, s, strict) == ResultWith(ct, v, ts, t, strict)
        {
          BothTakeAlike(ct, v, s, t, strict);
        }
        OrderIgnoredExactlyIfAgreed(ct, v, ts, strict);
      }
    }
  }
}
