/** How a value that strict decoding returns is related to the tree that it was read from. */
module StrictReading {
  import opened JsonTypes
  import opened Decoder

  // ---- The classes that types can reach ----

  /** The classes that a type names. */
  function ClassNames(t: Type): set<string> {
    match t
    case ClassT(c) => {c}
    case UnionT(args) => ClassNamesOf(args)
    case ListT(args) => ClassNamesOf(args)
    case DictT(args) => ClassNamesOf(args)
    case TupleT(ts) => ClassNamesOf(ts)
    case TupleOfT(item) => ClassNames(item)
    case _ => {}
  }

  function ClassNamesOf(ts: seq<Type>): (names: set<string>)
    ensures forall i | 0 <= i < |ts| :: ClassNames(ts[i]) <= names
  {
    if ts == [] then {} else ClassNames(ts[0]) + ClassNamesOf(ts[1..])
  }

  /** With the types, the classes in `reach` are all that decoding can come to. */
  predicate Reaches(ct: ClassTable, reach: set<string>, ts: seq<Type>) {
    && ClassNamesOf(ts) <= reach
    && forall c | c in reach && c in ct :: forall k | k in ct[c].fields :: ClassNames(ct[c].fields[k].type_) <= reach
  }

  lemma ReachesItem(ct: ClassTable, reach: set<string>, t: Type)
    requires Reaches(ct, reach, []) && ClassNames(t) <= reach
    ensures Reaches(ct, reach, [t])
  {
    assert [t][1..] == [] && ClassNamesOf([t]) == ClassNames(t) + ClassNamesOf([]);
  }

  // ---- What comes from what ----

  /** `x` is what a strict reading makes of `v`: nothing is converted, and each object is a dict or one of the classes in
      `reach`, which then has a field for each of its members. */
  ghost predicate CameFrom(ct: ClassTable, reach: set<string>, v: Json, x: Value)
    decreases x
  {
    match x
    case NoneV => v == Null
    case BoolV(b) => v == Bool(b)
    case IntV(i) => v == Int(i)
    case FloatV(r) => v == Float(r)
    case StrV(s) => v == Str(s)
    case EnumV(_, s) => v == Str(s)
    case ListV(items) => v.Arr? && |v.items| == |items| && forall i | 0 <= i < |items| :: CameFrom(ct, reach, v.items[i], items[i])
    case TupleV(items) => v.Arr? && |v.items| == |items| && forall i | 0 <= i < |items| :: CameFrom(ct, reach, v.items[i], items[i])
    case DictV(m) => v.Obj? && v.members.Keys == m.Keys && forall k | k in m :: CameFrom(ct, reach, v.members[k], m[k])
    case ObjectV(c, fs) =>
      && v.Obj? && c in reach && c in ct && fs.Keys == ct[c].fields.Keys && FieldsRead(ct, v.members, c) <= fs.Keys
      && (forall k | k in FieldsRead(ct, v.members, c) :: CameFrom(ct, reach, MemberOf(ct, v.members, c, k), fs[k]))
      && (forall k | k in fs && k !in FieldsRead(ct, v.members, c) ::
            !ct[c].fields[k].default.Required? && fs[k] == ct[c].fields[k].default.value)
  }

  lemma {:induction false} RawCame(ct: ClassTable, reach: set<string>, v: Json)
    ensures CameFrom(ct, reach, v, Raw(v))
  {
    match v
    case Arr(items) =>
      forall i | 0 <= i < |items| ensures CameFrom(ct, reach, items[i], RawEach(items)[i]) { RawCame(ct, reach, items[i]); }
    case Obj(m) => forall k | k in m { RawCame(ct, reach, m[k]); }
    case _ =>
  }

  /** Whatever strict decoding returns came from its input, by way of the classes that the types can reach. */
  lemma {:induction false} StrictResultCame(ct: ClassTable, reach: set<string>, v: Json, ts: seq<Type>)
    requires Reaches(ct, reach, ts)
    ensures var d := Decode(ct, v, ts, true); d.Ok? ==> CameFrom(ct, reach, v, d.value)
    decreases v, 1, ts, |ts| + 1
  {
    if ts == [] {
      RawCame(ct, reach, v);
    } else {
      ScanCame(ct, reach, v, ts, 0);
      AfterScanCame(ct, reach, v, ts, Scan(ct, v, ts, 0, true));
    }
  }

  lemma {:induction false} AfterScanCame(ct: ClassTable, reach: set<string>, v: Json, ts: seq<Type>, scan: Scanned)
    requires Reaches(ct, reach, ts) && (!scan.Exhausted? ==> CameFrom(ct, reach, v, scan.value))
    ensures var d := AfterScan(ct, v, ts, scan, true); d.Ok? ==> CameFrom(ct, reach, v, d.value)
    decreases v, 0, 2, 0
  {
    if v.Obj? {
      var cs := BestClasses(ct, v.members, ts, true);
      BestReached(ct, reach, v.members, ts);
      CreateAllCame(ct, reach, v, cs);
      var created := CreateAll(ct, v, cs, true);
      if |created| == 1 {
        assert created[0] in created;
      }
    }
  }

  lemma BestReached(ct: ClassTable, reach: set<string>, m: map<string, Json>, ts: seq<Type>)
    requires Reaches(ct, reach, ts)
    ensures forall c | c in BestClasses(ct, m, ts, true) :: Eligible(ct, m, ClassT(c), true) && c in reach
  {
    WithSharedEligible(ct, m, ts, true, MostShared(ct, m, ts, true));
  }

  lemma {:induction false} ScanCame(ct: ClassTable, reach: set<string>, v: Json, ts: seq<Type>, i: nat)
    requires Reaches(ct, reach, ts) && i <= |ts|
    ensures var s := Scan(ct, v, ts, i, true); !s.Exhausted? ==> CameFrom(ct, reach, v, s.value)
    decreases v, 1, ts, |ts| - i
  {
    if i < |ts| {
      assert Reaches(ct, reach, []);
      HandleCame(ct, reach, v, ts[i]);
      ScanCame(ct, reach, v, ts, i + 1);
    }
  }

  lemma {:induction false} HandleCame(ct: ClassTable, reach: set<string>, v: Json, t: Type)
    requires Reaches(ct, reach, []) && ClassNames(t) <= reach
    ensures var o := Handle(ct, v, t, true); o.Fits? ==> CameFrom(ct, reach, v, o.value)
    decreases v, 1, t, 0
  {
    match t
    case UnionT(args) => StrictResultCame(ct, reach, v, args);
    case AnyT => RawCame(ct, reach, v);
    case ListT(args) =>
      if v.Arr? { EachCame(ct, reach, v, args); }
    case TupleT(ts) =>
      if v.Arr? {
        if ts == [] {
          forall i | 0 <= i < |v.items| { RawCame(ct, reach, v.items[i]); }
        } else if |ts| == |v.items| {
          ZipCame(ct, reach, v, ts);
        }
      }
    case TupleOfT(item) =>
      ReachesItem(ct, reach, item);
      if v.Arr? { EachCame(ct, reach, v, [item]); }
    case DictT(args) =>
      if v.Obj? { forall k | k in v.members { StrictResultCame(ct, reach, v.members[k], args); } }
    case _ =>
  }

  lemma {:induction false} EachCame(ct: ClassTable, reach: set<string>, v: Json, ts: seq<Type>)
    requires Reaches(ct, reach, ts) && v.Arr?
    ensures var xs := DecodeEach(ct, v.items, ts, true);
      xs.Some? ==> CameFrom(ct, reach, v, ListV(xs.value)) && CameFrom(ct, reach, v, TupleV(xs.value))
    decreases v, 0, ts, 0
  {
    forall i | 0 <= i < |v.items| { StrictResultCame(ct, reach, v.items[i], ts); }
  }

  lemma {:induction false} ZipCame(ct: ClassTable, reach: set<string>, v: Json, ts: seq<Type>)
    requires Reaches(ct, reach, ts) && v.Arr? && |ts| == |v.items|
    ensures var xs := DecodeZip(ct, v.items, ts, true); xs.Some? ==> CameFrom(ct, reach, v, TupleV(xs.value))
    decreases v, 0, ts, 0
  {
    forall i | 0 <= i < |v.items|
      ensures var d := Decode(ct, v.items[i], [ts[i]], true); d.Ok? ==> CameFrom(ct, reach, v.items[i], d.value)
    {
      ReachesItem(ct, reach, ts[i]);
      StrictResultCame(ct, reach, v.items[i], [ts[i]]);
    }
  }

  lemma {:induction false} WithSharedEligible(ct: ClassTable, m: map<string, Json>, ts: seq<Type>, known: bool, n: int)
    ensures forall c | c in WithShared(ct, m, ts, known, n) ::
      Eligible(ct, m, ClassT(c), known) && SharedKeys(ct, m, c) == n && exists i | 0 <= i < |ts| :: ts[i] == ClassT(c)
  {
    if ts != [] {
      var front, last := ts[..|ts| - 1], ts[|ts| - 1];
      WithSharedEligible(ct, m, front, known, n);
      assert forall i | 0 <= i < |front| :: front[i] == ts[i];
    }
  }

  lemma {:induction false} CreateAllCame(ct: ClassTable, reach: set<string>, v: Json, cs: seq<string>)
    requires Reaches(ct, reach, []) && v.Obj?
    requires forall c | c in cs :: Eligible(ct, v.members, ClassT(c), true) && c in reach
    ensures forall x | x in CreateAll(ct, v, cs, true) :: CameFrom(ct, reach, v, x)
    decreases v, 0, 1, |cs|
  {
    if cs != [] {
      CreateAllCame(ct, reach, v, cs[..|cs| - 1]);
      CreateCame(ct, reach, v, cs[|cs| - 1]);
    }
  }

  lemma {:induction false} CreateCame(ct: ClassTable, reach: set<string>, v: Json, c: string)
    requires Reaches(ct, reach, []) && v.Obj? && Eligible(ct, v.members, ClassT(c), true) && c in reach
    ensures var x := Create(ct, v, c, true); x.Some? ==> CameFrom(ct, reach, v, x.value)
    decreases v, 0, 0, 0
  {
    forall k | k in FieldsRead(ct, v.members, c)
      ensures var d := Decode(ct, MemberOf(ct, v.members, c, k), [ct[c].fields[k].type_], true);
        d.Ok? ==> CameFrom(ct, reach, MemberOf(ct, v.members, c, k), d.value)
    {
      ReachesItem(ct, reach, ct[c].fields[k].type_);
      StrictResultCame(ct, reach, MemberOf(ct, v.members, c, k), [ct[c].fields[k].type_]);
    }
  }
}
