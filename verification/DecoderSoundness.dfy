/** Whatever `from_dict` returns is of one of the asked types, at every depth. */
module DecoderSoundness {
  import opened JsonTypes
  import opened Decoder

  /** Whatever is returned is of one of the types, at every depth. */
  lemma {:induction false} DecodeSound(ct: ClassTable, v: Json, ts: seq<Type>, strict: bool)
    ensures var d := Decode(ct, v, ts, strict); d.Ok? ==> InhabitsSome(ct, d.value, ts)
    decreases v, 1, ts, |ts| + 1
  {
    if ts == [] {
      RawIsRaw(v);
    } else {
      ScanSound(ct, v, ts, 0, strict);
      if v.Obj? {
        var scan := Scan(ct, v, ts, 0, strict);
        var cs := BestClasses(ct, v.members, ts, strict || scan.Mapped?);
        CreateAllSound(ct, v, cs, strict);
        var created := CreateAll(ct, v, cs, strict);
        if |created| == 1 {
          assert created[0] in created;
          BestClassesAreGiven(ct, v.members, ts, strict || scan.Mapped?, MostShared(ct, v.members, ts, strict || scan.Mapped?));
        }
      }
    }
  }

  lemma {:induction false} ScanSound(ct: ClassTable, v: Json, ts: seq<Type>, i: nat, strict: bool)
    requires ts != [] && i <= |ts|
    ensures var s := Scan(ct, v, ts, i, strict); !s.Exhausted? ==> InhabitsSome(ct, s.value, ts)
    decreases v, 1, ts, |ts| - i
  {
    if i < |ts| {
      HandleSound(ct, v, ts[i], strict);
      ScanSound(ct, v, ts, i + 1, strict);
    }
  }

  lemma {:induction false} HandleSound(ct: ClassTable, v: Json, t: Type, strict: bool)
    ensures var o := Handle(ct, v, t, strict); o.Fits? ==> Inhabits(ct, o.value, t)
    decreases v, 1, t, 0
  {
    match t
    case UnionT(args) => DecodeSound(ct, v, args, strict);
    case AnyT => RawIsRaw(v);
    case ListT(args) =>
      if v.Arr? { forall i | 0 <= i < |v.items| { DecodeSound(ct, v.items[i], args, strict); } }
    case TupleT(ts) =>
      if v.Arr? {
        if ts == [] {
          forall i | 0 <= i < |v.items| { RawIsRaw(v.items[i]); }
        } else if |ts| == |v.items| {
          forall i | 0 <= i < |v.items| { DecodeSound(ct, v.items[i], [ts[i]], strict); }
        }
      }
    case TupleOfT(item) =>
      if v.Arr? { forall i | 0 <= i < |v.items| { DecodeSound(ct, v.items[i], [item], strict); } }
    case DictT(args) =>
      if v.Obj? { forall k | k in v.members { DecodeSound(ct, v.members[k], args, strict); } }
    case _ =>
  }

  lemma {:induction false} CreateAllSound(ct: ClassTable, v: Json, cs: seq<string>, strict: bool)
    requires v.Obj?
    ensures forall x | x in CreateAll(ct, v, cs, strict) :: exists c | c in cs :: Inhabits(ct, x, ClassT(c))
    decreases v, 0, 1, |cs|
  {
    if cs != [] {
      CreateAllSound(ct, v, cs[..|cs| - 1], strict);
      CreateSound(ct, v, cs[|cs| - 1], strict);
    }
  }

  lemma {:induction false} CreateSound(ct: ClassTable, v: Json, c: string, strict: bool)
    requires v.Obj?
    ensures var x := Create(ct, v, c, strict); x.Some? ==> Inhabits(ct, x.value, ClassT(c))
    decreases v, 0, 0, 0
  {
    if c in ct {
      forall k | k in FieldsRead(ct, v.members, c) && k in ct[c].fields {
        DecodeSound(ct, MemberOf(ct, v.members, c, k), [ct[c].fields[k].type_], strict);
      }
    }
  }

  lemma {:induction false} BestClassesAreGiven(ct: ClassTable, m: map<string, Json>, ts: seq<Type>, known: bool, n: int)
    ensures forall c | c in WithShared(ct, m, ts, known, n) :: exists i | 0 <= i < |ts| :: ts[i] == ClassT(c)
  {
    if ts != [] {
      var last := ts[|ts| - 1];
      BestClassesAreGiven(ct, m, ts[..|ts| - 1], known, n);
      forall c | c in WithShared(ct, m, ts, known, n)
        ensures exists i | 0 <= i < |ts| :: ts[i] == ClassT(c)
      {
        if c in WithShared(ct, m, ts[..|ts| - 1], known, n) {
          var i :| 0 <= i < |ts| - 1 && ts[..|ts| - 1][i] == ClassT(c);
          assert ts[i] == ClassT(c);
        } else {
          assert ts[|ts| - 1] == ClassT(c);
        }
      }
    }
  }
}
