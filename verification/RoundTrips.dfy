/** Decoding is the inverse of encoding on types whose written values cannot be confused. */
module RoundTrips {
  import CaseConversion
  import opened JsonTypes
  import opened Options
  import opened Decoder

  datatype Kind = NullKind | BoolKind | NumberKind | StrKind | ArrKind | ObjKind

  function KindOf(v: Json): Kind {
    match v
    case Null => NullKind
    case Bool(_) => BoolKind
    case Int(_) | Float(_) => NumberKind
    case Str(_) => StrKind
    case Arr(_) => ArrKind
    case Obj(_) => ObjKind
  }

  /** The JSON kinds that a type reads. */
  ghost predicate Reads(t: Type, kind: Kind) {
    match t
    case BoolT => kind == BoolKind
    case IntT | FloatT => kind == NumberKind
    case StrT | LiteralT(_) | EnumT(_, _) => kind == StrKind
    case NoneT => kind == NullKind
    case AnyT => true
    case UnionT(args) => args == [] || exists i | 0 <= i < |args| :: Reads(args[i], kind)
    case ListT(_) | TupleT(_) | TupleOfT(_) => kind == ArrKind
    case DictT(_) | ClassT(_) => kind == ObjKind
  }

  /** Two branches of a union that no written value of `t` can confuse: they read different kinds, or `s` is a class
      with a required field that it never reads from what class `t` writes. */
  ghost predicate Apart(ct: ClassTable, s: Type, t: Type) {
    || (forall kind: Kind :: !Reads(s, kind) || !Reads(t, kind))
    || (s.ClassT? && t.ClassT? && s.name in ct && t.name in ct &&
        exists k | k in ct[s.name].fields :: ct[s.name].fields[k].default.Required? && NeverReadFrom(ct[s.name], ct[t.name], k))
  }

  /** No name that class `t` has on the wire stands for field `k` of class `s`. */
  predicate NeverReadFrom(s: Class, t: Class, k: string) {
    k !in NamesRead(s.naming, NamesOnWire(t.naming, t.fields.Keys))
  }

  ghost predicate Unambiguous(ct: ClassTable, t: Type) {
    match t
    case UnionT(args) => UnambiguousUnion(ct, args)
    case ListT(args) => UnambiguousUnion(ct, args)
    case DictT(args) => UnambiguousUnion(ct, args)
    case TupleT(ts) => forall i | 0 <= i < |ts| :: Unambiguous(ct, ts[i])
    case TupleOfT(item) => Unambiguous(ct, item)
    case _ => true
  }

  ghost predicate UnambiguousUnion(ct: ClassTable, ts: seq<Type>) {
    && (forall i | 0 <= i < |ts| :: Unambiguous(ct, ts[i]))
    && forall i, j | 0 <= i < |ts| && 0 <= j < |ts| && i != j :: Apart(ct, ts[i], ts[j])
  }

  /** The name that a class gives a field on the wire stands for that field again. */
  predicate NameComesBack(n: Naming, field: string) { NameRead(n, NameOnWire(n, field)) == field }

  /** The name of a field comes back, its type is unambiguous, and its default is a value of it, or None where that is
      left out. */
  ghost predicate FieldUnambiguous(ct: ClassTable, n: Naming, k: string, f: Field) {
    && NameComesBack(n, k)
    && Unambiguous(ct, f.type_)
    && match f.default
       case Required => true
       case Plain(d) => d.NoneV? || Inhabits(ct, d, f.type_)
       case Factory(d) => Inhabits(ct, d, f.type_)
  }

  ghost predicate TableUnambiguous(ct: ClassTable) {
    forall c, k | c in ct && k in ct[c].fields :: FieldUnambiguous(ct, ct[c].naming, k, ct[c].fields[k])
  }

  /** Any field name in the usual style comes back, in camel case too. */
  lemma FieldNameComesBack(n: Naming, field: string)
    requires CaseConversion.FieldName(field)
    ensures NameComesBack(n, field)
  {
    CaseConversion.SnakeRoundTrip(field);
  }

  /** The value with every None that is left out on writing replaced by the default that its field comes back with. */
  function Restored(ct: ClassTable, x: Value): Value {
    match x
    case ListV(items) => ListV(RestoredEach(ct, items))
    case TupleV(items) => TupleV(RestoredEach(ct, items))
    case DictV(m) => DictV(map k | k in m :: Restored(ct, m[k]))
    case ObjectV(c, fs) =>
      ObjectV(c, map k | k in fs ::
        if LeftOut(ct, c, k, fs[k]) then ct[c].fields[k].default.value else Restored(ct, fs[k]))
    case _ => x
  }

  function RestoredEach(ct: ClassTable, items: seq<Value>): (r: seq<Value>)
    ensures |r| == |items|
    ensures forall i | 0 <= i < |r| :: r[i] == Restored(ct, items[i])
  {
    if items == [] then [] else [Restored(ct, items[0])] + RestoredEach(ct, items[1..])
  }

  /** No field is None whose plain default is something else. */
  ghost predicate NoneIsSafe(ct: ClassTable, x: Value) {
    match x
    case ListV(items) => forall i | 0 <= i < |items| :: NoneIsSafe(ct, items[i])
    case TupleV(items) => forall i | 0 <= i < |items| :: NoneIsSafe(ct, items[i])
    case DictV(m) => forall k | k in m :: NoneIsSafe(ct, m[k])
    case ObjectV(c, fs) =>
      forall k | k in fs :: if LeftOut(ct, c, k, fs[k]) then ct[c].fields[k].default.value.NoneV? else NoneIsSafe(ct, fs[k])
    case _ => true
  }

  lemma EachRestored(ct: ClassTable, items: seq<Value>)
    requires forall i | 0 <= i < |items| :: Restored(ct, items[i]) == items[i] <==> NoneIsSafe(ct, items[i])
    ensures RestoredEach(ct, items) == items <==> forall i | 0 <= i < |items| :: NoneIsSafe(ct, items[i])
  {
    assert RestoredEach(ct, items) == items <==> forall i | 0 <= i < |items| :: RestoredEach(ct, items)[i] == items[i];
  }

  lemma SameEntries(r: map<string, Value>, m: map<string, Value>)
    requires r.Keys == m.Keys
    ensures r == m <==> forall k | k in m :: r[k] == m[k]
  {
  }

  lemma {:induction false} RestoredIffNoneIsSafe(ct: ClassTable, x: Value)
    ensures Restored(ct, x) == x <==> NoneIsSafe(ct, x)
  {
    match x
    case ListV(items) =>
      forall i | 0 <= i < |items| { RestoredIffNoneIsSafe(ct, items[i]); }
      EachRestored(ct, items);
    case TupleV(items) =>
      forall i | 0 <= i < |items| { RestoredIffNoneIsSafe(ct, items[i]); }
      EachRestored(ct, items);
    case DictV(m) =>
      forall k | k in m { RestoredIffNoneIsSafe(ct, m[k]); }
      SameEntries(Restored(ct, x).entries, m);
    case ObjectV(c, fs) =>
      forall k | k in fs { RestoredIffNoneIsSafe(ct, fs[k]); }
      SameEntries(Restored(ct, x).fields, fs);
    case _ =>
  }

  lemma NothingCreated(ct: ClassTable, v: Json, ts: seq<Type>, scan: Scanned, strict: bool)
    requires v.Obj? ==> BestClasses(ct, v.members, ts, strict || scan.Mapped?) == []
    ensures AfterScan(ct, v, ts, scan, strict) == if scan.Exhausted? then TypeError else Ok(scan.value)
  {
    assert v.Obj? ==> CreateAll(ct, v, [], strict) == [];
  }

  lemma TheOneClass(ct: ClassTable, v: Json, ts: seq<Type>, c: string, x: Value, strict: bool)
    requires ts != [] && v.Obj? && Scan(ct, v, ts, 0, strict) == Exhausted
    requires BestClasses(ct, v.members, ts, strict) == [c] && Create(ct, v, c, strict) == Some(x)
    ensures Decode(ct, v, ts, strict) == Ok(x)
  {
    assert CreateAll(ct, v, [c][..0], strict) == [];
    assert CreateAll(ct, v, [c], strict) == [x];
  }

  /** Decoding what a value of an unambiguous type was written as gives that value back, with only its
      left-out fields set to their defaults; strict or not, for recursive classes too. */
  lemma {:induction false} DecodeInvertsEncode(ct: ClassTable, x: Value, ts: seq<Type>, strict: bool)
    requires TableUnambiguous(ct) && UnambiguousUnion(ct, ts) && InhabitsSome(ct, x, ts)
    ensures Decode(ct, Encode(ct, x), ts, strict) == Ok(Restored(ct, x))
    decreases x, 1, ts, |ts| + 1
  {
    if ts == [] {
      RawEncode(ct, x);
      RestoredRaw(ct, x);
    } else {
      var v := Encode(ct, x);
      var i :| 0 <= i < |ts| && Inhabits(ct, x, ts[i]);
      WrittenKind(ct, x, ts[i]);
      if ts[i].ClassT? {
        ClassScanExhausted(ct, x, ts, i, 0, strict);
        OnlyClass(ct, x, ts, i, strict);
        CreateInvertsEncode(ct, x, ts[i].name, strict);
        TheOneClass(ct, v, ts, ts[i].name, Restored(ct, x), strict);
      } else {
        HandleInvertsEncode(ct, x, ts[i], strict);
        ScanFinds(ct, x, ts, i, 0, strict);
        if v.Obj? && ts[i].DictT? {
          NoOtherClass(ct, v.members, ts, i, strict || |ts| > 1, MostShared(ct, v.members, ts, strict || |ts| > 1));
          NothingCreated(ct, v, ts, Scan(ct, v, ts, 0, strict), strict);
        }
      }
    }
  }

  /** The promise of the round trip, and exactly when it holds. */
  lemma RoundTrip(ct: ClassTable, x: Value, t: Type, strict: bool)
    requires TableUnambiguous(ct) && Unambiguous(ct, t) && Inhabits(ct, x, t)
    ensures Decode(ct, Encode(ct, x), [t], strict) == Ok(x) <==> NoneIsSafe(ct, x)
  {
    assert [t][0] == t;
    DecodeInvertsEncode(ct, x, [t], strict);
    RestoredIffNoneIsSafe(ct, x);
  }

  lemma {:induction false} RestoredRaw(ct: ClassTable, x: Value)
    requires IsRaw(x)
    ensures Restored(ct, x) == x
  {
    match x
    case ListV(items) =>
      forall i | 0 <= i < |items| { RestoredRaw(ct, items[i]); }
      assert RestoredEach(ct, items) == items;
    case DictV(m) =>
      forall k | k in m { RestoredRaw(ct, m[k]); }
      assert Restored(ct, x).entries == m;
    case _ =>
  }

  /** A written value has a kind that its type reads. */
  lemma {:induction false} WrittenKind(ct: ClassTable, x: Value, t: Type)
    requires Inhabits(ct, x, t)
    ensures Reads(t, KindOf(Encode(ct, x)))
    decreases t
  {
    if t.UnionT? && t.args != [] {
      var i :| 0 <= i < |t.args| && Inhabits(ct, x, t.args[i]);
      WrittenKind(ct, x, t.args[i]);
    }
  }

  /** No handler takes a kind that its type does not read. */
  lemma {:induction false} OtherKindDoesNotFit(ct: ClassTable, v: Json, t: Type, strict: bool)
    requires !Reads(t, KindOf(v))
    ensures !Handle(ct, v, t, strict).Fits?
    decreases t, 0
  {
    if t.UnionT? {
      NoneFits(ct, v, t.args, 0, strict);
      if !v.Obj? {
        NothingCreated(ct, v, t.args, Exhausted, strict);
      } else {
        forall i | 0 <= i < |t.args| ensures !t.args[i].ClassT? { assert !Reads(t.args[i], ObjKind); }
        NoClassNoMatch(ct, v.members, t.args, strict, MostShared(ct, v.members, t.args, strict));
        NothingCreated(ct, v, t.args, Exhausted, strict);
        assert Decode(ct, v, t.args, strict) == TypeError;
      }
    }
  }

  lemma {:induction false} NoneFits(ct: ClassTable, v: Json, ts: seq<Type>, i: nat, strict: bool)
    requires i <= |ts| && forall j | 0 <= j < |ts| :: !Reads(ts[j], KindOf(v))
    ensures Scan(ct, v, ts, i, strict) == Exhausted
    decreases ts, |ts| - i
  {
    if i < |ts| {
      OtherKindDoesNotFit(ct, v, ts[i], strict);
      NoneFits(ct, v, ts, i + 1, strict);
    }
  }

  lemma {:induction false} NoClassNoMatch(ct: ClassTable, m: map<string, Json>, ts: seq<Type>, known: bool, n: int)
    requires forall i | 0 <= i < |ts| :: !ts[i].ClassT?
    ensures WithShared(ct, m, ts, known, n) == []
  {
    if ts != [] { NoClassNoMatch(ct, m, ts[..|ts| - 1], known, n); }
  }

  lemma NoOtherClass(ct: ClassTable, m: map<string, Json>, ts: seq<Type>, i: nat, known: bool, n: int)
    requires UnambiguousUnion(ct, ts) && i < |ts| && ts[i].DictT?
    ensures WithShared(ct, m, ts, known, n) == []
  {
    assert Reads(ts[i], ObjKind);
    forall j | 0 <= j < |ts| ensures !ts[j].ClassT? {
      assert j == i || Apart(ct, ts[j], ts[i]);
      assert ts[j].ClassT? ==> Reads(ts[j], ObjKind);
    }
    NoClassNoMatch(ct, m, ts, known, n);
  }

  /** In the first pass, the branch that the value was written from is the first one that fits. */
  lemma {:induction false} ScanFinds(ct: ClassTable, x: Value, ts: seq<Type>, i: nat, j: nat, strict: bool)
    requires UnambiguousUnion(ct, ts) && j <= i < |ts| && !ts[i].ClassT?
    requires Reads(ts[i], KindOf(Encode(ct, x)))
    requires Handle(ct, Encode(ct, x), ts[i], strict) == Fits(Restored(ct, x))
    ensures Scan(ct, Encode(ct, x), ts, j, strict) ==
      if ts[i].DictT? && |ts| > 1 then Mapped(Restored(ct, x)) else Returned(Restored(ct, x))
    decreases i - j
  {
    if j < i {
      assert Apart(ct, ts[j], ts[i]);
      OtherKindDoesNotFit(ct, Encode(ct, x), ts[j], strict);
      ScanFinds(ct, x, ts, i, j + 1, strict);
    }
  }

  lemma {:induction false} ClassScanExhausted(ct: ClassTable, x: Value, ts: seq<Type>, i: nat, j: nat, strict: bool)
    requires UnambiguousUnion(ct, ts) && i < |ts| && j <= |ts| && ts[i].ClassT? && KindOf(Encode(ct, x)) == ObjKind
    ensures Scan(ct, Encode(ct, x), ts, j, strict) == Exhausted
    decreases |ts| - j
  {
    if j < |ts| {
      if !ts[j].ClassT? {
        assert Apart(ct, ts[j], ts[i]);
        assert Reads(ts[i], ObjKind);
        OtherKindDoesNotFit(ct, Encode(ct, x), ts[j], strict);
      }
      ClassScanExhausted(ct, x, ts, i, j + 1, strict);
    }
  }

  /** Names that come back are read as the fields that they were written for, one by one. */
  lemma NamesComeBack(n: Naming, names: set<string>)
    requires forall k | k in names :: NameComesBack(n, k)
    ensures NamesRead(n, NamesOnWire(n, names)) == names
    ensures forall k | k in names :: NameOnWire(n, k) in NamesOnWire(n, names) && FieldFor(n, names, NameOnWire(n, k)) == k
    ensures forall k | k in names :: MemberFor(n, NamesOnWire(n, names), k) == NameOnWire(n, k)
  {
    var wire := NamesOnWire(n, names);
    forall m | m in wire ensures NameOnWire(n, NameRead(n, m)) == m && NameRead(n, m) in names {
      var k :| k in names && NameOnWire(n, k) == m;
      assert NameComesBack(n, k);
    }
    forall k | k in names ensures NameOnWire(n, k) in wire && FieldFor(n, names, NameOnWire(n, k)) == k && k in NamesRead(n, wire) {
      assert NameComesBack(n, k) && NameOnWire(n, k) in wire;
      assert NameComesBack(n, FieldFor(n, names, NameOnWire(n, k)));
    }
    forall k | k in names ensures MemberFor(n, wire, k) == NameOnWire(n, k) {
      assert NameOnWire(n, NameRead(n, MemberFor(n, wire, k))) == MemberFor(n, wire, k);
    }
  }

  lemma NamesMonotone(s: Naming, t: Naming, few: set<string>, many: set<string>)
    requires few <= many
    ensures NamesRead(s, NamesOnWire(t, few)) <= NamesRead(s, NamesOnWire(t, many))
  {
    assert NamesOnWire(t, few) <= NamesOnWire(t, many);
  }

  /** What is written for a class is read for the same fields, and each from the member it was written as. */
  lemma FieldsComeBack(ct: ClassTable, c: string, fs: map<string, Value>)
    requires TableUnambiguous(ct) && c in ct && fs.Keys == ct[c].fields.Keys
    ensures var m := Encode(ct, ObjectV(c, fs)).members;
      && FieldsRead(ct, m, c) == Written(ct, c, fs)
      && forall k | k in Written(ct, c, fs) :: MemberOf(ct, m, c, k) == Encode(ct, fs[k])
  {
    var n, written := ct[c].naming, Written(ct, c, fs);
    forall k | k in written ensures NameComesBack(n, k) { assert FieldUnambiguous(ct, n, k, ct[c].fields[k]); }
    var m := Encode(ct, ObjectV(c, fs)).members;
    assert m.Keys == NamesOnWire(n, written);
    MembersComeBack(ct, c, fs, m);
  }

  lemma MembersComeBack(ct: ClassTable, c: string, fs: map<string, Value>, m: map<string, Json>)
    requires c in ct && forall k | k in Written(ct, c, fs) :: NameComesBack(ct[c].naming, k)
    requires m.Keys == NamesOnWire(ct[c].naming, Written(ct, c, fs))
    requires forall k | k in m :: m[k] == Encode(ct, fs[FieldFor(ct[c].naming, Written(ct, c, fs), k)])
    ensures FieldsRead(ct, m, c) == Written(ct, c, fs)
    ensures forall k | k in Written(ct, c, fs) :: MemberOf(ct, m, c, k) == Encode(ct, fs[k])
  {
    NamesComeBack(ct[c].naming, Written(ct, c, fs));
  }

  lemma {:induction false} ClassesTakeNothing(ct: ClassTable, v: Json, ts: seq<Type>, i: nat, strict: bool)
    requires i <= |ts| && forall j | 0 <= j < |ts| :: ts[j].ClassT?
    ensures Scan(ct, v, ts, i, strict) == Exhausted
    decreases |ts| - i
  {
    if i < |ts| {
      ClassesTakeNothing(ct, v, ts, i + 1, strict);
    }
  }

  /** Of all classes of the union, only the one that was written is eligible. */
  lemma OnlyClass(ct: ClassTable, x: Value, ts: seq<Type>, i: nat, strict: bool)
    requires TableUnambiguous(ct) && UnambiguousUnion(ct, ts) && i < |ts| && ts[i].ClassT? && Inhabits(ct, x, ts[i])
    ensures BestClasses(ct, Encode(ct, x).members, ts, strict) == [ts[i].name]
  {
    var m := Encode(ct, x).members;
    FieldsComeBack(ct, x.name, x.fields);
    assert Eligible(ct, m, ts[i], strict);
    forall j | 0 <= j < |ts| ensures Eligible(ct, m, ts[j], strict) <==> j == i {
      if j != i && ts[j].ClassT? {
        OtherClassMisses(ct, x, ts[j], ts[i], strict);
      }
    }
    OneEligible(ct, m, ts, i, strict);
  }

  lemma OtherClassMisses(ct: ClassTable, x: Value, s: Type, t: Type, known: bool)
    requires s.ClassT? && t.ClassT? && Inhabits(ct, x, t) && Apart(ct, s, t)
    ensures !Eligible(ct, Encode(ct, x).members, s, known)
  {
    assert Reads(s, ObjKind) && Reads(t, ObjKind);
    var m := Encode(ct, x).members;
    var k :| k in ct[s.name].fields && ct[s.name].fields[k].default.Required? && NeverReadFrom(ct[s.name], ct[t.name], k);
    assert m.Keys == NamesOnWire(ct[t.name].naming, Written(ct, x.name, x.fields));
    NamesMonotone(ct[s.name].naming, ct[t.name].naming, Written(ct, x.name, x.fields), ct[t.name].fields.Keys);
  }

  lemma {:induction false} OneEligible(ct: ClassTable, m: map<string, Json>, ts: seq<Type>, i: nat, known: bool)
    requires i < |ts| && Eligible(ct, m, ts[i], known)
    requires forall j | 0 <= j < |ts| :: Eligible(ct, m, ts[j], known) <==> j == i
    ensures MostShared(ct, m, ts, known) == SharedKeys(ct, m, ts[i].name)
    ensures BestClasses(ct, m, ts, known) == [ts[i].name]
  {
    var front := ts[..|ts| - 1];
    if i == |ts| - 1 {
      NoneEligible(ct, m, front, known);
      assert WithShared(ct, m, ts, known, SharedKeys(ct, m, ts[i].name)) == [] + [ts[i].name];
    } else {
      OneEligible(ct, m, front, i, known);
    }
  }

  lemma {:induction false} NoneEligible(ct: ClassTable, m: map<string, Json>, ts: seq<Type>, known: bool)
    requires forall j | 0 <= j < |ts| :: !Eligible(ct, m, ts[j], known)
    ensures MostShared(ct, m, ts, known) == -1
    ensures forall n :: WithShared(ct, m, ts, known, n) == []
  {
    if ts != [] { NoneEligible(ct, m, ts[..|ts| - 1], known); }
  }

  lemma {:induction false} HandleInvertsEncode(ct: ClassTable, x: Value, t: Type, strict: bool)
    requires TableUnambiguous(ct) && Unambiguous(ct, t) && Inhabits(ct, x, t) && !t.ClassT?
    ensures Handle(ct, Encode(ct, x), t, strict) == Fits(Restored(ct, x))
    decreases x, 1, t, 1
  {
    match t
    case UnionT(args) => DecodeInvertsEncode(ct, x, args, strict);
    case AnyT =>
      RawEncode(ct, x);
      RestoredRaw(ct, x);
    case ListT(args) =>
      assert forall i | 0 <= i < |x.items| :: x.items[i] < x;
      EachInvertsEncode(ct, x.items, args, strict);
    case TupleT(ts) =>
      if ts == [] { RawTupleInvertsEncode(ct, x.items); } else { ZipInvertsEncode(ct, x.items, ts, strict); }
    case TupleOfT(item) =>
      forall i | 0 <= i < |x.items| ensures InhabitsSome(ct, x.items[i], [item]) { assert [item][0] == item; }
      EachInvertsEncode(ct, x.items, [item], strict);
    case DictT(args) => EntriesInvertEncode(ct, x, args, strict);
    case _ =>
  }

  lemma {:induction false} EachInvertsEncode(ct: ClassTable, xs: seq<Value>, ts: seq<Type>, strict: bool)
    requires TableUnambiguous(ct) && UnambiguousUnion(ct, ts) && forall i | 0 <= i < |xs| :: InhabitsSome(ct, xs[i], ts)
    ensures DecodeEach(ct, EncodeEach(ct, xs), ts, strict) == Some(RestoredEach(ct, xs))
    decreases xs, 0, ts, 0
  {
    forall i | 0 <= i < |xs| { DecodeInvertsEncode(ct, xs[i], ts, strict); }
    assert DecodeEach(ct, EncodeEach(ct, xs), ts, strict).value == RestoredEach(ct, xs);
  }

  lemma {:induction false} ZipInvertsEncode(ct: ClassTable, xs: seq<Value>, ts: seq<Type>, strict: bool)
    requires TableUnambiguous(ct) && |xs| == |ts|
    requires forall i | 0 <= i < |xs| :: Unambiguous(ct, ts[i]) && Inhabits(ct, xs[i], ts[i])
    ensures DecodeZip(ct, EncodeEach(ct, xs), ts, strict) == Some(RestoredEach(ct, xs))
    decreases xs, 0, ts, 0
  {
    forall i | 0 <= i < |xs| ensures Decode(ct, EncodeEach(ct, xs)[i], [ts[i]], strict) == Ok(Restored(ct, xs[i])) {
      assert [ts[i]][0] == ts[i];
      DecodeInvertsEncode(ct, xs[i], [ts[i]], strict);
    }
    assert DecodeZip(ct, EncodeEach(ct, xs), ts, strict).value == RestoredEach(ct, xs);
  }

  lemma RawTupleInvertsEncode(ct: ClassTable, xs: seq<Value>)
    requires forall i | 0 <= i < |xs| :: IsRaw(xs[i])
    ensures RawEach(EncodeEach(ct, xs)) == RestoredEach(ct, xs)
  {
    forall i | 0 <= i < |xs| ensures Raw(EncodeEach(ct, xs)[i]) == Restored(ct, xs[i]) {
      RawEncode(ct, xs[i]);
      RestoredRaw(ct, xs[i]);
    }
  }

  lemma DictFits(ct: ClassTable, v: Json, args: seq<Type>, strict: bool, entries: map<string, Value>)
    requires v.Obj? && entries.Keys == v.members.Keys
    requires forall k | k in entries :: Decode(ct, v.members[k], args, strict) == Ok(entries[k])
    ensures Handle(ct, v, DictT(args), strict) == Fits(DictV(entries))
  {
    assert (map k | k in v.members :: Decode(ct, v.members[k], args, strict).value) == entries;
  }

  lemma {:induction false} EntriesInvertEncode(ct: ClassTable, x: Value, args: seq<Type>, strict: bool)
    requires TableUnambiguous(ct) && UnambiguousUnion(ct, args) && Inhabits(ct, x, DictT(args))
    ensures Handle(ct, Encode(ct, x), DictT(args), strict) == Fits(Restored(ct, x))
    decreases x, 0, args, 0
  {
    var m := Encode(ct, x).members;
    forall k | k in x.entries { DecodeInvertsEncode(ct, x.entries[k], args, strict); }
    DictFits(ct, Obj(m), args, strict, Restored(ct, x).entries);
  }

  lemma {:induction false} CreateInvertsEncode(ct: ClassTable, x: Value, c: string, strict: bool)
    requires TableUnambiguous(ct) && Inhabits(ct, x, ClassT(c))
    ensures Create(ct, Encode(ct, x), c, strict) == Some(Restored(ct, x))
    decreases x, 0, 1, 0
  {
    var v, fs := Encode(ct, x), x.fields;
    FieldsComeBack(ct, c, fs);
    forall k | k in Written(ct, c, fs)
      ensures Decode(ct, MemberOf(ct, v.members, c, k), [ct[c].fields[k].type_], strict) == Ok(Restored(ct, fs[k]))
    {
      FieldInvertsEncode(ct, x, c, k, strict);
    }
    FilledBack(ct, v, c, fs, strict);
  }

  lemma {:induction false} FieldInvertsEncode(ct: ClassTable, x: Value, c: string, k: string, strict: bool)
    requires TableUnambiguous(ct) && Inhabits(ct, x, ClassT(c)) && k in Written(ct, c, x.fields)
    ensures Decode(ct, Encode(ct, x.fields[k]), [ct[c].fields[k].type_], strict) == Ok(Restored(ct, x.fields[k]))
    decreases x, 0, 0, 0
  {
    var t := ct[c].fields[k].type_;
    assert FieldUnambiguous(ct, ct[c].naming, k, ct[c].fields[k]);
    assert Inhabits(ct, x.fields[k], t);
    assert [t][0] == t;
    DecodeInvertsEncode(ct, x.fields[k], [t], strict);
  }

  lemma FilledBack(ct: ClassTable, v: Json, c: string, fs: map<string, Value>, strict: bool)
    requires v.Obj? && c in ct && fs.Keys == ct[c].fields.Keys && FieldsRead(ct, v.members, c) == Written(ct, c, fs)
    requires forall k | k in fs && ct[c].fields[k].default.Required? :: k in Written(ct, c, fs)
    requires forall k | k in Written(ct, c, fs) ::
      Decode(ct, MemberOf(ct, v.members, c, k), [ct[c].fields[k].type_], strict) == Ok(Restored(ct, fs[k]))
    ensures Create(ct, v, c, strict) == Some(Restored(ct, ObjectV(c, fs)))
  {
    var x := Create(ct, v, c, strict);
    assert x.Some? && x.value.fields == Restored(ct, ObjectV(c, fs)).fields;
  }
}
