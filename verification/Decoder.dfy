/** `from_dict`: the type-directed decoder, with its resolution of unions. */
module Decoder {
  import opened JsonTypes
  import opened Options

  datatype Decoded = Ok(value: Value) | TypeError

  /** What the handler of one type does with a value. */
  datatype Outcome = Fits(value: Value) | Misses | Raises

  /** How the first pass over the types ends: a value is returned, a dict type fitted, or none did. */
  datatype Scanned = Returned(value: Value) | Mapped(value: Value) | Exhausted

  function Decode(ct: ClassTable, v: Json, ts: seq<Type>, strict: bool): Decoded
    decreases v, 1, ts, |ts| + 1
  {
    if ts == [] then Ok(Raw(v)) else AfterScan(ct, v, ts, Scan(ct, v, ts, 0, strict), strict)
  }

  /** What comes out once the first pass has ended: its value, or that of the second pass. */
  function AfterScan(ct: ClassTable, v: Json, ts: seq<Type>, scan: Scanned, strict: bool): Decoded
    decreases v, 0, 2, 0
  {
    if scan.Returned? then Ok(scan.value)
    else
      var created := if v.Obj? then CreateAll(ct, v, BestClasses(ct, v.members, ts, strict || scan.Mapped?), strict) else [];
      if |created| == 1 then Ok(created[0])
      else if scan.Mapped? then Ok(scan.value)
      else TypeError
  }

  /** The first pass, from the type at `i` on. Next to other types, a dict that fits still gives way to a class. */
  function Scan(ct: ClassTable, v: Json, ts: seq<Type>, i: nat, strict: bool): Scanned
    requires i <= |ts|
    decreases v, 1, ts, |ts| - i
  {
    if i == |ts| then Exhausted
    else
      var o := Handle(ct, v, ts[i], strict);
      if !o.Fits? then Scan(ct, v, ts, i + 1, strict)
      else if ts[i].DictT? && |ts| > 1 then Mapped(o.value)
      else Returned(o.value)
  }

  function Handle(ct: ClassTable, v: Json, t: Type, strict: bool): Outcome
    decreases v, 1, t, 0
  {
    match t
    case BoolT => if v.Bool? then Fits(BoolV(v.b)) else Misses
    case IntT => if v.Int? then Fits(IntV(v.i)) else Misses
    case FloatT =>
      if v.Float? then Fits(FloatV(v.r))
      else if v.Int? && !strict then Fits(FloatV(v.i as real))
      else Misses
    case StrT => if v.Str? then Fits(StrV(v.s)) else Misses
    case NoneT => if v.Null? then Fits(NoneV) else Misses
    case AnyT => Fits(Raw(v))
    case UnionT(args) =>
      var d := Decode(ct, v, args, strict);
      if d.Ok? then Fits(d.value) else Raises
    case LiteralT(values) => if v.Str? && v.s in values then Fits(StrV(v.s)) else Misses
    case EnumT(e, values) => if v.Str? && v.s in values then Fits(EnumV(e, v.s)) else Misses
    case ListT(args) =>
      if !v.Arr? then Misses
      else
        var items := DecodeEach(ct, v.items, args, strict);
        if items.Some? then Fits(ListV(items.value)) else Raises
    case TupleT(ts) =>
      if !v.Arr? then Misses
      else if ts == [] then Fits(TupleV(RawEach(v.items)))
      else if |ts| != |v.items| then Misses
      else
        var items := DecodeZip(ct, v.items, ts, strict);
        if items.Some? then Fits(TupleV(items.value)) else Raises
    case TupleOfT(item) =>
      if !v.Arr? then Misses
      else
        var items := DecodeEach(ct, v.items, [item], strict);
        if items.Some? then Fits(TupleV(items.value)) else Raises
    case DictT(args) =>
      if !v.Obj? then Misses
      else if forall k | k in v.members :: Decode(ct, v.members[k], args, strict).Ok? then
        Fits(DictV(map k | k in v.members :: Decode(ct, v.members[k], args, strict).value))
      else Raises
    // No handler: a class is filled in the second pass.
    case ClassT(_) => Misses
  }

  /** Each item with the same types. */
  function DecodeEach(ct: ClassTable, items: seq<Json>, ts: seq<Type>, strict: bool): (r: Option<seq<Value>>)
    ensures r.Some? <==> forall i | 0 <= i < |items| :: Decode(ct, items[i], ts, strict).Ok?
    ensures r.Some? ==> |r.value| == |items| &&
                        forall i | 0 <= i < |items| :: Decode(ct, items[i], ts, strict) == Ok(r.value[i])
    decreases items, 0, ts, 0
  {
    if items == [] then Some([])
    else
      var head := Decode(ct, items[0], ts, strict);
      var tail := DecodeEach(ct, items[1..], ts, strict);
      assert items == [items[0]] + items[1..];
      if head.Ok? && tail.Some? then Some([head.value] + tail.value) else None
  }

  /** Each item with the type at its place. */
  function DecodeZip(ct: ClassTable, items: seq<Json>, ts: seq<Type>, strict: bool): (r: Option<seq<Value>>)
    requires |items| == |ts|
    ensures r.Some? <==> forall i | 0 <= i < |items| :: Decode(ct, items[i], [ts[i]], strict).Ok?
    ensures r.Some? ==> |r.value| == |items| &&
                        forall i | 0 <= i < |items| :: Decode(ct, items[i], [ts[i]], strict) == Ok(r.value[i])
    decreases items, 0, ts, 0
  {
    if items == [] then Some([])
    else
      var head := Decode(ct, items[0], [ts[0]], strict);
      var tail := DecodeZip(ct, items[1..], ts[1..], strict);
      assert items == [items[0]] + items[1..] && ts == [ts[0]] + ts[1..];
      if head.Ok? && tail.Some? then Some([head.value] + tail.value) else None
  }

  // ---- The second pass: classes filled from the keys of an object ----

  /** The fields that the keys of an object stand for, as the class reads them. */
  function FieldsRead(ct: ClassTable, m: map<string, Json>, c: string): set<string> {
    NamesRead(NamingOf(ct, c), m.Keys)
  }

  /** The number of fields of the class that the object has keys for. */
  function SharedKeys(ct: ClassTable, m: map<string, Json>, c: string): nat
    requires c in ct
  {
    |FieldsRead(ct, m, c) * ct[c].fields.Keys|
  }

  /** A class that may be filled: it declares what it has to know, and every required field is there. */
  predicate Eligible(ct: ClassTable, m: map<string, Json>, t: Type, knownKeysOnly: bool) {
    t.ClassT? && t.name in ct &&
    (knownKeysOnly ==> FieldsRead(ct, m, t.name) <= ct[t.name].fields.Keys) &&
    forall k | k in ct[t.name].fields :: ct[t.name].fields[k].default.Required? ==> k in FieldsRead(ct, m, t.name)
  }

  function Max(a: int, b: int): int { if a < b then b else a }

  /** The most shared keys of an eligible class; -1 without one. */
  function MostShared(ct: ClassTable, m: map<string, Json>, ts: seq<Type>, known: bool): int
  {
    if ts == [] then -1
    else
      var best := MostShared(ct, m, ts[..|ts| - 1], known);
      var t := ts[|ts| - 1];
      if Eligible(ct, m, t, known) then Max(best, SharedKeys(ct, m, t.name)) else best
  }

  /** The eligible classes with `n` shared keys, in their order. */
  function WithShared(ct: ClassTable, m: map<string, Json>, ts: seq<Type>, known: bool, n: int): seq<string>
  {
    if ts == [] then []
    else
      var before := WithShared(ct, m, ts[..|ts| - 1], known, n);
      var t := ts[|ts| - 1];
      if Eligible(ct, m, t, known) && SharedKeys(ct, m, t.name) == n then before + [t.name] else before
  }

  function BestClasses(ct: ClassTable, m: map<string, Json>, ts: seq<Type>, known: bool): seq<string> {
    WithShared(ct, m, ts, known, MostShared(ct, m, ts, known))
  }

  /** What field `k` of class `c` is filled from. */
  function MemberOf(ct: ClassTable, m: map<string, Json>, c: string, k: string): (v: Json)
    requires k in FieldsRead(ct, m, c)
    ensures v in m.Values && v < Obj(m)
  {
    m[MemberFor(NamingOf(ct, c), m.Keys, k)]
  }

  /** Fill class `c`. A missing required field and a value that does not fit its field are TypeErrors. */
  function Create(ct: ClassTable, v: Json, c: string, strict: bool): Option<Value>
    requires v.Obj?
    decreases v, 0, 0, 0
  {
    if c !in ct then None
    else
      var fields, read := ct[c].fields, FieldsRead(ct, v.members, c);
      if exists k | k in fields :: fields[k].default.Required? && k !in read then None
      else if forall k | k in read && k in fields :: Decode(ct, MemberOf(ct, v.members, c, k), [fields[k].type_], strict).Ok? then
        Some(ObjectV(c, map k | k in fields ::
          if k in read then Decode(ct, MemberOf(ct, v.members, c, k), [fields[k].type_], strict).value
          else fields[k].default.value))
      else None
  }

  /** The objects of the classes that can be filled, in their order. */
  function CreateAll(ct: ClassTable, v: Json, cs: seq<string>, strict: bool): seq<Value>
    requires v.Obj?
    decreases v, 0, 1, |cs|
  {
    if cs == [] then []
    else
      var before := CreateAll(ct, v, cs[..|cs| - 1], strict);
      var last := Create(ct, v, cs[|cs| - 1], strict);
      if last.Some? then before + [last.value] else before
  }

  /** `from_dict`, with the loops and variables it has. */
  method FromDict(ct: ClassTable, v: Json, ts: seq<Type>, strict: bool) returns (r: Decoded)
    ensures r == Decode(ct, v, ts, strict)
  {
    if ts == [] {
      return Ok(Raw(v));
    }
    var mappingResult: Option<Value> := None;
    var i := 0;
    while i < |ts|
      invariant 0 <= i <= |ts|
      invariant mappingResult == None
      invariant Scan(ct, v, ts, 0, strict) == Scan(ct, v, ts, i, strict)
    {
      var o := Handle(ct, v, ts[i], strict);
      if o.Fits? {
        if !ts[i].DictT? || |ts| == 1 {
          return Ok(o.value);
        }
        mappingResult := Some(o.value);
        break;
      }
      i := i + 1;
    }
    assert Scan(ct, v, ts, 0, strict) == if mappingResult.Some? then Mapped(mappingResult.value) else Exhausted;

    if v.Obj? {
      var matches := MatchingClasses(ct, v.members, ts, strict || mappingResult.Some?);
      var created := CreateMatching(ct, v, matches, strict);
      if |created| == 1 {
        return Ok(created[0]);
      }
      if created != [] && mappingResult.None? {
        return TypeError;
      }
    }

    if mappingResult.Some? {
      return Ok(mappingResult.value);
    }
    return TypeError;
  }

  /** The loop of `from_dict` that fills the classes that match. */
  method CreateMatching(ct: ClassTable, v: Json, matches: seq<string>, strict: bool) returns (created: seq<Value>)
    requires v.Obj?
    ensures created == CreateAll(ct, v, matches, strict)
  {
    created := [];
    for n := 0 to |matches|
      invariant created == CreateAll(ct, v, matches[..n], strict)
    {
      assert matches[..n + 1][..n] == matches[..n];
      var filled := Create(ct, v, matches[n], strict);
      if filled.Some? {
        created := created + [filled.value];
      }
    }
    assert matches[..|matches|] == matches;
  }

  /** The loop of `from_dict` that looks for the classes with the most shared keys. */
  method MatchingClasses(ct: ClassTable, m: map<string, Json>, ts: seq<Type>, knownKeysOnly: bool)
    returns (matches: seq<string>)
    ensures matches == BestClasses(ct, m, ts, knownKeysOnly)
  {
    matches := [];
    var matchSameKeys: int := -1;
    for j := 0 to |ts|
      invariant matchSameKeys == MostShared(ct, m, ts[..j], knownKeysOnly)
      invariant matches == BestClasses(ct, m, ts[..j], knownKeysOnly)
    {
      assert ts[..j + 1] == ts[..j] + [ts[j]];
      OneMoreType(ct, m, ts[..j], ts[j], knownKeysOnly);
      if Eligible(ct, m, ts[j], knownKeysOnly) {
        var sameKeys := SharedKeys(ct, m, ts[j].name);
        if sameKeys > matchSameKeys {
          matchSameKeys := sameKeys;
          matches := [];
        }
        if sameKeys == matchSameKeys {
          matches := matches + [ts[j].name];
        }
      }
    }
    assert ts[..|ts|] == ts;
  }

  /** One more type replaces the best classes, joins them, or leaves them alone. */
  lemma OneMoreType(ct: ClassTable, m: map<string, Json>, ts: seq<Type>, t: Type, known: bool)
    ensures var most, best := MostShared(ct, m, ts, known), BestClasses(ct, m, ts, known);
      if !Eligible(ct, m, t, known) || SharedKeys(ct, m, t.name) < most then
        MostShared(ct, m, ts + [t], known) == most && BestClasses(ct, m, ts + [t], known) == best
      else
        && MostShared(ct, m, ts + [t], known) == SharedKeys(ct, m, t.name)
        && BestClasses(ct, m, ts + [t], known) == (if SharedKeys(ct, m, t.name) > most then [] else best) + [t.name]
  {
    assert (ts + [t])[..|ts|] == ts;
    if Eligible(ct, m, t, known) && SharedKeys(ct, m, t.name) > MostShared(ct, m, ts, known) {
      NothingAboveMostShared(ct, m, ts, known, SharedKeys(ct, m, t.name));
    }
  }

  lemma {:induction false} NothingAboveMostShared(ct: ClassTable, m: map<string, Json>, ts: seq<Type>, known: bool, n: int)
    requires n > MostShared(ct, m, ts, known)
    ensures WithShared(ct, m, ts, known, n) == []
  {
    if ts != [] {
      NothingAboveMostShared(ct, m, ts[..|ts| - 1], known, n);
    }
  }
}
