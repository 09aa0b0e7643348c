/** JSON trees, the type forms that `from_dict` understands, the typed values it builds, and
    the dataclasses it fills. Strings are not interpreted; floats are reals. */
module JsonTypes {
  import CaseConversion

  datatype Json =
    | Null
    | Bool(b: bool)
    | Int(i: int)
    | Float(r: real)
    | Str(s: string)
    | Arr(items: seq<Json>)
    | Obj(members: map<string, Json>)

  /** `args` holds the type arguments; a bare `list` or `dict` has none. `TupleT([])` is a bare
      `tuple`, `TupleOfT(t)` is `tuple[t, ...]`. `DictT` has string keys. */
  datatype Type =
    | BoolT | IntT | FloatT | StrT | NoneT | AnyT
    | UnionT(args: seq<Type>)
    | LiteralT(values: seq<string>)
    | EnumT(enum: string, values: seq<string>)
    | ListT(args: seq<Type>)
    | TupleT(items: seq<Type>)
    | TupleOfT(item: Type)
    | DictT(args: seq<Type>)
    | ClassT(name: string)

  datatype Value =
    | NoneV
    | BoolV(b: bool)
    | IntV(i: int)
    | FloatV(r: real)
    | StrV(s: string)
    | EnumV(enum: string, value: string)
    | ListV(items: seq<Value>)
    | TupleV(items: seq<Value>)
    | DictV(entries: map<string, Value>)
    | ObjectV(name: string, fields: map<string, Value>)

  /** What the constructor does when a field is missing: fail, use `field.default`, or call
      `field.default_factory`. */
  datatype Default = Required | Plain(value: Value) | Factory(value: Value)

  datatype Field = Field(type_: Type, default: Default)

  type Fields = map<string, Field>

  /** Takes one of several names. */
  type Pick = f: set<string> -> string | forall s: set<string> :: s != {} ==> f(s) in s
    ghost witness (s: set<string>) => if s != {} then var k :| k in s; k else ""

  /** The names of the members of a class on the wire: those of its fields, or in camel case. `lastField` says which of
      several fields with one name on the wire is the last one, `lastMember` the same of several members for one field. */
  datatype Naming = AsIs | Camel(lastField: Pick, lastMember: Pick)

  datatype Class = Class(fields: Fields, naming: Naming)

  /** The dataclasses by name. A class that is not in the table declares no fields. */
  type ClassTable = map<string, Class>

  // ---- Names of fields and names of members ----

  function NameOnWire(n: Naming, field: string): string { if n.AsIs? then field else CaseConversion.ToCamel(field) }

  function NameRead(n: Naming, member: string): string { if n.AsIs? then member else CaseConversion.ToSnake(member) }

  function NamesOnWire(n: Naming, fields: set<string>): set<string> { set k | k in fields :: NameOnWire(n, k) }

  function NamesRead(n: Naming, members: set<string>): set<string> { set k | k in members :: NameRead(n, k) }

  /** The field whose value is written under a name: the last one with that name. */
  function FieldFor(n: Naming, fields: set<string>, member: string): (k: string)
    requires member in NamesOnWire(n, fields)
    ensures k in fields && NameOnWire(n, k) == member
  {
    if n.AsIs? then member
    else
      var candidates := set k | k in fields && NameOnWire(n, k) == member;
      assert candidates != {} by { var k :| k in fields && NameOnWire(n, k) == member; assert k in candidates; }
      n.lastField(candidates)
  }

  /** The member whose value a field is filled from: the last one that stands for it. */
  function MemberFor(n: Naming, members: set<string>, field: string): (k: string)
    requires field in NamesRead(n, members)
    ensures k in members && NameRead(n, k) == field
  {
    if n.AsIs? then field
    else
      var candidates := set k | k in members && NameRead(n, k) == field;
      assert candidates != {} by { var k :| k in members && NameRead(n, k) == field; assert k in candidates; }
      n.lastMember(candidates)
  }

  function NamingOf(ct: ClassTable, c: string): Naming { if c in ct then ct[c].naming else AsIs }

  /** The fields of an object that are written. */
  function Written(ct: ClassTable, c: string, fs: map<string, Value>): set<string> {
    set k | k in fs && !LeftOut(ct, c, k, fs[k])
  }

  /** A JSON tree as the Python value that `json.loads` gives for it. */
  function Raw(j: Json): Value {
    match j
    case Null => NoneV
    case Bool(b) => BoolV(b)
    case Int(i) => IntV(i)
    case Float(r) => FloatV(r)
    case Str(s) => StrV(s)
    case Arr(items) => ListV(RawEach(items))
    case Obj(m) => DictV(map k | k in m :: Raw(m[k]))
  }

  function RawEach(items: seq<Json>): (r: seq<Value>)
    ensures |r| == |items|
    ensures forall i | 0 <= i < |r| :: r[i] == Raw(items[i])
  {
    if items == [] then [] else [Raw(items[0])] + RawEach(items[1..])
  }

  /** What `as_json` writes for a value: a field with a plain default is left out when it is None. */
  function Encode(ct: ClassTable, x: Value): Json {
    match x
    case NoneV => Null
    case BoolV(b) => Bool(b)
    case IntV(i) => Int(i)
    case FloatV(r) => Float(r)
    case StrV(s) => Str(s)
    case EnumV(_, s) => Str(s)
    case ListV(items) => Arr(EncodeEach(ct, items))
    case TupleV(items) => Arr(EncodeEach(ct, items))
    case DictV(m) => Obj(map k | k in m :: Encode(ct, m[k]))
    case ObjectV(c, fs) =>
      var n, written := NamingOf(ct, c), Written(ct, c, fs);
      Obj(map k | k in NamesOnWire(n, written) :: Encode(ct, fs[FieldFor(n, written, k)]))
  }

  function EncodeEach(ct: ClassTable, items: seq<Value>): (r: seq<Json>)
    ensures |r| == |items|
    ensures forall i | 0 <= i < |r| :: r[i] == Encode(ct, items[i])
  {
    if items == [] then [] else [Encode(ct, items[0])] + EncodeEach(ct, items[1..])
  }

  predicate LeftOut(ct: ClassTable, c: string, k: string, x: Value) {
    x.NoneV? && c in ct && k in ct[c].fields && ct[c].fields[k].default.Plain?
  }

  // ---- What it means to be a value of a type, stated without the decoder ----

  ghost predicate IsRaw(x: Value) {
    match x
    case NoneV | BoolV(_) | IntV(_) | FloatV(_) | StrV(_) => true
    case ListV(items) => forall i | 0 <= i < |items| :: IsRaw(items[i])
    case DictV(m) => forall k | k in m :: IsRaw(m[k])
    case _ => false
  }

  ghost predicate Inhabits(ct: ClassTable, x: Value, t: Type)
    decreases x, t
  {
    match t
    case BoolT => x.BoolV?
    case IntT => x.IntV?
    case FloatT => x.FloatV?
    case StrT => x.StrV?
    case NoneT => x.NoneV?
    case AnyT => IsRaw(x)
    case UnionT(args) => InhabitsSome(ct, x, args)
    case LiteralT(values) => x.StrV? && x.s in values
    case EnumT(e, values) => x.EnumV? && x.enum == e && x.value in values
    case ListT(args) => x.ListV? && forall i | 0 <= i < |x.items| :: InhabitsSome(ct, x.items[i], args)
    case TupleT(ts) =>
      x.TupleV? &&
      if ts == [] then forall i | 0 <= i < |x.items| :: IsRaw(x.items[i])
      else |x.items| == |ts| && forall i | 0 <= i < |ts| :: Inhabits(ct, x.items[i], ts[i])
    case TupleOfT(t) => x.TupleV? && forall i | 0 <= i < |x.items| :: Inhabits(ct, x.items[i], t)
    case DictT(args) => x.DictV? && forall k | k in x.entries :: InhabitsSome(ct, x.entries[k], args)
    case ClassT(c) =>
      x.ObjectV? && x.name == c && c in ct && x.fields.Keys == ct[c].fields.Keys &&
      forall k | k in x.fields ::
        || Inhabits(ct, x.fields[k], ct[c].fields[k].type_)
        || (!ct[c].fields[k].default.Required? && x.fields[k] == ct[c].fields[k].default.value)
  }

  /** No types at all stand for no conversion, as `types` does in `from_dict`. */
  ghost predicate InhabitsSome(ct: ClassTable, x: Value, ts: seq<Type>)
    decreases x, ts
  {
    if ts == [] then IsRaw(x) else exists i | 0 <= i < |ts| :: Inhabits(ct, x, ts[i])
  }

  lemma {:induction false} RawIsRaw(j: Json)
    ensures IsRaw(Raw(j))
  {
    match j
    case Arr(items) =>
      forall i | 0 <= i < |items| ensures IsRaw(RawEach(items)[i]) { RawIsRaw(items[i]); }
    case Obj(m) =>
      forall k | k in m ensures IsRaw(Raw(m[k])) { RawIsRaw(m[k]); }
    case _ =>
  }

  lemma EncodeEntries(ct: ClassTable, e: map<string, Value>, m: map<string, Json>)
    requires e.Keys == m.Keys && forall k | k in m :: Encode(ct, e[k]) == m[k]
    ensures Encode(ct, DictV(e)) == Obj(m)
  {
    assert (map k | k in e :: Encode(ct, e[k])) == m;
  }

  /** Writing an unconverted value gives the tree it came from. */
  lemma {:induction false} EncodeRaw(ct: ClassTable, j: Json)
    ensures Encode(ct, Raw(j)) == j
  {
    match j
    case Arr(items) =>
      forall i | 0 <= i < |items| ensures EncodeEach(ct, RawEach(items))[i] == items[i] { EncodeRaw(ct, items[i]); }
      assert EncodeEach(ct, RawEach(items)) == items;
    case Obj(m) =>
      forall k | k in m ensures Encode(ct, Raw(m[k])) == m[k] { EncodeRaw(ct, m[k]); }
      EncodeEntries(ct, map k | k in m :: Raw(m[k]), m);
    case _ =>
  }

  /** And an unconverted value is read back from what it was written as. */
  lemma {:induction false} RawEncode(ct: ClassTable, x: Value)
    requires IsRaw(x)
    ensures Raw(Encode(ct, x)) == x
  {
    match x
    case ListV(items) =>
      forall i | 0 <= i < |items| ensures RawEach(EncodeEach(ct, items))[i] == items[i] { RawEncode(ct, items[i]); }
      assert RawEach(EncodeEach(ct, items)) == items;
    case DictV(m) =>
      forall k | k in m ensures Raw(Encode(ct, m[k])) == m[k] { RawEncode(ct, m[k]); }
      var e := map k | k in m :: Encode(ct, m[k]);
      assert (map k | k in e :: Raw(e[k])) == m;
    case _ =>
  }
}
