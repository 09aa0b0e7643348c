/** In strict mode nothing is invented, dropped or converted, but for members that a class reads under another name than it
    writes. */
module StrictDecoding {
  import opened JsonTypes
  import opened Options
  import opened Decoder
  import opened RoundTrips
  import opened StrictReading

  /** `w` is `v`, except that members of objects that are null in `v` may be missing in `w`. */
  ghost predicate KeepsContent(v: Json, w: Json) {
    match v
    case Arr(items) =>
      w.Arr? && |w.items| == |items| && forall i | 0 <= i < |items| :: KeepsContent(items[i], w.items[i])
    case Obj(m) =>
      && w.Obj? && w.members.Keys <= m.Keys
      && forall k | k in m :: if k in w.members then KeepsContent(m[k], w.members[k]) else m[k].Null?
    case _ => v == w
  }

  ghost predicate Kept(ct: ClassTable, v: Json, x: Value) {
    KeepsContent(v, Encode(ct, x))
  }

  /** Every field is required or has the plain default None. */
  ghost predicate DefaultsAreNone(ct: ClassTable, reach: set<string>) {
    forall c | c in reach && c in ct :: forall k | k in ct[c].fields ::
      ct[c].fields[k].default.Required? || ct[c].fields[k].default == Plain(NoneV)
  }

  // ---- A condition on the input alone ----

  /** No member stands for a field of a class in `reach` without having that field's name on the wire. */
  ghost predicate NamesKept(ct: ClassTable, reach: set<string>, v: Json) {
    match v
    case Arr(items) => forall i | 0 <= i < |items| :: NamesKept(ct, reach, items[i])
    case Obj(m) =>
      && (forall k | k in m :: NamesKept(ct, reach, m[k]))
      && (forall c | c in reach && c in ct :: forall k | k in m :: OwnName(ct[c], k))
    case _ => true
  }

  predicate OwnName(c: Class, member: string) {
    var field := NameRead(c.naming, member);
    field in c.fields ==> NameOnWire(c.naming, field) == member
  }

  /** Where no class changes the case of its names, this is always so. */
  lemma {:induction false} PlainNamesAreKept(ct: ClassTable, reach: set<string>, v: Json)
    requires forall c | c in reach && c in ct :: ct[c].naming.AsIs?
    ensures NamesKept(ct, reach, v)
  {
    match v
    case Arr(items) => forall i | 0 <= i < |items| { PlainNamesAreKept(ct, reach, items[i]); }
    case Obj(m) => forall k | k in m { PlainNamesAreKept(ct, reach, m[k]); }
    case _ =>
  }

  /** Writing the result of strict decoding gives the input back, up to null members: nothing is invented, dropped or
      converted, whichever types of a union were chosen on the way. */
  lemma StrictKeepsContent(ct: ClassTable, reach: set<string>, v: Json, ts: seq<Type>)
    requires Reaches(ct, reach, ts) && DefaultsAreNone(ct, reach) && NamesKept(ct, reach, v)
    ensures var d := Decode(ct, v, ts, true); d.Ok? ==> KeepsContent(v, Encode(ct, d.value))
  {
    StrictResultCame(ct, reach, v, ts);
    var d := Decode(ct, v, ts, true);
    if d.Ok? {
      KeptWithNames(ct, reach, v, d.value);
    }
  }

  lemma {:induction false} KeptWithNames(ct: ClassTable, reach: set<string>, v: Json, x: Value)
    requires CameFrom(ct, reach, v, x) && DefaultsAreNone(ct, reach) && NamesKept(ct, reach, v)
    ensures Kept(ct, v, x)
    decreases x
  {
    match x
    case ListV(items) => forall i | 0 <= i < |items| { KeptWithNames(ct, reach, v.items[i], items[i]); }
    case TupleV(items) => forall i | 0 <= i < |items| { KeptWithNames(ct, reach, v.items[i], items[i]); }
    case DictV(m) => forall k | k in m { KeptWithNames(ct, reach, v.members[k], m[k]); }
    case ObjectV(c, fs) =>
      forall k | k in FieldsRead(ct, v.members, c) ensures Kept(ct, MemberOf(ct, v.members, c, k), fs[k]) {
        KeptWithNames(ct, reach, MemberOf(ct, v.members, c, k), fs[k]);
      }
      ObjectKeptWithNames(ct, reach, v, c, fs);
    case _ =>
  }

  /** A field that is written was read, and it is the only one with its name. */
  lemma WrittenWasRead(ct: ClassTable, reach: set<string>, v: Json, c: string, fs: map<string, Value>, f: string)
    requires CameFrom(ct, reach, v, ObjectV(c, fs)) && DefaultsAreNone(ct, reach) && f in Written(ct, c, fs)
    requires forall k | k in v.members :: OwnName(ct[c], k)
    ensures var own := NameOnWire(ct[c].naming, f);
      f in FieldsRead(ct, v.members, c) && own in v.members && NameRead(ct[c].naming, own) == f
  {
    assert f in FieldsRead(ct, v.members, c);
    assert OwnName(ct[c], MemberFor(ct[c].naming, v.members.Keys, f));
  }

  lemma ObjectKeptWithNames(ct: ClassTable, reach: set<string>, v: Json, c: string, fs: map<string, Value>)
    requires CameFrom(ct, reach, v, ObjectV(c, fs)) && DefaultsAreNone(ct, reach) && NamesKept(ct, reach, v)
    requires forall k | k in FieldsRead(ct, v.members, c) :: Kept(ct, MemberOf(ct, v.members, c, k), fs[k])
    ensures Kept(ct, v, ObjectV(c, fs))
  {
    var n, written, w := ct[c].naming, Written(ct, c, fs), Encode(ct, ObjectV(c, fs)).members;
    forall k | k in w ensures k in v.members && NameRead(n, k) == FieldFor(n, written, k) {
      WrittenWasRead(ct, reach, v, c, fs, FieldFor(n, written, k));
    }
    forall k | k in v.members ensures if k in w then KeepsContent(v.members[k], w[k]) else v.members[k].Null? {
      var f := NameRead(n, k);
      assert f in FieldsRead(ct, v.members, c) && OwnName(ct[c], k);
      assert OwnName(ct[c], MemberFor(n, v.members.Keys, f));
      assert MemberOf(ct, v.members, c, f) == v.members[k];
      assert f in written ==> k in NamesOnWire(n, written);
      assert k !in w ==> fs[f].NoneV?;
    }
  }

  // ---- And exactly when ----

  /** Field names come back from the wire. */
  ghost predicate FieldNamesComeBack(ct: ClassTable, reach: set<string>) {
    forall c | c in reach && c in ct :: forall k | k in ct[c].fields :: NameComesBack(ct[c].naming, k)
  }

  /** Of the members that stand for a field, all that do not have its own name are null; and if the last of them, which
      fills the field, is one of those, then so is the one with its own name, which a required field needs. */
  predicate FieldIntact(c: Class, m: map<string, Json>, f: string)
    requires f in NamesRead(c.naming, m.Keys) && f in c.fields
  {
    var own := NameOnWire(c.naming, f);
    && (forall k | k in m && NameRead(c.naming, k) == f && k != own :: m[k].Null?)
    && (MemberFor(c.naming, m.Keys, f) == own
        || ((own in m ==> m[own].Null?) && (c.fields[f].default.Required? ==> own in m)))
  }

  /** All fields of all objects that were filled on the way are intact. */
  ghost predicate Intact(ct: ClassTable, v: Json, x: Value)
    decreases x
  {
    match x
    case ListV(items) => v.Arr? && |v.items| == |items| && forall i | 0 <= i < |items| :: Intact(ct, v.items[i], items[i])
    case TupleV(items) => v.Arr? && |v.items| == |items| && forall i | 0 <= i < |items| :: Intact(ct, v.items[i], items[i])
    case DictV(m) => v.Obj? && forall k | k in m && k in v.members :: Intact(ct, v.members[k], m[k])
    case ObjectV(c, fs) =>
      v.Obj? && c in ct && forall k | k in FieldsRead(ct, v.members, c) ::
        k in fs && k in ct[c].fields && FieldIntact(ct[c], v.members, k) && Intact(ct, MemberOf(ct, v.members, c, k), fs[k])
    case _ => true
  }

  /** Without null members, a field is intact exactly if no other member than the one with its own name stands for it. */
  lemma IntactWithoutNulls(c: Class, m: map<string, Json>, f: string)
    requires f in NamesRead(c.naming, m.Keys) && f in c.fields && forall k | k in m :: !m[k].Null?
    ensures FieldIntact(c, m, f) <==> forall k | k in m && NameRead(c.naming, k) == f :: k == NameOnWire(c.naming, f)
  {
    var last := MemberFor(c.naming, m.Keys, f);
    assert last in m && NameRead(c.naming, last) == f;
  }

  /** Strict decoding keeps the content exactly if all fields are intact in the classes that were chosen. */
  lemma StrictKeepsContentExactlyIf(ct: ClassTable, reach: set<string>, v: Json, ts: seq<Type>)
    requires Reaches(ct, reach, ts) && DefaultsAreNone(ct, reach) && FieldNamesComeBack(ct, reach)
    ensures var d := Decode(ct, v, ts, true); d.Ok? ==> (KeepsContent(v, Encode(ct, d.value)) <==> Intact(ct, v, d.value))
  {
    StrictResultCame(ct, reach, v, ts);
    var d := Decode(ct, v, ts, true);
    if d.Ok? {
      KeptExactlyIf(ct, reach, v, d.value);
    }
  }

  lemma {:induction false} KeptExactlyIf(ct: ClassTable, reach: set<string>, v: Json, x: Value)
    requires CameFrom(ct, reach, v, x) && DefaultsAreNone(ct, reach) && FieldNamesComeBack(ct, reach)
    ensures Kept(ct, v, x) <==> Intact(ct, v, x)
    decreases x
  {
    match x
    case ListV(items) => forall i | 0 <= i < |items| { KeptExactlyIf(ct, reach, v.items[i], items[i]); }
    case TupleV(items) => forall i | 0 <= i < |items| { KeptExactlyIf(ct, reach, v.items[i], items[i]); }
    case DictV(m) => forall k | k in m { KeptExactlyIf(ct, reach, v.members[k], m[k]); }
    case ObjectV(c, fs) =>
      ObjectKept(ct, reach, v, c, fs);
      forall k | k in FieldsRead(ct, v.members, c)
        ensures FieldKept(ct[c].naming, v.members, Encode(ct, x).members, k) <==>
          FieldIntact(ct[c], v.members, k) && Intact(ct, MemberOf(ct, v.members, c, k), fs[k])
      {
        KeptExactlyIf(ct, reach, MemberOf(ct, v.members, c, k), fs[k]);
        FieldKeptExactlyIf(ct, reach, v, c, fs, k);
      }
    case _ =>
  }

  /** Of the members of `m` that stand for a field, those in `w` keep their content, and the others are null; and `w` has
      no member for it that `m` has not. */
  ghost predicate FieldKept(n: Naming, m: map<string, Json>, w: map<string, Json>, f: string) {
    && (NameOnWire(n, f) in w ==> NameOnWire(n, f) in m)
    && (forall k | k in m && NameRead(n, k) == f :: if k in w then KeepsContent(m[k], w[k]) else m[k].Null?)
  }

  lemma KeptFieldByField(n: Naming, m: map<string, Json>, w: map<string, Json>)
    requires forall k | k in w :: NameOnWire(n, NameRead(n, k)) == k && NameRead(n, k) in NamesRead(n, m.Keys)
    ensures KeepsContent(Obj(m), Obj(w)) <==> forall f | f in NamesRead(n, m.Keys) :: FieldKept(n, m, w, f)
  {
    if forall f | f in NamesRead(n, m.Keys) :: FieldKept(n, m, w, f) {
      forall k | k in w ensures k in m {
        assert FieldKept(n, m, w, NameRead(n, k));
      }
      forall k | k in m ensures if k in w then KeepsContent(m[k], w[k]) else m[k].Null? {
        assert NameRead(n, k) in NamesRead(n, m.Keys);
        assert FieldKept(n, m, w, NameRead(n, k));
      }
    }
  }

  /** What an object is written as: the members of its written fields, each standing for its own field. */
  lemma MembersWritten(ct: ClassTable, reach: set<string>, c: string, fs: map<string, Value>)
    requires c in reach && c in ct && fs.Keys == ct[c].fields.Keys && FieldNamesComeBack(ct, reach)
    ensures var (n, w) := (ct[c].naming, Encode(ct, ObjectV(c, fs)).members);
      && (forall k | k in w :: NameOnWire(n, NameRead(n, k)) == k && NameRead(n, k) in Written(ct, c, fs))
      && (forall f | f in Written(ct, c, fs) :: NameOnWire(n, f) in w && w[NameOnWire(n, f)] == Encode(ct, fs[f]))
  {
    var n, written, w := ct[c].naming, Written(ct, c, fs), Encode(ct, ObjectV(c, fs)).members;
    NamesComeBack(n, written);
    assert w.Keys == NamesOnWire(n, written);
    forall k | k in w ensures NameOnWire(n, NameRead(n, k)) == k && NameRead(n, k) in written {
      assert NameComesBack(n, FieldFor(n, written, k));
    }
  }

  lemma ObjectKept(ct: ClassTable, reach: set<string>, v: Json, c: string, fs: map<string, Value>)
    requires CameFrom(ct, reach, v, ObjectV(c, fs)) && DefaultsAreNone(ct, reach) && FieldNamesComeBack(ct, reach)
    ensures Kept(ct, v, ObjectV(c, fs)) <==>
      forall k | k in FieldsRead(ct, v.members, c) :: FieldKept(ct[c].naming, v.members, Encode(ct, ObjectV(c, fs)).members, k)
  {
    MembersWritten(ct, reach, c, fs);
    assert Written(ct, c, fs) <= FieldsRead(ct, v.members, c);
    KeptFieldByField(ct[c].naming, v.members, Encode(ct, ObjectV(c, fs)).members);
  }

  lemma FieldKeptExactlyIf(ct: ClassTable, reach: set<string>, v: Json, c: string, fs: map<string, Value>, f: string)
    requires CameFrom(ct, reach, v, ObjectV(c, fs)) && DefaultsAreNone(ct, reach) && FieldNamesComeBack(ct, reach)
    requires f in FieldsRead(ct, v.members, c)
    requires Kept(ct, MemberOf(ct, v.members, c, f), fs[f]) <==> Intact(ct, MemberOf(ct, v.members, c, f), fs[f])
    ensures FieldKept(ct[c].naming, v.members, Encode(ct, ObjectV(c, fs)).members, f) <==>
      FieldIntact(ct[c], v.members, f) && Intact(ct, MemberOf(ct, v.members, c, f), fs[f])
  {
    var n, m, w := ct[c].naming, v.members, Encode(ct, ObjectV(c, fs)).members;
    var own, last := NameOnWire(n, f), MemberFor(n, m.Keys, f);
    MembersWritten(ct, reach, c, fs);
    assert last in m && NameRead(n, last) == f && CameFrom(ct, reach, m[last], fs[f]);
    assert forall k | NameRead(n, k) == f :: k in w <==> k == own && f in Written(ct, c, fs);
    if last == own {
      OwnFieldKept(ct, reach, n, m, w, own, fs[f], f);
    } else {
      OtherFieldKept(ct, reach, ct[c], m, w, own, last, fs[f], f);
    }
  }

  lemma OwnFieldKept(ct: ClassTable, reach: set<string>, n: Naming, m: map<string, Json>, w: map<string, Json>, own: string,
                     x: Value, f: string)
    requires own == NameOnWire(n, f) && own in m && NameRead(n, own) == f && CameFrom(ct, reach, m[own], x)
    requires forall k | k in w && NameRead(n, k) == f :: k == own
    requires if own in w then w[own] == Encode(ct, x) else x.NoneV?
    ensures FieldKept(n, m, w, f) <==> (forall k | k in m && NameRead(n, k) == f && k != own :: m[k].Null?) && Kept(ct, m[own], x)
  {
  }

  lemma OtherFieldKept(ct: ClassTable, reach: set<string>, c: Class, m: map<string, Json>, w: map<string, Json>, own: string,
                       last: string, x: Value, f: string)
    requires f in NamesRead(c.naming, m.Keys) && f in c.fields && own == NameOnWire(c.naming, f) && NameRead(c.naming, own) == f
    requires last == MemberFor(c.naming, m.Keys, f) && last != own && CameFrom(ct, reach, m[last], x)
    requires forall k | k in w && NameRead(c.naming, k) == f :: k == own
    requires if own in w then w[own] == Encode(ct, x) else x.NoneV?
    requires own in w <==> !x.NoneV? || c.fields[f].default.Required?
    ensures FieldKept(c.naming, m, w, f) <==> FieldIntact(c, m, f) && Intact(ct, m[last], x)
  {
    if m[last].Null? {
      assert x.NoneV?;
    }
  }

  /** For one class and an object without null members, whose members keep their names in turn: the content is kept exactly
      if each member has the name on the wire of the field that it stands for. */
  lemma ClassKeepsContentExactlyIf(ct: ClassTable, reach: set<string>, v: Json, c: string, x: Value)
    requires Reaches(ct, reach, []) && DefaultsAreNone(ct, reach) && FieldNamesComeBack(ct, reach) && c in reach
    requires v.Obj? && Eligible(ct, v.members, ClassT(c), true) && Create(ct, v, c, true) == Some(x)
    requires forall k | k in v.members :: !v.members[k].Null? && NamesKept(ct, reach, v.members[k])
    ensures KeepsContent(v, Encode(ct, x)) <==> forall k | k in v.members :: OwnName(ct[c], k)
  {
    CreateCame(ct, reach, v, c);
    KeptExactlyIf(ct, reach, v, x);
    forall k | k in FieldsRead(ct, v.members, c) ensures Intact(ct, MemberOf(ct, v.members, c, k), x.fields[k]) {
      IntactWithNames(ct, reach, MemberOf(ct, v.members, c, k), x.fields[k]);
    }
    AllFieldsIntact(ct[c], v.members);
  }

  lemma IntactWithNames(ct: ClassTable, reach: set<string>, v: Json, x: Value)
    requires CameFrom(ct, reach, v, x) && DefaultsAreNone(ct, reach) && FieldNamesComeBack(ct, reach) && NamesKept(ct, reach, v)
    ensures Intact(ct, v, x)
  {
    KeptWithNames(ct, reach, v, x);
    KeptExactlyIf(ct, reach, v, x);
  }

  lemma AllFieldsIntact(c: Class, m: map<string, Json>)
    requires NamesRead(c.naming, m.Keys) <= c.fields.Keys && forall k | k in m :: !m[k].Null?
    ensures (forall f | f in NamesRead(c.naming, m.Keys) :: FieldIntact(c, m, f)) <==> forall k | k in m :: OwnName(c, k)
  {
    forall f | f in NamesRead(c.naming, m.Keys)
      ensures FieldIntact(c, m, f) <==> forall k | k in m && NameRead(c.naming, k) == f :: k == NameOnWire(c.naming, f)
    {
      IntactWithoutNulls(c, m, f);
    }
    assert forall k | k in m :: NameRead(c.naming, k) in NamesRead(c.naming, m.Keys);
  }
}
