/** How `from_dict` resolves a union, stated on the types and the names of the object alone: the first type that takes
    the value gives the result, but a dict type gives way to a class that is filled from the same object. */
module UnionResolution {
  import opened JsonTypes
  import opened Options
  import opened Decoder
  import opened UnionOrder

  // ---- What it takes to be filled ----

  /** Some member of the object stands for field `k`. */
  predicate Named(c: Class, m: map<string, Json>, k: string) { exists member | member in m :: NameRead(c.naming, member) == k }

  /** The object has a member for each required field, and if all names must be known, each member stands for a field. */
  predicate MayFill(c: Class, m: map<string, Json>, known: bool) {
    && (forall k | k in c.fields && c.fields[k].default.Required? :: Named(c, m, k))
    && (known ==> forall member | member in m :: NameRead(c.naming, member) in c.fields)
  }

  /** The number of fields that the object has members for. */
  function Shared(c: Class, m: map<string, Json>): nat { |set k | k in c.fields && Named(c, m, k)| }

  /** `x` is the object of class `c` in which each field has the value of its last member, or else its default. */
  ghost predicate FilledFrom(ct: ClassTable, v: Json, c: string, strict: bool, x: Value)
    requires v.Obj?
  {
    && c in ct && x.ObjectV? && x.name == c && x.fields.Keys == ct[c].fields.Keys
    && forall k | k in ct[c].fields ::
      if Named(ct[c], v.members, k) then
        Decode(ct, v.members[MemberFor(ct[c].naming, v.members.Keys, k)], [ct[c].fields[k].type_], strict) == Ok(x.fields[k])
      else
        !ct[c].fields[k].default.Required? && x.fields[k] == ct[c].fields[k].default.value
  }

  lemma NamedExactlyIf(ct: ClassTable, m: map<string, Json>, c: string, k: string)
    requires c in ct
    ensures Named(ct[c], m, k) <==> k in FieldsRead(ct, m, c)
  {
  }

  lemma EligibleExactlyIf(ct: ClassTable, m: map<string, Json>, t: Type, known: bool)
    ensures Eligible(ct, m, t, known) <==> t.ClassT? && t.name in ct && MayFill(ct[t.name], m, known)
  {
    if t.ClassT? && t.name in ct {
      forall k ensures Named(ct[t.name], m, k) <==> k in FieldsRead(ct, m, t.name) { NamedExactlyIf(ct, m, t.name, k); }
      assert forall member | member in m :: NameRead(ct[t.name].naming, member) in FieldsRead(ct, m, t.name);
    }
  }

  lemma SharedIsCounted(ct: ClassTable, m: map<string, Json>, c: string)
    requires c in ct
    ensures SharedKeys(ct, m, c) == Shared(ct[c], m)
  {
    assert FieldsRead(ct, m, c) * ct[c].fields.Keys == set k | k in ct[c].fields && Named(ct[c], m, k);
  }

  lemma FilledExactlyIfCreated(ct: ClassTable, v: Json, c: string, strict: bool, x: Value)
    requires v.Obj?
    ensures Create(ct, v, c, strict) == Some(x) <==> FilledFrom(ct, v, c, strict, x)
  {
    if c in ct {
      forall k ensures Named(ct[c], v.members, k) <==> k in FieldsRead(ct, v.members, c) { NamedExactlyIf(ct, v.members, c, k); }
      if FilledFrom(ct, v, c, strict, x) {
        assert Create(ct, v, c, strict).Some? && Create(ct, v, c, strict).value.fields == x.fields;
      }
    }
  }

  /** Class `ts[i]` is filled as `x`; of the other classes that may be filled none shares more fields with the object, and
      none that shares equally many can be filled. */
  ghost predicate Wins(ct: ClassTable, v: Json, ts: seq<Type>, i: nat, known: bool, strict: bool, x: Value)
    requires v.Obj?
  {
    && i < |ts| && ts[i].ClassT? && FilledFrom(ct, v, ts[i].name, strict, x) && MayFill(ct[ts[i].name], v.members, known)
    && forall j | 0 <= j < |ts| && j != i && ts[j].ClassT? && ts[j].name in ct && MayFill(ct[ts[j].name], v.members, known) ::
      var own, other := Shared(ct[ts[i].name], v.members), Shared(ct[ts[j].name], v.members);
      other < own || (other == own && forall y :: !FilledFrom(ct, v, ts[j].name, strict, y))
  }

  lemma NotFilled(ct: ClassTable, v: Json, c: string, strict: bool)
    requires v.Obj?
    ensures Create(ct, v, c, strict).None? <==> forall y :: !FilledFrom(ct, v, c, strict, y)
  {
    forall y { FilledExactlyIfCreated(ct, v, c, strict, y); }
    if Create(ct, v, c, strict).Some? { assert FilledFrom(ct, v, c, strict, Create(ct, v, c, strict).value); }
  }

  lemma WinsExactlyIfPrevails(ct: ClassTable, v: Json, ts: seq<Type>, i: nat, known: bool, strict: bool, x: Value)
    requires v.Obj? && i < |ts|
    ensures Wins(ct, v, ts, i, known, strict, x) <==>
      && Eligible(ct, v.members, ts[i], known) && Create(ct, v, ts[i].name, strict) == Some(x)
      && Prevails(ct, v, ts, i, known, strict)
  {
    if ts[i].ClassT? {
      FilledExactlyIfCreated(ct, v, ts[i].name, strict, x);
    }
    forall j | 0 <= j < |ts|
      ensures Eligible(ct, v.members, ts[j], known) <==>
        ts[j].ClassT? && ts[j].name in ct && MayFill(ct[ts[j].name], v.members, known)
      ensures ts[j].ClassT? && ts[j].name in ct ==>
        && SharedKeys(ct, v.members, ts[j].name) == Shared(ct[ts[j].name], v.members)
        && (Create(ct, v, ts[j].name, strict).None? <==> forall y :: !FilledFrom(ct, v, ts[j].name, strict, y))
    {
      EligibleExactlyIf(ct, v.members, ts[j], known);
      if ts[j].ClassT? && ts[j].name in ct {
        SharedIsCounted(ct, v.members, ts[j].name);
        NotFilled(ct, v, ts[j].name, strict);
      }
    }
  }

  /** The second pass creates `x` and nothing else exactly if some class wins as `x`. */
  lemma CreatedExactlyIfWins(ct: ClassTable, v: Json, ts: seq<Type>, known: bool, strict: bool, x: Value)
    requires v.Obj?
    ensures CreateAll(ct, v, BestClasses(ct, v.members, ts, known), strict) == [x] <==>
      exists i: nat :: Wins(ct, v, ts, i, known, strict, x)
  {
    var created := CreateAll(ct, v, BestClasses(ct, v.members, ts, known), strict);
    if created == [x] {
      assert x in created;
      var i := CreatedFrom(ct, v, ts, known, strict, x);
      CreatedAloneExactlyIf(ct, v, ts, i, known, strict);
      WinsExactlyIfPrevails(ct, v, ts, i, known, strict, x);
    }
    if i: nat :| Wins(ct, v, ts, i, known, strict, x) {
      WinsExactlyIfPrevails(ct, v, ts, i, known, strict, x);
      CreatedAloneExactlyIf(ct, v, ts, i, known, strict);
    }
  }

  // ---- The two passes ----

  /** `ts[d]` is the first type that takes the value. */
  predicate TakesFirst(ct: ClassTable, v: Json, ts: seq<Type>, d: nat, strict: bool) {
    d < |ts| && Takes(ct, v, ts[d], strict) && forall j | 0 <= j < d :: !Takes(ct, v, ts[j], strict)
  }

  lemma {:induction false} ScanStops(ct: ClassTable, v: Json, ts: seq<Type>, d: nat, i: nat, strict: bool)
    requires TakesFirst(ct, v, ts, d, strict) && i <= d
    ensures Scan(ct, v, ts, i, strict) == EndWith(ct, v, ts[d], |ts|, strict)
    decreases d - i
  {
    if i < d { ScanStops(ct, v, ts, d, i + 1, strict); }
  }

  lemma {:induction false} ScanRunsOut(ct: ClassTable, v: Json, ts: seq<Type>, i: nat, strict: bool)
    requires i <= |ts| && forall j | 0 <= j < |ts| :: !Takes(ct, v, ts[j], strict)
    ensures Scan(ct, v, ts, i, strict) == Exhausted
    decreases |ts| - i
  {
    if i < |ts| { ScanRunsOut(ct, v, ts, i + 1, strict); }
  }

  /** The first type that takes the value decides, unless it is a dict type next to others. */
  lemma FirstTypeDecides(ct: ClassTable, v: Json, ts: seq<Type>, d: nat, strict: bool)
    requires TakesFirst(ct, v, ts, d, strict) && (!ts[d].DictT? || |ts| == 1)
    ensures Decode(ct, v, ts, strict) == Ok(Handle(ct, v, ts[d], strict).value)
  {
    ScanStops(ct, v, ts, d, 0, strict);
  }

  /** A dict type next to others that takes an object gives way to a class exactly if that class wins among those that know
      all names of the object; and if no class does, the dict comes out. */
  lemma ClassGoesBeforeDict(ct: ClassTable, v: Json, ts: seq<Type>, d: nat, strict: bool, x: Value)
    requires TakesFirst(ct, v, ts, d, strict) && ts[d].DictT? && |ts| > 1
    ensures v.Obj?
    ensures x.ObjectV? ==> (Decode(ct, v, ts, strict) == Ok(x) <==> exists i: nat :: Wins(ct, v, ts, i, true, strict, x))
    ensures (forall i: nat, y :: !Wins(ct, v, ts, i, true, strict, y)) ==>
      Decode(ct, v, ts, strict) == Ok(Handle(ct, v, ts[d], strict).value)
  {
    ScanStops(ct, v, ts, d, 0, strict);
    CreatedExactlyIfWins(ct, v, ts, true, strict, x);
    var created := CreateAll(ct, v, BestClasses(ct, v.members, ts, true), strict);
    if |created| == 1 {
      CreatedExactlyIfWins(ct, v, ts, true, strict, created[0]);
    }
  }

  /** Where no type takes the value, a class comes out exactly if it wins; otherwise it is a TypeError. */
  lemma ClassComesLast(ct: ClassTable, v: Json, ts: seq<Type>, strict: bool, x: Value)
    requires ts != [] && forall j | 0 <= j < |ts| :: !Takes(ct, v, ts[j], strict)
    ensures v.Obj? ==> (Decode(ct, v, ts, strict) == Ok(x) <==> exists i: nat :: Wins(ct, v, ts, i, strict, strict, x))
    ensures v.Obj? && (forall i: nat, y :: !Wins(ct, v, ts, i, strict, strict, y)) ==> Decode(ct, v, ts, strict) == TypeError
    ensures !v.Obj? ==> Decode(ct, v, ts, strict) == TypeError
  {
    ScanRunsOut(ct, v, ts, 0, strict);
    if v.Obj? {
      CreatedExactlyIfWins(ct, v, ts, strict, strict, x);
      var created := CreateAll(ct, v, BestClasses(ct, v.members, ts, strict), strict);
      if |created| == 1 {
        CreatedExactlyIfWins(ct, v, ts, strict, strict, created[0]);
      }
    }
  }

  /** A class that has all the fields of another one that the object has members for, and at least one more, is ahead. */
  lemma MoreFieldsAreAhead(c: Class, d: Class, m: map<string, Json>, more: string)
    requires forall k | k in c.fields && Named(c, m, k) :: k in d.fields && Named(d, m, k)
    requires more in d.fields && Named(d, m, more) && !(more in c.fields && Named(c, m, more))
    ensures Shared(c, m) < Shared(d, m)
  {
    var few, many := set k | k in c.fields && Named(c, m, k), set k | k in d.fields && Named(d, m, k);
    assert few <= many && more in many && more !in few;
    FewerElements(few, many, more);
  }

  lemma FewerElements(few: set<string>, many: set<string>, x: string)
    requires few <= many && x in many && x !in few
    ensures |few| < |many|
  {
    assert x in many - few;
    assert many == few + (many - few);
  }
}
