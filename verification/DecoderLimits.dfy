/** Inputs at which a promise of the decoder ends: each shows that a condition of the theorems cannot be left out. */
module DecoderLimits {
  import AsciiText
  import opened CaseConversion
  import opened JsonTypes
  import opened Options
  import opened Decoder
  import opened StrictDecoding
  import opened RoundTrips
  import opened UnionOrder
  import opened UnionResolution

  // ---- A None that is lost ----

  const RETRIES := Field(UnionT([IntT, NoneT]), Plain(IntV(5)))
  const OPTIONS: ClassTable := map["Options" := Class(map["retries" := RETRIES], AsIs)]

  lemma OptionsUnambiguous()
    ensures TableUnambiguous(OPTIONS)
    ensures Inhabits(OPTIONS, NoneV, RETRIES.type_)
  {
    var ts := RETRIES.type_.args;
    assert ts[0] == IntT && ts[1] == NoneT;
    assert Inhabits(OPTIONS, IntV(5), ts[0]) && Inhabits(OPTIONS, NoneV, ts[1]);
    assert Inhabits(OPTIONS, IntV(5), RETRIES.type_);
    assert Unambiguous(OPTIONS, RETRIES.type_);
  }

  /** A field that may be None but defaults to something else loses its None. */
  lemma NoneIsLost(x: Value)
    requires x == ObjectV("Options", map["retries" := NoneV])
    ensures Inhabits(OPTIONS, x, ClassT("Options"))
    ensures Decode(OPTIONS, Encode(OPTIONS, x), [ClassT("Options")], true) != Ok(x)
  {
    OptionsUnambiguous();
    assert x.fields["retries"].NoneV? && LeftOut(OPTIONS, "Options", "retries", NoneV);
    RoundTrip(OPTIONS, x, ClassT("Options"), true);
  }

  // ---- Names that meet or do not come back ----

  /** A class with one required integer. */
  function OneInt(f: string, naming: Naming): Class { Class(map[f := Field(IntT, Required)], naming) }

  lemma IntDecodes(ct: ClassTable, v: Json, strict: bool)
    requires v.Int?
    ensures Decode(ct, v, [IntT], strict) == Ok(IntV(v.i))
  {
    assert [IntT][0] == IntT;
    assert Handle(ct, v, IntT, strict) == Fits(IntV(v.i));
    assert Scan(ct, v, [IntT], 0, strict) == Returned(IntV(v.i));
  }

  /** It is filled if all members stand for its field, from the last of them. */
  lemma OneIntFilled(ct: ClassTable, v: Json, c: string, f: string, naming: Naming, strict: bool)
    requires c in ct && ct[c] == OneInt(f, naming) && v.Obj? && FieldsRead(ct, v.members, c) == {f}
    requires forall k | k in v.members :: v.members[k].Int?
    ensures Eligible(ct, v.members, ClassT(c), strict) && SharedKeys(ct, v.members, c) == 1
    ensures Create(ct, v, c, strict) == Some(ObjectV(c, map[f := IntV(MemberOf(ct, v.members, c, f).i)]))
  {
    var member := MemberOf(ct, v.members, c, f);
    IntDecodes(ct, member, strict);
    CreatedAgain(ct, c, map[f := IntV(member.i)], v.members, strict);
    OneShared(ct, v.members, c, f, naming);
  }

  lemma OneShared(ct: ClassTable, m: map<string, Json>, c: string, f: string, naming: Naming)
    requires c in ct && ct[c] == OneInt(f, naming) && FieldsRead(ct, m, c) == {f}
    ensures SharedKeys(ct, m, c) == 1
  {
    assert FieldsRead(ct, m, c) * ct[c].fields.Keys == {f};
  }

  lemma OneClassDecodes(ct: ClassTable, v: Json, c: string, strict: bool)
    requires v.Obj?
    ensures Eligible(ct, v.members, ClassT(c), strict) && Create(ct, v, c, strict).Some? ==>
      Decode(ct, v, [ClassT(c)], strict) == Ok(Create(ct, v, c, strict).value)
    ensures !Eligible(ct, v.members, ClassT(c), strict) ==> Decode(ct, v, [ClassT(c)], strict) == TypeError
  {
    var ts := [ClassT(c)];
    assert ts[0] == ClassT(c) && Handle(ct, v, ts[0], strict) == Misses;
    assert Scan(ct, v, ts, 1, strict) == Exhausted;
    if Eligible(ct, v.members, ClassT(c), strict) {
      OneEligible(ct, v.members, ts, 0, strict);
      if Create(ct, v, c, strict).Some? {
        TheOneClass(ct, v, ts, c, Create(ct, v, c, strict).value, strict);
      }
    } else {
      NoneEligible(ct, v.members, ts, strict);
      NothingCreated(ct, v, ts, Exhausted, strict);
    }
  }

  lemma OneIntWritten(ct: ClassTable, c: string, f: string, naming: Naming, i: int)
    requires c in ct && ct[c] == OneInt(f, naming)
    ensures var x := ObjectV(c, map[f := IntV(i)]);
      Inhabits(ct, x, ClassT(c)) && Encode(ct, x).Obj? && Encode(ct, x).members == map[NameOnWire(naming, f) := Int(i)]
  {
    var x := ObjectV(c, map[f := IntV(i)]);
    assert Inhabits(ct, IntV(i), IntT);
    OneFieldWritten(ct, c, f, naming, x.fields);
  }

  lemma OneFieldWritten(ct: ClassTable, c: string, f: string, naming: Naming, fs: map<string, Value>)
    requires c in ct && ct[c] == OneInt(f, naming) && fs.Keys == {f} && !fs[f].NoneV?
    ensures Written(ct, c, fs) == {f} && NamesOnWire(naming, {f}) == {NameOnWire(naming, f)}
    ensures Encode(ct, ObjectV(c, fs)) == Obj(map[NameOnWire(naming, f) := Encode(ct, fs[f])])
  {
    OneLeft(ct, c, f, naming, fs);
    OneName(naming, f);
    var m := Encode(ct, ObjectV(c, fs)).members;
    WrittenMembers(ct, c, fs, m);
    assert m == map[NameOnWire(naming, f) := Encode(ct, fs[f])];
  }

  lemma OneLeft(ct: ClassTable, c: string, f: string, naming: Naming, fs: map<string, Value>)
    requires c in ct && ct[c] == OneInt(f, naming) && fs.Keys == {f} && !fs[f].NoneV?
    ensures Written(ct, c, fs) == {f}
  {
    assert f in fs;
  }

  lemma OneName(naming: Naming, f: string)
    ensures NamesOnWire(naming, {f}) == {NameOnWire(naming, f)} && FieldFor(naming, {f}, NameOnWire(naming, f)) == f
  {
    assert NameOnWire(naming, f) in NamesOnWire(naming, {f});
  }

  lemma OneMember(ct: ClassTable, c: string, f: string, naming: Naming, wire: string, m: map<string, Json>)
    requires c in ct && ct[c] == OneInt(f, naming) && m.Keys == {wire}
    ensures FieldsRead(ct, m, c) == {NameRead(naming, wire)}
  {
    assert wire in m;
  }

  lemma MissesItsField(ct: ClassTable, c: string, f: string, naming: Naming, m: map<string, Json>, known: bool)
    requires c in ct && ct[c] == OneInt(f, naming) && f !in FieldsRead(ct, m, c)
    ensures !Eligible(ct, m, ClassT(c), known)
  {
    assert ct[c].fields[f].default.Required?;
  }

  /** Two members that stand for one field leave one value, in strict mode too. */
  lemma OneOfTwoIsDropped(ct: ClassTable, c: string, f: string, a: string, b: string, naming: Naming, v: Json)
    requires c in ct && ct[c] == OneInt(f, naming) && naming.Camel? && a != b && ToSnake(a) == f && ToSnake(b) == f
    requires v.Obj? && v.members == map[a := Int(1), b := Int(2)]
    ensures !NamesKept(ct, {c}, v)
    ensures var d := Decode(ct, v, [ClassT(c)], true); d.Ok? && !KeepsContent(v, Encode(ct, d.value))
  {
    TwoNames(ct, c, f, a, b, naming, v);
    OneIntFilled(ct, v, c, f, naming, true);
    OneClassDecodes(ct, v, c, true);
    var i := MemberOf(ct, v.members, c, f).i;
    OneIntWritten(ct, c, f, naming, i);
    OneIsMissing(v, Encode(ct, ObjectV(c, map[f := IntV(i)])), a, b, NameOnWire(naming, f));
  }

  lemma TwoNames(ct: ClassTable, c: string, f: string, a: string, b: string, naming: Naming, v: Json)
    requires c in ct && ct[c] == OneInt(f, naming) && naming.Camel? && a != b && ToSnake(a) == f && ToSnake(b) == f
    requires v.Obj? && v.members.Keys == {a, b}
    ensures FieldsRead(ct, v.members, c) == {f} && !NamesKept(ct, {c}, v)
  {
    assert NameRead(naming, a) == f && NameRead(naming, b) == f;
    assert a in v.members && b in v.members;
    assert !OwnName(ct[c], a) || !OwnName(ct[c], b);
    assert c in {c};
  }

  /** For example `fooBar` and `foo_bar`. */
  lemma FooBarIsDropped(ct: ClassTable, c: string, naming: Naming, v: Json)
    requires c in ct && ct[c] == OneInt("foo_bar", naming) && naming.Camel?
    requires v.Obj? && v.members == map["fooBar" := Int(1), "foo_bar" := Int(2)]
    ensures var d := Decode(ct, v, [ClassT(c)], true); d.Ok? && !KeepsContent(v, Encode(ct, d.value))
  {
    FooBar();
    assert "fooBar" != "foo_bar" by { assert "fooBar"[3] != "foo_bar"[3]; }
    OneOfTwoIsDropped(ct, c, "foo_bar", "fooBar", "foo_bar", naming, v);
  }

  lemma OneIsMissing(v: Json, w: Json, a: string, b: string, wire: string)
    requires v.Obj? && v.members == map[a := Int(1), b := Int(2)] && a != b && w.Obj? && w.members.Keys == {wire}
    ensures !KeepsContent(v, w)
  {
    var lost := if a == wire then b else a;
    assert lost in v.members && lost !in w.members && !v.members[lost].Null?;
  }

  /** A class comes back exactly if the name of its field does: in camel case, one that starts with an underscore does not. */
  lemma NameIsLost(ct: ClassTable, c: string, f: string, naming: Naming, i: int, strict: bool)
    requires c in ct && ct[c] == OneInt(f, naming)
    ensures var x := ObjectV(c, map[f := IntV(i)]);
      && Inhabits(ct, x, ClassT(c))
      && Decode(ct, Encode(ct, x), [ClassT(c)], strict) == if NameComesBack(naming, f) then Ok(x) else TypeError
  {
    OneIntWritten(ct, c, f, naming, i);
    OneIntRead(ct, c, f, naming, i, Encode(ct, ObjectV(c, map[f := IntV(i)])), strict);
  }

  /** Of the names in the usual style, exactly those with a leading underscore do not come back from camel case. */
  lemma LeadingUnderscore(naming: Naming, f: string)
    requires naming.Camel? && SnakeName(f) && f != ""
    ensures NameComesBack(naming, f) <==> f[0] != '_'
  {
    SnakeRoundTrip(f);
  }

  /** A snake-case name is read back without a leading underscore that it has. */
  lemma UnderscoreDropped(naming: Naming, f: string)
    requires naming.Camel? && SnakeName(f)
    ensures NameRead(naming, NameOnWire(naming, f)) == if f != "" && f[0] == '_' then f[1..] else f
  {
    var u := WithoutLead(f);
    if f != "" && f[0] == '_' && u != "" {
      SnakeOfCamelTail(u[1..]);
      var c := ToCamel(f);
      assert c == [AsciiText.LowerOf(u[0])] + CamelTail(u[1..]) && c[1..] == CamelTail(u[1..]);
      assert AsciiText.LowerOf(u[0]) == u[0];
      UnderscoredKept(u[0], CamelTail(u[1..]));
      assert u == [u[0]] + u[1..];
    } else if f != "" && f[0] != '_' {
      SnakeRoundTrip(f);
    }
  }

  lemma UnderscoredKept(c: char, rest: string)
    requires (AsciiText.IsLower(c) || AsciiText.IsDigit(c) || c == '_') && Underscored(rest) == rest
    ensures Underscored([c] + rest) == [c] + rest
  {
    Tail(c, rest);
    assert Underscored([c]) == [c];
  }

  /** Among snake-case names with a leading underscore the longest is read from none of them. */
  lemma LongestIsNotRead(naming: Naming, names: set<string>, f: string)
    requires naming.Camel? && forall k | k in names :: SnakeName(k) && k != ""
    requires f in names && f[0] == '_' && forall k | k in names && k[0] == '_' :: |k| <= |f|
    ensures f !in NamesRead(naming, NamesOnWire(naming, names))
  {
    forall k | k in names ensures NameRead(naming, NameOnWire(naming, k)) != f {
      UnderscoreDropped(naming, k);
    }
  }

  lemma {:induction false} Longest(names: set<string>) returns (f: string)
    requires names != {}
    ensures f in names && forall k | k in names :: |k| <= |f|
    decreases names
  {
    var k :| k in names;
    var rest := names - {k};
    f := k;
    assert forall l | l in names :: l == k || l in rest;
    if rest != {} {
      var g := Longest(rest);
      f := if |g| < |k| then k else g;
    }
  }

  /** A class in camel case whose fields are all required, with names in snake case and values that come back one by one,
      comes back exactly if no name starts with an underscore; otherwise decoding fails. */
  lemma CamelClassComesBackExactlyIf(ct: ClassTable, c: string, fs: map<string, Value>, strict: bool)
    requires c in ct && ct[c].naming.Camel? && fs.Keys == ct[c].fields.Keys
    requires forall k | k in fs :: ct[c].fields[k].default.Required? && SnakeName(k) && k != ""
    requires forall k | k in fs :: Decode(ct, Encode(ct, fs[k]), [ct[c].fields[k].type_], strict) == Ok(fs[k])
    ensures Decode(ct, Encode(ct, ObjectV(c, fs)), [ClassT(c)], strict) ==
      if forall k | k in fs :: k[0] != '_' then Ok(ObjectV(c, fs)) else TypeError
  {
    if forall k | k in fs :: k[0] != '_' {
      CamelClassComesBack(ct, c, fs, strict);
    } else {
      CamelClassIsLost(ct, c, fs, strict);
    }
  }

  lemma CamelClassComesBack(ct: ClassTable, c: string, fs: map<string, Value>, strict: bool)
    requires c in ct && ct[c].naming.Camel? && fs.Keys == ct[c].fields.Keys
    requires forall k | k in fs :: ct[c].fields[k].default.Required? && SnakeName(k) && k != "" && k[0] != '_'
    requires forall k | k in fs :: Decode(ct, Encode(ct, fs[k]), [ct[c].fields[k].type_], strict) == Ok(fs[k])
    ensures Decode(ct, Encode(ct, ObjectV(c, fs)), [ClassT(c)], strict) == Ok(ObjectV(c, fs))
  {
    var v := Encode(ct, ObjectV(c, fs));
    AllWritten(ct, c, fs);
    FilledAgain(ct, c, fs, v.members, strict);
    OneClassDecodes(ct, v, c, strict);
  }

  lemma CamelClassIsLost(ct: ClassTable, c: string, fs: map<string, Value>, strict: bool)
    requires c in ct && ct[c].naming.Camel? && fs.Keys == ct[c].fields.Keys
    requires forall k | k in fs :: ct[c].fields[k].default.Required? && SnakeName(k) && k != ""
    requires exists k | k in fs :: k[0] == '_'
    ensures Decode(ct, Encode(ct, ObjectV(c, fs)), [ClassT(c)], strict) == TypeError
  {
    var v := Encode(ct, ObjectV(c, fs));
    AllWritten(ct, c, fs);
    UnderscoreMisses(ct, c, v.members, strict);
    OneClassDecodes(ct, v, c, strict);
  }

  /** Without the longest name that starts with an underscore, a field is missing. */
  lemma UnderscoreMisses(ct: ClassTable, c: string, m: map<string, Json>, known: bool)
    requires c in ct && ct[c].naming.Camel? && m.Keys == NamesOnWire(ct[c].naming, ct[c].fields.Keys)
    requires forall k | k in ct[c].fields :: ct[c].fields[k].default.Required? && SnakeName(k) && k != ""
    requires exists k | k in ct[c].fields :: k[0] == '_'
    ensures !Eligible(ct, m, ClassT(c), known)
  {
    var lost := set k | k in ct[c].fields && k != "" && k[0] == '_';
    assert lost != {} by { var k :| k in ct[c].fields && k[0] == '_'; assert k in lost; }
    var f := Longest(lost);
    LongestIsNotRead(ct[c].naming, ct[c].fields.Keys, f);
    assert f !in FieldsRead(ct, m, c) && ct[c].fields[f].default.Required?;
  }

  lemma AllWritten(ct: ClassTable, c: string, fs: map<string, Value>)
    requires c in ct && fs.Keys == ct[c].fields.Keys && forall k | k in fs :: ct[c].fields[k].default.Required?
    ensures Written(ct, c, fs) == fs.Keys
    ensures var v := Encode(ct, ObjectV(c, fs)); v.Obj? && v.members.Keys == NamesOnWire(ct[c].naming, fs.Keys)
  {
  }

  lemma FilledAgain(ct: ClassTable, c: string, fs: map<string, Value>, m: map<string, Json>, strict: bool)
    requires c in ct && ct[c].naming.Camel? && fs.Keys == ct[c].fields.Keys && Written(ct, c, fs) == fs.Keys
    requires forall k | k in fs :: SnakeName(k) && k != "" && k[0] != '_'
    requires m == Encode(ct, ObjectV(c, fs)).members
    requires forall k | k in fs :: Decode(ct, Encode(ct, fs[k]), [ct[c].fields[k].type_], strict) == Ok(fs[k])
    ensures Eligible(ct, m, ClassT(c), strict) && Create(ct, Obj(m), c, strict) == Some(ObjectV(c, fs))
  {
    UsualNamesComeBack(ct[c].naming, fs.Keys);
    WrittenMembers(ct, c, fs, m);
    MembersComeBack(ct, c, fs, m);
    CreatedAgain(ct, c, fs, m, strict);
  }

  lemma UsualNamesComeBack(naming: Naming, names: set<string>)
    requires naming.Camel? && forall k | k in names :: SnakeName(k) && k != "" && k[0] != '_'
    ensures forall k | k in names :: NameComesBack(naming, k)
  {
    forall k | k in names { LeadingUnderscore(naming, k); }
  }

  lemma WrittenMembers(ct: ClassTable, c: string, fs: map<string, Value>, m: map<string, Json>)
    requires c in ct && fs.Keys == ct[c].fields.Keys && m == Encode(ct, ObjectV(c, fs)).members
    ensures m.Keys == NamesOnWire(ct[c].naming, Written(ct, c, fs))
    ensures forall k | k in m :: m[k] == Encode(ct, fs[FieldFor(ct[c].naming, Written(ct, c, fs), k)])
  {
  }

  lemma CreatedAgain(ct: ClassTable, c: string, fs: map<string, Value>, m: map<string, Json>, strict: bool)
    requires c in ct && fs.Keys == ct[c].fields.Keys && FieldsRead(ct, m, c) == fs.Keys
    requires forall k | k in fs :: Decode(ct, MemberOf(ct, m, c, k), [ct[c].fields[k].type_], strict) == Ok(fs[k])
    ensures Eligible(ct, m, ClassT(c), strict) && Create(ct, Obj(m), c, strict) == Some(ObjectV(c, fs))
  {
    var x := Create(ct, Obj(m), c, strict);
    assert x.Some? && x.value.fields == fs;
  }

  lemma OneIntRead(ct: ClassTable, c: string, f: string, naming: Naming, i: int, v: Json, strict: bool)
    requires c in ct && ct[c] == OneInt(f, naming) && v.Obj? && v.members == map[NameOnWire(naming, f) := Int(i)]
    ensures Decode(ct, v, [ClassT(c)], strict) ==
      if NameComesBack(naming, f) then Ok(ObjectV(c, map[f := IntV(i)])) else TypeError
  {
    OneMember(ct, c, f, naming, NameOnWire(naming, f), v.members);
    if NameComesBack(naming, f) {
      OneIntReadBack(ct, v, c, f, naming, i, strict);
    } else {
      MissesItsField(ct, c, f, naming, v.members, strict);
      OneClassDecodes(ct, v, c, strict);
    }
  }

  /** A dict type gives way to a class that knows the only name of the object. */
  lemma ClassInsteadOfDict(ct: ClassTable, c: string, f: string, i: int, v: Json, strict: bool)
    requires c in ct && ct[c] == OneInt(f, AsIs) && v.Obj? && v.members == map[f := Int(i)]
    ensures Decode(ct, v, [DictT([]), ClassT(c)], strict) == Ok(ObjectV(c, map[f := IntV(i)]))
  {
    var ts, x := [DictT([]), ClassT(c)], ObjectV(c, map[f := IntV(i)]);
    OneMember(ct, c, f, AsIs, f, v.members);
    OneIntFilled(ct, v, c, f, AsIs, strict);
    EligibleEither(ct, v, c, strict);
    DictHasNoKeys(ct, v, c, strict);
    WinsExactlyIfPrevails(ct, v, ts, 1, true, strict, x);
    ClassGoesBeforeDict(ct, v, ts, 0, strict, x);
  }

  lemma DictHasNoKeys(ct: ClassTable, v: Json, c: string, strict: bool)
    requires c in ct && v.Obj?
    ensures var ts := [DictT([]), ClassT(c)]; TakesFirst(ct, v, ts, 0, strict) && Prevails(ct, v, ts, 1, true, strict)
  {
    forall k | k in v.members ensures Decode(ct, v.members[k], [], strict).Ok? {}
    assert Handle(ct, v, DictT([]), strict).Fits?;
  }

  lemma EligibleEither(ct: ClassTable, v: Json, c: string, strict: bool)
    requires c in ct && v.Obj? && Eligible(ct, v.members, ClassT(c), strict) && FieldsRead(ct, v.members, c) <= ct[c].fields.Keys
    ensures Eligible(ct, v.members, ClassT(c), true)
  {
  }

  lemma OneIntReadBack(ct: ClassTable, v: Json, c: string, f: string, naming: Naming, i: int, strict: bool)
    requires c in ct && ct[c] == OneInt(f, naming) && v.Obj? && FieldsRead(ct, v.members, c) == {f}
    requires forall k | k in v.members :: v.members[k] == Int(i)
    ensures Decode(ct, v, [ClassT(c)], strict) == Ok(ObjectV(c, map[f := IntV(i)]))
  {
    OneIntFilled(ct, v, c, f, naming, strict);
    OneClassDecodes(ct, v, c, strict);
  }

  /** A class in camel case and a plain one can have the same member on the wire, although their fields have different
      names. Then neither of them comes back. */
  lemma NamesMeetOnTheWire(ct: ClassTable, a: string, b: string, f: string, naming: Naming, i: int, strict: bool)
    requires naming.Camel? && a != b && NameComesBack(naming, f)
    requires a in ct && b in ct && ct[a] == OneInt(f, naming) && ct[b] == OneInt(ToCamel(f), AsIs)
    ensures var v := Encode(ct, ObjectV(a, map[f := IntV(i)]));
      v == Encode(ct, ObjectV(b, map[ToCamel(f) := IntV(i)])) && Decode(ct, v, [ClassT(a), ClassT(b)], strict) == TypeError
    ensures !Apart(ct, ClassT(a), ClassT(b))
  {
    var v := Encode(ct, ObjectV(a, map[f := IntV(i)]));
    OneIntWritten(ct, a, f, naming, i);
    OneIntWritten(ct, b, ToCamel(f), AsIs, i);
    OneMember(ct, a, f, naming, ToCamel(f), v.members);
    OneMember(ct, b, ToCamel(f), AsIs, ToCamel(f), v.members);
    OneIntFilled(ct, v, a, f, naming, strict);
    OneIntFilled(ct, v, b, ToCamel(f), AsIs, strict);
    BothFilled(ct, v, a, b, strict);
    NotApart(ct, a, b, f, naming);
  }

  lemma NotApart(ct: ClassTable, a: string, b: string, f: string, naming: Naming)
    requires naming.Camel? && NameComesBack(naming, f)
    requires a in ct && b in ct && ct[a] == OneInt(f, naming) && ct[b] == OneInt(ToCamel(f), AsIs)
    ensures !Apart(ct, ClassT(a), ClassT(b))
  {
    assert Reads(ClassT(a), ObjKind) && Reads(ClassT(b), ObjKind);
    assert ToCamel(f) in NamesOnWire(AsIs, ct[b].fields.Keys);
    assert f in NamesRead(naming, NamesOnWire(AsIs, ct[b].fields.Keys));
  }

  lemma BothFilled(ct: ClassTable, v: Json, a: string, b: string, strict: bool)
    requires v.Obj? && Eligible(ct, v.members, ClassT(a), strict) && Eligible(ct, v.members, ClassT(b), strict)
    requires SharedKeys(ct, v.members, a) == SharedKeys(ct, v.members, b)
    requires Create(ct, v, a, strict).Some? && Create(ct, v, b, strict).Some?
    ensures Decode(ct, v, [ClassT(a), ClassT(b)], strict) == TypeError
  {
    var ts := [ClassT(a), ClassT(b)];
    BothBest(ct, v.members, a, b, strict);
    BothCreated(ct, v, a, b, strict);
    ClassesTakeNothing(ct, v, ts, 0, strict);
    assert Decode(ct, v, ts, strict) == AfterScan(ct, v, ts, Exhausted, strict);
  }

  lemma BothBest(ct: ClassTable, m: map<string, Json>, a: string, b: string, known: bool)
    requires Eligible(ct, m, ClassT(a), known) && Eligible(ct, m, ClassT(b), known)
    requires SharedKeys(ct, m, a) == SharedKeys(ct, m, b)
    ensures BestClasses(ct, m, [ClassT(a), ClassT(b)], known) == [a, b]
  {
    OneEligible(ct, m, [ClassT(a)], 0, known);
    OneMoreType(ct, m, [ClassT(a)], ClassT(b), known);
    assert [ClassT(a)] + [ClassT(b)] == [ClassT(a), ClassT(b)] && [a] + [b] == [a, b];
  }

  lemma BothCreated(ct: ClassTable, v: Json, a: string, b: string, strict: bool)
    requires v.Obj? && Create(ct, v, a, strict).Some? && Create(ct, v, b, strict).Some?
    ensures |CreateAll(ct, v, [a, b], strict)| == 2
  {
    assert [a, b][..1] == [a] && [a][..0] == [];
    assert |CreateAll(ct, v, [a], strict)| == 1;
  }

  lemma FooBar()
    ensures ToSnake("fooBar") == "foo_bar" && ToSnake("foo_bar") == "foo_bar"
  {
    OoBar();
    CamelHead('f', "oo_bar");
    assert ['f'] + "oo_bar" == "foo_bar" && ['f'] + "ooBar" == "fooBar";
    BothSnake("foo_bar", "fooBar");
  }

  /** A field name and its camel case both stand for the field. */
  lemma BothSnake(f: string, a: string)
    requires FieldName(f) && a == ToCamel(f)
    ensures ToSnake(a) == f && ToSnake(f) == f
  {
    SnakeRoundTrip(f);
    SnakeNameStays(f);
  }

  lemma CamelHead(c: char, t: string)
    requires AsciiText.IsLower(c)
    ensures ToCamel([c] + t) == [c] + CamelTail(t)
  {
    assert WithoutLead([c] + t) == [c] + t && ([c] + t)[1..] == t;
  }

  lemma OoBar()
    ensures CamelTail("oo_bar") == "ooBar"
  {
    CamelStep('o', "o_bar");
    CamelStep('o', "_bar");
    CamelCapital('b', "ar");
    CamelStep('a', "r");
    CamelStep('r', "");
    assert ['o'] + "o_bar" == "oo_bar" && ['o'] + "_bar" == "o_bar" && ['_', 'b'] + "ar" == "_bar";
    assert ['a'] + "r" == "ar" && ['r'] + "" == "r";
  }

  lemma CamelStep(c: char, t: string)
    requires !IsSeparator(c)
    ensures CamelTail([c] + t) == [c] + CamelTail(t)
  {
    assert ([c] + t)[1..] == t;
  }

  lemma CamelCapital(c: char, t: string)
    requires AsciiText.IsLower(c)
    ensures CamelTail(['_', c] + t) == [AsciiText.UpperOf(c)] + CamelTail(t)
  {
    assert (['_', c] + t)[2..] == t;
  }

  lemma SnakeNameStays(s: string)
    requires SnakeName(s)
    ensures ToSnake(s) == s
  {
    assert Underscored(s) == s;
    if s != "" {
      SnakeTailStays(s[1..]);
    }
  }

  lemma {:induction false} SnakeTailStays(t: string)
    requires SnakeName(t)
    ensures SnakeTail(t) == t
  {
    if t != "" {
      SnakeTailStays(t[1..]);
    }
  }

  // ---- An order that matters ----

  /** Without strict, a float type next to an int type takes an integer if it comes first. */
  lemma FloatBeforeInt(ct: ClassTable, v: Json, i: int, ts: seq<Type>, us: seq<Type>)
    requires v == Int(i) && ts == [FloatT, IntT] && us == [IntT, FloatT]
    ensures Decode(ct, v, ts, false) == Ok(FloatV(i as real))
    ensures Decode(ct, v, us, false) == Ok(IntV(i))
    ensures Decode(ct, v, ts, true) == Decode(ct, v, us, true) == Ok(IntV(i))
  {
    assert Handle(ct, v, ts[0], false) == Fits(FloatV(i as real));
    assert Scan(ct, v, ts, 0, false) == Returned(FloatV(i as real));
    forall strict: bool ensures Scan(ct, v, us, 0, strict) == Returned(IntV(i)) {
      assert Handle(ct, v, us[0], strict) == Fits(IntV(i));
    }
    assert Handle(ct, v, ts[0], true) == Misses && Handle(ct, v, ts[1], true) == Fits(IntV(i));
    assert Scan(ct, v, ts, 1, true) == Returned(IntV(i));
    assert Scan(ct, v, ts, 0, true) == Returned(IntV(i));
  }
}
