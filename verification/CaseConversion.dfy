/** `to_snake_case` and `to_camel_case`, which `CamelSnakeMixin` applies to the field names of a dataclass,
    on ASCII names. */
module CaseConversion {
  import opened AsciiText

  // ---- to_snake_case ----

  function Underscored(s: string): (r: string)
    ensures |r| == |s|
  {
    seq(|s|, i requires 0 <= i < |s| => if s[i] == '-' || s[i] == '.' || IsSpace(s[i]) then '_' else s[i])
  }

  /** Every capital as an underscore and its small letter. */
  function SnakeTail(t: string): string {
    if t == "" then ""
    else (if IsUpper(t[0]) then ['_', LowerOf(t[0])] else [t[0]]) + SnakeTail(t[1..])
  }

  function ToSnake(s: string): string {
    var u := Underscored(s);
    if u == "" then u else [LowerOf(u[0])] + SnakeTail(u[1..])
  }

  // ---- to_camel_case ----

  predicate IsSeparator(c: char) { c == '-' || c == '_' || c == '.' || IsSpace(c) }

  /** Every separator directly before a small letter goes, and the letter becomes a capital. */
  function CamelTail(t: string): string {
    if t == "" then ""
    else if |t| >= 2 && IsSeparator(t[0]) && IsLower(t[1]) then [UpperOf(t[1])] + CamelTail(t[2..])
    else [t[0]] + CamelTail(t[1..])
  }

  function WithoutLead(s: string): string {
    if s != "" && (s[0] == '-' || s[0] == '_' || s[0] == '.') then s[1..] else s
  }

  function ToCamel(s: string): string {
    var u := WithoutLead(s);
    if u == "" then u else [LowerOf(u[0])] + CamelTail(u[1..])
  }

  // ---- Round trips ----

  predicate SnakeName(s: string) {
    forall i | 0 <= i < |s| :: IsLower(s[i]) || IsDigit(s[i]) || s[i] == '_'
  }

  predicate CamelName(s: string) {
    forall i | 0 <= i < |s| :: IsLower(s[i]) || IsUpper(s[i]) || IsDigit(s[i])
  }

  lemma {:induction false} SnakeOfCamelTail(t: string)
    requires SnakeName(t)
    ensures SnakeTail(CamelTail(t)) == t
    ensures Underscored(CamelTail(t)) == CamelTail(t)
    decreases |t|
  {
    if t == "" {
    } else if |t| >= 2 && IsSeparator(t[0]) && IsLower(t[1]) {
      SnakeOfCamelTail(t[2..]);
      CapitalTail(t[1], CamelTail(t[2..]));
      assert t == ['_', t[1]] + t[2..];
    } else {
      SnakeOfCamelTail(t[1..]);
      Tail(t[0], CamelTail(t[1..]));
    }
  }

  lemma CapitalTail(c: char, rest: string)
    requires IsLower(c)
    ensures SnakeTail([UpperOf(c)] + rest) == ['_', c] + SnakeTail(rest)
    ensures Underscored([UpperOf(c)] + rest) == [UpperOf(c)] + Underscored(rest)
  {
    Tail(UpperOf(c), rest);
  }

  lemma Tail(c: char, rest: string)
    ensures SnakeTail([c] + rest) == (if IsUpper(c) then ['_', LowerOf(c)] else [c]) + SnakeTail(rest)
    ensures Underscored([c] + rest) == Underscored([c]) + Underscored(rest)
  {
    assert ([c] + rest)[1..] == rest;
  }

  lemma {:induction false} CamelOfSnakeTail(t: string)
    requires CamelName(t)
    ensures CamelTail(SnakeTail(t)) == t
    decreases |t|
  {
    if t != "" {
      CamelOfSnakeTail(t[1..]);
      var rest := SnakeTail(t[1..]);
      if IsUpper(t[0]) {
        var s := ['_', LowerOf(t[0])] + rest;
        assert s[2..] == rest;
      } else {
        assert ([t[0]] + rest)[1..] == rest;
      }
    }
  }

  /** A snake-case name comes back from camel case exactly if it does not start with an underscore. */
  lemma SnakeRoundTrip(s: string)
    requires SnakeName(s)
    ensures ToSnake(ToCamel(s)) == s <==> s == "" || s[0] != '_'
  {
    var u := WithoutLead(s);
    if u != "" {
      SnakeOfCamelTail(u[1..]);
      var c := ToCamel(s);
      assert c[1..] == CamelTail(u[1..]);
      Tail(c[0], c[1..]);
      assert c == [c[0]] + c[1..];
      assert Underscored(c) == c;
      assert ToSnake(c) == u;
    }
  }

  /** A camel-case name comes back from snake case exactly if it does not start with a capital. */
  lemma CamelRoundTrip(c: string)
    requires CamelName(c)
    ensures ToCamel(ToSnake(c)) == c <==> c == "" || !IsUpper(c[0])
  {
    assert Underscored(c) == c;
    if c != "" {
      CamelOfSnakeTail(c[1..]);
      var s := ToSnake(c);
      assert s[1..] == SnakeTail(c[1..]);
      assert WithoutLead(s) == s;
      assert ToCamel(s) == [LowerOf(c[0])] + c[1..];
    }
  }

  /** A field name of a dataclass in the usual style. */
  predicate FieldName(s: string) { SnakeName(s) && s != "" && s[0] != '_' }

  lemma ToCamelInjective(s: string, t: string)
    requires FieldName(s) && FieldName(t) && ToCamel(s) == ToCamel(t)
    ensures s == t
  {
    SnakeRoundTrip(s);
    SnakeRoundTrip(t);
  }

  lemma ToSnakeInjective(c: string, d: string)
    requires CamelName(c) && CamelName(d) && (c == "" || !IsUpper(c[0])) && (d == "" || !IsUpper(d[0]))
    requires ToSnake(c) == ToSnake(d)
    ensures c == d
  {
    CamelRoundTrip(c);
    CamelRoundTrip(d);
  }

  // ---- The members of an object, renamed on the way out and back ----

  /** `w` holds what `m` holds, under the names that `f` gives; the last of several members with one new name wins. */
  ghost predicate Renames<V>(m: map<string, V>, f: string -> string, w: map<string, V>) {
    && (forall k | k in m :: f(k) in w)
    && (forall n | n in w :: exists k | k in m :: f(k) == n && w[n] == m[k])
  }

  /** If `g` undoes `f` on the names, then renaming with `f` and then with `g` gives everything back. */
  lemma RenamedBack<V>(m: map<string, V>, f: string -> string, w: map<string, V>, g: string -> string, u: map<string, V>)
    requires forall k | k in m :: g(f(k)) == k
    requires Renames(m, f, w) && Renames(w, g, u)
    ensures u == m && |w| == |m|
  {
    RenamedKeys(m, f, w, g, u);
    forall k | k in u ensures k in m && u[k] == m[k] { ComesFrom(m, f, w, g, u, k); }
    SameSize(m.Keys, f, w.Keys, g);
  }

  lemma RenamedKeys<V>(m: map<string, V>, f: string -> string, w: map<string, V>, g: string -> string, u: map<string, V>)
    requires forall k | k in m :: g(f(k)) == k
    requires Renames(m, f, w) && Renames(w, g, u)
    ensures m.Keys <= u.Keys
  {
    forall k | k in m ensures k in u { assert f(k) in w && g(f(k)) in u; }
  }

  lemma ComesFrom<V>(m: map<string, V>, f: string -> string, w: map<string, V>, g: string -> string, u: map<string, V>, k: string)
    requires forall k | k in m :: g(f(k)) == k
    requires Renames(m, f, w) && Renames(w, g, u) && k in u
    ensures k in m && u[k] == m[k]
  {
    var n :| n in w && g(n) == k && u[k] == w[n];
    var l :| l in m && f(l) == n && w[n] == m[l];
    assert g(f(l)) == l;
  }

  lemma {:induction false} SameSize(names: set<string>, f: string -> string, wire: set<string>, g: string -> string)
    requires forall k | k in names :: f(k) in wire && g(f(k)) == k
    requires forall n | n in wire :: exists k | k in names :: f(k) == n
    ensures |names| == |wire|
  {
    if names == {} {
      assert wire == {};
    } else {
      var k :| k in names;
      assert forall l | l in names && f(l) == f(k) :: g(f(l)) == l == k;
      SameSize(names - {k}, f, wire - {f(k)}, g);
    }
  }

  /** No two fields of an object meet under one camel-case name, and reading the keys back gives the object. */
  lemma FieldNamesRoundTrip<V>(m: map<string, V>, w: map<string, V>, u: map<string, V>)
    requires forall k | k in m :: FieldName(k)
    requires Renames(m, ToCamel, w) && Renames(w, ToSnake, u)
    ensures u == m && |w| == |m|
  {
    forall k | k in m ensures ToSnake(ToCamel(k)) == k { SnakeRoundTrip(k); }
    RenamedBack(m, ToCamel, w, ToSnake, u);
  }
}
