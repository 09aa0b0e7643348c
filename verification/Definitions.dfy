/** The definition of a remote library, and how the client tells whether it has changed. `D` stands for the value of one
    attribute, and for all that a keyword has besides its name. */
module Definitions {
  import opened Options

  datatype Keyword<D(==)> = Keyword(name: string, details: D)

  datatype Attribute = Name | Doc | DocFormat | Scope | Version | Source | Lineno

  const ATTRIBUTES := [Name, Doc, DocFormat, Scope, Version, Source, Lineno]

  datatype Definition<D(==)> = Definition(
    name: D, keywords: seq<Keyword<D>>, doc: D, docFormat: D, scope: D, version: D, source: D, lineno: D)
  {
    function Get(a: Attribute): D {
      match a
      case Name => name
      case Doc => doc
      case DocFormat => docFormat
      case Scope => scope
      case Version => version
      case Source => source
      case Lineno => lineno
    }
  }

  /** One entry of the description that `_definition_changes` gives; the empty text is the empty list. */
  datatype Change =
    | Missing
    | Added(names: seq<string>)
    | Removed(names: seq<string>)
    | Changed(names: seq<string>)
    | Attributes(attributes: seq<Attribute>)
    | Reordered

  /** A dictionary by name: of keywords with the same name, the last one stays. */
  function ByName<D(==)>(ks: seq<Keyword<D>>): map<string, Keyword<D>> {
    if ks == [] then map[] else ByName(ks[..|ks| - 1])[ks[|ks| - 1].name := ks[|ks| - 1]]
  }

  /** The order of that dictionary: every name at its first place. */
  function Names<D(==)>(ks: seq<Keyword<D>>): seq<string> {
    if ks == [] then []
    else
      var before, last := Names(ks[..|ks| - 1]), ks[|ks| - 1].name;
      if last in before then before else before + [last]
  }

  function Where<A>(s: seq<A>, p: A -> bool): seq<A> {
    if s == [] then [] else Where(s[..|s| - 1], p) + if p(s[|s| - 1]) then [s[|s| - 1]] else []
  }

  function NamesAdded<D(==)>(before: seq<Keyword<D>>, after: seq<Keyword<D>>): seq<string> {
    var known := ByName(before);
    Where(Names(after), n => n !in known)
  }

  function NamesChanged<D(==)>(before: seq<Keyword<D>>, after: seq<Keyword<D>>): seq<string> {
    var o, n := ByName(before), ByName(after);
    Where(Names(after), name => name in o && name in n && n[name] != o[name])
  }

  function AttributesChanged<D(==)>(a: Definition<D>, b: Definition<D>): seq<Attribute> {
    Where(ATTRIBUTES, f => a.Get(f) != b.Get(f))
  }

  function Listed(c: Change, anything: bool): seq<Change> { if anything then [c] else [] }

  function Describe(added: seq<string>, removed: seq<string>, changed: seq<string>, attributes: seq<Attribute>,
                    same: bool): seq<Change> {
    var changes := Listed(Added(added), added != []) + Listed(Removed(removed), removed != [])
                 + Listed(Changed(changed), changed != []) + Listed(Attributes(attributes), attributes != []);
    if changes != [] then changes else Listed(Reordered, !same)
  }

  function Changes<D(==)>(registered: Option<Definition<D>>, current: Option<Definition<D>>): seq<Change> {
    if registered.None? || current.None? then Listed(Missing, registered != current)
    else
      var a, b := registered.value, current.value;
      Describe(NamesAdded(a.keywords, b.keywords), NamesAdded(b.keywords, a.keywords), NamesChanged(a.keywords, b.keywords),
               AttributesChanged(a, b), a.keywords == b.keywords)
  }

  // ---- What the parts say ----

  lemma {:induction false} WhereExactly<A>(s: seq<A>, p: A -> bool, x: A)
    ensures x in Where(s, p) <==> x in s && p(x)
  {
    if s != [] {
      WhereExactly(s[..|s| - 1], p, x);
      assert s == s[..|s| - 1] + [s[|s| - 1]];
    }
  }

  lemma {:induction false} WhereNone<A>(s: seq<A>, p: A -> bool)
    requires forall x | x in s :: !p(x)
    ensures Where(s, p) == []
  {
    if s != [] {
      WhereNone(s[..|s| - 1], p);
    }
  }

  lemma {:induction false} NamesAreKeys<D>(ks: seq<Keyword<D>>, n: string)
    ensures n in Names(ks) <==> n in ByName(ks)
    ensures n in ByName(ks) ==> ByName(ks)[n] in ks && ByName(ks)[n].name == n
  {
    if ks != [] {
      NamesAreKeys(ks[..|ks| - 1], n);
      NamesAreKeys(ks[..|ks| - 1], ks[|ks| - 1].name);
    }
  }

  lemma AttributesSame<D>(a: Definition<D>, b: Definition<D>)
    ensures AttributesChanged(a, b) == [] <==> a == b.(keywords := a.keywords)
  {
    var p := (f: Attribute) => a.Get(f) != b.Get(f);
    if AttributesChanged(a, b) == [] {
      forall f: Attribute ensures a.Get(f) == b.Get(f) {
        assert f in ATTRIBUTES by { assert ATTRIBUTES[AttributeIndex(f)] == f; }
        WhereExactly(ATTRIBUTES, p, f);
      }
      assert a.Get(Name) == b.Get(Name) && a.Get(Doc) == b.Get(Doc) && a.Get(DocFormat) == b.Get(DocFormat);
      assert a.Get(Scope) == b.Get(Scope) && a.Get(Version) == b.Get(Version);
      assert a.Get(Source) == b.Get(Source) && a.Get(Lineno) == b.Get(Lineno);
    } else if a == b.(keywords := a.keywords) {
      WhereNone(ATTRIBUTES, p);
    }
  }

  function AttributeIndex(f: Attribute): nat {
    match f
    case Name => 0
    case Doc => 1
    case DocFormat => 2
    case Scope => 3
    case Version => 4
    case Source => 5
    case Lineno => 6
  }

  /** The description is empty exactly for equal definitions, however many keywords share a name. */
  lemma EmptyExactlyIfEqual<D>(registered: Option<Definition<D>>, current: Option<Definition<D>>)
    ensures Changes(registered, current) == [] <==> registered == current
  {
    if registered.Some? && current.Some? {
      var a, b := registered.value, current.value;
      AttributesSame(a, b);
      if a == b {
        forall n | n in Names(a.keywords) ensures n in ByName(a.keywords) {
          NamesAreKeys(a.keywords, n);
        }
        WhereNone(Names(a.keywords), n => n !in ByName(a.keywords));
        WhereNone(Names(a.keywords), n => n in ByName(a.keywords) && n in ByName(a.keywords) && ByName(a.keywords)[n] != ByName(a.keywords)[n]);
      }
    }
  }

  /** The three lists of names say of each keyword name, as the two dictionaries have it, what has become of it. */
  lemma NamesTold<D>(before: seq<Keyword<D>>, after: seq<Keyword<D>>, n: string)
    ensures n in NamesAdded(before, after) <==> n in ByName(after) && n !in ByName(before)
    ensures n in NamesChanged(before, after) <==> n in ByName(before) && n in ByName(after) && ByName(after)[n] != ByName(before)[n]
  {
    var known, o, m := ByName(before), ByName(before), ByName(after);
    WhereExactly(Names(after), x => x !in known, n);
    WhereExactly(Names(after), name => name in o && name in m && m[name] != o[name], n);
    NamesAreKeys(after, n);
  }

  predicate DistinctNames<D(==)>(ks: seq<Keyword<D>>) {
    forall i, j | 0 <= i < j < |ks| :: ks[i].name != ks[j].name
  }

  lemma {:induction false} CountByName<D>(ks: seq<Keyword<D>>, k: Keyword<D>)
    requires DistinctNames(ks)
    ensures multiset(ks)[k] == if k.name in ByName(ks) && ByName(ks)[k.name] == k then 1 else 0
  {
    if ks != [] {
      var before, last := ks[..|ks| - 1], ks[|ks| - 1];
      CountByName(before, k);
      NamesAreKeys(before, last.name);
      assert ks == before + [last];
    }
  }

  lemma NothingTold<D>(before: seq<Keyword<D>>, after: seq<Keyword<D>>)
    ensures NamesAdded(before, after) == [] <==> ByName(after).Keys <= ByName(before).Keys
    ensures NamesChanged(before, after) == [] <==>
      forall n | n in ByName(before) && n in ByName(after) :: ByName(after)[n] == ByName(before)[n]
  {
    forall n
      ensures n in NamesAdded(before, after) <==> n in ByName(after) && n !in ByName(before)
      ensures n in NamesChanged(before, after) <==> n in ByName(before) && n in ByName(after) && ByName(after)[n] != ByName(before)[n]
    {
      NamesTold(before, after, n);
    }
    NoneIfEmpty(NamesAdded(before, after));
    NoneIfEmpty(NamesChanged(before, after));
  }

  lemma NoneIfEmpty<A>(s: seq<A>)
    ensures s == [] <==> forall x :: x !in s
  {
    if s != [] {
      assert s[0] in s;
    }
  }

  /** "The order of the keywords changed" is said exactly if nothing is different by name but the lists differ. */
  lemma ReorderedExactly<D>(a: Definition<D>, b: Definition<D>)
    ensures Changes(Some(a), Some(b)) == [Reordered] <==>
      a == b.(keywords := a.keywords) && ByName(a.keywords) == ByName(b.keywords) && a.keywords != b.keywords
  {
    OnlyReordered(NamesAdded(a.keywords, b.keywords), NamesAdded(b.keywords, a.keywords),
                  NamesChanged(a.keywords, b.keywords), AttributesChanged(a, b), a.keywords == b.keywords);
    AttributesSame(a, b);
    NothingTold(a.keywords, b.keywords);
    NothingTold(b.keywords, a.keywords);
    SameMaps(ByName(a.keywords), ByName(b.keywords));
  }

  lemma SameMaps<V>(o: map<string, V>, n: map<string, V>)
    ensures o == n <==> n.Keys <= o.Keys && o.Keys <= n.Keys && forall x | x in o && x in n :: n[x] == o[x]
  {
  }

  lemma OnlyReordered(added: seq<string>, removed: seq<string>, changed: seq<string>, attributes: seq<Attribute>, same: bool)
    ensures Describe(added, removed, changed, attributes, same) == [Reordered] <==>
      added == [] && removed == [] && changed == [] && attributes == [] && !same
  {
    var changes := Describe(added, removed, changed, attributes, same);
    if added != [] {
      assert changes[0] == Added(added);
    } else if removed != [] {
      assert changes[0] == Removed(removed);
    } else if changed != [] {
      assert changes[0] == Changed(changed);
    } else if attributes != [] {
      assert changes[0] == Attributes(attributes);
    }
  }

  /** With distinct names it is true: the new list is a permutation of the registered one. */
  lemma ReorderedPermutes<D>(a: Definition<D>, b: Definition<D>)
    requires DistinctNames(a.keywords) && DistinctNames(b.keywords) && Changes(Some(a), Some(b)) == [Reordered]
    ensures multiset(a.keywords) == multiset(b.keywords)
  {
    ReorderedExactly(a, b);
    forall k: Keyword<D> ensures multiset(a.keywords)[k] == multiset(b.keywords)[k] {
      CountByName(a.keywords, k);
      CountByName(b.keywords, k);
    }
  }

  lemma LastOfTwo<D>(n: string, x: D, y: D)
    ensures ByName([Keyword(n, x), Keyword(n, y)]) == map[n := Keyword(n, y)]
  {
    var ks := [Keyword(n, x), Keyword(n, y)];
    assert ks[..1] == [Keyword(n, x)] && ks[..1][..0] == [];
    assert ByName(ks[..1]) == map[n := Keyword(n, x)];
  }

  /** With a name given twice it need not be: a keyword behind another one changed, and the text speaks of the order. */
  lemma ReorderedWithoutReordering(a: Definition<int>, n: string)
    requires a.keywords == [Keyword(n, 0), Keyword(n, 2)]
    ensures var b := a.(keywords := [Keyword(n, 1), Keyword(n, 2)]);
      Changes(Some(a), Some(b)) == [Reordered] && multiset(a.keywords) != multiset(b.keywords)
  {
    var b := a.(keywords := [Keyword(n, 1), Keyword(n, 2)]);
    LastOfTwo(n, 0, 2);
    LastOfTwo(n, 1, 2);
    assert a.keywords[0] != b.keywords[0];
    ReorderedExactly(a, b);
    assert Keyword(n, 0) in multiset(a.keywords) && Keyword(n, 0) !in multiset(b.keywords);
  }

  // ---- The whole description ----

  /** The description speaks of `n` as added. */
  predicate TellsAdded(changes: seq<Change>, n: string) { exists c | c in changes :: c.Added? && n in c.names }

  predicate TellsRemoved(changes: seq<Change>, n: string) { exists c | c in changes :: c.Removed? && n in c.names }

  predicate TellsChanged(changes: seq<Change>, n: string) { exists c | c in changes :: c.Changed? && n in c.names }

  predicate TellsAttribute(changes: seq<Change>, f: Attribute) { exists c | c in changes :: c.Attributes? && f in c.attributes }

  lemma DescribedParts(added: seq<string>, removed: seq<string>, changed: seq<string>,
                       attributes: seq<Attribute>, same: bool, c: Change)
    ensures c in Describe(added, removed, changed, attributes, same) <==>
      || (c == Added(added) && added != []) || (c == Removed(removed) && removed != [])
      || (c == Changed(changed) && changed != []) || (c == Attributes(attributes) && attributes != [])
      || (c == Reordered && !same && added == [] && removed == [] && changed == [] && attributes == [])
  {
    var parts := Listed(Added(added), added != []) + Listed(Removed(removed), removed != [])
               + Listed(Changed(changed), changed != []) + Listed(Attributes(attributes), attributes != []);
    assert parts == [] <==> added == [] && removed == [] && changed == [] && attributes == [] by {
      if added != [] { assert parts[0] == Added(added); }
      else if removed != [] { assert parts[0] == Removed(removed); }
      else if changed != [] { assert parts[0] == Changed(changed); }
      else if attributes != [] { assert parts[0] == Attributes(attributes); }
    }
  }

  lemma TellsAddedPart(added: seq<string>, removed: seq<string>, changed: seq<string>,
                       attributes: seq<Attribute>, same: bool, n: string)
    ensures TellsAdded(Describe(added, removed, changed, attributes, same), n) <==> n in added
  {
    var changes := Describe(added, removed, changed, attributes, same);
    DescribedParts(added, removed, changed, attributes, same, Added(added));
    if c :| c in changes && c.Added? {
      DescribedParts(added, removed, changed, attributes, same, c);
    }
  }

  lemma TellsRemovedPart(added: seq<string>, removed: seq<string>, changed: seq<string>,
                         attributes: seq<Attribute>, same: bool, n: string)
    ensures TellsRemoved(Describe(added, removed, changed, attributes, same), n) <==> n in removed
  {
    var changes := Describe(added, removed, changed, attributes, same);
    DescribedParts(added, removed, changed, attributes, same, Removed(removed));
    if c :| c in changes && c.Removed? {
      DescribedParts(added, removed, changed, attributes, same, c);
    }
  }

  lemma TellsChangedPart(added: seq<string>, removed: seq<string>, changed: seq<string>,
                         attributes: seq<Attribute>, same: bool, n: string)
    ensures TellsChanged(Describe(added, removed, changed, attributes, same), n) <==> n in changed
  {
    var changes := Describe(added, removed, changed, attributes, same);
    DescribedParts(added, removed, changed, attributes, same, Changed(changed));
    if c :| c in changes && c.Changed? {
      DescribedParts(added, removed, changed, attributes, same, c);
    }
  }

  lemma TellsAttributesPart(added: seq<string>, removed: seq<string>, changed: seq<string>,
                            attributes: seq<Attribute>, same: bool, f: Attribute)
    ensures TellsAttribute(Describe(added, removed, changed, attributes, same), f) <==> f in attributes
  {
    var changes := Describe(added, removed, changed, attributes, same);
    DescribedParts(added, removed, changed, attributes, same, Attributes(attributes));
    if c :| c in changes && c.Attributes? {
      DescribedParts(added, removed, changed, attributes, same, c);
    }
  }

  /** The description tells of each keyword name and of each attribute just what has become of it: it is added if only the
      new definition has it, removed if only the registered one has, and changed if both have it differently. */
  lemma ToldOfEach<D>(a: Definition<D>, b: Definition<D>, n: string, f: Attribute)
    ensures var (changes, o, m) := (Changes(Some(a), Some(b)), ByName(a.keywords), ByName(b.keywords));
      && (TellsAdded(changes, n) <==> n in m && n !in o)
      && (TellsRemoved(changes, n) <==> n in o && n !in m)
      && (TellsChanged(changes, n) <==> n in o && n in m && o[n] != m[n])
      && (TellsAttribute(changes, f) <==> a.Get(f) != b.Get(f))
  {
    var added, removed := NamesAdded(a.keywords, b.keywords), NamesAdded(b.keywords, a.keywords);
    var changed, attributes := NamesChanged(a.keywords, b.keywords), AttributesChanged(a, b);
    var same := a.keywords == b.keywords;
    NamesTold(a.keywords, b.keywords, n);
    NamesTold(b.keywords, a.keywords, n);
    AttributeTold(a, b, f);
    TellsAddedPart(added, removed, changed, attributes, same, n);
    TellsRemovedPart(added, removed, changed, attributes, same, n);
    TellsChangedPart(added, removed, changed, attributes, same, n);
    TellsAttributesPart(added, removed, changed, attributes, same, f);
  }

  lemma AttributeTold<D>(a: Definition<D>, b: Definition<D>, f: Attribute)
    ensures f in AttributesChanged(a, b) <==> a.Get(f) != b.Get(f)
  {
    assert f in ATTRIBUTES by { assert ATTRIBUTES[AttributeIndex(f)] == f; }
    WhereExactly(ATTRIBUTES, (g: Attribute) => a.Get(g) != b.Get(g), f);
  }

  /** Of keywords with the same name, the last one counts. */
  lemma {:induction false} LastCounts<D>(ks: seq<Keyword<D>>, i: nat)
    requires i < |ks| && forall j | i < j < |ks| :: ks[j].name != ks[i].name
    ensures ks[i].name in ByName(ks) && ByName(ks)[ks[i].name] == ks[i]
  {
    if i < |ks| - 1 {
      LastCounts(ks[..|ks| - 1], i);
    }
  }
}
