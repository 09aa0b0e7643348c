/** The tokens under which the server keeps imported libraries: library name, endpoint id and a count. */
module LibraryTokens {
  import Decimal

  /** The first eight digits of a random number, which name an endpoint. */
  predicate IsEndpointId(id: string) { |id| == 8 }

  function Token(name: string, id: string, n: nat): string {
    name + "_" + id + "_" + "jsonrpc_" + Decimal.Numeral(n)
  }

  lemma LastPart(a: string, d: string, b: string, e: string)
    requires Decimal.AllDigits(d) && Decimal.AllDigits(e) && a + "_" + d == b + "_" + e
    ensures a == b && d == e
  {
    var s, t := a + "_" + d, b + "_" + e;
    assert s[|a|] == '_' && t[|b|] == '_';
    assert forall i | |a| < i < |s| :: s[i] == d[i - |a| - 1];
    assert forall i | |b| < i < |t| :: t[i] == e[i - |b| - 1];
    assert |a| == |b|;
    assert s[..|a|] == a && t[..|b|] == b && s[|a| + 1..] == d && t[|b| + 1..] == e;
  }

  /** Whatever the names of the libraries are, two tokens are the same only for the same endpoint id, count and name. */
  lemma TokensNeverCollide(name: string, id: string, n: nat, name': string, id': string, n': nat)
    requires IsEndpointId(id) && IsEndpointId(id') && Token(name, id, n) == Token(name', id', n')
    ensures id == id' && n == n' && name == name'
  {
    var a, b := name + "_" + id + "_" + "jsonrpc", name' + "_" + id' + "_" + "jsonrpc";
    assert Token(name, id, n) == a + "_" + Decimal.Numeral(n);
    assert Token(name', id', n') == b + "_" + Decimal.Numeral(n');
    LastPart(a, Decimal.Numeral(n), b, Decimal.Numeral(n'));
    Decimal.NumeralInjective(n, n');
    assert |name| == |name'|;
    assert a[..|name|] == name && b[..|name|] == name';
    assert a[|name| + 1..|name| + 9] == id && b[|name| + 1..|name| + 9] == id';
  }
}
