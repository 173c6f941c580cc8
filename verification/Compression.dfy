// Normalizing the clauses added by the user: no duplicate literals, no tautologies.

module Compression {
  import opened Literals

  ghost predicate Tautology(c: Clause) {
    exists l :: l in c && Neg(l) in c
  }

  ghost predicate Ascending(c: Clause) {
    forall i, j :: 0 <= i < j < |c| ==> Raw(c[i]) < Raw(c[j])
  }

  function InsertLit(c: Clause, l: Lit): (r: Clause)
    requires Ascending(c)
    ensures Ascending(r) && forall x :: x in r <==> x in c || x == l
  {
    if c == [] || Raw(l) < Raw(c[0]) then [l] + c
    else if c[0] == l then c
    else
      var rest := InsertLit(c[1..], l);
      assert forall x :: x in c <==> x == c[0] || x in c[1..];
      RawInjective(c[0], l);
      assert forall x :: x in rest ==> Raw(c[0]) < Raw(x);
      assert forall i :: 0 <= i < |rest| ==> rest[i] in rest;
      [c[0]] + rest
  }

  /** The literals of `c` in ascending order, each of them once. */
  function WithoutRedundancies(c: seq<Lit>): (r: seq<Lit>)
    ensures Ascending(r) && SameLits(r, c)
  {
    if c == [] then [] else InsertLit(WithoutRedundancies(c[1..]), c[0])
  }

  /** The positive and the negative literal of a variable are neighbours in an ascending clause. */
  lemma ComplementsAreNeighbours(c: Clause, i: nat, j: nat)
    requires Ascending(c) && i < j < |c| && c[i].v == c[j].v
    ensures j == i + 1 && c[i] == Neg(c[j])
  {
    assert Raw(c[i]) < Raw(c[i + 1]) <= Raw(c[j]);
  }

  /** Removes duplicate literals. The result is None exactly if the clause is a tautology. */
  method CompressClause(c: Clause) returns (r: Option<Clause>)
    ensures r.None? <==> Tautology(c)
    ensures r.Some? ==> Ascending(r.value) && SameLits(r.value, c) && DistinctVars(r.value)
  {
    if c == [] {
      return Some([]);
    }
    var compressed := WithoutRedundancies(c);
    assert c[0] in compressed;
    for i := 1 to |compressed|
      invariant forall j :: 1 <= j < i ==> compressed[j - 1] != Neg(compressed[j])
    {
      if compressed[i - 1] == Neg(compressed[i]) {
        assert compressed[i] in c && compressed[i - 1] in c;
        return None;
      }
    }
    forall i, j | 0 <= i < j < |compressed| ensures compressed[i].v != compressed[j].v {
      if compressed[i].v == compressed[j].v {
        ComplementsAreNeighbours(compressed, i, j);
      }
    }
    DistinctIsNoTautology(compressed);
    r := Some(compressed);
  }

  lemma DistinctIsNoTautology(c: Clause)
    requires DistinctVars(c)
    ensures !Tautology(c)
  {
  }
}
