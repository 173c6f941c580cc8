// Variables, literals and three-valued truth values.

module Literals {

  /** A literal: a variable together with its sign (`pos` is the POSITIVE sign). */
  datatype Lit = Lit(v: nat, pos: bool)

  type Clause = seq<Lit>

  /** The truth value of a variable or literal under a partial assignment. */
  datatype TBool = True | False | Indet

  datatype Option<+T> = None | Some(value: T)

  function Neg(l: Lit): Lit {
    Lit(l.v, !l.pos)
  }

  /** The raw value of a literal: twice the variable plus the sign. */
  function Raw(l: Lit): nat {
    2 * l.v + if l.pos then 1 else 0
  }

  lemma RawInjective(l: Lit, m: Lit)
    ensures Raw(l) == Raw(m) ==> l == m
  {
  }

  /** The value which makes a literal of the given sign true. */
  function Polarity(pos: bool): TBool {
    if pos then True else False
  }

  /** No two positions of the clause hold the same variable. */
  ghost predicate DistinctVars(c: Clause) {
    forall i, j :: 0 <= i < j < |c| ==> c[i].v != c[j].v
  }

  function Vars(c: Clause): set<nat> {
    set x | x in c :: x.v
  }

  /** All variables of the clause are smaller than `n`. */
  ghost predicate Bounded(c: Clause, n: nat) {
    forall l :: l in c ==> l.v < n
  }

  /** No literal is listed twice. */
  ghost predicate Once(ls: seq<Lit>) {
    forall i, j :: 0 <= i < j < |ls| ==> ls[i] != ls[j]
  }

  /** The two clauses have the same literals, in any order and multiplicity. */
  ghost predicate SameLits(c: Clause, d: Clause) {
    forall l :: l in c <==> l in d
  }

  function Swap(c: Clause, i: nat, j: nat): Clause
    requires i < |c| && j < |c|
  {
    c[i := c[j]][j := c[i]]
  }

  lemma SwapFacts(c: Clause, i: nat, j: nat)
    requires i < |c| && j < |c|
    ensures multiset(Swap(c, i, j)) == multiset(c)
    ensures SameLits(Swap(c, i, j), c)
    ensures DistinctVars(c) ==> DistinctVars(Swap(c, i, j))
  {
    var d := Swap(c, i, j);
    forall l | l in c ensures l in d {
      var k :| 0 <= k < |c| && c[k] == l;
      assert d[if k == i then j else if k == j then i else k] == l;
    }
  }

  /** The literals of `c` which are not in `drop`, in the same order. */
  ghost function Dropping(c: Clause, drop: iset<Lit>): Clause {
    if c == [] then []
    else Dropping(c[..|c| - 1], drop) + if c[|c| - 1] in drop then [] else [c[|c| - 1]]
  }

  lemma {:induction false} DroppingFacts(c: Clause, drop: iset<Lit>)
    ensures |Dropping(c, drop)| <= |c|
    ensures forall l :: l in Dropping(c, drop) <==> l in c && l !in drop
    ensures DistinctVars(c) ==> DistinctVars(Dropping(c, drop))
    ensures c != [] && c[0] !in drop ==> Dropping(c, drop) != [] && Dropping(c, drop)[0] == c[0]
  {
    if c != [] {
      var d := c[..|c| - 1];
      assert c == d + [c[|c| - 1]];
      DroppingFacts(d, drop);
      if DistinctVars(c) {
        var e := Dropping(d, drop);
        forall i | 0 <= i < |e| ensures e[i].v != c[|c| - 1].v {
          assert e[i] in d;
        }
      }
    }
  }
}
