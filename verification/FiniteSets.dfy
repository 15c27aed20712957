/** Sizes of unions of finite sets of numbers. */
module FiniteSets {

  ghost function Union(f: nat -> set<nat>, ps: set<nat>): (u: set<nat>) { set p, x | p in ps && x in f(p) :: x }

  lemma {:induction false} SubsetIsSmaller(a: set<nat>, b: set<nat>)
    requires a <= b
    ensures |a| <= |b|
  {
    if a != {} {
      var x :| x in a;
      SubsetIsSmaller(a - {x}, b - {x});
    }
  }

  lemma OneMore(n: nat, x: nat)
    requires n > 0
    ensures (n - 1) * x + x == n * x
  {
  }

  lemma UnionStep(f: nat -> set<nat>, ps: set<nat>, p: nat)
    requires p in ps
    ensures |Union(f, ps)| <= |Union(f, ps - {p})| + |f(p)|
  {
    assert Union(f, ps) == Union(f, ps - {p}) + f(p);
  }

  lemma {:induction false} UnionBound(f: nat -> set<nat>, ps: set<nat>, bound: nat)
    requires forall p :: p in ps ==> |f(p)| <= bound
    ensures |Union(f, ps)| <= |ps| * bound
  {
    if ps != {} {
      var p :| p in ps;
      UnionBound(f, ps - {p}, bound);
      UnionStep(f, ps, p);
      OneMore(|ps|, bound);
    }
  }

  /** The `n` numbers from `first` on. */
  function Span(first: nat, n: nat): (s: set<nat>)
    ensures |s| == n && forall x :: x in s <==> first <= x < first + n
  {
    if n == 0 then {} else Span(first, n - 1) + {first + n - 1}
  }

  function Elements(xs: seq<nat>): (s: set<nat>)
    ensures |s| <= |xs| && forall x :: x in s <==> x in xs
  {
    if xs == [] then {} else Elements(xs[..|xs| - 1]) + {xs[|xs| - 1]}
  }

  lemma MulMono(a: nat, b: nat, c: nat)
    requires a <= b
    ensures a * c <= b * c
  {
    assert (b - a) * c >= 0;
  }
}
