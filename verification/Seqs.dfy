/** Sequence facts shared by the modules. */
module Seqs {

  lemma ConcatAssoc<T>(a: seq<T>, b: seq<T>, c: seq<T>)
    ensures (a + b) + c == a + (b + c)
  {
  }

  /** Two beginnings of one sequence are comparable. */
  lemma CommonPrefix<T>(a: seq<T>, x: seq<T>, b: seq<T>, y: seq<T>)
    ensures a + x == b + y ==> a < b || b < a || a == b
  {
    if a + x == b + y {
      assert a == (b + y)[..|a|] && b == (a + x)[..|b|];
    }
  }

  function FlatMap<S, T>(f: S -> seq<T>, xs: seq<S>): (ys: seq<T>) {
    if xs == [] then [] else f(xs[0]) + FlatMap(f, xs[1..])
  }

  lemma {:induction false} FlatMapConcat<S, T>(f: S -> seq<T>, a: seq<S>, b: seq<S>)
    ensures FlatMap(f, a + b) == FlatMap(f, a) + FlatMap(f, b)
  {
    if a == [] {
      assert a + b == b;
    } else {
      FlatMapConcat(f, a[1..], b);
      assert (a + b)[1..] == a[1..] + b;
      ConcatAssoc(f(a[0]), FlatMap(f, a[1..]), FlatMap(f, b));
    }
  }

  lemma FlatMapOne<S, T>(f: S -> seq<T>, x: S)
    ensures FlatMap(f, [x]) == f(x)
  {
    assert FlatMap(f, [x]) == f(x) + FlatMap(f, []);
  }

  /** Overwriting a map entry forgets what was there. */
  lemma Overwrite<K, V(!new)>(m: map<K, V>, k: K, temporary: V)
    requires k in m
    ensures forall v {:trigger m[k := temporary][k := v]} :: m[k := temporary][k := v] == m[k := v]
    ensures m[k := temporary] - {k} == m - {k}
    ensures m[k := m[k]] == m
  {
  }
}
