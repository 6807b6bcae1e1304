/** Total orders, and the lexicographic order they induce on sequences. */
module Orders {

  datatype Ordering = Less | Equal | Greater

  ghost predicate TotalOrder<T(!new)>(leq: (T, T) -> bool) {
    && (forall x :: leq(x, x))
    && (forall x, y :: leq(x, y) && leq(y, x) ==> x == y)
    && (forall x, y, z :: leq(x, y) && leq(y, z) ==> leq(x, z))
    && (forall x, y :: leq(x, y) || leq(y, x))
  }

  /** `cmp` for an order and its equality. */
  function Cmp<T(==)>(leq: (T, T) -> bool, x: T, y: T): (o: Ordering) {
    if x == y then Equal else if leq(x, y) then Less else Greater
  }

  /** Element by element; a proper prefix comes first. */
  predicate LexLeq<T(==)>(leq: (T, T) -> bool, a: seq<T>, b: seq<T>) {
    a == [] || (b != [] && if a[0] == b[0] then LexLeq(leq, a[1..], b[1..]) else leq(a[0], b[0]))
  }

  function Lex<T(==)>(leq: (T, T) -> bool): (r: (seq<T>, seq<T>) -> bool) {
    (a: seq<T>, b: seq<T>) => LexLeq(leq, a, b)
  }

  lemma {:induction false} LexRefl<T>(leq: (T, T) -> bool, a: seq<T>)
    ensures LexLeq(leq, a, a)
  {
    if a != [] { LexRefl(leq, a[1..]); }
  }

  lemma {:induction false} LexAntisym<T(!new)>(leq: (T, T) -> bool, a: seq<T>, b: seq<T>)
    requires TotalOrder(leq) && LexLeq(leq, a, b) && LexLeq(leq, b, a)
    ensures a == b
  {
    if a != [] && b != [] {
      assert a[0] == b[0];
      LexAntisym(leq, a[1..], b[1..]);
      assert a == [a[0]] + a[1..] && b == [b[0]] + b[1..];
    }
  }

  lemma {:induction false} LexTrans<T(!new)>(leq: (T, T) -> bool, a: seq<T>, b: seq<T>, c: seq<T>)
    requires TotalOrder(leq) && LexLeq(leq, a, b) && LexLeq(leq, b, c)
    ensures LexLeq(leq, a, c)
  {
    if a != [] && a[0] == b[0] == c[0] {
      LexTrans(leq, a[1..], b[1..], c[1..]);
    }
  }

  lemma {:induction false} LexConnected<T(!new)>(leq: (T, T) -> bool, a: seq<T>, b: seq<T>)
    requires TotalOrder(leq)
    ensures LexLeq(leq, a, b) || LexLeq(leq, b, a)
  {
    if a != [] && b != [] && a[0] == b[0] {
      LexConnected(leq, a[1..], b[1..]);
    }
  }

  /** The lexicographic order of a total order is total. */
  lemma LexTotal<T(!new)>(leq: (T, T) -> bool)
    requires TotalOrder(leq)
    ensures TotalOrder(Lex(leq))
  {
    var r := Lex(leq);
    forall a, b, c
      ensures r(a, a) && (r(a, b) || r(b, a)) && (r(a, b) && r(b, a) ==> a == b)
      ensures r(a, b) && r(b, c) ==> r(a, c)
    {
      LexRefl(leq, a);
      LexConnected(leq, a, b);
      if r(a, b) && r(b, a) { LexAntisym(leq, a, b); }
      if r(a, b) && r(b, c) { LexTrans(leq, a, b, c); }
    }
    assert forall x, y :: r(x, y) || r(y, x);
  }

  /** A prefix comes no later. */
  lemma {:induction false} LexPrefix<T>(leq: (T, T) -> bool, a: seq<T>, b: seq<T>)
    requires a <= b
    ensures LexLeq(leq, a, b)
  {
    if a != [] { LexPrefix(leq, a[1..], b[1..]); }
  }

  predicate CharLeq(a: char, b: char) {
    a <= b
  }

  predicate NatLeq(a: nat, b: nat) {
    a <= b
  }

  lemma CharTotal()
    ensures TotalOrder(CharLeq)
  {
  }

  lemma NatTotal()
    ensures TotalOrder(NatLeq)
  {
  }

  predicate SortedBy<T>(leq: (T, T) -> bool, xs: seq<T>) {
    forall i, j :: 0 <= i < j < |xs| ==> leq(xs[i], xs[j])
  }

  predicate CharLess(a: char, b: char) {
    a < b
  }

  predicate NatLess(a: nat, b: nat) {
    a < b
  }

  /** `a` is a proper prefix of `b`, or less than it at the first place where they differ. */
  ghost predicate Before<T>(less: (T, T) -> bool, a: seq<T>, b: seq<T>) {
    a < b || exists k :: FirstDiffer(a, b, k) && less(a[k], b[k])
  }

  ghost predicate FirstDiffer<T>(a: seq<T>, b: seq<T>, k: int) {
    0 <= k < |a| && k < |b| && a[..k] == b[..k] && a[k] != b[k]
  }

  /** The lexicographic order is decided at the first difference. */
  lemma {:induction false} LexBefore<T(!new)>(leq: (T, T) -> bool, less: (T, T) -> bool, a: seq<T>, b: seq<T>)
    requires forall x, y :: x != y ==> (leq(x, y) <==> less(x, y))
    ensures LexLeq(leq, a, b) && a != b <==> Before(less, a, b)
  {
    if a != [] && b != [] {
      if a[0] == b[0] {
        LexBefore(leq, less, a[1..], b[1..]);
        assert a == [a[0]] + a[1..] && b == [b[0]] + b[1..];
        BeforeTail(less, a, b);
      } else {
        assert FirstDiffer(a, b, 0) && forall k :: FirstDiffer(a, b, k) ==> k == 0;
      }
    }
  }

  lemma {:induction false} LexAt<T>(leq: (T, T) -> bool, a: seq<T>, b: seq<T>, k: nat)
    requires FirstDiffer(a, b, k)
    ensures LexLeq(leq, a, b) <==> leq(a[k], b[k])
    decreases k
  {
    if k > 0 {
      assert a[0] == a[..k][0] == b[..k][0] == b[0];
      assert a[1..][..k - 1] == a[..k][1..] && b[1..][..k - 1] == b[..k][1..];
      LexAt(leq, a[1..], b[1..], k - 1);
    }
  }

  lemma BeforeTail<T>(less: (T, T) -> bool, a: seq<T>, b: seq<T>)
    requires a != [] && b != [] && a[0] == b[0]
    ensures Before(less, a, b) <==> Before(less, a[1..], b[1..])
  {
    var s, t := a[1..], b[1..];
    assert a == [a[0]] + s && b == [b[0]] + t;
    forall k | FirstDiffer(a, b, k)
      ensures k > 0 && FirstDiffer(s, t, k - 1) && s[k - 1] == a[k] && t[k - 1] == b[k]
    {
      assert k > 0;
      assert s[..k - 1] == a[..k][1..] && t[..k - 1] == b[..k][1..];
    }
    forall k | FirstDiffer(s, t, k)
      ensures FirstDiffer(a, b, k + 1) && a[k + 1] == s[k] && b[k + 1] == t[k]
    {
      assert a[..k + 1] == [a[0]] + s[..k] && b[..k + 1] == [b[0]] + t[..k];
    }
  }

  lemma CharBefore(a: string, b: string)
    ensures LexLeq(CharLeq, a, b) && a != b <==> Before(CharLess, a, b)
  {
    LexBefore(CharLeq, CharLess, a, b);
  }

  lemma NatBefore(a: seq<nat>, b: seq<nat>)
    ensures LexLeq(NatLeq, a, b) && a != b <==> Before(NatLess, a, b)
  {
    LexBefore(NatLeq, NatLess, a, b);
  }

  ghost predicate TotalPreorder<T(!new)>(leq: (T, T) -> bool) {
    && (forall x, y :: leq(x, y) || leq(y, x))
    && (forall x, y, z :: leq(x, y) && leq(y, z) ==> leq(x, z))
  }

  lemma InsertSorted<T(!new)>(leq: (T, T) -> bool, sorted: seq<T>, k: nat, x: T)
    requires TotalPreorder(leq) && SortedBy(leq, sorted) && k <= |sorted|
    requires forall i :: 0 <= i < k ==> leq(sorted[i], x)
    requires k < |sorted| ==> !leq(sorted[k], x)
    ensures SortedBy(leq, sorted[..k] + [x] + sorted[k..])
  {
    forall i | k <= i < |sorted|
      ensures leq(x, sorted[i])
    {
      assert leq(x, sorted[k]);
      assert i == k || leq(sorted[k], sorted[i]);
    }
    var r := sorted[..k] + [x] + sorted[k..];
    forall i, j | 0 <= i < j < |r|
      ensures leq(r[i], r[j])
    {
      var i', j' := if i < k then i else i - 1, if j < k then j else j - 1;
      assert i != k ==> r[i] == sorted[i'];
      assert j != k ==> r[j] == sorted[j'];
      assert i != k && j != k ==> leq(sorted[i'], sorted[j']);
    }
  }

  method Insert<T(!new)>(leq: (T, T) -> bool, sorted: seq<T>, x: T) returns (r: seq<T>)
    requires TotalPreorder(leq) && SortedBy(leq, sorted)
    ensures multiset(r) == multiset(sorted) + multiset{x} && SortedBy(leq, r)
  {
    var k := 0;
    while k < |sorted| && leq(sorted[k], x)
      invariant 0 <= k <= |sorted|
      invariant forall i :: 0 <= i < k ==> leq(sorted[i], x)
    {
      k := k + 1;
    }
    InsertSorted(leq, sorted, k, x);
    assert sorted == sorted[..k] + sorted[k..];
    r := sorted[..k] + [x] + sorted[k..];
  }

  /** Stands for the standard library's sort. */
  method Sort<T(!new)>(leq: (T, T) -> bool, xs: seq<T>) returns (sorted: seq<T>)
    requires TotalPreorder(leq)
    ensures multiset(sorted) == multiset(xs) && SortedBy(leq, sorted)
  {
    hide TotalPreorder, SortedBy;
    sorted := [];
    NothingSorted(leq);
    var n := 0;
    while n < |xs|
      invariant 0 <= n <= |xs|
      invariant multiset(sorted) == multiset(xs[..n]) && SortedBy(leq, sorted)
    {
      sorted := Insert(leq, sorted, xs[n]);
      assert xs[..n + 1] == xs[..n] + [xs[n]];
      n := n + 1;
    }
    assert xs[..n] == xs;
  }

  lemma NothingSorted<T>(leq: (T, T) -> bool)
    ensures SortedBy(leq, [])
  {
  }

  /** Among the elements of `xs`, only equal ones precede each other both ways. */
  ghost predicate AntisymOn<T>(leq: (T, T) -> bool, xs: seq<T>) {
    forall x, y :: x in xs && y in xs && leq(x, y) && leq(y, x) ==> x == y
  }

  lemma MultisetTail<T>(xs: seq<T>)
    requires xs != []
    ensures multiset(xs) == multiset{xs[0]} + multiset(xs[1..])
  {
    assert xs == [xs[0]] + xs[1..];
  }

  lemma SortedHeads<T>(leq: (T, T) -> bool, xs: seq<T>, ys: seq<T>)
    requires AntisymOn(leq, xs) && SortedBy(leq, xs) && SortedBy(leq, ys)
    requires xs != [] && ys != [] && multiset(xs) == multiset(ys)
    ensures xs[0] == ys[0]
  {
    var x, y := xs[0], ys[0];
    assert x in multiset(ys) && y in multiset(xs);
    var i :| 0 <= i < |ys| && ys[i] == x;
    var j :| 0 <= j < |xs| && xs[j] == y;
    if i != 0 && j != 0 {
      assert leq(ys[0], ys[i]) && leq(xs[0], xs[j]);
    }
  }

  lemma MultisetTails<T>(xs: seq<T>, ys: seq<T>)
    requires xs != [] && ys != [] && xs[0] == ys[0] && multiset(xs) == multiset(ys)
    ensures multiset(xs[1..]) == multiset(ys[1..])
  {
    MultisetTail(xs);
    MultisetTail(ys);
    assert multiset(xs[1..]) == multiset(xs) - multiset{xs[0]};
    assert multiset(ys[1..]) == multiset(ys) - multiset{xs[0]};
  }

  lemma SortedTail<T>(leq: (T, T) -> bool, xs: seq<T>)
    requires xs != []
    ensures SortedBy(leq, xs) ==> SortedBy(leq, xs[1..])
    ensures AntisymOn(leq, xs) ==> AntisymOn(leq, xs[1..])
  {
  }

  /** A collection has only one sorted listing. */
  lemma {:induction false} SortedUnique<T>(leq: (T, T) -> bool, xs: seq<T>, ys: seq<T>)
    requires AntisymOn(leq, xs) && SortedBy(leq, xs) && SortedBy(leq, ys)
    requires multiset(xs) == multiset(ys)
    ensures xs == ys
  {
    hide AntisymOn, SortedBy;
    assert |xs| == |multiset(xs)| == |multiset(ys)| == |ys|;
    if xs != [] {
      SortedHeads(leq, xs, ys);
      MultisetTails(xs, ys);
      SortedTail(leq, xs);
      SortedTail(leq, ys);
      SortedUnique(leq, xs[1..], ys[1..]);
      assert xs == [xs[0]] + xs[1..] && ys == [ys[0]] + ys[1..];
    }
  }
}
