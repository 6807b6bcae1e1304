/** What an RLE+ run list denotes: alternating lengths of absent and present numbers. */
module RleRuns {
  import opened Bits
  import opened Seqs

  /** The iteration order of a `BTreeSet<u64>`; its length is a machine word. */
  ghost predicate IsSet(xs: seq<nat>) {
    && |xs| < U64_SIZE
    && Words(xs)
    && forall i, j :: 0 <= i < j < |xs| ==> xs[i] < xs[j]
  }

  /** Every number fits a `u64`. */
  predicate Words(xs: seq<nat>) {
    forall i :: 0 <= i < |xs| ==> xs[i] < U64_SIZE
  }

  function Range(lo: nat, n: nat): (r: seq<nat>)
    ensures |r| == n
    ensures forall i :: 0 <= i < n ==> r[i] == lo + i
  {
    seq(n, i => lo + i)
  }

  /** The numbers a run list stands for, when its first run starts at `at` and is present iff `on`. */
  function Expand(runs: seq<nat>, on: bool, at: nat): (xs: seq<nat>) {
    if runs == [] then []
    else (if on then Range(at, runs[0]) else []) + Expand(runs[1..], !on, at + runs[0])
  }

  function Sum(runs: seq<nat>): (n: nat) {
    if runs == [] then 0 else runs[0] + Sum(runs[1..])
  }

  predicate Positive(runs: seq<nat>) {
    forall i :: 0 <= i < |runs| ==> runs[i] >= 1
  }

  /** Whether the run after `n` runs is present, when the first one is present iff `on`. */
  function Flip(on: bool, n: nat): (r: bool) {
    if n % 2 == 0 then on else !on
  }

  /** The last run is a run of present numbers. */
  predicate EndsOn(runs: seq<nat>, on: bool) {
    runs != [] ==> Flip(on, |runs| - 1)
  }

  predicate StartsOn(xs: seq<nat>) {
    xs != [] && xs[0] == 0
  }

  /** `runs` is the canonical run list of `xs`. */
  ghost predicate RunsOf(runs: seq<nat>, xs: seq<nat>) {
    && Positive(runs)
    && EndsOn(runs, StartsOn(xs))
    && Expand(runs, StartsOn(xs), 0) == xs
  }

  lemma {:induction false} ExpandConcat(a: seq<nat>, b: seq<nat>, on: bool, at: nat)
    ensures Expand(a + b, on, at) == Expand(a, on, at) + Expand(b, Flip(on, |a|), at + Sum(a))
  {
    hide Expand, Range;
    if a == [] {
      assert a + b == b;
      ExpandNone(on, at);
    } else {
      var head, mid := if on then Range(at, a[0]) else [], at + a[0];
      ExpandConcat(a[1..], b, !on, mid);
      assert (a + b)[1..] == a[1..] + b;
      assert Flip(!on, |a| - 1) == Flip(on, |a|);
      ExpandCons(a, on, at);
      ExpandCons(a + b, on, at);
      ConcatAssoc(head, Expand(a[1..], !on, mid), Expand(b, Flip(on, |a|), at + Sum(a)));
    }
  }

  lemma ExpandCons(runs: seq<nat>, on: bool, at: nat)
    requires runs != []
    ensures Expand(runs, on, at)
         == (if on then Range(at, runs[0]) else []) + Expand(runs[1..], !on, at + runs[0])
  {
  }

  lemma {:induction false} SumConcat(a: seq<nat>, b: seq<nat>)
    ensures Sum(a + b) == Sum(a) + Sum(b)
  {
    if a == [] {
      assert a + b == b;
    } else {
      SumConcat(a[1..], b);
      assert (a + b)[1..] == a[1..] + b;
    }
  }

  lemma ExpandNone(on: bool, at: nat)
    ensures Expand([], on, at) == []
  {
  }

  lemma ExpandOne(n: nat, on: bool, at: nat)
    ensures Expand([n], on, at) == (if on then Range(at, n) else [])
    ensures Sum([n]) == n
  {
    assert Expand([n], on, at) == (if on then Range(at, n) else []) + Expand([], !on, at + n);
  }

  /** Lengthening a present last run appends the next number. */
  lemma BumpLast(init: seq<nat>, n: nat, on: bool, at: nat)
    requires Flip(on, |init|)
    ensures Expand(init + [n + 1], on, at) == Expand(init + [n], on, at) + [at + Sum(init + [n])]
    ensures Sum(init + [n + 1]) == Sum(init + [n]) + 1
  {
    hide Expand;
    var end := at + Sum(init);
    ExpandConcat(init, [n], on, at);
    ExpandConcat(init, [n + 1], on, at);
    SumConcat(init, [n]);
    SumConcat(init, [n + 1]);
    ExpandBump(n, end);
    ConcatAssoc(Expand(init, on, at), Expand([n], true, end), [end + n]);
  }

  lemma ExpandBump(n: nat, at: nat)
    ensures Expand([n + 1], true, at) == Expand([n], true, at) + [at + n]
    ensures Sum([n]) == n && Sum([n + 1]) == n + 1
  {
    ExpandOne(n, true, at);
    ExpandOne(n + 1, true, at);
    assert Range(at, n + 1) == Range(at, n) + [at + n];
  }

  /** Adding an absent run of `gap` and a present run of one appends the number after the gap. */
  lemma AppendGap(runs: seq<nat>, on: bool, at: nat, gap: nat)
    requires EndsOn(runs, on) && (runs == [] ==> !on)
    ensures Expand(runs + [gap, 1], on, at) == Expand(runs, on, at) + [at + Sum(runs) + gap]
    ensures Sum(runs + [gap, 1]) == Sum(runs) + gap + 1
    ensures EndsOn(runs + [gap, 1], on)
  {
    hide Expand;
    ExpandConcat(runs, [gap, 1], on, at);
    SumConcat(runs, [gap, 1]);
    ExpandGap(gap, at + Sum(runs));
  }

  lemma ExpandGap(gap: nat, at: nat)
    ensures Expand([gap, 1], false, at) == [at + gap]
    ensures Sum([gap, 1]) == gap + 1
  {
    assert [gap, 1][1..] == [1];
    ExpandOne(1, true, at + gap);
    assert Range(at + gap, 1) == [at + gap];
    assert Expand([gap, 1], false, at) == [] + Expand([1], true, at + gap);
  }

  /** Every expanded number lies from `at` up to, and excluding, the end of the runs; and they increase. */
  lemma {:induction false} ExpandIncreasing(runs: seq<nat>, on: bool, at: nat)
    ensures forall i :: 0 <= i < |Expand(runs, on, at)| ==> at <= Expand(runs, on, at)[i] < at + Sum(runs)
    ensures forall i, j :: 0 <= i < j < |Expand(runs, on, at)| ==> Expand(runs, on, at)[i] < Expand(runs, on, at)[j]
  {
    if runs != [] {
      ExpandIncreasing(runs[1..], !on, at + runs[0]);
    }
  }

  /** A present last run ends right after the last number. */
  lemma ExpandLast(runs: seq<nat>, on: bool, at: nat)
    requires runs != [] && Positive(runs) && EndsOn(runs, on)
    ensures Expand(runs, on, at) != []
    ensures Expand(runs, on, at)[|Expand(runs, on, at)| - 1] == at + Sum(runs) - 1
  {
    var k := |runs| - 1;
    assert runs == runs[..k] + [runs[k]];
    ExpandConcat(runs[..k], [runs[k]], on, at);
    SumConcat(runs[..k], [runs[k]]);
    ExpandOne(runs[k], true, at + Sum(runs[..k]));
  }

  /** Run lists that begin with an absent run name their first number after it. */
  lemma ExpandFirst(runs: seq<nat>, at: nat)
    requires runs != [] && Positive(runs) && EndsOn(runs, false)
    ensures |runs| >= 2 && Expand(runs, false, at) != [] && Expand(runs, false, at)[0] == at + runs[0]
    ensures Expand(runs, false, at) == Expand(runs[1..], true, at + runs[0])
  {
    assert runs[1..] != [] && runs[1..][0] >= 1;
    assert Expand(runs, false, at) == Expand(runs[1..], true, at + runs[0]);
  }

  /** A present first run is exactly as long as the expansion counts up from `at`. */
  lemma PresentRunLength(runs: seq<nat>, at: nat)
    requires runs != [] && Positive(runs) && EndsOn(runs, true)
    ensures
      var xs := Expand(runs, true, at);
      && runs[0] <= |xs|
      && (forall i :: 0 <= i < runs[0] ==> xs[i] == at + i)
      && (runs[0] < |xs| ==> xs[runs[0]] > at + runs[0])
      && xs[runs[0]..] == Expand(runs[1..], false, at + runs[0])
  {
    if |runs| > 1 {
      ExpandFirst(runs[1..], at + runs[0]);
    }
  }

  /** A set has only one canonical run list. */
  lemma {:induction false} RunsUnique(a: seq<nat>, b: seq<nat>, on: bool, at: nat)
    requires Positive(a) && Positive(b) && EndsOn(a, on) && EndsOn(b, on)
    requires Expand(a, on, at) == Expand(b, on, at)
    ensures a == b
  {
    hide Expand, Sum;
    if a == [] || b == [] {
      ExpandNone(on, at);
      if a != [] { ExpandLast(a, on, at); }
      if b != [] { ExpandLast(b, on, at); }
    } else {
      if on {
        PresentRunLength(a, at);
        PresentRunLength(b, at);
        assert a[0] == b[0];
      } else {
        ExpandFirst(a, at);
        ExpandFirst(b, at);
      }
      assert Positive(a[1..]) && Positive(b[1..]);
      RunsUnique(a[1..], b[1..], !on, at + a[0]);
      assert a == [a[0]] + a[1..] && b == [b[0]] + b[1..];
    }
  }
}
