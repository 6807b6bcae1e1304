/** The RLE+ encoder. */
module RleEncode {
  import opened Bits
  import opened BitSet
  import opened RleBlocks
  import opened RleRuns
  import opened Seqs
  import opened Varint
  import opened Wrappers

  /** All the bits of an encoding: version, first-run flag, one block a run. */
  function EncodedBits(startsOn: bool, runs: seq<nat>): (bs: seq<bool>) {
    [false, false, startsOn] + RunsBits(runs)
  }

  /** `bytes` is the RLE+ encoding of the set `xs`. */
  ghost predicate IsEncoding(bytes: seq<Byte>, xs: seq<nat>) {
    exists runs :: RunsOf(runs, xs) && Packs(bytes, EncodedBits(StartsOn(xs), runs))
  }

  method Encode(input: seq<nat>) returns (bytes: seq<Byte>)
    requires IsSet(input)
    ensures IsEncoding(bytes, input)
  {
    var content := new DynamicBitSet();
    var first, periods := GetPeriods(input);
    InitContent(content);
    var flag := first.Some? && first.value == 0;
    content.Push(flag);
    var i := 0;
    while i < |periods|
      invariant 0 <= i <= |periods|
      invariant fresh(content) && content.Valid()
      invariant content.View() == EncodedBits(flag, periods[..i])
    {
      PushBlock(content, periods[i]);
      assert periods[..i + 1] == periods[..i] + [periods[i]];
      FlatMapConcat(BlockBits, periods[..i], [periods[i]]);
      FlatMapOne(BlockBits, periods[i]);
      ConcatAssoc([false, false, flag], RunsBits(periods[..i]), BlockBits(periods[i]));
      i := i + 1;
    }
    assert periods[..i] == periods;
    bytes := content.IntoBytes();
  }

  /** The branch of `encode` on one run length. */
  method PushBlock(content: DynamicBitSet, value: nat)
    requires content.Valid()
    modifies content
    ensures content.Valid()
    ensures content.View() == old(content.View()) + BlockBits(value)
  {
    if value == 1 {
      content.Push(true);
    } else if value < LONG_BLOCK_VALUE {
      PushSmallBlock(content, value);
    } else {
      PushLongBlock(content, value);
    }
  }

  method GetPeriods(input: seq<nat>) returns (first: Option<nat>, periods: seq<nat>)
    requires IsSet(input)
    ensures first == if input == [] then None else Some(input[0])
    ensures RunsOf(periods, input)
    ensures Words(periods)
  {
    hide Expand, Sum;
    if input == [] {
      assert Expand([], false, 0) == [] by { ExpandNone(false, 0); }
      return None, [];
    }
    var prev := input[0];
    var ps := FirstPeriods(prev);
    ghost var seen := [prev];
    var i := 1;
    while i < |input|
      invariant 1 <= i <= |input|
      invariant seen == input[..i] && seen[i - 1] == prev
      invariant PeriodsUpTo(ps, StartsOn(input), seen)
      invariant ps[|ps| - 1] <= i && Words(ps)
    {
      var item := input[i];
      assert prev < item < U64_SIZE;
      ps := NextPeriods(ps, prev, item, seen, StartsOn(input));
      seen := seen + [item];
      prev := item;
      i := i + 1;
    }
    assert seen == input;
    return Some(input[0]), ps;
  }

  /** The loop body of `get_periods`. */
  method NextPeriods(periods: seq<nat>, prev: nat, item: nat, ghost seen: seq<nat>, ghost on: bool)
    returns (next: seq<nat>)
    requires PeriodsUpTo(periods, on, seen) && seen[|seen| - 1] == prev < item
    requires periods[|periods| - 1] <= |seen| < U64_SIZE - 1 && item < U64_SIZE && Words(periods)
    ensures PeriodsUpTo(next, on, seen + [item])
    ensures next[|next| - 1] <= |seen| + 1 && Words(next)
  {
    var diff := item - prev;
    next := periods;
    if diff == 1 {
      var last := |periods| - 1;
      assert periods == periods[..last] + [periods[last]];
      LongerRun(periods[..last], periods[last], on, seen);
      next := periods[..last] + [periods[last] + 1];
    } else if diff > 1 {
      NewRun(periods, on, seen, diff);
      next := next + [diff - 1];
      next := next + [1];
      assert next == periods + [diff - 1, 1];
    }
  }

  /** The run list of a non-empty prefix, ending right after its last element. */
  ghost predicate PeriodsUpTo(periods: seq<nat>, on: bool, xs: seq<nat>) {
    && periods != [] && xs != []
    && Positive(periods) && EndsOn(periods, on)
    && Expand(periods, on, 0) == xs
    && Sum(periods) == xs[|xs| - 1] + 1
  }

  /** The next number in sequence lengthens the last run. */
  lemma LongerRun(init: seq<nat>, n: nat, on: bool, xs: seq<nat>)
    requires PeriodsUpTo(init + [n], on, xs)
    ensures PeriodsUpTo(init + [n + 1], on, xs + [xs[|xs| - 1] + 1])
  {
    BumpLast(init, n, on, 0);
    var after, before := init + [n + 1], init + [n];
    forall i | 0 <= i < |after|
      ensures after[i] >= 1
    {
      assert before[i] >= 1;
    }
  }

  /** A number after a gap adds the gap and a run of one. */
  lemma NewRun(periods: seq<nat>, on: bool, xs: seq<nat>, diff: nat)
    requires PeriodsUpTo(periods, on, xs) && diff > 1
    ensures PeriodsUpTo(periods + [diff - 1, 1], on, xs + [xs[|xs| - 1] + diff])
  {
    AppendGap(periods, on, 0, diff - 1);
  }

  /** The runs up to the first element: a gap unless it is zero, then a run of one. */
  method FirstPeriods(prev: nat) returns (periods: seq<nat>)
    ensures PeriodsUpTo(periods, prev == 0, [prev])
    ensures periods[|periods| - 1] == 1 && (prev < U64_SIZE ==> Words(periods))
  {
    periods := [];
    if prev != 0 {
      periods := periods + [prev];
    }
    periods := periods + [1];
    if prev == 0 {
      ExpandOne(1, true, 0);
    } else {
      AppendGap([], false, 0, prev);
      assert periods == [] + [prev, 1];
    }
  }

  method InitContent(content: DynamicBitSet)
    modifies content
    ensures content.Valid() && content.View() == [false, false]
  {
    content.Clear();
    content.Push(false);
    content.Push(false);
  }

  method PushSmallBlock(content: DynamicBitSet, block: nat)
    requires content.Valid() && block < LONG_BLOCK_VALUE
    modifies content
    ensures content.Valid()
    ensures content.View() == old(content.View()) + ([false, true] + ToBits(block, SMALL_BLOCK_LENGTH))
  {
    content.Push(false);
    content.Push(true);
    ghost var start := content.View();
    var i := 0;
    while i < SMALL_BLOCK_LENGTH
      invariant 0 <= i <= SMALL_BLOCK_LENGTH
      invariant content.Valid()
      invariant content.View() == start + ToBits(block, SMALL_BLOCK_LENGTH)[..i]
    {
      var c := Shr(And(block, Shl(1, i)), i) == 1;
      MaskShift(block, i, SMALL_BLOCK_LENGTH);
      content.Push(c);
      i := i + 1;
    }
    assert ToBits(block, SMALL_BLOCK_LENGTH)[..i] == ToBits(block, SMALL_BLOCK_LENGTH);
    ConcatAssoc(old(content.View()), [false, true], ToBits(block, SMALL_BLOCK_LENGTH));
  }

  /** `(n & 1 << k) >> k == 1` tests bit `k`. */
  lemma MaskShift(n: nat, k: nat, width: nat)
    requires k < width
    ensures Shr(And(n, Shl(1, k)), k) == 1 <==> ToBits(n, width)[k]
  {
    ShlOne(k);
    MaskShiftPow2(n, k, width);
  }

  lemma {:induction false} MaskShiftPow2(n: nat, k: nat, width: nat)
    requires k < width
    ensures Shr(And(n, Pow2(k)), k) == if ToBits(n, width)[k] then 1 else 0
  {
    if n == 0 {
      ZeroBits(width);
      ShrZero(k);
    } else if k == 0 {
      assert And(n, 1) == n % 2 + 2 * And(n / 2, 0);
    } else {
      MaskShiftPow2(n / 2, k - 1, width - 1);
      assert And(n, Pow2(k)) == 2 * And(n / 2, Pow2(k - 1));
    }
  }

  lemma {:induction false} ShrZero(k: nat)
    ensures Shr(0, k) == 0
  {
    if k != 0 { ShrZero(k - 1); }
  }

  method PushLongBlock(content: DynamicBitSet, block: nat)
    requires content.Valid()
    modifies content
    ensures content.Valid()
    ensures content.View() == old(content.View()) + ([false, false] + BitsOf(VarintBytes(block)))
  {
    content.Push(false);
    content.Push(false);
    PushVarint(content, block);
    ConcatAssoc(old(content.View()), [false, false], BitsOf(VarintBytes(block)));
  }

  /** The loop of `push_long_block`. */
  method PushVarint(content: DynamicBitSet, block: nat)
    requires content.Valid()
    modifies content
    ensures content.Valid()
    ensures content.View() == old(content.View()) + BitsOf(VarintBytes(block))
  {
    var slice := block;
    while slice >= BYTE_SLICE_VALUE
      invariant slice >= 0
      invariant content.Valid()
      invariant content.View() + BitsOf(VarintBytes(slice)) == old(content.View()) + BitsOf(VarintBytes(block))
    {
      var byte := Or(slice, BYTE_SLICE_VALUE) % 256;
      VarintBits(slice);
      ConcatAssoc(content.View(), ToBits(byte, 8), BitsOf(VarintBytes(Shr(slice, PACK_BYTE_SHIFT))));
      PushByte(content, byte);
      slice := Shr(slice, PACK_BYTE_SHIFT);
    }
    VarintBits(slice);
    PushByte(content, slice);
  }

  /** The first byte of a packed number, and the rest. */
  lemma VarintBits(n: nat)
    ensures n < 0x80 ==> BitsOf(VarintBytes(n)) == ToBits(n, 8)
    ensures n >= 0x80 ==>
      BitsOf(VarintBytes(n)) == ToBits(Or(n, BYTE_SLICE_VALUE) % 256, 8) + BitsOf(VarintBytes(Shr(n, PACK_BYTE_SHIFT)))
  {
    ContinuationByte(n);
    ShrSeven(n);
    var bytes := VarintBytes(n);
    assert BitsOf(bytes) == ToBits(bytes[0], 8) + BitsOf(bytes[1..]);
    if n < 0x80 {
      assert bytes[1..] == [];
    } else {
      assert bytes[1..] == VarintBytes(n / 0x80);
    }
  }

  lemma ShrSeven(n: nat)
    ensures Shr(n, 7) == n / 0x80
  {
    var a := n / 2 / 2;
    assert Shr(n, 7) == Shr(a, 5) && a == n / 4;
    var b := a / 2 / 2;
    assert Shr(a, 5) == Shr(b, 3) && b == a / 4;
    var c := b / 2 / 2;
    assert Shr(b, 3) == Shr(c, 1) && c == b / 4;
    assert Shr(c, 1) == c / 2;
  }

  method PushByte(content: DynamicBitSet, byte: Byte)
    requires content.Valid()
    modifies content
    ensures content.Valid()
    ensures content.View() == old(content.View()) + ToBits(byte, 8)
  {
    ghost var start := content.View();
    var i := 0;
    while i < BYTE_LEN
      invariant 0 <= i <= BYTE_LEN
      invariant content.Valid()
      invariant content.View() == start + ToBits(byte, 8)[..i]
    {
      var bit := And(Shr(byte, i), 1) != 0;
      ShrBits(byte, i, 8 - i);
      AndPow2Bits(Shr(byte, i), 0, 8 - i);
      content.Push(bit);
      i := i + 1;
    }
    assert ToBits(byte, 8)[..i] == ToBits(byte, 8);
  }
}
