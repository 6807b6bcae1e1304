/** Unsigned LEB128: seven bits a byte, least significant group first, high bit set on all but the last. */
module Varint {
  import opened Bits

  function VarintBytes(n: nat): (bs: seq<Byte>)
    ensures bs != []
  {
    if n < 0x80 then [n] else [n % 0x80 + 0x80] + VarintBytes(n / 0x80)
  }

  /** Continuation bytes followed by exactly one final byte. */
  predicate IsVarint(bs: seq<Byte>) {
    && bs != []
    && bs[|bs| - 1] < 0x80
    && forall i :: 0 <= i < |bs| - 1 ==> bs[i] >= 0x80
  }

  /** The number a varint denotes, without any width limit. */
  function VarintValue(bs: seq<Byte>): (n: nat) {
    if bs == [] then 0 else bs[0] % 0x80 + 0x80 * VarintValue(bs[1..])
  }

  lemma {:induction false} VarintShape(n: nat)
    ensures IsVarint(VarintBytes(n))
    ensures VarintValue(VarintBytes(n)) == n
  {
    if n >= 0x80 {
      VarintShape(n / 0x80);
      assert VarintBytes(n)[1..] == VarintBytes(n / 0x80);
    } else {
      assert VarintBytes(n)[1..] == [];
    }
  }

  /** A number below `128^k` takes at most `k` varint bytes. */
  lemma {:induction false} VarintLength(n: nat, k: nat)
    requires k > 0 && n < Pow2(7 * k)
    ensures |VarintBytes(n)| <= k
  {
    if n >= 0x80 {
      assert Pow2(7) == 0x80 by { SmallPowers(); }
      assert k > 1;
      Pow2Add(7 * (k - 1), 7);
      VarintLength(n / 0x80, k - 1);
    }
  }

  lemma {:induction false} VarintValueBound(bs: seq<Byte>)
    ensures VarintValue(bs) < Pow2(7 * |bs|)
  {
    if bs != [] {
      VarintValueBound(bs[1..]);
      assert Pow2(7) == 0x80 by { SmallPowers(); }
      Pow2Add(7 * |bs[1..]|, 7);
    }
  }

  /** `(n | 0x80) as u8`: the low seven bits with the high bit set. */
  lemma ContinuationByte(n: nat)
    ensures Or(n, 0x80) % 256 == n % 0x80 + 0x80
  {
    SmallPowers();
    OrPow2Bits(n, 7, 8);
    LowBits(Or(n, 0x80), 8);
    LowBits(n, 7);
    var low := ToBits(n, 7);
    PrefixBits(n, 7, 8);
    assert ToBits(n, 8)[7 := true] == low + [true];
    FromBitsConcat(low, [true]);
    assert FromBits([true]) == 1 by { assert [true][1..] == []; }
  }

  /** `byte & 0x7F` and the test `byte & 0x80 == 0`. */
  lemma ByteMasks(b: Byte)
    ensures And(b, 0x7F) == b % 0x80
    ensures And(b, 0x80) == 0 <==> b < 0x80
  {
    SmallPowers();
    AndLow(b, 7);
    AndPow2Bits(b, 7, 8);
    TopBit(b, 7);
  }
}
