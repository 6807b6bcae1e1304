/** The growable bit vector under the RLE+ codec. */
module BitSet {
  import opened Bits
  import opened Wrappers

  const BYTE_LEN := 8
  const MASK := BYTE_LEN - 1

  function Index(pos: nat): (i: nat) {
    pos / BYTE_LEN
  }

  function Offset(pos: nat): (o: nat)
    ensures o == pos % 8
  {
    SmallPowers();
    AndLow(pos, 3);
    And(pos, MASK)
  }

  function BitMask(pos: nat): (m: Byte)
    ensures m == Pow2(pos % 8)
  {
    SmallPowers();
    Pow2Mono(pos % 8, 8);
    ShlOne(pos % 8);
    Shl(1, Offset(pos))
  }

  /** `b | 1 << k` on a byte: the byte whose bit `k` is also set. */
  function SetBit(b: Byte, k: nat): (r: Byte)
    requires k < 8
    ensures ToBits(r, 8) == ToBits(b, 8)[k := true]
  {
    OrPow2Bits(b, k, 8);
    SmallPowers();
    Pow2Mono(k, 8);
    ShlOne(k);
    OrBound(b, Pow2(k), 8);
    Or(b, Shl(1, k))
  }

  class DynamicBitSet {
    var content: seq<Byte>
    var bitCount: nat

    /** As many bytes as the bits need, and every bit past the end is zero. */
    ghost predicate Valid()
      reads this
    {
      && |content| == (bitCount + 7) / 8
      && forall i :: bitCount <= i < 8 * |content| ==> !BitsOf(content)[i]
    }

    /** The bits pushed so far. */
    ghost function View(): (bs: seq<bool>)
      requires Valid()
      reads this
      ensures |bs| == bitCount
    {
      BitsOf(content)[..bitCount]
    }

    constructor ()
      ensures Valid() && View() == []
    {
      content, bitCount := [], 0;
    }

    constructor FromBytes(v: seq<Byte>)
      ensures Valid() && content == v && View() == BitsOf(v)
    {
      content, bitCount := v, |v| * BYTE_LEN;
    }

    method Push(bit: bool)
      requires Valid()
      modifies this
      ensures Valid()
      ensures View() == old(View()) + [bit]
    {
      hide BitsOf, ToBits, SetBit;
      var index := Index(bitCount);
      if index >= |content| {
        assert content + [0] == content[..index] + [0] + content[index..];
        content := content + [0];
        BitsOfConcat(old(content), [0]);
        ZeroByte();
      }
      assert bitCount < 8 * |content|;
      assert forall i :: bitCount <= i < 8 * |content| ==> !BitsOf(content)[i];
      assert BitsOf(content)[..bitCount] == old(View());
      ghost var before := BitsOf(content);
      if bit {
        var offset := Offset(bitCount);
        ghost var was := content;
        content := content[index := SetBit(content[index], offset)];
        SetBitInPlace(was, bitCount);
        assert BitsOf(content) == before[bitCount := true];
      }
      bitCount := bitCount + 1;
      assert BitsOf(content)[..bitCount] == before[..bitCount - 1] + [bit];
    }

    method Clear()
      modifies this
      ensures Valid() && View() == []
    {
      content, bitCount := [], 0;
    }

    function Size(): nat
      reads this
    {
      bitCount
    }

    /** The source asserts `pos < bit_count`. */
    method Bit(pos: nat) returns (b: bool)
      requires Valid() && pos < bitCount
      ensures b == View()[pos]
    {
      var index := Index(pos);
      b := And(content[index], BitMask(pos)) != 0;
      AndPow2Bits(content[index], pos % 8, 8);
      BitsOfAt(content, pos);
    }

    /** The least set position after `pos`. On an empty set the source computes `bit_count - 1`
        first and so demands a non-empty one. */
    method FindNext(pos: nat) returns (r: Option<nat>)
      requires Valid() && bitCount > 0
      ensures r.None? ==> forall q :: pos < q < bitCount ==> !View()[q]
      ensures r.Some? ==> pos < r.value < bitCount && View()[r.value]
      ensures r.Some? ==> forall q :: pos < q < r.value ==> !View()[q]
      decreases bitCount - pos
    {
      hide Shr, ToBits;
      if pos >= bitCount - 1 || bitCount == 0 {
        return None;
      }
      var next := pos + 1;
      var index := Index(next);
      var offset := Offset(next);
      var fore := Shr(content[index], offset);
      ForeByte(content[index], offset);
      ForeBits(content, next);
      if fore > 0 {
        var count := LowestSetBit(fore, 8 - offset);
        assert BitsOf(content)[next + count];
        return Some(next + count);
      } else {
        r := FindNext(index * BYTE_LEN + (BYTE_LEN - 1));
      }
    }

    /** `Into<Vec<u8>>`. */
    method IntoBytes() returns (v: seq<Byte>)
      requires Valid()
      ensures Packs(v, View())
    {
      v := content;
    }
  }

  lemma ZeroByte()
    ensures BitsOf([0]) == Zeros(8)
  {
    ZeroBits(8);
    assert BitsOf([0]) == ToBits(0, 8) + BitsOf([]);
  }

  /** Setting bit `pos % 8` of byte `pos / 8` sets bit `pos` of the whole. */
  lemma SetBitInPlace(bytes: seq<Byte>, pos: nat)
    requires pos < 8 * |bytes|
    ensures BitsOf(bytes[pos / 8 := SetBit(bytes[pos / 8], pos % 8)]) == BitsOf(bytes)[pos := true]
  {
    hide BitsOf, ToBits, SetBit;
    var j := pos / 8;
    var all, byte := BitsOf(bytes), ToBits(bytes[j], 8);
    BitsOfUpdate(bytes, j, SetBit(bytes[j], pos % 8));
    BitsOfUpdate(bytes, j, bytes[j]);
    assert bytes[j := bytes[j]] == bytes;
    UpdateMiddle(all[..8 * j], byte, all[8 * j + 8..], pos % 8, true);
  }

  lemma UpdateMiddle<T>(low: seq<T>, mid: seq<T>, high: seq<T>, k: nat, x: T)
    requires k < |mid|
    ensures low + mid[k := x] + high == (low + mid + high)[|low| + k := x]
  {
  }

  /** A byte shifted down by `o` holds its bits from `o` on. */
  lemma ForeByte(b: Byte, o: nat)
    requires o < 8
    ensures Shr(b, o) < Pow2(8 - o)
    ensures Shr(b, o) == 0 <==> AllFalse(ToBits(Shr(b, o), 8 - o))
    ensures ToBits(Shr(b, o), 8 - o) == ToBits(b, 8)[o..]
  {
    SmallPowers();
    ShrBits(b, o, 8 - o);
    ShrBound(b, o, 8 - o);
    ZeroIffAllFalse(Shr(b, o), 8 - o);
  }

  /** The bits from `pos` to the end of its byte. */
  lemma ForeBits(bytes: seq<Byte>, pos: nat)
    requires pos < 8 * |bytes|
    ensures forall p :: pos <= p < pos + 8 - pos % 8 ==>
      BitsOf(bytes)[p] == ToBits(bytes[pos / 8], 8)[pos % 8 ..][p - pos]
  {
    forall p | pos <= p < pos + 8 - pos % 8
      ensures BitsOf(bytes)[p] == ToBits(bytes[pos / 8], 8)[pos % 8 ..][p - pos]
    {
      BitsOfAt(bytes, p);
      assert p / 8 == pos / 8 && p % 8 == pos % 8 + (p - pos);
    }
  }

  /** The scan of `find_next` inside one byte. */
  method LowestSetBit(fore: nat, width: nat) returns (count: nat)
    requires 0 < fore < Pow2(width)
    ensures count < width && ToBits(fore, width)[count]
    ensures forall q :: 0 <= q < count ==> !ToBits(fore, width)[q]
  {
    ZeroIffAllFalse(fore, width);
    var mask := 1;
    count := 0;
    while And(fore, mask) == 0
      invariant 0 <= count < width
      invariant mask == Pow2(count)
      invariant forall q :: 0 <= q < count ==> !ToBits(fore, width)[q]
      decreases width - count
    {
      AndPow2Bits(fore, count, width);
      assert Shl(mask, 1) == 2 * mask;
      mask := Shl(mask, 1);
      count := count + 1;
    }
    AndPow2Bits(fore, count, width);
  }
}
