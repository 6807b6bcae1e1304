/** What the RLE+ bits are, said without the encoder: packed numbers, shortest blocks and two encodings. */
module RleFormat {
  import opened Bits
  import opened RleBlocks
  import opened RleEncode
  import opened RleRuns
  import opened Varint
  import opened Wrappers

  // ---- packed numbers -----------------------------------------------------------------------

  lemma {:induction false} ShlIsTimes(n: nat, k: nat)
    ensures Shl(n, k) == n * Pow2(k)
  {
    if k != 0 {
      ShlIsTimes(n, k - 1);
      MulAssoc(n, 2, Pow2(k - 1));
      MulAssoc(2, n, Pow2(k - 1));
    }
  }

  /** Shifting within a word drops the bits that leave it. */
  lemma ShlInWord(b: nat, shift: nat)
    requires shift < 64
    ensures Shl(b, shift) % U64_SIZE == Shl(b % Pow2(64 - shift), shift) < U64_SIZE
  {
    hide Shl, Pow2;
    Pow64();
    var p, h := Pow2(shift), Pow2(64 - shift);
    var q, r := b / h, b % h;
    Pow2Add(64 - shift, shift);
    ShlIsTimes(b, shift);
    ShlIsTimes(r, shift);
    Times(q, h, r, p);
    MulMono(r + 1, h, p);
    assert (r + 1) * p == r * p + p;
    DivModUnique(Shl(b, shift), U64_SIZE, q, r * p);
  }

  lemma Times(q: nat, h: nat, r: nat, p: nat)
    ensures (q * h + r) * p == q * (h * p) + r * p
  {
    MulAssoc(q, h, p);
  }

  lemma WordAdd(a: nat, b: nat)
    ensures (a % U64_SIZE + b) % U64_SIZE == (a + b) % U64_SIZE
  {
  }

  lemma WordSum(value: nat, high: nat, t: U64)
    requires t == value + high % U64_SIZE
    ensures t == (value + high) % U64_SIZE
  {
    WordAdd(high, value);
  }

  lemma OrWordMod(value: nat, b: nat, shift: nat)
    requires shift < 64 && value < Pow2(shift) && value < U64_SIZE
    ensures OrWord(value, Shl(b, shift) % U64_SIZE) == (value + Shl(b, shift)) % U64_SIZE
  {
    hide Shl, Pow2, Or;
    var r := b % Pow2(64 - shift);
    ShlInWord(b, shift);
    OrDisjoint(value, r, shift);
    WordSum(value, Shl(b, shift), OrWord(value, Shl(b, shift) % U64_SIZE));
  }

  /** The `unpack` loop on a whole packed number: its value, cut to the word, unless it goes on past the word. */
  lemma {:induction false} UnpackFromValue(bs: seq<Byte>, shift: nat, value: nat)
    requires IsVarint(bs) && shift % 7 == 0 && value < Pow2(shift) && value < U64_SIZE
    ensures UnpackFrom(bs, shift, value)
         == if shift + 7 * (|bs| - 1) > 64 then Err(UnpackOverflow)
            else Ok((value + Shl(VarintValue(bs), shift)) % U64_SIZE)
    decreases |bs|
  {
    hide Shl, Pow2, OrWord, UnpackFrom, VarintValue;
    if shift > 64 || |bs| == 1 {
      UnpackLast(bs, shift, value);
    } else {
      var low, tail := bs[0] % 0x80, bs[1..];
      var next := (value + Shl(low, shift)) % U64_SIZE;
      TailIsVarint(bs);
      UnpackMore(bs, shift, value);
      ValueStep(bs);
      PackStep(VarintValue(bs), shift, value);
      UnpackFromValue(tail, shift + 7, next);
      WordAdd(value + Shl(low, shift), Shl(VarintValue(tail), shift + 7));
    }
  }

  lemma ValueStep(bs: seq<Byte>)
    requires bs != []
    ensures VarintValue(bs) % 0x80 == bs[0] % 0x80 && VarintValue(bs) / 0x80 == VarintValue(bs[1..])
  {
  }

  /** The loop past the word, and on a final byte. */
  lemma UnpackLast(bs: seq<Byte>, shift: nat, value: nat)
    requires IsVarint(bs) && shift % 7 == 0 && value < Pow2(shift) && value < U64_SIZE
    requires shift > 64 || |bs| == 1
    ensures UnpackFrom(bs, shift, value)
         == if shift > 64 then Err(UnpackOverflow) else Ok((value + Shl(VarintValue(bs), shift)) % U64_SIZE)
  {
    hide Shl, Pow2, OrWord;
    if shift <= 64 {
      assert bs[1..] == [] && VarintValue(bs) == bs[0];
      OrWordMod(value, bs[0], shift);
    }
  }

  /** The loop on a continuation byte. */
  lemma UnpackMore(bs: seq<Byte>, shift: nat, value: nat)
    requires IsVarint(bs) && |bs| > 1 && shift % 7 == 0 && shift <= 64 && value < Pow2(shift) && value < U64_SIZE
    ensures UnpackFrom(bs, shift, value)
         == UnpackFrom(bs[1..], shift + 7, (value + Shl(bs[0] % 0x80, shift)) % U64_SIZE)
  {
    hide Shl, Pow2, OrWord;
    assert bs[0] >= 0x80;
    ByteMasks(bs[0]);
    OrWordMod(value, bs[0] % 0x80, shift);
  }

  lemma TailIsVarint(bs: seq<Byte>)
    requires IsVarint(bs) && |bs| > 1
    ensures IsVarint(bs[1..])
  {
    assert forall i :: 0 <= i < |bs[1..]| - 1 ==> bs[1..][i] == bs[i + 1];
  }

  /** Unpacking any packed number gives its value cut to 64 bits, and fails exactly from the eleventh byte on. */
  lemma UnpackMeaning(bytes: seq<Byte>)
    requires IsVarint(bytes)
    ensures Unpack(bytes) == if |bytes| > 10 then Err(UnpackOverflow) else Ok(VarintValue(bytes) % U64_SIZE)
  {
    UnpackFromValue(bytes, 0, 0);
  }

  /** A packed number, least significant seven bits first. */
  lemma PackedExample()
    ensures VarintBytes(12_512_063) == [191, 214, 251, 5]
  {
    assert VarintBytes(5) == [5];
    assert VarintBytes(763) == [251, 5];
    assert VarintBytes(97_750) == [214, 251, 5];
  }

  // ---- blocks -------------------------------------------------------------------------------

  /** One bit for a run of one, six for the other runs below sixteen, and whole bytes after two bits from there on. */
  lemma BlockLength(run: nat)
    ensures |BlockBits(run)| == 1 <==> run == 1
    ensures run == 0 || 2 <= run < 16 ==> |BlockBits(run)| == 6
    ensures run >= 16 ==> |BlockBits(run)| == 2 + 8 * |VarintBytes(run)|
  {
  }

  lemma {:induction false} ReadVarintLength(bs: seq<bool>)
    requires ReadVarint(bs).Some?
    ensures |bs| == 8 * |ReadVarint(bs).value.value| + |ReadVarint(bs).value.rest|
    decreases |bs|
  {
    hide ReadByte, And;
    if And(ReadByte(bs[..8]), BYTE_SLICE_VALUE) != 0 { ReadVarintLength(bs[8..]); }
  }

  /** No block that reads as a run is shorter than the one written for it. */
  lemma ShortestBlock(run: U64, bs: seq<bool>)
    requires ReadBlock(bs) == Ok(Read(run, []))
    ensures |BlockBits(run)| <= |bs|
  {
    hide Unpack, ReadVarint, BlockBits;
    BlockLength(run);
    if !bs[0] && bs[1..][0] {
      FromBitsBound(bs[1..][1..][..4]);
      SmallPowers();
    } else if !bs[0] {
      var body := bs[1..][1..];
      ReadVarintLength(body);
      PackedLength(ReadVarint(body).value.value, run);
    }
  }

  /** A packed number takes at least the bytes that its value is packed in. */
  lemma PackedLength(bytes: seq<Byte>, run: U64)
    requires IsVarint(bytes) && Unpack(bytes) == Ok(run)
    ensures |VarintBytes(run)| <= |bytes|
  {
    hide Unpack, VarintBytes, VarintValue, Pow2;
    UnpackMeaning(bytes);
    VarintValueBound(bytes);
    VarintLength(run, |bytes|);
  }

  // ---- encodings ----------------------------------------------------------------------------

  lemma SmallBits()
    ensures ToBits(10, 4) == [false, true, false, true]
    ensures ToBits(80, 8) == [false, false, false, false, true, false, true, false]
    ensures ToBits(3, 8) == [true, true, false, false, false, false, false, false]
  {
  }

  lemma LongBits()
    ensures ToBits(16, 8) == [false, false, false, false, true, false, false, false]
    ensures ToBits(34, 8) == [false, true, false, false, false, true, false, false]
  {
  }

  lemma TwoBytes(a: Byte, b: Byte)
    ensures BitsOf([a, b]) == ToBits(a, 8) + ToBits(b, 8)
  {
    assert [a, b][1..] == [b] && [b][1..] == [];
    assert BitsOf([b]) == ToBits(b, 8) + BitsOf([]);
  }

  /** A gap and a run of one stand for the number after the gap. */
  lemma OneNumber(n: nat)
    requires n > 0
    ensures RunsOf([n, 1], [n]) && !StartsOn([n])
    ensures EncodedBits(false, [n, 1]) == [false, false, false] + (BlockBits(n) + [true])
  {
    ExpandGap(n, 0);
    assert [n, 1][1..] == [1] && [1][1..] == [];
    assert RunsBits([n, 1]) == BlockBits(n) + RunsBits([1]);
    assert RunsBits([1]) == [true] + RunsBits([]);
  }

  /** The set of ten alone: a small block and a single one. */
  lemma SmallExample()
    ensures IsEncoding([80, 3], [10])
  {
    hide ToBits, BitsOf, RunsOf, EncodedBits;
    OneNumber(10);
    SmallBits();
    TwoBytes(80, 3);
    var bits := EncodedBits(false, [10, 1]);
    assert |bits| == 10 && Packs([80, 3], bits);
  }

  /** The set of sixteen alone: a long block and a single one. */
  lemma LongExample()
    ensures IsEncoding([0, 34], [16])
  {
    hide ToBits, BitsOf, RunsOf, EncodedBits;
    OneNumber(16);
    LongBits();
    ZeroBits(8);
    TwoBytes(0, 34);
    OneByte(16);
    assert VarintBytes(16) == [16];
    var bits := EncodedBits(false, [16, 1]);
    assert |bits| == 14 && Packs([0, 34], bits);
  }

  lemma OneByte(b: Byte)
    ensures BitsOf([b]) == ToBits(b, 8)
  {
    assert [b][1..] == [];
    assert BitsOf([b]) == ToBits(b, 8) + BitsOf([]);
  }
}
