/** RLE+ blocks as bits: how one run length is written and read back. */
module RleBlocks {
  import opened Bits
  import opened Seqs
  import opened Varint
  import opened Wrappers

  const SMALL_BLOCK_LENGTH := 4
  const PACK_BYTE_SHIFT := 7
  const BYTE_BITS_COUNT := 8
  const LONG_BLOCK_VALUE := 0x10
  const UNPACK_BYTE_MASK := 0x7F
  const BYTE_SLICE_VALUE := 0x80

  datatype RleDecodeError = VersionMismatch | DataIndexFailure | UnpackOverflow | MaxSizeExceed

  /** The bits written for one run length. */
  function BlockBits(run: nat): (bs: seq<bool>) {
    if run == 1 then [true]
    else if run < LONG_BLOCK_VALUE then [false, true] + ToBits(run, SMALL_BLOCK_LENGTH)
    else [false, false] + BitsOf(VarintBytes(run))
  }

  function RunsBits(runs: seq<nat>): (bs: seq<bool>) {
    FlatMap(BlockBits, runs)
  }

  /** A value read and the bits left over. */
  datatype Read<+T> = Read(value: T, rest: seq<bool>)

  /** Whole bytes up to and including the first one without its high bit. */
  function ReadVarint(bs: seq<bool>): (r: Option<Read<seq<Byte>>>)
    ensures r.Some? ==> |r.value.rest| < |bs|
    ensures r.Some? ==> IsVarint(r.value.value)
    decreases |bs|
  {
    if |bs| < BYTE_BITS_COUNT then None
    else
      var b := ReadByte(bs[..8]);
      if And(b, BYTE_SLICE_VALUE) == 0 then
        ByteMasks(b);
        Some(Read([b], bs[8..]))
      else
        match ReadVarint(bs[8..])
        case None => None
        case Some(Read(tail, rest)) =>
          ByteMasks(b);
          Some(Read([b] + tail, rest))
  }

  function ReadByte(bs: seq<bool>): (b: Byte)
    requires |bs| == 8
  {
    FromBitsBound(bs);
    SmallPowers();
    FromBits(bs)
  }

  /** The loop of `unpack`, from a given shift and partial value. */
  function UnpackFrom(bs: seq<Byte>, shift: nat, value: U64): (r: Result<U64, RleDecodeError>) {
    if bs == [] then Ok(value)
    else if shift > 64 then Err(UnpackOverflow)
    else if bs[0] < BYTE_SLICE_VALUE then Ok(OrWord(value, Shl(bs[0], shift) % U64_SIZE))
    else UnpackFrom(bs[1..], shift + PACK_BYTE_SHIFT,
                    OrWord(value, Shl(And(bs[0], UNPACK_BYTE_MASK), shift) % U64_SIZE))
  }

  function OrWord(a: U64, b: U64): (r: U64) {
    Pow64();
    OrBound(a, b, 64);
    Or(a, b)
  }

  function Unpack(bs: seq<Byte>): (r: Result<U64, RleDecodeError>) {
    UnpackFrom(bs, 0, 0)
  }

  /** One block: its run length and the bits after it. */
  function ReadBlock(bs: seq<bool>): (r: Result<Read<U64>, RleDecodeError>)
    ensures r.Ok? ==> |r.value.rest| < |bs|
  {
    if bs == [] then Err(DataIndexFailure)
    else if bs[0] then Ok(Read(1, bs[1..]))
    else ReadLonger(bs[1..])
  }

  /** A block after its leading zero bit: small if the next bit is set, else long. */
  function ReadLonger(bs: seq<bool>): (r: Result<Read<U64>, RleDecodeError>)
    ensures r.Ok? ==> |r.value.rest| < |bs|
  {
    if bs == [] then Err(DataIndexFailure)
    else if bs[0] then ReadSmall(bs[1..])
    else ReadLong(bs[1..])
  }

  function ReadSmall(bs: seq<bool>): (r: Result<Read<U64>, RleDecodeError>)
    ensures r.Ok? ==> |r.value.rest| <= |bs|
  {
    if |bs| < SMALL_BLOCK_LENGTH then Err(DataIndexFailure)
    else
      FromBitsBound(bs[..4]);
      SmallPowers();
      Ok(Read(FromBits(bs[..4]), bs[4..]))
  }

  function ReadLong(bs: seq<bool>): (r: Result<Read<U64>, RleDecodeError>)
    ensures r.Ok? ==> |r.value.rest| <= |bs|
  {
    match ReadVarint(bs)
    case None => Err(DataIndexFailure)
    case Some(Read(bytes, rest)) =>
      match Unpack(bytes)
      case Err(e) => Err(e)
      case Ok(length) => Ok(Read(length, rest))
  }

  /** Unpacking inverts packing for every word. */
  lemma {:induction false} UnpackInverse(n: nat, shift: nat, value: nat)
    requires value < Pow2(shift) && Shl(n, shift) + value < U64_SIZE
    requires n > 0 || shift == 0
    ensures UnpackFrom(VarintBytes(n), shift, value) == Ok(value + Shl(n, shift))
    decreases n
  {
    ShiftInWord(n, shift);
    if n < 0x80 {
      OrWordAdd(value, n, shift);
    } else {
      PackStep(n, shift, value);
      UnpackStep(n % 0x80, VarintBytes(n / 0x80), shift, value);
      UnpackInverse(n / 0x80, shift + 7, value + Shl(n % 0x80, shift));
    }
  }

  lemma ShiftInWord(n: nat, shift: nat)
    requires Shl(n, shift) < U64_SIZE && (n > 0 || shift == 0)
    ensures shift < 64
  {
    Pow64();
    Pow2Le(64, shift);
    ShlOne(shift);
    if n > 0 { ShlMono(1, n, shift); }
  }

  lemma OrWordAdd(value: nat, b: nat, shift: nat)
    requires value < Pow2(shift) && value + Shl(b, shift) < U64_SIZE
    ensures OrWord(value, Shl(b, shift) % U64_SIZE) == value + Shl(b, shift)
  {
    var high := Shl(b, shift);
    assert high % U64_SIZE == high;
    OrDisjoint(value, b, shift);
  }

  /** One round of the `unpack` loop on a continuation byte that still fits the word. */
  lemma UnpackStep(low: nat, tail: seq<Byte>, shift: nat, value: nat)
    requires low < 0x80 && shift <= 64 && value < Pow2(shift)
    requires value + Shl(low, shift) < U64_SIZE
    ensures UnpackFrom([low + 0x80] + tail, shift, value) == UnpackFrom(tail, shift + 7, value + Shl(low, shift))
  {
    var bs: seq<Byte> := [low + 0x80] + tail;
    assert bs[1..] == tail;
    assert And(bs[0], UNPACK_BYTE_MASK) == low by { ByteMasks(low + 0x80); }
    assert UnpackFrom(bs, shift, value) == UnpackFrom(tail, shift + 7, OrWord(value, Shl(low, shift) % U64_SIZE));
    OrWordAdd(value, low, shift);
  }

  lemma ShlSeven(n: nat)
    ensures Shl(n, 7) == 0x80 * n
  {
    assert Shl(n, 1) == 2 * n;
    assert Shl(n, 2) == 4 * n;
    assert Shl(n, 4) == 16 * n;
    assert Shl(n, 6) == 64 * n;
  }

  /** Splitting seven bits off a shifted number. */
  lemma PackStep(n: nat, shift: nat, value: nat)
    requires value < Pow2(shift)
    ensures Shl(n, shift) == Shl(n % 0x80, shift) + Shl(n / 0x80, shift + 7)
    ensures value + Shl(n % 0x80, shift) < Pow2(shift + 7)
  {
    var low, high := n % 0x80, n / 0x80;
    ShlSeven(high);
    ShlSeven(1);
    ShlAdd(low, 0x80 * high, shift);
    ShlPow2(high, 7, shift);
    ShlOne(shift);
    ShlOne(shift + 7);
    ShlPow2(1, 7, shift);
    ShlAdd(low, 1, shift);
    ShlMono(low + 1, 0x80, shift);
  }

  lemma {:induction false} ReadVarintBytes(bytes: seq<Byte>, tail: seq<bool>)
    requires IsVarint(bytes)
    ensures ReadVarint(BitsOf(bytes) + tail) == Some(Read(bytes, tail))
  {
    var all := BitsOf(bytes) + tail;
    var more := BitsOf(bytes[1..]) + tail;
    ConcatAssoc(ToBits(bytes[0], 8), BitsOf(bytes[1..]), tail);
    assert all == ToBits(bytes[0], 8) + more;
    assert all[..8] == ToBits(bytes[0], 8);
    assert all[8..] == more;
    SmallPowers();
    FromToBits(bytes[0], 8);
    ByteMasks(bytes[0]);
    if |bytes| > 1 {
      ReadVarintBytes(bytes[1..], tail);
      assert bytes == [bytes[0]] + bytes[1..];
    } else {
      assert bytes == [bytes[0]] && more == tail;
    }
  }

  lemma ReadSmallWritten(run: nat, tail: seq<bool>)
    requires run < LONG_BLOCK_VALUE
    ensures ReadSmall(ToBits(run, SMALL_BLOCK_LENGTH) + tail) == Ok(Read(run, tail))
  {
    SmallPowers();
    FromToBits(run, 4);
    var body := ToBits(run, 4) + tail;
    assert body[..4] == ToBits(run, 4);
    assert body[4..] == tail;
  }

  lemma ReadLongWritten(run: nat, tail: seq<bool>)
    requires run < U64_SIZE
    ensures ReadLong(BitsOf(VarintBytes(run)) + tail) == Ok(Read(run, tail))
  {
    VarintShape(run);
    ReadVarintBytes(VarintBytes(run), tail);
    UnpackInverse(run, 0, 0);
  }

  /** Reading a written block gives its run length back and stops right after it. */
  lemma ReadWritten(run: nat, tail: seq<bool>)
    requires run < U64_SIZE
    ensures ReadBlock(BlockBits(run) + tail) == Ok(Read(run, tail))
  {
    if run == 1 {
      assert (BlockBits(run) + tail)[1..] == tail;
    } else if run < LONG_BLOCK_VALUE {
      TwoBitHeader(false, true, ToBits(run, SMALL_BLOCK_LENGTH), tail);
      ReadSmallWritten(run, tail);
    } else {
      TwoBitHeader(false, false, BitsOf(VarintBytes(run)), tail);
      ReadLongWritten(run, tail);
    }
  }

  lemma TwoBitHeader(x: bool, y: bool, body: seq<bool>, tail: seq<bool>)
    ensures
      var all := ([x, y] + body) + tail;
      |all| >= 2 && all[0] == x && all[1..][0] == y && all[1..][1..] == body + tail
  {
    assert ([x, y] + body) + tail == [x] + ([y] + (body + tail));
  }

  /** A written block is never mistaken for padding. */
  lemma BlockHasOne(run: nat)
    requires run >= 1
    ensures !AllFalse(BlockBits(run))
  {
    if run == 1 {
      assert BlockBits(run)[0];
    } else if run < LONG_BLOCK_VALUE {
      assert BlockBits(run)[1];
    } else {
      VarintNonZero(run);
      var i :| 0 <= i < |BitsOf(VarintBytes(run))| && BitsOf(VarintBytes(run))[i];
      assert BlockBits(run)[2 + i];
    }
  }

  lemma {:induction false} VarintNonZero(n: nat)
    requires n >= 1
    ensures !AllFalse(BitsOf(VarintBytes(n)))
  {
    var first := VarintBytes(n)[0];
    assert first != 0;
    SmallPowers();
    ZeroIffAllFalse(first, 8);
    var i :| 0 <= i < 8 && ToBits(first, 8)[i];
    assert BitsOf(VarintBytes(n))[i];
  }
}
