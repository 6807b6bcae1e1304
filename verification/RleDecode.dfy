/** The RLE+ decoder. */
module RleDecode {
  import opened Bits
  import opened BitSet
  import opened RleBlocks
  import opened RleRuns
  import opened Seqs
  import opened Wrappers

  const OBJECT_MAX_SIZE := 0x100_000
  const ITEM_SIZE := 8

  /** What `decode` does. `Overflowed` is an addition past the item width: a panic where arithmetic is checked. */
  datatype Outcome = Decoded(xs: seq<nat>) | Failed(error: RleDecodeError) | Overflowed

  /** The decoder between two blocks. */
  datatype Flow = Running(at: nat, out: seq<nat>) | Ended(outcome: Outcome)

  /** Taking one run: present numbers are output, and the position moves past the run. */
  function Advance(on: bool, at: nat, run: nat, out: seq<nat>): (f: Flow) {
    if at + run >= U64_SIZE then Ended(Overflowed)
    else Running(at + run, out + if on then Range(at, run) else [])
  }

  /** Blocks until only zero bits are left. */
  function DecodeBlocks(bs: seq<bool>, on: bool, at: nat, out: seq<nat>): (o: Outcome)
    decreases |bs|
  {
    if AllFalse(bs) then Decoded(out)
    else
      match ReadBlock(bs)
      case Err(e) => Failed(e)
      case Ok(Read(run, rest)) =>
        match Advance(on, at, run, out)
        case Ended(o) => o
        case Running(at', out') => DecodeBlocks(rest, !on, at', out')
  }

  lemma DecodeStep(bs: seq<bool>, on: bool, at: nat, out: seq<nat>, run: nat, rest: seq<bool>)
    requires !AllFalse(bs) && ReadBlock(bs) == Ok(Read(run, rest))
    ensures DecodeBlocks(bs, on, at, out)
         == if at + run >= U64_SIZE then Overflowed
            else DecodeBlocks(rest, !on, at + run, out + if on then Range(at, run) else [])
  {
  }

  function DecodeBits(bs: seq<bool>): (o: Outcome) {
    if |bs| < 2 then Failed(DataIndexFailure)
    else if |bs| < SMALL_BLOCK_LENGTH || FromBits(bs[..2]) == 1 then Failed(VersionMismatch)
    else
      match DecodeBlocks(bs[3..], bs[2], 0, [])
      case Decoded(out) => if |out| > OBJECT_MAX_SIZE / ITEM_SIZE then Failed(MaxSizeExceed) else Decoded(out)
      case other => other
  }

  class BitSetHelper {
    const bitset: DynamicBitSet
    var index: nat
    var magnitude: bool

    constructor (bitset: DynamicBitSet)
      ensures this.bitset == bitset && index == 0 && !magnitude
    {
      this.bitset, index, magnitude := bitset, 0, false;
    }

    ghost predicate Valid()
      reads this, bitset
    {
      bitset.Valid() && index <= bitset.bitCount
    }

    /** The bits not read yet. */
    ghost function Rest(): (bs: seq<bool>)
      requires Valid()
      reads this, bitset
    {
      bitset.View()[index..]
    }
  }

  /** Reads `count` bits, or fails without moving when fewer are left. */
  method GetSpan(helper: BitSetHelper, count: nat) returns (r: Result<nat, RleDecodeError>)
    requires helper.Valid()
    modifies helper`index
    ensures helper.Valid()
    ensures r.Err? <==> |old(helper.Rest())| < count
    ensures r.Err? ==> r.error == DataIndexFailure && helper.index == old(helper.index)
    ensures r.Ok? ==> r.value == FromBits(old(helper.Rest())[..count])
    ensures r.Ok? ==> helper.Rest() == old(helper.Rest())[count..]
  {
    var end := helper.index + count;
    if helper.bitset.Size() < end {
      return Err(DataIndexFailure);
    }
    ghost var bits := helper.Rest();
    var value, shift := 0, 0;
    var i := helper.index;
    while i < end
      invariant helper.Valid() && helper.index == old(helper.index) <= i <= end
      invariant shift == i - helper.index
      invariant value == FromBits(bits[..shift])
    {
      var bit := helper.bitset.Bit(i);
      var slice := if bit then 1 else 0;
      NextBit(bits, shift);
      value := Or(value, Shl(slice, shift));
      shift := shift + 1;
      i := i + 1;
    }
    helper.index := helper.index + count;
    return Ok(value);
  }

  /** Or-ing in one more bit extends the number read. */
  lemma NextBit(bits: seq<bool>, k: nat)
    requires k < |bits|
    ensures FromBits(bits[..k + 1]) == Or(FromBits(bits[..k]), Shl(if bits[k] then 1 else 0, k))
  {
    hide Or, Shl, FromBits, Pow2;
    var low, b := bits[..k], [bits[k]];
    var n := if bits[k] then 1 else 0;
    assert bits[..k + 1] == low + b;
    FromBitsConcat(low, b);
    FromOneBit(bits[k]);
    FromBitsBound(low);
    OrDisjoint(FromBits(low), n, k);
    ShlOne(k);
    ShlZero(k);
  }

  lemma FromOneBit(bit: bool)
    ensures FromBits([bit]) == if bit then 1 else 0
  {
    assert [bit][1..] == [];
  }

  lemma {:induction false} ShlZero(k: nat)
    ensures Shl(0, k) == 0
  {
    if k != 0 { ShlZero(k - 1); }
  }

  method Decode(data: seq<Byte>) returns (o: Outcome)
    ensures o == DecodeBits(BitsOf(data))
  {
    var content := new DynamicBitSet.FromBytes(data);
    var helper := new BitSetHelper(content);
    ghost var bits := BitsOf(data);
    var two := GetSpan(helper, 2);
    if two.Err? {
      return Failed(two.error);
    }
    if helper.bitset.Size() < SMALL_BLOCK_LENGTH || two.value == 1 {
      return Failed(VersionMismatch);
    }
    var one := GetSpan(helper, 1);
    OneBit(bits[2..]);
    helper.magnitude := one.value == 1;
    assert bits[2..][1..] == bits[3..];
    var flow := DecodeLoop(helper);
    if flow.Decoded? && |flow.xs| > OBJECT_MAX_SIZE / ITEM_SIZE {
      return Failed(MaxSizeExceed);
    }
    return flow;
  }

  lemma OneBit(bs: seq<bool>)
    requires bs != []
    ensures FromBits(bs[..1]) == if bs[0] then 1 else 0
  {
    assert bs[..1][1..] == [];
  }

  /** The loop of `decode`: one block a round while a set bit is left. */
  method DecodeLoop(helper: BitSetHelper) returns (o: Outcome)
    requires helper.Valid() && 0 < helper.index
    modifies helper
    ensures o == DecodeBlocks(old(helper.Rest()), old(helper.magnitude), 0, [])
  {
    var at, out := 0, [];
    ghost var goal := DecodeBlocks(helper.Rest(), helper.magnitude, 0, []);
    while true
      invariant helper.Valid() && 0 < helper.index && 0 <= at < U64_SIZE
      invariant DecodeBlocks(helper.Rest(), helper.magnitude, at, out) == goal
      decreases helper.bitset.bitCount - helper.index
    {
      var more := MoreBits(helper);
      if !more {
        return Decoded(out);
      }
      ghost var read := ReadBlock(helper.Rest());
      if read.Ok? {
        DecodeStep(helper.Rest(), helper.magnitude, at, out, read.value.value, read.value.rest);
      }
      var flow := DecodeBlock(helper, at, out);
      if flow.Ended? {
        return flow.outcome;
      }
      at, out := flow.at, flow.out;
    }
  }

  /** The loop condition: a set bit is left. */
  method MoreBits(helper: BitSetHelper) returns (more: bool)
    requires helper.Valid() && 0 < helper.index
    ensures more <==> !AllFalse(helper.Rest())
  {
    var next := helper.bitset.FindNext(helper.index - 1);
    if next.Some? {
      assert helper.Rest()[next.value - helper.index];
    }
    return next.Some?;
  }

  /** What one block must do, given how it reads: fail, or take the run and leave the rest. */
  twostate predicate Took(read: Result<Read<U64>, RleDecodeError>, helper: BitSetHelper, at: nat, out: seq<nat>, f: Flow)
    requires helper.Valid()
    reads helper, helper.bitset
  {
    match read
    case Err(e) => f == Ended(Failed(e))
    case Ok(Read(run, rest)) =>
      && f == Advance(old(helper.magnitude), at, run, out)
      && (f.Running? ==> helper.Rest() == rest && helper.magnitude == !old(helper.magnitude))
  }

  /** One round: read the first header bit and dispatch. */
  method DecodeBlock(helper: BitSetHelper, at: nat, out: seq<nat>) returns (f: Flow)
    requires helper.Valid() && helper.Rest() != [] && at < U64_SIZE
    modifies helper
    ensures helper.Valid() && helper.index > old(helper.index)
    ensures Took(ReadBlock(old(helper.Rest())), helper, at, out, f)
  {
    var header := GetSpan(helper, 1);
    OneBit(old(helper.Rest()));
    if header.value == 1 {
      f := DecodeSingleBlock(helper, at, out);
    } else {
      f := DecodeLongerBlock(helper, at, out);
    }
  }

  /** The second header bit. */
  method DecodeLongerBlock(helper: BitSetHelper, at: nat, out: seq<nat>) returns (f: Flow)
    requires helper.Valid() && at < U64_SIZE
    modifies helper
    ensures helper.Valid() && helper.index >= old(helper.index)
    ensures Took(ReadLonger(old(helper.Rest())), helper, at, out, f)
  {
    var blockHeader := GetSpan(helper, 1);
    if blockHeader.Err? {
      return Ended(Failed(blockHeader.error));
    }
    OneBit(old(helper.Rest()));
    if blockHeader.value == 0 {
      f := DecodeLongBlock(helper, at, out);
    } else {
      f := DecodeSmallBlock(helper, at, out);
    }
  }

  method DecodeSingleBlock(helper: BitSetHelper, at: nat, out: seq<nat>) returns (f: Flow)
    requires helper.Valid() && at < U64_SIZE
    modifies helper`magnitude
    ensures f == Advance(old(helper.magnitude), at, 1, out)
    ensures f.Running? ==> helper.magnitude == !old(helper.magnitude)
  {
    var out' := out;
    if helper.magnitude {
      out' := out' + [at];
    }
    assert Range(at, 1) == [at];
    helper.magnitude := !helper.magnitude;
    if at + 1 >= U64_SIZE {
      return Ended(Overflowed);
    }
    assert out + [] == out;
    return Running(at + 1, out');
  }

  method DecodeSmallBlock(helper: BitSetHelper, at: nat, out: seq<nat>) returns (f: Flow)
    requires helper.Valid() && at < U64_SIZE
    modifies helper
    ensures helper.Valid() && helper.index >= old(helper.index)
    ensures Took(ReadSmall(old(helper.Rest())), helper, at, out, f)
  {
    var length := GetSpan(helper, SMALL_BLOCK_LENGTH);
    if length.Err? {
      return Ended(Failed(length.error));
    }
    f := TakeRun(helper.magnitude, at, length.value, out);
    helper.magnitude := !helper.magnitude;
  }

  method DecodeLongBlock(helper: BitSetHelper, at: nat, out: seq<nat>) returns (f: Flow)
    requires helper.Valid() && at < U64_SIZE
    modifies helper
    ensures helper.Valid() && helper.index >= old(helper.index)
    ensures Took(ReadLong(old(helper.Rest())), helper, at, out, f)
  {
    var bytes := ReadBytes(helper);
    if bytes.Err? {
      return Ended(Failed(bytes.error));
    }
    var length := UnpackBytes(bytes.value);
    if length.Err? {
      return Ended(Failed(length.error));
    }
    f := TakeRun(helper.magnitude, at, length.value, out);
    helper.magnitude := !helper.magnitude;
  }

  /** The loop of `decode_long_block` that collects the bytes of a varint. */
  method ReadBytes(helper: BitSetHelper) returns (r: Result<seq<Byte>, RleDecodeError>)
    requires helper.Valid()
    modifies helper`index
    ensures helper.Valid() && helper.index >= old(helper.index)
    ensures
      match ReadVarint(old(helper.Rest()))
      case None => r == Err(DataIndexFailure)
      case Some(Read(bytes, rest)) => r == Ok(bytes) && helper.Rest() == rest
  {
    var bytes: seq<Byte> := [];
    ghost var all := ReadVarint(helper.Rest());
    assert all.Some? ==> [] + all.value.value == all.value.value;
    while true
      invariant helper.Valid() && helper.index >= old(helper.index)
      invariant all == match ReadVarint(helper.Rest())
                       case None => None
                       case Some(Read(more, rest)) => Some(Read(bytes + more, rest))
      decreases |helper.Rest()|
    {
      ghost var before := helper.Rest();
      var span := GetSpan(helper, BYTE_BITS_COUNT);
      if span.Err? {
        return Err(span.error);
      }
      var slice := span.value as int;
      FromBitsBound(before[..8]);
      SmallPowers();
      bytes := bytes + [slice];
      if And(slice, BYTE_SLICE_VALUE) == 0 {
        return Ok(bytes);
      }
      ghost var tail := ReadVarint(helper.Rest());
      if tail.Some? {
        ConcatAssoc(bytes[..|bytes| - 1], [slice], tail.value.value);
        assert bytes[..|bytes| - 1] + [slice] == bytes;
      }
    }
  }

  /** `unpack`. */
  method UnpackBytes(data: seq<Byte>) returns (r: Result<nat, RleDecodeError>)
    ensures r == Unpack(data)
  {
    var shift, value, i := 0, 0, 0;
    while i < |data|
      invariant 0 <= i <= |data|
      invariant 0 <= value < U64_SIZE && 0 <= shift
      invariant Unpack(data) == UnpackFrom(data[i..], shift, value)
    {
      if shift > 64 {
        return Err(UnpackOverflow);
      }
      var byte := data[i];
      assert data[i..][0] == byte && data[i..][1..] == data[i + 1..];
      if byte < BYTE_SLICE_VALUE {
        return Ok(OrWord(value, Shl(byte, shift) % U64_SIZE));
      }
      value := OrWord(value, Shl(And(byte, UNPACK_BYTE_MASK), shift) % U64_SIZE);
      shift := shift + PACK_BYTE_SHIFT;
      i := i + 1;
    }
    return Ok(value);
  }

  /** A run of `length`: output one number a round when present, else skip it at once. */
  method TakeRun(magnitude: bool, at: nat, length: nat, out: seq<nat>) returns (f: Flow)
    requires at < U64_SIZE
    ensures f == Advance(magnitude, at, length, out)
  {
    assert out + [] == out;
    if magnitude {
      var at', out', i := at, out, 0;
      while i < length
        invariant 0 <= i <= length
        invariant at' == at + i < U64_SIZE
        invariant out' == out + Range(at, i)
      {
        out' := out' + [at'];
        assert Range(at, i + 1) == Range(at, i) + [at'];
        if at' + 1 >= U64_SIZE {
          return Ended(Overflowed);
        }
        at' := at' + 1;
        i := i + 1;
      }
      return Running(at', out');
    } else {
      if at + length >= U64_SIZE {
        return Ended(Overflowed);
      }
      return Running(at + length, out);
    }
  }
}
