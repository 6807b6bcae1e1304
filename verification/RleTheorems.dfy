/** What the RLE+ encoder and decoder promise together. */
module RleTheorems {
  import opened Bits
  import opened RleBlocks
  import opened RleDecode
  import opened RleEncode
  import opened RleRuns
  import opened Seqs

  /** Decoding written runs, then padding, expands exactly those runs and stops at the padding. */
  lemma {:induction false} DecodeRuns(runs: seq<nat>, pad: nat, on: bool, at: nat, out: seq<nat>)
    requires Positive(runs) && Words(runs)
    ensures DecodeBlocks(RunsBits(runs) + Zeros(pad), on, at, out)
         == if runs != [] && at + Sum(runs) >= U64_SIZE then Overflowed else Decoded(out + Expand(runs, on, at))
  {
    hide ReadBlock, BlockBits;
    var all := RunsBits(runs) + Zeros(pad);
    if runs == [] {
      assert all == Zeros(pad);
      assert out + [] == out;
    } else {
      var run, more := runs[0], runs[1..];
      var rest := RunsBits(more) + Zeros(pad);
      ConcatAssoc(BlockBits(run), RunsBits(more), Zeros(pad));
      assert all == BlockBits(run) + rest;
      NotPadding(run, rest);
      ReadWritten(run, rest);
      DecodeStep(all, on, at, out, run, rest);
      if at + run < U64_SIZE {
        var taken := if on then Range(at, run) else [];
        DecodeRuns(more, pad, !on, at + run, out + taken);
        ConcatAssoc(out, taken, Expand(more, !on, at + run));
      }
    }
  }

  lemma NotPadding(run: nat, rest: seq<bool>)
    requires run >= 1
    ensures !AllFalse(BlockBits(run) + rest)
  {
    var block := BlockBits(run);
    BlockHasOne(run);
    var i :| 0 <= i < |block| && block[i];
    assert (block + rest)[i];
  }

  /** The runs of a set fit the item width. */
  lemma RunsFit(runs: seq<nat>, xs: seq<nat>)
    requires IsSet(xs) && RunsOf(runs, xs)
    ensures Words(runs)
    ensures runs == [] <==> xs == []
    ensures xs != [] ==> Sum(runs) == xs[|xs| - 1] + 1
  {
    if runs != [] {
      ExpandLast(runs, StartsOn(xs), 0);
      forall i | 0 <= i < |runs|
        ensures runs[i] < U64_SIZE
      {
        if |runs| == 1 {
          PresentRunLength(runs, 0);
        } else {
          RunBelowSum(runs, i);
        }
      }
    }
  }

  lemma {:induction false} RunBelowSum(runs: seq<nat>, i: nat)
    requires Positive(runs) && i < |runs|
    ensures runs[i] <= Sum(runs)
    ensures |runs| > 1 ==> runs[i] < Sum(runs)
  {
    assert Positive(runs[1..]);
    if i > 0 {
      RunBelowSum(runs[1..], i - 1);
    } else if |runs| > 1 {
      RunBelowSum(runs[1..], 0);
    }
  }

  /** Decoding an encoding gives the set back, unless it is too large or ends at the very last word,
      after which the decoder cannot step. */
  lemma RoundTrip(xs: seq<nat>, bytes: seq<Byte>)
    requires IsSet(xs) && IsEncoding(bytes, xs)
    ensures DecodeBits(BitsOf(bytes))
         == if xs != [] && xs[|xs| - 1] == U64_SIZE - 1 then Overflowed
            else if |xs| <= 131072 then Decoded(xs)
            else Failed(MaxSizeExceed)
  {
    hide DecodeBlocks, DecodeBits, Expand, RunsBits, Sum, BitsOf, Positive, EndsOn;
    var on := StartsOn(xs);
    var runs :| RunsOf(runs, xs) && Packs(bytes, EncodedBits(on, runs));
    var pad := 8 * |bytes| - |EncodedBits(on, runs)|;
    ConcatAssoc([false, false, on], RunsBits(runs), Zeros(pad));
    DecodeHeader(on, RunsBits(runs) + Zeros(pad));
    RunsFit(runs, xs);
    DecodeRuns(runs, pad, on, 0, []);
    assert [] + xs == xs;
  }

  /** Version zero and a first-run flag lead straight to the blocks. */
  lemma DecodeHeader(on: bool, body: seq<bool>)
    requires body != []
    ensures
      var o := DecodeBlocks(body, on, 0, []);
      DecodeBits([false, false, on] + body)
      == if o.Decoded? && |o.xs| > 131072 then Failed(MaxSizeExceed) else o
  {
    var bs := [false, false, on] + body;
    assert bs[..2] == [false, false];
    assert FromBits(bs[..2]) == 0 by { assert [false, false][1..] == [false] && [false][1..] == []; }
    assert bs[3..] == body;
  }

  /** Written runs are told apart whatever padding follows. */
  lemma {:induction false} RunsBitsUnique(a: seq<nat>, p: nat, b: seq<nat>, q: nat)
    requires Positive(a) && Words(a) && Positive(b) && Words(b)
    requires RunsBits(a) + Zeros(p) == RunsBits(b) + Zeros(q)
    ensures a == b
    decreases |a|
  {
    hide ReadBlock, BlockBits;
    if a == [] || b == [] {
      RunsBeforePadding(a, p);
      RunsBeforePadding(b, q);
    } else {
      var s, t := RunsBits(a[1..]) + Zeros(p), RunsBits(b[1..]) + Zeros(q);
      ConcatAssoc(BlockBits(a[0]), RunsBits(a[1..]), Zeros(p));
      ConcatAssoc(BlockBits(b[0]), RunsBits(b[1..]), Zeros(q));
      assert BlockBits(a[0]) + s == BlockBits(b[0]) + t;
      ReadWritten(a[0], s);
      ReadWritten(b[0], t);
      RunsBitsUnique(a[1..], p, b[1..], q);
      assert a == [a[0]] + a[1..] && b == [b[0]] + b[1..];
    }
  }

  /** Runs and padding are all zero bits exactly when there is no run. */
  lemma RunsBeforePadding(runs: seq<nat>, pad: nat)
    requires Positive(runs)
    ensures AllFalse(RunsBits(runs) + Zeros(pad)) <==> runs == []
  {
    hide BlockBits;
    if runs == [] {
      assert RunsBits(runs) + Zeros(pad) == Zeros(pad);
    } else {
      ConcatAssoc(BlockBits(runs[0]), RunsBits(runs[1..]), Zeros(pad));
      NotPadding(runs[0], RunsBits(runs[1..]) + Zeros(pad));
    }
  }

  /** An encoding determines its set, and a set its encoding. */
  lemma EncodingCanonical(xs: seq<nat>, a: seq<Byte>, ys: seq<nat>, b: seq<Byte>)
    requires IsSet(xs) && IsEncoding(a, xs) && IsSet(ys) && IsEncoding(b, ys)
    ensures xs == ys <==> a == b
  {
    hide RunsBits, Expand, Positive, EndsOn, BitsOf;
    var s :| RunsOf(s, xs) && Packs(a, EncodedBits(StartsOn(xs), s));
    var t :| RunsOf(t, ys) && Packs(b, EncodedBits(StartsOn(ys), t));
    if xs == ys {
      RunsUnique(s, t, StartsOn(xs), 0);
      PacksUnique(a, b, EncodedBits(StartsOn(xs), s));
    } else if a == b {
      RunsFit(s, xs);
      RunsFit(t, ys);
      EncodedApart(s, StartsOn(xs), t, StartsOn(ys), BitsOf(a));
    }
  }

  /** A bit string determines the flag and the runs written in it. */
  lemma EncodedApart(s: seq<nat>, x: bool, t: seq<nat>, y: bool, bits: seq<bool>)
    requires Positive(s) && Words(s) && Positive(t) && Words(t)
    requires EncodedBits(x, s) <= bits && AllFalse(bits[|EncodedBits(x, s)|..])
    requires EncodedBits(y, t) <= bits && AllFalse(bits[|EncodedBits(y, t)|..])
    ensures x == y && s == t
  {
    hide RunsBits;
    assert x == bits[2] == y;
    var p, q := |bits| - |EncodedBits(x, s)|, |bits| - |EncodedBits(y, t)|;
    assert bits[3..] == RunsBits(s) + Zeros(p);
    assert bits[3..] == RunsBits(t) + Zeros(q);
    RunsBitsUnique(s, p, t, q);
  }

  ghost predicate Below(out: seq<nat>, at: nat) {
    && (forall i :: 0 <= i < |out| ==> out[i] < at)
    && forall i, j :: 0 <= i < j < |out| ==> out[i] < out[j]
  }

  /** Whatever the bits, the output increases and stays below the position. */
  lemma {:induction false} DecodeIncreases(bs: seq<bool>, on: bool, at: nat, out: seq<nat>)
    requires Below(out, at) && at < U64_SIZE
    ensures
      var o := DecodeBlocks(bs, on, at, out);
      && (o.Decoded? ==> Below(o.xs, U64_SIZE - 1))
      && (o.Failed? ==> o.error.DataIndexFailure? || o.error.UnpackOverflow?)
    decreases |bs|
  {
    if !AllFalse(bs) && ReadBlock(bs).Ok? {
      var read := ReadBlock(bs).value;
      var next := Advance(on, at, read.value, out);
      if next.Running? {
        assert Below(next.out, next.at);
        DecodeIncreases(read.rest, !on, next.at, next.out);
      }
    } else if ReadBlock(bs).Err? {
      ReadErrors(bs);
    }
  }

  lemma ReadErrors(bs: seq<bool>)
    ensures ReadBlock(bs).Err? ==> ReadBlock(bs).error.DataIndexFailure? || ReadBlock(bs).error.UnpackOverflow?
  {
    if |bs| >= 2 && !bs[0] && !bs[1..][0] {
      var read := ReadVarint(bs[1..][1..]);
      if read.Some? { UnpackErrors(read.value.value, 0, 0); }
    }
  }

  lemma {:induction false} UnpackErrors(bs: seq<Byte>, shift: nat, value: U64)
    ensures UnpackFrom(bs, shift, value).Err? ==> UnpackFrom(bs, shift, value).error.UnpackOverflow?
    decreases |bs|
  {
    if bs != [] && shift <= 64 && bs[0] >= 0x80 {
      UnpackErrors(bs[1..], shift + 7, OrWord(value, Shl(And(bs[0], 0x7F), shift) % U64_SIZE));
    }
  }

  /** Decoding arbitrary bytes yields a set, and decoding that set's own encoding yields it again. */
  lemma DecodedReproduced(data: seq<Byte>, bytes: seq<Byte>)
    requires DecodeBits(BitsOf(data)).Decoded?
    ensures
      var xs := DecodeBits(BitsOf(data)).xs;
      && IsSet(xs) && |xs| <= 131072 && (xs == [] || xs[|xs| - 1] < U64_SIZE - 1)
      && (IsEncoding(bytes, xs) ==> DecodeBits(BitsOf(bytes)) == Decoded(xs))
  {
    hide DecodeBlocks;
    var bs := BitsOf(data);
    DecodeIncreases(bs[3..], bs[2], 0, []);
    if IsEncoding(bytes, DecodeBits(bs).xs) {
      RoundTrip(DecodeBits(bs).xs, bytes);
    }
  }

  /** The version check lets three of the four versions through: it refuses exactly the bits 1, 0. */
  lemma VersionRefused(data: seq<Byte>)
    requires data != []
    ensures DecodeBits(BitsOf(data)) == Failed(VersionMismatch) <==> data[0] % 4 == 1
  {
    var bs := BitsOf(data);
    DecodeIncreases(bs[3..], bs[2], 0, []);
    assert bs == ToBits(data[0], 8) + BitsOf(data[1..]);
    PrefixBits(data[0], 2, 8);
    assert bs[..2] == ToBits(data[0], 2);
    LowBits(data[0], 2);
    assert Pow2(2) == 4;
  }

  /** So a header of version two decodes, here to the empty set. */
  lemma VersionTwoAccepted()
    ensures DecodeBits(BitsOf([2])) == Decoded([])
  {
    var bs := BitsOf([2]);
    assert bs == ToBits(2, 8) + BitsOf([]);
    assert ToBits(2, 8) == [false] + ([true] + ToBits(0, 6));
    ZeroBits(6);
    assert bs[..2] == [false, true] && bs[3..] == Zeros(5) && !bs[2];
    assert FromBits([false, true]) == 2 by { assert [false, true][1..] == [true] && [true][1..] == []; }
  }

  /** Data without a byte fails for lack of bits. */
  lemma EmptyRefused()
    ensures DecodeBits(BitsOf([])) == Failed(DataIndexFailure)
  {
  }
}
