/** Unpadded and padded piece sizes. */
module PieceSizes {
  import opened Bits
  import opened Wrappers

  const MIN_UNPADDED_PIECE_SIZE := 127
  const MIN_PADDED_PIECE_SIZE := 128

  datatype PieceSizeError =
    | UnpaddedSizeTooSmall(size: U64)
    | InvalidUnpaddedSize(size: U64)
    | PaddedSizeTooSmall(size: U64)
    | InvalidPaddedSize(size: U64)

  /** `padded`; `None` is the overflow of the addition. */
  function Padded(n: U64): (p: Option<U64>) {
    var p := n + n / MIN_UNPADDED_PIECE_SIZE;
    if p < U64_SIZE then Some(p) else None
  }

  function Unpadded(p: U64): (n: U64) {
    p - p / MIN_PADDED_PIECE_SIZE
  }

  /** `trailing_zeros` of a non-zero word. */
  function TrailingZeros(n: nat): (k: nat)
    requires n > 0
  {
    if n % 2 == 1 then 0 else 1 + TrailingZeros(n / 2)
  }

  function CountOnes(n: nat): (k: nat) {
    if n == 0 then 0 else n % 2 + CountOnes(n / 2)
  }

  function ValidateUnpadded(n: U64): (r: Result<(), PieceSizeError>) {
    if n < MIN_UNPADDED_PIECE_SIZE then Err(UnpaddedSizeTooSmall(n))
    else if Shr(n, TrailingZeros(n)) != MIN_UNPADDED_PIECE_SIZE then Err(InvalidUnpaddedSize(n))
    else Ok(())
  }

  function ValidatePadded(p: U64): (r: Result<(), PieceSizeError>) {
    if p < MIN_PADDED_PIECE_SIZE then Err(PaddedSizeTooSmall(p))
    else if CountOnes(p) != 1 then Err(InvalidPaddedSize(p))
    else Ok(())
  }

  // ---- what is valid ------------------------------------------------------------------------

  /** Shifting out the trailing zeros leaves the odd part. */
  lemma {:induction false} OddPart(n: nat)
    requires n > 0
    ensures Shr(n, TrailingZeros(n)) % 2 == 1
    ensures Shl(Shr(n, TrailingZeros(n)), TrailingZeros(n)) == n
  {
    if n % 2 == 0 { OddPart(n / 2); }
  }

  /** The odd part of an odd number times a power of two is that number. */
  lemma {:induction false} OddPartOf(odd: nat, k: nat)
    requires odd % 2 == 1
    ensures Shl(odd, k) > 0 && TrailingZeros(Shl(odd, k)) == k && Shr(Shl(odd, k), k) == odd
  {
    if k != 0 { OddPartOf(odd, k - 1); }
  }

  /** An unpadded size is valid exactly when it is 127 times a power of two. */
  lemma UnpaddedValidIff(n: U64)
    ensures ValidateUnpadded(n).Ok? <==> exists k: nat :: n == Shl(127, k)
  {
    if ValidateUnpadded(n).Ok? {
      OddPart(n);
    }
    forall k: nat | n == Shl(127, k)
      ensures ValidateUnpadded(n).Ok?
    {
      OddPartOf(127, k);
      ShlMono(127, 127, k);
      ShlGrows(127, k);
    }
  }

  lemma {:induction false} ShlGrows(n: nat, k: nat)
    ensures Shl(n, k) >= n
  {
    if k != 0 { ShlGrows(n, k - 1); }
  }

  lemma {:induction false} Pow2Ones(k: nat)
    ensures CountOnes(Pow2(k)) == 1
  {
    if k != 0 { Pow2Ones(k - 1); }
  }

  lemma {:induction false} OneBit(n: nat) returns (k: nat)
    requires CountOnes(n) <= 1
    ensures CountOnes(n) == 1 ==> n == Pow2(k)
    ensures CountOnes(n) == 0 ==> n == 0
  {
    k := 0;
    if n != 0 {
      k := OneBit(n / 2);
      k := if n % 2 == 1 then 0 else k + 1;
    }
  }

  /** A padded size is valid exactly when it is a power of two of at least 128. */
  lemma PaddedValidIff(p: U64)
    ensures ValidatePadded(p).Ok? <==> exists k: nat :: p == Shl(128, k)
  {
    SmallPowers();
    if ValidatePadded(p).Ok? {
      var j := OneBit(p);
      Pow2Le(j, 6);
      assert Pow2(6) == 64;
      ShlFacts(j - 7);
      assert p == Shl(128, j - 7);
    }
    forall k: nat | p == Shl(128, k)
      ensures ValidatePadded(p).Ok?
    {
      ShlFacts(k);
      Pow2Ones(k + 7);
      ShlGrows(128, k);
    }
  }

  // ---- padding and unpadding ----------------------------------------------------------------

  /** Unpadding undoes padding wherever padding does not overflow. */
  lemma UnpaddedOfPadded(n: U64)
    ensures Padded(n).Some? ==> Unpadded(Padded(n).value) == n
  {
    var q, r := n / 127, n % 127;
    assert n + n / 127 == 128 * q + r;
    assert (128 * q + r) / 128 == q;
  }

  /** Padding undoes unpadding exactly off the last residue modulo 128. */
  lemma PaddedOfUnpadded(p: U64)
    ensures Padded(Unpadded(p)) == Some(p) <==> p % 128 != 127
  {
    var q, r := p / 128, p % 128;
    assert p == 128 * q + r && Unpadded(p) == 127 * q + r;
    if r == 127 {
      assert Unpadded(p) == 127 * (q + 1) && Unpadded(p) / 127 == q + 1;
    } else {
      assert (127 * q + r) / 127 == q;
    }
  }

  lemma ShlFacts(k: nat)
    ensures Shl(127, k) + Pow2(k) == Shl(128, k) == Pow2(k + 7)
    ensures Shl(127, k) == 127 * Pow2(k) && Pow2(k + 7) == 128 * Pow2(k)
  {
    ShlAdd(127, 1, k);
    ShlOne(k);
    ShlOne(7);
    SmallPowers();
    ShlOne(k + 7);
    ShlPow2(1, 7, k);
    Pow2Add(k, 7);
  }

  /** On valid sizes the two are inverse bijections between 127·2^k and 2^(k+7) for k up to 56; 127·2^57 is the one
      valid unpadded size left, and padding it overflows. */
  lemma ValidSizes(n: U64)
    requires ValidateUnpadded(n).Ok?
    ensures exists k: nat :: k <= 57 && n == Shl(127, k)
    ensures n == Shl(127, 57) <==> Padded(n).None?
    ensures Padded(n).Some? ==> ValidatePadded(Padded(n).value).Ok? && Unpadded(Padded(n).value) == n
  {
    UnpaddedValidIff(n);
    var k: nat :| n == Shl(127, k);
    PaddedShl(k);
    WidestSize(k);
    UnpaddedOfPadded(n);
    if Padded(n).Some? {
      PaddedValidIff(Padded(n).value);
    }
  }

  /** Padding 127·2^k adds 2^k. */
  lemma PaddedShl(k: nat)
    requires Shl(127, k) < U64_SIZE
    ensures Padded(Shl(127, k)) == if Shl(128, k) < U64_SIZE then Some(Shl(128, k)) else None
  {
    ShlFacts(k);
    assert Shl(127, k) / 127 == Pow2(k);
  }

  /** 127·2^k fits a word exactly up to k = 57, and 128·2^k exactly below. */
  lemma WidestSize(k: nat)
    ensures Shl(127, k) < U64_SIZE <==> k <= 57
    ensures Shl(128, k) < U64_SIZE <==> k < 57
    ensures Shl(127, k) == Shl(127, 57) <==> k == 57
  {
    hide Shl;
    Pow64();
    ShlFacts(k);
    ShlFacts(57);
    Pow2Add(57, 1);
    Pow2Add(58, 6);
    SmallSix();
    if k < 57 {
      Pow2Mono(k, 57);
    } else if k > 57 {
      Pow2Le(58, k);
    }
  }

  lemma SmallSix()
    ensures Pow2(1) == 2 && Pow2(6) == 64
  {
  }

  /** Every valid padded size comes from exactly the valid unpadded size it is unpadded to. */
  lemma ValidPaddedSizes(p: U64)
    requires ValidatePadded(p).Ok?
    ensures ValidateUnpadded(Unpadded(p)).Ok? && Padded(Unpadded(p)) == Some(p)
  {
    PaddedValidIff(p);
    var k: nat :| p == Shl(128, k);
    ShlFacts(k);
    assert p % 128 == 0 && Unpadded(p) == Shl(127, k);
    UnpaddedValidIff(Unpadded(p));
    PaddedOfUnpadded(p);
  }

  /** Sizes that are not valid are refused as too small below the least size, and else as invalid; the error names them. */
  lemma RefusedSizes(n: U64)
    ensures ValidateUnpadded(n).Err? ==>
      ValidateUnpadded(n).error == if n < 127 then UnpaddedSizeTooSmall(n) else InvalidUnpaddedSize(n)
    ensures ValidatePadded(n).Err? ==>
      ValidatePadded(n).error == if n < 128 then PaddedSizeTooSmall(n) else InvalidPaddedSize(n)
  {
  }
}
