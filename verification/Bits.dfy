/** Bits, bytes and machine words.
    Words are natural numbers with an explicit width; bit 0 is the least significant bit. */
module Bits {
  import opened Seqs

  const U64_SIZE: int := 0x1_0000_0000_0000_0000

  type Byte = b: int | 0 <= b < 256
  type U64 = n: int | 0 <= n < 0x1_0000_0000_0000_0000

  function Pow2(k: nat): (p: nat)
    ensures p > 0
  {
    if k == 0 then 1 else 2 * Pow2(k - 1)
  }

  /** Bitwise `a | b`. */
  function Or(a: nat, b: nat): (r: nat)
    ensures a <= r && b <= r
    ensures r == 0 ==> a == 0 && b == 0
  {
    if a == 0 && b == 0 then 0
    else (if a % 2 == 1 || b % 2 == 1 then 1 else 0) + 2 * Or(a / 2, b / 2)
  }

  /** Bitwise `a & b`. */
  function And(a: nat, b: nat): (r: nat)
    ensures r <= a && r <= b
  {
    if a == 0 || b == 0 then 0
    else (if a % 2 == 1 && b % 2 == 1 then 1 else 0) + 2 * And(a / 2, b / 2)
  }

  /** `n << k` before truncation to a machine width. */
  function Shl(n: nat, k: nat): (r: nat) {
    if k == 0 then n else 2 * Shl(n, k - 1)
  }

  /** `n >> k`. */
  function Shr(n: nat, k: nat): (r: nat)
    ensures r <= n
  {
    if k == 0 then n else Shr(n / 2, k - 1)
  }

  /** The `width` low bits of `n`, least significant first. */
  function ToBits(n: nat, width: nat): (bs: seq<bool>)
    ensures |bs| == width
  {
    if width == 0 then [] else [n % 2 == 1] + ToBits(n / 2, width - 1)
  }

  /** The number whose bits are `bs`, least significant first. */
  function FromBits(bs: seq<bool>): (n: nat) {
    if bs == [] then 0 else (if bs[0] then 1 else 0) + 2 * FromBits(bs[1..])
  }

  function Zeros(n: nat): (bs: seq<bool>)
    ensures |bs| == n
    ensures forall i :: 0 <= i < n ==> !bs[i]
  {
    seq(n, i => false)
  }

  predicate AllFalse(bs: seq<bool>) {
    forall i :: 0 <= i < |bs| ==> !bs[i]
  }

  /** The bits of a byte string, low bit of the first byte first. */
  function BitsOf(bytes: seq<Byte>): (bs: seq<bool>)
    ensures |bs| == 8 * |bytes|
  {
    if bytes == [] then [] else ToBits(bytes[0], 8) + BitsOf(bytes[1..])
  }

  /** `bytes` holds exactly `bits`, padded with zero bits to a whole number of bytes. */
  ghost predicate Packs(bytes: seq<Byte>, bits: seq<bool>) {
    && |bytes| == (|bits| + 7) / 8
    && BitsOf(bytes) == bits + Zeros(8 * |bytes| - |bits|)
  }

  lemma MulAssoc(x: nat, y: nat, z: nat)
    ensures (x * y) * z == x * (y * z)
  {
  }

  lemma {:induction false} Pow2Add(a: nat, b: nat)
    ensures Pow2(a + b) == Pow2(a) * Pow2(b)
  {
    if a != 0 {
      Pow2Add(a - 1, b);
      MulAssoc(2, Pow2(a - 1), Pow2(b));
    }
  }

  lemma {:induction false} FromBitsBound(bs: seq<bool>)
    ensures FromBits(bs) < Pow2(|bs|)
  {
    if bs != [] { FromBitsBound(bs[1..]); }
  }

  lemma {:induction false} FromToBits(n: nat, width: nat)
    requires n < Pow2(width)
    ensures FromBits(ToBits(n, width)) == n
  {
    if width != 0 {
      FromToBits(n / 2, width - 1);
      assert ToBits(n, width)[1..] == ToBits(n / 2, width - 1);
    }
  }

  /** A number whose low bits are all clear at `k` and beyond the bits of `a` is added by `|`. */
  lemma {:induction false} OrDisjoint(a: nat, b: nat, k: nat)
    requires a < Pow2(k)
    ensures Or(a, Shl(b, k)) == a + Shl(b, k)
  {
    if k == 0 {
      assert a == 0;
      OrZero(b);
    } else {
      OrDisjoint(a / 2, b, k - 1);
      OrEven(a, Shl(b, k - 1));
    }
  }

  lemma {:induction false} ShlAdd(a: nat, b: nat, k: nat)
    ensures Shl(a + b, k) == Shl(a, k) + Shl(b, k)
  {
    if k != 0 { ShlAdd(a, b, k - 1); }
  }

  lemma {:induction false} ShlMono(a: nat, b: nat, k: nat)
    requires a <= b
    ensures Shl(a, k) <= Shl(b, k)
  {
    if k != 0 { ShlMono(a, b, k - 1); }
  }

  lemma {:induction false} ShlOne(k: nat)
    ensures Shl(1, k) == Pow2(k)
  {
    if k != 0 { ShlOne(k - 1); }
  }

  lemma {:induction false} ShlPow2(n: nat, j: nat, k: nat)
    ensures Shl(n, k + j) == Shl(Shl(n, j), k)
  {
    if k != 0 { ShlPow2(n, j, k - 1); }
  }

  lemma OrEven(a: nat, b: nat)
    ensures Or(a, 2 * b) == a % 2 + 2 * Or(a / 2, b)
  {
  }

  lemma {:induction false} OrZero(b: nat)
    ensures Or(0, b) == b
  {
    if b != 0 { OrZero(b / 2); }
  }

  /** `a | 1 << k` sets bit `k` and no other. */
  lemma {:induction false} OrPow2Bits(a: nat, k: nat, width: nat)
    requires k < width
    ensures ToBits(Or(a, Pow2(k)), width) == ToBits(a, width)[k := true]
  {
    hide Or, Pow2;
    OrHalves(a, Pow2(k));
    Pow2Halves(k);
    if k == 0 {
      OrComm(a / 2, 0);
      OrZero(a / 2);
    } else {
      OrPow2Bits(a / 2, k - 1, width - 1);
    }
  }

  lemma OrHalves(a: nat, b: nat)
    ensures Or(a, b) % 2 == 1 <==> a % 2 == 1 || b % 2 == 1
    ensures Or(a, b) / 2 == Or(a / 2, b / 2)
  {
  }

  lemma Pow2Halves(k: nat)
    ensures Pow2(k) % 2 == 1 <==> k == 0
    ensures Pow2(k) / 2 == if k == 0 then 0 else Pow2(k - 1)
  {
  }

  lemma {:induction false} OrComm(a: nat, b: nat)
    ensures Or(a, b) == Or(b, a)
    decreases a + b
  {
    if a != 0 || b != 0 { OrComm(a / 2, b / 2); }
  }

  /** `a & 1 << k` is non-zero exactly when bit `k` of `a` is set. */
  lemma {:induction false} AndPow2Bits(a: nat, k: nat, width: nat)
    requires k < width
    ensures And(a, Pow2(k)) != 0 <==> ToBits(a, width)[k]
  {
    if k == 0 {
      assert Pow2(0) / 2 == 0;
    } else if a == 0 {
      ZeroBits(width);
    } else {
      AndPow2Bits(a / 2, k - 1, width - 1);
      assert Pow2(k) % 2 == 0 && Pow2(k) / 2 == Pow2(k - 1);
    }
  }

  lemma {:induction false} ZeroBits(width: nat)
    ensures ToBits(0, width) == Zeros(width)
  {
    if width != 0 { ZeroBits(width - 1); }
  }

  /** Shifting right by `k` drops the `k` low bits. */
  lemma {:induction false} ShrBits(n: nat, k: nat, width: nat)
    ensures ToBits(Shr(n, k), width) == ToBits(n, k + width)[k..]
  {
    if k != 0 {
      ShrBits(n / 2, k - 1, width);
      assert ToBits(n, k + width)[1..] == ToBits(n / 2, k - 1 + width);
      assert ToBits(n, k + width)[k..] == ToBits(n, k + width)[1..][k - 1..];
    }
  }

  lemma {:induction false} ShrBound(n: nat, k: nat, w: nat)
    requires n < Pow2(k + w)
    ensures Shr(n, k) < Pow2(w)
  {
    if k != 0 { ShrBound(n / 2, k - 1, w); }
  }

  /** A number that fits `width` bits is zero exactly when all of them are clear. */
  lemma {:induction false} ZeroIffAllFalse(n: nat, width: nat)
    requires n < Pow2(width)
    ensures n == 0 <==> AllFalse(ToBits(n, width))
  {
    if width != 0 {
      ZeroIffAllFalse(n / 2, width - 1);
      assert ToBits(n, width)[0] == (n % 2 == 1);
      assert ToBits(n, width)[1..] == ToBits(n / 2, width - 1);
    }
  }

  lemma {:induction false} BitsOfConcat(a: seq<Byte>, b: seq<Byte>)
    ensures BitsOf(a + b) == BitsOf(a) + BitsOf(b)
  {
    if a == [] {
      assert a + b == b;
    } else {
      BitsOfConcat(a[1..], b);
      assert (a + b)[1..] == a[1..] + b;
      ConcatAssoc(ToBits(a[0], 8), BitsOf(a[1..]), BitsOf(b));
    }
  }

  lemma {:induction false} BitsOfAt(bytes: seq<Byte>, i: nat)
    requires i < 8 * |bytes|
    ensures BitsOf(bytes)[i] == ToBits(bytes[i / 8], 8)[i % 8]
  {
    var first, rest := ToBits(bytes[0], 8), bytes[1..];
    assert BitsOf(bytes) == first + BitsOf(rest);
    if i >= 8 {
      BitsOfAt(rest, i - 8);
      assert (i - 8) / 8 == i / 8 - 1 && (i - 8) % 8 == i % 8;
      assert rest[i / 8 - 1] == bytes[i / 8];
    }
  }

  /** Changing one byte changes exactly its eight bits. */
  lemma BitsOfUpdate(bytes: seq<Byte>, j: nat, b: Byte)
    requires j < |bytes|
    ensures BitsOf(bytes[j := b]) == BitsOf(bytes)[..8 * j] + ToBits(b, 8) + BitsOf(bytes)[8 * j + 8..]
  {
    var pre, post := bytes[..j], bytes[j + 1..];
    assert bytes == pre + ([bytes[j]] + post);
    assert bytes[j := b] == pre + ([b] + post);
    BitsOfConcat(pre, [bytes[j]] + post);
    BitsOfConcat(pre, [b] + post);
  }

  lemma {:induction false} PacksUnique(a: seq<Byte>, b: seq<Byte>, bits: seq<bool>)
    requires Packs(a, bits) && Packs(b, bits)
    ensures a == b
  {
    BitsOfInjective(a, b);
  }

  lemma {:induction false} BitsOfInjective(a: seq<Byte>, b: seq<Byte>)
    requires BitsOf(a) == BitsOf(b)
    ensures a == b
  {
    if a != [] {
      assert |a| == |b|;
      assert ToBits(a[0], 8) == BitsOf(a)[..8] == BitsOf(b)[..8] == ToBits(b[0], 8);
      FromToBits(a[0], 8);
      FromToBits(b[0], 8);
      assert BitsOf(a)[8..] == BitsOf(a[1..]) && BitsOf(b)[8..] == BitsOf(b[1..]);
      BitsOfInjective(a[1..], b[1..]);
    }
  }

  lemma DivModUnique(n: nat, d: nat, q: nat, r: nat)
    requires 0 <= r < d && n == q * d + r
    ensures n / d == q && n % d == r
  {
    var q2 := n / d;
    assert n == q2 * d + n % d;
    MulMono(q2 + 1, q, d);
    MulMono(q + 1, q2, d);
  }

  lemma MulMono(a: nat, b: nat, d: nat)
    ensures a <= b ==> a * d <= b * d
  {
  }

  lemma ModDouble(n: nat, p: nat)
    requires p > 0
    ensures n % (2 * p) == n % 2 + 2 * (n / 2 % p)
  {
    var q, r := n / 2 / p, n / 2 % p;
    assert n / 2 == q * p + r;
    assert q * (2 * p) == 2 * (q * p);
    DivModUnique(n, 2 * p, q, 2 * r + n % 2);
  }

  lemma {:induction false} LowBits(n: nat, k: nat)
    ensures FromBits(ToBits(n, k)) == n % Pow2(k)
  {
    if k != 0 {
      LowBits(n / 2, k - 1);
      assert ToBits(n, k)[1..] == ToBits(n / 2, k - 1);
      ModDouble(n, Pow2(k - 1));
    }
  }

  /** Masking with `2^k - 1` is the remainder modulo `2^k`. */
  lemma AndLow(n: nat, k: nat)
    ensures And(n, Pow2(k) - 1) == n % Pow2(k)
  {
    AndLowBits(n, k);
    LowBits(n, k);
  }

  lemma {:induction false} AndLowBits(n: nat, k: nat)
    ensures And(n, Pow2(k) - 1) == FromBits(ToBits(n, k))
  {
    if n == 0 {
      FromToBits(0, k);
    } else if k != 0 {
      AndLowBits(n / 2, k - 1);
      assert ToBits(n, k)[1..] == ToBits(n / 2, k - 1);
      assert (Pow2(k) - 1) % 2 == 1 && (Pow2(k) - 1) / 2 == Pow2(k - 1) - 1;
    }
  }

  /** The highest of `k + 1` bits tells whether the number reaches `2^k`. */
  lemma {:induction false} TopBit(n: nat, k: nat)
    requires n < Pow2(k + 1)
    ensures ToBits(n, k + 1)[k] <==> n >= Pow2(k)
  {
    if k != 0 { TopBit(n / 2, k - 1); }
  }

  lemma SmallPowers()
    ensures Pow2(3) == 8 && Pow2(4) == 16 && Pow2(7) == 128 && Pow2(8) == 256
  {
    assert Pow2(4) == 16;
  }

  lemma Pow64()
    ensures Pow2(63) == 0x8000_0000_0000_0000 && Pow2(64) == U64_SIZE
  {
    SmallPowers();
    Pow2Add(8, 8);
    Pow2Add(16, 16);
    Pow2Add(32, 32);
  }

  lemma {:induction false} OrBound(a: nat, b: nat, width: nat)
    requires a < Pow2(width)
    requires b < Pow2(width)
    ensures Or(a, b) < Pow2(width)
  {
    if width != 0 && (a != 0 || b != 0) {
      OrBound(a / 2, b / 2, width - 1);
    }
  }

  lemma {:induction false} Pow2Mono(k: nat, n: nat)
    requires k < n
    ensures Pow2(k) < Pow2(n)
  {
    if k + 1 < n { Pow2Mono(k, n - 1); }
  }

  lemma {:induction false} Pow2Le(k: nat, n: nat)
    ensures k <= n ==> Pow2(k) <= Pow2(n)
  {
    if k < n { Pow2Le(k, n - 1); }
  }

  lemma {:induction false} PrefixBits(n: nat, k: nat, width: nat)
    requires k <= width
    ensures ToBits(n, width)[..k] == ToBits(n, k)
  {
    if k != 0 { PrefixBits(n / 2, k - 1, width - 1); }
  }

  lemma {:induction false} FromBitsConcat(a: seq<bool>, b: seq<bool>)
    ensures FromBits(a + b) == FromBits(a) + Pow2(|a|) * FromBits(b)
  {
    if a == [] {
      assert a + b == b;
    } else {
      FromBitsConcat(a[1..], b);
      assert (a + b)[1..] == a[1..] + b;
      MulAssoc(2, Pow2(|a| - 1), FromBits(b));
    }
  }
}
