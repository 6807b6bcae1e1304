/** Unpadded base32 (section 6 of RFC 4648), printed in lower case and read in either case. */
module Base32 {
  import opened Bits
  import opened Seqs
  import opened Wrappers

  // ---- most significant bit first -----------------------------------------------------------

  function BitsBE(n: nat, width: nat): (bs: seq<bool>)
    ensures |bs| == width
  {
    if width == 0 then [] else BitsBE(n / 2, width - 1) + [n % 2 == 1]
  }

  function FromBE(bs: seq<bool>): (n: nat) {
    if bs == [] then 0 else 2 * FromBE(bs[..|bs| - 1]) + if bs[|bs| - 1] then 1 else 0
  }

  lemma {:induction false} FromBitsBE(n: nat, width: nat)
    requires n < Pow2(width)
    ensures FromBE(BitsBE(n, width)) == n
  {
    if width != 0 {
      FromBitsBE(n / 2, width - 1);
      assert BitsBE(n, width)[..width - 1] == BitsBE(n / 2, width - 1);
    }
  }

  lemma {:induction false} BitsFromBE(bs: seq<bool>)
    ensures BitsBE(FromBE(bs), |bs|) == bs
    ensures FromBE(bs) < Pow2(|bs|)
  {
    if bs != [] {
      BitsFromBE(bs[..|bs| - 1]);
      assert bs == bs[..|bs| - 1] + [bs[|bs| - 1]];
    }
  }

  /** Numbers of `width` bits from a bit string, the last one filled up with zero bits. */
  function Group(bs: seq<bool>, width: nat): (ns: seq<nat>)
    requires width > 0
    decreases |bs|
  {
    if bs == [] then []
    else if |bs| <= width then [FromBE(bs + Zeros(width - |bs|))]
    else [FromBE(bs[..width])] + Group(bs[width..], width)
  }

  function Ungroup(ns: seq<nat>, width: nat): (bs: seq<bool>)
    ensures |bs| == |ns| * width
  {
    if ns == [] then [] else BitsBE(ns[0], width) + Ungroup(ns[1..], width)
  }

  /** Ungrouping gives the bits back, filled up to whole groups. */
  lemma {:induction false} UngroupGroup(bs: seq<bool>, width: nat)
    requires width > 0
    ensures exists pad: nat :: pad < width && Ungroup(Group(bs, width), width) == bs + Zeros(pad)
    ensures forall i :: 0 <= i < |Group(bs, width)| ==> Group(bs, width)[i] < Pow2(width)
    decreases |bs|
  {
    if bs == [] {
      assert bs + Zeros(0) == [];
    } else if |bs| <= width {
      var full := bs + Zeros(width - |bs|);
      BitsFromBE(full);
      assert Ungroup([FromBE(full)], width) == full + [] by { assert [FromBE(full)][1..] == []; }
      assert full + [] == bs + Zeros(width - |bs|);
    } else {
      var head, tail := bs[..width], bs[width..];
      BitsFromBE(head);
      UngroupGroup(tail, width);
      var pad: nat :| pad < width && Ungroup(Group(tail, width), width) == tail + Zeros(pad);
      assert Group(bs, width)[1..] == Group(tail, width);
      ConcatAssoc(head, tail, Zeros(pad));
      assert head + tail == bs;
    }
  }

  /** Grouping inverts ungrouping, also when fewer than a group of zero bits were cut off. */
  lemma {:induction false} GroupUngroup(ns: seq<nat>, width: nat, bs: seq<bool>, pad: nat)
    requires pad < width && forall i :: 0 <= i < |ns| ==> ns[i] < Pow2(width)
    requires Ungroup(ns, width) == bs + Zeros(pad)
    ensures Group(bs, width) == ns
    decreases |ns|
  {
    var all := Ungroup(ns, width);
    if ns == [] {
      assert |all| == |bs| + pad;
    } else {
      FromBitsBE(ns[0], width);
      var head, tail := BitsBE(ns[0], width), Ungroup(ns[1..], width);
      assert all[..width] == head && all[width..] == tail;
      if |bs| <= width {
        assert |tail| == |ns[1..]| * width < width;
        assert ns[1..] == [];
        assert pad == width - |bs| && all == head;
        assert ns == [ns[0]];
      } else {
        assert bs[..width] == head;
        assert tail == bs[width..] + Zeros(pad);
        GroupUngroup(ns[1..], width, bs[width..], pad);
      }
    }
  }

  // ---- symbols ------------------------------------------------------------------------------

  function Symbol(n: nat): (c: char)
    requires n < 32
  {
    if n < 26 then 'a' + n as char else '2' + (n - 26) as char
  }

  /** The value of a symbol after `to_ascii_uppercase`. */
  function SymbolValue(c: char): (n: Option<nat>)
    ensures n.Some? ==> n.value < 32
  {
    if 'a' <= c <= 'z' then Some((c - 'a') as nat)
    else if 'A' <= c <= 'Z' then Some((c - 'A') as nat)
    else if '2' <= c <= '7' then Some(26 + (c - '2') as nat)
    else None
  }

  lemma SymbolInverse(n: nat)
    requires n < 32
    ensures SymbolValue(Symbol(n)) == Some(n)
  {
  }

  function Symbols(ns: seq<nat>): (s: string)
    requires forall i :: 0 <= i < |ns| ==> ns[i] < 32
    ensures |s| == |ns|
  {
    if ns == [] then "" else [Symbol(ns[0])] + Symbols(ns[1..])
  }

  function SymbolValues(s: string): (ns: Option<seq<nat>>)
    ensures ns.Some? ==> |ns.value| == |s| && forall i :: 0 <= i < |s| ==> ns.value[i] < 32
  {
    if s == "" then Some([])
    else
      match SymbolValue(s[0])
      case None => None
      case Some(n) =>
        match SymbolValues(s[1..])
        case None => None
        case Some(ns) => Some([n] + ns)
  }

  lemma {:induction false} SymbolsInverse(ns: seq<nat>)
    requires forall i :: 0 <= i < |ns| ==> ns[i] < 32
    ensures SymbolValues(Symbols(ns)) == Some(ns)
  {
    if ns != [] {
      SymbolInverse(ns[0]);
      SymbolsInverse(ns[1..]);
      assert Symbols(ns)[1..] == Symbols(ns[1..]);
      assert [ns[0]] + ns[1..] == ns;
    }
  }

  function LowerChar(c: char): (r: char) {
    if 'A' <= c <= 'Z' then 'a' + (c - 'A') else c
  }

  /** `to_ascii_lowercase`. */
  function Lower(s: string): (r: string)
    ensures |r| == |s| && forall i :: 0 <= i < |s| ==> r[i] == LowerChar(s[i])
  {
    seq(|s|, i requires 0 <= i < |s| => LowerChar(s[i]))
  }

  /** What is read is what is printed, up to case. */
  lemma {:induction false} SymbolsRead(s: string)
    ensures SymbolValues(Lower(s)) == SymbolValues(s)
    ensures SymbolValues(s).Some? ==> Symbols(SymbolValues(s).value) == Lower(s)
  {
    if s != "" {
      SymbolsRead(s[1..]);
      assert Lower(s) == [LowerChar(s[0])] + Lower(s[1..]);
    }
  }

  // ---- the codec ----------------------------------------------------------------------------

  function Encode(bytes: seq<Byte>): (s: string) {
    var bs := Ungroup(bytes, 8);
    assert Pow2(5) == 32;
    UngroupGroup(bs, 5);
    Symbols(Group(bs, 5))
  }

  /** Whole bytes only: the bits left over must be fewer than a symbol, and zero. */
  function Decode(s: string): (bytes: Option<seq<Byte>>) {
    match SymbolValues(s)
    case None => None
    case Some(ns) =>
      var bs := Ungroup(ns, 5);
      var whole := |bs| / 8 * 8;
      if |bs| - whole >= 5 || !AllFalse(bs[whole..]) then None
      else Some(BytesOf(bs[..whole]))
  }

  function BytesOf(bs: seq<bool>): (bytes: seq<Byte>) {
    SmallPowers();
    UngroupGroup(bs, 8);
    Group(bs, 8)
  }

  /** Bytes are read off their bits, whatever zero bits fill the last symbol. */
  lemma DecodePadded(s: string, bytes: seq<Byte>, pad: nat)
    requires SymbolValues(s).Some? && pad < 5
    requires Ungroup(SymbolValues(s).value, 5) == Ungroup(bytes, 8) + Zeros(pad)
    ensures Decode(s) == Some(bytes)
  {
    hide Group, Ungroup, SymbolValues, BytesOf, Pow2;
    var bs := Ungroup(bytes, 8);
    var all := bs + Zeros(pad);
    assert |all| / 8 * 8 == |bs|;
    assert all[..|bs|] == bs && all[|bs|..] == Zeros(pad);
    BytesOfBits(bytes);
  }

  lemma BytesOfBits(bytes: seq<Byte>)
    ensures BytesOf(Ungroup(bytes, 8)) == bytes
  {
    hide Group, Ungroup;
    SmallPowers();
    var bs := Ungroup(bytes, 8);
    assert bs == bs + Zeros(0);
    GroupUngroup(bytes, 8, bs, 0);
  }

  /** Decoding inverts encoding. */
  lemma RoundTrip(bytes: seq<Byte>)
    ensures Decode(Encode(bytes)) == Some(bytes)
    ensures |Encode(bytes)| == (8 * |bytes| + 4) / 5
  {
    hide Group, Ungroup, Symbols, SymbolValues, BytesOf;
    var bs := Ungroup(bytes, 8);
    assert Pow2(5) == 32;
    UngroupGroup(bs, 5);
    var ns := Group(bs, 5);
    var pad: nat :| pad < 5 && Ungroup(ns, 5) == bs + Zeros(pad);
    SymbolsInverse(ns);
    DecodePadded(Encode(bytes), bytes, pad);
    assert 5 * |ns| == 8 * |bytes| + pad;
  }

  /** Encoding what was decoded gives the text in lower case: no two byte strings share a text. */
  lemma Canonical(s: string)
    ensures Decode(Lower(s)) == Decode(s)
    ensures Decode(s).Some? ==> Encode(Decode(s).value) == Lower(s)
  {
    hide Group, Ungroup, Symbols, SymbolValues, BytesOf;
    SymbolsRead(s);
    if Decode(s).Some? {
      KeptGroups(SymbolValues(s).value);
    }
  }

  /** Cutting the zero bits after the last whole byte loses no symbol. */
  lemma KeptGroups(ns: seq<nat>)
    requires forall i :: 0 <= i < |ns| ==> ns[i] < 32
    requires
      var bs := Ungroup(ns, 5);
      var whole := |bs| / 8 * 8;
      |bs| - whole < 5 && AllFalse(bs[whole..])
    ensures
      var bs := Ungroup(ns, 5);
      Group(Ungroup(BytesOf(bs[..|bs| / 8 * 8]), 8), 5) == ns
  {
    hide Group, Ungroup, BytesOf;
    var bs := Ungroup(ns, 5);
    var whole := |bs| / 8 * 8;
    var kept, pad := bs[..whole], |bs| - whole;
    assert Pow2(5) == 32;
    UngroupBytes(kept);
    assert bs[whole..] == Zeros(pad);
    assert bs == kept + bs[whole..];
    GroupUngroup(ns, 5, kept, pad);
  }

  /** Whole bytes come back unpadded. */
  lemma UngroupBytes(bs: seq<bool>)
    requires |bs| % 8 == 0
    ensures Ungroup(BytesOf(bs), 8) == bs
  {
    hide Group, Ungroup;
    UngroupGroup(bs, 8);
    var pad: nat :| pad < 8 && Ungroup(Group(bs, 8), 8) == bs + Zeros(pad);
    assert |Group(bs, 8)| * 8 == |bs| + pad;
    assert bs + Zeros(0) == bs;
  }

  /** Five bits a symbol, and no symbol outside ASCII. */
  lemma DecodedShape(s: string)
    requires Decode(s).Some?
    ensures |Decode(s).value| == 5 * |s| / 8
    ensures s != "" ==> s[0] <= 'z'
  {
    hide Group, Ungroup, BytesOf, SymbolValues, AllFalse;
    var bs := Ungroup(SymbolValues(s).value, 5);
    var kept := bs[..|bs| / 8 * 8];
    BytesOfLength(kept);
    assert Decode(s).value == BytesOf(kept);
    FirstSymbol(s);
  }

  lemma BytesOfLength(bs: seq<bool>)
    requires |bs| % 8 == 0
    ensures |BytesOf(bs)| == |bs| / 8
  {
    hide BytesOf, Ungroup;
    UngroupBytes(bs);
  }

  lemma FirstSymbol(s: string)
    requires SymbolValues(s).Some?
    ensures s != "" ==> s[0] <= 'z'
  {
  }

  // ---- the alphabet -------------------------------------------------------------------------

  /** Table 3 of RFC 4648, in lower case. */
  lemma Alphabet(n: nat)
    requires n < 32
    ensures Symbol(n) == "abcdefghijklmnopqrstuvwxyz234567"[n]
  {
  }

  /** The one-byte test vector of section 10 of RFC 4648: the letter f. */
  lemma OneByteExample()
    ensures Encode([0x66]) == "my"
  {
    hide BitsBE, FromBE, Pow2;
    ExampleGroups();
    var bytes: seq<Byte> := [0x66];
    assert bytes[1..] == [];
    var bs := BitsBE(0x66, 8);
    assert Ungroup(bytes, 8) == bs + Ungroup(bytes[1..], 8) == bs;
    var ns := Group(bs, 5);
    assert ns == [12] + Group(bs[5..], 5) == [12, 24];
    assert Symbols([12, 24]) == [Symbol(12)] + Symbols([24]) by { assert [12, 24][1..] == [24]; }
    assert Symbols([24]) == [Symbol(24)] + Symbols([]) by { assert [24][1..] == []; }
  }

  lemma ExampleGroups()
    ensures
      var bs := BitsBE(0x66, 8);
      FromBE(bs[..5]) == 12 && FromBE(bs[5..] + Zeros(2)) == 24
  {
    var bs := BitsBE(0x66, 8);
    assert bs == [false, true, true, false, false, true, true, false];
    BitsFromLiteral();
    assert bs[..5] == [false, true, true, false, false];
    assert bs[5..] + Zeros(2) == [true, true, false, false, false];
  }

  lemma BitsFromLiteral()
    ensures FromBE([false, true, true, false, false]) == 12
    ensures FromBE([true, true, false, false, false]) == 24
  {
    SmallPowers();
    assert BitsBE(12, 5) == [false, true, true, false, false] && BitsBE(24, 5) == [true, true, false, false, false];
    assert Pow2(5) == 32;
    FromBitsBE(12, 5);
    FromBitsBE(24, 5);
  }
}
