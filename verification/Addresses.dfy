/** Addresses, their byte form and their text form. */
module Addresses {
  import opened Bits
  import opened Wrappers
  import opened Varint
  import Base32
  import Decimal

  const MAX_ADDRESS_STRING_LEN := 86
  const PAYLOAD_HASH_LEN := 20
  const CHECKSUM_HASH_LEN := 4
  const BLS_PUBLIC_KEY_LEN := 48
  const MAX_U64_LEN := 20
  const MAX_VARINT_LEN := 10

  datatype Network = Main | Test

  datatype Protocol = Id | Secp256k1 | Actor | Bls

  datatype AddressError =
    | UnknownNetwork
    | MismatchNetwork
    | UnknownProtocol
    | InvalidPayload
    | InvalidLength
    | InvalidChecksum
    | Base32Decode

  datatype Address = Address(protocol: Protocol, payload: seq<Byte>)

  /** Parsing can also hit a slice or a subtraction out of range. */
  datatype Outcome = Parsed(address: Address) | Refused(error: AddressError) | Panicked

  /** The default network and the checksum, fixed when the program starts. */
  datatype Format = Format(network: Network, checksum: seq<Byte> -> seq<Byte>)
  {
    ghost predicate Valid() {
      forall bytes :: |checksum(bytes)| == CHECKSUM_HASH_LEN
    }
  }

  function Prefix(network: Network): (c: char) {
    match network
    case Main => 'f'
    case Test => 't'
  }

  function Number(p: Protocol): (n: Byte) {
    match p
    case Id => 0
    case Secp256k1 => 1
    case Actor => 2
    case Bls => 3
  }

  function ProtocolOf(n: Byte): (p: Option<Protocol>) {
    match n
    case 0 => Some(Id)
    case 1 => Some(Secp256k1)
    case 2 => Some(Actor)
    case 3 => Some(Bls)
    case _ => None
  }

  function ProtocolChar(p: Protocol): (c: char) {
    '0' + Number(p) as char
  }

  function PayloadLength(p: Protocol): (n: nat)
    requires p != Id
  {
    if p == Bls then BLS_PUBLIC_KEY_LEN else PAYLOAD_HASH_LEN
  }

  // ---- construction and the byte form -------------------------------------------------------

  function New(p: Protocol, payload: seq<Byte>): (r: Result<Address, AddressError>) {
    match p
    case Id => Ok(Address(p, payload))
    case Secp256k1 => if |payload| != PAYLOAD_HASH_LEN then Err(InvalidPayload) else Ok(Address(p, payload))
    case Actor => if |payload| != PAYLOAD_HASH_LEN then Err(InvalidPayload) else Ok(Address(p, payload))
    case Bls => if |payload| != BLS_PUBLIC_KEY_LEN then Err(InvalidPayload) else Ok(Address(p, payload))
  }

  function NewIdAddr(id: U64): (r: Result<Address, AddressError>) {
    New(Id, VarintBytes(id))
  }

  function NewFromBytes(bytes: seq<Byte>): (r: Result<Address, AddressError>) {
    if |bytes| <= 1 then Err(InvalidLength)
    else
      match ProtocolOf(bytes[0])
      case None => Err(UnknownProtocol)
      case Some(p) => New(p, bytes[1..])
  }

  function AsBytes(a: Address): (bytes: seq<Byte>) {
    [Number(a.protocol)] + a.payload
  }

  ghost predicate IsIdPayload(payload: seq<Byte>) {
    exists id: U64 :: payload == VarintBytes(id)
  }

  /** The addresses that the typed constructors make: an id as a varint, or a payload of its fixed length. */
  ghost predicate Proper(a: Address) {
    if a.protocol == Id then IsIdPayload(a.payload)
    else |a.payload| == PayloadLength(a.protocol)
  }

  /** The byte form is a bijection between proper addresses and what it makes of them. */
  lemma BytesRoundTrip(a: Address)
    requires Proper(a)
    ensures NewFromBytes(AsBytes(a)) == Ok(a)
  {
    assert AsBytes(a)[1..] == a.payload;
  }

  lemma BytesReadBack(bytes: seq<Byte>)
    requires NewFromBytes(bytes).Ok?
    ensures AsBytes(NewFromBytes(bytes).value) == bytes
  {
    assert bytes == [bytes[0]] + bytes[1..];
  }

  /** Which bytes are refused, and why. */
  lemma BytesRefusedIff(bytes: seq<Byte>)
    ensures NewFromBytes(bytes) == Err(InvalidLength) <==> |bytes| <= 1
    ensures NewFromBytes(bytes) == Err(UnknownProtocol) <==> |bytes| > 1 && bytes[0] > 3
    ensures NewFromBytes(bytes) == Err(InvalidPayload) <==>
      |bytes| > 1 && ((bytes[0] in {1, 2} && |bytes| != 21) || (bytes[0] == 3 && |bytes| != 49))
  {
  }

  // ---- id payloads --------------------------------------------------------------------------

  /** The length of the first varint of `bytes`, if it ends. */
  function VarintEnd(bytes: seq<Byte>): (n: Option<nat>)
    ensures n.Some? ==> 0 < n.value <= |bytes|
  {
    if bytes == [] then None
    else if bytes[0] < 0x80 then Some(1)
    else
      match VarintEnd(bytes[1..])
      case None => None
      case Some(n) => Some(n + 1)
  }

  /** `unsigned_varint::decode::u64`: at most ten bytes, the bits above the 64th dropped, the rest ignored. */
  function DecodeU64(bytes: seq<Byte>): (id: Option<U64>) {
    match VarintEnd(bytes)
    case None => None
    case Some(n) => if n > MAX_VARINT_LEN then None else Some(VarintValue(bytes[..n]) % U64_SIZE)
  }

  lemma {:induction false} EndOfVarint(bytes: seq<Byte>)
    requires IsVarint(bytes)
    ensures VarintEnd(bytes) == Some(|bytes|)
  {
    if |bytes| > 1 {
      assert bytes[0] >= 0x80;
      assert forall i :: 0 <= i < |bytes[1..]| - 1 ==> bytes[1..][i] == bytes[i + 1];
      EndOfVarint(bytes[1..]);
    }
  }

  lemma WordVarintLength(id: U64)
    ensures |VarintBytes(id)| <= MAX_VARINT_LEN
  {
    hide VarintBytes, Pow2;
    Pow64();
    Pow2Le(64, 7 * MAX_VARINT_LEN);
    VarintLength(id, MAX_VARINT_LEN);
  }

  lemma DecodeVarint(id: U64)
    ensures DecodeU64(VarintBytes(id)) == Some(id)
  {
    hide VarintBytes, VarintValue, VarintEnd;
    var bytes := VarintBytes(id);
    VarintShape(id);
    EndOfVarint(bytes);
    assert bytes[..|bytes|] == bytes;
    WordVarintLength(id);
  }

  // ---- the text form ------------------------------------------------------------------------

  /** `Display`; none when the payload of an id address is no varint, where the source panics. */
  function Text(f: Format, a: Address): (s: Option<string>) {
    var head := [Prefix(f.network), ProtocolChar(a.protocol)];
    if a.protocol == Id then
      match DecodeU64(a.payload)
      case None => None
      case Some(id) => Some(head + Decimal.Print(id))
    else Some(head + Base32.Encode(a.payload + f.checksum(AsBytes(a))))
  }

  /** Whether a string, given as its UTF-8 bytes with one character for each, can be cut at `i`. */
  predicate Boundary(s: string, i: nat) {
    i < |s| ==> !('\U{80}' <= s[i] <= '\U{BF}')
  }

  function NewWithCheck(f: Format, p: Protocol, raw: string, size: nat): (o: Outcome) {
    match Base32.Decode(raw)
    case None => Refused(Base32Decode)
    case Some(decoded) =>
      if |decoded| < CHECKSUM_HASH_LEN then Panicked
      else
        var cut := |decoded| - CHECKSUM_HASH_LEN;
        var payload, checksum := decoded[..cut], decoded[cut..];
        if |payload| != size then Refused(InvalidPayload)
        else if f.checksum([Number(p)] + payload) != checksum then Refused(InvalidChecksum)
        else Parsed(Address(p, payload))
  }

  function ParseId(raw: string): (o: Outcome) {
    if |raw| > MAX_U64_LEN then Refused(InvalidLength)
    else
      match Decimal.ParseU64(raw)
      case None => Refused(InvalidPayload)
      case Some(id) =>
        match NewIdAddr(id)
        case Ok(a) => Parsed(a)
        case Err(e) => Refused(e)
  }

  /** `FromStr`, on the UTF-8 bytes of a string, one character for each. */
  function Parse(f: Format, s: string): (o: Outcome) {
    if |s| < 3 || |s| > MAX_ADDRESS_STRING_LEN then Refused(InvalidLength)
    else if !Boundary(s, 1) then Panicked
    else if s[0] != 'f' && s[0] != 't' then Refused(UnknownNetwork)
    else if s[0] != Prefix(f.network) then Refused(MismatchNetwork)
    else if !Boundary(s, 2) then Panicked
    else
      match s[1]
      case '0' => ParseId(s[2..])
      case '1' => NewWithCheck(f, Secp256k1, s[2..], PAYLOAD_HASH_LEN)
      case '2' => NewWithCheck(f, Actor, s[2..], PAYLOAD_HASH_LEN)
      case '3' => NewWithCheck(f, Bls, s[2..], BLS_PUBLIC_KEY_LEN)
      case _ => Refused(UnknownProtocol)
  }

  lemma CheckedRoundTrip(f: Format, p: Protocol, payload: seq<Byte>, size: nat)
    requires f.Valid() && |payload| == size
    ensures
      var raw := Base32.Encode(payload + f.checksum([Number(p)] + payload));
      && NewWithCheck(f, p, raw, size) == Parsed(Address(p, payload))
      && |raw| == (8 * (size + CHECKSUM_HASH_LEN) + 4) / 5
  {
    hide Base32.Encode, Base32.Decode;
    var sum := f.checksum([Number(p)] + payload);
    Base32.RoundTrip(payload + sum);
    assert (payload + sum)[..size] == payload && (payload + sum)[size..] == sum;
  }

  /** The text of a proper address starts with the letter of the network and the digit of the protocol; the rest is the
      number of an id, or the base32 of the payload and the checksum over the protocol's number and the payload. */
  lemma TextContents(f: Format, a: Address)
    requires f.Valid() && Proper(a)
    ensures Text(f, a).Some? && |Text(f, a).value| >= 3
    ensures
      var s := Text(f, a).value;
      && s[0] == (match f.network case Main => 'f' case Test => 't')
      && s[1] == (match a.protocol case Id => '0' case Secp256k1 => '1' case Actor => '2' case Bls => '3')
      && (a.protocol == Id ==> exists id: U64 :: a.payload == VarintBytes(id) && s[2..] == Decimal.Print(id))
      && (a.protocol != Id ==>
            var n := if a.protocol == Secp256k1 then 1 else if a.protocol == Actor then 2 else 3;
            Base32.Decode(s[2..]) == Some(a.payload + f.checksum([n] + a.payload)))
  {
    hide Base32.Encode, Base32.Decode, Decimal.Print, VarintBytes, DecodeU64;
    TextRoundTrip(f, a);
    var s := Text(f, a).value;
    if a.protocol == Id {
      var id: U64 :| a.payload == VarintBytes(id);
      DecodeVarint(id);
      assert s[2..] == Decimal.Print(id);
    } else {
      var body := a.payload + f.checksum(AsBytes(a));
      Base32.RoundTrip(body);
      assert s[2..] == Base32.Encode(body);
    }
  }

  /** The text of a proper address is within the limits, and parsing it gives the address back. */
  lemma TextRoundTrip(f: Format, a: Address)
    requires f.Valid() && Proper(a)
    ensures Text(f, a).Some? && 3 <= |Text(f, a).value| <= MAX_ADDRESS_STRING_LEN
    ensures Parse(f, Text(f, a).value) == Parsed(a)
  {
    hide Base32.Encode, Base32.Decode, Decimal.Print, Decimal.ParseU64, VarintBytes;
    if a.protocol == Id {
      var id: U64 :| a.payload == VarintBytes(id);
      DecodeVarint(id);
      IdText(f, a);
    } else {
      var size := PayloadLength(a.protocol);
      CheckedRoundTrip(f, a.protocol, a.payload, size);
      var s := Text(f, a).value;
      var raw := Base32.Encode(a.payload + f.checksum(AsBytes(a)));
      assert s[2..] == raw;
      assert Boundary(s, 2) by { Base32.RoundTrip(a.payload + f.checksum(AsBytes(a))); Base32.DecodedShape(raw); }
    }
  }

  /** Parsing the text of any id address, also one built from raw bytes, gives the id in its shortest form. */
  lemma IdText(f: Format, a: Address)
    requires a.protocol == Id && DecodeU64(a.payload).Some?
    ensures Text(f, a).Some? && 3 <= |Text(f, a).value| <= MAX_ADDRESS_STRING_LEN
    ensures Parse(f, Text(f, a).value) == Parsed(Address(Id, VarintBytes(DecodeU64(a.payload).value)))
  {
    hide Decimal.Print, Decimal.ParseU64, VarintBytes, DecodeU64;
    var id := DecodeU64(a.payload).value;
    var s := Text(f, a).value;
    var raw := Decimal.Print(id);
    assert s[2..] == raw;
    Decimal.U64Length(id);
    Decimal.ParsePrint(id);
    Decimal.PrintValue(id);
    assert Decimal.IsDigit(raw[0]);
  }

  /** On the other network the text is refused. */
  lemma OtherNetwork(f: Format, g: Format, a: Address)
    requires f.Valid() && Proper(a) && g.network != f.network
    ensures Text(f, a).Some? && Parse(g, Text(f, a).value) == Refused(MismatchNetwork)
  {
    hide Base32.Encode, Base32.Decode, Decimal.Print;
    TextRoundTrip(f, a);
  }

  lemma TextInjective(f: Format, a: Address, b: Address)
    requires f.Valid() && Proper(a) && Proper(b) && Text(f, a) == Text(f, b)
    ensures a == b
  {
    TextRoundTrip(f, a);
    TextRoundTrip(f, b);
  }

  lemma ParsedIsProper(f: Format, s: string)
    requires Parse(f, s).Parsed?
    ensures Proper(Parse(f, s).address)
  {
    hide Base32.Decode, Decimal.ParseU64, VarintBytes;
  }

  /** A text is accepted for a checksummed address exactly when it is that address's text up to the case of its symbols. */
  lemma CheckedTextIff(f: Format, s: string, a: Address)
    requires f.Valid() && Proper(a) && a.protocol != Id
    ensures Parse(f, s) == Parsed(a) <==>
      s != "" && s[0] == Prefix(f.network) && Some(Base32.Lower(s)) == Text(f, a)
  {
    hide Base32.Encode, Base32.Decode;
    var t := Text(f, a).value;
    TextRoundTrip(f, a);
    if Parse(f, s) == Parsed(a) {
      CheckedTextUnique(f, s, a);
    } else if s != "" && s[0] == Prefix(f.network) && Base32.Lower(s) == t {
      LowerParses(f, s, a);
    }
  }

  lemma CheckedTextUnique(f: Format, s: string, a: Address)
    requires Parse(f, s) == Parsed(a) && a.protocol != Id
    ensures Text(f, a) == Some(Base32.Lower(s))
  {
    hide Base32.Encode, Base32.Decode;
    var raw := s[2..];
    var decoded := Base32.Decode(raw).value;
    Base32.Canonical(raw);
    var cut := |decoded| - CHECKSUM_HASH_LEN;
    assert decoded == decoded[..cut] + decoded[cut..];
    assert Base32.Lower(s) == [s[0], s[1]] + Base32.Lower(raw);
  }

  lemma LowerParses(f: Format, s: string, a: Address)
    requires f.Valid() && Proper(a) && a.protocol != Id && |s| >= 3 && s[0] == Prefix(f.network)
    requires Some(Base32.Lower(s)) == Text(f, a)
    ensures Parse(f, s) == Parsed(a)
  {
    hide Base32.Encode, Base32.Decode;
    TextRoundTrip(f, a);
    var t := Base32.Lower(s);
    assert t[1] == ProtocolChar(a.protocol);
    assert t[2..] == Base32.Lower(s[2..]);
    Base32.Canonical(s[2..]);
    assert Base32.Decode(s[2..]).Some?;
    Base32.DecodedShape(s[2..]);
  }

  /** The checksum split panics exactly on a well-formed base32 text of fewer than seven symbols. */
  lemma CheckedPanicIff(f: Format, p: Protocol, raw: string, size: nat)
    ensures NewWithCheck(f, p, raw, size).Panicked? <==> Base32.Decode(raw).Some? && |raw| < 7
  {
    hide Base32.Decode;
    if Base32.Decode(raw).Some? {
      Base32.DecodedShape(raw);
    }
  }

  lemma ShortTextPanics(f: Format, bytes: seq<Byte>)
    requires 0 < |bytes| < CHECKSUM_HASH_LEN
    ensures Parse(f, [Prefix(f.network), '1'] + Base32.Encode(bytes)) == Panicked
  {
    hide Base32.Encode, Base32.Decode;
    var raw := Base32.Encode(bytes);
    Base32.RoundTrip(bytes);
    Base32.DecodedShape(raw);
    assert ([Prefix(f.network), '1'] + raw)[2..] == raw;
  }

  /** Parsing panics exactly when a cut falls inside a character, or when the part after a checked protocol is
      base32 of fewer than seven symbols. */
  lemma ParsePanicIff(f: Format, s: string)
    ensures Parse(f, s).Panicked? <==>
      && 3 <= |s| <= MAX_ADDRESS_STRING_LEN
      && (|| !Boundary(s, 1)
          || (&& s[0] == Prefix(f.network)
              && (|| !Boundary(s, 2)
                  || (s[1] in "123" && |s| < 9 && Base32.Decode(s[2..]).Some?))))
  {
    hide Base32.Decode, Decimal.ParseU64, VarintBytes;
    if 3 <= |s| {
      CheckedPanicIff(f, Secp256k1, s[2..], PAYLOAD_HASH_LEN);
      CheckedPanicIff(f, Actor, s[2..], PAYLOAD_HASH_LEN);
      CheckedPanicIff(f, Bls, s[2..], BLS_PUBLIC_KEY_LEN);
    }
  }

  /** A character of two bytes in first place, or after the network, is such a cut. */
  lemma WideCharacterPanics(f: Format)
    ensures Parse(f, ['\U{C3}', '\U{A9}', 'a']) == Panicked
    ensures Parse(f, [Prefix(f.network), '\U{C3}', '\U{A9}', 'a']) == Panicked
  {
    ParsePanicIff(f, ['\U{C3}', '\U{A9}', 'a']);
    ParsePanicIff(f, [Prefix(f.network), '\U{C3}', '\U{A9}', 'a']);
  }

  /** A text is accepted for an id exactly when it is the network, a zero, and the id in at most twenty bytes: an
      optional plus sign and the decimal digits, with any number of zeros before them. */
  lemma IdTextIff(f: Format, s: string, id: U64)
    ensures Parse(f, s) == Parsed(Address(Id, VarintBytes(id))) <==>
      exists sign: string, zeros: nat ::
        && (sign == "" || sign == "+")
        && |sign| + zeros + |Decimal.Print(id)| <= MAX_U64_LEN
        && s == [Prefix(f.network), '0'] + sign + Decimal.ZeroDigits(zeros) + Decimal.Print(id)
  {
    hide Base32.Decode, Decimal.ParseU64, Decimal.Print, VarintBytes;
    if Parse(f, s) == Parsed(Address(Id, VarintBytes(id))) {
      var raw := s[2..];
      var read := Decimal.ParseU64(raw).value;
      DecodeVarint(read);
      DecodeVarint(id);
      assert Decimal.ParseU64(raw) == Some(id);
      var sign, zeros := Decimal.ParsedNumeral(raw, id);
      assert s == [s[0], s[1]] + raw;
      assert s == [Prefix(f.network), '0'] + sign + Decimal.ZeroDigits(zeros) + Decimal.Print(id);
    }
    forall sign: string, zeros: nat |
      && (sign == "" || sign == "+")
      && |sign| + zeros + |Decimal.Print(id)| <= MAX_U64_LEN
      && s == [Prefix(f.network), '0'] + sign + Decimal.ZeroDigits(zeros) + Decimal.Print(id)
      ensures Parse(f, s) == Parsed(Address(Id, VarintBytes(id)))
    {
      NumeralParses(f, s, id, sign, zeros);
    }
  }

  lemma NumeralParses(f: Format, s: string, id: U64, sign: string, zeros: nat)
    requires sign == "" || sign == "+"
    requires |sign| + zeros + |Decimal.Print(id)| <= MAX_U64_LEN
    requires s == [Prefix(f.network), '0'] + sign + Decimal.ZeroDigits(zeros) + Decimal.Print(id)
    ensures Parse(f, s) == Parsed(Address(Id, VarintBytes(id)))
  {
    hide Base32.Decode, Decimal.ParseU64, Decimal.Print, VarintBytes;
    var raw := sign + Decimal.ZeroDigits(zeros) + Decimal.Print(id);
    assert s[2..] == raw;
    Decimal.NumeralParsed(sign, zeros, id);
    Decimal.NumeralStart(sign, zeros, id);
  }

  /** Some text parses to the address. */
  ghost predicate HasText(f: Format, a: Address) {
    exists s :: Parse(f, s) == Parsed(a)
  }

  /** Some text parses to an address exactly when it is a proper one. */
  lemma ParsedIffProper(f: Format, a: Address)
    requires f.Valid()
    ensures HasText(f, a) <==> Proper(a)
  {
    hide Text, Parse, Proper;
    if Proper(a) {
      TextRoundTrip(f, a);
      assert Parse(f, Text(f, a).value) == Parsed(a);
    }
    forall s | Parse(f, s) == Parsed(a)
      ensures Proper(a)
    {
      ParsedIsProper(f, s);
    }
  }

  /** What the constructor makes is what some text parses to: always for a checksummed protocol; for an id, whose
      payload it does not check, exactly when the payload is the varint of a word. */
  lemma NewIffParsed(f: Format, p: Protocol, payload: seq<Byte>)
    requires f.Valid()
    ensures (New(p, payload).Ok? && (p == Id ==> IsIdPayload(payload)))
        <==> HasText(f, Address(p, payload))
    ensures New(p, payload).Ok? ==> New(p, payload).value == Address(p, payload)
  {
    hide HasText, IsIdPayload;
    ParsedIffProper(f, Address(p, payload));
  }

  /** So the constructor also makes id addresses that no text stands for. */
  lemma UnreachableId(f: Format)
    requires f.Valid()
    ensures New(Id, []) == Ok(Address(Id, []))
    ensures !HasText(f, Address(Id, []))
  {
    hide HasText;
    NewIffParsed(f, Id, []);
    assert forall id: U64 :: VarintBytes(id) != [];
  }

  /** Where parsing does not panic: which texts are refused for which reason. */
  lemma RefusedIff(f: Format, s: string)
    requires !Parse(f, s).Panicked?
    ensures
      var o := Parse(f, s);
      var sized := 3 <= |s| <= 86;
      var here := sized && s[0] == (match f.network case Main => 'f' case Test => 't');
      && (o == Refused(InvalidLength) <==> !sized || (here && s[1] == '0' && |s| > 22))
      && (o == Refused(UnknownNetwork) <==> sized && s[0] !in "ft")
      && (o == Refused(MismatchNetwork) <==> sized && s[0] in "ft" && !here)
      && (o == Refused(UnknownProtocol) <==> here && s[1] !in "0123")
      && (o == Refused(Base32Decode) <==> here && s[1] in "123" && Base32.Decode(s[2..]).None?)
  {
    hide Base32.Decode, Decimal.ParseU64, VarintBytes;
  }

  /** A checked text of which the base32 part decodes is refused for its length, or else for its checksum. */
  lemma CheckRefusedIff(f: Format, p: Protocol, raw: string, size: nat)
    requires Base32.Decode(raw).Some? && |raw| >= 7
    ensures
      var decoded := Base32.Decode(raw).value;
      var o := NewWithCheck(f, p, raw, size);
      && |decoded| >= 4
      && (o == Refused(InvalidPayload) <==> |decoded| != size + 4)
      && (o == Refused(InvalidChecksum) <==>
            |decoded| == size + 4 && decoded[size..] != f.checksum([Number(p)] + decoded[..size]))
  {
    hide Base32.Decode;
    Base32.DecodedShape(raw);
  }
}
