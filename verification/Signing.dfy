/** Signed-body amounts and the EIP-712 struct-hash preimage of an order. Hashes and
    signatures stay opaque: the type hash is an arbitrary 32-byte word. */
module Signing {
  import opened Wrappers
  import opened Lattice
  import opened VenueTypes
  import Orders

  newtype byte = b: int | 0 <= b < 256

  datatype SignatureKind = Eoa | PolyProxy | PolyGnosisSafe

  function SideByte(side: OrderSide): byte {
    match side
    case Buy => 0
    case Sell => 1
  }

  function KindByte(kind: SignatureKind): byte {
    match kind
    case Eoa => 0
    case PolyProxy => 1
    case PolyGnosisSafe => 2
  }

  datatype OrderV2 = OrderV2(
    salt: nat,
    maker: seq<byte>,
    signer: seq<byte>,
    tokenId: nat,
    makerAmount: nat,
    takerAmount: nat,
    side: OrderSide,
    kind: SignatureKind,
    timestampMs: nat,
    metadata: seq<byte>,
    builder: seq<byte>)

  // --------------------------------------------------------- big-endian words

  function Pow256(k: nat): (r: nat)
    ensures r >= 1
  {
    if k == 0 then 1 else 256 * Pow256(k - 1)
  }

  /** The k low-order bytes of n, most significant first. */
  function ToBe(n: nat, k: nat): (b: seq<byte>)
    ensures |b| == k
  {
    if k == 0 then [] else ToBe(n / 256, k - 1) + [(n % 256) as byte]
  }

  function FromBe(b: seq<byte>): nat {
    if b == [] then 0 else 256 * FromBe(b[..|b| - 1]) + b[|b| - 1] as nat
  }

  lemma {:induction false} FromToBe(n: nat, k: nat)
    requires n < Pow256(k)
    ensures FromBe(ToBe(n, k)) == n
  {
    if k > 0 {
      FromToBe(n / 256, k - 1);
      assert ToBe(n, k)[..k - 1] == ToBe(n / 256, k - 1);
    }
  }

  lemma {:induction false} ToFromBe(b: seq<byte>)
    ensures FromBe(b) < Pow256(|b|) && ToBe(FromBe(b), |b|) == b
  {
    if b != [] {
      var init, last := b[..|b| - 1], b[|b| - 1];
      ToFromBe(init);
      assert FromBe(b) / 256 == FromBe(init) && FromBe(b) % 256 == last as nat;
      assert b == init + [last];
    }
  }

  function Zeros(k: nat): (b: seq<byte>)
    ensures |b| == k
  {
    seq(k, i => 0)
  }

  /** Left-padding a short big-endian integer with zero bytes is its uint256 encoding. */
  lemma {:induction false} PaddedIsUint(n: nat, pad: nat, k: nat)
    requires n < Pow256(k)
    ensures Zeros(pad) + ToBe(n, k) == ToBe(n, pad + k)
    decreases k, pad
  {
    if k == 0 {
      ZeroBytes(pad);
    } else {
      PaddedIsUint(n / 256, pad, k - 1);
      assert Zeros(pad) + ToBe(n, k) == (Zeros(pad) + ToBe(n / 256, k - 1)) + [(n % 256) as byte];
    }
  }

  lemma {:induction false} ZeroBytes(k: nat)
    ensures ToBe(0, k) == Zeros(k)
  {
    if k > 0 {
      ZeroBytes(k - 1);
      assert Zeros(k) == Zeros(k - 1) + [0];
    }
  }

  // ------------------------------------------------------------- the preimage

  const U64_LIMIT: nat := 0x1_0000_0000_0000_0000
  const U128_LIMIT: nat := U64_LIMIT * U64_LIMIT
  const U256_LIMIT: nat := U128_LIMIT * U128_LIMIT

  ghost predicate WellFormed(o: OrderV2) {
    && o.salt < U64_LIMIT
    && |o.maker| == 20 && |o.signer| == 20
    && o.tokenId < U256_LIMIT && o.makerAmount < U256_LIMIT && o.takerAmount < U256_LIMIT
    && o.timestampMs < U128_LIMIT
    && |o.metadata| == 32 && |o.builder| == 32
  }

  function Uint256(n: nat): seq<byte> {
    ToBe(n, 32)
  }

  /** The members of the encoded data as EIP-712 defines them: integers, addresses (as uint160)
      and small enums as 256-bit big-endian words, bytes32 values verbatim. */
  ghost function EncodedWords(typehash: seq<byte>, o: OrderV2): (words: seq<seq<byte>>)
    ensures |words| == 12
  {
    [ typehash,
      Uint256(o.salt), Uint256(FromBe(o.maker)), Uint256(FromBe(o.signer)),
      Uint256(o.tokenId), Uint256(o.makerAmount), Uint256(o.takerAmount),
      Uint256(SideByte(o.side) as nat), Uint256(KindByte(o.kind) as nat), Uint256(o.timestampMs),
      o.metadata, o.builder ]
  }

  /** The members of the order's type string, in its order: solidity type and name. */
  const ORDER_FIELDS: seq<(string, string)> :=
    [ ("uint256", "salt"), ("address", "maker"), ("address", "signer"),
      ("uint256", "tokenId"), ("uint256", "makerAmount"), ("uint256", "takerAmount"),
      ("uint8", "side"), ("uint8", "signatureType"), ("uint256", "timestamp"),
      ("bytes32", "metadata"), ("bytes32", "builder") ]

  datatype FieldValue = Number(n: nat) | Bytes(b: seq<byte>)

  /** The value a member of the type string names; sides and signature kinds by their venue numbers. */
  function ValueOf(o: OrderV2, name: string): FieldValue {
    match name
    case "salt" => Number(o.salt)
    case "maker" => Bytes(o.maker)
    case "signer" => Bytes(o.signer)
    case "tokenId" => Number(o.tokenId)
    case "makerAmount" => Number(o.makerAmount)
    case "takerAmount" => Number(o.takerAmount)
    case "side" => Number(if o.side == Buy then 0 else 1)
    case "signatureType" => Number(if o.kind == Eoa then 0 else if o.kind == PolyProxy then 1 else 2)
    case "timestamp" => Number(o.timestampMs)
    case "metadata" => Bytes(o.metadata)
    case _ => Bytes(o.builder)
  }

  /** EIP-712 encodeData of one member: integers as 256-bit big-endian words, addresses as the number they
      read as, bytes32 verbatim. */
  function EncodeMember(v: FieldValue, solidity: string): seq<byte> {
    match v
    case Number(n) => ToBe(n, 32)
    case Bytes(b) => if solidity == "address" then ToBe(FromBe(b), 32) else b
  }

  /** The words after the type hash are the encoded members in the order of the type string. */
  lemma WordsFollowTypeString(typehash: seq<byte>, o: OrderV2, i: nat)
    requires i < |ORDER_FIELDS|
    ensures |EncodedWords(typehash, o)| == |ORDER_FIELDS| + 1 && EncodedWords(typehash, o)[0] == typehash
    ensures FollowsTypeString(typehash, o, i)
  {
    if i < 3 {
      EarlyWords(typehash, o, i);
    } else if i < 6 {
      AmountWords(typehash, o, i);
    } else {
      LateWords(typehash, o, i);
    }
  }

  /** Word i after the type hash is the encoding of member i. */
  ghost predicate FollowsTypeString(typehash: seq<byte>, o: OrderV2, i: nat)
    requires i < |ORDER_FIELDS|
  {
    var (solidity, name) := ORDER_FIELDS[i];
    EncodedWords(typehash, o)[i + 1] == EncodeMember(ValueOf(o, name), solidity)
  }

  lemma EarlyWords(typehash: seq<byte>, o: OrderV2, i: nat)
    requires i < 3
    ensures FollowsTypeString(typehash, o, i)
  {
  }

  lemma AmountWords(typehash: seq<byte>, o: OrderV2, i: nat)
    requires 3 <= i < 6
    ensures FollowsTypeString(typehash, o, i)
  {
  }

  lemma LateWords(typehash: seq<byte>, o: OrderV2, i: nat)
    requires 6 <= i < 11
    ensures FollowsTypeString(typehash, o, i)
  {
  }

  function Word(buf: seq<byte>, i: nat): seq<byte>
    requires 32 * i + 32 <= |buf|
  {
    buf[32 * i..32 * i + 32]
  }

  /** buf is the concatenation of exactly these 32-byte words. */
  ghost predicate IsEncoding(buf: seq<byte>, words: seq<seq<byte>>) {
    && |buf| == 32 * |words|
    && forall i :: 0 <= i < |words| ==> Word(buf, i) == words[i]
  }

  method PadLeft(bytes: seq<byte>) returns (out: array<byte>)
    requires |bytes| <= 32
    ensures fresh(out) && out[..] == Zeros(32 - |bytes|) + bytes
  {
    out := new byte[32](i => 0);
    var start := 32 - |bytes|;
    forall i | 0 <= i < |bytes| {
      out[start + i] := bytes[i];
    }
  }

  lemma {:induction false} Pow256Add(a: nat, b: nat)
    ensures Pow256(a + b) == Pow256(a) * Pow256(b)
    decreases b
  {
    if b > 0 {
      Pow256Add(a, b - 1);
      assert Pow256(a) * (256 * Pow256(b - 1)) == 256 * (Pow256(a) * Pow256(b - 1));
    }
  }

  /** The byte widths of the integer fields; parameters stand for the literals. */
  lemma Widths(a: nat, b: nat, c: nat, d: nat)
    requires a == 1 && b == 8 && c == 16 && d == 32
    ensures Pow256(a) == 256 && Pow256(b) == U64_LIMIT
    ensures Pow256(c) == U128_LIMIT && Pow256(d) == U256_LIMIT
  {
    EightBytes(b);
    Pow256Add(b, b);
    Pow256Add(c, c);
  }

  lemma EightBytes(b: nat)
    requires b == 8
    ensures Pow256(b) == U64_LIMIT
  {
    assert Pow256(2) == 0x1_0000;
    Pow256Add(2, 2);
    Pow256Add(4, 4);
  }

  /** The unsigned-integer helpers: big-endian bytes of the native width, left-padded. */
  method UintWord(n: nat, width: nat) returns (out: seq<byte>)
    requires width <= 32 && n < Pow256(width)
    ensures out == Uint256(n)
  {
    var a := PadLeft(ToBe(n, width));
    out := a[..];
    PaddedIsUint(n, 32 - width, width);
  }

  method ByteWord(v: byte) returns (out: seq<byte>)
    ensures out == Uint256(v as nat)
  {
    Widths(1, 8, 16, 32);
    out := UintWord(v as nat, 1);
  }

  method U64Word(n: nat) returns (out: seq<byte>)
    requires n < U64_LIMIT
    ensures out == Uint256(n)
  {
    Widths(1, 8, 16, 32);
    out := UintWord(n, 8);
  }

  method U128Word(n: nat) returns (out: seq<byte>)
    requires n < U128_LIMIT
    ensures out == Uint256(n)
  {
    Widths(1, 8, 16, 32);
    out := UintWord(n, 16);
  }

  method U256Word(n: nat) returns (out: seq<byte>)
    requires n < U256_LIMIT
    ensures out == Uint256(n)
  {
    Widths(1, 8, 16, 32);
    out := UintWord(n, 32);
  }

  method AddressWord(address: seq<byte>) returns (out: seq<byte>)
    requires |address| == 20
    ensures out == Uint256(FromBe(address))
  {
    var a := PadLeft(address);
    out := a[..];
    ToFromBe(address);
    PaddedIsUint(FromBe(address), 12, 20);
  }

  function Flatten(words: seq<seq<byte>>): seq<byte> {
    if words == [] then [] else Flatten(words[..|words| - 1]) + words[|words| - 1]
  }

  lemma {:induction false} FlattenIsEncoding(words: seq<seq<byte>>)
    requires forall i :: 0 <= i < |words| ==> |words[i]| == 32
    ensures IsEncoding(Flatten(words), words)
  {
    if words != [] {
      var init := words[..|words| - 1];
      FlattenIsEncoding(init);
      forall i | 0 <= i < |words|
        ensures Word(Flatten(words), i) == words[i]
      {
        if i < |init| {
          assert Word(Flatten(words), i) == Word(Flatten(init), i);
        }
      }
    }
  }

  /** Fills the buffer field by field. */
  method FillBuffer(words: seq<seq<byte>>) returns (buf: seq<byte>)
    requires forall i :: 0 <= i < |words| ==> |words[i]| == 32
    ensures IsEncoding(buf, words)
  {
    buf := [];
    for k := 0 to |words|
      invariant buf == Flatten(words[..k])
    {
      assert words[..k + 1][..k] == words[..k];
      buf := buf + words[k];
    }
    assert words[..|words|] == words;
    FlattenIsEncoding(words);
  }

  /** The buffer handed to keccak is the twelve 32-byte words EIP-712 prescribes, each made by
      padding a native-width field. */
  method StructHashPreimage(typehash: seq<byte>, o: OrderV2) returns (buf: seq<byte>)
    requires |typehash| == 32 && WellFormed(o)
    ensures |buf| == 384 && IsEncoding(buf, EncodedWords(typehash, o))
  {
    var salt := U64Word(o.salt);
    var maker := AddressWord(o.maker);
    var signer := AddressWord(o.signer);
    var tokenId := U256Word(o.tokenId);
    var makerAmount := U256Word(o.makerAmount);
    var takerAmount := U256Word(o.takerAmount);
    var side := ByteWord(SideByte(o.side));
    var kind := ByteWord(KindByte(o.kind));
    var stamp := U128Word(o.timestampMs);
    buf := FillBuffer([typehash, salt, maker, signer, tokenId, makerAmount, takerAmount,
                       side, kind, stamp, o.metadata, o.builder]);
  }

  // ------------------------------------------------------------------ decoding

  function DecodeAddress(w: seq<byte>): Option<seq<byte>>
    requires |w| == 32
  {
    if w[..12] == Zeros(12) then Some(w[12..]) else None
  }

  function DecodeSide(n: nat): Option<OrderSide> {
    if n == 0 then Some(Buy) else if n == 1 then Some(Sell) else None
  }

  function DecodeKind(n: nat): Option<SignatureKind> {
    if n == 0 then Some(Eoa) else if n == 1 then Some(PolyProxy)
    else if n == 2 then Some(PolyGnosisSafe) else None
  }

  /** Reads a preimage back; None when it is not one. */
  function Decode(buf: seq<byte>): Option<(seq<byte>, OrderV2)> {
    if |buf| != 384 then None
    else
      var salt, stamp := FromBe(Word(buf, 1)), FromBe(Word(buf, 9));
      var maker, signer := DecodeAddress(Word(buf, 2)), DecodeAddress(Word(buf, 3));
      var side, kind := DecodeSide(FromBe(Word(buf, 7))), DecodeKind(FromBe(Word(buf, 8)));
      if salt >= U64_LIMIT || stamp >= U128_LIMIT || maker.None? || signer.None? || side.None? || kind.None? then None
      else
        Some((Word(buf, 0),
              OrderV2(salt, maker.value, signer.value,
                      FromBe(Word(buf, 4)), FromBe(Word(buf, 5)), FromBe(Word(buf, 6)),
                      side.value, kind.value, stamp, Word(buf, 10), Word(buf, 11))))
  }

  lemma AddressRoundTrip(address: seq<byte>)
    requires |address| == 20
    ensures DecodeAddress(Uint256(FromBe(address))) == Some(address)
  {
    ToFromBe(address);
    PaddedIsUint(FromBe(address), 12, 20);
    var w := Zeros(12) + address;
    assert w[..12] == Zeros(12) && w[12..] == address;
  }

  lemma AddressWordExact(w: seq<byte>)
    requires |w| == 32 && DecodeAddress(w).Some?
    ensures Uint256(FromBe(DecodeAddress(w).value)) == w
  {
    var address := w[12..];
    ToFromBe(address);
    PaddedIsUint(FromBe(address), 12, 20);
    assert w == w[..12] + w[12..];
  }

  /** A number below 2^256 reads back from its word. */
  lemma UintReads(n: nat)
    requires n < U256_LIMIT
    ensures FromBe(Uint256(n)) == n
  {
    Widths(1, 8, 16, 32);
    FromToBe(n, 32);
  }

  lemma SmallReads(n: nat)
    requires n < 256
    ensures FromBe(Uint256(n)) == n
  {
    UintReads(n);
  }

  lemma EnumReads(side: OrderSide, kind: SignatureKind)
    ensures DecodeSide(FromBe(Uint256(SideByte(side) as nat))) == Some(side)
    ensures DecodeKind(FromBe(Uint256(KindByte(kind) as nat))) == Some(kind)
  {
    SmallReads(SideByte(side) as nat);
    SmallReads(KindByte(kind) as nat);
  }

  lemma WideNumbersRead(o: OrderV2)
    requires WellFormed(o)
    ensures FromBe(Uint256(o.tokenId)) == o.tokenId
    ensures FromBe(Uint256(o.makerAmount)) == o.makerAmount && FromBe(Uint256(o.takerAmount)) == o.takerAmount
  {
    UintReads(o.tokenId);
    UintReads(o.makerAmount);
    UintReads(o.takerAmount);
  }

  lemma NarrowNumbersRead(o: OrderV2)
    requires WellFormed(o)
    ensures FromBe(Uint256(o.salt)) == o.salt && FromBe(Uint256(o.timestampMs)) == o.timestampMs
  {
    UintReads(o.salt);
    UintReads(o.timestampMs);
  }

  /** The preimage decodes to the order it was made from. */
  lemma PreimageDecodes(buf: seq<byte>, typehash: seq<byte>, o: OrderV2)
    requires |typehash| == 32 && WellFormed(o)
    requires IsEncoding(buf, EncodedWords(typehash, o))
    ensures Decode(buf) == Some((typehash, o))
  {
    WideNumbersRead(o);
    NarrowNumbersRead(o);
    EnumReads(o.side, o.kind);
    AddressRoundTrip(o.maker);
    AddressRoundTrip(o.signer);
    ReadWords(buf, EncodedWords(typehash, o));
  }

  lemma ReadWords(buf: seq<byte>, w: seq<seq<byte>>)
    requires |w| == 12 && IsEncoding(buf, w)
    ensures Word(buf, 0) == w[0] && Word(buf, 1) == w[1] && Word(buf, 2) == w[2] && Word(buf, 3) == w[3]
    ensures Word(buf, 4) == w[4] && Word(buf, 5) == w[5] && Word(buf, 6) == w[6] && Word(buf, 7) == w[7]
    ensures Word(buf, 8) == w[8] && Word(buf, 9) == w[9] && Word(buf, 10) == w[10] && Word(buf, 11) == w[11]
  {
  }

  lemma WriteWords(buf: seq<byte>, a: seq<seq<byte>>, b: seq<seq<byte>>)
    requires |a| == |b| == 6 && |buf| == 384
    requires forall i :: 0 <= i < 6 ==> Word(buf, i) == a[i] && Word(buf, 6 + i) == b[i]
    ensures IsEncoding(buf, a + b)
  {
    forall i | 0 <= i < 12
      ensures Word(buf, i) == (a + b)[i]
    {
      assert i >= 6 ==> Word(buf, 6 + (i - 6)) == b[i - 6];
    }
  }

  /** A 32-byte word is the encoding of the number it reads as. */
  lemma WordIsUint(w: seq<byte>)
    requires |w| == 32
    ensures FromBe(w) < U256_LIMIT && Uint256(FromBe(w)) == w
  {
    Widths(1, 8, 16, 32);
    ToFromBe(w);
  }

  lemma EnumWordsExact(side: seq<byte>, kind: seq<byte>)
    requires |side| == 32 && |kind| == 32
    requires DecodeSide(FromBe(side)).Some? && DecodeKind(FromBe(kind)).Some?
    ensures Uint256(SideByte(DecodeSide(FromBe(side)).value) as nat) == side
    ensures Uint256(KindByte(DecodeKind(FromBe(kind)).value) as nat) == kind
  {
    WordIsUint(side);
    WordIsUint(kind);
  }

  /** Only preimages decode: a buffer that reads back as an order is that order's encoding. */
  lemma DecodedIsPreimage(buf: seq<byte>)
    requires Decode(buf).Some?
    ensures |Decode(buf).value.0| == 32 && WellFormed(Decode(buf).value.1)
    ensures IsEncoding(buf, EncodedWords(Decode(buf).value.0, Decode(buf).value.1))
  {
    var (typehash, o) := Decode(buf).value;
    DecodeReads(buf);
    NumbersExact(buf, o);
    OthersExact(buf, o);
    WordsMatch(buf, typehash, o);
  }

  lemma WordsMatch(buf: seq<byte>, typehash: seq<byte>, o: OrderV2)
    requires |buf| == 384 && WellFormed(o)
    requires Word(buf, 0) == typehash && Word(buf, 10) == o.metadata && Word(buf, 11) == o.builder
    requires Word(buf, 1) == Uint256(o.salt) && Word(buf, 9) == Uint256(o.timestampMs)
    requires Word(buf, 2) == Uint256(FromBe(o.maker)) && Word(buf, 3) == Uint256(FromBe(o.signer))
    requires Word(buf, 4) == Uint256(o.tokenId)
    requires Word(buf, 5) == Uint256(o.makerAmount) && Word(buf, 6) == Uint256(o.takerAmount)
    requires Word(buf, 7) == Uint256(SideByte(o.side) as nat) && Word(buf, 8) == Uint256(KindByte(o.kind) as nat)
    ensures IsEncoding(buf, EncodedWords(typehash, o))
  {
    FirstMatch(buf, typehash, o);
    LastMatch(buf, o);
    WriteWords(buf, FirstSix(typehash, o), LastSix(o));
    Halves(typehash, o);
  }

  lemma FirstMatch(buf: seq<byte>, typehash: seq<byte>, o: OrderV2)
    requires |buf| == 384
    requires Word(buf, 0) == typehash && Word(buf, 1) == Uint256(o.salt)
    requires Word(buf, 2) == Uint256(FromBe(o.maker)) && Word(buf, 3) == Uint256(FromBe(o.signer))
    requires Word(buf, 4) == Uint256(o.tokenId) && Word(buf, 5) == Uint256(o.makerAmount)
    ensures |FirstSix(typehash, o)| == 6 && forall i :: 0 <= i < 6 ==> Word(buf, i) == FirstSix(typehash, o)[i]
  {
  }

  lemma LastMatch(buf: seq<byte>, o: OrderV2)
    requires |buf| == 384
    requires Word(buf, 6) == Uint256(o.takerAmount) && Word(buf, 7) == Uint256(SideByte(o.side) as nat)
    requires Word(buf, 8) == Uint256(KindByte(o.kind) as nat) && Word(buf, 9) == Uint256(o.timestampMs)
    requires Word(buf, 10) == o.metadata && Word(buf, 11) == o.builder
    ensures |LastSix(o)| == 6 && forall i :: 0 <= i < 6 ==> Word(buf, 6 + i) == LastSix(o)[i]
  {
  }

  ghost function FirstSix(typehash: seq<byte>, o: OrderV2): seq<seq<byte>> {
    [ typehash, Uint256(o.salt), Uint256(FromBe(o.maker)), Uint256(FromBe(o.signer)), Uint256(o.tokenId),
      Uint256(o.makerAmount) ]
  }

  ghost function LastSix(o: OrderV2): seq<seq<byte>> {
    [ Uint256(o.takerAmount), Uint256(SideByte(o.side) as nat), Uint256(KindByte(o.kind) as nat),
      Uint256(o.timestampMs), o.metadata, o.builder ]
  }

  lemma Halves(typehash: seq<byte>, o: OrderV2)
    ensures EncodedWords(typehash, o) == FirstSix(typehash, o) + LastSix(o)
  {
  }

  /** The order's fields are what the words read as. */
  ghost predicate ReadFrom(buf: seq<byte>, o: OrderV2)
    requires |buf| == 384
  {
    && o.salt == FromBe(Word(buf, 1)) && o.tokenId == FromBe(Word(buf, 4))
    && o.makerAmount == FromBe(Word(buf, 5)) && o.takerAmount == FromBe(Word(buf, 6))
    && o.timestampMs == FromBe(Word(buf, 9))
    && DecodeAddress(Word(buf, 2)) == Some(o.maker) && DecodeAddress(Word(buf, 3)) == Some(o.signer)
    && DecodeSide(FromBe(Word(buf, 7))) == Some(o.side) && DecodeKind(FromBe(Word(buf, 8))) == Some(o.kind)
    && o.metadata == Word(buf, 10) && o.builder == Word(buf, 11)
  }

  lemma DecodeReads(buf: seq<byte>)
    requires Decode(buf).Some?
    ensures |buf| == 384 && Decode(buf).value.0 == Word(buf, 0)
    ensures var o := Decode(buf).value.1;
            ReadFrom(buf, o) && o.salt < U64_LIMIT && o.timestampMs < U128_LIMIT
  {
  }

  lemma NumbersExact(buf: seq<byte>, o: OrderV2)
    requires |buf| == 384 && ReadFrom(buf, o)
    ensures o.salt < U256_LIMIT && Uint256(o.salt) == Word(buf, 1)
    ensures o.tokenId < U256_LIMIT && Uint256(o.tokenId) == Word(buf, 4)
    ensures o.makerAmount < U256_LIMIT && Uint256(o.makerAmount) == Word(buf, 5)
    ensures o.takerAmount < U256_LIMIT && Uint256(o.takerAmount) == Word(buf, 6)
    ensures o.timestampMs < U256_LIMIT && Uint256(o.timestampMs) == Word(buf, 9)
  {
    WordIsUint(Word(buf, 1));
    WordIsUint(Word(buf, 4));
    WordIsUint(Word(buf, 5));
    WordIsUint(Word(buf, 6));
    WordIsUint(Word(buf, 9));
  }

  lemma OthersExact(buf: seq<byte>, o: OrderV2)
    requires |buf| == 384 && ReadFrom(buf, o)
    ensures |o.maker| == |o.signer| == 20
    ensures Uint256(FromBe(o.maker)) == Word(buf, 2) && Uint256(FromBe(o.signer)) == Word(buf, 3)
    ensures Uint256(SideByte(o.side) as nat) == Word(buf, 7) && Uint256(KindByte(o.kind) as nat) == Word(buf, 8)
  {
    AddressWordExact(Word(buf, 2));
    AddressWordExact(Word(buf, 3));
    EnumWordsExact(Word(buf, 7), Word(buf, 8));
  }

  /** Distinct orders, or distinct type hashes, never share a preimage. */
  lemma PreimageInjective(buf: seq<byte>, h1: seq<byte>, o1: OrderV2, h2: seq<byte>, o2: OrderV2)
    requires |h1| == 32 && |h2| == 32 && WellFormed(o1) && WellFormed(o2)
    requires IsEncoding(buf, EncodedWords(h1, o1)) && IsEncoding(buf, EncodedWords(h2, o2))
    ensures h1 == h2 && o1 == o2
  {
    PreimageDecodes(buf, h1, o1);
    PreimageDecodes(buf, h2, o2);
  }

  // -------------------------------------------------------------- signed amounts

  datatype SigningError = InvalidPriceOrSize | InvalidTokenId

  datatype Amounts = Amounts(makerAtoms: int, takerAtoms: int)

  /** BUY pays maker cents and takes 0.0001-share units, both in millionths. */
  function BuyAmounts(target: Orders.BuyTarget): Result<Amounts, SigningError> {
    var makerAtoms, takerAtoms := target.makerCents * 10_000, target.size * 100;
    if makerAtoms <= 0 || takerAtoms <= 0 then Err(InvalidPriceOrSize)
    else Ok(Amounts(makerAtoms, takerAtoms))
  }

  /** SELL pays 0.01-share units and takes price times size, both in millionths. */
  function SellAmounts(priceTicks: int, size: int): Result<Amounts, SigningError> {
    var makerAtoms, takerAtoms := size * 10_000, priceTicks * size * 100;
    if makerAtoms <= 0 || takerAtoms <= 0 then Err(InvalidPriceOrSize)
    else Ok(Amounts(makerAtoms, takerAtoms))
  }

  /** Every canonical BUY signs, unless it costs nothing, at exactly its limit price, for exactly
      its cents; so the price of the signed body is never rounded. */
  lemma SignedBuyIsExact(inp: Orders.BuyInput)
    requires Orders.Affordable(inp) && Orders.CanonicalBuy(inp).Ok?
    ensures var target := Orders.CanonicalBuy(inp).value;
            && (BuyAmounts(target).Ok? <==> target.makerCents > 0)
            && (BuyAmounts(target).Ok? ==>
                  && BuyAmounts(target).value.makerAtoms * 100 == inp.priceTicks * BuyAmounts(target).value.takerAtoms
                  && BuyAmounts(target).value.makerAtoms == target.makerCents * ATOMS_PER_CENT)
  {
    var f, c := Orders.NeighbourCosts(inp);
    Orders.AnswerIsNeighbour(inp, f, c);
    var target := Orders.CanonicalBuy(inp).value;
    ExactBuy(inp.priceTicks, target.size, target.makerCents);
  }

  const ATOMS_PER_CENT: int := 10_000

  /** A hundredth of a share in millionths. */
  const ATOMS_PER_SHARE_STEP: int := 10_000

  lemma ExactBuy(p: int, size: int, cents: int)
    requires Orders.PriceInRange(p) && cents * MAKER_DENOM == p * size
    ensures (cents > 0 <==> size > 0)
    ensures (cents * 10_000) * 100 == p * (size * 100)
  {
    if size > 0 {
      Orders.StrictScale(p, 0, size);
    } else {
      Orders.ScaledOrder(p, size, 0);
    }
    assert p * (size * 100) == (p * size) * 100;
  }

  /** A SELL signs exactly when price and size are positive together, at exactly its limit price. */
  lemma SignedSellIsExact(p: int, size: int)
    requires Orders.PriceInRange(p)
    ensures SellAmounts(p, size).Ok? <==> size > 0
    ensures SellAmounts(p, size).Ok? ==>
              && SellAmounts(p, size).value.takerAtoms * 100 == p * SellAmounts(p, size).value.makerAtoms
              && SellAmounts(p, size).value.makerAtoms == size * ATOMS_PER_SHARE_STEP
  {
    if size > 0 {
      Orders.StrictScale(p, 0, size);
    }
    assert (p * size * 100) * 100 == p * (size * 10_000);
  }
}
