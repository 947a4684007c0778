/** The versioned byte formats of one registration (48 bytes) and of a pair (128 bytes). */
module RegistrationCodec {
  import opened Words
  import opened HostRegistration

  const SPEC_LEN := 48
  const HEADER_LEN := 32
  const PAIR_LEN := 128
  const SPEC_MAGIC: seq<u8> := [0x4d, 0x48, 0x56, 0x48, 0x52, 0x45, 0x47, 0]
  const PAIR_MAGIC: seq<u8> := [0x4d, 0x48, 0x56, 0x48, 0x52, 0x32, 0, 0]

  /** Replaces part of a fixed buffer. */
  method CopyIn(buffer: array<u8>, at: nat, field: seq<u8>)
    requires at + |field| <= buffer.Length
    modifies buffer
    ensures buffer[..at + |field|] == old(buffer[..at]) + field
    ensures buffer[at + |field|..] == old(buffer[at + |field|..])
  {
    for i := 0 to |field|
      invariant buffer[..at + i] == old(buffer[..at]) + field[..i]
      invariant buffer[at + i..] == old(buffer[at + i..])
    {
      buffer[at + i] := field[i];
      assert buffer[..at + i + 1] == buffer[..at + i] + [field[i]];
      assert field[..i + 1] == field[..i] + [field[i]];
      assert buffer[at + i + 1..] == buffer[at + i..][1..];
    }
    assert field[..|field|] == field;
  }

  // ---------------------------------------------------------------- one registration

  datatype SpecCodecError =
    | Truncated(actual: nat)
    | InvalidMagic
    | UnsupportedVersion(version: u16)
    | InvalidHeaderLength(header: u16)
    | InvalidTotalLength(total: u32)
    | NonZeroFlags(flags: u32)
    | NonZeroReserved(reserved: u32)
    | InvalidSpec(reason: SpecError)

  /** The 48 bytes that stand for a registration, field by field. */
  ghost function SpecImage(spec: Spec): (image: seq<u8>)
    ensures |image| == SPEC_LEN
  {
    SPEC_MAGIC + LeBytes(1, 2) + LeBytes(SPEC_LEN, 2) + LeBytes(SPEC_LEN, 4)
    + LeBytes(spec.address, 8) + LeBytes(spec.length, 4) + LeBytes(spec.gsi, 4)
    + LeBytes(spec.datamatch, 8) + LeBytes(0, 4) + LeBytes(0, 4)
  }

  method EncodeSpec(spec: Spec) returns (bytes: seq<u8>)
    ensures bytes == SpecImage(spec)
  {
    hide LeBytes;
    var buffer := new u8[SPEC_LEN](_ => 0);
    CopyIn(buffer, 0, SPEC_MAGIC);
    CopyIn(buffer, 8, LeBytes(1, 2));
    CopyIn(buffer, 10, LeBytes(SPEC_LEN, 2));
    CopyIn(buffer, 12, LeBytes(SPEC_LEN, 4));
    ghost var envelope := SPEC_MAGIC + LeBytes(1, 2) + LeBytes(SPEC_LEN, 2) + LeBytes(SPEC_LEN, 4);
    assert buffer[..16] == envelope;
    CopyIn(buffer, 16, LeBytes(spec.address, 8));
    CopyIn(buffer, 24, LeBytes(spec.length, 4));
    CopyIn(buffer, 28, LeBytes(spec.gsi, 4));
    CopyIn(buffer, 32, LeBytes(spec.datamatch, 8));
    assert buffer[..40] == envelope + LeBytes(spec.address, 8) + LeBytes(spec.length, 4) + LeBytes(spec.gsi, 4)
                           + LeBytes(spec.datamatch, 8);
    CopyIn(buffer, 40, LeBytes(0, 4));
    CopyIn(buffer, 44, LeBytes(0, 4));
    bytes := buffer[..];
  }

  function DecodeSpec(bytes: seq<u8>): Result<Spec, SpecCodecError> {
    if |bytes| != SPEC_LEN then Err(Truncated(|bytes|))
    else if bytes[0..8] != SPEC_MAGIC then Err(InvalidMagic)
    else if U16At(bytes, 8) != 1 then Err(UnsupportedVersion(U16At(bytes, 8)))
    else if U16At(bytes, 10) != SPEC_LEN then Err(InvalidHeaderLength(U16At(bytes, 10)))
    else if U32At(bytes, 12) != SPEC_LEN then Err(InvalidTotalLength(U32At(bytes, 12)))
    else if U32At(bytes, 40) != 0 then Err(NonZeroFlags(U32At(bytes, 40)))
    else if U32At(bytes, 44) != 0 then Err(NonZeroReserved(U32At(bytes, 44)))
    else
      match NewSpec(U64At(bytes, 16), U32At(bytes, 24), U64At(bytes, 32), U32At(bytes, 28))
      case Ok(spec) => Ok(spec)
      case Err(reason) => Err(InvalidSpec(reason))
  }

  /** Where each field of the image lies. */
  lemma SpecFields(spec: Spec)
    ensures var b := SpecImage(spec);
            && b[0..8] == SPEC_MAGIC && b[8..10] == LeBytes(1, 2) && b[10..12] == LeBytes(SPEC_LEN, 2)
            && b[12..16] == LeBytes(SPEC_LEN, 4) && b[16..24] == LeBytes(spec.address, 8)
            && b[24..28] == LeBytes(spec.length, 4) && b[28..32] == LeBytes(spec.gsi, 4)
            && b[32..40] == LeBytes(spec.datamatch, 8) && b[40..44] == LeBytes(0, 4) && b[44..48] == LeBytes(0, 4)
  {
    hide LeBytes;
  }

  /** Decoding what was encoded gives the registration back. */
  lemma SpecRoundTrip(spec: Spec)
    requires spec.Valid()
    ensures DecodeSpec(SpecImage(spec)) == Ok(spec)
  {
    hide LeBytes; hide LeValue; hide SpecImage;
    SpecFields(spec);
    LeWord(1, 2); LeWord(SPEC_LEN, 2); LeWord(SPEC_LEN, 4); LeWord(0, 4);
    LeWord(spec.address, 8); LeWord(spec.length, 4); LeWord(spec.gsi, 4); LeWord(spec.datamatch, 8);
    NewSpecExact(spec.address, spec.length, spec.datamatch, spec.gsi);
  }

  /** Whatever decodes is the one encoding of a valid registration. */
  lemma SpecCanonical(bytes: seq<u8>)
    requires DecodeSpec(bytes).Ok?
    ensures DecodeSpec(bytes).value.Valid() && SpecImage(DecodeSpec(bytes).value) == bytes
  {
    hide LeBytes; hide LeValue;
    var spec := DecodeSpec(bytes).value;
    NewSpecExact(spec.address, spec.length, spec.datamatch, spec.gsi);
    LeCanonical(bytes[8..10]); LeCanonical(bytes[10..12]); LeCanonical(bytes[12..16]);
    LeCanonical(bytes[16..24]); LeCanonical(bytes[24..28]); LeCanonical(bytes[28..32]);
    LeCanonical(bytes[32..40]); LeCanonical(bytes[40..44]); LeCanonical(bytes[44..48]);
    assert bytes == bytes[0..8] + bytes[8..10] + bytes[10..12] + bytes[12..16] + bytes[16..24]
                    + bytes[24..28] + bytes[28..32] + bytes[32..40] + bytes[40..44] + bytes[44..48];
  }

  /** For byte strings of any length, decoding succeeds exactly on the image of encoding, and then
      with the one registration encoded. */
  lemma SpecDecodesItsImage(bytes: seq<u8>)
    ensures DecodeSpec(bytes).Ok? <==> exists spec: Spec :: spec.Valid() && SpecImage(spec) == bytes
    ensures forall spec: Spec :: spec.Valid() && SpecImage(spec) == bytes ==> DecodeSpec(bytes) == Ok(spec)
  {
    hide SpecImage; hide DecodeSpec;
    if DecodeSpec(bytes).Ok? { SpecCanonical(bytes); }
    forall spec: Spec | spec.Valid() && SpecImage(spec) == bytes ensures DecodeSpec(bytes) == Ok(spec) {
      SpecRoundTrip(spec);
    }
  }

  /** A refusal names a field that is wrong, with the value found in it. */
  lemma SpecRefusalTells(bytes: seq<u8>)
    requires DecodeSpec(bytes).Err?
    ensures match DecodeSpec(bytes).error
            case Truncated(actual) => actual == |bytes| != 48
            case InvalidMagic => |bytes| == 48 && bytes[0..8] != [0x4d, 0x48, 0x56, 0x48, 0x52, 0x45, 0x47, 0]
            case UnsupportedVersion(v) => |bytes| == 48 && bytes[8..10] == LeBytes(v, 2) && v != 1
            case InvalidHeaderLength(v) => |bytes| == 48 && bytes[10..12] == LeBytes(v, 2) && v != 48
            case InvalidTotalLength(v) => |bytes| == 48 && bytes[12..16] == LeBytes(v, 4) && v != 48
            case NonZeroFlags(v) => |bytes| == 48 && bytes[40..44] == LeBytes(v, 4) && v != 0
            case NonZeroReserved(v) => |bytes| == 48 && bytes[44..48] == LeBytes(v, 4) && v != 0
            case InvalidSpec(reason) =>
              |bytes| == 48
              && NewSpec(U64At(bytes, 16), U32At(bytes, 24), U64At(bytes, 32), U32At(bytes, 28)) == Err(reason)
  {
    hide LeBytes; hide LeValue; hide NewSpec;
    if |bytes| == 48 {
      LeCanonical(bytes[8..10]); LeCanonical(bytes[10..12]); LeCanonical(bytes[12..16]);
      LeCanonical(bytes[40..44]); LeCanonical(bytes[44..48]);
    }
  }

  // ---------------------------------------------------------------- pairs

  datatype PairCodecError =
    | PairTruncated(actual: nat)
    | PairInvalidMagic
    | PairUnsupportedVersion(version: u16)
    | PairInvalidHeaderLength(header: u16)
    | PairInvalidTotalLength(total: u32)
    | InvalidRegistrationCount(count: u16)
    | PairNonZeroFlags(flags: u16)
    | PairNonZeroReserved(reserved: u32)
    | InvalidRegistrationLength(index: nat, length: u32)
    | Registration(index: nat, error: SpecCodecError)
    | NonCanonicalOrder
    | InvalidPair(reason: PairError)

  ghost function Header(): (header: seq<u8>)
    ensures |header| == HEADER_LEN
  {
    PAIR_MAGIC + LeBytes(1, 2) + LeBytes(HEADER_LEN, 2) + LeBytes(PAIR_LEN, 4) + LeBytes(2, 2)
    + LeBytes(0, 2) + LeBytes(0, 4) + LeBytes(SPEC_LEN, 4) + LeBytes(SPEC_LEN, 4)
  }

  ghost function PairImage(pair: Pair): (image: seq<u8>)
    ensures |image| == PAIR_LEN
  {
    Header() + SpecImage(pair.first) + SpecImage(pair.second)
  }

  method EncodePair(pair: Pair) returns (bytes: seq<u8>)
    ensures bytes == PairImage(pair)
  {
    hide LeBytes; hide SpecImage;
    var first := EncodeSpec(pair.first);
    var second := EncodeSpec(pair.second);
    var buffer := new u8[PAIR_LEN](_ => 0);
    CopyIn(buffer, 0, PAIR_MAGIC);
    CopyIn(buffer, 8, LeBytes(1, 2));
    CopyIn(buffer, 10, LeBytes(HEADER_LEN, 2));
    CopyIn(buffer, 12, LeBytes(PAIR_LEN, 4));
    ghost var envelope := PAIR_MAGIC + LeBytes(1, 2) + LeBytes(HEADER_LEN, 2) + LeBytes(PAIR_LEN, 4);
    assert buffer[..16] == envelope;
    CopyIn(buffer, 16, LeBytes(2, 2));
    CopyIn(buffer, 18, LeBytes(0, 2));
    CopyIn(buffer, 20, LeBytes(0, 4));
    CopyIn(buffer, 24, LeBytes(SPEC_LEN, 4));
    CopyIn(buffer, 28, LeBytes(SPEC_LEN, 4));
    assert buffer[..HEADER_LEN] == Header();
    CopyIn(buffer, HEADER_LEN, first);
    CopyIn(buffer, HEADER_LEN + SPEC_LEN, second);
    bytes := buffer[..];
  }

  function DecodePair(bytes: seq<u8>): Result<Pair, PairCodecError> {
    if |bytes| != PAIR_LEN then Err(PairTruncated(|bytes|))
    else if bytes[0..8] != PAIR_MAGIC then Err(PairInvalidMagic)
    else if U16At(bytes, 8) != 1 then Err(PairUnsupportedVersion(U16At(bytes, 8)))
    else if U16At(bytes, 10) != HEADER_LEN then Err(PairInvalidHeaderLength(U16At(bytes, 10)))
    else if U32At(bytes, 12) != PAIR_LEN then Err(PairInvalidTotalLength(U32At(bytes, 12)))
    else if U16At(bytes, 16) != 2 then Err(InvalidRegistrationCount(U16At(bytes, 16)))
    else if U16At(bytes, 18) != 0 then Err(PairNonZeroFlags(U16At(bytes, 18)))
    else if U32At(bytes, 20) != 0 then Err(PairNonZeroReserved(U32At(bytes, 20)))
    else if U32At(bytes, 24) != SPEC_LEN then Err(InvalidRegistrationLength(0, U32At(bytes, 24)))
    else if U32At(bytes, 28) != SPEC_LEN then Err(InvalidRegistrationLength(1, U32At(bytes, 28)))
    else DecodeMembers(bytes[32..80], bytes[80..])
  }

  /** Both members decode, in ascending doorbell order, to descriptors that form a pair. */
  function DecodeMembers(firstBytes: seq<u8>, secondBytes: seq<u8>): Result<Pair, PairCodecError> {
    match DecodeSpec(firstBytes)
    case Err(error) => Err(Registration(0, error))
    case Ok(first) =>
      match DecodeSpec(secondBytes)
      case Err(error) => Err(Registration(1, error))
      case Ok(second) =>
        if first.address >= second.address then Err(NonCanonicalOrder)
        else
          match NewPair(first, second)
          case Err(reason) => Err(InvalidPair(reason))
          case Ok(pair) => if pair != Pair(first, second) then Err(NonCanonicalOrder) else Ok(pair)
  }

  lemma HeaderFields()
    ensures var b := Header();
            && b[0..8] == PAIR_MAGIC && b[8..10] == LeBytes(1, 2) && b[10..12] == LeBytes(HEADER_LEN, 2)
            && b[12..16] == LeBytes(PAIR_LEN, 4) && b[16..18] == LeBytes(2, 2) && b[18..20] == LeBytes(0, 2)
            && b[20..24] == LeBytes(0, 4) && b[24..28] == LeBytes(SPEC_LEN, 4) && b[28..32] == LeBytes(SPEC_LEN, 4)
  {
    hide LeBytes;
    var member := LeBytes(SPEC_LEN, 4);
    assert Header() == Header()[..28] + member;
    assert forall i :: 0 <= i < 4 ==> Header()[28 + i] == member[i];
  }

  /** Field reads of the header are field reads of the whole string. */
  lemma HeaderReads(bytes: seq<u8>)
    requires |bytes| == PAIR_LEN
    ensures var h := bytes[..HEADER_LEN];
            && bytes[0..8] == h[0..8] && bytes[8..10] == h[8..10] && bytes[10..12] == h[10..12]
            && bytes[12..16] == h[12..16] && bytes[16..18] == h[16..18] && bytes[18..20] == h[18..20]
            && bytes[20..24] == h[20..24] && bytes[24..28] == h[24..28] && bytes[28..32] == h[28..32]
  {
  }

  lemma PairRoundTrip(pair: Pair)
    requires pair.Valid()
    ensures DecodePair(PairImage(pair)) == Ok(pair)
  {
    hide LeBytes; hide LeValue; hide Header; hide SpecImage; hide DecodeSpec;
    var b := PairImage(pair);
    assert b[..HEADER_LEN] == Header() && b[32..80] == SpecImage(pair.first) && b[80..] == SpecImage(pair.second);
    HeaderReads(b);
    HeaderFields();
    LeWord(1, 2); LeWord(HEADER_LEN, 2); LeWord(PAIR_LEN, 4); LeWord(2, 2); LeWord(0, 2); LeWord(0, 4);
    LeWord(SPEC_LEN, 4);
    SpecRoundTrip(pair.first);
    SpecRoundTrip(pair.second);
    NewPairIdempotent(pair);
  }

  lemma HeaderCanonical(bytes: seq<u8>)
    requires DecodePair(bytes).Ok?
    ensures bytes[..HEADER_LEN] == Header()
  {
    hide LeBytes; hide LeValue; hide DecodeMembers;
    LeCanonical(bytes[8..10]); LeCanonical(bytes[10..12]); LeCanonical(bytes[12..16]); LeCanonical(bytes[16..18]);
    LeCanonical(bytes[18..20]); LeCanonical(bytes[20..24]); LeCanonical(bytes[24..28]); LeCanonical(bytes[28..32]);
    assert bytes[..HEADER_LEN] == bytes[0..8] + bytes[8..10] + bytes[10..12] + bytes[12..16] + bytes[16..18]
                                  + bytes[18..20] + bytes[20..24] + bytes[24..28] + bytes[28..32];
  }

  lemma PairCanonical(bytes: seq<u8>)
    requires DecodePair(bytes).Ok?
    ensures DecodePair(bytes).value.Valid() && PairImage(DecodePair(bytes).value) == bytes
  {
    hide U16At; hide U32At; hide DecodeSpec; hide Header; hide SpecImage;
    var pair := DecodePair(bytes).value;
    HeaderCanonical(bytes);
    SpecCanonical(bytes[32..80]);
    SpecCanonical(bytes[80..]);
    NewPairIdempotent(pair);
    assert bytes == bytes[..HEADER_LEN] + bytes[32..80] + bytes[80..];
  }

  /** The pair format, like the nested one, decodes exactly its own image, for byte strings of any
      length; and materialising what was decoded never fails. */
  lemma PairDecodesItsImage(bytes: seq<u8>)
    ensures DecodePair(bytes).Ok? <==> exists pair: Pair :: pair.Valid() && PairImage(pair) == bytes
    ensures forall pair: Pair :: pair.Valid() && PairImage(pair) == bytes ==> DecodePair(bytes) == Ok(pair)
    ensures DecodePair(bytes).Ok? ==>
              NewPair(DecodePair(bytes).value.first, DecodePair(bytes).value.second) == Ok(DecodePair(bytes).value)
  {
    hide PairImage; hide DecodePair; hide NewPair;
    if DecodePair(bytes).Ok? {
      PairCanonical(bytes);
      NewPairIdempotent(DecodePair(bytes).value);
    }
    forall pair: Pair | pair.Valid() && PairImage(pair) == bytes ensures DecodePair(bytes) == Ok(pair) {
      PairRoundTrip(pair);
    }
  }

  /** The same for a pair, where a member's own refusal comes with its position. */
  lemma PairRefusalTells(bytes: seq<u8>)
    requires |bytes| == 128 && DecodePair(bytes).Err?
    ensures match DecodePair(bytes).error
            case PairTruncated(_) => false
            case PairInvalidMagic => bytes[0..8] != [0x4d, 0x48, 0x56, 0x48, 0x52, 0x32, 0, 0]
            case PairUnsupportedVersion(v) => bytes[8..10] == LeBytes(v, 2) && v != 1
            case PairInvalidHeaderLength(v) => bytes[10..12] == LeBytes(v, 2) && v != 32
            case PairInvalidTotalLength(v) => bytes[12..16] == LeBytes(v, 4) && v != 128
            case InvalidRegistrationCount(v) => bytes[16..18] == LeBytes(v, 2) && v != 2
            case PairNonZeroFlags(v) => bytes[18..20] == LeBytes(v, 2) && v != 0
            case PairNonZeroReserved(v) => bytes[20..24] == LeBytes(v, 4) && v != 0
            case InvalidRegistrationLength(i, v) =>
              i < 2 && bytes[24 + 4 * i..28 + 4 * i] == LeBytes(v, 4) && v != 48
            case Registration(i, error) => i < 2 && DecodeSpec(bytes[32 + 48 * i..80 + 48 * i]) == Err(error)
            case NonCanonicalOrder =>
              && DecodeSpec(bytes[32..80]).Ok? && DecodeSpec(bytes[80..128]).Ok?
              && DecodeSpec(bytes[32..80]).value.address >= DecodeSpec(bytes[80..128]).value.address
            case InvalidPair(reason) =>
              && DecodeSpec(bytes[32..80]).Ok? && DecodeSpec(bytes[80..128]).Ok?
              && NewPair(DecodeSpec(bytes[32..80]).value, DecodeSpec(bytes[80..128]).value) == Err(reason)
  {
    hide LeBytes; hide LeValue; hide DecodeSpec;
    LeCanonical(bytes[8..10]); LeCanonical(bytes[10..12]); LeCanonical(bytes[12..16]); LeCanonical(bytes[16..18]);
    LeCanonical(bytes[18..20]); LeCanonical(bytes[20..24]); LeCanonical(bytes[24..28]); LeCanonical(bytes[28..32]);
    assert bytes[80..] == bytes[80..128];
  }

  /** Any two descriptors that pair up survive encode, decode and materialise, in either order. */
  lemma ConstructedPairsDecode(a: Spec, b: Spec)
    requires a.Valid() && b.Valid() && NewPair(a, b).Ok?
    ensures DecodePair(PairImage(NewPair(a, b).value)) == Ok(NewPair(b, a).Extract())
  {
    NewPairExact(a, b);
    PairRoundTrip(NewPair(a, b).value);
  }
}
