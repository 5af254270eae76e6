/** The bytes that crypto.go signs and the bytes it verifies. Key operations are
    parameters; what matters here is which bytes they are given. */
module Signing {
  import opened Serial
  import opened Packets
  import opened Codec
  import opened CodecProofs

  function Zeroed(data: seq<byte>, offset: nat, n: nat): seq<byte>
    requires offset + n <= |data|
  {
    data[..offset] + Zeros(n) + data[offset + n..]
  }

  /** Where the signature starts, added up from flags and tables. */
  function SignatureOffset(p: Packet): nat {
    22 + 4 * |p.nacks|
    + (if Has(p.flags, Flag.Delay) then 2 else 0)
    + FromSize(p)
    + (if Has(p.flags, Flag.MaxSize) then 2 else 0)
    + OfflineSize(p)
  }

  function ZeroedAtSignature(encoded: Result<seq<byte>>, offset: nat, sigLen: nat): Result<seq<byte>> {
    match encoded
    case Err(e) => Err(e)
    case Ok(data) => if offset + sigLen > |data| then Err(SignatureOutOfRange) else Ok(Zeroed(data, offset, sigLen))
  }

  /** What is handed to the signing key. */
  function SigningBytes(p: Packet): Result<seq<byte>> {
    ZeroedAtSignature(Encode(p), SignatureOffset(p), SignatureLength(p.from))
  }

  /** What is handed to the verification key. */
  function VerifyingBytes(p: Packet): Result<seq<byte>> {
    ZeroedAtSignature(Encode(p.(signature := Zeros(|p.signature|))), SignatureOffset(p), |p.signature|)
  }

  // ----- the methods of crypto.go -----

  method FindSignatureOffset(p: Packet) returns (offset: nat)
    ensures offset == SignatureOffset(p)
    ensures MarshalError(p).None? ==> offset == 22 + 4 * |p.nacks| + |BeforeSignature(p)|
  {
    offset := 22;
    offset := offset + |p.nacks| * 4;
    if Has(p.flags, Flag.Delay) { offset := offset + 2; }
    if Has(p.flags, Flag.From) && p.from.Some? { offset := offset + |Serialize(p.from.value)|; }
    if Has(p.flags, Flag.MaxSize) { offset := offset + 2; }
    if Has(p.flags, Flag.Offline) && p.offline.Some? {
      offset := offset + 4 + 2 + PublicKeyLength(p.offline.value.transientSigType) + SignatureLength(p.from);
    }
    if MarshalError(p).None? { OffsetIsWhereMarshalPutIt(p); }
  }

  method ZeroRange(data: array<byte>, offset: nat, n: nat)
    requires offset + n <= data.Length
    modifies data
    ensures data[..] == Zeroed(old(data[..]), offset, n)
  {
    for i := 0 to n
      invariant data[..offset] == old(data[..offset])
      invariant forall k :: offset <= k < offset + i ==> data[k] == 0
      invariant data[offset + n..] == old(data[offset + n..])
    {
      data[offset + i] := 0;
    }
    assert data[offset..offset + n] == Zeros(n);
    assert data[..] == data[..offset] + data[offset..offset + n] + data[offset + n..];
  }

  method ZeroSignature(encoded: seq<byte>, offset: nat, sigLen: nat) returns (r: Result<seq<byte>>)
    ensures r == ZeroedAtSignature(Ok(encoded), offset, sigLen)
  {
    if offset + sigLen > |encoded| { return Err(SignatureOutOfRange); }
    var data := new byte[|encoded|](i requires 0 <= i < |encoded| => encoded[i]);
    assert data[..] == encoded;
    ZeroRange(data, offset, sigLen);
    r := Ok(data[..]);
  }

  method PrepareDataForSigning(p: Packet) returns (r: Result<seq<byte>>)
    ensures r == SigningBytes(p)
  {
    var data := Marshal(p);
    if data.Err? { return data; }
    var offset := FindSignatureOffset(p);
    r := ZeroSignature(data.value, offset, SignatureLength(p.from));
  }

  method MarshalWithZeroedSignature(p: Packet) returns (r: Result<seq<byte>>)
    ensures r == VerifyingBytes(p)
  {
    var data := Marshal(p.(signature := Zeros(|p.signature|)));
    if data.Err? { return data; }
    var offset := FindSignatureOffset(p);
    r := ZeroSignature(data.value, offset, |p.signature|);
  }

  /** SignPacket with the key's signing operation as a parameter. */
  method SignPacket(p: Packet, sign: seq<byte> -> seq<byte>) returns (r: Result<Packet>)
    ensures r.Ok? ==> && p.from.Some? && Has(p.flags, Flag.Signed)
                      && SigningBytes(p).Ok?
                      && r.value == p.(signature := sign(SigningBytes(p).value))
                      && |r.value.signature| == SignatureLength(p.from)
    ensures r.Err? <==> || p.from.None? || !Has(p.flags, Flag.Signed) || SigningBytes(p).Err?
                        || |sign(SigningBytes(p).value)| != SignatureLength(p.from)
  {
    if p.from.None? { return Err(NoFromDestination); }
    if !Has(p.flags, Flag.Signed) { return Err(NoSignatureLength); }
    var data := PrepareDataForSigning(p);
    if data.Err? { return Err(data.error); }
    var signature := sign(data.value);
    if |signature| != SignatureLength(p.from) { return Err(SignatureLengthMismatch); }
    r := Ok(p.(signature := signature));
  }

  // ----- the two views agree -----

  /** The independently added-up offset lands exactly where Marshal put the signature. */
  lemma OffsetIsWhereMarshalPutIt(p: Packet)
    requires MarshalError(p).None?
    ensures SignatureOffset(p) == 22 + 4 * |p.nacks| + |BeforeSignature(p)|
  {
    hide SignatureLength, PublicKeyLength;
  }

  /** The encoding of a signed packet, cut around its signature. */
  lemma EncodedAroundSignature(p: Packet)
    requires Canonical(p) && Has(p.flags, Flag.Signed)
    ensures |p.nacks| <= 255 && OptionSize(p) < 0x1_0000 && MarshalError(p).None?
    ensures |p.signature| == SignatureLength(p.from)
    ensures Encode(p) == Ok(Header(p, OptionSize(p)) + BeforeSignature(p) + p.signature + p.payload)
    ensures |Header(p, OptionSize(p)) + BeforeSignature(p)| == SignatureOffset(p)
  {
    CanonicalEncodes(p);
    CanonicalMarshals(p);
    OffsetIsWhereMarshalPutIt(p);
    SignatureLengthIsPositive(p);
    assert OptionBytes(p) == BeforeSignature(p) + p.signature;
    hide *;
    RegroupFour(Header(p, OptionSize(p)), BeforeSignature(p), p.signature, p.payload);
  }

  lemma SignatureLengthIsPositive(p: Packet)
    requires Canonical(p) && Has(p.flags, Flag.Signed)
    ensures p.signature != [] && |p.signature| == SignatureLength(p.from)
  {
  }

  lemma RegroupFour(a: seq<byte>, b: seq<byte>, c: seq<byte>, d: seq<byte>)
    ensures a + ((b + c) + d) == a + b + c + d
  {
  }

  lemma ZeroedMiddle(a: seq<byte>, b: seq<byte>, c: seq<byte>)
    ensures Zeroed(a + b + c, |a|, |b|) == a + Zeros(|b|) + c
  {
    assert (a + b + c)[..|a|] == a;
    assert (a + b + c)[|a| + |b|..] == c;
  }

  /** The signature bytes touch nothing else that Marshal or the offset looks at. */
  lemma SignatureIsOnlyItself(p: Packet, s: seq<byte>)
    requires Canonical(p) && Has(p.flags, Flag.Signed) && |s| == |p.signature|
    ensures var q := p.(signature := s);
            && Canonical(q)
            && Header(q, OptionSize(q)) == Header(p, OptionSize(p))
            && BeforeSignature(q) == BeforeSignature(p)
            && SignatureOffset(q) == SignatureOffset(p)
  {
    hide SignatureLength, PublicKeyLength, Has, Header;
    var q := p.(signature := s);
    assert WithoutOptions(p) == WithoutOptions(q);
    HeaderIgnoresOptions(p, q, OptionSize(p));
  }

  /** A canonical packet is verified on its own encoding with a blank signature. */
  lemma VerifiedOnBlankSignature(p: Packet)
    requires Canonical(p) && Has(p.flags, Flag.Signed)
    ensures VerifyingBytes(p) == Encode(p.(signature := Zeros(|p.signature|)))
  {
    var blank := p.(signature := Zeros(|p.signature|));
    SignatureIsOnlyItself(p, blank.signature);
    EncodedAroundSignature(blank);
    var prefix := Header(blank, OptionSize(blank)) + BeforeSignature(blank);
    ZeroedMiddle(prefix, blank.signature, p.payload);
    hide Encode, Header, BeforeSignature, SignatureOffset, Zeroed, Canonical, Has;
  }

  /** An unsigned packet has the same signing bytes as any signed version of it. */
  lemma SigningIgnoresOldSignature(p: Packet, s: seq<byte>)
    requires Canonical(p.(signature := s)) && Has(p.flags, Flag.Signed)
    requires p.signature == [] || |p.signature| == |s|
    ensures SigningBytes(p) == VerifyingBytes(p.(signature := s))
  {
    var q := p.(signature := s);
    VerifiedOnBlankSignature(q);
    SignatureLengthIsPositive(q);
    SignatureIsOnlyItself(q, Zeros(|s|));
    var blank := q.(signature := Zeros(|s|));
    EncodedAroundSignature(blank);
    var prefix := Header(blank, OptionSize(blank)) + BeforeSignature(blank);
    if p.signature == [] {
      EmptySignatureIsZeros(p, |s|);
      ZeroedMiddle(prefix, Zeros(|s|), p.payload);
    } else {
      SignatureIsOnlyItself(q, p.signature);
      EncodedAroundSignature(p);
      ZeroedMiddle(prefix, p.signature, p.payload);
    }
    hide Encode, Header, BeforeSignature, Zeroed, Canonical, Has, VerifyingBytes, OptionSize;
  }

  lemma EmptySignatureIsZeros(p: Packet, n: nat)
    requires p.signature == [] && Has(p.flags, Flag.Signed) && n == SignatureLength(p.from)
    ensures Encode(p) == Encode(p.(signature := Zeros(n)))
    ensures SignatureOffset(p) == SignatureOffset(p.(signature := Zeros(n)))
  {
    hide SignatureLength, PublicKeyLength, Has, Serialize, NackBytes;
  }

  /** Whatever the key answers, the receiver of the signed wire form verifies it on
      exactly the bytes the sender signed. */
  lemma SignedBytesAreVerifiedBytes(p: Packet, s: seq<byte>)
    requires Canonical(p.(signature := s)) && Has(p.flags, Flag.Signed)
    requires p.signature == [] || |p.signature| == |s|
    ensures var sent := Encode(p.(signature := s));
            && sent.Ok? && Readable(sent.value)
            && Decode(sent.value).Ok?
            && VerifyingBytes(Decode(sent.value).value) == SigningBytes(p)
            && Decode(sent.value).value.signature == s
  {
    hide *;
    UnmarshalUndoesMarshal(p.(signature := s));
    SigningIgnoresOldSignature(p, s);
  }

  // ----- which signed packets the receiver can verify -----

  /** What SignPacket does not check: without FROM, with more options than their 16-bit size
      can tell, or with an unknown transient key type, the receiver cannot parse the packet. */
  predicate ReceiverParses(p: Packet) {
    && Has(p.flags, Flag.From) && OptionSize(p) < 0x1_0000
    && (Has(p.flags, Flag.Offline) && p.offline.Some? ==> PublicKeyLength(p.offline.value.transientSigType) != 0)
  }

  /** The packet without the fields that it does not flag and so does not send. */
  function Flagged(p: Packet): Packet {
    p.(optionalDelay := if Has(p.flags, Flag.Delay) then p.optionalDelay else 0,
       maxPacketSize := if Has(p.flags, Flag.MaxSize) then p.maxPacketSize else 0,
       offline := if Has(p.flags, Flag.Offline) then p.offline else None)
  }

  lemma FlaggedEncodes(p: Packet)
    ensures MarshalError(Flagged(p)) == MarshalError(p) && OptionSize(Flagged(p)) == OptionSize(p)
    ensures Encode(Flagged(p)) == Encode(p)
    ensures SigningBytes(Flagged(p)) == SigningBytes(p)
  {
    hide *;
    FlaggedParts(p);
    if MarshalError(p).None? {
      EncodedParts(p);
      EncodedParts(Flagged(p));
      SameHeader(p, OptionSize(p) % 0x1_0000);
    } else {
      EncodesNothing(p);
      EncodesNothing(Flagged(p));
    }
    SigningOf(p);
    SigningOf(Flagged(p));
  }

  lemma FlaggedParts(p: Packet)
    ensures MarshalError(Flagged(p)) == MarshalError(p) && OptionSize(Flagged(p)) == OptionSize(p)
    ensures OptionBytes(Flagged(p)) == OptionBytes(p) && SignatureOffset(Flagged(p)) == SignatureOffset(p)
    ensures Flagged(p).payload == p.payload && Flagged(p).from == p.from && Flagged(p).nacks == p.nacks
  {
    hide SignatureLength, PublicKeyLength, Has;
  }

  lemma EncodesNothing(p: Packet)
    requires MarshalError(p).Some?
    ensures Encode(p) == Err(MarshalError(p).value)
  {
    hide MarshalError;
  }

  lemma SigningOf(p: Packet)
    ensures SigningBytes(p) == ZeroedAtSignature(Encode(p), SignatureOffset(p), SignatureLength(p.from))
  {
  }

  lemma SameHeader(p: Packet, size: u16)
    requires |p.nacks| <= 255
    ensures Header(Flagged(p), size) == Header(p, size)
  {
    hide Has;
    assert WithoutOptions(Flagged(p)) == WithoutOptions(p);
    HeaderIgnoresOptions(Flagged(p), p, size);
  }

  lemma FlaggedIsCanonical(p: Packet)
    requires MarshalError(p).None? && p.from.Some? && ReceiverParses(p)
    requires Has(p.flags, Flag.Signed) && |p.signature| == SignatureLength(p.from)
    ensures Canonical(Flagged(p))
  {
    hide SignatureLength, PublicKeyLength, Has;
  }

  lemma OptionParts(p: Packet, a: seq<byte>)
    ensures OptionBytes(p) + a
            == DelayBytes(p) + (FromBytes(p) + (MaxSizeBytes(p) + (OfflineBytes(p) + (SignatureBytes(p) + a))))
  {
    RegroupSix(DelayBytes(p), FromBytes(p), MaxSizeBytes(p), OfflineBytes(p), SignatureBytes(p), a);
    hide DelayBytes, FromBytes, MaxSizeBytes, OfflineBytes, SignatureBytes;
  }

  lemma TypeRead(p: Packet, rest: seq<byte>)
    requires Has(p.flags, Flag.Offline) && p.offline.Some?
    ensures var b := OfflineBytes(p) + rest; |b| >= 6 && Read16(b[4..]) == p.offline.value.transientSigType
  {
    var o := p.offline.value;
    var tail := o.transientPublicKey + o.destSignature + rest;
    hide Has, Be16, Be32, Read16;
    assert (OfflineBytes(p) + rest)[4..] == Be16(o.transientSigType) + tail;
    Be16RoundTrip(o.transientSigType, tail);
  }

  lemma FixedSizes(p: Packet, q: Packet)
    requires p.flags == q.flags
    ensures |DelayBytes(p)| == |DelayBytes(q)| && |MaxSizeBytes(p)| == |MaxSizeBytes(q)|
  {
    hide Has;
  }

  /** Two option areas that start alike have the same FROM and the same transient key type. */
  lemma SameFields(p: Packet, q: Packet, a: seq<byte>, b: seq<byte>)
    requires p.flags == q.flags && Has(p.flags, Flag.From) && p.from.Some? && q.from.Some?
    requires OptionBytes(p) + a == OptionBytes(q) + b
    ensures p.from == q.from
    ensures Has(p.flags, Flag.Offline) && p.offline.Some? && q.offline.Some? ==>
              p.offline.value.transientSigType == q.offline.value.transientSigType
  {
    hide *;
    OptionParts(p, a);
    OptionParts(q, b);
    FixedSizes(p, q);
    var p4, q4 := OfflineBytes(p) + (SignatureBytes(p) + a), OfflineBytes(q) + (SignatureBytes(q) + b);
    var p3, q3 := MaxSizeBytes(p) + p4, MaxSizeBytes(q) + q4;
    var p2, q2 := FromBytes(p) + p3, FromBytes(q) + q3;
    SameTails(DelayBytes(p), p2, DelayBytes(q), q2);
    FromForward(p, p3);
    FromForward(q, q3);
    SameTails(MaxSizeBytes(p), p4, MaxSizeBytes(q), q4);
    if Has(p.flags, Flag.Offline) && p.offline.Some? && q.offline.Some? {
      TypeRead(p, SignatureBytes(p) + a);
      TypeRead(q, SignatureBytes(q) + b);
    }
  }

  lemma SameTails(a: seq<byte>, b: seq<byte>, c: seq<byte>, d: seq<byte>)
    requires a + b == c + d && |a| == |c|
    ensures a == c && b == d
  {
    assert (a + b)[..|a|] == a && (c + d)[..|c|] == c;
    assert (a + b)[|a|..] == b && (c + d)[|c|..] == d;
  }

  /** Everything but FROM takes at most 1546 bytes, and FROM at most 65922. */
  lemma OptionsBesideFrom(p: Packet)
    ensures FromSize(p) <= OptionSize(p) <= FromSize(p) + 1546 && FromSize(p) <= 65922
  {
    assert SignatureLength(p.from) <= 512;
    assert forall t: u16 :: PublicKeyLength(t) <= 512;
    hide SignatureLength, PublicKeyLength, Has;
  }

  /** A signed packet that the receiver parses meets the condition. */
  lemma ParsedMeetsCondition(p: Packet)
    requires MarshalError(p).None? && p.from.Some? && Has(p.flags, Flag.Signed)
    requires Encode(p).Ok? && Readable(Encode(p).value) && Parse(Encode(p).value).Ok?
    ensures ReceiverParses(p)
  {
    hide *;
    var data, size := Encode(p).value, OptionSize(p) % 0x1_0000;
    var (d, unused) := Parse(data).value;
    EncodedParts(p);
    ParsedIsCanonical(data);
    var size', tail := OptionSize(d) + |unused|, unused + d.payload;
    CanonicalEncodes(d);
    HeaderForward(p, size, OptionBytes(p) + p.payload);
    HeaderForward(d, size', OptionBytes(d) + tail);
    SameWithoutOptions(p, d);
    HeaderIgnoresOptions(p, d, size);
    SameTails(Header(p, size), OptionBytes(p) + p.payload, Header(d, size'), OptionBytes(d) + tail);
    SignedIsFrom(d);
    SameFields(p, d, p.payload, tail);
    OptionsBesideFrom(p);
    OptionsBesideFrom(d);
    SameFromSize(p, d);
    ConditionOf(p, d);
  }

  lemma SameWithoutOptions(p: Packet, q: Packet)
    requires WithoutOptions(p) == WithoutOptions(q)
    ensures p.flags == q.flags && p.nacks == q.nacks
  {
    assert WithoutOptions(p).flags == p.flags && WithoutOptions(q).flags == q.flags;
    assert WithoutOptions(p).nacks == p.nacks && WithoutOptions(q).nacks == q.nacks;
  }

  lemma SignedIsFrom(d: Packet)
    requires Canonical(d) && Has(d.flags, Flag.Signed)
    ensures d.from.Some? && Has(d.flags, Flag.From)
  {
    hide Has, SignatureLength, PublicKeyLength;
  }

  lemma SameFromSize(p: Packet, q: Packet)
    requires p.flags == q.flags && p.from == q.from
    ensures FromSize(p) == FromSize(q)
  {
  }

  lemma ConditionOf(p: Packet, d: Packet)
    requires Canonical(d) && p.flags == d.flags && Has(p.flags, Flag.From) && OptionSize(p) < 0x1_0000
    requires MarshalError(p).None?
    requires Has(p.flags, Flag.Offline) && p.offline.Some? && d.offline.Some? ==>
               p.offline.value.transientSigType == d.offline.value.transientSigType
    ensures ReceiverParses(p)
  {
    hide Has, SignatureLength, PublicKeyLength, OptionSize;
  }

  /** Of the packets that SignPacket signs, the receiver can parse exactly those that meet
      the condition, and it verifies these on the bytes the sender signed. */
  lemma VerifiableExactly(p: Packet, s: seq<byte>)
    requires p.from.Some? && Has(p.flags, Flag.Signed) && MarshalError(p).None? && |s| == SignatureLength(p.from)
    ensures var sent := Encode(p.(signature := s));
            && sent.Ok? && Readable(sent.value)
            && (Decode(sent.value).Ok? <==> ReceiverParses(p))
            && (ReceiverParses(p) ==>
                  && VerifyingBytes(Decode(sent.value).value) == SigningBytes(p)
                  && Decode(sent.value).value.signature == s)
  {
    hide *;
    var q := p.(signature := s);
    Resigned(p, s);
    EncodedParts(q);
    HeaderForward(q, OptionSize(q) % 0x1_0000, OptionBytes(q) + q.payload);
    if ReceiverParses(p) {
      FlaggedIsCanonical(q);
      FlaggedEncodes(q);
      FlaggedEncodes(p);
      FlaggedSignature(p, s);
      SignedBytesAreVerifiedBytes(Flagged(p), s);
    }
    DecodeParses(Encode(q).value);
    if Parse(Encode(q).value).Ok? {
      ParsedMeetsCondition(q);
    }
  }

  lemma DecodeParses(data: seq<byte>)
    requires Readable(data)
    ensures Decode(data).Ok? <==> Parse(data).Ok?
  {
    hide Parse;
  }

  lemma Resigned(p: Packet, s: seq<byte>)
    requires p.from.Some? && Has(p.flags, Flag.Signed) && MarshalError(p).None? && |s| == SignatureLength(p.from)
    ensures var q := p.(signature := s);
            MarshalError(q).None? && OptionSize(q) == OptionSize(p) && (ReceiverParses(q) <==> ReceiverParses(p))
    ensures p.signature == [] || |p.signature| == |s|
  {
    hide Has, SignatureLength, PublicKeyLength;
  }

  lemma FlaggedSignature(p: Packet, s: seq<byte>)
    ensures Flagged(p.(signature := s)) == Flagged(p).(signature := s)
    ensures Flagged(p).flags == p.flags && Flagged(p).signature == p.signature
  {
    hide Has;
  }

  /** The signature covers every field: two packets verified on the same bytes differ at
      most in the signature itself. */
  lemma SignatureCoversEveryField(p: Packet, q: Packet)
    requires Canonical(p) && Has(p.flags, Flag.Signed)
    requires Canonical(q) && Has(q.flags, Flag.Signed)
    requires VerifyingBytes(p) == VerifyingBytes(q)
    ensures p == q.(signature := p.signature)
  {
    hide *;
    VerifiedOnBlankSignature(p);
    VerifiedOnBlankSignature(q);
    SignatureIsOnlyItself(p, Zeros(|p.signature|));
    SignatureIsOnlyItself(q, Zeros(|q.signature|));
    UnmarshalUndoesMarshal(p.(signature := Zeros(|p.signature|)));
    UnmarshalUndoesMarshal(q.(signature := Zeros(|q.signature|)));
  }
}
