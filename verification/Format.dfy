/** The wire format byte by byte: where each field of an encoded packet stands, which bit each
    flag is, and how many bytes signatures and keys take. */
module Format {
  import opened Serial
  import opened Packets
  import opened Codec
  import opened CodecProofs
  import opened Connections
  import Handshake
  import Teardown

  // ----- numbers -----

  /** The number that some bytes spell, most significant first. */
  function BigEndian(b: seq<byte>): nat {
    if b == [] then 0 else 256 * BigEndian(b[..|b| - 1]) + b[|b| - 1]
  }

  lemma TwoBytes(b: seq<byte>)
    requires |b| == 2
    ensures BigEndian(b) == (b[0] as int) * 256 + b[1]
  {
    assert b[..1][..0] == [] && b[..1][0] == b[0];
    assert BigEndian(b[..1]) == 256 * BigEndian([]) + b[0];
  }

  lemma FourBytes(b: seq<byte>)
    requires |b| == 4
    ensures BigEndian(b) == (((b[0] as int) * 256 + b[1]) * 256 + b[2]) * 256 + b[3]
  {
    TwoBytes(b[..2]);
    assert b[..3][..2] == b[..2];
    assert BigEndian(b[..3]) == 256 * BigEndian(b[..2]) + b[2];
  }

  /** Numbers are written and read most significant byte first. */
  lemma NumbersAreBigEndian(x: u16, y: u32, b: seq<byte>)
    ensures BigEndian(Be16(x)) == x && BigEndian(Be32(y)) == y
    ensures |b| >= 2 ==> Read16(b) == BigEndian(b[..2])
    ensures |b| >= 4 ==> Read32(b) == BigEndian(b[..4])
  {
    TwoBytes(Be16(x));
    FourBytes(Be32(y));
    Be32Of(y);
    if |b| >= 2 { TwoBytes(b[..2]); }
    if |b| >= 4 { FourBytes(b[..4]); }
  }

  // ----- flags -----

  /** Bit i of a number, the least significant one being bit 0. */
  predicate BitAt(x: nat, i: nat) {
    if i == 0 then x % 2 == 1 else BitAt(x / 2, i - 1)
  }

  function Place(f: Flag): nat {
    match f
    case Syn => 0
    case Close => 1
    case Reset => 2
    case Signed => 3
    case From => 5
    case Delay => 6
    case MaxSize => 7
    case Interactive => 8
    case NoAck => 10
    case Offline => 11
  }

  /** Each flag is the bit at its place. */
  lemma FlagsAreBits(flags: u16, f: Flag)
    ensures Has(flags, f) <==> BitAt(flags, Place(f))
  {
    Shifted(flags, Place(f));
    hide BitAt;
  }

  lemma {:induction false} Shifted(x: nat, i: nat)
    ensures i == 0 ==> (BitAt(x, i) <==> (x / 1) % 2 == 1)
    ensures i == 1 ==> (BitAt(x, i) <==> (x / 2) % 2 == 1)
    ensures i == 2 ==> (BitAt(x, i) <==> (x / 4) % 2 == 1)
    ensures i == 3 ==> (BitAt(x, i) <==> (x / 8) % 2 == 1)
    ensures i == 4 ==> (BitAt(x, i) <==> (x / 16) % 2 == 1)
    ensures i == 5 ==> (BitAt(x, i) <==> (x / 32) % 2 == 1)
    ensures i == 6 ==> (BitAt(x, i) <==> (x / 64) % 2 == 1)
    ensures i == 7 ==> (BitAt(x, i) <==> (x / 128) % 2 == 1)
    ensures i == 8 ==> (BitAt(x, i) <==> (x / 256) % 2 == 1)
    ensures i == 9 ==> (BitAt(x, i) <==> (x / 512) % 2 == 1)
    ensures i == 10 ==> (BitAt(x, i) <==> (x / 1024) % 2 == 1)
    ensures i == 11 ==> (BitAt(x, i) <==> (x / 2048) % 2 == 1)
  {
    if i > 0 {
      Halved(x);
      Shifted(x / 2, i - 1);
      BitStep(x, i);
    }
    hide BitAt;
  }

  lemma BitStep(x: nat, i: nat)
    requires i > 0
    ensures BitAt(x, i) == BitAt(x / 2, i - 1)
  {
  }

  lemma Halved(x: nat)
    ensures (x / 2) / 2 == x / 4
    ensures (x / 2) / 4 == x / 8
    ensures (x / 2) / 8 == x / 16
    ensures (x / 2) / 16 == x / 32
    ensures (x / 2) / 32 == x / 64
    ensures (x / 2) / 64 == x / 128
    ensures (x / 2) / 128 == x / 256
    ensures (x / 2) / 256 == x / 512
    ensures (x / 2) / 512 == x / 1024
    ensures (x / 2) / 1024 == x / 2048
  {
  }

  // ----- the header -----

  /** The required fields of an encoded packet: four numbers of four bytes, the count of the
      NACKs, the NACKs, the resend delay, the flags and the size of the options cut to 16 bits;
      then the options, then the payload. */
  lemma HeaderLayout(p: Packet, data: seq<byte>)
    requires Encode(p) == Ok(data)
    ensures var n := |p.nacks|;
            && |data| == 22 + 4 * n + OptionSize(p) + |p.payload|
            && BigEndian(data[0..4]) == p.sendStreamID && BigEndian(data[4..8]) == p.recvStreamID
            && BigEndian(data[8..12]) == p.sequenceNum && BigEndian(data[12..16]) == p.ackThrough
            && data[16] == n
            && (forall i | 0 <= i < n :: BigEndian(data[17 + 4 * i..21 + 4 * i]) == p.nacks[i])
            && data[17 + 4 * n] == p.resendDelay
            && BigEndian(data[18 + 4 * n..20 + 4 * n]) == p.flags
            && BigEndian(data[20 + 4 * n..22 + 4 * n]) == OptionSize(p) % 0x1_0000
            && data[22 + 4 * n..22 + 4 * n + OptionSize(p)] == OptionBytes(p)
            && data[22 + 4 * n + OptionSize(p)..] == p.payload
  {
    hide *;
    var n, size := |p.nacks|, OptionSize(p) % 0x1_0000;
    EncodedOk(p);
    EncodedParts(p);
    OptionSizeIsLength(p);
    var rest := OptionBytes(p) + p.payload;
    HeaderForward(p, size, rest);
    Slices(Header(p, size), OptionBytes(p), p.payload);
    ReadAt(data);
    WordsAt(data);
    Without(p);
    forall i | 0 <= i < n ensures BigEndian(data[17 + 4 * i..21 + 4 * i]) == p.nacks[i] {
      NackAt(data, n, i);
    }
  }

  lemma EncodedOk(p: Packet)
    requires Encode(p).Ok?
    ensures MarshalError(p).None?
  {
    hide MarshalError, Header, OptionBytes;
  }

  lemma ReadAt(data: seq<byte>)
    requires |data| >= 22 && |data| >= 22 + 4 * data[16] as int
    ensures var h, n := ReadHeader(data), data[16] as int;
            && h.sendStreamID == Read32(data) && h.recvStreamID == Read32(data[4..])
            && h.sequenceNum == Read32(data[8..]) && h.ackThrough == Read32(data[12..])
            && h.nacks == ReadNacks(data[17..], n) && h.resendDelay == data[17 + 4 * n]
            && h.flags == Read16(data[18 + 4 * n..]) && ReadOptionSize(data) == Read16(data[20 + 4 * n..])
  {
    hide Read16, Read32, ReadNacks;
  }

  lemma Word16At(data: seq<byte>, i: nat)
    requires |data| >= i + 2
    ensures Read16(data[i..]) == BigEndian(data[i..i + 2])
  {
    NumbersAreBigEndian(0, 0, data[i..]);
    hide BigEndian, Read16;
    assert data[i..][..2] == data[i..i + 2];
  }

  lemma Word32At(data: seq<byte>, i: nat)
    requires |data| >= i + 4
    ensures Read32(data[i..]) == BigEndian(data[i..i + 4])
  {
    NumbersAreBigEndian(0, 0, data[i..]);
    hide BigEndian, Read32;
    assert data[i..][..4] == data[i..i + 4];
  }

  lemma WordsAt(data: seq<byte>)
    requires |data| >= 22 && |data| >= 22 + 4 * data[16] as int
    ensures var n := data[16] as int;
            && Read32(data) == BigEndian(data[0..4]) && Read32(data[4..]) == BigEndian(data[4..8])
            && Read32(data[8..]) == BigEndian(data[8..12]) && Read32(data[12..]) == BigEndian(data[12..16])
            && Read16(data[18 + 4 * n..]) == BigEndian(data[18 + 4 * n..20 + 4 * n])
            && Read16(data[20 + 4 * n..]) == BigEndian(data[20 + 4 * n..22 + 4 * n])
  {
    hide *;
    var n := data[16] as int;
    assert data[0..] == data;
    Word32At(data, 0);
    Word32At(data, 4);
    Word32At(data, 8);
    Word32At(data, 12);
    Word16At(data, 18 + 4 * n);
    Word16At(data, 20 + 4 * n);
  }

  lemma {:induction false} NackAt(data: seq<byte>, n: nat, i: nat)
    requires |data| >= 17 + 4 * n && i < n
    ensures ReadNacks(data[17..], n)[i] == BigEndian(data[17 + 4 * i..21 + 4 * i])
  {
    hide BigEndian, Read32;
    if i < n - 1 {
      NackAt(data, n - 1, i);
    } else {
      assert data[17..][4 * i..] == data[17 + 4 * i..];
      Word32At(data, 17 + 4 * i);
    }
  }

  lemma Without(p: Packet)
    ensures var h := WithoutOptions(p);
            && h.sendStreamID == p.sendStreamID && h.recvStreamID == p.recvStreamID && h.sequenceNum == p.sequenceNum
            && h.ackThrough == p.ackThrough && h.nacks == p.nacks && h.resendDelay == p.resendDelay && h.flags == p.flags
  {
  }

  /** When an input is refused before any option is read: it is shorter than the shortest packet,
      or than its NACKs, or than the options it announces. */
  lemma RefusedExactly(data: seq<byte>)
    requires Readable(data)
    ensures Decode(data) == Err(TooShort) <==> |data| < 22
    ensures Decode(data) == Err(TooShortForNacks) <==> |data| >= 22 && |data| < 17 + 4 * data[16] as int
    ensures Decode(data) == Err(TooShortForOptions) <==>
              && |data| >= 22 && |data| >= 17 + 4 * data[16] as int
              && var n := data[16] as int; |data| < 22 + 4 * n + BigEndian(data[20 + 4 * n..22 + 4 * n])
  {
    hide *;
    ShortInputs(data);
    OfOptionsIs();
    if |data| >= 22 && |data| >= 17 + 4 * data[16] as int {
      var n := data[16] as int;
      ReadAt(data);
      Word16At(data, 20 + 4 * n);
      LongInputs(data);
    }
  }

  lemma ShortInputs(data: seq<byte>)
    requires Readable(data)
    ensures |data| < 22 ==> Decode(data) == Err(TooShort)
    ensures |data| >= 22 && |data| < 17 + 4 * data[16] as int ==> Decode(data) == Err(TooShortForNacks)
    ensures |data| >= 22 && |data| >= 17 + 4 * data[16] as int ==> |data| >= 22 + 4 * data[16] as int
  {
    hide TakeOptions, ReadHeader, ReadOptionSize;
  }

  lemma LongInputs(data: seq<byte>)
    requires Readable(data) && |data| >= 22 && |data| >= 22 + 4 * data[16] as int
    ensures var end := 22 + 4 * data[16] as int + ReadOptionSize(data);
            && (|data| < end ==> Decode(data) == Err(TooShortForOptions))
            && (|data| >= end && Decode(data).Err? ==> OfOptions(Decode(data).error))
  {
    hide *;
    var start := 22 + 4 * data[16] as int;
    ParseLong(data, start, start + ReadOptionSize(data));
    DecodeError(data);
    if |data| >= start + ReadOptionSize(data) {
      OptionErrors(ReadHeader(data), data[start..start + ReadOptionSize(data)]);
    }
  }

  lemma OfOptionsIs()
    ensures forall e :: OfOptions(e) <==> e != TooShort && e != TooShortForNacks && e != TooShortForOptions
  {
  }

  predicate OfOptions(e: Error) {
    e != TooShort && e != TooShortForNacks && e != TooShortForOptions
  }

  lemma DecodeError(data: seq<byte>)
    requires Readable(data)
    ensures Decode(data).Err? <==> Parse(data).Err?
    ensures Decode(data).Err? ==> Decode(data) == Err(Parse(data).error)
  {
    hide Parse;
  }

  lemma ParseLong(data: seq<byte>, start: nat, end: nat)
    requires Readable(data) && |data| >= 22 && |data| >= 22 + 4 * data[16] as int
    requires start == 22 + 4 * data[16] as int && end == start + ReadOptionSize(data)
    ensures |data| < end ==> Parse(data) == Err(TooShortForOptions)
    ensures |data| >= end ==>
              var taken := TakeOptions(ReadHeader(data), data[start..end]);
              taken.Err? ==> Parse(data) == Err(taken.error)
    ensures |data| >= end && Parse(data).Err? ==> TakeOptions(ReadHeader(data), data[start..end]).Err?
  {
    hide TakeOptions, ReadHeader, ReadOptionSize;
  }

  lemma OptionErrors(h: Packet, area: seq<byte>)
    ensures TakeOptions(h, area).Err? ==> OfOptions(TakeOptions(h, area).error)
  {
    hide Has, ParseDestination, SignatureLength, PublicKeyLength, Read16, Read32;
  }

  // ----- the options -----

  /** The options, each only if flagged: delay (two bytes), FROM, maximum size (two bytes), the
      offline signature (four bytes of expiry, two of key type, key, signature), and last the
      signature, or zeros in its place. */
  lemma OptionLayout(p: Packet)
    requires MarshalError(p).None?
    ensures var o := OptionBytes(p);
            var a := if Has(p.flags, Flag.Delay) then 2 else 0;
            var b := a + if Has(p.flags, Flag.From) then |Serialize(p.from.value)| else 0;
            var c := b + if Has(p.flags, Flag.MaxSize) then 2 else 0;
            var d := c + if Has(p.flags, Flag.Offline)
                         then 6 + |p.offline.value.transientPublicKey| + |p.offline.value.destSignature| else 0;
            && a <= b <= c <= d <= |o|
            && (Has(p.flags, Flag.Delay) ==> BigEndian(o[0..a]) == p.optionalDelay)
            && (Has(p.flags, Flag.From) ==> o[a..b] == Serialize(p.from.value))
            && (Has(p.flags, Flag.MaxSize) ==> BigEndian(o[b..c]) == p.maxPacketSize)
            && (Has(p.flags, Flag.Offline) ==>
                  && BigEndian(o[c..c + 4]) == p.offline.value.expires
                  && BigEndian(o[c + 4..c + 6]) == p.offline.value.transientSigType
                  && o[c + 6..d] == p.offline.value.transientPublicKey + p.offline.value.destSignature)
            && o[d..] == (if !Has(p.flags, Flag.Signed) then [] else if p.signature != [] then p.signature
                          else Zeros(SignatureLength(p.from)))
  {
    hide *;
    var s0, s1, s2, s3, s4 := DelayBytes(p), FromBytes(p), MaxSizeBytes(p), OfflineBytes(p), SignatureBytes(p);
    FieldBytes(p);
    OptionsOf(p);
    var o, a, b, c, d := OptionBytes(p), |s0|, |s0 + s1|, |s0 + s1 + s2|, |s0 + s1 + s2 + s3|;
    FiveParts(o, s0, s1, s2, s3, s4);
    if Has(p.flags, Flag.Offline) {
      WithinSlice(o, c, d);
    }
  }

  lemma FiveParts(o: seq<byte>, s0: seq<byte>, s1: seq<byte>, s2: seq<byte>, s3: seq<byte>, s4: seq<byte>)
    requires o == s0 + s1 + s2 + s3 + s4
    ensures var a, b, c, d := |s0|, |s0 + s1|, |s0 + s1 + s2|, |s0 + s1 + s2 + s3|;
            o[0..a] == s0 && o[a..b] == s1 && o[b..c] == s2 && o[c..d] == s3 && o[d..] == s4
  {
  }

  lemma WithinSlice(o: seq<byte>, c: nat, d: nat)
    requires c + 6 <= d <= |o|
    ensures o[c..c + 4] == o[c..d][..4] && o[c + 4..c + 6] == o[c..d][4..6] && o[c + 6..d] == o[c..d][6..]
  {
    Within(o, c, d, 0, 4);
    Within(o, c, d, 4, 6);
    Within(o, c, d, 6, d - c);
    var m := o[c..d];
    assert m[6..] == m[6..d - c] && m[..4] == m[0..4];
  }

  lemma Within(o: seq<byte>, c: nat, d: nat, i: nat, j: nat)
    requires i <= j && c + j <= d <= |o|
    ensures o[c..d][i..j] == o[c + i..c + j]
  {
    var m, p, q := o[c..d], o[c..d][i..j], o[c + i..c + j];
    forall n | 0 <= n < j - i ensures p[n] == q[n] {
      assert p[n] == m[i + n] == o[c + (i + n)];
    }
    assert |p| == |q| == j - i;
  }

  lemma OptionsOf(p: Packet)
    ensures OptionBytes(p) == DelayBytes(p) + FromBytes(p) + MaxSizeBytes(p) + OfflineBytes(p) + SignatureBytes(p)
  {
    hide DelayBytes, FromBytes, MaxSizeBytes, OfflineBytes, SignatureBytes;
  }

  lemma FieldBytes(p: Packet)
    requires MarshalError(p).None?
    ensures Has(p.flags, Flag.From) ==> p.from.Some? && FromBytes(p) == Serialize(p.from.value)
    ensures Has(p.flags, Flag.Delay) ==> |DelayBytes(p)| == 2 && BigEndian(DelayBytes(p)) == p.optionalDelay
    ensures Has(p.flags, Flag.MaxSize) ==> |MaxSizeBytes(p)| == 2 && BigEndian(MaxSizeBytes(p)) == p.maxPacketSize
    ensures !Has(p.flags, Flag.From) ==> FromBytes(p) == []
    ensures !Has(p.flags, Flag.Delay) ==> DelayBytes(p) == []
    ensures !Has(p.flags, Flag.MaxSize) ==> MaxSizeBytes(p) == []
    ensures !Has(p.flags, Flag.Offline) ==> OfflineBytes(p) == []
    ensures Has(p.flags, Flag.Offline) ==>
              && p.offline.Some?
              && var q := OfflineBytes(p);
                 |q| == 6 + |p.offline.value.transientPublicKey| + |p.offline.value.destSignature|
                 && BigEndian(q[..4]) == p.offline.value.expires && BigEndian(q[4..6]) == p.offline.value.transientSigType
                 && q[6..] == p.offline.value.transientPublicKey + p.offline.value.destSignature
    ensures SignatureBytes(p) == (if !Has(p.flags, Flag.Signed) then [] else if p.signature != [] then p.signature
                                  else Zeros(SignatureLength(p.from)))
  {
    NumbersAreBigEndian(p.optionalDelay, 0, []);
    NumbersAreBigEndian(p.maxPacketSize, 0, []);
    if p.offline.Some? {
      var o := p.offline.value;
      NumbersAreBigEndian(o.transientSigType, o.expires, []);
      hide Be16, Be32, BigEndian;
      var q := Be32(o.expires) + Be16(o.transientSigType) + o.transientPublicKey + o.destSignature;
      assert q[..4] == Be32(o.expires) && q[4..6] == Be16(o.transientSigType);
      assert q[6..] == o.transientPublicKey + o.destSignature;
    }
    hide Be16, Be32, BigEndian, Has, SignatureLength, PublicKeyLength;
  }

  /** A destination is written as its keys, the type of the certificate, two bytes of length and
      the certificate's data. */
  lemma DestinationLayout(d: Destination)
    ensures var b := Serialize(d);
            && |b| == 387 + |d.certData|
            && b[..384] == d.keys && b[384] == d.certType
            && BigEndian(b[385..387]) == |d.certData| && b[387..] == d.certData
  {
    NumbersAreBigEndian(|d.certData|, 0, []);
    hide Be16, BigEndian;
    assert Serialize(d)[385..387] == Be16(|d.certData|);
  }

  // ----- signatures and keys -----

  /** The length of a signature by the signature type, and that of a public key. */
  const SignatureSizes: seq<nat> := [40, 64, 96, 132, 256, 384, 512]
  const KeySizes: seq<nat> := [128, 64, 96, 132, 256, 384, 512, 32, 32]

  /** The number of signature bytes that every destination calls for: 40 (DSA) without a
      certificate; by the first two bytes of a KEY certificate otherwise; and 64 (Ed25519) for
      every other type and certificate. */
  lemma SignatureSizeExactly(d: Destination)
    ensures d.certType == 0 ==> SignatureLength(Some(d)) == 40
    ensures d.certType == 5 && |d.certData| >= 4 ==>
              var t := BigEndian(d.certData[..2]);
              SignatureLength(Some(d)) == if t < 7 then SignatureSizes[t] else 64
    ensures d.certType != 0 && !(d.certType == 5 && |d.certData| >= 4) ==> SignatureLength(Some(d)) == 64
  {
    if |d.certData| >= 2 { NumbersAreBigEndian(0, 0, d.certData); }
    hide BigEndian, Read16;
  }

  lemma KeySizeExactly(t: u16)
    ensures PublicKeyLength(t) == if t < 9 then KeySizes[t] else 0
  {
  }

  /** So what Unmarshal takes: whenever it succeeds, the signatures of a destination with a KEY
      certificate have the length of the type in its first two bytes, and a transient key that
      of its own type, which is one of the nine known ones. */
  lemma UnmarshalTakes(data: seq<byte>)
    requires Readable(data) && Decode(data).Ok?
    ensures var p := Decode(data).value;
            && (Has(p.flags, Flag.Signed) ==> p.from.Some? && SignedBy(p.from.value, p.signature))
            && (Has(p.flags, Flag.Offline) ==>
                  && p.from.Some? && p.offline.Some?
                  && SignedBy(p.from.value, p.offline.value.destSignature)
                  && p.offline.value.transientSigType < 9
                  && |p.offline.value.transientPublicKey| == KeySizes[p.offline.value.transientSigType])
  {
    hide *;
    DecodeIs(data);
    ParsedIsCanonical(data);
    var p := Decode(data).value;
    CanonicalMeans(p);
    if p.from.Some? {
      SignatureSizeExactly(p.from.value);
      SignedByIs(p.from.value, p.signature);
      if p.offline.Some? {
        SignedByIs(p.from.value, p.offline.value.destSignature);
        KeySizeExactly(p.offline.value.transientSigType);
      }
    }
  }

  /** The signature has the length of the destination's type. */
  predicate SignedBy(d: Destination, signature: seq<byte>) {
    |signature| == if d.certType == 0 then 40
                   else if d.certType == 5 && |d.certData| >= 4 && BigEndian(d.certData[..2]) < 7
                   then SignatureSizes[BigEndian(d.certData[..2])]
                   else 64
  }

  lemma SignedByIs(d: Destination, signature: seq<byte>)
    ensures SignedBy(d, signature) <==> |signature| == SignatureLength(Some(d))
  {
    SignatureSizeExactly(d);
    hide SignatureLength, BigEndian;
  }

  lemma CanonicalMeans(p: Packet)
    requires Canonical(p)
    ensures Has(p.flags, Flag.Signed) ==> p.from.Some? && |p.signature| == SignatureLength(p.from)
    ensures Has(p.flags, Flag.Offline) <==> p.offline.Some?
    ensures p.offline.Some? ==>
              && p.from.Some? && PublicKeyLength(p.offline.value.transientSigType) != 0
              && |p.offline.value.transientPublicKey| == PublicKeyLength(p.offline.value.transientSigType)
              && |p.offline.value.destSignature| == SignatureLength(p.from)
  {
    hide Has, SignatureLength, PublicKeyLength;
  }

  // ----- Ed25519 -----

  /** A destination with the usual KEY certificate: signature type 7, Ed25519. */
  predicate IsEd25519(d: Destination) {
    d.certType == 5 && |d.certData| == 4 && d.certData[..2] == [0, 7]
  }

  lemma Ed25519Size(d: Destination)
    requires IsEd25519(d)
    ensures SignatureLength(Some(d)) == 64 && |Serialize(d)| == 391
  {
    TwoBytes(d.certData[..2]);
    SignatureSizeExactly(d);
    hide SignatureLength;
  }

  /** The handshake between two Ed25519 destinations survives the wire with signatures of 64
      bytes. */
  lemma Ed25519HandshakeSurvives(s: Handshake.Setup, p: Packet)
    requires p == Handshake.SynOf(s) || p == Handshake.SynAckOf(s)
             || p == Handshake.FinalAckPacket(Handshake.ClientOf(s))
    requires |s.hash| == 8 && IsEd25519(s.a.dest) && IsEd25519(s.b.dest)
    requires |s.a.signature| == |s.b.signature| == 64
    ensures Encode(p).Ok? && Readable(Encode(p).value) && Decode(Encode(p).value) == Ok(p)
  {
    hide *;
    Ed25519Size(s.a.dest);
    Ed25519Size(s.b.dest);
    SmallOptions(s, p);
    Handshake.HandshakePacketsSurvive(s, p);
  }

  lemma SmallOptions(s: Handshake.Setup, p: Packet)
    requires p == Handshake.SynOf(s) || p == Handshake.SynAckOf(s)
             || p == Handshake.FinalAckPacket(Handshake.ClientOf(s))
    requires IsEd25519(s.a.dest) && IsEd25519(s.b.dest)
    ensures OptionSize(p) < 0x1_0000
  {
    Ed25519Size(s.a.dest);
    Ed25519Size(s.b.dest);
    hide Has, SignatureLength, PublicKeyLength, Wrap, Handshake.OfferedMTU, Handshake.Uint16;
  }

  /** So does the CLOSE of one; any other signature length makes Marshal fail. */
  lemma Ed25519CloseSurvives(c: Conn, d: Destination, signature: seq<byte>)
    requires IsEd25519(d)
    ensures var p := Teardown.ClosePacket(c, d, signature);
            && (|signature| == 64 ==> Encode(p).Ok? && Readable(Encode(p).value) && Decode(Encode(p).value) == Ok(p))
            && (signature != [] && |signature| != 64 ==> Encode(p) == Err(SignatureLengthMismatch))
  {
    var p := Teardown.ClosePacket(c, d, signature);
    Ed25519Size(d);
    Teardown.CloseFlags();
    hide Wrap, SignatureLength, PublicKeyLength, Has, Header, OptionBytes, Decode, Serialize, Readable;
    if |signature| == 64 {
      assert OptionSize(p) < 0x1_0000;
      assert Canonical(p);
      UnmarshalUndoesMarshal(p);
    }
  }

  /** The handshake's packets, field by field. The SYN carries no ACK, no stream of the peer, and
      the hash of the peer's destination in place of NACKs; the SYN-ACK acknowledges the SYN; the
      final ACK acknowledges the SYN-ACK. Both offer their own MTU, cut to 16 bits. */
  lemma HandshakeFields(s: Handshake.Setup)
    requires Handshake.Sensible(s)
    ensures var p := Handshake.SynOf(s);
            && p.sendStreamID == 0 && p.recvStreamID == s.a.id && p.sequenceNum == s.a.isn && p.ackThrough == 0
            && p.nacks == s.hash && p.from == Some(s.a.dest) && p.signature == s.a.signature
            && p.maxPacketSize == s.a.mtu && p.payload == []
            && forall f :: Has(p.flags, f) <==> f in {Flag.Syn, Flag.Signed, Flag.From, Flag.MaxSize, Flag.NoAck}
                                                || (f == Flag.Interactive && s.a.interactive)
    ensures var p := Handshake.SynAckOf(s);
            && p.sendStreamID == s.b.id && p.recvStreamID == s.a.id && p.sequenceNum == s.b.isn
            && p.ackThrough == s.a.isn && p.nacks == [] && p.from == Some(s.b.dest) && p.signature == s.b.signature
            && p.maxPacketSize == s.b.mtu % 0x1_0000 && p.payload == []
            && forall f :: Has(p.flags, f) <==> f in {Flag.Syn, Flag.Signed, Flag.From, Flag.MaxSize}
                                                || (f == Flag.Interactive && s.b.interactive)
    ensures var p := Handshake.FinalAckPacket(Handshake.ClientOf(s));
            && p.sendStreamID == s.a.id && p.recvStreamID == s.b.id && p.sequenceNum == 0
            && p.ackThrough == s.b.isn && p.nacks == [] && p.payload == [] && p.flags == 0
  {
    Predecessor(s.a.isn);
    Predecessor(s.b.isn);
    SynFlagSets();
    hide Has, Wrap, Handshake.OfferedMTU;
  }

  lemma Predecessor(k: u32)
    ensures Wrap(Wrap(k + 1) - 1) == k
  {
  }

  lemma SynFlagSets()
    ensures forall f :: Has(Handshake.SYN_FLAGS, f) <==> f in {Flag.Syn, Flag.Signed, Flag.From, Flag.MaxSize, Flag.NoAck}
    ensures forall f :: Has(1449, f)
                        <==> f in {Flag.Syn, Flag.Signed, Flag.From, Flag.MaxSize, Flag.NoAck, Flag.Interactive}
    ensures forall f :: Has(Handshake.SYN_ACK_FLAGS, f) <==> f in {Flag.Syn, Flag.Signed, Flag.From, Flag.MaxSize}
    ensures forall f :: Has(425, f)
                        <==> f in {Flag.Syn, Flag.Signed, Flag.From, Flag.MaxSize, Flag.Interactive}
  {
  }
}
