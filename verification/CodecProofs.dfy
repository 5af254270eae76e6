/** Unmarshal undoes Marshal on exactly the packets that Unmarshal can produce, and
    Marshal undoes Unmarshal on exactly the inputs whose option area is filled. */
module CodecProofs {
  import opened Serial
  import opened Packets
  import opened Codec

  /** What a caller must respect for a packet to survive the wire: an optional field is
      set exactly when its flag is, a signature or offline signature comes with FROM, the
      lengths agree with the key types, and the option area fits its 16-bit size. */
  predicate Canonical(p: Packet) {
    && |p.nacks| <= 255
    && CanonicalOptions(p)
    && OptionSize(p) < 0x1_0000
  }

  predicate CanonicalOptions(p: Packet) {
    && (!Has(p.flags, Flag.Delay) ==> p.optionalDelay == 0)
    && (Has(p.flags, Flag.From) <==> p.from.Some?)
    && (!Has(p.flags, Flag.MaxSize) ==> p.maxPacketSize == 0)
    && CanonicalOffline(p.flags, p.from, p.offline)
    && CanonicalSignature(p.flags, p.from, p.signature)
  }

  predicate CanonicalOffline(flags: u16, from: Option<Destination>, offline: Option<OfflineSig>) {
    && (Has(flags, Flag.Offline) <==> offline.Some?)
    && (offline.Some? ==>
          && from.Some?
          && PublicKeyLength(offline.value.transientSigType) != 0
          && |offline.value.transientPublicKey| == PublicKeyLength(offline.value.transientSigType)
          && |offline.value.destSignature| == SignatureLength(from))
  }

  predicate CanonicalSignature(flags: u16, from: Option<Destination>, signature: seq<byte>) {
    if Has(flags, Flag.Signed) then from.Some? && |signature| == SignatureLength(from) else signature == []
  }

  lemma CanonicalMarshals(p: Packet)
    requires |p.nacks| <= 255 && CanonicalOptions(p)
    ensures MarshalError(p).None?
    ensures OptionSize(p) == |OptionBytes(p)|
  {
    OptionSizeIsLength(p);
  }

  // ----- NACKs -----

  lemma {:induction false} NacksForward(nacks: seq<u32>, rest: seq<byte>)
    ensures ReadNacks(NackBytes(nacks) + rest, |nacks|) == nacks
  {
    hide *;
    NackBytesStep(nacks);
    ReadNacksStep(NackBytes(nacks) + rest, |nacks|);
    if nacks != [] {
      var n := |nacks| - 1;
      var before, word := NackBytes(nacks[..n]), Be32(nacks[n]);
      NacksForward(nacks[..n], word + rest);
      Be32RoundTrip(nacks[n], rest);
      Regroup3(before, word, rest);
      Behind(before, word + rest);
    }
  }

  lemma NackBytesStep(nacks: seq<u32>)
    ensures nacks != [] ==> NackBytes(nacks) == NackBytes(nacks[..|nacks| - 1]) + Be32(nacks[|nacks| - 1])
  {
    hide Be32;
  }

  lemma ReadNacksStep(data: seq<byte>, n: nat)
    requires |data| >= 4 * n
    ensures ReadNacks(data, n) == if n == 0 then [] else ReadNacks(data, n - 1) + [Read32(data[4 * (n - 1)..])]
  {
    hide Read32;
  }

  lemma Behind(a: seq<byte>, b: seq<byte>)
    ensures (a + b)[|a|..] == b
  {
  }

  lemma {:induction false} NacksBackward(data: seq<byte>, n: nat)
    requires |data| >= 4 * n
    ensures NackBytes(ReadNacks(data, n)) == data[..4 * n]
  {
    hide *;
    NacksStep(data, n);
    if n > 0 {
      NacksBackward(data, n - 1);
      var word := data[4 * (n - 1)..];
      Be32RoundTrip(0, word);
      assert word[..4] == data[4 * (n - 1)..4 * n];
      assert data[..4 * n] == data[..4 * (n - 1)] + data[4 * (n - 1)..4 * n];
    } else {
      assert data[..0] == [];
    }
  }

  lemma NacksStep(data: seq<byte>, n: nat)
    requires |data| >= 4 * n
    ensures n == 0 ==> NackBytes(ReadNacks(data, n)) == []
    ensures n > 0 ==> NackBytes(ReadNacks(data, n))
                      == NackBytes(ReadNacks(data, n - 1)) + Be32(Read32(data[4 * (n - 1)..]))
  {
    hide Be32, Read32;
    if n > 0 {
      assert ReadNacks(data, n)[..n - 1] == ReadNacks(data, n - 1);
    }
  }

  // ----- one option field at a time -----

  lemma Field16(x: u16, rest: seq<byte>)
    ensures (Be16(x) + rest)[2..] == rest && Read16(Be16(x) + rest) == x
    ensures |rest| >= 2 ==> Be16(Read16(rest)) + rest[2..] == rest
  {
    Be16RoundTrip(x, rest);
  }

  lemma DelayForward(p: Packet, rest: seq<byte>)
    requires !Has(p.flags, Flag.Delay) ==> p.optionalDelay == 0
    ensures TakeDelay(p.flags, DelayBytes(p) + rest) == Ok((p.optionalDelay, rest))
  {
    Field16(p.optionalDelay, rest);
    assert [] + rest == rest;
  }

  lemma DelayBackward(p: Packet, area: seq<byte>)
    requires TakeDelay(p.flags, area).Ok? && TakeDelay(p.flags, area).value.0 == p.optionalDelay
    ensures !Has(p.flags, Flag.Delay) ==> p.optionalDelay == 0
    ensures area == DelayBytes(p) + TakeDelay(p.flags, area).value.1
  {
    Field16(0, area);
  }

  lemma MaxSizeForward(p: Packet, rest: seq<byte>)
    requires !Has(p.flags, Flag.MaxSize) ==> p.maxPacketSize == 0
    ensures TakeMaxSize(p.flags, MaxSizeBytes(p) + rest) == Ok((p.maxPacketSize, rest))
  {
    Field16(p.maxPacketSize, rest);
    assert [] + rest == rest;
  }

  lemma MaxSizeBackward(p: Packet, area: seq<byte>)
    requires TakeMaxSize(p.flags, area).Ok? && TakeMaxSize(p.flags, area).value.0 == p.maxPacketSize
    ensures !Has(p.flags, Flag.MaxSize) ==> p.maxPacketSize == 0
    ensures area == MaxSizeBytes(p) + TakeMaxSize(p.flags, area).value.1
  {
    Field16(0, area);
  }

  lemma FromForward(p: Packet, rest: seq<byte>)
    requires Has(p.flags, Flag.From) <==> p.from.Some?
    ensures TakeFrom(p.flags, FromBytes(p) + rest) == Ok((p.from, rest))
  {
    if p.from.Some? {
      DestinationRoundTrip(p.from.value, rest);
    } else {
      assert [] + rest == rest;
    }
  }

  lemma FromBackward(p: Packet, area: seq<byte>)
    requires TakeFrom(p.flags, area).Ok? && TakeFrom(p.flags, area).value.0 == p.from
    ensures Has(p.flags, Flag.From) <==> p.from.Some?
    ensures area == FromBytes(p) + TakeFrom(p.flags, area).value.1
  {
    if Has(p.flags, Flag.From) {
      ParsedDestinationIsPrefix(area);
    }
  }

  lemma OfflineForward(p: Packet, rest: seq<byte>)
    requires CanonicalOffline(p.flags, p.from, p.offline)
    ensures TakeOffline(p.flags, p.from, OfflineBytes(p) + rest) == Ok((p.offline, rest))
  {
    if p.offline.Some? {
      var o := p.offline.value;
      var tail := o.transientPublicKey + o.destSignature + rest;
      var area := OfflineBytes(p) + rest;
      assert area == Be32(o.expires) + (Be16(o.transientSigType) + tail);
      Be32RoundTrip(o.expires, Be16(o.transientSigType) + tail);
      assert area[4..] == Be16(o.transientSigType) + tail;
      Be16RoundTrip(o.transientSigType, tail);
      OfflineTail(area, o, rest);
    } else {
      assert [] + rest == rest;
    }
  }

  lemma OfflineTail(area: seq<byte>, o: OfflineSig, rest: seq<byte>)
    requires |area| >= 6 && area[6..] == o.transientPublicKey + o.destSignature + rest
    ensures var k := |o.transientPublicKey|; var s := |o.destSignature|;
            && |area| >= 6 + k + s
            && area[6..6 + k] == o.transientPublicKey
            && area[6 + k..6 + k + s] == o.destSignature
            && area[6 + k + s..] == rest
  {
    var k, s := |o.transientPublicKey|, |o.destSignature|;
    assert area[6..6 + k] == area[6..][..k];
    assert area[6 + k..6 + k + s] == area[6..][k..k + s];
    assert area[6 + k + s..] == area[6..][k + s..];
  }

  lemma OfflineBackward(p: Packet, area: seq<byte>)
    requires TakeOffline(p.flags, p.from, area).Ok? && TakeOffline(p.flags, p.from, area).value.0 == p.offline
    ensures CanonicalOffline(p.flags, p.from, p.offline)
    ensures area == OfflineBytes(p) + TakeOffline(p.flags, p.from, area).value.1
  {
    if p.offline.Some? {
      var o := p.offline.value;
      var k, s := |o.transientPublicKey|, |o.destSignature|;
      Be32RoundTrip(0, area);
      Be16RoundTrip(0, area[4..]);
      assert area[4..][..2] == area[4..6];
      assert area == area[..4] + area[4..6] + area[6..6 + k] + area[6 + k..6 + k + s] + area[6 + k + s..];
    }
  }

  lemma SignatureForward(p: Packet, rest: seq<byte>)
    requires CanonicalSignature(p.flags, p.from, p.signature)
    ensures TakeSignature(p.flags, p.from, SignatureBytes(p) + rest) == Ok((p.signature, rest))
  {
    if Has(p.flags, Flag.Signed) {
      assert (p.signature + rest)[..|p.signature|] == p.signature;
      assert (p.signature + rest)[|p.signature|..] == rest;
    } else {
      assert [] + rest == rest;
    }
  }

  lemma SignatureBackward(p: Packet, area: seq<byte>)
    requires TakeSignature(p.flags, p.from, area).Ok? && TakeSignature(p.flags, p.from, area).value.0 == p.signature
    ensures CanonicalSignature(p.flags, p.from, p.signature)
    ensures area == SignatureBytes(p) + TakeSignature(p.flags, p.from, area).value.1
  {
  }

  // ----- the option area -----

  /** The packet before its options are read. */
  function WithoutOptions(p: Packet): Packet {
    p.(optionalDelay := 0, maxPacketSize := 0, from := None, signature := [], offline := None, payload := [])
  }

  lemma OptionsForward(p: Packet, rest: seq<byte>)
    requires CanonicalOptions(p)
    ensures TakeOptions(WithoutOptions(p), OptionBytes(p) + rest) == Ok((p.(payload := []), rest))
  {
    var r4 := SignatureBytes(p) + rest;
    var r3 := OfflineBytes(p) + r4;
    var r2 := MaxSizeBytes(p) + r3;
    var r1 := FromBytes(p) + r2;
    var r0 := DelayBytes(p) + r1;
    DelayForward(p, r1);
    FromForward(p, r2);
    MaxSizeForward(p, r3);
    OfflineForward(p, r4);
    SignatureForward(p, rest);
    hide Has, DelayBytes, FromBytes, MaxSizeBytes, OfflineBytes, SignatureBytes;
    hide TakeDelay, TakeFrom, TakeMaxSize, TakeOffline, TakeSignature, CanonicalOffline, CanonicalSignature;
    RegroupSix(DelayBytes(p), FromBytes(p), MaxSizeBytes(p), OfflineBytes(p), SignatureBytes(p), rest);
  }

  /** Whatever is parsed without error is canonical, and the area is its option bytes
      followed by what was left over. */
  lemma OptionsBackward(h: Packet, area: seq<byte>)
    requires TakeOptions(h, area).Ok?
    ensures var (p, unused) := TakeOptions(h, area).value;
            CanonicalOptions(p) && area == OptionBytes(p) + unused
  {
    hide Has, DelayBytes, FromBytes, MaxSizeBytes, OfflineBytes, SignatureBytes;
    hide TakeDelay, TakeFrom, TakeMaxSize, TakeOffline, TakeSignature, CanonicalOffline, CanonicalSignature;
    var (p, unused) := TakeOptions(h, area).value;
    var r1 := TakeDelay(h.flags, area).value.1;
    var r2 := TakeFrom(h.flags, r1).value.1;
    var r3 := TakeMaxSize(h.flags, r2).value.1;
    var r4 := TakeOffline(h.flags, p.from, r3).value.1;
    DelayBackward(p, area);
    FromBackward(p, r1);
    MaxSizeBackward(p, r2);
    OfflineBackward(p, r3);
    SignatureBackward(p, r4);
    RegroupSix(DelayBytes(p), FromBytes(p), MaxSizeBytes(p), OfflineBytes(p), SignatureBytes(p), unused);
  }

  lemma RegroupSix(a: seq<byte>, b: seq<byte>, c: seq<byte>, d: seq<byte>, e: seq<byte>, f: seq<byte>)
    ensures a + (b + (c + (d + (e + f)))) == ((a + b + c + d) + e) + f
  {
  }

  // ----- the header -----

  // The header from each field on, and what follows it.

  function FromFlags(p: Packet, size: u16, rest: seq<byte>): seq<byte> {
    Be16(p.flags) + (Be16(size) + rest)
  }

  function FromNacks(p: Packet, size: u16, rest: seq<byte>): seq<byte> {
    NackBytes(p.nacks) + ([p.resendDelay] + FromFlags(p, size, rest))
  }

  function FromAck(p: Packet, size: u16, rest: seq<byte>): seq<byte>
    requires |p.nacks| <= 255
  {
    Be32(p.ackThrough) + ([|p.nacks|] + FromNacks(p, size, rest))
  }

  function FromSequence(p: Packet, size: u16, rest: seq<byte>): seq<byte>
    requires |p.nacks| <= 255
  {
    Be32(p.sequenceNum) + FromAck(p, size, rest)
  }

  lemma HeaderRegrouped(p: Packet, size: u16, rest: seq<byte>)
    requires |p.nacks| <= 255
    ensures Header(p, size) + rest
            == Be32(p.sendStreamID) + (Be32(p.recvStreamID) + FromSequence(p, size, rest))
  {
    hide Be16, Be32, NackBytes;
  }

  lemma StreamIDsForward(p: Packet, size: u16, rest: seq<byte>)
    requires |p.nacks| <= 255
    ensures var data := Header(p, size) + rest;
            && |data| >= 8 && data[8..] == FromSequence(p, size, rest)
            && Read32(data) == p.sendStreamID && Read32(data[4..]) == p.recvStreamID
  {
    hide *;
    var tail := FromSequence(p, size, rest);
    var data := Header(p, size) + rest;
    HeaderRegrouped(p, size, rest);
    Be32RoundTrip(p.sendStreamID, Be32(p.recvStreamID) + tail);
    Be32RoundTrip(p.recvStreamID, tail);
    assert data[4..] == Be32(p.recvStreamID) + tail;
    assert data[8..] == data[4..][4..];
  }

  lemma NumbersForward(p: Packet, size: u16, rest: seq<byte>)
    requires |p.nacks| <= 255
    ensures var tail := FromSequence(p, size, rest);
            && |tail| >= 9 && tail[8] == |p.nacks| && tail[9..] == FromNacks(p, size, rest)
            && Read32(tail) == p.sequenceNum && Read32(tail[4..]) == p.ackThrough
  {
    hide Be16, Be32, NackBytes, Read32, FromNacks;
    var n: byte := |p.nacks|;
    var tail := FromSequence(p, size, rest);
    var more := FromNacks(p, size, rest);
    Be32RoundTrip(p.sequenceNum, FromAck(p, size, rest));
    Be32RoundTrip(p.ackThrough, [n] + more);
    assert tail[4..] == Be32(p.ackThrough) + ([n] + more);
    assert tail[8..] == tail[4..][4..] == [n] + more;
    assert tail[8] == tail[8..][0] && tail[9..] == tail[8..][1..];
  }

  lemma NackFieldForward(p: Packet, size: u16, rest: seq<byte>)
    ensures var tail := FromNacks(p, size, rest);
            var n := |p.nacks|;
            && |tail| >= 5 + 4 * n && tail[4 * n] == p.resendDelay && tail[4 * n + 1..] == FromFlags(p, size, rest)
            && ReadNacks(tail, n) == p.nacks
  {
    hide Be16, NackBytes, ReadNacks;
    var flags := FromFlags(p, size, rest);
    var tail := FromNacks(p, size, rest);
    NacksForward(p.nacks, [p.resendDelay] + flags);
    assert tail[4 * |p.nacks|..] == [p.resendDelay] + flags;
    assert tail[4 * |p.nacks|] == tail[4 * |p.nacks|..][0];
    assert tail[4 * |p.nacks| + 1..] == tail[4 * |p.nacks|..][1..];
  }

  lemma FlagsForward(p: Packet, size: u16, rest: seq<byte>)
    ensures var tail := FromFlags(p, size, rest);
            && |tail| >= 4 && Read16(tail) == p.flags && Read16(tail[2..]) == size
  {
    hide Be16, Read16;
    Be16RoundTrip(p.flags, Be16(size) + rest);
    Be16RoundTrip(size, rest);
    assert FromFlags(p, size, rest)[2..] == Be16(size) + rest;
  }

  lemma HeaderForward(p: Packet, size: u16, rest: seq<byte>)
    requires |p.nacks| <= 255
    ensures var data := Header(p, size) + rest;
            && data[16] == |p.nacks| && Readable(data)
            && ReadHeader(data) == WithoutOptions(p)
            && ReadOptionSize(data) == size
  {
    hide *;
    var data := Header(p, size) + rest;
    StreamIDsForward(p, size, rest);
    NumbersForward(p, size, rest);
    NackFieldForward(p, size, rest);
    FlagsForward(p, size, rest);
    HeaderOffsets(data, data[8..], data[8..][9..], |p.nacks|);
    HeaderFields(data, p, size);
  }

  lemma HeaderOffsets(data: seq<byte>, numbers: seq<byte>, nacks: seq<byte>, n: nat)
    requires |data| >= 8 && numbers == data[8..] && |numbers| >= 9 && nacks == numbers[9..] && |nacks| >= 5 + 4 * n
    ensures data[12..] == numbers[4..] && data[16] == numbers[8] && data[17..] == nacks
    ensures data[17 + 4 * n] == nacks[4 * n] && data[18 + 4 * n..] == nacks[4 * n + 1..]
    ensures data[20 + 4 * n..] == nacks[4 * n + 1..][2..]
  {
  }

  lemma HeaderFields(data: seq<byte>, p: Packet, size: u16)
    requires var n := |p.nacks|; n <= 255 && |data| >= 22 + 4 * n && data[16] == n && data[17 + 4 * n] == p.resendDelay
    requires Read32(data) == p.sendStreamID && Read32(data[4..]) == p.recvStreamID
    requires Read32(data[8..]) == p.sequenceNum && Read32(data[12..]) == p.ackThrough
    requires ReadNacks(data[17..], |p.nacks|) == p.nacks
    requires Read16(data[18 + 4 * |p.nacks|..]) == p.flags && Read16(data[20 + 4 * |p.nacks|..]) == size
    ensures Readable(data) && ReadHeader(data) == WithoutOptions(p) && ReadOptionSize(data) == size
  {
    hide Read32, Read16, ReadNacks;
  }

  lemma HeaderBackward(data: seq<byte>)
    requires |data| >= 22 && |data| >= 22 + 4 * data[16] as int
    ensures |ReadHeader(data).nacks| <= 255
    ensures Header(ReadHeader(data), ReadOptionSize(data)) == data[..22 + 4 * data[16] as int]
  {
    var n := data[16] as int;
    var p := ReadHeader(data);
    Be32RoundTrip(0, data);
    Be32RoundTrip(0, data[4..]);
    Be32RoundTrip(0, data[8..]);
    Be32RoundTrip(0, data[12..]);
    assert FixedBytes(p) == data[..16] by {
      assert data[..16] == data[..4] + data[4..][..4] + data[8..][..4] + data[12..][..4];
    }
    NacksBackward(data[17..], n);
    Be16RoundTrip(0, data[18 + 4 * n..]);
    Be16RoundTrip(0, data[20 + 4 * n..]);
    HeaderPieces(data, n);
  }

  lemma HeaderPieces(data: seq<byte>, n: nat)
    requires |data| >= 22 + 4 * n && data[16] == n
    ensures data[..16] + [data[16]] + data[17..][..4 * n] + [data[17 + 4 * n]]
            + data[18 + 4 * n..][..2] + data[20 + 4 * n..][..2] == data[..22 + 4 * n]
  {
  }

  // ----- the two round trips -----

  lemma ParseOf(data: seq<byte>, area: seq<byte>, payload: seq<byte>)
    requires |data| >= 22 && Readable(data)
    requires var start := 22 + 4 * data[16] as int;
             && |data| >= start + |area| && ReadOptionSize(data) == |area|
             && data[start..start + |area|] == area && data[start + |area|..] == payload
    requires TakeOptions(ReadHeader(data), area).Ok?
    ensures var (q, unused) := TakeOptions(ReadHeader(data), area).value;
            Parse(data) == Ok((q.(payload := payload), unused))
  {
    hide ReadHeader, ReadOptionSize, TakeOptions;
  }

  lemma EncodedParts(p: Packet)
    requires MarshalError(p).None?
    ensures |p.nacks| <= 255
    ensures Encode(p) == Ok(Header(p, OptionSize(p) % 0x1_0000) + (OptionBytes(p) + p.payload))
  {
    MarshalNeedsFewNacks(p);
    Regroup3(Header(p, OptionSize(p) % 0x1_0000), OptionBytes(p), p.payload);
    hide Header, OptionBytes, OptionSize, MarshalError;
  }

  lemma MarshalNeedsFewNacks(p: Packet)
    requires MarshalError(p).None?
    ensures |p.nacks| <= 255
  {
    hide SizeError, OfflineError, SignatureError;
  }

  lemma EncodedAs(p: Packet)
    requires MarshalError(p).None? && OptionSize(p) < 0x1_0000
    ensures Encode(p) == Ok(Header(p, OptionSize(p)) + (OptionBytes(p) + p.payload))
  {
    hide *;
    EncodedParts(p);
  }

  lemma CanonicalEncodes(p: Packet)
    requires Canonical(p)
    ensures |p.nacks| <= 255 && OptionSize(p) == |OptionBytes(p)| < 0x1_0000
    ensures Encode(p) == Ok(Header(p, OptionSize(p)) + (OptionBytes(p) + p.payload))
  {
    CanonicalMarshals(p);
    EncodedAs(p);
  }

  lemma AllOptionsForward(p: Packet)
    requires Canonical(p)
    ensures TakeOptions(WithoutOptions(p), OptionBytes(p)) == Ok((p.(payload := []), []))
  {
    OptionsForward(p, []);
    hide *;
    assert OptionBytes(p) + [] == OptionBytes(p);
  }

  lemma ParsedBack(p: Packet)
    requires Canonical(p)
    ensures var data := Header(p, OptionSize(p)) + (OptionBytes(p) + p.payload);
            Readable(data) && Parse(data) == Ok((p, []))
  {
    hide *;
    CanonicalEncodes(p);
    AllOptionsForward(p);
    var options := OptionBytes(p);
    var head := Header(p, |options|);
    HeaderForward(p, |options|, options + p.payload);
    Slices(head, options, p.payload);
    ParseOf(head + (options + p.payload), options, p.payload);
  }

  /** Every canonical packet marshals, and unmarshalling the bytes restores every field. */
  lemma UnmarshalUndoesMarshal(p: Packet)
    requires Canonical(p)
    ensures Encode(p).Ok? && Readable(Encode(p).value)
    ensures Decode(Encode(p).value) == Ok(p)
  {
    hide *;
    CanonicalEncodes(p);
    ParsedBack(p);
    DecodeOf(Header(p, OptionSize(p)) + (OptionBytes(p) + p.payload));
  }

  lemma DecodeOf(data: seq<byte>)
    requires Readable(data) && Parse(data).Ok?
    ensures Decode(data) == Ok(Parse(data).value.0)
  {
    hide Parse;
  }

  lemma Regroup3(a: seq<byte>, b: seq<byte>, c: seq<byte>)
    ensures a + b + c == a + (b + c)
  {
  }

  lemma Slices(a: seq<byte>, b: seq<byte>, c: seq<byte>)
    ensures (a + (b + c))[|a|..|a| + |b|] == b
    ensures (a + (b + c))[|a| + |b|..] == c
  {
  }

  /** A parsed packet is canonical, and the input is its header, its options, the option
      bytes no field claimed, and its payload. */
  lemma ParsedIsCanonical(data: seq<byte>)
    requires Readable(data) && Parse(data).Ok?
    ensures var (p, unused) := Parse(data).value;
            && Canonical(p)
            && OptionSize(p) + |unused| < 0x1_0000
            && data == Header(p, OptionSize(p) + |unused|) + (OptionBytes(p) + (unused + p.payload))
  {
    hide Header, OptionBytes, OptionSize, CanonicalOptions, ReadHeader, ReadOptionSize, TakeOptions, WithoutOptions, Parse;
    ParsedFrom(data);
    var (p, unused) := Parse(data).value;
    var h := ReadHeader(data);
    var size := ReadOptionSize(data);
    var start := 22 + 4 * data[16] as int;
    HeaderBackward(data);
    AreaIsCanonical(h, data[start..start + size], p.payload);
    HeaderIgnoresOptions(h, p, size);
    FourParts(data, start, start + size, OptionBytes(p), unused);
  }

  /** How a successful parse came about. */
  ghost predicate ParsesTo(data: seq<byte>, p: Packet, unused: seq<byte>) {
    && |data| >= 22 && |data| >= 22 + 4 * data[16] as int
    && var start := 22 + 4 * data[16] as int;
       var end := start + ReadOptionSize(data);
       && end <= |data| && p.payload == data[end..]
       && p.nacks == ReadHeader(data).nacks
       && TakeOptions(ReadHeader(data), data[start..end]).Ok?
       && TakeOptions(ReadHeader(data), data[start..end]).value == (p.(payload := TakeOptions(ReadHeader(data), data[start..end]).value.0.payload), unused)
  }

  lemma ParsedFrom(data: seq<byte>)
    requires Readable(data) && Parse(data).Ok?
    ensures ParsesTo(data, Parse(data).value.0, Parse(data).value.1)
  {
    hide ReadHeader, ReadOptionSize, TakeOptions, WithoutOptions;
    var start := 22 + 4 * data[16] as int;
    TakenNacks(ReadHeader(data), data[start..start + ReadOptionSize(data)]);
  }

  lemma TakenNacks(h: Packet, area: seq<byte>)
    requires TakeOptions(h, area).Ok?
    ensures TakeOptions(h, area).value.0.nacks == h.nacks
  {
    TakenOptions(h, area);
    hide TakeOptions;
    assert WithoutOptions(TakeOptions(h, area).value.0).nacks == TakeOptions(h, area).value.0.nacks;
    assert WithoutOptions(h).nacks == h.nacks;
  }

  lemma AreaIsCanonical(h: Packet, area: seq<byte>, payload: seq<byte>)
    requires TakeOptions(h, area).Ok?
    ensures var (q, unused) := TakeOptions(h, area).value;
            var p := q.(payload := payload);
            && WithoutOptions(p) == WithoutOptions(h)
            && (|h.nacks| <= 255 ==>
                  CanonicalOptions(p) && OptionSize(p) + |unused| == |area|)
            && area == OptionBytes(p) + unused
  {
    var (q, unused) := TakeOptions(h, area).value;
    OptionsBackward(h, area);
    TakenOptions(h, area);
    PayloadIsNoOption(q, payload);
    if |h.nacks| <= 255 {
      assert WithoutOptions(q).nacks == q.nacks && WithoutOptions(h).nacks == h.nacks;
      CanonicalMarshals(q);
    }
    hide OptionBytes, OptionSize, CanonicalOptions, TakeOptions;
  }

  lemma FourParts(data: seq<byte>, i: nat, j: nat, options: seq<byte>, unused: seq<byte>)
    requires i <= j <= |data| && data[i..j] == options + unused
    ensures data == data[..i] + (options + (unused + data[j..]))
  {
    assert data == data[..i] + ((options + unused) + data[j..]);
  }

  /** Reading the options changes no header field. */
  lemma TakenOptions(h: Packet, area: seq<byte>)
    requires TakeOptions(h, area).Ok?
    ensures WithoutOptions(TakeOptions(h, area).value.0) == WithoutOptions(h)
  {
    hide TakeDelay, TakeFrom, TakeMaxSize, TakeOffline, TakeSignature, Has;
  }

  lemma PayloadIsNoOption(p: Packet, payload: seq<byte>)
    ensures OptionBytes(p.(payload := payload)) == OptionBytes(p)
    ensures OptionSize(p.(payload := payload)) == OptionSize(p)
    ensures CanonicalOptions(p.(payload := payload)) == CanonicalOptions(p)
  {
    hide Has, SignatureLength, PublicKeyLength;
  }

  lemma HeaderIgnoresOptions(p: Packet, q: Packet, size: u16)
    requires |p.nacks| <= 255 && WithoutOptions(p) == WithoutOptions(q)
    ensures Header(p, size) == Header(q, size)
  {
    assert WithoutOptions(p).nacks == p.nacks && WithoutOptions(q).nacks == q.nacks;
    hide Be16, Be32, NackBytes;
  }

  /** Marshalling the parsed packet restores the input if and only if the option fields
      fill the option area exactly. */
  lemma MarshalUndoesUnmarshal(data: seq<byte>)
    requires Readable(data) && Parse(data).Ok?
    ensures Encode(Parse(data).value.0) == Ok(data) <==> Parse(data).value.1 == []
  {
    hide *;
    var (p, unused) := Parse(data).value;
    ParsedIsCanonical(data);
    CanonicalEncodes(p);
    if unused == [] {
      assert unused + p.payload == p.payload;
    }
  }

  /** The canonical packets are exactly what Unmarshal can return. */
  lemma CanonicalExactly(p: Packet)
    ensures Canonical(p) <==> exists data :: Readable(data) && Decode(data) == Ok(p)
  {
    if Canonical(p) {
      UnmarshalUndoesMarshal(p);
    }
    forall data | Readable(data) && Decode(data) == Ok(p)
      ensures Canonical(p)
    {
      ParsedIsCanonical(data);
    }
  }

  /** Which inputs these are: a canonical packet's header, with the size of its options and of any
      number of bytes behind them; the options; these bytes; and the payload. */
  lemma DecodeExactly(data: seq<byte>, p: Packet)
    requires Readable(data)
    ensures Decode(data) == Ok(p) <==> exists unused :: Carries(data, p, unused)
  {
    hide Decode, Carries;
    if Decode(data) == Ok(p) {
      DecodeIs(data);
      CarriesParsed(data);
    }
    forall unused | Carries(data, p, unused) ensures Decode(data) == Ok(p) {
      CarriedIsParsed(data, p, unused);
    }
  }

  ghost predicate Carries(data: seq<byte>, p: Packet, unused: seq<byte>) {
    && Canonical(p) && OptionSize(p) + |unused| < 0x1_0000
    && data == Header(p, OptionSize(p) + |unused|) + (OptionBytes(p) + (unused + p.payload))
  }

  lemma DecodeIs(data: seq<byte>)
    requires Readable(data) && Decode(data).Ok?
    ensures Parse(data).Ok? && Parse(data).value.0 == Decode(data).value
  {
    hide Parse;
  }

  lemma CarriesParsed(data: seq<byte>)
    requires Readable(data) && Parse(data).Ok?
    ensures Carries(data, Parse(data).value.0, Parse(data).value.1)
  {
    ParsedIsCanonical(data);
    hide Canonical, OptionSize, Header, OptionBytes, Parse;
  }

  lemma CarriesIs(data: seq<byte>, p: Packet, unused: seq<byte>)
    requires Carries(data, p, unused)
    ensures Canonical(p) && |p.nacks| <= 255 && OptionSize(p) + |unused| < 0x1_0000
    ensures data == Header(p, OptionSize(p) + |unused|) + (OptionBytes(p) + (unused + p.payload))
  {
    hide OptionSize, Header, OptionBytes, CanonicalOptions;
  }

  lemma CanonicalIs(p: Packet)
    requires Canonical(p)
    ensures CanonicalOptions(p)
  {
    hide OptionSize, CanonicalOptions;
  }

  lemma CarriedIsParsed(data: seq<byte>, p: Packet, unused: seq<byte>)
    requires Readable(data) && Carries(data, p, unused)
    ensures Decode(data) == Ok(p)
  {
    hide *;
    CarriesIs(data, p, unused);
    CanonicalIs(p);
    CanonicalEncodes(p);
    OptionsForward(p, unused);
    var size, area := OptionSize(p) + |unused|, OptionBytes(p) + unused;
    Regroup3(OptionBytes(p), unused, p.payload);
    HeaderForward(p, size, area + p.payload);
    Slices(Header(p, size), area, p.payload);
    ParseOf(data, area, p.payload);
    DecodeOf(data);
  }

  /** Which packets marshal, and the first error otherwise: those whose flagged fields are there, that have at most 255 NACKs,
      and whose keys and signatures have the lengths of their types. */
  lemma EncodeExactly(p: Packet)
    ensures Encode(p).Ok? <==>
              && (Has(p.flags, Flag.From) ==> p.from.Some?)
              && (Has(p.flags, Flag.Signed) ==>
                    p.from.Some? && (p.signature == [] || |p.signature| == SignatureLength(p.from)))
              && (Has(p.flags, Flag.Offline) ==>
                    && p.offline.Some?
                    && |p.offline.value.transientPublicKey| == PublicKeyLength(p.offline.value.transientSigType)
                    && |p.offline.value.destSignature| == SignatureLength(p.from))
              && |p.nacks| <= 255
    ensures Encode(p).Err? ==>
              Encode(p).error
              == if Has(p.flags, Flag.From) && p.from.None? then NoFromDestination
                 else if Has(p.flags, Flag.Signed) && p.from.None? then NoSignatureLength
                 else if Has(p.flags, Flag.Offline) && p.offline.None? then NoOfflineSignature
                 else if |p.nacks| > 255 then TooManyNacks
                 else if Has(p.flags, Flag.Offline)
                         && |p.offline.value.transientPublicKey| != PublicKeyLength(p.offline.value.transientSigType)
                 then TransientKeyLength
                 else if Has(p.flags, Flag.Offline) && |p.offline.value.destSignature| != SignatureLength(p.from)
                 then DestSignatureLength
                 else SignatureLengthMismatch
  {
    hide Has, SignatureLength, PublicKeyLength, Header, OptionBytes, OptionSize;
  }

  /** A packet survives the wire if and only if it is canonical. */
  lemma RoundTripExactly(p: Packet)
    requires Encode(p).Ok? && Readable(Encode(p).value)
    ensures Decode(Encode(p).value) == Ok(p) <==> Canonical(p)
  {
    CanonicalExactly(p);
    if Canonical(p) {
      UnmarshalUndoesMarshal(p);
    }
  }
}
