/** The wire format of packet.go: what Marshal writes, what Unmarshal reads, and the
    two methods themselves. */
module Codec {
  import opened Serial
  import opened Packets

  // ----- the fields, as written -----

  function NackBytes(nacks: seq<u32>): (b: seq<byte>)
    ensures |b| == 4 * |nacks|
  {
    if nacks == [] then [] else NackBytes(nacks[..|nacks| - 1]) + Be32(nacks[|nacks| - 1])
  }

  function FixedBytes(p: Packet): (b: seq<byte>)
    ensures |b| == 16
  {
    Be32(p.sendStreamID) + Be32(p.recvStreamID) + Be32(p.sequenceNum) + Be32(p.ackThrough)
  }

  /** Everything in front of the option area. */
  function Header(p: Packet, optionSize: u16): (b: seq<byte>)
    requires |p.nacks| <= 255
    ensures |b| == 22 + 4 * |p.nacks|
  {
    FixedBytes(p) + [|p.nacks|] + NackBytes(p.nacks) + [p.resendDelay] + Be16(p.flags) + Be16(optionSize)
  }

  function DelayBytes(p: Packet): seq<byte> {
    if Has(p.flags, Flag.Delay) then Be16(p.optionalDelay) else []
  }

  function FromBytes(p: Packet): seq<byte> {
    if Has(p.flags, Flag.From) && p.from.Some? then Serialize(p.from.value) else []
  }

  function MaxSizeBytes(p: Packet): seq<byte> {
    if Has(p.flags, Flag.MaxSize) then Be16(p.maxPacketSize) else []
  }

  function OfflineBytes(p: Packet): seq<byte> {
    if Has(p.flags, Flag.Offline) && p.offline.Some? then
      var o := p.offline.value;
      Be32(o.expires) + Be16(o.transientSigType) + o.transientPublicKey + o.destSignature
    else []
  }

  function SignatureBytes(p: Packet): seq<byte> {
    if !Has(p.flags, Flag.Signed) then []
    else if p.signature != [] then p.signature
    else Zeros(SignatureLength(p.from))
  }

  function BeforeSignature(p: Packet): seq<byte> {
    DelayBytes(p) + FromBytes(p) + MaxSizeBytes(p) + OfflineBytes(p)
  }

  function OptionBytes(p: Packet): seq<byte> {
    BeforeSignature(p) + SignatureBytes(p)
  }

  function FromSize(p: Packet): nat {
    if Has(p.flags, Flag.From) && p.from.Some? then |Serialize(p.from.value)| else 0
  }

  function SignatureSize(p: Packet): nat {
    if Has(p.flags, Flag.Signed) then SignatureLength(p.from) else 0
  }

  function OfflineSize(p: Packet): nat {
    if Has(p.flags, Flag.Offline) && p.offline.Some?
    then 6 + PublicKeyLength(p.offline.value.transientSigType) + SignatureLength(p.from)
    else 0
  }

  /** The option size as it is computed from flags and tables, before it is cut to 16 bits. */
  function OptionSize(p: Packet): nat {
    (if Has(p.flags, Flag.Delay) then 2 else 0)
    + (if Has(p.flags, Flag.MaxSize) then 2 else 0)
    + FromSize(p) + SignatureSize(p) + OfflineSize(p)
  }

  /** The first check made while the sizes are computed that p fails, if any. */
  function SizeError(p: Packet): Option<Error> {
    if Has(p.flags, Flag.From) && p.from.None? then Some(NoFromDestination)
    else if Has(p.flags, Flag.Signed) && SignatureLength(p.from) == 0 then Some(NoSignatureLength)
    else if Has(p.flags, Flag.Offline) && p.offline.None? then Some(NoOfflineSignature)
    else None
  }

  function OfflineError(p: Packet): Option<Error> {
    if !Has(p.flags, Flag.Offline) || p.offline.None? then None
    else if |p.offline.value.transientPublicKey| != PublicKeyLength(p.offline.value.transientSigType)
    then Some(TransientKeyLength)
    else if |p.offline.value.destSignature| != SignatureLength(p.from) then Some(DestSignatureLength)
    else None
  }

  function SignatureError(p: Packet): Option<Error> {
    if Has(p.flags, Flag.Signed) && p.signature != [] && |p.signature| != SignatureLength(p.from)
    then Some(SignatureLengthMismatch)
    else None
  }

  /** The first check of Marshal that p fails, if any. */
  function MarshalError(p: Packet): Option<Error> {
    if SizeError(p).Some? then SizeError(p)
    else if |p.nacks| > 255 then Some(TooManyNacks)
    else if OfflineError(p).Some? then OfflineError(p)
    else SignatureError(p)
  }

  function Encode(p: Packet): Result<seq<byte>> {
    match MarshalError(p)
    case Some(e) => Err(e)
    case None => Ok(Header(p, OptionSize(p) % 0x1_0000) + OptionBytes(p) + p.payload)
  }

  /** A packet that passes Marshal's checks writes exactly as many option bytes as it computed. */
  lemma OptionSizeIsLength(p: Packet)
    requires MarshalError(p).None?
    ensures OptionSize(p) == |OptionBytes(p)|
  {
  }

  // ----- the fields, as read; `rest` is the unread part of the option area -----

  function ReadNacks(data: seq<byte>, n: nat): (r: seq<u32>)
    requires |data| >= 4 * n
    ensures |r| == n
  {
    if n == 0 then [] else ReadNacks(data, n - 1) + [Read32(data[4 * (n - 1)..])]
  }

  function TakeDelay(flags: u16, rest: seq<byte>): Result<(u16, seq<byte>)> {
    if !Has(flags, Flag.Delay) then Ok((0, rest))
    else if |rest| < 2 then Err(OptionTooShort)
    else Ok((Read16(rest), rest[2..]))
  }

  function TakeFrom(flags: u16, rest: seq<byte>): Result<(Option<Destination>, seq<byte>)> {
    if !Has(flags, Flag.From) then Ok((None, rest))
    else if |rest| == 0 then Err(OptionTooShort)
    else
      match ParseDestination(rest)
      case None => Err(BadDestination)
      case Some(d) =>
        ParsedDestinationIsPrefix(rest);
        Ok((Some(d), rest[|Serialize(d)|..]))
  }

  function TakeMaxSize(flags: u16, rest: seq<byte>): Result<(u16, seq<byte>)> {
    if !Has(flags, Flag.MaxSize) then Ok((0, rest))
    else if |rest| < 2 then Err(OptionTooShort)
    else Ok((Read16(rest), rest[2..]))
  }

  function TakeOffline(flags: u16, from: Option<Destination>, rest: seq<byte>): Result<(Option<OfflineSig>, seq<byte>)> {
    if !Has(flags, Flag.Offline) then Ok((None, rest))
    else if |rest| < 6 then Err(OptionTooShort)
    else
      var sigType := Read16(rest[4..]);
      var keyLen := PublicKeyLength(sigType);
      var sigLen := SignatureLength(from);
      if keyLen == 0 then Err(UnknownTransientType)
      else if |rest| < 6 + keyLen then Err(OptionTooShort)
      else if sigLen == 0 then Err(NoSignatureLength)
      else if |rest| < 6 + keyLen + sigLen then Err(OptionTooShort)
      else
        Ok((Some(OfflineSig(Read32(rest), sigType, rest[6..6 + keyLen], rest[6 + keyLen..6 + keyLen + sigLen])),
            rest[6 + keyLen + sigLen..]))
  }

  function TakeSignature(flags: u16, from: Option<Destination>, rest: seq<byte>): Result<(seq<byte>, seq<byte>)> {
    if !Has(flags, Flag.Signed) then Ok(([], rest))
    else
      var sigLen := SignatureLength(from);
      if sigLen == 0 then Err(NoSignatureLength)
      else if |rest| < sigLen then Err(OptionTooShort)
      else Ok((rest[..sigLen], rest[sigLen..]))
  }

  /** Parses the option area into the optional fields of p; the second result is what no field claimed. */
  function TakeOptions(p: Packet, area: seq<byte>): Result<(Packet, seq<byte>)> {
    match TakeDelay(p.flags, area)
    case Err(e) => Err(e)
    case Ok((delay, r1)) =>
      match TakeFrom(p.flags, r1)
      case Err(e) => Err(e)
      case Ok((from, r2)) =>
        match TakeMaxSize(p.flags, r2)
        case Err(e) => Err(e)
        case Ok((size, r3)) =>
          match TakeOffline(p.flags, from, r3)
          case Err(e) => Err(e)
          case Ok((offline, r4)) =>
            match TakeSignature(p.flags, from, r4)
            case Err(e) => Err(e)
            case Ok((sig, r5)) =>
              Ok((p.(optionalDelay := delay, from := from, maxPacketSize := size,
                     offline := offline, signature := sig), r5))
  }

  /** The inputs on which Unmarshal returns. On the others it indexes past the end, a run-time
      panic: the five bytes behind the NACKs are read without a length check. */
  predicate Readable(data: seq<byte>) {
    |data| < 22 || |data| < 17 + 4 * data[16] as int || |data| >= 22 + 4 * data[16] as int
  }

  /** The header fields, with every optional field still unset. */
  function ReadHeader(data: seq<byte>): Packet
    requires |data| >= 22 && |data| >= 22 + 4 * data[16] as int
  {
    var n := data[16] as int;
    Packet(Read32(data), Read32(data[4..]), Read32(data[8..]), Read32(data[12..]),
           Read16(data[18 + 4 * n..]), ReadNacks(data[17..], n), 0, data[17 + 4 * n], 0,
           None, [], None, [])
  }

  function ReadOptionSize(data: seq<byte>): u16
    requires |data| >= 22 && |data| >= 22 + 4 * data[16] as int
  {
    Read16(data[20 + 4 * data[16] as int..])
  }

  /** The parsed packet together with the option bytes that no field claimed. */
  function Parse(data: seq<byte>): Result<(Packet, seq<byte>)>
    requires Readable(data)
  {
    if |data| < 22 then Err(TooShort)
    else if |data| < 17 + 4 * data[16] as int then Err(TooShortForNacks)
    else
      var start := 22 + 4 * data[16] as int;
      var end := start + ReadOptionSize(data);
      if |data| < end then Err(TooShortForOptions)
      else
        match TakeOptions(ReadHeader(data), data[start..end])
        case Err(e) => Err(e)
        case Ok((p, unused)) => Ok((p.(payload := data[end..]), unused))
  }

  function Decode(data: seq<byte>): Result<Packet>
    requires Readable(data)
  {
    match Parse(data)
    case Err(e) => Err(e)
    case Ok((p, _)) => Ok(p)
  }

  // ----- Marshal and Unmarshal -----

  method MarshalNacks(nacks: seq<u32>) returns (buf: seq<byte>)
    requires |nacks| <= 255
    ensures buf == [|nacks|] + NackBytes(nacks)
  {
    buf := [|nacks|];
    for i := 0 to |nacks|
      invariant buf == [|nacks|] + NackBytes(nacks[..i])
    {
      buf := buf + Be32(nacks[i]);
      assert nacks[..i + 1][..i] == nacks[..i];
    }
    assert nacks[..|nacks|] == nacks;
  }

  method CalculateFromSize(p: Packet) returns (size: Result<nat>)
    ensures size == if Has(p.flags, Flag.From) && p.from.None? then Err(NoFromDestination) else Ok(FromSize(p))
  {
    if !Has(p.flags, Flag.From) { return Ok(0); }
    if p.from.None? { return Err(NoFromDestination); }
    size := Ok(|Serialize(p.from.value)|);
  }

  method CalculateSignatureSize(p: Packet) returns (size: Result<nat>)
    ensures size == if Has(p.flags, Flag.Signed) && SignatureLength(p.from) == 0
                    then Err(NoSignatureLength) else Ok(SignatureSize(p))
  {
    if !Has(p.flags, Flag.Signed) { return Ok(0); }
    var sigLen := SignatureLength(p.from);
    if sigLen == 0 { return Err(NoSignatureLength); }
    size := Ok(sigLen);
  }

  method CalculateOfflineSize(p: Packet) returns (size: Result<nat>)
    ensures size == if Has(p.flags, Flag.Offline) && p.offline.None?
                    then Err(NoOfflineSignature) else Ok(OfflineSize(p))
  {
    if !Has(p.flags, Flag.Offline) { return Ok(0); }
    if p.offline.None? { return Err(NoOfflineSignature); }
    size := Ok(4 + 2 + PublicKeyLength(p.offline.value.transientSigType) + SignatureLength(p.from));
  }

  method CalculateOptionSize(p: Packet) returns (size: Result<u16>)
    ensures size == match SizeError(p) case Some(e) => Err(e) case None => Ok(OptionSize(p) % 0x1_0000)
  {
    var fromLen := CalculateFromSize(p);
    if fromLen.Err? { return Err(fromLen.error); }
    var sigLen := CalculateSignatureSize(p);
    if sigLen.Err? { return Err(sigLen.error); }
    var offlineLen := CalculateOfflineSize(p);
    if offlineLen.Err? { return Err(offlineLen.error); }
    var total := CalculateTotalOptionSize(p.flags, fromLen.value, sigLen.value, offlineLen.value);
    size := Ok(total);
  }

  method CalculateTotalOptionSize(flags: u16, fromLen: nat, sigLen: nat, offlineLen: nat) returns (size: u16)
    ensures size == ((if Has(flags, Flag.Delay) then 2 else 0) + (if Has(flags, Flag.MaxSize) then 2 else 0)
                     + fromLen + sigLen + offlineLen) % 0x1_0000
  {
    size := 0;
    if Has(flags, Flag.Delay) { size := size + 2; }
    if Has(flags, Flag.MaxSize) { size := size + 2; }
    size := (size + (fromLen + sigLen + offlineLen) % 0x1_0000) % 0x1_0000;
  }

  method MarshalOffline(p: Packet, buf: seq<byte>) returns (r: Result<seq<byte>>)
    requires Has(p.flags, Flag.Offline) ==> p.offline.Some?
    ensures r == match OfflineError(p) case Some(e) => Err(e) case None => Ok(buf + OfflineBytes(p))
  {
    if !Has(p.flags, Flag.Offline) {
      assert buf + [] == buf;
      return Ok(buf);
    }
    var o := p.offline.value;
    var b := buf + Be32(o.expires);
    b := b + Be16(o.transientSigType);
    if |o.transientPublicKey| != PublicKeyLength(o.transientSigType) { return Err(TransientKeyLength); }
    b := b + o.transientPublicKey;
    if |o.destSignature| != SignatureLength(p.from) { return Err(DestSignatureLength); }
    b := b + o.destSignature;
    assert b == buf + OfflineBytes(p);
    r := Ok(b);
  }

  method MarshalSignature(p: Packet, buf: seq<byte>) returns (r: Result<seq<byte>>)
    ensures r == match SignatureError(p) case Some(e) => Err(e) case None => Ok(buf + SignatureBytes(p))
  {
    if !Has(p.flags, Flag.Signed) {
      assert buf + [] == buf;
      return Ok(buf);
    }
    if |p.signature| > 0 {
      if |p.signature| != SignatureLength(p.from) { return Err(SignatureLengthMismatch); }
      r := Ok(buf + p.signature);
    } else {
      r := Ok(buf + Zeros(SignatureLength(p.from)));
    }
  }

  /** The three option fields that cannot fail. */
  method MarshalSimpleOptions(p: Packet, buf: seq<byte>) returns (r: seq<byte>)
    requires Has(p.flags, Flag.From) ==> p.from.Some?
    ensures r == buf + (DelayBytes(p) + FromBytes(p) + MaxSizeBytes(p))
  {
    r := buf;
    if Has(p.flags, Flag.Delay) { r := r + Be16(p.optionalDelay); }
    if Has(p.flags, Flag.From) { r := r + Serialize(p.from.value); }
    if Has(p.flags, Flag.MaxSize) { r := r + Be16(p.maxPacketSize); }
  }

  method MarshalHeader(p: Packet, optionSize: u16) returns (buf: seq<byte>)
    requires |p.nacks| <= 255
    ensures buf == Header(p, optionSize)
  {
    buf := FixedBytes(p);
    var nackBytes := MarshalNacks(p.nacks);
    buf := buf + nackBytes + [p.resendDelay];
    buf := buf + Be16(p.flags);
    buf := buf + Be16(optionSize);
  }

  /** Packet.Marshal: appends field after field to one buffer. */
  method Marshal(p: Packet) returns (r: Result<seq<byte>>)
    ensures r == Encode(p)
  {
    var optionSize := CalculateOptionSize(p);
    if optionSize.Err? { return Err(optionSize.error); }
    if |p.nacks| > 255 { return Err(TooManyNacks); }
    var head := MarshalHeader(p, optionSize.value);
    var buf := MarshalSimpleOptions(p, head);
    var withOffline := MarshalOffline(p, buf);
    if withOffline.Err? { return Err(withOffline.error); }
    var withSignature := MarshalSignature(p, withOffline.value);
    if withSignature.Err? { return Err(withSignature.error); }
    Regroup(head, DelayBytes(p) + FromBytes(p) + MaxSizeBytes(p), OfflineBytes(p), SignatureBytes(p));
    r := Ok(withSignature.value + p.payload);
  }

  lemma Regroup(a: seq<byte>, b: seq<byte>, c: seq<byte>, d: seq<byte>)
    ensures a + b + c + d == a + (b + c + d)
  {
  }

  method UnmarshalNacks(data: seq<byte>, n: nat) returns (nacks: seq<u32>, offset: nat)
    requires |data| >= 17 + 4 * n
    ensures nacks == ReadNacks(data[17..], n) && offset == 17 + 4 * n
  {
    nacks, offset := [], 17;
    for i := 0 to n
      invariant offset == 17 + 4 * i && nacks == ReadNacks(data[17..], i)
    {
      assert data[17..][4 * i..] == data[offset..];
      nacks := nacks + [Read32(data[offset..])];
      offset := offset + 4;
    }
  }

  /** data[i], if it exists. */
  function ByteAt(data: seq<byte>, i: nat): Option<byte> {
    if i < |data| then Some(data[i]) else None
  }

  /** The two bytes from data[i] on, if they exist. */
  function WordAt(data: seq<byte>, i: nat): Option<u16> {
    if i + 2 <= |data| then Some(Read16(data[i..])) else None
  }

  /** The unchecked reads behind the NACKs, in order; nothing if one of them is out of range. */
  function TailAt(data: seq<byte>, offset: nat): Option<(byte, u16, u16)> {
    match (ByteAt(data, offset), WordAt(data, offset + 1), WordAt(data, offset + 3))
    case (Some(resendDelay), Some(flags), Some(optionSize)) => Some((resendDelay, flags, optionSize))
    case _ => None
  }

  /** Once the two length checks are passed, some read fails if and only if the input is not
      readable: at least one NACK, and a length from 17 + 4n (and 22) up to 21 + 4n. */
  lemma PanicsExactly(data: seq<byte>)
    ensures |data| >= 22 && |data| >= 17 + 4 * data[16] as int && TailAt(data, 17 + 4 * data[16] as int) == None
            <==> !Readable(data)
    ensures !Readable(data) ==> data[16] > 0 && 22 <= |data| && 17 + 4 * data[16] as int <= |data| < 22 + 4 * data[16] as int
  {
  }

  /** The shortest such input: 22 bytes that announce one NACK. */
  lemma ShortInputPanics()
    ensures !Readable(Zeros(16) + [1] + Zeros(5))
  {
  }

  /** The header and what follows it; nothing stands for a panic. */
  method UnmarshalHeader(data: seq<byte>) returns (h: Option<(Packet, nat, u16)>)
    requires |data| >= 22 && |data| >= 17 + 4 * data[16] as int
    ensures h == if Readable(data) then Some((ReadHeader(data), 22 + 4 * data[16] as int, ReadOptionSize(data))) else None
  {
    PanicsExactly(data);
    var nacks, offset := UnmarshalNacks(data, data[16]);
    var resendDelay := ByteAt(data, offset);
    if resendDelay.None? { return None; }
    var flags := WordAt(data, offset + 1);
    if flags.None? { return None; }
    var optionSize := WordAt(data, offset + 3);
    if optionSize.None? { return None; }
    var p := Packet(Read32(data), Read32(data[4..]), Read32(data[8..]), Read32(data[12..]),
                    flags.value, nacks, 0, resendDelay.value, 0, None, [], None, []);
    h := Some((p, offset + 5, optionSize.value));
  }

  /** Packet.Unmarshal on a fresh packet, for every input: assigns field after field while the
      offset advances towards the end of the option area. Nothing stands for a panic. */
  method Unmarshal(data: seq<byte>) returns (r: Option<Result<Packet>>)
    ensures r == if Readable(data) then Some(Decode(data)) else None
  {
    hide ReadHeader, ReadOptionSize, TakeOptions;
    if |data| < 22 { return Some(Err(TooShort)); }
    if |data| < 17 + 4 * data[16] as int { return Some(Err(TooShortForNacks)); }
    var h := UnmarshalHeader(data);
    if h.None? { return None; }
    var (p, offset, optionSize) := h.value;
    if |data| < offset + optionSize { return Some(Err(TooShortForOptions)); }
    var end := offset + optionSize;
    var options := UnmarshalOptions(p, data, offset, end);
    if options.Err? { return Some(Err(options.error)); }
    r := Some(Ok(options.value.(payload := data[end..])));
  }

  method UnmarshalOptions(header: Packet, data: seq<byte>, start: nat, end: nat) returns (r: Result<Packet>)
    requires start <= end <= |data|
    ensures r == match TakeOptions(header, data[start..end]) case Err(e) => Err(e) case Ok((p, _)) => Ok(p)
  {
    var p := header;
    var delay, o1 := UnmarshalDelay(p.flags, data, start, end);
    if delay.Err? { return Err(delay.error); }
    p := p.(optionalDelay := delay.value);
    var from, o2 := UnmarshalFrom(p.flags, data, o1, end);
    if from.Err? { return Err(from.error); }
    p := p.(from := from.value);
    var size, o3 := UnmarshalMaxSize(p.flags, data, o2, end);
    if size.Err? { return Err(size.error); }
    p := p.(maxPacketSize := size.value);
    var offline, o4 := UnmarshalOffline(p.flags, p.from, data, o3, end);
    if offline.Err? { return Err(offline.error); }
    p := p.(offline := offline.value);
    var sig, o5 := UnmarshalSignature(p.flags, p.from, data, o4, end);
    if sig.Err? { return Err(sig.error); }
    r := Ok(p.(signature := sig.value));
  }

  /** How a field reader that works on offsets answers, given its answer on the unread part. */
  ghost predicate Reads<T>(expected: Result<(T, seq<byte>)>, r: Result<T>, data: seq<byte>, offset: nat, end: nat)
    requires end <= |data|
  {
    match r
    case Err(e) => expected == Err(e)
    case Ok(v) => offset <= end && expected == Ok((v, data[offset..end]))
  }

  method UnmarshalDelay(flags: u16, data: seq<byte>, start: nat, end: nat) returns (r: Result<u16>, offset: nat)
    requires start <= end <= |data|
    ensures Reads(TakeDelay(flags, data[start..end]), r, data, offset, end)
  {
    if !Has(flags, Flag.Delay) { return Ok(0), start; }
    if start + 2 > end { return Err(OptionTooShort), start; }
    assert data[start..end][2..] == data[start + 2..end];
    return Ok(Read16(data[start..end])), start + 2;
  }

  method UnmarshalFrom(flags: u16, data: seq<byte>, start: nat, end: nat)
    returns (r: Result<Option<Destination>>, offset: nat)
    requires start <= end <= |data|
    ensures Reads(TakeFrom(flags, data[start..end]), r, data, offset, end)
  {
    if !Has(flags, Flag.From) { return Ok(None), start; }
    if start >= end { return Err(OptionTooShort), start; }
    var d := ParseDestination(data[start..end]);
    if d.None? { return Err(BadDestination), start; }
    ParsedDestinationIsPrefix(data[start..end]);
    offset := start + |Serialize(d.value)|;
    assert data[start..end][|Serialize(d.value)|..] == data[offset..end];
    r := Ok(Some(d.value));
  }

  method UnmarshalMaxSize(flags: u16, data: seq<byte>, start: nat, end: nat) returns (r: Result<u16>, offset: nat)
    requires start <= end <= |data|
    ensures Reads(TakeMaxSize(flags, data[start..end]), r, data, offset, end)
  {
    if !Has(flags, Flag.MaxSize) { return Ok(0), start; }
    if start + 2 > end { return Err(OptionTooShort), start; }
    assert data[start..end][2..] == data[start + 2..end];
    return Ok(Read16(data[start..end])), start + 2;
  }

  method UnmarshalOffline(flags: u16, from: Option<Destination>, data: seq<byte>, start: nat, end: nat)
    returns (r: Result<Option<OfflineSig>>, offset: nat)
    requires start <= end <= |data|
    ensures Reads(TakeOffline(flags, from, data[start..end]), r, data, offset, end)
  {
    offset := start;
    if !Has(flags, Flag.Offline) { return Ok(None), offset; }
    if offset + 6 > end { return Err(OptionTooShort), offset; }
    ghost var rest := data[start..end];
    var expires := Read32(data[offset..end]);
    offset := offset + 4;
    assert rest[4..] == data[offset..end];
    var sigType := Read16(data[offset..end]);
    offset := offset + 2;
    var keyLen := PublicKeyLength(sigType);
    if keyLen == 0 { return Err(UnknownTransientType), offset; }
    if offset + keyLen > end { return Err(OptionTooShort), offset; }
    var key := data[offset..offset + keyLen];
    assert rest[6..6 + keyLen] == key;
    offset := offset + keyLen;
    var sigLen := SignatureLength(from);
    if sigLen == 0 { return Err(NoSignatureLength), offset; }
    if offset + sigLen > end { return Err(OptionTooShort), offset; }
    var sig := data[offset..offset + sigLen];
    assert rest[6 + keyLen..6 + keyLen + sigLen] == sig;
    offset := offset + sigLen;
    assert rest[6 + keyLen + sigLen..] == data[offset..end];
    r := Ok(Some(OfflineSig(expires, sigType, key, sig)));
  }

  method UnmarshalSignature(flags: u16, from: Option<Destination>, data: seq<byte>, start: nat, end: nat)
    returns (r: Result<seq<byte>>, offset: nat)
    requires start <= end <= |data|
    ensures Reads(TakeSignature(flags, from, data[start..end]), r, data, offset, end)
  {
    if !Has(flags, Flag.Signed) { return Ok([]), start; }
    var sigLen := SignatureLength(from);
    if sigLen == 0 { return Err(NoSignatureLength), start; }
    if start + sigLen > end { return Err(OptionTooShort), start; }
    assert data[start..end][..sigLen] == data[start..start + sigLen];
    assert data[start..end][sigLen..] == data[start + sigLen..end];
    return Ok(data[start..start + sigLen]), start + sigLen;
  }
}
