/** The packet of packet.go and the bytes of each of its fields. */
module Packets {
  import opened Serial

  datatype Option<+T> = None | Some(value: T)

  datatype Result<+T> = Ok(value: T) | Err(error: Error)

  datatype Error =
    | NoFromDestination
    | NoSignatureLength
    | NoOfflineSignature
    | TooManyNacks
    | TransientKeyLength
    | DestSignatureLength
    | SignatureLengthMismatch
    | TooShort
    | TooShortForNacks
    | TooShortForOptions
    | OptionTooShort
    | BadDestination
    | UnknownTransientType
    | SignatureOutOfRange

  // ----- flags -----

  /** The packet flags that the model looks at, by bit. */
  datatype Flag = Syn | Close | Reset | Signed | From | Delay | MaxSize | Interactive | NoAck | Offline

  predicate Has(flags: u16, f: Flag) {
    match f
    case Syn => flags % 2 == 1
    case Close => (flags / 2) % 2 == 1
    case Reset => (flags / 4) % 2 == 1
    case Signed => (flags / 8) % 2 == 1
    case From => (flags / 32) % 2 == 1
    case Delay => (flags / 64) % 2 == 1
    case MaxSize => (flags / 128) % 2 == 1
    case Interactive => (flags / 256) % 2 == 1
    case NoAck => (flags / 1024) % 2 == 1
    case Offline => (flags / 2048) % 2 == 1
  }

  // ----- big-endian integers -----

  function Be16(x: u16): (b: seq<byte>)
    ensures |b| == 2
  {
    [x / 0x100, x % 0x100]
  }

  function Be32(x: u32): (b: seq<byte>)
    ensures |b| == 4
  {
    [x / 0x100_0000, (x / 0x1_0000) % 0x100, (x / 0x100) % 0x100, x % 0x100]
  }

  function Read16(b: seq<byte>): u16
    requires |b| >= 2
  {
    (b[0] as int) * 0x100 + b[1] as int
  }

  function Read32(b: seq<byte>): u32
    requires |b| >= 4
  {
    (b[0] as int) * 0x100_0000 + (b[1] as int) * 0x1_0000 + (b[2] as int) * 0x100 + b[3] as int
  }

  lemma Be16RoundTrip(x: u16, b: seq<byte>)
    ensures Read16(Be16(x) + b) == x
    ensures |b| >= 2 ==> Be16(Read16(b)) == b[..2]
  {
  }

  lemma Be32RoundTrip(x: u32, b: seq<byte>)
    ensures Read32(Be32(x) + b) == x
    ensures |b| >= 4 ==> Be32(Read32(b)) == b[..4]
  {
    Be32Of(x);
    if |b| >= 4 {
      var y := Read32(b);
      Be32Digits(b[0], b[1], b[2], b[3]);
    }
  }

  lemma Be32Of(x: u32)
    ensures (x / 0x100_0000) * 0x100_0000 + ((x / 0x1_0000) % 0x100) * 0x1_0000
            + ((x / 0x100) % 0x100) * 0x100 + x % 0x100 == x
  {
    assert (x / 0x100) / 0x100 == x / 0x1_0000;
    assert (x / 0x1_0000) / 0x100 == x / 0x100_0000;
  }

  lemma Be32Digits(b0: byte, b1: byte, b2: byte, b3: byte)
    ensures var y := (b0 as int) * 0x100_0000 + (b1 as int) * 0x1_0000 + (b2 as int) * 0x100 + b3 as int;
            && y / 0x100_0000 == b0 && (y / 0x1_0000) % 0x100 == b1
            && (y / 0x100) % 0x100 == b2 && y % 0x100 == b3
  {
    var y := (b0 as int) * 0x100_0000 + (b1 as int) * 0x1_0000 + (b2 as int) * 0x100 + b3 as int;
    assert y / 0x100 == (b0 as int) * 0x1_0000 + (b1 as int) * 0x100 + b2 as int;
    assert y / 0x1_0000 == (b0 as int) * 0x100 + b1 as int;
  }

  // ----- destinations -----

  /** A destination as it is written to a message: 256 bytes of encryption key and
      128 of signing key, then a certificate (type, two-byte length, data). */
  datatype RawDestination = Destination(keys: seq<byte>, certType: byte, certData: seq<byte>)

  type Destination = d: RawDestination | |d.keys| == 384 && |d.certData| < 0x1_0000
    witness Destination(seq(384, i => 0), 0, [])

  function Serialize(d: Destination): (b: seq<byte>)
    ensures |b| == 387 + |d.certData|
  {
    d.keys + [d.certType] + Be16(|d.certData|) + d.certData
  }

  function ParseDestination(b: seq<byte>): Option<Destination> {
    if |b| < 387 then None
    else
      var len := Read16(b[385..]);
      if |b| < 387 + len then None
      else Some(Destination(b[..384], b[384], b[387..387 + len]))
  }

  /** Parsing consumes exactly the serialised form, whatever follows it. */
  lemma DestinationRoundTrip(d: Destination, rest: seq<byte>)
    ensures ParseDestination(Serialize(d) + rest) == Some(d)
  {
    var b := Serialize(d) + rest;
    assert b[385..] == Be16(|d.certData|) + (d.certData + rest);
    Be16RoundTrip(|d.certData|, d.certData + rest);
    assert b[..384] == d.keys && b[387..387 + |d.certData|] == d.certData;
  }

  lemma ParsedDestinationIsPrefix(b: seq<byte>)
    requires ParseDestination(b).Some?
    ensures var d := ParseDestination(b).value;
            && |Serialize(d)| <= |b|
            && b[..|Serialize(d)|] == Serialize(d)
  {
    var d := ParseDestination(b).value;
    Be16RoundTrip(0, b[385..]);
    assert b[385..387] == b[385..][..2];
    assert b[..387 + |d.certData|] == b[..384] + [b[384]] + b[385..387] + b[387..387 + |d.certData|];
  }

  /** The signature type named by the certificate, Ed25519 when there is none. */
  function SignatureType(d: Destination): int {
    if d.certType == 0 then 0
    else if d.certType == 5 && |d.certData| >= 4 then Read16(d.certData)
    else 7
  }

  function SignatureLength(dest: Option<Destination>): (n: nat)
    ensures n == 0 <==> dest.None?
  {
    match dest
    case None => 0
    case Some(d) =>
      match SignatureType(d)
      case 0 => 40
      case 1 => 64
      case 2 => 96
      case 3 => 132
      case 4 => 256
      case 5 => 384
      case 6 => 512
      case _ => 64
  }

  function PublicKeyLength(sigType: u16): nat {
    match sigType
    case 0 => 128
    case 1 => 64
    case 2 => 96
    case 3 => 132
    case 4 => 256
    case 5 => 384
    case 6 => 512
    case 7 => 32
    case 8 => 32
    case _ => 0
  }

  // ----- packets -----

  datatype OfflineSig = OfflineSig(
    expires: u32,
    transientSigType: u16,
    transientPublicKey: seq<byte>,
    destSignature: seq<byte>)

  datatype Packet = Packet(
    sendStreamID: u32,
    recvStreamID: u32,
    sequenceNum: u32,
    ackThrough: u32,
    flags: u16,
    nacks: seq<u32>,
    optionalDelay: u16,
    resendDelay: byte,
    maxPacketSize: u16,
    from: Option<Destination>,
    signature: seq<byte>,
    offline: Option<OfflineSig>,
    payload: seq<byte>)

  /** A packet with no optional field. */
  function PlainPacket(sendID: u32, recvID: u32, seqNum: u32, ack: u32, nacks: seq<u32>,
                       resendDelay: byte, payload: seq<byte>): Packet
  {
    Packet(sendID, recvID, seqNum, ack, 0, nacks, 0, resendDelay, 0, None, [], None, payload)
  }

  function Zeros(n: nat): (z: seq<byte>)
    ensures |z| == n
  {
    seq(n, i => 0)
  }
}
