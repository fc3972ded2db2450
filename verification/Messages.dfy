/** The Go-Back-N packets and their byte encoding (gbn/messages.go). */
module Messages {
  import opened Common
  import opened Terms

  const SYN: uint8 := 0x01
  const DATA: uint8 := 0x02
  const ACK: uint8 := 0x03
  const NACK: uint8 := 0x04
  const FIN: uint8 := 0x05
  const SYNACK: uint8 := 0x06

  const FALSE: uint8 := 0x00
  const TRUE: uint8 := 0x01

  /** What travels in a packet: bytes, which may be bytes of keys and ciphertexts. */
  type Bytes = Wire

  /** What a data packet carries besides its sequence number. */
  datatype Body = Body(finalChunk: bool, isPing: bool, payload: Bytes)

  datatype Message =
    | Data(num: uint8, body: Body)
    | Ack(num: uint8)
    | Nack(num: uint8)
    | Syn(n: uint8)
    | SynAck
    | Fin
  {
    /** The messages of the opening and closing handshakes, which carry no sequence number. */
    predicate IsControl() { Syn? || SynAck? || Fin? }
  }

  function Flag(b: bool): WireByte { Raw(if b then TRUE else FALSE) }

  function Encode(m: Message): Bytes {
    match m
    case Data(num, body) => [Raw(DATA), Raw(num), Flag(body.finalChunk), Flag(body.isPing)] + body.payload
    case Ack(num) => [Raw(ACK), Raw(num)]
    case Nack(num) => [Raw(NACK), Raw(num)]
    case Syn(n) => [Raw(SYN), Raw(n)]
    case SynAck => [Raw(SYNACK)]
    case Fin => [Raw(FIN)]
  }

  /** `None` is the `io.EOF` of the source: too short, or of no known type. */
  function Decode(b: Bytes): Option<Message> {
    if |b| < 1 then None
    else if b[0] == Raw(DATA) then
      if |b| < 4 || !b[1].Raw? then None
      else Some(Data(b[1].b, Body(b[2] == Raw(TRUE), b[3] == Raw(TRUE), b[4..])))
    else if |b| >= 2 && b[1].Raw? && b[0] == Raw(ACK) then Some(Ack(b[1].b))
    else if |b| >= 2 && b[1].Raw? && b[0] == Raw(NACK) then Some(Nack(b[1].b))
    else if |b| >= 2 && b[1].Raw? && b[0] == Raw(SYN) then Some(Syn(b[1].b))
    else if b[0] == Raw(FIN) then Some(Fin)
    else if b[0] == Raw(SYNACK) then Some(SynAck)
    else None
  }

  predicate Numbered(b: WireByte) { b == Raw(ACK) || b == Raw(NACK) || b == Raw(SYN) }

  predicate Bare(b: WireByte) { b == Raw(FIN) || b == Raw(SYNACK) }

  predicate IsFlag(b: WireByte) { b == Raw(FALSE) || b == Raw(TRUE) }

  /** The bytes that `Encode` can produce: flags are 0 or 1 and nothing trails a fixed-size packet. */
  predicate Canonical(b: Bytes) {
    |b| >= 1 &&
    if b[0] == Raw(DATA) then |b| >= 4 && b[1].Raw? && IsFlag(b[2]) && IsFlag(b[3])
    else if Numbered(b[0]) then |b| == 2 && b[1].Raw?
    else Bare(b[0]) && |b| == 1
  }

  /** Every packet of every type parses back to itself. */
  lemma {:induction false} DecodeEncode(m: Message)
    ensures Decode(Encode(m)) == Some(m)
    ensures Canonical(Encode(m))
  {
    if m.Data? {
      assert Encode(m)[4..] == m.body.payload;
    }
  }

  /** The bytes of every packet, as they have to be for peers to understand each other. */
  lemma {:induction false} Layout(m: Message)
    ensures Encode(m) ==
            match m
            case Syn(n) => [Raw(1), Raw(n)]
            case Data(num, body) =>
              [Raw(2), Raw(num), Raw(if body.finalChunk then 1 else 0), Raw(if body.isPing then 1 else 0)] +
              body.payload
            case Ack(num) => [Raw(3), Raw(num)]
            case Nack(num) => [Raw(4), Raw(num)]
            case Fin => [Raw(5)]
            case SynAck => [Raw(6)]
  {
  }

  /** The strings that `Decode` accepts: of a known type and long enough for it, with a number where one
      is expected. */
  predicate Readable(b: Bytes) {
    |b| >= 1 &&
    if b[0] == Raw(DATA) then |b| >= 4 && b[1].Raw?
    else if Numbered(b[0]) then |b| >= 2 && b[1].Raw?
    else Bare(b[0])
  }

  /** What `Decode` sees of a string: any flag byte but 1 means 0, and whatever trails a fixed-size
      packet is ignored. */
  function Trimmed(b: Bytes): Bytes
    requires Readable(b)
  {
    if b[0] == Raw(DATA) then [Raw(DATA), b[1], Flag(b[2] == Raw(TRUE)), Flag(b[3] == Raw(TRUE))] + b[4..]
    else if Bare(b[0]) then b[..1]
    else b[..2]
  }

  /** The decoder accepts more than the encoder makes: a string parses to `m` exactly when it is
      readable and trims to the encoding of `m`. The canonical strings are those that trim to
      themselves, and on these the two are inverse to each other. */
  lemma {:induction false} EncodeDecode(b: Bytes, m: Message)
    ensures Decode(b) == Some(m) <==> Readable(b) && Trimmed(b) == Encode(m)
    ensures Canonical(b) <==> Readable(b) && Trimmed(b) == b
    ensures b == Encode(m) <==> Canonical(b) && Decode(b) == Some(m)
  {
    DecodeEncode(m);
    if Readable(b) {
      DecodeTrimmed(b);
      if b[0] == Raw(DATA) {
        assert b == [b[0], b[1], b[2], b[3]] + b[4..];
      }
    }
  }

  lemma {:induction false} DecodeTrimmed(b: Bytes)
    requires Readable(b)
    ensures Decode(b).Some? && Encode(Decode(b).value) == Trimmed(b)
  {
  }

  /** `Serialize`: the bytes are appended to a buffer one field at a time. */
  method Serialize(m: Message) returns (buf: Bytes)
    ensures buf == Encode(m)
  {
    buf := [];
    match m
    case Data(num, body) =>
      buf := buf + [Raw(DATA)];
      buf := buf + [Raw(num)];
      if body.finalChunk { buf := buf + [Raw(TRUE)]; } else { buf := buf + [Raw(FALSE)]; }
      if body.isPing { buf := buf + [Raw(TRUE)]; } else { buf := buf + [Raw(FALSE)]; }
      buf := buf + body.payload;
    case Ack(num) =>
      buf := buf + [Raw(ACK)];
      buf := buf + [Raw(num)];
    case Nack(num) =>
      buf := buf + [Raw(NACK)];
      buf := buf + [Raw(num)];
    case Syn(n) =>
      buf := buf + [Raw(SYN)];
      buf := buf + [Raw(n)];
    case SynAck =>
      buf := buf + [Raw(SYNACK)];
    case Fin =>
      buf := buf + [Raw(FIN)];
  }
}
