/** The handshake state and its acts (mailbox/noise.go). */
module NoiseHandshake {
  import opened Common
  import opened Terms
  import opened Ciphers
  import opened NoisePatterns

  type PublicKey = t: Term | t.Point? witness Point(0, 0)

  /** The value of a handshake state. Private keys are numbers; `ephemerals` are the keys that the
      generator will return. */
  datatype State = State(
    initiator: bool,
    cipher: Cipher,
    chainingKey: Term,
    digest: Term,
    localStatic: nat,
    localEphemeral: Option<nat>,
    remoteStatic: Option<PublicKey>,
    remoteEphemeral: Option<PublicKey>,
    ephemerals: seq<nat>,
    passphrase: int,
    payloadToSend: seq<uint8>,
    receivedPayload: Option<seq<uint8>>,
    minVersion: uint8,
    maxVersion: uint8,
    version: uint8)

  const ACT_TWO_PAYLOAD_SIZE: nat := 500
  const MAX_INT32: nat := 0x7fff_ffff

  // -------------------------------------------------------------------------
  // Symmetric state

  function MixKey(h: State, secret: Term): State {
    h.(chainingKey := Kdf1(h.chainingKey, secret),
       cipher := Cipher(Kdf2(h.chainingKey, secret), h.cipher.salt, 0))
  }

  function MixHash(h: State, data: Term): State { h.(digest := Mix(h.digest, data)) }

  function Ciphertext(h: State, text: Term): Term { Sealed(h.cipher, h.digest, text) }

  function Encrypted(h: State, text: Term): State { MixHash(h.(cipher := Bumped(h.cipher)), Ciphertext(h, text)) }

  /** `DecryptAndHash`: the new state and the plaintext. */
  function Decrypted(h: State, b: Wire): Option<(State, Term)> {
    match Opened(h.cipher, h.digest, b)
    case None => None
    case Some(text) => Some((MixHash(h.(cipher := Bumped(h.cipher)), Parse(b).value), text))
  }

  // -------------------------------------------------------------------------
  // Tokens

  /** The Diffie-Hellman result a token stands for; `None` when a key is missing. */
  function DhSecret(h: State, t: Token): Option<Term> {
    match t
    case EE => Product(h.remoteEphemeral, h.localEphemeral)
    case SS => Product(h.remoteStatic, Some(h.localStatic))
    case ES => if h.initiator then Product(h.remoteStatic, h.localEphemeral)
               else Product(h.remoteEphemeral, Some(h.localStatic))
    case SE => if h.initiator then Product(h.remoteEphemeral, Some(h.localStatic))
               else Product(h.remoteStatic, h.localEphemeral)
    case _ => None
  }

  function Product(pub: Option<PublicKey>, priv: Option<nat>): Option<Term> {
    if pub.Some? && priv.Some? then Some(Ecdh(pub.value, priv.value)) else None
  }

  function WriteToken(h: State, t: Token): Option<(State, Wire)> {
    match t
    case E =>
      if h.ephemerals == [] then None else
      var e := Point(h.ephemerals[0], 0);
      Some((MixHash(WithEphemeral(h), e), Bytes(e)))
    case ME =>
      if h.ephemerals == [] then None else
      var e := Point(h.ephemerals[0], 0);
      Some((MixHash(WithEphemeral(h), e), Bytes(Masked(e, h.passphrase))))
    case S => Some((Encrypted(h, Point(h.localStatic, 0)), Bytes(Ciphertext(h, Point(h.localStatic, 0)))))
    case _ =>
      match DhSecret(h, t)
      case None => None
      case Some(secret) => Some((MixKey(h, secret), []))
  }

  function WithEphemeral(h: State): State
    requires h.ephemerals != []
  {
    h.(localEphemeral := Some(h.ephemerals[0]), ephemerals := h.ephemerals[1..])
  }

  /** The public key that the next 33 bytes encode. */
  function ReadKey(wire: Wire): Option<PublicKey> {
    if |wire| < PUBKEY_SIZE then None else
    match Parse(wire[..PUBKEY_SIZE])
    case Some(Point(k, m)) => Some(Point(k, m))
    case _ => None
  }

  function ReadToken(h: State, t: Token, wire: Wire): Option<(State, Wire)> {
    match t
    case E =>
      (match ReadKey(wire)
       case None => None
       case Some(e) => Some((MixHash(h.(remoteEphemeral := Some(e)), e), wire[PUBKEY_SIZE..])))
    case ME =>
      (match ReadKey(wire)
       case None => None
       case Some(masked) =>
         var e := Unmasked(masked, h.passphrase);
         Some((MixHash(h.(remoteEphemeral := Some(e)), e), wire[PUBKEY_SIZE..])))
    case S =>
      if |wire| < PUBKEY_SIZE + MAC_SIZE then None else
      (match Decrypted(h, wire[..PUBKEY_SIZE + MAC_SIZE])
       case Some((h', Point(k, m))) =>
         Some((h'.(remoteStatic := Some(Point(k, m))), wire[PUBKEY_SIZE + MAC_SIZE..]))
       case _ => None)
    case _ =>
      match DhSecret(h, t)
      case None => None
      case Some(secret) => Some((MixKey(h, secret), wire))
  }

  function WriteTokens(h: State, ts: seq<Token>): Option<(State, Wire)>
    decreases |ts|
  {
    if ts == [] then Some((h, [])) else
    match WriteToken(h, ts[0]) case None => None case Some((h1, out1)) =>
    match WriteTokens(h1, ts[1..]) case None => None case Some((h2, out2)) =>
    Some((h2, out1 + out2))
  }

  function ReadTokens(h: State, ts: seq<Token>, wire: Wire): Option<(State, Wire)>
    decreases |ts|
  {
    if ts == [] then Some((h, wire)) else
    match ReadToken(h, ts[0], wire) case None => None case Some((h1, wire1)) =>
    ReadTokens(h1, ts[1..], wire1)
  }

  // -------------------------------------------------------------------------
  // Payloads

  /** `b` cut or padded with zeros to `n` bytes: Go's `copy` into a new slice. */
  function Fitted(b: seq<uint8>, n: nat): (r: seq<uint8>)
    ensures |r| == n
    ensures forall i :: 0 <= i < n ==> r[i] == (if i < |b| then b[i] else 0)
  {
    if |b| >= n then b[..n] else b + seq(n - |b|, _ => 0)
  }

  /** The fixed-size payload of version 0: a two-byte length, then the auth data. */
  function FixedPayload(auth: seq<uint8>): seq<uint8> { Fitted(Be16(|auth|) + auth, ACT_TWO_PAYLOAD_SIZE) }

  function FromFixed(b: seq<uint8>): seq<uint8>
    requires |b| == ACT_TWO_PAYLOAD_SIZE
  {
    Fitted(b[2..], FromBe16(b[..2]))
  }

  /** What is received of auth data sent in a given version. */
  function Delivered(version: uint8, auth: seq<uint8>): seq<uint8> {
    if version == 0 then FromFixed(FixedPayload(auth)) else auth
  }

  /** Version 0 delivers the auth data exactly when its length fits the two-byte field and all that
      does not fit the payload is zeros; in particular up to 498 bytes. */
  lemma {:induction false} FixedPayloadExact(auth: seq<uint8>)
    ensures FromFixed(FixedPayload(auth)) == auth <==>
            |auth| < 65536 && forall i :: 498 <= i < |auth| ==> auth[i] == 0
    ensures |auth| <= 498 ==> FromFixed(FixedPayload(auth)) == auth
  {
    var b, got := FixedPayload(auth), FromFixed(FixedPayload(auth));
    assert b[..2] == Be16(|auth|);
    Be16RoundTrip(|auth|);
    assert |got| == |auth| % 65536;
    forall i | 0 <= i < |got|
      ensures got[i] == (if i < 498 && i < |auth| then auth[i] else 0)
    {
      if i < 498 {
        assert b[2..][i] == b[i + 2];
      }
    }
    if got == auth {
      forall i | 498 <= i < |auth|
        ensures auth[i] == 0
      {
        assert got[i] == 0;
      }
    }
  }

  /** 499 bytes of auth data, the last of which does not fit: a zero arrives in its place. */
  lemma {:induction false} FixedPayloadCuts()
    ensures var auth: seq<uint8> := seq(499, _ => 1);
            FromFixed(FixedPayload(auth)) != auth && |FromFixed(FixedPayload(auth))| == 499
  {
    var auth: seq<uint8> := seq(499, _ => 1);
    FixedPayloadExact(auth);
    assert auth[498] == 1;
    assert FixedPayload(auth)[..2] == Be16(499);
    Be16RoundTrip(499);
  }

  function WritePayload(h: State, act: nat): Option<(State, Wire)> {
    if !(1 <= act <= 3) then None
    else if h.version == 0 then
      var text := Plain(if act == 2 then FixedPayload(h.payloadToSend) else []);
      Some((Encrypted(h, text), Bytes(Ciphertext(h, text))))
    else if h.version <= 2 then
      if act == 2 then
        if |h.payloadToSend| >= MAX_INT32 then None
        else
          var len, body := Plain(Be32(|h.payloadToSend|)), Plain(h.payloadToSend);
          var h1 := Encrypted(h, len);
          Some((Encrypted(h1, body), Bytes(Ciphertext(h, len)) + Bytes(Ciphertext(h1, body))))
      else Some((Encrypted(h, Plain([])), Bytes(Ciphertext(h, Plain([])))))
    else None
  }

  /** The next `size` bytes, decrypted. */
  function ReadSealed(h: State, size: nat, wire: Wire): Option<(State, seq<uint8>, Wire)> {
    if |wire| < size then None else
    match Decrypted(h, wire[..size])
    case Some((h', Plain(b))) => Some((h', b, wire[size..]))
    case _ => None
  }

  function ReadPayload(h: State, act: nat, version: uint8, wire: Wire): Option<(State, Wire)> {
    if !(1 <= act <= 3) then None
    else if version == 0 then
      match ReadSealed(h, (if act == 2 then ACT_TWO_PAYLOAD_SIZE else 0) + MAC_SIZE, wire)
      case None => None
      case Some((h1, b, rest)) =>
        if |b| != ACT_TWO_PAYLOAD_SIZE then Some((h1, rest))
        else Some((h1.(receivedPayload := Some(FromFixed(b))), rest))
    else if version <= 2 then
      if act == 2 then
        match ReadSealed(h, 4 + MAC_SIZE, wire) case None => None case Some((h1, len, wire1)) =>
        if |len| != 4 then None else
        match ReadSealed(h1, MAC_SIZE + FromBe32(len), wire1) case None => None case Some((h2, auth, rest)) =>
        Some((h2.(receivedPayload := Some(auth)), rest))
      else
        match ReadSealed(h, MAC_SIZE, wire) case None => None case Some((h1, _, rest)) => Some((h1, rest))
    else None
  }

  // -------------------------------------------------------------------------
  // Acts

  function WriteAct(h: State, mp: MessagePattern): Option<(State, Wire)> {
    match WriteTokens(h, mp.tokens) case None => None case Some((h1, out1)) =>
    match WritePayload(h1, mp.act) case None => None case Some((h2, out2)) =>
    Some((h2, [Raw(h.version)] + (out1 + out2)))
  }

  /** The version check: acts 1 and 2 negotiate, act 3 must repeat what was agreed. */
  function Negotiated(h: State, act: nat, version: uint8): Option<State> {
    if act == 1 || act == 2 then
      if version < h.minVersion || version > h.maxVersion then None
      else Some(if h.initiator then h.(version := version) else h)
    else if act == 3 then
      if version != h.version then None else Some(h)
    else None
  }

  function ReadAct(h: State, mp: MessagePattern, wire: Wire): Option<(State, Wire)> {
    if |wire| < 1 || !wire[0].Raw? then None else
    var version := wire[0].b;
    match Negotiated(h, mp.act, version) case None => None case Some(h1) =>
    match ReadTokens(h1, mp.tokens, wire[1..]) case None => None case Some((h2, wire2)) =>
    ReadPayload(h2, mp.act, version, wire2)
  }

  // -------------------------------------------------------------------------
  // Two machines

  /** What a machine is configured with. */
  datatype Party = Party(
    key: nat, remote: Option<PublicKey>, passphrase: int, auth: seq<uint8>,
    minVersion: uint8, maxVersion: uint8, ephemerals: seq<nat>)

  /** The mailbox address: from the pairing phrase until the other side's key is known, then from the
      product of both keys. */
  function Sid(p: Party): Term {
    Sha512(if p.remote == None then Entropy(p.passphrase) else Hmac(Ecdh(p.remote.value, p.key), Name("mailbox")))
  }

  /** The pattern for the next handshake. */
  function PatternFor(p: Party): HandshakePattern { if p.remote == None then XX_PATTERN else KK_PATTERN }

  /** What a machine in state `h` leaves of its configuration: from version 2 on the key is stored. */
  function Stored(p: Party, h: State): Party { if h.version >= 2 then p.(remote := h.remoteStatic) else p }

  const PROLOGUE: Term := Name("lightning-node-connect")

  function ProtocolName(pattern: HandshakePattern): string {
    "Noise_" + pattern.name + "_secp256k1_ChaChaPoly_SHA256"
  }

  /** `KK` needs version 2 on both ends of the range. */
  function MinVersion(pattern: HandshakePattern, p: Party): uint8 {
    if pattern.name == KK && p.minVersion < 2 then 2 else p.minVersion
  }

  /** The static key that a pre-message names, as far as a side knows it. */
  function PreKey(m: MessagePattern, p: Party, initiator: bool): Option<PublicKey> {
    if m.initiator == initiator then Some(Point(p.key, 0)) else p.remote
  }

  /** The digest after the static keys of the pre-messages; `None` when one is not known. */
  function MixPre(digest: Term, pre: seq<MessagePattern>, p: Party, initiator: bool): Option<Term>
    decreases |pre|
  {
    if pre == [] then Some(digest) else
    match PreKey(pre[0], p, initiator)
    case None => None
    case Some(key) => MixPre(Mix(digest, key), pre[1..], p, initiator)
  }

  /** The state before the pre-messages. */
  function Blank(pattern: HandshakePattern, p: Party, initiator: bool): State {
    var name, minVersion := Name(ProtocolName(pattern)), MinVersion(pattern, p);
    State(initiator, Cipher(Zero, Zero, 0), name, Mix(name, PROLOGUE), p.key, None, p.remote, None, p.ephemerals,
          if pattern.name == XX then p.passphrase else 0, p.auth, None, minVersion, p.maxVersion,
          if initiator then minVersion else p.maxVersion)
  }

  /** `NewBrontideMachine` and `newHandshakeState`. */
  function NewMachine(pattern: HandshakePattern, p: Party, initiator: bool): Option<State> {
    if pattern.name == KK && p.maxVersion < 2 then None else
    var h := Blank(pattern, p, initiator);
    match MixPre(h.digest, pattern.pre, p, initiator)
    case None => None
    case Some(digest) => Some(h.(digest := digest))
  }

  /** The acts of both machines in turn. `toI` and `toR` are bytes not yet read. */
  function Exchange(i: State, r: State, toI: Wire, toR: Wire, acts: seq<MessagePattern>)
    : Option<(State, State, Wire, Wire)>
    decreases |acts|
  {
    if acts == [] then Some((i, r, toI, toR))
    else if acts[0].initiator then
      match WriteAct(i, acts[0]) case None => None case Some((i', out)) =>
      match ReadAct(r, acts[0], toR + out) case None => None case Some((r', rest)) =>
      Exchange(i', r', toI, rest, acts[1..])
    else
      match WriteAct(r, acts[0]) case None => None case Some((r', out)) =>
      match ReadAct(i, acts[0], toI + out) case None => None case Some((i', rest)) =>
      Exchange(i', r', rest, toR, acts[1..])
  }

  /** Both machines run their handshake; `None` when either fails. */
  function Handshake(pattern: HandshakePattern, pi: Party, pr: Party): Option<(State, State, Wire, Wire)> {
    match NewMachine(pattern, pi, true) case None => None case Some(i) =>
    match NewMachine(pattern, pr, false) case None => None case Some(r) =>
    Exchange(i, r, [], [], pattern.acts)
  }

  /** `split`: the send and the receive cipher. */
  function Split(h: State): (Cipher, Cipher) {
    var first := Cipher(Kdf1(h.chainingKey, Plain([])), h.chainingKey, 0);
    var second := Cipher(Kdf2(h.chainingKey, Plain([])), h.chainingKey, 0);
    if h.initiator then (first, second) else (second, first)
  }
}
