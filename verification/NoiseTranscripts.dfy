/** The handshakes of the source byte for byte: what is sent in each act, from the keys and settings of the
    two parties alone (mailbox/noise.go, mailbox/noise_patterns.go). */
module NoiseTranscripts {
  import opened Common
  import opened Terms
  import opened NoisePatterns
  import opened NoiseHandshake
  import opened KeySchedule
  import opened NoiseAgreement
  import opened NoiseReads
  import opened NoiseSides
  import opened NoiseSessions

  // -------------------------------------------------------------------------
  // Writing one act

  lemma {:induction false} WriteNext(w: State, t: Token, ts: seq<Token>, w1: State, out1: Wire, w2: State, out2: Wire)
    requires WriteToken(w, t) == Some((w1, out1)) && WriteTokens(w1, ts) == Some((w2, out2))
    ensures WriteTokens(w, [t] + ts) == Some((w2, out1 + out2))
  {
    assert ([t] + ts)[1..] == ts;
  }

  lemma {:induction false} WriteNone(w: State)
    ensures WriteTokens(w, []) == Some((w, []))
  {
  }

  /** The symmetric state: key and nonce, chaining key, digest. */
  datatype Core = Core(key: Term, nonce: nat, ck: Term, digest: Term) {
    function Hashed(data: Term): Core { this.(digest := Mix(digest, data)) }

    function Keyed(secret: Term): Core { Core(Kdf2(ck, secret), 0, Kdf1(ck, secret), digest) }

    function Sealing(text: Term): Term { Seal(key, nonce, digest, text) }

    function Sent(text: Term): Core { Core(key, nonce + 1, ck, Mix(digest, Sealing(text))) }
  }

  function CoreOf(h: State): Core { Core(h.cipher.key, h.cipher.nonce, h.chainingKey, h.digest) }

  lemma {:induction false} EncryptedCore(h: State, text: Term)
    requires h.cipher.nonce < 999
    ensures Ciphertext(h, text) == CoreOf(h).Sealing(text) && CoreOf(Encrypted(h, text)) == CoreOf(h).Sent(text)
  {
  }

  /** The payload of the first and the last act. */
  lemma {:induction false} PlainPayload(w: State, act: nat) returns (w': State)
    requires (act == 1 || act == 3) && w.version <= 2 && w.cipher.nonce < 900
    ensures WritePayload(w, act) == Some((w', Bytes(CoreOf(w).Sealing(Plain([])))))
    ensures CoreOf(w') == CoreOf(w).Sent(Plain([])) && w'.localEphemeral == w.localEphemeral
  {
    EncryptedCore(w, Plain([]));
    w' := Encrypted(w, Plain([]));
  }

  /** The ciphertexts of the auth data, and the state after them. */
  function AuthSealed(c: Core, version: uint8, auth: seq<uint8>): Wire {
    if version == 0 then Bytes(c.Sealing(Plain(Fitted(Be16(|auth|) + auth, 500))))
    else Bytes(c.Sealing(Plain(Be32(|auth|)))) + Bytes(c.Sent(Plain(Be32(|auth|))).Sealing(Plain(auth)))
  }

  function AuthSent(c: Core, version: uint8, auth: seq<uint8>): Core {
    if version == 0 then c.Sent(Plain(Fitted(Be16(|auth|) + auth, 500)))
    else c.Sent(Plain(Be32(|auth|))).Sent(Plain(auth))
  }

  lemma {:induction false} AuthPayload(w: State) returns (w': State)
    requires w.version <= 2 && (w.version >= 1 ==> |w.payloadToSend| < MAX_INT32) && w.cipher.nonce < 900
    ensures WritePayload(w, 2) == Some((w', AuthSealed(CoreOf(w), w.version, w.payloadToSend)))
    ensures CoreOf(w') == AuthSent(CoreOf(w), w.version, w.payloadToSend) && w'.localEphemeral == w.localEphemeral
  {
    hide Be32, Bytes;
    w' := WritePayload(w, 2).value.0;
    if w.version == 0 {
      EncryptedCore(w, Plain(FixedPayload(w.payloadToSend)));
    } else {
      var len := Plain(Be32(|w.payloadToSend|));
      EncryptedCore(w, len);
      EncryptedCore(Encrypted(w, len), Plain(w.payloadToSend));
    }
  }

  lemma {:induction false} WritesAct(w: State, mp: MessagePattern, w1: State, out1: Wire, w2: State, out2: Wire)
    requires WriteTokens(w, mp.tokens) == Some((w1, out1)) && WritePayload(w1, mp.act) == Some((w2, out2))
    ensures WriteAct(w, mp) == Some((w2, [Raw(w.version)] + (out1 + out2)))
  {
    hide WriteTokens, WritePayload;
  }

  // -------------------------------------------------------------------------
  // One token

  lemma {:induction false} WritesEphemeral(w: State) returns (w': State)
    requires w.ephemerals != []
    ensures WriteToken(w, E) == Some((w', Bytes(Point(w.ephemerals[0], 0))))
    ensures w' == MixHash(WithEphemeral(w), Point(w.ephemerals[0], 0))
    ensures CoreOf(w') == CoreOf(w).Hashed(Point(w.ephemerals[0], 0))
  {
    w' := MixHash(WithEphemeral(w), Point(w.ephemerals[0], 0));
  }

  lemma {:induction false} WritesMasked(w: State) returns (w': State)
    requires w.ephemerals != []
    ensures WriteToken(w, ME) == Some((w', Bytes(Point(w.ephemerals[0], w.passphrase))))
    ensures w' == MixHash(WithEphemeral(w), Point(w.ephemerals[0], 0))
    ensures CoreOf(w') == CoreOf(w).Hashed(Point(w.ephemerals[0], 0))
  {
    w' := MixHash(WithEphemeral(w), Point(w.ephemerals[0], 0));
  }

  lemma {:induction false} WritesStatic(w: State) returns (w': State)
    requires w.cipher.nonce < 900
    ensures WriteToken(w, S) == Some((w', Bytes(CoreOf(w).Sealing(Point(w.localStatic, 0)))))
    ensures w' == Encrypted(w, Point(w.localStatic, 0)) && CoreOf(w') == CoreOf(w).Sent(Point(w.localStatic, 0))
  {
    EncryptedCore(w, Point(w.localStatic, 0));
    w' := Encrypted(w, Point(w.localStatic, 0));
  }

  lemma {:induction false} WritesDh(w: State, t: Token, pub: PublicKey, priv: nat) returns (w': State)
    requires IsDh(t) && DhSecret(w, t) == Some(Ecdh(pub, priv))
    ensures WriteToken(w, t) == Some((w', []))
    ensures w' == MixKey(w, Ecdh(pub, priv)) && CoreOf(w') == CoreOf(w).Keyed(Ecdh(pub, priv))
  {
    w' := MixKey(w, Ecdh(pub, priv));
  }

  // -------------------------------------------------------------------------
  // The acts of XX

  lemma {:induction false} XXWritesOne(w: State) returns (w': State)
    requires w.ephemerals != [] && w.version <= 2 && w.cipher.nonce < 900
    ensures var e := w.ephemerals[0];
            var c := CoreOf(w).Hashed(Point(e, 0));
            && WriteAct(w, XX_PATTERN.acts[0]) ==
               Some((w', [Raw(w.version)] + (Bytes(Point(e, w.passphrase)) + Bytes(c.Sealing(Plain([]))))))
            && CoreOf(w') == c.Sent(Plain([])) && w'.localEphemeral == Some(e)
  {
    hide WriteToken, WriteTokens, WritePayload, WriteAct;
    var mp, e := XX_PATTERN.acts[0], w.ephemerals[0];
    var w1 := WritesMasked(w);
    WriteNone(w1);
    WriteNext(w, ME, [], w1, Bytes(Point(e, w.passphrase)), w1, []);
    assert [ME] + [] == mp.tokens && Bytes(Point(e, w.passphrase)) + [] == Bytes(Point(e, w.passphrase));
    w' := PlainPayload(w1, 1);
    WritesAct(w, mp, w1, Bytes(Point(e, w.passphrase)), w', Bytes(CoreOf(w1).Sealing(Plain([]))));
  }

  lemma {:induction false} XXWritesTwo(w: State, ei: nat) returns (w': State)
    requires w.ephemerals != [] && w.version <= 2 && w.cipher.nonce < 900 && !w.initiator
    requires w.version >= 1 ==> |w.payloadToSend| < MAX_INT32
    requires w.remoteEphemeral == Some(Point(ei, 0))
    ensures var e, s := w.ephemerals[0], Point(w.localStatic, 0);
            var c1 := CoreOf(w).Hashed(Point(e, 0)).Keyed(Ecdh(Point(ei, 0), e));
            var c2 := c1.Sent(s).Keyed(Ecdh(Point(ei, 0), w.localStatic));
            && WriteAct(w, XX_PATTERN.acts[1]) ==
               Some((w', [Raw(w.version)] + (Bytes(Point(e, 0)) + Bytes(c1.Sealing(s)) +
                                             AuthSealed(c2, w.version, w.payloadToSend))))
            && CoreOf(w') == AuthSent(c2, w.version, w.payloadToSend) && w'.localEphemeral == Some(e)
  {
    hide WriteToken, WriteTokens, WritePayload, WriteAct, AuthSealed, AuthSent, Bytes, Ecdh;
    var mp, e, s := XX_PATTERN.acts[1], w.ephemerals[0], Point(w.localStatic, 0);
    var w1 := WritesEphemeral(w);
    var w2 := WritesDh(w1, EE, Point(ei, 0), e);
    var w3 := WritesStatic(w2);
    var w4 := WritesDh(w3, ES, Point(ei, 0), w.localStatic);
    var key := Bytes(CoreOf(w2).Sealing(s));
    WriteNone(w4);
    WriteNext(w3, ES, [], w4, [], w4, []);
    WriteNext(w2, S, [ES] + [], w3, key, w4, [] + []);
    WriteNext(w1, EE, [S] + ([ES] + []), w2, [], w4, key + ([] + []));
    WriteNext(w, E, [EE] + ([S] + ([ES] + [])), w1, Bytes(Point(e, 0)), w4, [] + (key + ([] + [])));
    assert [E] + ([EE] + ([S] + ([ES] + []))) == mp.tokens;
    assert Bytes(Point(e, 0)) + ([] + (key + ([] + []))) == Bytes(Point(e, 0)) + key;
    w' := AuthPayload(w4);
    WritesAct(w, mp, w4, Bytes(Point(e, 0)) + key, w', AuthSealed(CoreOf(w4), w.version, w.payloadToSend));
  }

  lemma {:induction false} XXWritesThree(w: State, er: nat) returns (w': State)
    requires w.version <= 2 && w.cipher.nonce < 900 && w.initiator && w.remoteEphemeral == Some(Point(er, 0))
    ensures var s := Point(w.localStatic, 0);
            var c := CoreOf(w).Sent(s).Keyed(Ecdh(Point(er, 0), w.localStatic));
            && WriteAct(w, XX_PATTERN.acts[2]) ==
               Some((w', [Raw(w.version)] + (Bytes(CoreOf(w).Sealing(s)) + Bytes(c.Sealing(Plain([]))))))
            && CoreOf(w') == c.Sent(Plain([]))
  {
    hide WriteToken, WriteTokens, WritePayload, WriteAct, Bytes, Ecdh;
    var mp, s := XX_PATTERN.acts[2], Point(w.localStatic, 0);
    var w1 := WritesStatic(w);
    var w2 := WritesDh(w1, SE, Point(er, 0), w.localStatic);
    var key := Bytes(CoreOf(w).Sealing(s));
    WriteNone(w2);
    WriteNext(w1, SE, [], w2, [], w2, []);
    WriteNext(w, S, [SE] + [], w1, key, w2, [] + []);
    assert [S] + ([SE] + []) == mp.tokens && key + ([] + []) == key;
    w' := PlainPayload(w2, 3);
    WritesAct(w, mp, w2, key, w', Bytes(CoreOf(w2).Sealing(Plain([]))));
  }

  /** The three acts of XX. */
  function XXScript(pi: Party, pr: Party): (Wire, Wire, Wire)
    requires pi.ephemerals != [] && pr.ephemerals != []
  {
    var ei, er, version, auth := pi.ephemerals[0], pr.ephemerals[0], pr.maxVersion, pr.auth;
    var ck0 := Name("Noise_" + "XXeke+SPAKE2" + "_secp256k1_ChaChaPoly_SHA256");
    var ee, es, se := Ecdh(Point(er, 0), ei), Ecdh(Point(pr.key, 0), ei), Ecdh(Point(er, 0), pi.key);
    var ck1, k1 := Kdf1(ck0, ee), Kdf2(ck0, ee);
    var ck2, k2 := Kdf1(ck1, es), Kdf2(ck1, es);
    var k3 := Kdf2(ck2, se);
    var d1 := Mix(Mix(ck0, Name("lightning-node-connect")), Point(ei, 0));
    var c1 := Seal(Zero, 0, d1, Plain([]));
    var d2 := Mix(Mix(d1, c1), Point(er, 0));
    var c2 := Seal(k1, 0, d2, Point(pr.key, 0));
    var d3 := Mix(d2, c2);
    var c3 := Seal(k2, 0, d3, Plain(if version == 0 then Fitted(Be16(|auth|) + auth, 500) else Be32(|auth|)));
    var c4 := Seal(k2, 1, Mix(d3, c3), Plain(auth));
    var d4 := if version == 0 then Mix(d3, c3) else Mix(Mix(d3, c3), c4);
    var c5 := Seal(k2, if version == 0 then 1 else 2, d4, Point(pi.key, 0));
    var c6 := Seal(k3, 0, Mix(d4, c5), Plain([]));
    ([Raw(pi.minVersion)] + (Bytes(Point(ei, pi.passphrase)) + Bytes(c1)),
     [Raw(version)] + (Bytes(Point(er, 0)) + Bytes(c2) + (if version == 0 then Bytes(c3) else Bytes(c3) + Bytes(c4))),
     [Raw(version)] + (Bytes(c5) + Bytes(c6)))
  }

  lemma {:induction false} SealedSizes(texts: seq<uint8>)
    ensures forall k, n, d :: |Bytes(Seal(k, n, d, Plain(texts)))| == |texts| + 16
    ensures forall k, n, d, p, m :: |Bytes(Seal(k, n, d, Point(p, m)))| == 49
    ensures forall p, m :: |Bytes(Point(p, m))| == 33
  {
    assert Len(Plain(texts)) == |texts|;
    forall p, m
      ensures Len(Point(p, m)) == 33
    {
    }
  }

  /** How long they are. */
  lemma {:induction false} XXSizes(pi: Party, pr: Party)
    requires pi.ephemerals != [] && pr.ephemerals != []
    ensures var (one, two, three) := XXScript(pi, pr);
            |one| == 50 && |two| == (if pr.maxVersion == 0 then 599 else 119 + |pr.auth|) && |three| == 66
  {
    hide Bytes, Ecdh, Be32;
    var auth := pr.auth;
    SealedSizes([]);
    SealedSizes(auth);
    SealedSizes(Fitted(Be16(|auth|) + auth, 500));
    SealedSizes(Be32(|auth|));
  }

  // -------------------------------------------------------------------------
  // Act after act

  /** Two machines that agree and fit the acts still to come. */
  predicate Stage(i: State, r: State, acts: seq<MessagePattern>, k: Known) {
    && Agree(i, r) && Shared(i, r, k) && i.initiator && !r.initiator
    && ActsOk(k, acts) && ActsFit(SettingsOf(i), SettingsOf(r), acts)
  }

  lemma {:induction false} NextStage(i: State, r: State, acts: seq<MessagePattern>, k: Known)
    returns (i1: State, r1: State, out: Wire)
    requires acts != [] && Stage(i, r, acts, k)
    ensures Stage(i1, r1, acts[1..], AfterTokens(k, acts[0].tokens, acts[0].initiator))
    ensures acts[0].initiator ==>
              && WriteAct(i, acts[0]) == Some((i1, out)) && ReadAct(r, acts[0], out) == Some((r1, []))
              && Acted(i, r, acts[0], i1, r1)
    ensures !acts[0].initiator ==>
              && WriteAct(r, acts[0]) == Some((r1, out)) && ReadAct(i, acts[0], out) == Some((i1, []))
              && Acted(r, i, acts[0], r1, i1)
    ensures RingOf(i1, r1) == TurnedAll(RingOf(i, r), acts[0].tokens, acts[0].initiator)
  {
    hide WriteAct, ReadAct, Acted, TurnedAll, AfterTokens, Chain, ActSecrets;
    i1, r1, out := FirstActComplete(i, r, acts, k);
    assert [] + out == out;
  }

  /** Packets are what the acts write, and each is read by the other side. */
  lemma {:induction false} ThreePackets(acts: seq<MessagePattern>, i0: State, i1: State, i2: State, i3: State,
                                        r0: State, r1: State, r2: State, r3: State, one: Wire, two: Wire, three: Wire)
    requires |acts| == 3 && acts[0].initiator && !acts[1].initiator && acts[2].initiator
    requires i0.initiator && i1.initiator && i2.initiator && !r0.initiator && !r1.initiator && !r2.initiator
    requires WriteAct(i0, acts[0]) == Some((i1, one)) && ReadAct(r0, acts[0], one) == Some((r1, []))
    requires WriteAct(r1, acts[1]) == Some((r2, two)) && ReadAct(i1, acts[1], two) == Some((i2, []))
    requires WriteAct(i2, acts[2]) == Some((i3, three)) && ReadAct(r2, acts[2], three) == Some((r3, []))
    ensures FetchSide(i0, acts, Feed([], [two])) == Some((i3, [one, three], Feed([], [])))
    ensures FetchSide(r0, acts, Feed([], [one, three])) == Some((r3, [two], Feed([], [])))
  {
    hide WriteAct, ReadAct;
    var rest := acts[1..];
    assert rest[0] == acts[1] && rest[1..] == acts[2..] && acts[2..][0] == acts[2] && acts[2..][1..] == [];
    assert [two] + [] == [two] && [one] + [three] == [one, three] && [three] + [] == [three];
    PacketWritten(i2, acts[2..], Feed([], []));
    PacketRead(i1, rest, two, [], i2);
    PacketWritten(i0, acts, Feed([], [two]));
    PacketRead(r2, acts[2..], three, [], r3);
    PacketWritten(r1, rest, Feed([], [three]));
    PacketRead(r0, acts, one, [three], r1);
  }

  lemma {:induction false} TwoPackets(acts: seq<MessagePattern>, i0: State, i1: State, i2: State,
                                      r0: State, r1: State, r2: State, one: Wire, two: Wire)
    requires |acts| == 2 && acts[0].initiator && !acts[1].initiator
    requires i0.initiator && i1.initiator && !r0.initiator && !r1.initiator
    requires WriteAct(i0, acts[0]) == Some((i1, one)) && ReadAct(r0, acts[0], one) == Some((r1, []))
    requires WriteAct(r1, acts[1]) == Some((r2, two)) && ReadAct(i1, acts[1], two) == Some((i2, []))
    ensures FetchSide(i0, acts, Feed([], [two])) == Some((i2, [one], Feed([], [])))
    ensures FetchSide(r0, acts, Feed([], [one])) == Some((r2, [two], Feed([], [])))
  {
    hide WriteAct, ReadAct;
    var rest := acts[1..];
    assert rest[0] == acts[1] && rest[1..] == [];
    assert [two] + [] == [two] && [one] + [] == [one];
    PacketRead(i1, rest, two, [], i2);
    PacketWritten(i0, acts, Feed([], [two]));
    PacketWritten(r1, rest, Feed([], []));
    PacketRead(r0, acts, one, [], r1);
  }

  /** What two machines are configured with, as far as the acts depend on it. */
  predicate Begun(i: State, r: State, pi: Party, pr: Party, name: Term, digest: Term) {
    && CoreOf(i) == CoreOf(r) == Core(Zero, 0, name, digest)
    && RingOf(i, r) == Ring(pi.key, pr.key, None, None, pi.ephemerals, pr.ephemerals)
    && i.passphrase == pi.passphrase && r.payloadToSend == pr.auth && r.version == pr.maxVersion
  }

  lemma {:induction false} XXBegins(pi: Party, pr: Party) returns (i: State, r: State)
    requires XXCondition(pi, pr)
    ensures NewMachine(XX_PATTERN, pi, true) == Some(i) && NewMachine(XX_PATTERN, pr, false) == Some(r)
    ensures Stage(i, r, XX_PATTERN.acts, Known(false, false, false, false)) && i.version == pi.minVersion
    ensures var name := Name("Noise_" + "XXeke+SPAKE2" + "_secp256k1_ChaChaPoly_SHA256");
            Begun(i, r, pi, pr, name, Mix(name, Name("lightning-node-connect")))
  {
    hide ActsFit, ActsOk;
    XXInOrder();
    XXCompatible(pi, pr);
    i, r := MachinesComplete(XX_PATTERN, pi, pr);
    assert XX != KK by { assert |XX| != |KK|; }
  }

  lemma {:induction false} XXOne(pi: Party, pr: Party, i: State, r: State) returns (i1: State, r1: State)
    requires XXCondition(pi, pr) && Stage(i, r, XX_PATTERN.acts, Known(false, false, false, false))
    requires i.version == pi.minVersion
    requires var name := Name("Noise_" + "XXeke+SPAKE2" + "_secp256k1_ChaChaPoly_SHA256");
             Begun(i, r, pi, pr, name, Mix(name, Name("lightning-node-connect")))
    ensures WriteAct(i, XX_PATTERN.acts[0]) == Some((i1, XXScript(pi, pr).0))
    ensures ReadAct(r, XX_PATTERN.acts[0], XXScript(pi, pr).0) == Some((r1, []))
    ensures Stage(i1, r1, XX_PATTERN.acts[1..], Known(true, false, false, false))
    ensures RingOf(i1, r1) == Ring(pi.key, pr.key, Some(pi.ephemerals[0]), None, pi.ephemerals[1..], pr.ephemerals)
    ensures r1.version == pr.maxVersion && r1.payloadToSend == pr.auth && CoreOf(r1) == XXCoreOne(pi)
  {
    hide WriteAct, ReadAct, ActsFit, ActsOk, AfterTokens, TurnedAll, Bytes, EphemeralsIn, Shared;
    var k := Known(false, false, false, false);
    var out;
    i1, r1, out := NextStage(i, r, XX_PATTERN.acts, k);
    OneTurn(k, RingOf(i, r), ME, true);
    var w := XXWritesOne(i);
  }

  lemma {:induction false} OneTurn(k: Known, ring: Ring, t: Token, initiator: bool)
    ensures AfterTokens(k, [t], initiator) == AfterToken(k, t, initiator)
    ensures TurnedAll(ring, [t], initiator) == Turned(ring, t, initiator)
  {
    assert [t][1..] == [];
  }

  /** The symmetric state after the first act. */
  function XXCoreOne(pi: Party): Core
    requires pi.ephemerals != []
  {
    var ck0, e := Name("Noise_" + "XXeke+SPAKE2" + "_secp256k1_ChaChaPoly_SHA256"), Point(pi.ephemerals[0], 0);
    Core(Zero, 0, ck0, Mix(Mix(ck0, Name("lightning-node-connect")), e)).Sent(Plain([]))
  }

  /** And after the second. */
  function XXCoreTwo(pi: Party, pr: Party): Core
    requires pi.ephemerals != [] && pr.ephemerals != []
  {
    var ei, er, s := pi.ephemerals[0], pr.ephemerals[0], Point(pr.key, 0);
    var c1 := XXCoreOne(pi).Hashed(Point(er, 0)).Keyed(Ecdh(Point(ei, 0), er));
    AuthSent(c1.Sent(s).Keyed(Ecdh(Point(ei, 0), pr.key)), pr.maxVersion, pr.auth)
  }

  lemma {:induction false} XXTwo(pi: Party, pr: Party, i: State, r: State) returns (i1: State, r1: State)
    requires XXCondition(pi, pr) && Stage(i, r, XX_PATTERN.acts[1..], Known(true, false, false, false))
    requires RingOf(i, r) == Ring(pi.key, pr.key, Some(pi.ephemerals[0]), None, pi.ephemerals[1..], pr.ephemerals)
    requires r.version == pr.maxVersion && r.payloadToSend == pr.auth && CoreOf(r) == XXCoreOne(pi)
    ensures WriteAct(r, XX_PATTERN.acts[1]) == Some((r1, XXScript(pi, pr).1))
    ensures ReadAct(i, XX_PATTERN.acts[1], XXScript(pi, pr).1) == Some((i1, []))
    ensures Stage(i1, r1, XX_PATTERN.acts[2..], Known(true, false, true, true))
    ensures RingOf(i1, r1) == Ring(pi.key, pr.key, Some(pi.ephemerals[0]), Some(pr.ephemerals[0]),
                                   pi.ephemerals[1..], pr.ephemerals[1..])
    ensures i1.version == pr.maxVersion && CoreOf(i1) == XXCoreTwo(pi, pr)
  {
    hide WriteAct, ReadAct, ActsFit, ActsOk, AfterTokens, TurnedAll, Bytes, EphemeralsIn, Ecdh, Delivered;
    var acts, ei := XX_PATTERN.acts[1..], pi.ephemerals[0];
    assert acts[0] == XX_PATTERN.acts[1] && acts[1..] == XX_PATTERN.acts[2..];
    var k := Known(true, false, false, false);
    var out;
    i1, r1, out := NextStage(i, r, acts, k);
    FourTurns(k, RingOf(i, r));
    var w := XXWritesTwo(r, ei);
    XXBytesTwo(pi, pr);
  }

  lemma {:induction false} FourTurns(k: Known, ring: Ring)
    ensures AfterTokens(k, [E, EE, S, ES], false) == k.(rE := true, rS := true)
    ensures TurnedAll(ring, [E, EE, S, ES], false) == Turned(ring, E, false)
  {
    var ts := [E, EE, S, ES];
    assert ts[1..] == [EE, S, ES] && ts[1..][1..] == [S, ES] && ts[1..][1..][1..] == [ES];
    OneTurn(k.(rE := true, rS := true), Turned(ring, E, false), ES, false);
    assert AfterTokens(k.(rE := true), [S, ES], false) == AfterTokens(k.(rE := true, rS := true), [ES], false);
  }

  /** The bytes of the second act in terms of the symmetric state. */
  lemma {:induction false} XXBytesTwo(pi: Party, pr: Party)
    requires pi.ephemerals != [] && pr.ephemerals != []
    ensures var ei, er, s := pi.ephemerals[0], pr.ephemerals[0], Point(pr.key, 0);
            var c1 := XXCoreOne(pi).Hashed(Point(er, 0)).Keyed(Ecdh(Point(ei, 0), er));
            var c2 := c1.Sent(s).Keyed(Ecdh(Point(ei, 0), pr.key));
            XXScript(pi, pr).1 == [Raw(pr.maxVersion)] + (Bytes(Point(er, 0)) + Bytes(c1.Sealing(s)) +
                                                          AuthSealed(c2, pr.maxVersion, pr.auth))
  {
    hide Bytes, Ecdh, Be32;
    EcdhCommutes(pi.ephemerals[0], pr.ephemerals[0]);
    EcdhCommutes(pi.ephemerals[0], pr.key);
  }

  lemma {:induction false} XXThree(pi: Party, pr: Party, i: State, r: State) returns (i1: State, r1: State)
    requires XXCondition(pi, pr) && Stage(i, r, XX_PATTERN.acts[2..], Known(true, false, true, true))
    requires RingOf(i, r) == Ring(pi.key, pr.key, Some(pi.ephemerals[0]), Some(pr.ephemerals[0]),
                                  pi.ephemerals[1..], pr.ephemerals[1..])
    requires i.version == pr.maxVersion && CoreOf(i) == XXCoreTwo(pi, pr)
    ensures WriteAct(i, XX_PATTERN.acts[2]) == Some((i1, XXScript(pi, pr).2))
    ensures ReadAct(r, XX_PATTERN.acts[2], XXScript(pi, pr).2) == Some((r1, []))
  {
    hide WriteAct, ReadAct, ActsFit, ActsOk, AfterTokens, TurnedAll, Bytes, EphemeralsIn, Ecdh;
    var acts := XX_PATTERN.acts[2..];
    assert acts[0] == XX_PATTERN.acts[2];
    var out;
    i1, r1, out := NextStage(i, r, acts, Known(true, false, true, true));
    var w := XXWritesThree(i, pr.ephemerals[0]);
    XXBytesThree(pi, pr);
  }

  lemma {:induction false} XXBytesThree(pi: Party, pr: Party)
    requires pi.ephemerals != [] && pr.ephemerals != []
    ensures var er, s := pr.ephemerals[0], Point(pi.key, 0);
            var c := XXCoreTwo(pi, pr);
            XXScript(pi, pr).2 ==
            [Raw(pr.maxVersion)] +
            (Bytes(c.Sealing(s)) + Bytes(c.Sent(s).Keyed(Ecdh(Point(er, 0), pi.key)).Sealing(Plain([]))))
    ensures XXCoreTwo(pi, pr).nonce <= 2
  {
    hide Bytes, Ecdh, Be32;
    EcdhCommutes(pi.ephemerals[0], pr.ephemerals[0]);
    EcdhCommutes(pi.ephemerals[0], pr.key);
  }

  /** Through a mailbox, XX between fitting parties is these three control messages. */
  lemma {:induction false} XXTranscript(pi: Party, pr: Party) returns (i: State, r: State)
    requires XXCondition(pi, pr)
    ensures var (one, two, three) := XXScript(pi, pr);
            BothFinish(XX_PATTERN, pi, pr, Feed([], [two]), Feed([], [one, three]), i, r, [one, three], [two])
  {
    hide XXScript, WriteAct, ReadAct, FetchSide, NewMachine, ActsOk, ActsFit, Agree, Shared;
    var i0, r0 := XXBegins(pi, pr);
    var i1, r1 := XXOne(pi, pr, i0, r0);
    var i2, r2 := XXTwo(pi, pr, i1, r1);
    i, r := XXThree(pi, pr, i2, r2);
    var (one, two, three) := XXScript(pi, pr);
    ThreePackets(XX_PATTERN.acts, i0, i1, i2, i, r0, r1, r2, r, one, two, three);
  }

  // -------------------------------------------------------------------------
  // The acts of KK

  /** The two acts of KK. */
  function KKScript(pi: Party, pr: Party): (Wire, Wire)
    requires pi.ephemerals != [] && pr.ephemerals != []
  {
    var ei, er, auth := pi.ephemerals[0], pr.ephemerals[0], pr.auth;
    var ck0 := Name("Noise_" + "KK" + "_secp256k1_ChaChaPoly_SHA256");
    var es, ss := Ecdh(Point(pr.key, 0), ei), Ecdh(Point(pr.key, 0), pi.key);
    var ee, se := Ecdh(Point(er, 0), ei), Ecdh(Point(er, 0), pi.key);
    var ck1 := Kdf1(ck0, es);
    var ck2, k2 := Kdf1(ck1, ss), Kdf2(ck1, ss);
    var ck3 := Kdf1(ck2, ee);
    var k4 := Kdf2(ck3, se);
    var d0 := Mix(Mix(Mix(ck0, Name("lightning-node-connect")), Point(pi.key, 0)), Point(pr.key, 0));
    var d1 := Mix(d0, Point(ei, 0));
    var c1 := Seal(k2, 0, d1, Plain([]));
    var d2 := Mix(Mix(d1, c1), Point(er, 0));
    var c2 := Seal(k4, 0, d2, Plain(Be32(|auth|)));
    var c3 := Seal(k4, 1, Mix(d2, c2), Plain(auth));
    ([Raw(2)] + (Bytes(Point(ei, 0)) + Bytes(c1)), [Raw(2)] + (Bytes(Point(er, 0)) + (Bytes(c2) + Bytes(c3))))
  }

  lemma {:induction false} KKSizes(pi: Party, pr: Party)
    requires pi.ephemerals != [] && pr.ephemerals != []
    ensures |KKScript(pi, pr).0| == 50 && |KKScript(pi, pr).1| == 70 + |pr.auth|
  {
    hide Bytes, Ecdh, Be32;
    SealedSizes([]);
    SealedSizes(pr.auth);
    SealedSizes(Be32(|pr.auth|));
  }

  /** The bytes of an act that sends an ephemeral key and then mixes two secrets. */
  lemma {:induction false} KKWrites(w: State, a: Token, b: Token, s1: (PublicKey, nat), s2: (PublicKey, nat))
    returns (w2: State)
    requires w.ephemerals != [] && IsDh(a) && IsDh(b)
    requires var w1 := MixHash(WithEphemeral(w), Point(w.ephemerals[0], 0));
             DhSecret(w1, a) == Some(Ecdh(s1.0, s1.1)) && DhSecret(w1, b) == Some(Ecdh(s2.0, s2.1))
    ensures WriteTokens(w, [E, a, b]) == Some((w2, Bytes(Point(w.ephemerals[0], 0))))
    ensures CoreOf(w2) == CoreOf(w).Hashed(Point(w.ephemerals[0], 0)).Keyed(Ecdh(s1.0, s1.1)).Keyed(Ecdh(s2.0, s2.1))
    ensures w2.version == w.version && w2.payloadToSend == w.payloadToSend
  {
    hide WriteToken, WriteTokens, Bytes, Ecdh;
    var e := w.ephemerals[0];
    var w0 := WritesEphemeral(w);
    var w1 := WritesDh(w0, a, s1.0, s1.1);
    w2 := WritesDh(w1, b, s2.0, s2.1);
    WriteNone(w2);
    WriteNext(w1, b, [], w2, [], w2, []);
    WriteNext(w0, a, [b] + [], w1, [], w2, [] + []);
    WriteNext(w, E, [a] + ([b] + []), w0, Bytes(Point(e, 0)), w2, [] + ([] + []));
    assert [E] + ([a] + ([b] + [])) == [E, a, b];
    assert Bytes(Point(e, 0)) + ([] + ([] + [])) == Bytes(Point(e, 0));
  }

  lemma {:induction false} KKWritesOne(w: State, rs: nat) returns (w': State)
    requires w.ephemerals != [] && w.version == 2 && w.initiator && w.remoteStatic == Some(Point(rs, 0))
    ensures var e := w.ephemerals[0];
            var c := CoreOf(w).Hashed(Point(e, 0)).Keyed(Ecdh(Point(rs, 0), e)).
                       Keyed(Ecdh(Point(rs, 0), w.localStatic));
            && WriteAct(w, KK_PATTERN.acts[0]) ==
               Some((w', [Raw(2)] + (Bytes(Point(e, 0)) + Bytes(c.Sealing(Plain([]))))))
            && CoreOf(w') == c.Sent(Plain([]))
  {
    hide WriteToken, WriteTokens, WritePayload, WriteAct, Bytes, Ecdh;
    var mp, e := KK_PATTERN.acts[0], w.ephemerals[0];
    var w1 := KKWrites(w, ES, SS, (Point(rs, 0), e), (Point(rs, 0), w.localStatic));
    w' := PlainPayload(w1, 1);
    WritesAct(w, mp, w1, Bytes(Point(e, 0)), w', Bytes(CoreOf(w1).Sealing(Plain([]))));
  }

  lemma {:induction false} KKWritesTwo(w: State, ei: nat, is_: nat) returns (w': State)
    requires w.ephemerals != [] && w.version == 2 && !w.initiator && |w.payloadToSend| < MAX_INT32
    requires w.remoteEphemeral == Some(Point(ei, 0)) && w.remoteStatic == Some(Point(is_, 0))
    ensures var e := w.ephemerals[0];
            var c := CoreOf(w).Hashed(Point(e, 0)).Keyed(Ecdh(Point(ei, 0), e)).Keyed(Ecdh(Point(is_, 0), e));
            WriteAct(w, KK_PATTERN.acts[1]) ==
            Some((w', [Raw(2)] + (Bytes(Point(e, 0)) + AuthSealed(c, 2, w.payloadToSend))))
  {
    hide WriteToken, WriteTokens, WritePayload, WriteAct, Bytes, Ecdh, AuthSealed;
    var mp, e := KK_PATTERN.acts[1], w.ephemerals[0];
    var w1 := KKWrites(w, EE, SE, (Point(ei, 0), e), (Point(is_, 0), e));
    w' := AuthPayload(w1);
    WritesAct(w, mp, w1, Bytes(Point(e, 0)), w', AuthSealed(CoreOf(w1), 2, w.payloadToSend));
  }

  lemma {:induction false} KKBegins(pi: Party, pr: Party) returns (i: State, r: State)
    requires KKCondition(pi, pr)
    ensures NewMachine(KK_PATTERN, pi, true) == Some(i) && NewMachine(KK_PATTERN, pr, false) == Some(r)
    ensures Stage(i, r, KK_PATTERN.acts, Known(false, true, false, true)) && i.version == 2
    ensures i.remoteStatic == Some(Point(pr.key, 0))
    ensures KKBegun(i, r, pi, pr)
  {
    hide ActsFit, ActsOk;
    KKInOrder();
    KKCompatible(pi, pr);
    i, r := MachinesComplete(KK_PATTERN, pi, pr);
    var pre := KK_PATTERN.pre;
    assert pre[0].initiator && !pre[1].initiator && pre[1..] == [pre[1]] && [pre[1]][1..] == [];
    KKDigest(pi, pr, i);
  }

  lemma {:induction false} KKDigest(pi: Party, pr: Party, i: State)
    requires KKCondition(pi, pr) && NewMachine(KK_PATTERN, pi, true) == Some(i)
    ensures i.digest == KKStart(pi, pr)
  {
    var pre, d := KK_PATTERN.pre, Mix(Name(ProtocolName(KK_PATTERN)), PROLOGUE);
    assert pre[0].initiator && !pre[1].initiator && pre[1..][0] == pre[1] && pre[1..][1..] == [];
    assert MixPre(d, pre, pi, true) == MixPre(Mix(d, Point(pi.key, 0)), pre[1..], pi, true);
    assert MixPre(Mix(d, Point(pi.key, 0)), pre[1..], pi, true) ==
           Some(Mix(Mix(d, Point(pi.key, 0)), Point(pr.key, 0)));
  }

  /** The digest after both static keys, which are known in advance. */
  function KKStart(pi: Party, pr: Party): Term {
    Mix(Mix(Mix(Name("Noise_" + "KK" + "_secp256k1_ChaChaPoly_SHA256"), Name("lightning-node-connect")),
            Point(pi.key, 0)), Point(pr.key, 0))
  }

  predicate KKBegun(i: State, r: State, pi: Party, pr: Party) {
    && CoreOf(i) == CoreOf(r) == Core(Zero, 0, Name("Noise_" + "KK" + "_secp256k1_ChaChaPoly_SHA256"), KKStart(pi, pr))
    && RingOf(i, r) == Ring(pi.key, pr.key, None, None, pi.ephemerals, pr.ephemerals)
    && r.payloadToSend == pr.auth && r.version == pr.maxVersion
  }

  /** The symmetric state after the first act. */
  function KKCoreOne(pi: Party, pr: Party): Core
    requires pi.ephemerals != []
  {
    var e, s := pi.ephemerals[0], Point(pr.key, 0);
    Core(Zero, 0, Name("Noise_" + "KK" + "_secp256k1_ChaChaPoly_SHA256"), KKStart(pi, pr)).
      Hashed(Point(e, 0)).Keyed(Ecdh(s, e)).Keyed(Ecdh(s, pi.key)).Sent(Plain([]))
  }

  lemma {:induction false} KKOne(pi: Party, pr: Party, i: State, r: State) returns (i1: State, r1: State)
    requires KKCondition(pi, pr) && Stage(i, r, KK_PATTERN.acts, Known(false, true, false, true))
    requires KKBegun(i, r, pi, pr) && i.version == 2 && i.remoteStatic == Some(Point(pr.key, 0))
    ensures WriteAct(i, KK_PATTERN.acts[0]) == Some((i1, KKScript(pi, pr).0))
    ensures ReadAct(r, KK_PATTERN.acts[0], KKScript(pi, pr).0) == Some((r1, []))
    ensures Stage(i1, r1, KK_PATTERN.acts[1..], Known(true, true, false, true))
    ensures RingOf(i1, r1) == Ring(pi.key, pr.key, Some(pi.ephemerals[0]), None, pi.ephemerals[1..], pr.ephemerals)
    ensures r1.version == 2 && r1.payloadToSend == pr.auth && CoreOf(r1) == KKCoreOne(pi, pr)
  {
    hide WriteAct, ReadAct, ActsFit, ActsOk, AfterTokens, TurnedAll, Bytes, EphemeralsIn, Shared, Ecdh;
    var k := Known(false, true, false, true);
    var out;
    i1, r1, out := NextStage(i, r, KK_PATTERN.acts, k);
    ThreeTurns(k, RingOf(i, r), ES, SS, true);
    var w := KKWritesOne(i, pr.key);
  }

  lemma {:induction false} ThreeTurns(k: Known, ring: Ring, a: Token, b: Token, initiator: bool)
    requires IsDh(a) && IsDh(b)
    ensures AfterTokens(k, [E, a, b], initiator) == AfterToken(k, E, initiator)
    ensures TurnedAll(ring, [E, a, b], initiator) == Turned(ring, E, initiator)
  {
    var ts := [E, a, b];
    assert ts[1..] == [a, b] && ts[1..][1..] == [b];
    OneTurn(AfterToken(k, E, initiator), Turned(ring, E, initiator), b, initiator);
  }

  lemma {:induction false} KKTwo(pi: Party, pr: Party, i: State, r: State) returns (i1: State, r1: State)
    requires KKCondition(pi, pr) && Stage(i, r, KK_PATTERN.acts[1..], Known(true, true, false, true))
    requires RingOf(i, r) == Ring(pi.key, pr.key, Some(pi.ephemerals[0]), None, pi.ephemerals[1..], pr.ephemerals)
    requires r.version == 2 && r.payloadToSend == pr.auth && CoreOf(r) == KKCoreOne(pi, pr)
    ensures WriteAct(r, KK_PATTERN.acts[1]) == Some((r1, KKScript(pi, pr).1))
    ensures ReadAct(i, KK_PATTERN.acts[1], KKScript(pi, pr).1) == Some((i1, []))
  {
    hide WriteAct, ReadAct, ActsFit, ActsOk, AfterTokens, TurnedAll, Bytes, EphemeralsIn, Ecdh;
    var acts := KK_PATTERN.acts[1..];
    assert acts[0] == KK_PATTERN.acts[1];
    var out;
    i1, r1, out := NextStage(i, r, acts, Known(true, true, false, true));
    var w := KKWritesTwo(r, pi.ephemerals[0], pi.key);
    KKBytesTwo(pi, pr);
  }

  lemma {:induction false} KKBytesTwo(pi: Party, pr: Party)
    requires pi.ephemerals != [] && pr.ephemerals != []
    ensures var e := pr.ephemerals[0];
            var c := KKCoreOne(pi, pr).Hashed(Point(e, 0)).Keyed(Ecdh(Point(pi.ephemerals[0], 0), e)).
                       Keyed(Ecdh(Point(pi.key, 0), e));
            KKScript(pi, pr).1 == [Raw(2)] + (Bytes(Point(e, 0)) + AuthSealed(c, 2, pr.auth))
  {
    hide Bytes, Ecdh, Be32;
    EcdhCommutes(pi.ephemerals[0], pr.ephemerals[0]);
    EcdhCommutes(pi.key, pr.ephemerals[0]);
  }

  /** Through a mailbox, KK between fitting parties is these two control messages. */
  lemma {:induction false} KKTranscript(pi: Party, pr: Party) returns (i: State, r: State)
    requires KKCondition(pi, pr)
    ensures var (one, two) := KKScript(pi, pr);
            BothFinish(KK_PATTERN, pi, pr, Feed([], [two]), Feed([], [one]), i, r, [one], [two])
  {
    hide KKScript, WriteAct, ReadAct, FetchSide, NewMachine, ActsOk, ActsFit, Agree, Shared;
    var i0, r0 := KKBegins(pi, pr);
    var i1, r1 := KKOne(pi, pr, i0, r0);
    i, r := KKTwo(pi, pr, i1, r1);
    var (one, two) := KKScript(pi, pr);
    TwoPackets(KK_PATTERN.acts, i0, i1, i, r0, r1, r, one, two);
  }
}
