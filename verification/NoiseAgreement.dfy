/** Two machines that run the same pattern finish exactly when their configurations fit, and then
    agree on everything (mailbox/noise.go). */
module NoiseAgreement {
  import opened Common
  import opened Terms
  import opened Ciphers
  import opened NoisePatterns
  import opened NoiseHandshake
  import opened KeySchedule

  // -------------------------------------------------------------------------
  // What the two sides have in common

  /** Same keys, nonce and digest. */
  predicate Agree(w: State, r: State) {
    w.cipher == r.cipher && w.chainingKey == r.chainingKey && w.digest == r.digest
  }

  /** What holds even when the two sides disagree: they have done the same number of operations, and
      the keys in use agree exactly when the chaining keys do. */
  predicate Linked(w: State, r: State) {
    && w.cipher.nonce == r.cipher.nonce
    && (w.cipher.key == r.cipher.key <==> w.chainingKey == r.chainingKey)
    && (w.chainingKey == r.chainingKey ==> w.cipher.salt == r.cipher.salt)
  }

  /** The keys of `a` that `b` has received. */
  predicate HasKeys(a: State, b: State, ephemeral: bool, static_: bool) {
    && (ephemeral ==> a.localEphemeral.Some? && b.remoteEphemeral == Some(Point(a.localEphemeral.value, 0)))
    && (static_ ==> b.remoteStatic == Some(Point(a.localStatic, 0)))
  }

  /** `w` writes and `r` reads; both have each other's keys as far as `k` says. */
  predicate Shared(w: State, r: State, k: Known) {
    && r.initiator == !w.initiator
    && (if w.initiator then HasKeys(w, r, k.iE, k.iS) && HasKeys(r, w, k.rE, k.rS)
        else HasKeys(w, r, k.rE, k.rS) && HasKeys(r, w, k.iE, k.iS))
  }

  /** Nothing but keys and digests has changed. */
  predicate SameSettings(h: State, h': State) {
    && h'.initiator == h.initiator && h'.localStatic == h.localStatic && h'.passphrase == h.passphrase
    && h'.payloadToSend == h.payloadToSend && h'.receivedPayload == h.receivedPayload
    && h'.minVersion == h.minVersion && h'.maxVersion == h.maxVersion && h'.version == h.version
  }

  // -------------------------------------------------------------------------
  // Ciphertexts

  /** A ciphertext opens exactly for a reader with the same key, nonce and digest. */
  lemma {:induction false} DecryptExact(w: State, r: State, text: Term)
    ensures Decrypted(r, Bytes(Ciphertext(w, text))) ==
            (if w.cipher.key == r.cipher.key && w.cipher.nonce == r.cipher.nonce && w.digest == r.digest
             then Some((MixHash(r.(cipher := Bumped(r.cipher)), Ciphertext(w, text)), text)) else None)
  {
    ParseBytes(Ciphertext(w, text));
  }

  lemma {:induction false} ReadSealedExact(w: State, r: State, b: seq<uint8>, size: nat, rest: Wire)
    requires size == |b| + MAC_SIZE
    ensures ReadSealed(r, size, Bytes(Ciphertext(w, Plain(b))) + rest) ==
            (if w.cipher.key == r.cipher.key && w.cipher.nonce == r.cipher.nonce && w.digest == r.digest
             then Some((MixHash(r.(cipher := Bumped(r.cipher)), Ciphertext(w, Plain(b))), b, rest)) else None)
  {
    var ct := Bytes(Ciphertext(w, Plain(b)));
    assert Len(Plain(b)) == |b|;
    TakeDrop(ct, rest);
    DecryptExact(w, r, Plain(b));
  }

  // -------------------------------------------------------------------------
  // Tokens: sides that agree stay in step

  lemma {:induction false} EcdhCommutes(a: nat, b: nat)
    ensures Ecdh(Point(a, 0), b) == Ecdh(Point(b, 0), a)
  {
    EcdhExact(a, b, b, a);
  }

  lemma {:induction false} SameSecret(w: State, r: State, t: Token, k: Known)
    requires Shared(w, r, k) && TokenOk(k, t) && (t.EE? || t.ES? || t.SE? || t.SS?)
    ensures DhSecret(w, t).Some? && DhSecret(w, t) == DhSecret(r, t)
  {
    match t
    case EE => EcdhCommutes(w.localEphemeral.value, r.localEphemeral.value);
    case SS => EcdhCommutes(w.localStatic, r.localStatic);
    case ES =>
      if w.initiator {
        EcdhCommutes(w.localEphemeral.value, r.localStatic);
      } else {
        EcdhCommutes(r.localEphemeral.value, w.localStatic);
      }
    case SE =>
      if w.initiator {
        EcdhCommutes(w.localStatic, r.localEphemeral.value);
      } else {
        EcdhCommutes(r.localStatic, w.localEphemeral.value);
      }
  }

  lemma {:induction false} ReadKeyOf(k: nat, m: int, rest: Wire)
    ensures ReadKey(Bytes(Point(k, m)) + rest) == Some(Point(k, m))
    ensures (Bytes(Point(k, m)) + rest)[PUBKEY_SIZE..] == rest
  {
    TakeDrop(Bytes(Point(k, m)), rest);
    ParseBytes(Point(k, m));
  }

  /** Whether one more ephemeral key is needed. */
  function Draws(t: Token): nat { if t.E? || t.ME? then 1 else 0 }

  lemma {:induction false} StaticSize(w: State)
    ensures |Bytes(Ciphertext(w, Point(w.localStatic, 0)))| == PUBKEY_SIZE + MAC_SIZE
  {
    assert Len(Point(w.localStatic, 0)) == PUBKEY_SIZE;
  }

  lemma {:induction false} TokenComplete(w: State, r: State, t: Token, k: Known)
    returns (w': State, out: Wire, r': State)
    requires Agree(w, r) && Shared(w, r, k) && TokenOk(k, t)
    requires t.ME? ==> w.passphrase == r.passphrase
    requires |w.ephemerals| >= Draws(t)
    ensures WriteToken(w, t) == Some((w', out))
    ensures ReadsToken(r, t, out, r')
    ensures Agree(w', r') && Shared(w', r', AfterToken(k, t, w.initiator))
    ensures SameSettings(w, w') && SameSettings(r, r')
    ensures |w'.ephemerals| == |w.ephemerals| - Draws(t) && r'.ephemerals == r.ephemerals
    ensures Keyed(w, r, [t], w', r')
  {
    hide Agree, Shared, SameSettings, ReadToken, WriteToken, Reader, TokenOk, Keyed;
    TokenStates(w, r, t, k);
    TokenKeyed(w, r, t, k);
    w', out, r' := WriteToken(w, t).value.0, WriteToken(w, t).value.1, Reader(w, r, t);
    forall rest
      ensures ReadToken(r, t, out + rest) == Some((r', rest))
    {
      TokenReadable(w, r, t, k, out, rest);
    }
  }

  predicate IsDh(t: Token) { t.EE? || t.ES? || t.SE? || t.SS? }

  /** What a token that is written and read does to the states of both sides. */
  predicate InStep(w: State, r: State, t: Token, k: Known, w': State, r': State) {
    && Agree(w', r') && Shared(w', r', AfterToken(k, t, w.initiator))
    && SameSettings(w, w') && SameSettings(r, r')
    && |w'.ephemerals| == |w.ephemerals| - Draws(t) && r'.ephemerals == r.ephemerals
  }

  lemma {:induction false} TokenStates(w: State, r: State, t: Token, k: Known)
    requires Agree(w, r) && Shared(w, r, k) && TokenOk(k, t)
    requires t.ME? ==> w.passphrase == r.passphrase
    requires |w.ephemerals| >= Draws(t)
    ensures WriteToken(w, t).Some? && (IsDh(t) ==> DhSecret(r, t).Some?)
    ensures InStep(w, r, t, k, WriteToken(w, t).value.0, Reader(w, r, t))
  {
    hide InStep, Agree, Shared, DhSecret, TokenOk;
    if IsDh(t) {
      SecretStates(w, r, t, k);
    } else if t.S? {
      StaticStates(w, r, k);
    } else {
      EphemeralStates(w, r, t, k);
    }
  }

  lemma {:induction false} SecretStates(w: State, r: State, t: Token, k: Known)
    requires Agree(w, r) && Shared(w, r, k) && TokenOk(k, t) && IsDh(t)
    ensures WriteToken(w, t).Some? && DhSecret(r, t).Some?
    ensures InStep(w, r, t, k, WriteToken(w, t).value.0, Reader(w, r, t))
  {
    hide DhSecret, TokenOk;
    SameSecret(w, r, t, k);
    assert WriteToken(w, t).value.0 == MixKey(w, DhSecret(w, t).value);
    assert Reader(w, r, t) == MixKey(r, DhSecret(r, t).value);
  }

  lemma {:induction false} StaticStates(w: State, r: State, k: Known)
    requires Agree(w, r) && Shared(w, r, k)
    ensures InStep(w, r, S, k, WriteToken(w, S).value.0, Reader(w, r, S))
  {
    hide Bytes;
  }

  lemma {:induction false} EphemeralStates(w: State, r: State, t: Token, k: Known)
    requires Agree(w, r) && Shared(w, r, k) && (t.E? || t.ME?) && w.ephemerals != []
    requires t.ME? ==> w.passphrase == r.passphrase
    ensures WriteToken(w, t).Some? && InStep(w, r, t, k, WriteToken(w, t).value.0, Reader(w, r, t))
  {
    hide Bytes;
  }

  /** The reader consumes exactly what was written, whatever follows. */
  lemma {:induction false} TokenReadable(w: State, r: State, t: Token, k: Known, out: Wire, rest: Wire)
    requires Agree(w, r) && Shared(w, r, k) && TokenOk(k, t)
    requires WriteToken(w, t).Some? && WriteToken(w, t).value.1 == out
    ensures ReadToken(r, t, out + rest) == Some((Reader(w, r, t), rest))
  {
    match t
    case E => ReadKeyOf(w.ephemerals[0], 0, rest);
    case ME => ReadKeyOf(w.ephemerals[0], w.passphrase, rest);
    case S =>
      StaticSize(w);
      TakeDrop(out, rest);
      DecryptExact(w, r, Point(w.localStatic, 0));
    case _ =>
      SameSecret(w, r, t, k);
      assert [] + rest == rest;
  }

  /** The reader's state after a token. */
  function Reader(w: State, r: State, t: Token): State
    requires (t.E? || t.ME? ==> w.ephemerals != []) && (IsDh(t) ==> DhSecret(r, t).Some?)
  {
    match t
    case E => var e := Point(w.ephemerals[0], 0); MixHash(r.(remoteEphemeral := Some(e)), e)
    case ME =>
      var e := Unmasked(Masked(Point(w.ephemerals[0], 0), w.passphrase), r.passphrase);
      MixHash(r.(remoteEphemeral := Some(e)), e)
    case S => MixHash(r.(cipher := Bumped(r.cipher), remoteStatic := Some(Point(w.localStatic, 0))),
                      Ciphertext(w, Point(w.localStatic, 0)))
    case _ => MixKey(r, DhSecret(r, t).value)
  }

  /** The private keys of writer and reader. */
  function RingOf(w: State, r: State): Ring {
    if w.initiator then
      Ring(w.localStatic, r.localStatic, w.localEphemeral, r.localEphemeral, w.ephemerals, r.ephemerals)
    else
      Ring(r.localStatic, w.localStatic, r.localEphemeral, w.localEphemeral, r.ephemerals, w.ephemerals)
  }

  /** The tokens have mixed exactly their secrets into the chaining key. */
  predicate Keyed(w: State, r: State, ts: seq<Token>, w': State, r': State) {
    && w'.initiator == w.initiator && RingOf(w', r') == TurnedAll(RingOf(w, r), ts, w.initiator)
    && w'.chainingKey == Chain(w.chainingKey, ActSecrets(RingOf(w, r), ts, w.initiator))
  }

  lemma {:induction false} SecretOfRing(w: State, r: State, t: Token, k: Known)
    requires Shared(w, r, k) && TokenOk(k, t) && IsDh(t)
    ensures DhSecret(w, t).Some? && TokenSecrets(RingOf(w, r), t) == [DhSecret(w, t).value]
  {
    SameSecret(w, r, t, k);
    if !w.initiator {
      match t
      case EE => EcdhCommutes(w.localEphemeral.value, r.localEphemeral.value);
      case SS => EcdhCommutes(w.localStatic, r.localStatic);
      case ES => EcdhCommutes(w.localStatic, r.localEphemeral.value);
      case SE => EcdhCommutes(w.localEphemeral.value, r.localStatic);
    }
  }

  lemma {:induction false} TokenKeyed(w: State, r: State, t: Token, k: Known)
    requires Shared(w, r, k) && TokenOk(k, t) && WriteToken(w, t).Some? && (IsDh(t) ==> DhSecret(r, t).Some?)
    ensures Keyed(w, r, [t], WriteToken(w, t).value.0, Reader(w, r, t))
  {
    var ring := RingOf(w, r);
    assert [t][1..] == [];
    assert TurnedAll(Turned(ring, t, w.initiator), [], w.initiator) == Turned(ring, t, w.initiator);
    assert ActSecrets(ring, [t], w.initiator) == TokenSecrets(ring, t);
    if IsDh(t) {
      SecretOfRing(w, r, t, k);
      ChainOne(w.chainingKey, DhSecret(w, t).value);
    }
  }

  lemma {:induction false} KeyedNothing(w: State, r: State)
    ensures Keyed(w, r, [], w, r)
  {
  }

  lemma {:induction false} KeyedOneMore(w: State, r: State, ts: seq<Token>, w1: State, r1: State, w2: State, r2: State)
    requires ts != [] && Keyed(w, r, [ts[0]], w1, r1) && Keyed(w1, r1, ts[1..], w2, r2)
    ensures Keyed(w, r, ts, w2, r2)
  {
    var ring := RingOf(w, r);
    assert [ts[0]][1..] == [];
    var ring1 := Turned(ring, ts[0], w.initiator);
    assert TurnedAll(ring, [ts[0]], w.initiator) == TurnedAll(ring1, [], w.initiator);
    assert ActSecrets(ring, [ts[0]], w.initiator) == TokenSecrets(ring, ts[0]) + ActSecrets(ring1, [], w.initiator);
    assert TokenSecrets(ring, ts[0]) + [] == TokenSecrets(ring, ts[0]);
    ChainAppend(w.chainingKey, TokenSecrets(ring, ts[0]), ActSecrets(ring1, ts[1..], w.initiator));
  }

  lemma {:induction false} TokensComplete(w: State, r: State, ts: seq<Token>, k: Known)
    returns (w': State, out: Wire, r': State)
    requires Agree(w, r) && Shared(w, r, k) && TokensOk(k, ts, w.initiator)
    requires ME in ts ==> w.passphrase == r.passphrase
    requires |w.ephemerals| >= EphemeralsIn(ts)
    ensures WriteTokens(w, ts) == Some((w', out))
    ensures ReadsTokens(r, ts, out, r')
    ensures Agree(w', r') && Shared(w', r', AfterTokens(k, ts, w.initiator))
    ensures SameSettings(w, w') && SameSettings(r, r')
    ensures |w'.ephemerals| == |w.ephemerals| - EphemeralsIn(ts) && r'.ephemerals == r.ephemerals
    ensures Keyed(w, r, ts, w', r')
    decreases |ts|
  {
    hide Keyed;
    if ts == [] {
      w', out, r' := w, [], r;
      ReadsNothing(r);
      KeyedNothing(w, r);
    } else {
      var w1, out1, r1 := TokenComplete(w, r, ts[0], k);
      var out2;
      w', out2, r' := TokensComplete(w1, r1, ts[1..], AfterToken(k, ts[0], w.initiator));
      out := out1 + out2;
      KeyedOneMore(w, r, ts, w1, r1, w', r');
      ReadsOneMore(r, ts, out1, r1, out2, r');
    }
  }

  /** From any wire that starts with `out`, reading `t` takes `out` and leads to `r'`. */
  ghost predicate ReadsToken(r: State, t: Token, out: Wire, r': State) {
    forall rest :: ReadToken(r, t, out + rest) == Some((r', rest))
  }

  ghost predicate ReadsTokens(r: State, ts: seq<Token>, out: Wire, r': State) {
    forall rest :: ReadTokens(r, ts, out + rest) == Some((r', rest))
  }

  lemma {:induction false} ReadsNothing(r: State)
    ensures ReadsTokens(r, [], [], r)
  {
    forall rest: Wire
      ensures ReadTokens(r, [], [] + rest) == Some((r, rest))
    {
      assert [] + rest == rest;
    }
  }

  lemma {:induction false} ReadsOneMore(r: State, ts: seq<Token>, out1: Wire, r1: State, out2: Wire, r2: State)
    requires ts != [] && ReadsToken(r, ts[0], out1, r1) && ReadsTokens(r1, ts[1..], out2, r2)
    ensures ReadsTokens(r, ts, out1 + out2, r2)
  {
    forall rest
      ensures ReadTokens(r, ts, out1 + out2 + rest) == Some((r2, rest))
    {
      assert out1 + out2 + rest == out1 + (out2 + rest);
      assert ReadToken(r, ts[0], out1 + (out2 + rest)) == Some((r1, out2 + rest));
      assert ReadTokens(r1, ts[1..], out2 + rest) == Some((r2, rest));
    }
  }

  // -------------------------------------------------------------------------
  // Tokens: sides that end in step were in step

  lemma {:induction false} TokenSound(w: State, r: State, t: Token, rest: Wire)
    requires Linked(w, r)
    requires WriteToken(w, t).Some? && ReadToken(r, t, WriteToken(w, t).value.1 + rest).Some?
    ensures var (w', out) := WriteToken(w, t).value;
            var (r', rest') := ReadToken(r, t, out + rest).value;
            && rest' == rest && Linked(w', r') && SameSettings(w, w') && SameSettings(r, r')
            && (w'.digest == r'.digest ==> w.digest == r.digest && (t.ME? ==> w.passphrase == r.passphrase))
            && (t.S? ==> r'.remoteStatic == Some(Point(w.localStatic, 0)))
            && (!t.S? ==> r'.remoteStatic == r.remoteStatic) && w'.remoteStatic == w.remoteStatic
            && |w'.ephemerals| == |w.ephemerals| - Draws(t) && r'.ephemerals == r.ephemerals
  {
    match t
    case E => ReadKeyOf(w.ephemerals[0], 0, rest);
    case ME => ReadKeyOf(w.ephemerals[0], w.passphrase, rest);
    case S =>
      StaticSize(w);
      TakeDrop(Bytes(Ciphertext(w, Point(w.localStatic, 0))), rest);
      DecryptExact(w, r, Point(w.localStatic, 0));
    case _ =>
      assert [] + rest == rest;
  }

  lemma {:induction false} TokensSound(w: State, r: State, ts: seq<Token>, rest: Wire)
    requires Linked(w, r)
    requires WriteTokens(w, ts).Some? && ReadTokens(r, ts, WriteTokens(w, ts).value.1 + rest).Some?
    ensures var (w', out) := WriteTokens(w, ts).value;
            var (r', rest') := ReadTokens(r, ts, out + rest).value;
            && rest' == rest && Linked(w', r') && SameSettings(w, w') && SameSettings(r, r')
            && (w'.digest == r'.digest ==> w.digest == r.digest && (ME in ts ==> w.passphrase == r.passphrase))
            && (S in ts ==> r'.remoteStatic == Some(Point(w.localStatic, 0)))
            && (S !in ts ==> r'.remoteStatic == r.remoteStatic) && w'.remoteStatic == w.remoteStatic
            && |w'.ephemerals| == |w.ephemerals| - EphemeralsIn(ts) && r'.ephemerals == r.ephemerals
    decreases |ts|
  {
    if ts == [] {
      assert [] + rest == rest;
    } else {
      var (w1, out1) := WriteToken(w, ts[0]).value;
      var (w2, out2) := WriteTokens(w1, ts[1..]).value;
      assert out1 + out2 + rest == out1 + (out2 + rest);
      TokenSound(w, r, ts[0], out2 + rest);
      var r1 := ReadToken(r, ts[0], out1 + (out2 + rest)).value.0;
      TokensSound(w1, r1, ts[1..], rest);
    }
  }

  /** How a reader takes what was written does not depend on what follows. */
  lemma {:induction false} TokenAnyRest(w: State, r: State, t: Token, rest: Wire, rest2: Wire)
    requires WriteToken(w, t).Some? && ReadToken(r, t, WriteToken(w, t).value.1 + rest).Some?
    ensures var out := WriteToken(w, t).value.1;
            && ReadToken(r, t, out + rest).value.1 == rest
            && ReadToken(r, t, out + rest2) == Some((ReadToken(r, t, out + rest).value.0, rest2))
  {
    match t
    case E =>
      ReadKeyOf(w.ephemerals[0], 0, rest);
      ReadKeyOf(w.ephemerals[0], 0, rest2);
    case ME =>
      ReadKeyOf(w.ephemerals[0], w.passphrase, rest);
      ReadKeyOf(w.ephemerals[0], w.passphrase, rest2);
    case S =>
      StaticSize(w);
      TakeDrop(Bytes(Ciphertext(w, Point(w.localStatic, 0))), rest);
      TakeDrop(Bytes(Ciphertext(w, Point(w.localStatic, 0))), rest2);
    case _ =>
      assert [] + rest == rest && [] + rest2 == rest2;
  }

  lemma {:induction false} TokensAnyRest(w: State, r: State, ts: seq<Token>, rest: Wire, rest2: Wire)
    requires WriteTokens(w, ts).Some? && ReadTokens(r, ts, WriteTokens(w, ts).value.1 + rest).Some?
    ensures var out := WriteTokens(w, ts).value.1;
            ReadTokens(r, ts, out + rest2) == Some((ReadTokens(r, ts, out + rest).value.0, rest2))
    decreases |ts|
  {
    if ts == [] {
      assert [] + rest2 == rest2;
    } else {
      var (w1, out1) := WriteToken(w, ts[0]).value;
      var out2 := WriteTokens(w1, ts[1..]).value.1;
      Assoc(out1, out2, rest);
      Assoc(out1, out2, rest2);
      TokenAnyRest(w, r, ts[0], out2 + rest, out2 + rest2);
      TokensAnyRest(w1, ReadToken(r, ts[0], out1 + (out2 + rest)).value.0, ts[1..], rest, rest2);
    }
  }

  // -------------------------------------------------------------------------
  // Payloads

  /** What the reader of an act ends up with. */
  function Receives(r: State, act: nat, version: uint8, auth: seq<uint8>): Option<seq<uint8>> {
    if act == 2 then Some(Delivered(version, auth)) else r.receivedPayload
  }

  /** The payload can be written. */
  predicate Writable(w: State, act: nat) {
    1 <= act <= 3 && w.version <= 2 && (act == 2 && w.version >= 1 ==> |w.payloadToSend| < MAX_INT32)
  }

  lemma {:induction false} WritableExact(w: State, act: nat)
    ensures WritePayload(w, act).Some? <==> Writable(w, act)
  {
  }

  /** The symmetric state after a payload. */
  function AfterPayload(h: State, act: nat, version: uint8, auth: seq<uint8>): State {
    if version == 0 then Encrypted(h, Plain(if act == 2 then FixedPayload(auth) else []))
    else if act == 2 then Encrypted(Encrypted(h, Plain(Be32(|auth|))), Plain(auth))
    else Encrypted(h, Plain([]))
  }

  /** A payload that can be written is read exactly by a side that agrees. */
  lemma {:induction false} PayloadExact(w: State, r: State, act: nat, rest: Wire) returns (out: Wire)
    requires Linked(w, r) && Writable(w, act)
    ensures WritePayload(w, act) == Some((AfterPayload(w, act, w.version, w.payloadToSend), out))
    ensures ReadPayload(r, act, w.version, out + rest) ==
            if Agree(w, r) then
              Some((AfterPayload(r, act, w.version, w.payloadToSend).
                      (receivedPayload := Receives(r, act, w.version, w.payloadToSend)), rest))
            else None
  {
    out := WritePayload(w, act).value.1;
    if w.version == 0 {
      var b := if act == 2 then FixedPayload(w.payloadToSend) else [];
      ReadSealedExact(w, r, b, |b| + MAC_SIZE, rest);
    } else if act == 2 {
      PrefixedPayloadRead(w, r, out, rest);
    } else {
      ReadSealedExact(w, r, [], MAC_SIZE, rest);
    }
  }

  lemma {:induction false} LengthField(n: nat)
    requires n < MAX_INT32
    ensures |Be32(n)| == 4 && FromBe32(Be32(n)) == n
  {
    Be32RoundTrip(n);
  }

  lemma {:induction false} PrefixedPayloadRead(w: State, r: State, out: Wire, rest: Wire)
    requires Linked(w, r) && Writable(w, 2) && w.version >= 1 && out == WritePayload(w, 2).value.1
    ensures ReadPayload(r, 2, w.version, out + rest) ==
            if Agree(w, r) then
              Some((AfterPayload(r, 2, w.version, w.payloadToSend).(receivedPayload := Some(w.payloadToSend)), rest))
            else None
  {
    var len, auth := Be32(|w.payloadToSend|), w.payloadToSend;
    LengthField(|auth|);
    var first, second := Bytes(Ciphertext(w, Plain(len))), Bytes(Ciphertext(Encrypted(w, Plain(len)), Plain(auth)));
    assert out + rest == first + (second + rest);
    TwoSealed(w, r, len, auth, w.version, rest);
  }

  /** A length field and as many bytes as it says. */
  lemma {:induction false} TwoSealed(w: State, r: State, len: seq<uint8>, auth: seq<uint8>, version: uint8, rest: Wire)
    requires Linked(w, r) && 1 <= version <= 2 && |len| == 4 && FromBe32(len) == |auth|
    ensures var first := Bytes(Ciphertext(w, Plain(len)));
            var second := Bytes(Ciphertext(Encrypted(w, Plain(len)), Plain(auth)));
            ReadPayload(r, 2, version, first + (second + rest)) ==
            if Agree(w, r) then
              Some((Encrypted(Encrypted(r, Plain(len)), Plain(auth)).(receivedPayload := Some(auth)), rest))
            else None
  {
    var w1 := Encrypted(w, Plain(len));
    var second := Bytes(Ciphertext(w1, Plain(auth)));
    ReadSealedExact(w, r, len, 4 + MAC_SIZE, second + rest);
    if Agree(w, r) {
      ReadSealedExact(w1, Encrypted(r, Plain(len)), auth, MAC_SIZE + |auth|, rest);
    }
  }

  lemma {:induction false} PayloadKeepsAgreement(w: State, r: State, act: nat, version: uint8, auth: seq<uint8>)
    requires Agree(w, r)
    ensures Agree(AfterPayload(w, act, version, auth), AfterPayload(r, act, version, auth))
  {
  }

  // -------------------------------------------------------------------------
  // Settings: what a machine has besides keys and digests

  datatype Settings = Settings(
    initiator: bool, key: nat, passphrase: int, auth: seq<uint8>, received: Option<seq<uint8>>,
    minVersion: uint8, maxVersion: uint8, version: uint8, ephemerals: nat)

  function SettingsOf(h: State): Settings {
    Settings(h.initiator, h.localStatic, h.passphrase, h.payloadToSend, h.receivedPayload, h.minVersion,
             h.maxVersion, h.version, |h.ephemerals|)
  }

  /** The version is one that the reader of the act accepts. */
  predicate Accepts(r: Settings, act: nat, version: uint8) {
    if act == 1 || act == 2 then r.minVersion <= version <= r.maxVersion else act == 3 && version == r.version
  }

  /** With these settings the act can be written and is acceptable. */
  predicate SettingsFit(w: Settings, r: Settings, mp: MessagePattern) {
    && 1 <= mp.act <= 3 && w.version <= 2 && (mp.act == 2 && w.version >= 1 ==> |w.auth| < MAX_INT32)
    && Accepts(r, mp.act, w.version)
    && (ME in mp.tokens ==> w.passphrase == r.passphrase)
    && w.ephemerals >= EphemeralsIn(mp.tokens)
  }

  /** The settings of writer and reader after an act. */
  function AfterAct(w: Settings, r: Settings, mp: MessagePattern): (Settings, Settings)
    requires w.ephemerals >= EphemeralsIn(mp.tokens)
  {
    (w.(ephemerals := w.ephemerals - EphemeralsIn(mp.tokens)),
     r.(version := if r.initiator && (mp.act == 1 || mp.act == 2) then w.version else r.version,
        received := if mp.act == 2 then Some(Delivered(w.version, w.auth)) else r.received))
  }

  predicate Fits(w: State, r: State, mp: MessagePattern) { SettingsFit(SettingsOf(w), SettingsOf(r), mp) }

  predicate Acted(w: State, r: State, mp: MessagePattern, w': State, r': State) {
    Fits(w, r, mp) && (SettingsOf(w'), SettingsOf(r')) == AfterAct(SettingsOf(w), SettingsOf(r), mp)
  }

  lemma {:induction false} FitsExact(w: State, r: State, mp: MessagePattern)
    ensures Fits(w, r, mp) <==>
            && Writable(w, mp.act) && Negotiated(r, mp.act, w.version).Some?
            && (ME in mp.tokens ==> w.passphrase == r.passphrase)
            && |w.ephemerals| >= EphemeralsIn(mp.tokens)
  {
  }

  lemma {:induction false} ActSettings(w: State, r: State, mp: MessagePattern, w2: State, r1: State, r2: State)
    requires Fits(w, r, mp) && Negotiated(r, mp.act, w.version) == Some(r1)
    requires SameSettings(w, w2) && |w2.ephemerals| == |w.ephemerals| - EphemeralsIn(mp.tokens)
    requires SameSettings(r1, r2) && r2.ephemerals == r1.ephemerals
    ensures Acted(w, r, mp, AfterPayload(w2, mp.act, w.version, w.payloadToSend),
                  AfterPayload(r2, mp.act, w.version, w.payloadToSend).
                    (receivedPayload := Receives(r2, mp.act, w.version, w.payloadToSend)))
  {
  }

  // -------------------------------------------------------------------------
  // Acts

  lemma {:induction false} ActComplete(w: State, r: State, mp: MessagePattern, k: Known)
    returns (w': State, out: Wire, r': State)
    requires Agree(w, r) && Shared(w, r, k) && w.initiator == mp.initiator
    requires TokensOk(k, mp.tokens, mp.initiator) && Fits(w, r, mp)
    ensures WriteAct(w, mp) == Some((w', out)) && ReadAct(r, mp, [] + out) == Some((r', []))
    ensures Agree(w', r') && Shared(w', r', AfterTokens(k, mp.tokens, mp.initiator)) && Acted(w, r, mp, w', r')
    ensures Keyed(w, r, mp.tokens, w', r')
  {
    hide WriteAct, ReadAct, AfterTokens, TokensOk, Keyed, AfterPayload, Writable, Receives;
    FitsExact(w, r, mp);
    var r1 := Negotiated(r, mp.act, w.version).value;
    NegotiatedKeeps(w, r, mp, k);
    var w2, out1, r2 := TokensComplete(w, r1, mp.tokens, k);
    w', out, r' := ActAssembled(w, r, mp, r1, w2, out1, r2);
    PayloadKeepsAgreement(w2, r2, mp.act, w.version, w.payloadToSend);
    PayloadSameKeys(w2, mp.act, w.version, w.payloadToSend);
    PayloadSameKeys(r2, mp.act, w.version, w.payloadToSend);
    PayloadKeepsShared(w2, r2, w', r', AfterTokens(k, mp.tokens, mp.initiator));
    ActSettings(w, r, mp, w2, r1, r2);
    PayloadKeepsKeys(w, r, mp, r1, w2, r2, w', r');
  }

  /** Neither the version nor the payload changes a key pair or the chaining key. */
  lemma {:induction false} PayloadKeepsKeys(w: State, r: State, mp: MessagePattern, r1: State, w2: State, r2: State,
                                            w': State, r': State)
    requires Negotiated(r, mp.act, w.version) == Some(r1) && Keyed(w, r1, mp.tokens, w2, r2)
    requires w' == AfterPayload(w2, mp.act, w.version, w.payloadToSend)
    requires r' == AfterPayload(r2, mp.act, w.version, w.payloadToSend).
                     (receivedPayload := Receives(r2, mp.act, w.version, w.payloadToSend))
    ensures Keyed(w, r, mp.tokens, w', r')
  {
    hide TurnedAll, ActSecrets, Chain, FixedPayload, Be32;
    assert RingOf(w, r) == RingOf(w, r1) && RingOf(w', r') == RingOf(w2, r2);
    assert w'.chainingKey == w2.chainingKey && w'.initiator == w2.initiator;
  }

  lemma {:induction false} NegotiatedKeeps(w: State, r: State, mp: MessagePattern, k: Known)
    requires Agree(w, r) && Shared(w, r, k) && Negotiated(r, mp.act, w.version).Some?
    ensures var r1 := Negotiated(r, mp.act, w.version).value;
            Agree(w, r1) && Shared(w, r1, k) && r1.passphrase == r.passphrase
  {
  }

  lemma {:induction false} PayloadSameKeys(h: State, act: nat, version: uint8, auth: seq<uint8>)
    ensures SameKeys(h, AfterPayload(h, act, version, auth))
  {
  }

  lemma {:induction false} PayloadKeepsShared(w: State, r: State, w': State, r': State, k: Known)
    requires Shared(w, r, k) && SameKeys(w, w') && SameKeys(r, r')
    ensures Shared(w', r', k)
  {
  }

  predicate SameKeys(h: State, h': State) {
    && h'.initiator == h.initiator && h'.localStatic == h.localStatic && h'.localEphemeral == h.localEphemeral
    && h'.remoteStatic == h.remoteStatic && h'.remoteEphemeral == h.remoteEphemeral
  }

  /** An act is its version, its tokens and its payload. */
  lemma {:induction false} ActAssembled(w: State, r: State, mp: MessagePattern, r1: State, w2: State,
                                        out1: Wire, r2: State)
    returns (w': State, out: Wire, r': State)
    requires Negotiated(r, mp.act, w.version) == Some(r1)
    requires WriteTokens(w, mp.tokens) == Some((w2, out1)) && ReadsTokens(r1, mp.tokens, out1, r2)
    requires Agree(w2, r2) && SameSettings(w, w2) && Writable(w, mp.act)
    ensures WriteAct(w, mp) == Some((w', out)) && ReadAct(r, mp, [] + out) == Some((r', []))
    ensures w' == AfterPayload(w2, mp.act, w.version, w.payloadToSend)
    ensures r' == AfterPayload(r2, mp.act, w.version, w.payloadToSend).
                    (receivedPayload := Receives(r2, mp.act, w.version, w.payloadToSend))
  {
    hide WriteTokens, ReadTokens, WritePayload, ReadPayload, AfterPayload;
    var out2 := PayloadExact(w2, r2, mp.act, []);
    w', out := WriteAct(w, mp).value.0, WriteAct(w, mp).value.1;
    var wire := [] + out;
    assert wire[1..] == out1 + (out2 + []);
    assert ReadTokens(r1, mp.tokens, out1 + (out2 + [])) == Some((r2, out2 + []));
    r' := ReadAct(r, mp, wire).value.0;
  }

  /** The bytes of an act after its version. */
  lemma {:induction false} ActBytes(w: State, mp: MessagePattern, more: Wire)
    requires WriteAct(w, mp).Some?
    ensures var (w2, out1) := WriteTokens(w, mp.tokens).value;
            var out2 := WritePayload(w2, mp.act).value.1;
            var wire := WriteAct(w, mp).value.1 + more;
            |wire| >= 1 && wire[0] == Raw(w.version) && wire[1..] == out1 + (out2 + more)
  {
    hide WriteTokens, WritePayload;
    var (w2, out1) := WriteTokens(w, mp.tokens).value;
    var out2 := WritePayload(w2, mp.act).value.1;
    Assoc(out1, out2, more);
  }

  /** An act that succeeds, with `more` behind it, shows that the sides agreed and fitted, and leaves
      them in agreement; the reader has the static key of the writer if it was sent. */
  lemma {:induction false} ActSound(w: State, r: State, mp: MessagePattern, more: Wire) returns (w': State, r': State)
    requires Linked(w, r) && WriteAct(w, mp).Some?
    requires ReadAct(r, mp, WriteAct(w, mp).value.1 + more).Some?
    ensures w' == WriteAct(w, mp).value.0
    ensures ReadAct(r, mp, WriteAct(w, mp).value.1 + more) == Some((r', more))
    ensures Agree(w', r') && w.digest == r.digest && Acted(w, r, mp, w', r')
    ensures w'.remoteStatic == w.remoteStatic
    ensures r'.remoteStatic == (if S in mp.tokens then Some(Point(w.localStatic, 0)) else r.remoteStatic)
  {
    hide WriteTokens, ReadTokens, WritePayload, ReadPayload, Acted, Fits, EphemeralsIn;
    ActBytes(w, mp, more);
    var (w2, out1) := WriteTokens(w, mp.tokens).value;
    var out2 := WritePayload(w2, mp.act).value.1;
    var r1 := Negotiated(r, mp.act, w.version).value;
    NegotiatedLinked(w, r, mp);
    TokensSound(w, r1, mp.tokens, out2 + more);
    var r2 := ReadTokens(r1, mp.tokens, out1 + (out2 + more)).value.0;
    WritableExact(w2, mp.act);
    var out2' := PayloadExact(w2, r2, mp.act, more);
    w', r' := WriteAct(w, mp).value.0, ReadAct(r, mp, WriteAct(w, mp).value.1 + more).value.0;
    PayloadKeepsAgreement(w2, r2, mp.act, w.version, w.payloadToSend);
    FitsExact(w, r, mp);
    ActSettings(w, r, mp, w2, r1, r2);
  }

  lemma {:induction false} NegotiatedLinked(w: State, r: State, mp: MessagePattern)
    requires Linked(w, r) && Negotiated(r, mp.act, w.version).Some?
    ensures var r1 := Negotiated(r, mp.act, w.version).value;
            Linked(w, r1) && r1.digest == r.digest && r1.passphrase == r.passphrase && r1.remoteStatic == r.remoteStatic
  {
  }

  /** Whether and how an act is read does not depend on what follows it. */
  lemma {:induction false} ActAnyRest(w: State, r: State, mp: MessagePattern, more: Wire, more2: Wire)
    requires Linked(w, r) && WriteAct(w, mp).Some?
    requires ReadAct(r, mp, WriteAct(w, mp).value.1 + more).Some?
    ensures var out := WriteAct(w, mp).value.1;
            ReadAct(r, mp, out + more2) == Some((ReadAct(r, mp, out + more).value.0, more2))
  {
    ActBytes(w, mp, more);
    ActBytes(w, mp, more2);
    var (w2, out1) := WriteTokens(w, mp.tokens).value;
    var out2 := WritePayload(w2, mp.act).value.1;
    var r1 := Negotiated(r, mp.act, w.version).value;
    TokensSound(w, r1, mp.tokens, out2 + more);
    TokensAnyRest(w, r1, mp.tokens, out2 + more, out2 + more2);
    var r2 := ReadTokens(r1, mp.tokens, out1 + (out2 + more)).value.0;
    WritableExact(w2, mp.act);
    var a := PayloadExact(w2, r2, mp.act, more);
    var b := PayloadExact(w2, r2, mp.act, more2);
  }

  /** The same for an act on its own. */
  lemma {:induction false} WholeActSound(w: State, r: State, mp: MessagePattern) returns (w': State, r': State)
    requires Linked(w, r) && WriteAct(w, mp).Some?
    requires ReadAct(r, mp, [] + WriteAct(w, mp).value.1).Some?
    ensures w' == WriteAct(w, mp).value.0
    ensures ReadAct(r, mp, [] + WriteAct(w, mp).value.1) == Some((r', []))
    ensures Agree(w', r') && w.digest == r.digest && Acted(w, r, mp, w', r')
    ensures w'.remoteStatic == w.remoteStatic
    ensures r'.remoteStatic == (if S in mp.tokens then Some(Point(w.localStatic, 0)) else r.remoteStatic)
  {
    var out := WriteAct(w, mp).value.1;
    assert [] + out == out + [];
    w', r' := ActSound(w, r, mp, []);
  }

  lemma {:induction false} AgreeLinked(w: State, r: State)
    requires Agree(w, r)
    ensures Linked(w, r)
  {
  }

  lemma {:induction false} LinkedSwap(a: State, b: State)
    requires Linked(a, b)
    ensures Linked(b, a)
  {
  }

  // -------------------------------------------------------------------------
  // Any number of acts in any order

  /** With these settings of initiator and responder every act can be written and is acceptable. */
  predicate ActsFit(i: Settings, r: Settings, acts: seq<MessagePattern>)
    decreases |acts|
  {
    if acts == [] then true
    else if acts[0].initiator then
      SettingsFit(i, r, acts[0]) && var (i1, r1) := AfterAct(i, r, acts[0]); ActsFit(i1, r1, acts[1..])
    else
      SettingsFit(r, i, acts[0]) && var (r1, i1) := AfterAct(r, i, acts[0]); ActsFit(i1, r1, acts[1..])
  }

  /** The settings at the end. */
  function AfterAll(i: Settings, r: Settings, acts: seq<MessagePattern>): (Settings, Settings)
    requires ActsFit(i, r, acts)
    decreases |acts|
  {
    if acts == [] then (i, r)
    else if acts[0].initiator then var (i1, r1) := AfterAct(i, r, acts[0]); AfterAll(i1, r1, acts[1..])
    else var (r1, i1) := AfterAct(r, i, acts[0]); AfterAll(i1, r1, acts[1..])
  }

  /** One side sends its static key in some act. */
  predicate SendsStatic(acts: seq<MessagePattern>, initiator: bool) {
    acts != [] && ((acts[0].initiator == initiator && S in acts[0].tokens) || SendsStatic(acts[1..], initiator))
  }

  /** The static key that a side ends up with: the one it was sent, or else the one it had. */
  function LearnedStatic(had: Option<PublicKey>, acts: seq<MessagePattern>, sender: bool, key: nat): Option<PublicKey> {
    if SendsStatic(acts, sender) then Some(Point(key, 0)) else had
  }

  /** What an exchange that succeeds has done to two machines. */
  predicate Exchanged(i: State, r: State, acts: seq<MessagePattern>, i': State, r': State) {
    && Exchange(i, r, [], [], acts) == Some((i', r', [], []))
    && ActsFit(SettingsOf(i), SettingsOf(r), acts)
    && (SettingsOf(i'), SettingsOf(r')) == AfterAll(SettingsOf(i), SettingsOf(r), acts)
    && i'.remoteStatic == LearnedStatic(i.remoteStatic, acts, false, r.localStatic)
    && r'.remoteStatic == LearnedStatic(r.remoteStatic, acts, true, i.localStatic)
  }

  /** The first act, written by `w` and read by `r`. */
  lemma {:induction false} ExchangeOne(i: State, r: State, acts: seq<MessagePattern>, i1: State, r1: State, out: Wire)
    requires acts != []
    requires acts[0].initiator ==>
               WriteAct(i, acts[0]) == Some((i1, out)) && ReadAct(r, acts[0], [] + out) == Some((r1, []))
    requires !acts[0].initiator ==>
               WriteAct(r, acts[0]) == Some((r1, out)) && ReadAct(i, acts[0], [] + out) == Some((i1, []))
    ensures Exchange(i, r, [], [], acts) == Exchange(i1, r1, [], [], acts[1..])
  {
  }

  lemma {:induction false} ExchangedOne(i: State, r: State, acts: seq<MessagePattern>, i1: State, r1: State,
                                        i': State, r': State)
    requires acts != [] && Exchange(i, r, [], [], acts) == Exchange(i1, r1, [], [], acts[1..])
    requires acts[0].initiator ==>
               && Acted(i, r, acts[0], i1, r1) && i1.remoteStatic == i.remoteStatic
               && r1.remoteStatic == (if S in acts[0].tokens then Some(Point(i.localStatic, 0)) else r.remoteStatic)
    requires !acts[0].initiator ==>
               && Acted(r, i, acts[0], r1, i1) && r1.remoteStatic == r.remoteStatic
               && i1.remoteStatic == (if S in acts[0].tokens then Some(Point(r.localStatic, 0)) else i.remoteStatic)
    requires Exchanged(i1, r1, acts[1..], i', r')
    ensures Exchanged(i, r, acts, i', r')
  {
  }

  /** Sides that agree and have the keys that the tokens need, with settings that fit, finish. */
  lemma {:induction false} ExchangeComplete(i: State, r: State, acts: seq<MessagePattern>, k: Known)
    requires Agree(i, r) && Shared(i, r, k) && i.initiator && !r.initiator
    requires ActsOk(k, acts) && ActsFit(SettingsOf(i), SettingsOf(r), acts)
    ensures Exchange(i, r, [], [], acts).Some?
    ensures Exchange(i, r, [], [], acts).value.0.chainingKey == Chain(i.chainingKey, Secrets(RingOf(i, r), acts))
    decreases |acts|
  {
    hide Chain, ActSecrets, TurnedAll;
    if acts == [] {
      ChainOne(i.chainingKey, Zero);
    } else {
      var i1, r1, out := FirstActComplete(i, r, acts, k);
      ExchangeOne(i, r, acts, i1, r1, out);
      ExchangeComplete(i1, r1, acts[1..], AfterTokens(k, acts[0].tokens, acts[0].initiator));
      var ring, mp := RingOf(i, r), acts[0];
      ChainAppend(i.chainingKey, ActSecrets(ring, mp.tokens, mp.initiator),
                  Secrets(TurnedAll(ring, mp.tokens, mp.initiator), acts[1..]));
    }
  }

  lemma {:induction false} FirstActComplete(i: State, r: State, acts: seq<MessagePattern>, k: Known)
    returns (i1: State, r1: State, out: Wire)
    requires Agree(i, r) && Shared(i, r, k) && i.initiator && !r.initiator && acts != []
    requires ActsOk(k, acts) && ActsFit(SettingsOf(i), SettingsOf(r), acts)
    ensures acts[0].initiator ==>
              && WriteAct(i, acts[0]) == Some((i1, out)) && ReadAct(r, acts[0], [] + out) == Some((r1, []))
              && Acted(i, r, acts[0], i1, r1)
    ensures !acts[0].initiator ==>
              && WriteAct(r, acts[0]) == Some((r1, out)) && ReadAct(i, acts[0], [] + out) == Some((i1, []))
              && Acted(r, i, acts[0], r1, i1)
    ensures Agree(i1, r1) && Shared(i1, r1, AfterTokens(k, acts[0].tokens, acts[0].initiator))
    ensures i1.initiator && !r1.initiator && ActsFit(SettingsOf(i1), SettingsOf(r1), acts[1..])
    ensures RingOf(i1, r1) == TurnedAll(RingOf(i, r), acts[0].tokens, acts[0].initiator)
    ensures i1.chainingKey ==
            Chain(i.chainingKey, ActSecrets(RingOf(i, r), acts[0].tokens, acts[0].initiator))
  {
    if acts[0].initiator {
      i1, out, r1 := ActComplete(i, r, acts[0], k);
    } else {
      r1, out, i1 := ActComplete(r, i, acts[0], k);
    }
  }

  /** For any acts: sides that finish agreed before and agree now, their settings fitted, nothing is left
      unread, and each has the static key that the other sent. */
  lemma {:induction false} ExchangeSound(i: State, r: State, acts: seq<MessagePattern>) returns (i': State, r': State)
    requires Linked(i, r) && i.initiator && !r.initiator && Exchange(i, r, [], [], acts).Some?
    ensures Exchanged(i, r, acts, i', r')
    ensures i'.initiator && !r'.initiator && Linked(i', r')
    ensures acts != [] ==> Agree(i', r') && i.digest == r.digest
    decreases |acts|
  {
    if acts == [] {
      i', r' := i, r;
    } else {
      var i1, r1, out := FirstActSound(i, r, acts);
      i', r' := ExchangeSound(i1, r1, acts[1..]);
      ExchangedOne(i, r, acts, i1, r1, i', r');
    }
  }

  lemma {:induction false} FirstActSound(i: State, r: State, acts: seq<MessagePattern>)
    returns (i1: State, r1: State, out: Wire)
    requires Linked(i, r) && i.initiator && !r.initiator && acts != [] && Exchange(i, r, [], [], acts).Some?
    ensures Exchange(i, r, [], [], acts) == Exchange(i1, r1, [], [], acts[1..])
    ensures acts[0].initiator ==>
              && WriteAct(i, acts[0]) == Some((i1, out)) && ReadAct(r, acts[0], [] + out) == Some((r1, []))
              && Acted(i, r, acts[0], i1, r1) && i1.remoteStatic == i.remoteStatic
              && r1.remoteStatic == (if S in acts[0].tokens then Some(Point(i.localStatic, 0)) else r.remoteStatic)
    ensures !acts[0].initiator ==>
              && WriteAct(r, acts[0]) == Some((r1, out)) && ReadAct(i, acts[0], [] + out) == Some((i1, []))
              && Acted(r, i, acts[0], r1, i1) && r1.remoteStatic == r.remoteStatic
              && i1.remoteStatic == (if S in acts[0].tokens then Some(Point(r.localStatic, 0)) else i.remoteStatic)
    ensures i1.initiator && !r1.initiator && Agree(i1, r1) && Linked(i1, r1) && i.digest == r.digest
  {
    if acts[0].initiator {
      out := WriteAct(i, acts[0]).value.1;
      i1, r1 := WholeActSound(i, r, acts[0]);
    } else {
      LinkedSwap(i, r);
      out := WriteAct(r, acts[0]).value.1;
      r1, i1 := WholeActSound(r, i, acts[0]);
    }
    ExchangeOne(i, r, acts, i1, r1, out);
    AgreeLinked(i1, r1);
  }

  // -------------------------------------------------------------------------
  // The whole handshake

  /** Every static key of the pre-messages is configured correctly on the other side. */
  predicate PreKnown(pre: seq<MessagePattern>, pi: Party, pr: Party) {
    pre == [] || (KeyKnown(pre[0], pi, pr) && PreKnown(pre[1..], pi, pr))
  }

  predicate KeyKnown(m: MessagePattern, pi: Party, pr: Party) {
    if m.initiator then pr.remote == Some(Point(pi.key, 0)) else pi.remote == Some(Point(pr.key, 0))
  }

  /** The settings of a new machine. */
  function Configured(p: HandshakePattern, party: Party, initiator: bool): Settings {
    SettingsOf(Blank(p, party, initiator))
  }

  /** The configurations fit each other and the pattern. */
  predicate Compatible(p: HandshakePattern, pi: Party, pr: Party) {
    && (p.name == KK ==> pi.maxVersion >= 2 && pr.maxVersion >= 2)
    && PreKnown(p.pre, pi, pr)
    && ActsFit(Configured(p, pi, true), Configured(p, pr, false), p.acts)
  }

  lemma {:induction false} KeyAgrees(m: MessagePattern, pi: Party, pr: Party)
    ensures KeyKnown(m, pi, pr) <==> PreKey(m, pi, true).Some? && PreKey(m, pi, true) == PreKey(m, pr, false)
  {
  }

  /** The two digests agree after the pre-messages exactly when they did before and the keys are known. */
  lemma {:induction false} PreExact(di: Term, dr: Term, pre: seq<MessagePattern>, pi: Party, pr: Party)
    ensures MixPre(di, pre, pi, true).Some? && MixPre(di, pre, pi, true) == MixPre(dr, pre, pr, false) <==>
            di == dr && PreKnown(pre, pi, pr)
    decreases |pre|
  {
    hide PreKey, KeyKnown;
    if pre != [] {
      KeyAgrees(pre[0], pi, pr);
      var ki, kr := PreKey(pre[0], pi, true), PreKey(pre[0], pr, false);
      if ki.Some? && kr.Some? {
        PreExact(Mix(di, ki.value), Mix(dr, kr.value), pre[1..], pi, pr);
      }
    }
  }

  /** Known static keys are shared from the start. */
  lemma {:induction false} PreShared(pre: seq<MessagePattern>, pi: Party, pr: Party, j: nat)
    requires PreKnown(pre, pi, pr) && j < |pre|
    ensures KeyKnown(pre[j], pi, pr)
  {
    if j > 0 {
      PreShared(pre[1..], pi, pr, j - 1);
    }
  }

  lemma {:induction false} MachinesComplete(p: HandshakePattern, pi: Party, pr: Party) returns (i: State, r: State)
    requires Compatible(p, pi, pr)
    ensures NewMachine(p, pi, true) == Some(i) && NewMachine(p, pr, false) == Some(r)
    ensures Agree(i, r) && Shared(i, r, FromPre(p.pre)) && i.initiator && !r.initiator
    ensures SettingsOf(i) == Configured(p, pi, true) && SettingsOf(r) == Configured(p, pr, false)
  {
    var d := Mix(Name(ProtocolName(p)), PROLOGUE);
    PreExact(d, d, p.pre, pi, pr);
    forall j | 0 <= j < |p.pre|
      ensures KeyKnown(p.pre[j], pi, pr)
    {
      PreShared(p.pre, pi, pr, j);
    }
    i, r := NewMachine(p, pi, true).value, NewMachine(p, pr, false).value;
  }

  lemma {:induction false} MachinesLinked(p: HandshakePattern, pi: Party, pr: Party) returns (i: State, r: State)
    requires NewMachine(p, pi, true).Some? && NewMachine(p, pr, false).Some?
    ensures NewMachine(p, pi, true) == Some(i) && NewMachine(p, pr, false) == Some(r)
    ensures Linked(i, r) && i.initiator && !r.initiator && (i.digest == r.digest ==> PreKnown(p.pre, pi, pr))
    ensures SettingsOf(i) == Configured(p, pi, true) && SettingsOf(r) == Configured(p, pr, false)
    ensures i.remoteStatic == pi.remote && r.remoteStatic == pr.remote
  {
    var d := Mix(Name(ProtocolName(p)), PROLOGUE);
    PreExact(d, d, p.pre, pi, pr);
    i, r := NewMachine(p, pi, true).value, NewMachine(p, pr, false).value;
  }

  /** The outcome of a handshake that both sides finish: the same keys, nonce and digest; settings as the
      acts make them; and the static keys that were sent. */
  predicate Finished(p: HandshakePattern, pi: Party, pr: Party, i: State, r: State)
    requires Compatible(p, pi, pr)
  {
    && Agree(i, r) && i.initiator && !r.initiator
    && (SettingsOf(i), SettingsOf(r)) == AfterAll(Configured(p, pi, true), Configured(p, pr, false), p.acts)
    && i.remoteStatic == LearnedStatic(pi.remote, p.acts, false, pr.key)
    && r.remoteStatic == LearnedStatic(pr.remote, p.acts, true, pi.key)
  }

  /** For every pattern that has acts, of whatever number, order and tokens: machines that finish were
      compatible and agree, and nothing is left unread. */
  lemma {:induction false} HandshakeSound(p: HandshakePattern, pi: Party, pr: Party) returns (i: State, r: State)
    requires p.acts != [] && Handshake(p, pi, pr).Some?
    ensures Handshake(p, pi, pr) == Some((i, r, [], []))
    ensures Compatible(p, pi, pr) && Finished(p, pi, pr, i, r)
  {
    var i0, r0 := MachinesLinked(p, pi, pr);
    i, r := ExchangeSound(i0, r0, p.acts);
  }

  /** For every pattern whose tokens only use keys that are there, and all configurations: both machines
      finish exactly when the configurations are compatible. */
  lemma {:induction false} HandshakeExact(p: HandshakePattern, pi: Party, pr: Party)
    requires KeysInOrder(p)
    ensures Handshake(p, pi, pr).Some? <==> Compatible(p, pi, pr)
  {
    if Compatible(p, pi, pr) {
      var i, r := MachinesComplete(p, pi, pr);
      ExchangeComplete(i, r, p.acts, FromPre(p.pre));
    }
    if Handshake(p, pi, pr).Some? {
      var i, r := HandshakeSound(p, pi, pr);
    }
  }

  // -------------------------------------------------------------------------
  // Two or three acts in turn, as in the patterns of the source

  /** For these the condition can be written out. */
  predicate ClosedForm(p: HandshakePattern, pi: Party, pr: Party) {
    && (p.name == KK ==> pi.maxVersion >= 2 && pr.maxVersion >= 2)
    && PreKnown(p.pre, pi, pr)
    && MinVersion(p, pr) <= MinVersion(p, pi) <= pr.maxVersion <= pi.maxVersion
    && pr.maxVersion <= 2
    && (pr.maxVersion >= 1 ==> |pr.auth| < MAX_INT32)
    && (UsesMask(p.acts) && p.name == XX ==> pi.passphrase == pr.passphrase)
    && |pi.ephemerals| >= Ephemerals(p.acts, true)
    && |pr.ephemerals| >= Ephemerals(p.acts, false)
  }

  /** The ephemerals of an alternating pattern, act by act. */
  lemma {:induction false} CountEphemerals(p: HandshakePattern)
    requires InTurn(p)
    ensures Ephemerals(p.acts, true) ==
            EphemeralsIn(p.acts[0].tokens) + (if |p.acts| == 3 then EphemeralsIn(p.acts[2].tokens) else 0)
    ensures Ephemerals(p.acts, false) == EphemeralsIn(p.acts[1].tokens)
  {
    assert p.acts[1..][1..] == p.acts[2..];
    if |p.acts| == 3 {
      assert p.acts[2..][1..] == [];
      assert Ephemerals(p.acts[2..], true) == EphemeralsIn(p.acts[2].tokens);
      assert Ephemerals(p.acts[2..], false) == 0;
    }
  }

  /** The acts one by one. */
  predicate TurnsFit(i: Settings, r: Settings, acts: seq<MessagePattern>)
    requires 2 <= |acts| <= 3
  {
    SettingsFit(i, r, acts[0]) &&
    var (i1, r1) := AfterAct(i, r, acts[0]);
    SettingsFit(r1, i1, acts[1]) &&
    var (r2, i2) := AfterAct(r1, i1, acts[1]);
    |acts| == 3 ==> SettingsFit(i2, r2, acts[2])
  }

  lemma {:induction false} TurnsExact(p: HandshakePattern, i: Settings, r: Settings)
    requires InTurn(p)
    ensures ActsFit(i, r, p.acts) <==> TurnsFit(i, r, p.acts)
    ensures TurnsFit(i, r, p.acts) ==>
              var (i1, r1) := AfterAct(i, r, p.acts[0]);
              var (r2, i2) := AfterAct(r1, i1, p.acts[1]);
              AfterAll(i, r, p.acts) == if |p.acts| == 3 then AfterAct(i2, r2, p.acts[2]) else (i2, r2)
  {
    var acts := p.acts;
    assert acts[1..][0] == acts[1] && acts[1..][1..] == acts[2..];
    if |acts| == 3 {
      assert acts[2..][0] == acts[2] && acts[2..][1..] == [];
    } else {
      assert acts[2..] == [];
    }
    if SettingsFit(i, r, acts[0]) {
      var (i1, r1) := AfterAct(i, r, acts[0]);
      assert ActsFit(i, r, acts) <==> ActsFit(i1, r1, acts[1..]);
      if SettingsFit(r1, i1, acts[1]) {
        var (r2, i2) := AfterAct(r1, i1, acts[1]);
        assert ActsFit(i1, r1, acts[1..]) <==> ActsFit(i2, r2, acts[2..]);
        LastTurn(i2, r2, acts[2..]);
        if ActsFit(i2, r2, acts[2..]) {
          assert AfterAll(i, r, acts) == AfterAll(i1, r1, acts[1..]) == AfterAll(i2, r2, acts[2..]);
        }
      }
    }
  }

  lemma {:induction false} LastTurn(i: Settings, r: Settings, acts: seq<MessagePattern>)
    requires |acts| <= 1 && (acts != [] ==> acts[0].initiator)
    ensures ActsFit(i, r, acts) <==> (acts != [] ==> SettingsFit(i, r, acts[0]))
    ensures ActsFit(i, r, acts) ==> AfterAll(i, r, acts) == if acts == [] then (i, r) else AfterAct(i, r, acts[0])
  {
    if acts != [] && SettingsFit(i, r, acts[0]) {
      var (i1, r1) := AfterAct(i, r, acts[0]);
      assert acts[1..] == [];
      assert ActsFit(i1, r1, []) && AfterAll(i1, r1, []) == (i1, r1);
    }
  }

  /** In such a pattern the machines are compatible exactly under the written-out condition, and end with
      the responder's maximum version and the payload that this version delivers. */
  lemma {:induction false} InTurnExact(p: HandshakePattern, pi: Party, pr: Party)
    requires InTurn(p)
    ensures Compatible(p, pi, pr) <==> ClosedForm(p, pi, pr)
    ensures Compatible(p, pi, pr) ==>
              var (i, r) := AfterAll(Configured(p, pi, true), Configured(p, pr, false), p.acts);
              && i.version == r.version == pr.maxVersion
              && i.received == Some(Delivered(pr.maxVersion, pr.auth))
  {
    hide ActsFit, AfterAll, Delivered, PreKnown, Ephemerals, EphemeralsIn;
    TurnsExact(p, Configured(p, pi, true), Configured(p, pr, false));
    CountEphemerals(p);
  }
}
