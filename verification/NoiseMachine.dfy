/** The handshake object: its loops, proved against `NoiseHandshake`, `NoiseReads` and `NoiseSides`
    (mailbox/noise.go). */
module NoiseMachine {
  import opened Common
  import opened Terms
  import opened Ciphers
  import opened NoisePatterns
  import Transport
  import opened NoiseReads
  import opened NoiseSides
  import H = NoiseHandshake

  // -------------------------------------------------------------------------
  // The object

  class HandshakeState {
    const initiator: bool
    const cipher: CipherState
    const localStatic: nat
    const passphraseEntropy: int
    const payloadToSend: seq<uint8>
    const minVersion: uint8
    const maxVersion: uint8
    var chainingKey: Term
    var handshakeDigest: Term
    var localEphemeral: Option<nat>
    var remoteStatic: Option<H.PublicKey>
    var remoteEphemeral: Option<H.PublicKey>
    var ephemerals: seq<nat>
    var receivedPayload: Option<seq<uint8>>
    var version: uint8

    constructor (pattern: HandshakePattern, p: H.Party, initiator: bool)
      ensures Value() == H.Blank(pattern, p, initiator) && fresh(cipher)
    {
      var lowest := H.MinVersion(pattern, p);
      var name := Name(H.ProtocolName(pattern));
      this.initiator, localStatic := initiator, p.key;
      passphraseEntropy := if pattern.name == XX then p.passphrase else 0;
      payloadToSend, minVersion, maxVersion := p.auth, lowest, p.maxVersion;
      chainingKey, handshakeDigest := name, Mix(name, H.PROLOGUE);
      localEphemeral, remoteStatic, remoteEphemeral := None, p.remote, None;
      ephemerals, receivedPayload := p.ephemerals, None;
      version := if initiator then lowest else p.maxVersion;
      cipher := new CipherState();
    }

    /** The loop over the pre-messages. */
    method MixPreMessages(pre: seq<MessagePattern>, ghost p: H.Party) returns (ok: bool)
      requires p.key == localStatic && p.remote == remoteStatic
      modifies this`handshakeDigest
      ensures ok <==> H.MixPre(old(handshakeDigest), pre, p, initiator).Some?
      ensures ok ==> H.MixPre(old(handshakeDigest), pre, p, initiator) == Some(handshakeDigest)
    {
      var i := 0;
      assert pre[0..] == pre;
      while i < |pre|
        invariant 0 <= i <= |pre|
        invariant H.MixPre(handshakeDigest, pre[i..], p, initiator) == H.MixPre(old(handshakeDigest), pre, p, initiator)
      {
        assert pre[i..][1..] == pre[i + 1..];
        if pre[i].initiator == initiator {
          MixHash(Point(localStatic, 0));
        } else {
          if remoteStatic == None { return false; }
          MixHash(remoteStatic.value);
        }
        i := i + 1;
      }
      ok := true;
    }

    function Value(): H.State
      reads this, cipher
    {
      H.State(initiator, cipher.Value(), chainingKey, handshakeDigest, localStatic, localEphemeral, remoteStatic,
              remoteEphemeral, ephemerals, passphraseEntropy, payloadToSend, receivedPayload, minVersion,
              maxVersion, version)
    }

    method MixKey(input: Term)
      modifies this, cipher
      ensures Value() == H.MixKey(old(Value()), input)
    {
      var salt := chainingKey;
      chainingKey := Kdf1(salt, input);
      var tempKey := Kdf2(salt, input);
      cipher.InitializeKey(tempKey);
    }

    method MixHash(data: Term)
      modifies this`handshakeDigest
      ensures Value() == H.MixHash(old(Value()), data)
    {
      handshakeDigest := Mix(handshakeDigest, data);
    }

    method EncryptAndHash(text: Term) returns (ct: Term)
      modifies this`handshakeDigest, cipher
      ensures ct == H.Ciphertext(old(Value()), text) && Value() == H.Encrypted(old(Value()), text)
    {
      ct := cipher.Encrypt(handshakeDigest, text);
      MixHash(ct);
    }

    method DecryptAndHash(b: Wire) returns (text: Option<Term>)
      modifies this`handshakeDigest, cipher
      ensures text.Some? <==> H.Decrypted(old(Value()), b).Some?
      ensures text.Some? ==> H.Decrypted(old(Value()), b) == Some((Value(), text.value))
    {
      text := cipher.Decrypt(handshakeDigest, b);
      if text == None { return; }
      MixHash(Parse(b).value);
    }

    /** The Diffie-Hellman tokens, on either side. */
    method MixDh(t: Token) returns (ok: bool)
      modifies this, cipher
      ensures ok <==> H.DhSecret(old(Value()), t).Some?
      ensures ok ==> Value() == H.MixKey(old(Value()), H.DhSecret(old(Value()), t).value)
    {
      var pub: Option<H.PublicKey>, priv: Option<nat> := None, None;
      match t {
        case EE => pub, priv := remoteEphemeral, localEphemeral;
        case SS => pub, priv := remoteStatic, Some(localStatic);
        case ES =>
          if initiator {
            pub, priv := remoteStatic, localEphemeral;
          } else {
            pub, priv := remoteEphemeral, Some(localStatic);
          }
        case SE =>
          if initiator {
            pub, priv := remoteEphemeral, Some(localStatic);
          } else {
            pub, priv := remoteStatic, localEphemeral;
          }
        case _ => return false;
      }
      if pub == None || priv == None { return false; }
      MixKey(Ecdh(pub.value, priv.value));
      ok := true;
    }

    method WriteToken(t: Token) returns (ok: bool, out: Wire)
      modifies this, cipher
      ensures ok <==> H.WriteToken(old(Value()), t).Some?
      ensures ok ==> H.WriteToken(old(Value()), t) == Some((Value(), out))
    {
      out := [];
      if t.E? || t.ME? {
        if ephemerals == [] { return false, []; }
        var key := ephemerals[0];
        localEphemeral, ephemerals := Some(key), ephemerals[1..];
        var e := Point(key, 0);
        MixHash(e);
        out := if t.E? then Bytes(e) else Bytes(Masked(e, passphraseEntropy));
        ok := true;
      } else if t.S? {
        var ct := EncryptAndHash(Point(localStatic, 0));
        return true, Bytes(ct);
      } else {
        ok := MixDh(t);
      }
    }

    method ReadToken(t: Token, f: Feed) returns (ok: bool, rest: Feed)
      modifies this, cipher
      ensures ok <==> FetchToken(old(Value()), t, f).Some?
      ensures ok ==> FetchToken(old(Value()), t, f) == Some((Value(), rest))
    {
      rest := f;
      if t.E? || t.ME? {
        var read := Fetch(f, PUBKEY_SIZE);
        if read == None { return false, f; }
        var key := Parse(read.value.0);
        if key == None || !key.value.Point? { return false, f; }
        var e: H.PublicKey := if t.E? then key.value else Unmasked(key.value, passphraseEntropy);
        remoteEphemeral := Some(e);
        MixHash(e);
        return true, read.value.1;
      } else if t.S? {
        var read := Fetch(f, PUBKEY_SIZE + MAC_SIZE);
        if read == None { return false, f; }
        var rs := DecryptAndHash(read.value.0);
        if rs == None || !rs.value.Point? { return false, f; }
        remoteStatic := Some(rs.value);
        return true, read.value.1;
      } else {
        ok := MixDh(t);
      }
    }

    /** `writeTokens`. */
    method WriteTokens(ts: seq<Token>) returns (ok: bool, out: Wire)
      modifies this, cipher
      ensures ok <==> H.WriteTokens(old(Value()), ts).Some?
      ensures ok ==> H.WriteTokens(old(Value()), ts) == Some((Value(), out))
    {
      out := [];
      var i := 0;
      assert ts[0..] == ts;
      ContinueStart(H.WriteTokens(Value(), ts));
      while i < |ts|
        invariant 0 <= i <= |ts|
        invariant Continues(H.WriteTokens(old(Value()), ts), out, H.WriteTokens(Value(), ts[i..]))
      {
        ghost var h := Value();
        var good, o := WriteToken(ts[i]);
        assert ts[i..][1..] == ts[i + 1..];
        if !good { return false, []; }
        ContinueMore(H.WriteTokens(old(Value()), ts), out, o, H.WriteTokens(h, ts[i..]),
                     H.WriteTokens(Value(), ts[i + 1..]));
        out := out + o;
        i := i + 1;
      }
      assert out + [] == out;
      ok := true;
    }

    /** `readTokens`. */
    method ReadTokens(ts: seq<Token>, f: Feed) returns (ok: bool, rest: Feed)
      modifies this, cipher
      ensures ok <==> FetchTokens(old(Value()), ts, f).Some?
      ensures ok ==> FetchTokens(old(Value()), ts, f) == Some((Value(), rest))
    {
      rest := f;
      var i := 0;
      assert ts[0..] == ts;
      while i < |ts|
        invariant 0 <= i <= |ts|
        invariant FetchTokens(Value(), ts[i..], rest) == FetchTokens(old(Value()), ts, f)
      {
        var good, next := ReadToken(ts[i], rest);
        assert ts[i..][1..] == ts[i + 1..];
        if !good { return false, f; }
        rest := next;
        i := i + 1;
      }
      ok := true;
    }

    method WritePayload(act: nat) returns (ok: bool, out: Wire)
      modifies this, cipher
      ensures ok <==> H.WritePayload(old(Value()), act).Some?
      ensures ok ==> H.WritePayload(old(Value()), act) == Some((Value(), out))
    {
      out := [];
      if !(1 <= act <= 3) { return false, []; }
      if version == 0 {
        var ct := EncryptAndHash(Plain(if act == 2 then H.FixedPayload(payloadToSend) else []));
        return true, Bytes(ct);
      } else if version <= 2 {
        var payload: seq<uint8> := [];
        if act == 2 {
          payload := payloadToSend;
          if |payload| >= H.MAX_INT32 { return false, []; }
          var len := EncryptAndHash(Plain(Be32(|payload|)));
          out := Bytes(len);
        }
        var ct := EncryptAndHash(Plain(payload));
        assert [] + Bytes(ct) == Bytes(ct);
        return true, out + Bytes(ct);
      }
      ok := false;
    }

    /** One `Read` of a ciphertext of the given size, and its decryption. */
    method ReadSealed(size: nat, f: Feed) returns (b: Option<seq<uint8>>, rest: Feed)
      modifies this, cipher
      ensures b.Some? <==> FetchSealed(old(Value()), size, f).Some?
      ensures b.Some? ==> FetchSealed(old(Value()), size, f) == Some((Value(), b.value, rest))
    {
      var read := Fetch(f, size);
      if read == None { return None, f; }
      var text := DecryptAndHash(read.value.0);
      if text == None || !text.value.Plain? { return None, f; }
      return Some(text.value.bytes), read.value.1;
    }

    method ReadPayload(act: nat, v: uint8, f: Feed) returns (ok: bool, rest: Feed)
      modifies this, cipher
      ensures ok <==> FetchPayload(old(Value()), act, v, f).Some?
      ensures ok ==> FetchPayload(old(Value()), act, v, f) == Some((Value(), rest))
    {
      hide FetchSealed, H.FromFixed, FromBe32;
      rest := f;
      if !(1 <= act <= 3) || v > 2 { return false, f; }
      var payload;
      if v == 0 {
        payload, rest := ReadSealed((if act == 2 then H.ACT_TWO_PAYLOAD_SIZE else 0) + MAC_SIZE, f);
        if payload == None { return false, f; }
        if |payload.value| == H.ACT_TWO_PAYLOAD_SIZE {
          receivedPayload := Some(H.FromFixed(payload.value));
        }
        return true, rest;
      }
      if act != 2 {
        payload, rest := ReadSealed(MAC_SIZE, f);
        return payload.Some?, rest;
      }
      var len;
      len, rest := ReadSealed(4 + MAC_SIZE, f);
      if len == None || |len.value| != 4 { return false, f; }
      payload, rest := ReadSealed(MAC_SIZE + FromBe32(len.value), rest);
      if payload == None { return false, f; }
      receivedPayload := payload;
      ok := true;
    }

    /** `writeMsgPattern`. */
    method WriteMsgPattern(mp: MessagePattern) returns (ok: bool, out: Wire)
      modifies this, cipher
      ensures ok <==> H.WriteAct(old(Value()), mp).Some?
      ensures ok ==> H.WriteAct(old(Value()), mp) == Some((Value(), out))
    {
      var v := version;
      var tokens, payload;
      ok, tokens := WriteTokens(mp.tokens);
      if !ok { return false, []; }
      ok, payload := WritePayload(mp.act);
      if !ok { return false, []; }
      out := [Raw(v)] + (tokens + payload);
    }

    /** `readMsgPattern`. */
    method ReadMsgPattern(mp: MessagePattern, f: Feed) returns (ok: bool, rest: Feed)
      modifies this, cipher
      ensures ok <==> FetchAct(old(Value()), mp, f).Some?
      ensures ok ==> FetchAct(old(Value()), mp, f) == Some((Value(), rest))
    {
      hide Fetch, FetchTokens, FetchPayload;
      var read := Fetch(f, 1);
      if read == None || |read.value.0| != 1 || !read.value.0[0].Raw? { return false, f; }
      var v := read.value.0[0].b;
      if mp.act == 1 || mp.act == 2 {
        if v < minVersion || v > maxVersion { return false, f; }
        if initiator {
          version := v;
        }
      } else if mp.act == 3 {
        if v != version { return false, f; }
      } else {
        return false, f;
      }
      ok, rest := ReadTokens(mp.tokens, read.value.1);
      if !ok { return false, f; }
      ok, rest := ReadPayload(mp.act, v, rest);
    }

    /** The loop of `DoHandshake` over the acts. */
    method RunActs(acts: seq<MessagePattern>, f: Feed) returns (ok: bool, sent: seq<Wire>, rest: Feed)
      modifies this, cipher
      ensures ok <==> FetchSide(old(Value()), acts, f).Some?
      ensures ok ==> FetchSide(old(Value()), acts, f) == Some((Value(), sent, rest))
    {
      hide FetchAct, H.WriteAct;
      sent, rest := [], f;
      var i := 0;
      assert acts[0..] == acts;
      SideContinueStart(FetchSide(Value(), acts, f));
      while i < |acts|
        invariant 0 <= i <= |acts|
        invariant SideContinues(FetchSide(old(Value()), acts, f), sent, FetchSide(Value(), acts[i..], rest))
      {
        var mp := acts[i];
        ghost var h, before := Value(), rest;
        var good;
        assert acts[i..][1..] == acts[i + 1..];
        if mp.initiator == initiator {
          var o;
          good, o := WriteMsgPattern(mp);
          if !good { return false, [], f; }
          SideContinueMore(FetchSide(old(Value()), acts, f), sent, [o], FetchSide(h, acts[i..], before),
                           FetchSide(Value(), acts[i + 1..], rest));
          sent := sent + [o];
        } else {
          good, rest := ReadMsgPattern(mp, rest);
          if !good { return false, [], f; }
        }
        i := i + 1;
      }
      assert sent + [] == sent;
      ok := true;
    }

    /** `DoHandshake`: the acts, the split, and what is handed to the connection data: from version 2 on
        the remote static key, and for the initiator the auth data. `remoteOk` and `authOk` say whether
        the callbacks of the connection data succeed. */
    method DoHandshake(acts: seq<MessagePattern>, f: Feed, data: ConnData, remoteOk: bool, authOk: bool)
      returns (ok: bool, m: Transport.Machine?, sent: seq<Wire>, rest: Feed)
      modifies this, cipher, data
      ensures var run := FetchSide(old(Value()), acts, f);
              && (ok <==> run.Some? && (run.value.0.version >= 2 ==> remoteOk) && (initiator ==> authOk))
              && (run.Some? ==> run == Some((Value(), sent, rest)))
              && data.remoteKey == (if run.Some? && run.value.0.version >= 2 && remoteOk then run.value.0.remoteStatic
                                    else old(data.remoteKey))
              && data.authData == (if ok && initiator then run.value.0.receivedPayload else old(data.authData))
      ensures data.localKey == old(data.localKey) && data.passphraseEntropy == old(data.passphraseEntropy)
      ensures ok ==>
                && m != null && fresh(m) && m.Valid()
                && m.sendCipher.Value() == H.Split(Value()).0 && m.recvCipher.Value() == H.Split(Value()).1
    {
      m := null;
      var done;
      done, sent, rest := RunActs(acts, f);
      if !done { return false, null, [], f; }
      m := Split(this);
      if version >= 2 {
        ok := data.SetRemote(remoteStatic, remoteOk);
        if !ok { return; }
      }
      if initiator {
        ok := data.SetAuthData(receivedPayload, authOk);
        if !ok { return; }
      }
      ok := true;
    }
  }

  /** What outlives a connection attempt. */
  class ConnData {
    var localKey: nat
    var remoteKey: Option<H.PublicKey>
    var passphraseEntropy: int
    var authData: Option<seq<uint8>>

    constructor (localKey: nat, remoteKey: Option<H.PublicKey>, passphraseEntropy: int, authData: Option<seq<uint8>>)
      ensures this.localKey == localKey && this.remoteKey == remoteKey
      ensures this.passphraseEntropy == passphraseEntropy && this.authData == authData
    {
      this.localKey, this.remoteKey := localKey, remoteKey;
      this.passphraseEntropy, this.authData := passphraseEntropy, authData;
    }

    /** The key is stored unless the callback fails. */
    method SetRemote(key: Option<H.PublicKey>, callbackOk: bool) returns (ok: bool)
      modifies this`remoteKey
      ensures ok == callbackOk && remoteKey == (if ok then key else old(remoteKey))
    {
      if !callbackOk { return false; }
      remoteKey := key;
      ok := true;
    }

    method SetAuthData(data: Option<seq<uint8>>, callbackOk: bool) returns (ok: bool)
      modifies this`authData
      ensures ok == callbackOk && authData == (if ok then data else old(authData))
    {
      if !callbackOk { return false; }
      authData := data;
      ok := true;
    }

    /** Both follow from the keys alone, for whatever machine is made of them. */
    method SID(ghost p: H.Party) returns (sid: Term)
      requires p.key == localKey && p.remote == remoteKey && p.passphrase == passphraseEntropy
      ensures sid == H.Sid(p)
    {
      var entropy := Entropy(passphraseEntropy);
      if remoteKey != None {
        var hash := Ecdh(remoteKey.value, localKey);
        entropy := Hmac(hash, Name("mailbox"));
      }
      sid := Sha512(entropy);
    }

    method ChoosePattern(ghost p: H.Party) returns (pattern: HandshakePattern)
      requires p.remote == remoteKey
      ensures pattern == H.PatternFor(p)
    {
      if remoteKey == None { return XX_PATTERN; }
      pattern := KK_PATTERN;
    }
  }

  /** `split`: the machine of the transport phase. */
  method Split(h: HandshakeState) returns (m: Transport.Machine)
    ensures fresh(m) && fresh(m.sendCipher) && fresh(m.recvCipher) && m.Valid()
    ensures m.sendCipher.Value() == H.Split(h.Value()).0 && m.recvCipher.Value() == H.Split(h.Value()).1
    ensures m.Value() == Transport.Pending([], [])
  {
    var first, second := Kdf1(h.chainingKey, Plain([])), Kdf2(h.chainingKey, Plain([]));
    if h.initiator {
      m := new Transport.Machine(Cipher(first, h.chainingKey, 0), Cipher(second, h.chainingKey, 0));
    } else {
      m := new Transport.Machine(Cipher(second, h.chainingKey, 0), Cipher(first, h.chainingKey, 0));
    }
  }

  /** `NewBrontideMachine`. */
  method NewBrontideMachine(pattern: HandshakePattern, p: H.Party, initiator: bool) returns (h: HandshakeState?)
    ensures h != null <==> H.NewMachine(pattern, p, initiator).Some?
    ensures h != null ==> fresh(h) && fresh(h.cipher) && H.NewMachine(pattern, p, initiator) == Some(h.Value())
  {
    if pattern.name == KK && p.maxVersion < 2 { return null; }
    h := new HandshakeState(pattern, p, initiator);
    var ok := h.MixPreMessages(pattern.pre, p);
    if !ok { return null; }
  }

  /** `whole` is `sofar` followed by what `remainder` writes. */
  predicate Continues(whole: Option<(H.State, Wire)>, sofar: Wire, remainder: Option<(H.State, Wire)>) {
    whole == match remainder
             case None => None
             case Some((h, out)) => Some((h, sofar + out))
  }

  lemma {:induction false} ContinueStart(whole: Option<(H.State, Wire)>)
    ensures Continues(whole, [], whole)
  {
    if whole.Some? {
      assert [] + whole.value.1 == whole.value.1;
    }
  }

  lemma {:induction false} ContinueMore(whole: Option<(H.State, Wire)>, sofar: Wire, o: Wire,
                                        before: Option<(H.State, Wire)>, after: Option<(H.State, Wire)>)
    requires Continues(whole, sofar, before) && Continues(before, o, after)
    ensures Continues(whole, sofar + o, after)
  {
    if after.Some? {
      assert sofar + o + after.value.1 == sofar + (o + after.value.1);
    }
  }

  predicate SideContinues(whole: Option<(H.State, seq<Wire>, Feed)>, sofar: seq<Wire>,
                          remainder: Option<(H.State, seq<Wire>, Feed)>) {
    whole == match remainder
             case None => None
             case Some((h, sent, rest)) => Some((h, sofar + sent, rest))
  }

  lemma {:induction false} SideContinueStart(whole: Option<(H.State, seq<Wire>, Feed)>)
    ensures SideContinues(whole, [], whole)
  {
    if whole.Some? {
      assert [] + whole.value.1 == whole.value.1;
    }
  }

  lemma {:induction false} SideContinueMore(whole: Option<(H.State, seq<Wire>, Feed)>, sofar: seq<Wire>, o: seq<Wire>,
                                            before: Option<(H.State, seq<Wire>, Feed)>,
                                            after: Option<(H.State, seq<Wire>, Feed)>)
    requires SideContinues(whole, sofar, before) && SideContinues(before, o, after)
    ensures SideContinues(whole, sofar + o, after)
  {
    if after.Some? {
      Assoc(sofar, o, after.value.1);
    }
  }
}
