/** From the handshake to the encrypted stream (mailbox/noise.go). */
module NoiseSessions {
  import opened Common
  import opened Terms
  import opened Ciphers
  import opened NoisePatterns
  import opened NoiseHandshake
  import opened NoiseAgreement
  import opened NoiseSides
  import Transport
  import ByteStreams

  /** Each side sends with the cipher the other receives with. */
  predicate Crossed(i: State, r: State) {
    Split(i).0 == Split(r).1 && Split(i).1 == Split(r).0 && Split(i).0.nonce == 0 && Split(i).1.nonce == 0
  }

  /** What a ratcheted key was ratcheted from. */
  function Core(t: Term): Term { if t.Kdf2? then Core(t.secret) else t }

  lemma {:induction false} EpochCore(c: Cipher, e: nat)
    ensures Core(Epoch(c, e).key) == Core(c.key)
  {
    if e > 0 {
      EpochCore(c, e - 1);
    }
  }

  /** The two directions never use the same key, however often either is ratcheted. */
  lemma {:induction false} DirectionsDisjoint(h: State, m: nat, n: nat)
    ensures After(Split(h).0, m).key != After(Split(h).1, n).key
  {
    var (send, recv) := Split(h);
    AfterIsEpoch(send, m);
    AfterIsEpoch(recv, n);
    EpochCore(send, m / 1000);
    EpochCore(recv, n / 1000);
    assert Core(Kdf2(h.chainingKey, Plain([]))) == Plain([]);
    assert Core(Kdf1(h.chainingKey, Plain([]))) == Kdf1(h.chainingKey, Plain([]));
  }

  lemma {:induction false} FinishedCrossed(p: HandshakePattern, pi: Party, pr: Party, i: State, r: State)
    requires p.acts != [] && StreamRun(p, pi, pr, i, r)
    ensures Crossed(i, r)
  {
    FinishedAgree(p, pi, pr, i, r);
  }

  /** When both machines have finished, over any connection and with any pattern, messages of
      any number decrypt in both directions. */
  lemma {:induction false} SessionDelivers(p: HandshakePattern, pi: Party, pr: Party, i: State, r: State,
                                           there: seq<Transport.Text>, back: seq<Transport.Text>)
    requires p.acts != [] && StreamRun(p, pi, pr, i, r) && Transport.Fit(there) && Transport.Fit(back)
    ensures Crossed(i, r)
    ensures Transport.ReadAll(Split(r).1, Transport.Frames(Split(i).0, there)) == there
    ensures Transport.ReadAll(Split(i).1, Transport.Frames(Split(r).0, back)) == back
  {
    FinishedCrossed(p, pi, pr, i, r);
    Transport.ReadAllPrefix(Split(r).1, there, Transport.Frames(Split(i).0, there));
    Transport.ReadAllPrefix(Split(i).1, back, Transport.Frames(Split(r).0, back));
  }

  /** When both machines have finished, both hold the responder's maximum version, and the initiator has
      received the responder's auth data exactly when that version is at least 1 or the data survives
      the fixed-size payload of version 0. */
  lemma {:induction false} AuthDataExact(p: HandshakePattern, pi: Party, pr: Party, i: State, r: State)
    requires InTurn(p) && StreamRun(p, pi, pr, i, r)
    ensures i.version == r.version == pr.maxVersion
    ensures i.receivedPayload == Some(pr.auth) <==>
            pr.maxVersion >= 1 || (|pr.auth| < 65536 && forall j :: 498 <= j < |pr.auth| ==> pr.auth[j] == 0)
    ensures |pr.auth| <= 498 ==> i.receivedPayload == Some(pr.auth)
  {
    FinishedAgree(p, pi, pr, i, r);
    InTurnExact(p, pi, pr);
    FixedPayloadExact(pr.auth);
  }

  /** The XX pattern with masked ephemeral: through a mailbox it completes exactly with the same passphrase
      on both sides and fitting versions; whenever both sides complete it, over any connection, each has
      the other's static key. */
  lemma {:induction false} XXExact(pi: Party, pr: Party)
    ensures (exists i, r :: MailboxRun(XX_PATTERN, pi, pr, i, r)) <==> XXCondition(pi, pr)
    ensures forall i, r :: StreamRun(XX_PATTERN, pi, pr, i, r) ==>
              && XXCondition(pi, pr) && Agree(i, r) && i.version == r.version == pr.maxVersion
              && i.remoteStatic == Some(Point(pr.key, 0)) && r.remoteStatic == Some(Point(pi.key, 0))
  {
    XXInOrder();
    XXCompatible(pi, pr);
    MailboxExact(XX_PATTERN, pi, pr);
    forall i, r | StreamRun(XX_PATTERN, pi, pr, i, r)
      ensures && XXCondition(pi, pr) && Agree(i, r) && i.version == r.version == pr.maxVersion
              && i.remoteStatic == Some(Point(pr.key, 0)) && r.remoteStatic == Some(Point(pi.key, 0))
    {
      XXFinished(pi, pr, i, r);
    }
  }

  lemma {:induction false} XXFinished(pi: Party, pr: Party, i: State, r: State)
    requires StreamRun(XX_PATTERN, pi, pr, i, r)
    ensures XXCondition(pi, pr) && Agree(i, r) && i.version == r.version == pr.maxVersion
    ensures i.remoteStatic == Some(Point(pr.key, 0)) && r.remoteStatic == Some(Point(pi.key, 0))
  {
    XXInOrder();
    XXCompatible(pi, pr);
    FinishedAgree(XX_PATTERN, pi, pr, i, r);
    InTurnExact(XX_PATTERN, pi, pr);
    XXSendsStatics();
  }

  lemma {:induction false} XXSendsStatics()
    ensures SendsStatic(XX_PATTERN.acts, true) && SendsStatic(XX_PATTERN.acts, false)
  {
    var acts := XX_PATTERN.acts;
    assert S in acts[1].tokens && S in acts[2].tokens;
    assert acts[1..][0] == acts[1] && acts[1..][1..] == acts[2..] && acts[2..][0] == acts[2];
    assert SendsStatic(acts[2..], true);
    assert SendsStatic(acts[1..], true) && SendsStatic(acts[1..], false);
  }

  lemma {:induction false} XXCompletes(pi: Party, pr: Party)
    requires XXCondition(pi, pr)
    ensures exists i, r :: MailboxRun(XX_PATTERN, pi, pr, i, r)
  {
    XXExact(pi, pr);
  }

  lemma {:induction false} KKCompletes(pi: Party, pr: Party)
    requires KKCondition(pi, pr)
    ensures exists i, r :: MailboxRun(KK_PATTERN, pi, pr, i, r)
  {
    KKExact(pi, pr);
  }

  predicate XXCondition(pi: Party, pr: Party) {
    && pi.passphrase == pr.passphrase
    && pr.minVersion <= pi.minVersion <= pr.maxVersion <= pi.maxVersion && pr.maxVersion <= 2
    && (pr.maxVersion >= 1 ==> |pr.auth| < 0x7fff_ffff)
    && |pi.ephemerals| >= 1 && |pr.ephemerals| >= 1
  }

  lemma {:induction false} XXCompatible(pi: Party, pr: Party)
    ensures Compatible(XX_PATTERN, pi, pr) <==> XXCondition(pi, pr)
  {
    XXInOrder();
    InTurnExact(XX_PATTERN, pi, pr);
    assert XX != KK by { assert |XX| != |KK|; }
  }

  /** The KK pattern: through a mailbox it completes exactly when each side was configured with the other's
      static key and both support version 2; whenever both sides complete it, over any connection, the
      auth data has arrived. */
  lemma {:induction false} KKExact(pi: Party, pr: Party)
    ensures (exists i, r :: MailboxRun(KK_PATTERN, pi, pr, i, r)) <==> KKCondition(pi, pr)
    ensures forall i, r :: StreamRun(KK_PATTERN, pi, pr, i, r) ==>
              && KKCondition(pi, pr) && Agree(i, r) && i.version == r.version == 2
              && i.receivedPayload == Some(pr.auth)
  {
    KKInOrder();
    KKCompatible(pi, pr);
    MailboxExact(KK_PATTERN, pi, pr);
    forall i, r | StreamRun(KK_PATTERN, pi, pr, i, r)
      ensures && KKCondition(pi, pr) && Agree(i, r) && i.version == r.version == 2
              && i.receivedPayload == Some(pr.auth)
    {
      KKFinished(pi, pr, i, r);
    }
  }

  lemma {:induction false} KKFinished(pi: Party, pr: Party, i: State, r: State)
    requires StreamRun(KK_PATTERN, pi, pr, i, r)
    ensures KKCondition(pi, pr) && Agree(i, r) && i.version == r.version == 2 && i.receivedPayload == Some(pr.auth)
  {
    KKInOrder();
    KKCompatible(pi, pr);
    FinishedAgree(KK_PATTERN, pi, pr, i, r);
    InTurnExact(KK_PATTERN, pi, pr);
  }

  predicate KKCondition(pi: Party, pr: Party) {
    && pi.remote == Some(Point(pr.key, 0)) && pr.remote == Some(Point(pi.key, 0))
    && pr.maxVersion == 2 && pi.maxVersion >= 2 && pi.minVersion <= 2 && pr.minVersion <= 2
    && |pr.auth| < 0x7fff_ffff && |pi.ephemerals| >= 1 && |pr.ephemerals| >= 1
  }

  lemma {:induction false} KKCompatible(pi: Party, pr: Party)
    ensures Compatible(KK_PATTERN, pi, pr) <==> KKCondition(pi, pr)
  {
    KKInOrder();
    InTurnExact(KK_PATTERN, pi, pr);
    var pre := KK_PATTERN.pre;
    assert pre[0].initiator && !pre[1].initiator && pre[1..] == [pre[1]] && [pre[1]][1..] == [];
    assert PreKnown([pre[1]], pi, pr) <==> KeyKnown(pre[1], pi, pr);
    assert PreKnown(pre, pi, pr) <==> pi.remote == Some(Point(pr.key, 0)) && pr.remote == Some(Point(pi.key, 0));
  }

  /** Two parties look at the same mailbox address exactly when both are new to each other and have the same
      pairing phrase, or both have a key of the other side and the products of the keys are equal. */
  lemma {:induction false} SidExact(p: Party, q: Party)
    ensures Sid(p) == Sid(q) <==>
            if p.remote == None || q.remote == None then p.remote == q.remote && p.passphrase == q.passphrase
            else Ecdh(p.remote.value, p.key) == Ecdh(q.remote.value, q.key)
    ensures p.remote != None && q.remote != None && p.remote.value.mask == q.remote.value.mask == 0 ==>
              (Sid(p) == Sid(q) <==>
               || (p.key == q.key && p.remote == q.remote)
               || (p.remote.value.scalar == q.key && q.remote.value.scalar == p.key))
  {
  }

  /** After a first connection, made with the pairing phrase, both sides look for each other at the same
      mailbox address with the same pattern. At version 2 the address is a new one and the pattern is KK,
      whose handshake then completes through a mailbox; below, nothing has changed. */
  lemma {:induction false} Reconnect(pi: Party, pr: Party, i: State, r: State, ei: seq<nat>, er: seq<nat>)
    requires pi.remote == None && pr.remote == None && StreamRun(PatternFor(pi), pi, pr, i, r)
    requires ei != [] && er != []
    ensures Sid(pi) == Sid(pr)
    ensures var pi', pr' := Stored(pi, i).(ephemerals := ei), Stored(pr, r).(ephemerals := er);
            && Sid(pi') == Sid(pr') && PatternFor(pi') == PatternFor(pr')
            && (exists i2, r2 :: MailboxRun(PatternFor(pi'), pi', pr', i2, r2))
            && (if pr.maxVersion >= 2 then PatternFor(pi') == KK_PATTERN && Sid(pi') != Sid(pi)
                else PatternFor(pi') == XX_PATTERN && Sid(pi') == Sid(pi))
  {
    hide StreamRun, MailboxRun, Agree;
    XXFinished(pi, pr, i, r);
    var pi', pr' := Stored(pi, i).(ephemerals := ei), Stored(pr, r).(ephemerals := er);
    if pr.maxVersion >= 2 {
      EcdhCommutes(pr.key, pi.key);
      KKCompletes(pi', pr');
    } else {
      XXCompletes(pi', pr');
    }
  }

  /** The direction in which `snd` writes and `rcv` reads. */
  function SessionLink(snd: State, rcv: State): ByteStreams.Link {
    ByteStreams.Link(Split(snd).0, Transport.Pending([], []), [], Split(rcv).1, [], [], 0, [])
  }

  /** When both machines have finished, bytes written on either side are read, as a stream, on the other:
      for writes of any length and any partial writes, what is read is a prefix of what was taken over,
      which without write errors is all that was written. */
  lemma {:induction false} SessionStream(p: HandshakePattern, pi: Party, pr: Party, i: State, r: State, toR: bool,
                                         ops: seq<ByteStreams.Op>, grpc: bool)
    requires p.acts != [] && StreamRun(p, pi, pr, i, r) && (grpc ==> ByteStreams.BigReads(ops))
    requires var start := if toR then SessionLink(i, r) else SessionLink(r, i);
             ByteStreams.DoAll(start, ops, grpc).Some?
    ensures var start := if toR then SessionLink(i, r) else SessionLink(r, i);
            && ByteStreams.DoAll(start, ops, grpc).value.read <= ByteStreams.TakenAll(start, ops, grpc)
            && (ByteStreams.AllWritten(start, ops, grpc) ==>
                  ByteStreams.TakenAll(start, ops, grpc) == ByteStreams.WrittenBytes(ops))
  {
    FinishedCrossed(p, pi, pr, i, r);
    var c := if toR then Split(i).0 else Split(r).0;
    ByteStreams.StreamPrefix(c, ops, grpc);
  }
}
