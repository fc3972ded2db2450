/** The keys that finished handshakes end with, from the private keys of the two parties
    (mailbox/noise.go). */
module NoiseSecrets {
  import opened Common
  import opened Terms
  import opened Ciphers
  import opened NoisePatterns
  import opened NoiseHandshake
  import opened KeySchedule
  import opened NoiseAgreement
  import opened NoiseSides

  /** The private keys that two parties start with. */
  function StartRing(pi: Party, pr: Party): Ring { Ring(pi.key, pr.key, None, None, pi.ephemerals, pr.ephemerals) }

  /** The secrets of a handshake between them. */
  function SessionSecrets(p: HandshakePattern, pi: Party, pr: Party): seq<Term> {
    Secrets(StartRing(pi, pr), p.acts)
  }

  /** For every pattern whose tokens only use keys that are there: machines that finish, over any connection,
      hold the chaining key that is made of the protocol name and of all the secrets of the pattern in
      order, and of nothing else. The initiator sends with the first half of what is derived from it and
      receives with the second, the responder the other way round, and the chaining key is the salt of
      both. */
  lemma {:induction false} KeysExact(p: HandshakePattern, pi: Party, pr: Party, i: State, r: State)
    requires KeysInOrder(p) && StreamRun(p, pi, pr, i, r)
    ensures var ck := Chain(Name(ProtocolName(p)), SessionSecrets(p, pi, pr));
            && i.chainingKey == r.chainingKey == ck
            && Split(i) == (Cipher(Kdf1(ck, Plain([])), ck, 0), Cipher(Kdf2(ck, Plain([])), ck, 0))
            && Split(r) == (Cipher(Kdf2(ck, Plain([])), ck, 0), Cipher(Kdf1(ck, Plain([])), ck, 0))
  {
    hide StreamRun, Exchange, Chain, Secrets, ActsOk, ActsFit;
    FinishedAgree(p, pi, pr, i, r);
    var i0, r0 := MachinesComplete(p, pi, pr);
    ExchangeComplete(i0, r0, p.acts, FromPre(p.pre));
    assert RingOf(i0, r0) == StartRing(pi, pr);
  }

  /** Two sessions, of whatever patterns and parties, have the same key in the same direction exactly when
      they run the same protocol on the same secrets; and never the same key in opposite directions. */
  lemma {:induction false} KeysCommit(p: HandshakePattern, pi: Party, pr: Party, i: State, r: State,
                                      q: HandshakePattern, qi: Party, qr: Party, i': State, r': State)
    requires KeysInOrder(p) && StreamRun(p, pi, pr, i, r) && KeysInOrder(q) && StreamRun(q, qi, qr, i', r')
    ensures Split(i).0.key == Split(i').0.key <==>
            ProtocolName(p) == ProtocolName(q) && SessionSecrets(p, pi, pr) == SessionSecrets(q, qi, qr)
    ensures Split(r).0.key == Split(r').0.key <==> Split(i).0.key == Split(i').0.key
    ensures Split(i).0.key != Split(r').0.key
  {
    hide StreamRun, SessionSecrets, KeysInOrder, ProtocolName;
    KeysExact(p, pi, pr, i, r);
    KeysExact(q, qi, qr, i', r');
    ChainInjective(ProtocolName(p), ProtocolName(q), SessionSecrets(p, pi, pr), SessionSecrets(q, qi, qr));
  }

  // -------------------------------------------------------------------------
  // The two patterns of the source

  lemma {:induction false} FirstSecret(k: Ring, t: Token, ts: seq<Token>, initiator: bool)
    ensures ActSecrets(k, [t] + ts, initiator) ==
            TokenSecrets(k, t) + ActSecrets(Turned(k, t, initiator), ts, initiator)
    ensures TurnedAll(k, [t] + ts, initiator) == TurnedAll(Turned(k, t, initiator), ts, initiator)
  {
    assert ([t] + ts)[1..] == ts;
  }

  lemma {:induction false} NoSecrets(k: Ring, initiator: bool)
    ensures ActSecrets(k, [], initiator) == [] && TurnedAll(k, [], initiator) == k
  {
  }

  lemma {:induction false} FourTokens(k: Ring, a: Token, b: Token, c: Token, d: Token, initiator: bool)
    ensures var k1 := Turned(k, a, initiator);
            var k2 := Turned(k1, b, initiator);
            var k3 := Turned(k2, c, initiator);
            && ActSecrets(k, [a, b, c, d], initiator) ==
               TokenSecrets(k, a) + TokenSecrets(k1, b) + TokenSecrets(k2, c) + TokenSecrets(k3, d)
            && TurnedAll(k, [a, b, c, d], initiator) == Turned(k3, d, initiator)
  {
    hide TokenSecrets, Turned, ActSecrets, TurnedAll;
    var k1 := Turned(k, a, initiator);
    var k2 := Turned(k1, b, initiator);
    var k3 := Turned(k2, c, initiator);
    ThreeTokens(k1, b, c, d, initiator);
    FirstSecret(k, a, [b, c, d], initiator);
    assert [a, b, c, d] == [a] + [b, c, d];
    Assoc(TokenSecrets(k, a), TokenSecrets(k1, b) + TokenSecrets(k2, c), TokenSecrets(k3, d));
    Assoc(TokenSecrets(k, a), TokenSecrets(k1, b), TokenSecrets(k2, c));
  }

  lemma {:induction false} ThreeTokens(k: Ring, a: Token, b: Token, c: Token, initiator: bool)
    ensures var k1 := Turned(k, a, initiator);
            var k2 := Turned(k1, b, initiator);
            && ActSecrets(k, [a, b, c], initiator) == TokenSecrets(k, a) + TokenSecrets(k1, b) + TokenSecrets(k2, c)
            && TurnedAll(k, [a, b, c], initiator) == Turned(k2, c, initiator)
  {
    hide TokenSecrets, Turned, ActSecrets, TurnedAll;
    var k1 := Turned(k, a, initiator);
    TwoTokens(k1, b, c, initiator);
    FirstSecret(k, a, [b, c], initiator);
    assert [a, b, c] == [a] + [b, c];
    Assoc(TokenSecrets(k, a), TokenSecrets(k1, b), TokenSecrets(Turned(k1, b, initiator), c));
  }

  lemma {:induction false} TwoTokens(k: Ring, a: Token, b: Token, initiator: bool)
    ensures var k1 := Turned(k, a, initiator);
            && ActSecrets(k, [a, b], initiator) == TokenSecrets(k, a) + TokenSecrets(k1, b)
            && TurnedAll(k, [a, b], initiator) == Turned(k1, b, initiator)
  {
    hide TokenSecrets, Turned, ActSecrets, TurnedAll;
    var k1 := Turned(k, a, initiator);
    FirstSecret(k, a, [b], initiator);
    FirstSecret(k1, b, [], initiator);
    NoSecrets(Turned(k1, b, initiator), initiator);
    assert [a, b] == [a] + [b] && [b] == [b] + [];
    assert TokenSecrets(k1, b) + [] == TokenSecrets(k1, b);
  }

  /** The secrets of three acts with these tokens. */
  lemma {:induction false} ActsSecrets(k: Ring, acts: seq<MessagePattern>, k1: Ring, k2: Ring)
    requires |acts| == 3
    requires k1 == TurnedAll(k, acts[0].tokens, acts[0].initiator)
    requires k2 == TurnedAll(k1, acts[1].tokens, acts[1].initiator)
    ensures Secrets(k, acts) ==
            ActSecrets(k, acts[0].tokens, acts[0].initiator) + (ActSecrets(k1, acts[1].tokens, acts[1].initiator) +
            ActSecrets(k2, acts[2].tokens, acts[2].initiator))
  {
    hide ActSecrets, TurnedAll;
    assert acts[1..][0] == acts[1] && acts[1..][1..] == acts[2..] && acts[2..][0] == acts[2] && acts[2..][1..] == [];
    var last := ActSecrets(k2, acts[2].tokens, acts[2].initiator);
    assert Secrets(k2, acts[2..]) == last by { assert last + [] == last; }
  }

  /** The secrets of XX: ephemeral and ephemeral, the initiator's ephemeral and the responder's static key,
      the initiator's static key and the responder's ephemeral. */
  lemma {:induction false} XXSecrets(pi: Party, pr: Party)
    requires pi.ephemerals != [] && pr.ephemerals != []
    ensures var ei, er := pi.ephemerals[0], pr.ephemerals[0];
            SessionSecrets(XX_PATTERN, pi, pr) ==
            [Ecdh(Point(er, 0), ei), Ecdh(Point(pr.key, 0), ei), Ecdh(Point(er, 0), pi.key)]
  {
    hide ActSecrets, TurnedAll, Secrets, Ecdh;
    var acts, k := XX_PATTERN.acts, StartRing(pi, pr);
    var k1 := Turned(k, ME, true);
    FirstSecret(k, ME, [], true);
    NoSecrets(k1, true);
    assert [ME] + [] == [ME];
    FourTokens(k1, E, EE, S, ES, false);
    var k2 := Turned(k1, E, false);
    TwoTokens(k2, S, SE, true);
    ActsSecrets(k, acts, k1, k2);
  }

  /** The secrets of KK. */
  lemma {:induction false} KKSecrets(pi: Party, pr: Party)
    requires pi.ephemerals != [] && pr.ephemerals != []
    ensures var ei, er := pi.ephemerals[0], pr.ephemerals[0];
            SessionSecrets(KK_PATTERN, pi, pr) ==
            [Ecdh(Point(pr.key, 0), ei), Ecdh(Point(pr.key, 0), pi.key),
             Ecdh(Point(er, 0), ei), Ecdh(Point(er, 0), pi.key)]
  {
    hide ActSecrets, TurnedAll;
    var acts, k := KK_PATTERN.acts, StartRing(pi, pr);
    var k1 := Turned(k, E, true);
    ThreeTokens(k, E, ES, SS, true);
    var k2 := Turned(k1, E, false);
    ThreeTokens(k1, E, EE, SE, false);
    assert acts[1..][0] == acts[1] && acts[1..][1..] == [];
    assert Secrets(k1, acts[1..]) == TokenSecrets(k2, EE) + TokenSecrets(k2, SE);
  }

  lemma {:induction false} ChainThree(ck: Term, a: Term, b: Term, c: Term)
    ensures Chain(ck, [a, b, c]) == Kdf1(Kdf1(Kdf1(ck, a), b), c)
  {
    ChainOne(ck, a);
    assert [a, b, c][..2] == [a, b] && [a, b][..1] == [a];
  }

  lemma {:induction false} ChainFour(ck: Term, a: Term, b: Term, c: Term, d: Term)
    ensures Chain(ck, [a, b, c, d]) == Kdf1(Kdf1(Kdf1(Kdf1(ck, a), b), c), d)
  {
    ChainThree(ck, a, b, c);
    assert [a, b, c, d][..3] == [a, b, c];
  }

  /** Whenever both sides complete XX, over any connection, the chaining key is this one. */
  lemma {:induction false} XXKeys(pi: Party, pr: Party, i: State, r: State)
    requires StreamRun(XX_PATTERN, pi, pr, i, r)
    ensures pi.ephemerals != [] && pr.ephemerals != []
    ensures var ei, er := pi.ephemerals[0], pr.ephemerals[0];
            var ee, es, se := Ecdh(Point(er, 0), ei), Ecdh(Point(pr.key, 0), ei), Ecdh(Point(er, 0), pi.key);
            i.chainingKey == r.chainingKey ==
            Kdf1(Kdf1(Kdf1(Name("Noise_" + "XXeke+SPAKE2" + "_secp256k1_ChaChaPoly_SHA256"), ee), es), se)
  {
    hide StreamRun, SessionSecrets, Chain, ActsFit, Finished, PreKnown;
    XXInOrder();
    FinishedAgree(XX_PATTERN, pi, pr, i, r);
    InTurnExact(XX_PATTERN, pi, pr);
    KeysExact(XX_PATTERN, pi, pr, i, r);
    XXSecrets(pi, pr);
    var ei, er := pi.ephemerals[0], pr.ephemerals[0];
    ChainThree(Name(ProtocolName(XX_PATTERN)), Ecdh(Point(er, 0), ei), Ecdh(Point(pr.key, 0), ei),
               Ecdh(Point(er, 0), pi.key));
  }

  /** Whenever both sides complete KK, over any connection, the chaining key is this one. */
  lemma {:induction false} KKKeys(pi: Party, pr: Party, i: State, r: State)
    requires StreamRun(KK_PATTERN, pi, pr, i, r)
    ensures pi.ephemerals != [] && pr.ephemerals != []
    ensures var ei, er := pi.ephemerals[0], pr.ephemerals[0];
            var es, ss := Ecdh(Point(pr.key, 0), ei), Ecdh(Point(pr.key, 0), pi.key);
            var ee, se := Ecdh(Point(er, 0), ei), Ecdh(Point(er, 0), pi.key);
            i.chainingKey == r.chainingKey ==
            Kdf1(Kdf1(Kdf1(Kdf1(Name("Noise_" + "KK" + "_secp256k1_ChaChaPoly_SHA256"), es), ss), ee), se)
  {
    hide StreamRun, SessionSecrets, Chain, ActsFit, Finished, PreKnown;
    KKInOrder();
    FinishedAgree(KK_PATTERN, pi, pr, i, r);
    InTurnExact(KK_PATTERN, pi, pr);
    KeysExact(KK_PATTERN, pi, pr, i, r);
    KKSecrets(pi, pr);
    var ei, er := pi.ephemerals[0], pr.ephemerals[0];
    var es, ss := Ecdh(Point(pr.key, 0), ei), Ecdh(Point(pr.key, 0), pi.key);
    var ee, se := Ecdh(Point(er, 0), ei), Ecdh(Point(er, 0), pi.key);
    ChainFour(Name(ProtocolName(KK_PATTERN)), es, ss, ee, se);
  }

  /** The same two key pairs, in either order. */
  predicate SamePair(a: nat, b: nat, c: nat, d: nat) { (a == c && b == d) || (a == d && b == c) }

  /** Two completed XX sessions have the same key exactly when they are made of the same pairs of keys. */
  lemma {:induction false} XXCommit(pi: Party, pr: Party, i: State, r: State,
                                    qi: Party, qr: Party, i': State, r': State)
    requires StreamRun(XX_PATTERN, pi, pr, i, r) && StreamRun(XX_PATTERN, qi, qr, i', r')
    ensures pi.ephemerals != [] && pr.ephemerals != [] && qi.ephemerals != [] && qr.ephemerals != []
    ensures var ei, er, fi, fr := pi.ephemerals[0], pr.ephemerals[0], qi.ephemerals[0], qr.ephemerals[0];
            Split(i).0.key == Split(i').0.key <==>
            SamePair(ei, er, fi, fr) && SamePair(ei, pr.key, fi, qr.key) && SamePair(pi.key, er, qi.key, fr)
  {
    hide StreamRun, SessionSecrets;
    XXInOrder();
    XXKeys(pi, pr, i, r);
    XXKeys(qi, qr, i', r');
    KeysCommit(XX_PATTERN, pi, pr, i, r, XX_PATTERN, qi, qr, i', r');
    XXSecrets(pi, pr);
    XXSecrets(qi, qr);
    var ei, er, fi, fr := pi.ephemerals[0], pr.ephemerals[0], qi.ephemerals[0], qr.ephemerals[0];
    EcdhExact(er, ei, fr, fi);
    EcdhExact(pr.key, ei, qr.key, fi);
    EcdhExact(er, pi.key, fr, qi.key);
    ThreeAlike(SessionSecrets(XX_PATTERN, pi, pr), SessionSecrets(XX_PATTERN, qi, qr));
  }

  lemma {:induction false} ThreeAlike(a: seq<Term>, b: seq<Term>)
    requires |a| == |b| == 3
    ensures a == b <==> a[0] == b[0] && a[1] == b[1] && a[2] == b[2]
  {
  }
}
