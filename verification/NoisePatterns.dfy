/** Handshake patterns (mailbox/noise_patterns.go). */
module NoisePatterns {

  datatype Token = E | S | EE | ES | SE | SS | ME

  /** One act: who sends it, its number, and what it is made of. */
  datatype MessagePattern = MessagePattern(tokens: seq<Token>, initiator: bool, act: nat)

  datatype HandshakePattern = HandshakePattern(name: string, pre: seq<MessagePattern>, acts: seq<MessagePattern>)

  const XX: string := "XXeke+SPAKE2"
  const KK: string := "KK"

  const XX_PATTERN: HandshakePattern := HandshakePattern(
    XX, [],
    [MessagePattern([ME], true, 1),
     MessagePattern([E, EE, S, ES], false, 2),
     MessagePattern([S, SE], true, 3)])

  const KK_PATTERN: HandshakePattern := HandshakePattern(
    KK,
    [MessagePattern([S], true, 0), MessagePattern([S], false, 0)],
    [MessagePattern([E, ES, SS], true, 1),
     MessagePattern([E, EE, SE], false, 2)])

  /** Which public keys the other side has: the initiator's and the responder's ephemeral and
      static ones. */
  datatype Known = Known(iE: bool, iS: bool, rE: bool, rS: bool)

  /** Both sides have the keys that the token combines. */
  predicate TokenOk(k: Known, t: Token) {
    match t
    case EE => k.iE && k.rE
    case ES => k.iE && k.rS
    case SE => k.iS && k.rE
    case SS => k.iS && k.rS
    case _ => true
  }

  function AfterToken(k: Known, t: Token, initiator: bool): Known {
    match t
    case E => if initiator then k.(iE := true) else k.(rE := true)
    case ME => if initiator then k.(iE := true) else k.(rE := true)
    case S => if initiator then k.(iS := true) else k.(rS := true)
    case _ => k
  }

  function AfterTokens(k: Known, ts: seq<Token>, initiator: bool): Known
    decreases |ts|
  {
    if ts == [] then k else AfterTokens(AfterToken(k, ts[0], initiator), ts[1..], initiator)
  }

  predicate TokensOk(k: Known, ts: seq<Token>, initiator: bool)
    decreases |ts|
  {
    ts == [] || (TokenOk(k, ts[0]) && TokensOk(AfterToken(k, ts[0], initiator), ts[1..], initiator))
  }

  predicate ActsOk(k: Known, acts: seq<MessagePattern>)
    decreases |acts|
  {
    acts == [] ||
    (TokensOk(k, acts[0].tokens, acts[0].initiator) &&
     ActsOk(AfterTokens(k, acts[0].tokens, acts[0].initiator), acts[1..]))
  }

  /** The static keys that are known in advance. */
  function FromPre(pre: seq<MessagePattern>): Known {
    Known(false, exists i :: 0 <= i < |pre| && pre[i].initiator, false, exists i :: 0 <= i < |pre| && !pre[i].initiator)
  }

  /** There is an act, and every key is there when a token needs it. */
  predicate KeysInOrder(p: HandshakePattern) { p.acts != [] && ActsOk(FromPre(p.pre), p.acts) }

  /** Two or three acts, numbered from 1, sent in turn starting with the initiator. */
  predicate InTurn(p: HandshakePattern) {
    && 2 <= |p.acts| <= 3
    && (forall i :: 0 <= i < |p.acts| ==> p.acts[i].act == i + 1 && p.acts[i].initiator == (i % 2 == 0))
  }

  /** How many ephemeral keys one side generates. */
  function EphemeralsIn(ts: seq<Token>): nat {
    if ts == [] then 0 else (if ts[0].E? || ts[0].ME? then 1 else 0) + EphemeralsIn(ts[1..])
  }

  function Ephemerals(acts: seq<MessagePattern>, initiator: bool): nat {
    if acts == [] then 0
    else (if acts[0].initiator == initiator then EphemeralsIn(acts[0].tokens) else 0) +
         Ephemerals(acts[1..], initiator)
  }

  /** Some act sends a masked ephemeral key. */
  predicate UsesMask(acts: seq<MessagePattern>) {
    exists i :: 0 <= i < |acts| && ME in acts[i].tokens
  }

  lemma {:induction false} FirstToken(k: Known, t: Token, ts: seq<Token>, initiator: bool)
    ensures TokensOk(k, [t] + ts, initiator) <==>
            TokenOk(k, t) && TokensOk(AfterToken(k, t, initiator), ts, initiator)
    ensures AfterTokens(k, [t] + ts, initiator) == AfterTokens(AfterToken(k, t, initiator), ts, initiator)
    ensures EphemeralsIn([t] + ts) == (if t.E? || t.ME? then 1 else 0) + EphemeralsIn(ts)
  {
    assert ([t] + ts)[1..] == ts;
  }

  /** The tokens of one act are in order, add the given keys and use so many ephemerals. */
  predicate ActIs(k: Known, mp: MessagePattern, k': Known, ephemerals: nat) {
    && TokensOk(k, mp.tokens, mp.initiator)
    && AfterTokens(k, mp.tokens, mp.initiator) == k'
    && EphemeralsIn(mp.tokens) == ephemerals
  }

  lemma {:induction false} ThreeActs(k: Known, acts: seq<MessagePattern>, k1: Known, k2: Known, k3: Known,
                                     e1: nat, e2: nat, e3: nat)
    requires |acts| == 3 && ActIs(k, acts[0], k1, e1) && ActIs(k1, acts[1], k2, e2) && ActIs(k2, acts[2], k3, e3)
    requires acts[0].initiator && !acts[1].initiator && acts[2].initiator
    ensures ActsOk(k, acts) && Ephemerals(acts, true) == e1 + e3 && Ephemerals(acts, false) == e2
  {
    assert acts[1..][1..] == acts[2..] && acts[2..][1..] == [];
    assert ActsOk(k2, acts[2..]) && Ephemerals(acts[2..], true) == e3 && Ephemerals(acts[2..], false) == 0;
    assert ActsOk(k1, acts[1..]) && Ephemerals(acts[1..], true) == e3 && Ephemerals(acts[1..], false) == e2;
  }

  lemma {:induction false} TwoActs(k: Known, acts: seq<MessagePattern>, k1: Known, k2: Known, e1: nat, e2: nat)
    requires |acts| == 2 && ActIs(k, acts[0], k1, e1) && ActIs(k1, acts[1], k2, e2)
    requires acts[0].initiator && !acts[1].initiator
    ensures ActsOk(k, acts) && Ephemerals(acts, true) == e1 && Ephemerals(acts, false) == e2
  {
    assert acts[1..][1..] == [];
    assert ActsOk(k1, acts[1..]) && Ephemerals(acts[1..], true) == 0 && Ephemerals(acts[1..], false) == e2;
  }

  lemma {:induction false} OneToken(k: Known, mp: MessagePattern, t: Token, k': Known, ephemerals: nat)
    requires mp.tokens == [t] && TokenOk(k, t) && k' == AfterToken(k, t, mp.initiator)
    requires ephemerals == (if t.E? || t.ME? then 1 else 0)
    ensures ActIs(k, mp, k', ephemerals)
  {
    FirstToken(k, t, [], mp.initiator);
    assert [t] + [] == [t];
  }

  lemma {:induction false} ThirdActOfXX(k3: Known, mp: MessagePattern, k4: Known)
    requires mp.tokens == [S, SE] && mp.initiator && k3.rE && k4 == AfterToken(k3, S, true)
    ensures ActIs(k3, mp, k4, 0)
  {
    FirstToken(k3, S, [SE], true);
    FirstToken(k4, SE, [], true);
    assert [SE] == [SE] + [] && mp.tokens == [S] + [SE];
  }

  lemma {:induction false} ActsOfKK(k0: Known, first: MessagePattern, k1: Known, second: MessagePattern, k2: Known)
    requires first.tokens == [E, ES, SS] && first.initiator && second.tokens == [E, EE, SE] && !second.initiator
    requires k0.iS && k0.rS && k1 == AfterToken(k0, E, true) && k2 == AfterToken(k1, E, false)
    ensures ActIs(k0, first, k1, 1) && ActIs(k1, second, k2, 1)
  {
    FirstToken(k0, E, [ES, SS], true);
    FirstToken(k1, ES, [SS], true);
    FirstToken(k1, SS, [], true);
    assert [SS] == [SS] + [] && [ES, SS] == [ES] + [SS] && first.tokens == [E] + [ES, SS];
    FirstToken(k1, E, [EE, SE], false);
    FirstToken(k2, EE, [SE], false);
    FirstToken(k2, SE, [], false);
    assert [SE] == [SE] + [] && [EE, SE] == [EE] + [SE] && second.tokens == [E] + [EE, SE];
  }

  lemma {:induction false} SecondActOfXX(k1: Known, mp: MessagePattern, k2: Known, k3: Known)
    requires mp.tokens == [E, EE, S, ES] && !mp.initiator && k1.iE
    requires k2 == AfterToken(k1, E, false) && k3 == AfterToken(k2, S, false)
    ensures ActIs(k1, mp, k3, 1)
  {
    FirstToken(k1, E, [EE, S, ES], false);
    FirstToken(k2, EE, [S, ES], false);
    FirstToken(k2, S, [ES], false);
    FirstToken(k3, ES, [], false);
    assert [ES] == [ES] + [] && [S, ES] == [S] + [ES] && [EE, S, ES] == [EE] + [S, ES];
    assert mp.tokens == [E] + [EE, S, ES];
  }

  /** Both patterns of the source qualify. */
  lemma {:induction false} XXInOrder()
    ensures KeysInOrder(XX_PATTERN) && InTurn(XX_PATTERN) && UsesMask(XX_PATTERN.acts)
    ensures Ephemerals(XX_PATTERN.acts, true) == 1 && Ephemerals(XX_PATTERN.acts, false) == 1
  {
    hide TokensOk, AfterTokens, EphemeralsIn;
    var acts := XX_PATTERN.acts;
    var k0, k1 := Known(false, false, false, false), Known(true, false, false, false);
    var k2, k3 := Known(true, false, true, false), Known(true, false, true, true);
    var k4 := Known(true, true, true, true);
    OneToken(k0, acts[0], ME, k1, 1);
    SecondActOfXX(k1, acts[1], k2, k3);
    ThirdActOfXX(k3, acts[2], k4);
    ThreeActs(k0, acts, k1, k3, k4, 1, 1, 0);
    assert ME in acts[0].tokens;
    assert FromPre(XX_PATTERN.pre) == k0;
  }

  lemma {:induction false} KKInOrder()
    ensures KeysInOrder(KK_PATTERN) && InTurn(KK_PATTERN) && !UsesMask(KK_PATTERN.acts)
    ensures Ephemerals(KK_PATTERN.acts, true) == 1 && Ephemerals(KK_PATTERN.acts, false) == 1
  {
    hide TokensOk, AfterTokens, EphemeralsIn;
    var acts := KK_PATTERN.acts;
    var k0, k1, k2 := Known(false, true, false, true), Known(true, true, false, true), Known(true, true, true, true);
    ActsOfKK(k0, acts[0], k1, acts[1], k2);
    TwoActs(k0, acts, k1, k2, 1, 1);
    assert KK_PATTERN.pre[0].initiator && !KK_PATTERN.pre[1].initiator;
    assert FromPre(KK_PATTERN.pre) == k0;
  }
}
