/** Two machines that run the handshake at the same time, each reading what the other sends
    (mailbox/noise.go). */
module NoiseSides {
  import opened Common
  import opened Terms
  import opened NoisePatterns
  import opened NoiseHandshake
  import opened NoiseAgreement
  import opened NoiseReads

  // -------------------------------------------------------------------------
  // One side on its own

  /** `DoHandshake` of one machine that reads from `wire`: its final state, what it sends, and what
      it leaves unread. */
  function OneSide(h: State, acts: seq<MessagePattern>, wire: Wire): Option<(State, Wire, Wire)>
    decreases |acts|
  {
    if acts == [] then Some((h, [], wire))
    else if acts[0].initiator == h.initiator then
      match WriteAct(h, acts[0]) case None => None case Some((h1, out1)) =>
      match OneSide(h1, acts[1..], wire) case None => None case Some((h2, out2, rest)) =>
      Some((h2, out1 + out2, rest))
    else
      match ReadAct(h, acts[0], wire) case None => None case Some((h1, wire1)) =>
      OneSide(h1, acts[1..], wire1)
  }

  lemma {:induction false} PrefixOfLonger(wire: Wire, more: Wire, n: nat)
    requires n <= |wire|
    ensures (wire + more)[..n] == wire[..n] && (wire + more)[n..] == wire[n..] + more
  {
  }

  lemma {:induction false} ReadTokenMore(h: State, t: Token, wire: Wire, more: Wire)
    requires ReadToken(h, t, wire).Some?
    ensures ReadToken(h, t, wire + more) ==
            Some((ReadToken(h, t, wire).value.0, ReadToken(h, t, wire).value.1 + more))
  {
    if t.E? || t.ME? {
      PrefixOfLonger(wire, more, PUBKEY_SIZE);
    } else if t.S? {
      PrefixOfLonger(wire, more, PUBKEY_SIZE + MAC_SIZE);
    }
  }

  lemma {:induction false} ReadTokensMore(h: State, ts: seq<Token>, wire: Wire, more: Wire)
    requires ReadTokens(h, ts, wire).Some?
    ensures ReadTokens(h, ts, wire + more) ==
            Some((ReadTokens(h, ts, wire).value.0, ReadTokens(h, ts, wire).value.1 + more))
    decreases |ts|
  {
    if ts != [] {
      ReadTokenMore(h, ts[0], wire, more);
      var (h1, wire1) := ReadToken(h, ts[0], wire).value;
      ReadTokensMore(h1, ts[1..], wire1, more);
    }
  }

  lemma {:induction false} ReadSealedMore(h: State, size: nat, wire: Wire, more: Wire)
    requires ReadSealed(h, size, wire).Some?
    ensures var (h', b, rest) := ReadSealed(h, size, wire).value;
            ReadSealed(h, size, wire + more) == Some((h', b, rest + more))
  {
    PrefixOfLonger(wire, more, size);
  }

  lemma {:induction false} ReadPayloadMore(h: State, act: nat, version: uint8, wire: Wire, more: Wire)
    requires ReadPayload(h, act, version, wire).Some?
    ensures ReadPayload(h, act, version, wire + more) ==
            Some((ReadPayload(h, act, version, wire).value.0, ReadPayload(h, act, version, wire).value.1 + more))
  {
    if version == 0 {
      ReadSealedMore(h, (if act == 2 then ACT_TWO_PAYLOAD_SIZE else 0) + MAC_SIZE, wire, more);
    } else if act == 2 {
      ReadSealedMore(h, 4 + MAC_SIZE, wire, more);
      var (h1, len, wire1) := ReadSealed(h, 4 + MAC_SIZE, wire).value;
      ReadSealedMore(h1, MAC_SIZE + FromBe32(len), wire1, more);
    } else {
      ReadSealedMore(h, MAC_SIZE, wire, more);
    }
  }

  /** Reading an act does not look beyond it. */
  lemma {:induction false} ReadActMore(h: State, mp: MessagePattern, wire: Wire, more: Wire)
    requires ReadAct(h, mp, wire).Some?
    ensures ReadAct(h, mp, wire + more) ==
            Some((ReadAct(h, mp, wire).value.0, ReadAct(h, mp, wire).value.1 + more))
  {
    PrefixOfLonger(wire, more, 1);
    var h1 := Negotiated(h, mp.act, wire[0].b).value;
    ReadTokensMore(h1, mp.tokens, wire[1..], more);
    var (h2, wire2) := ReadTokens(h1, mp.tokens, wire[1..]).value;
    ReadPayloadMore(h2, mp.act, wire[0].b, wire2, more);
  }

  lemma {:induction false} WriterGoesOn(h: State, acts: seq<MessagePattern>, wire: Wire, h1: State, out1: Wire,
                                        h2: State, out2: Wire, rest: Wire)
    requires acts != [] && acts[0].initiator == h.initiator && WriteAct(h, acts[0]) == Some((h1, out1))
    requires OneSide(h1, acts[1..], wire) == Some((h2, out2, rest))
    ensures OneSide(h, acts, wire) == Some((h2, out1 + out2, rest))
  {
  }

  lemma {:induction false} ReaderGoesOn(h: State, acts: seq<MessagePattern>, wire: Wire, out: Wire, more: Wire,
                                        h1: State, rest: Wire, end: (State, Wire, Wire))
    requires acts != [] && acts[0].initiator != h.initiator && ReadAct(h, acts[0], wire + out) == Some((h1, rest))
    requires OneSide(h1, acts[1..], rest + more) == Some(end)
    ensures OneSide(h, acts, wire + (out + more)) == Some(end)
  {
    assert wire + (out + more) == wire + out + more;
    ReadActMore(h, acts[0], wire + out, more);
  }

  /** The two sides, run apart on each other's output, end as the exchange does. */
  predicate Composed(i: State, r: State, toI: Wire, toR: Wire, acts: seq<MessagePattern>, outI: Wire, outR: Wire,
                     end: (State, State, Wire, Wire)) {
    && OneSide(i, acts, toI + outR) == Some((end.0, outI, end.2))
    && OneSide(r, acts, toR + outI) == Some((end.1, outR, end.3))
  }

  lemma {:induction false} ExchangeFirst(i: State, r: State, toI: Wire, toR: Wire, acts: seq<MessagePattern>)
    returns (i1: State, r1: State, toI1: Wire, toR1: Wire, out: Wire)
    requires acts != [] && Exchange(i, r, toI, toR, acts).Some?
    ensures Exchange(i1, r1, toI1, toR1, acts[1..]) == Exchange(i, r, toI, toR, acts)
    ensures i1.initiator == i.initiator && r1.initiator == r.initiator
    ensures acts[0].initiator ==>
              && toI1 == toI && WriteAct(i, acts[0]) == Some((i1, out))
              && ReadAct(r, acts[0], toR + out) == Some((r1, toR1))
    ensures !acts[0].initiator ==>
              && toR1 == toR && WriteAct(r, acts[0]) == Some((r1, out))
              && ReadAct(i, acts[0], toI + out) == Some((i1, toI1))
  {
    toI1, toR1 := toI, toR;
    if acts[0].initiator {
      i1, out := WriteAct(i, acts[0]).value.0, WriteAct(i, acts[0]).value.1;
      r1, toR1 := ReadAct(r, acts[0], toR + out).value.0, ReadAct(r, acts[0], toR + out).value.1;
      RolesKept(i, acts[0], []);
      RolesKept(r, acts[0], toR + out);
    } else {
      r1, out := WriteAct(r, acts[0]).value.0, WriteAct(r, acts[0]).value.1;
      i1, toI1 := ReadAct(i, acts[0], toI + out).value.0, ReadAct(i, acts[0], toI + out).value.1;
      RolesKept(r, acts[0], []);
      RolesKept(i, acts[0], toI + out);
    }
  }

  /** Two machines that run concurrently, each reading what the other sends, do what the exchange in
      turns does. */
  lemma {:induction false} SidesCompose(i: State, r: State, toI: Wire, toR: Wire, acts: seq<MessagePattern>)
    returns (outI: Wire, outR: Wire)
    requires i.initiator && !r.initiator && Exchange(i, r, toI, toR, acts).Some?
    ensures Composed(i, r, toI, toR, acts, outI, outR, Exchange(i, r, toI, toR, acts).value)
    decreases |acts|
  {
    if acts == [] {
      outI, outR := [], [];
      assert toI + [] == toI && toR + [] == toR;
    } else {
      var end := Exchange(i, r, toI, toR, acts).value;
      var i1, r1, toI1, toR1, out := ExchangeFirst(i, r, toI, toR, acts);
      var moreI, moreR := SidesCompose(i1, r1, toI1, toR1, acts[1..]);
      if acts[0].initiator {
        outI, outR := out + moreI, moreR;
        WriterGoesOn(i, acts, toI + outR, i1, out, end.0, moreI, end.2);
        ReaderGoesOn(r, acts, toR, out, moreI, r1, toR1, (end.1, outR, end.3));
      } else {
        outI, outR := moreI, out + moreR;
        WriterGoesOn(r, acts, toR + outI, r1, out, end.1, moreR, end.3);
        ReaderGoesOn(i, acts, toI, out, moreR, i1, toI1, (end.0, outI, end.2));
      }
    }
  }

  lemma {:induction false} RolesKept(h: State, mp: MessagePattern, wire: Wire)
    ensures WriteAct(h, mp).Some? ==> WriteAct(h, mp).value.0.initiator == h.initiator
    ensures ReadAct(h, mp, wire).Some? ==> ReadAct(h, mp, wire).value.0.initiator == h.initiator
  {
    hide WriteTokens, ReadTokens;
    TokensKeepRole(h, mp.tokens, []);
    if ReadAct(h, mp, wire).Some? {
      TokensKeepRole(Negotiated(h, mp.act, wire[0].b).value, mp.tokens, wire[1..]);
    }
  }

  lemma {:induction false} TokensKeepRole(h: State, ts: seq<Token>, wire: Wire)
    ensures WriteTokens(h, ts).Some? ==> WriteTokens(h, ts).value.0.initiator == h.initiator
    ensures ReadTokens(h, ts, wire).Some? ==> ReadTokens(h, ts, wire).value.0.initiator == h.initiator
    decreases |ts|
  {
    if ts != [] {
      if WriteToken(h, ts[0]).Some? {
        TokensKeepRole(WriteToken(h, ts[0]).value.0, ts[1..], []);
      }
      if ReadToken(h, ts[0], wire).Some? {
        var (h1, wire1) := ReadToken(h, ts[0], wire).value;
        TokensKeepRole(h1, ts[1..], wire1);
      }
    }
  }

  // -------------------------------------------------------------------------
  // Two machines that both finish did the exchange in turns

  lemma {:induction false} OneSideMore(h: State, acts: seq<MessagePattern>, wire: Wire, more: Wire)
    requires OneSide(h, acts, wire).Some?
    ensures var (h', out, rest) := OneSide(h, acts, wire).value;
            OneSide(h, acts, wire + more) == Some((h', out, rest + more))
    decreases |acts|
  {
    if acts != [] {
      if acts[0].initiator == h.initiator {
        OneSideMore(WriteAct(h, acts[0]).value.0, acts[1..], wire, more);
      } else {
        ReadActMore(h, acts[0], wire, more);
        var (h1, wire1) := ReadAct(h, acts[0], wire).value;
        OneSideMore(h1, acts[1..], wire1, more);
      }
    }
  }

  /** One act of two machines that both go on to finish; `w` writes it and `r` reads it. */
  lemma {:induction false} ActOfBoth(w: State, r: State, acts: seq<MessagePattern>, inW: Wire, outW: Wire, more: Wire)
    returns (w1: State, out1: Wire, outW': Wire, r1: State)
    requires Linked(w, r) && acts != [] && acts[0].initiator == w.initiator == !r.initiator
    requires OneSide(w, acts, inW).Some? && OneSide(w, acts, inW).value.1 == outW
    requires OneSide(r, acts, outW + more).Some?
    ensures WriteAct(w, acts[0]) == Some((w1, out1)) && outW == out1 + outW'
    ensures ReadAct(r, acts[0], [] + out1) == Some((r1, []))
    ensures Linked(w1, r1) && w1.initiator == w.initiator && r1.initiator == r.initiator
    ensures var (w2, _, rest) := OneSide(w, acts, inW).value; OneSide(w1, acts[1..], inW) == Some((w2, outW', rest))
    ensures OneSide(r1, acts[1..], outW' + more) == OneSide(r, acts, outW + more)
  {
    w1, out1 := WriteAct(w, acts[0]).value.0, WriteAct(w, acts[0]).value.1;
    outW' := OneSide(w1, acts[1..], inW).value.1;
    Assoc(out1, outW', more);
    var w1', r1' := ActSound(w, r, acts[0], outW' + more);
    r1 := r1';
    ActAnyRest(w, r, acts[0], outW' + more, []);
    assert out1 + [] == [] + out1;
    RolesKept(w, acts[0], []);
    RolesKept(r, acts[0], out1 + (outW' + more));
  }

  /** Two machines that both finish, each reading what the other sends and possibly more, end as the
      exchange in turns does, and what they leave unread is what came after the handshake. */
  lemma {:induction false} SidesSound(i: State, r: State, acts: seq<MessagePattern>, outI: Wire, outR: Wire,
                                      moreI: Wire, moreR: Wire)
    requires Linked(i, r) && i.initiator && !r.initiator
    requires OneSide(i, acts, outR + moreR).Some? && OneSide(i, acts, outR + moreR).value.1 == outI
    requires OneSide(r, acts, outI + moreI).Some? && OneSide(r, acts, outI + moreI).value.1 == outR
    ensures var (i', _, restI) := OneSide(i, acts, outR + moreR).value;
            var (r', _, restR) := OneSide(r, acts, outI + moreI).value;
            Exchange(i, r, [], [], acts) == Some((i', r', [], [])) && restI == moreR && restR == moreI
    decreases |acts|
  {
    if acts == [] {
      assert [] + moreI == moreI && [] + moreR == moreR;
    } else if acts[0].initiator {
      var i1, out1, outI', r1 := ActOfBoth(i, r, acts, outR + moreR, outI, moreI);
      ExchangeOne(i, r, acts, i1, r1, out1);
      SidesSound(i1, r1, acts[1..], outI', outR, moreI, moreR);
    } else {
      LinkedSwap(i, r);
      var r1, out1, outR', i1 := ActOfBoth(r, i, acts, outI + moreI, outR, moreR);
      ExchangeOne(i, r, acts, i1, r1, out1);
      LinkedSwap(r1, i1);
      SidesSound(i1, r1, acts[1..], outI, outR', moreI, moreR);
    }
  }

  // -------------------------------------------------------------------------
  // With plain reads

  /** `DoHandshake` of one machine: its final state, the packets it sends, one for each act, and what it
      leaves unread. */
  function FetchSide(h: State, acts: seq<MessagePattern>, f: Feed): Option<(State, seq<Wire>, Feed)>
    decreases |acts|
  {
    if acts == [] then Some((h, [], f))
    else if acts[0].initiator == h.initiator then
      match WriteAct(h, acts[0]) case None => None case Some((h1, out)) =>
      match FetchSide(h1, acts[1..], f) case None => None case Some((h2, sent, f2)) =>
      Some((h2, [out] + sent, f2))
    else
      match FetchAct(h, acts[0], f) case None => None case Some((h1, f1)) =>
      FetchSide(h1, acts[1..], f1)
  }

  /** However its input is cut into packets, a machine that finishes does what exact reads do. */
  lemma {:induction false} FetchSideSound(h: State, acts: seq<MessagePattern>, f: Feed)
    requires FetchSide(h, acts, f).Some?
    ensures var (h', sent, f') := FetchSide(h, acts, f).value;
            OneSide(h, acts, f.All()) == Some((h', Flat(sent), f'.All()))
    decreases |acts|
  {
    if acts != [] {
      if acts[0].initiator == h.initiator {
        var (h1, out) := WriteAct(h, acts[0]).value;
        FetchSideSound(h1, acts[1..], f);
        var sent := FetchSide(h1, acts[1..], f).value.1;
        assert ([out] + sent)[1..] == sent;
      } else {
        FetchActSound(h, acts[0], f);
        var (h1, f1) := FetchAct(h, acts[0], f).value;
        FetchSideSound(h1, acts[1..], f1);
      }
    }
  }

  lemma {:induction false} FetchActSound(h: State, mp: MessagePattern, f: Feed)
    requires FetchAct(h, mp, f).Some?
    ensures var (h', f') := FetchAct(h, mp, f).value; ReadAct(h, mp, f.All()) == Some((h', f'.All()))
  {
    var auth := if ReadAct(h, mp, f.All()).Some? then AuthLength(ReadAct(h, mp, f.All()).value.0) else 0;
    if ReadAct(h, mp, f.All()).Some? && f.All()[0].b >= 1 && mp.act == 2 {
      AuthReceived(h, mp, f.All());
    }
    ActFetch(h, mp, f, auth);
  }

  function AuthLength(h: State): nat { if h.receivedPayload.Some? then |h.receivedPayload.value| else 0 }

  lemma {:induction false} AuthReceived(h: State, mp: MessagePattern, wire: Wire)
    requires ReadAct(h, mp, wire).Some? && wire[0].b >= 1 && mp.act == 2
    ensures ReadAct(h, mp, wire).value.0.receivedPayload.Some?
  {
  }

  /** One act between sides that agree and fit, cut into packets in any way: it is read exactly when no
      packet ends inside one of its fields. */
  lemma {:induction false} ActReadExactly(w: State, r: State, mp: MessagePattern, k: Known, f: Feed, more: Wire)
    requires Agree(w, r) && Shared(w, r, k) && w.initiator == mp.initiator
    requires TokensOk(k, mp.tokens, mp.initiator) && Fits(w, r, mp)
    requires WriteAct(w, mp).Some? && f.All() == WriteAct(w, mp).value.1 + more
    ensures FetchAct(r, mp, f).Some? <==> FullReads(f, ActWidths(mp, w.version, |w.payloadToSend|))
  {
    var w', out, r' := ActComplete(w, r, mp, k);
    assert [] + out == out + [];
    AgreeLinked(w, r);
    ActAnyRest(w, r, mp, [], more);
    ActBytes(w, mp, more);
    ActFetch(r, mp, f, |w.payloadToSend|);
  }

  // -------------------------------------------------------------------------
  // Through the mailbox: one control message for each act

  lemma {:induction false} SidesByPacket(i: State, r: State, acts: seq<MessagePattern>)
    returns (sentI: seq<Wire>, sentR: seq<Wire>)
    requires Linked(i, r) && i.initiator && !r.initiator && Exchange(i, r, [], [], acts).Some?
    ensures var (i', r', _, _) := Exchange(i, r, [], [], acts).value;
            && FetchSide(i, acts, Feed([], sentR)) == Some((i', sentI, Feed([], [])))
            && FetchSide(r, acts, Feed([], sentI)) == Some((r', sentR, Feed([], [])))
    decreases |acts|
  {
    if acts == [] {
      sentI, sentR := [], [];
    } else {
      var i1, r1, out := FirstActSound(i, r, acts);
      sentI, sentR := SidesByPacket(i1, r1, acts[1..]);
      assert [] + out == out;
      if acts[0].initiator {
        PacketWritten(i, acts, Feed([], sentR));
        PacketRead(r, acts, [] + out, sentI, r1);
        sentI := [out] + sentI;
      } else {
        PacketWritten(r, acts, Feed([], sentI));
        PacketRead(i, acts, [] + out, sentR, i1);
        sentR := [out] + sentR;
      }
    }
  }

  lemma {:induction false} PacketWritten(h: State, acts: seq<MessagePattern>, f: Feed)
    requires acts != [] && acts[0].initiator == h.initiator && WriteAct(h, acts[0]).Some?
    requires FetchSide(WriteAct(h, acts[0]).value.0, acts[1..], f).Some?
    ensures var (h1, out) := WriteAct(h, acts[0]).value;
            var (h2, sent, f2) := FetchSide(h1, acts[1..], f).value;
            FetchSide(h, acts, f) == Some((h2, [out] + sent, f2))
  {
  }

  lemma {:induction false} PacketRead(h: State, acts: seq<MessagePattern>, out: Wire, packets: seq<Wire>, h1: State)
    requires acts != [] && acts[0].initiator != h.initiator && ReadAct(h, acts[0], out) == Some((h1, []))
    ensures FetchSide(h, acts, Feed([], [out] + packets)) == FetchSide(h1, acts[1..], Feed([], packets))
  {
    ActInPacket(h, acts[0], out, packets);
  }

  // -------------------------------------------------------------------------
  // The handshake as the code runs it

  /** Both machines finish: the initiator in state `i`, having sent `sentI` and read from `fi`, and the
      responder likewise. */
  predicate BothFinish(p: HandshakePattern, pi: Party, pr: Party, fi: Feed, fr: Feed, i: State, r: State,
                       sentI: seq<Wire>, sentR: seq<Wire>) {
    && NewMachine(p, pi, true).Some? && NewMachine(p, pr, false).Some?
    && var runI, runR := FetchSide(NewMachine(p, pi, true).value, p.acts, fi),
                         FetchSide(NewMachine(p, pr, false).value, p.acts, fr);
       && runI.Some? && runI.value.0 == i && runI.value.1 == sentI
       && runR.Some? && runR.value.0 == r && runR.value.1 == sentR
  }

  /** One is what the other starts with. */
  predicate Along(a: Wire, b: Wire) { a <= b || b <= a }

  /** Both finish over connections that deliver the bytes of the other side in order, cut into packets in
      any way; a side may finish before all bytes have come, or read on into what follows. */
  ghost predicate StreamRun(p: HandshakePattern, pi: Party, pr: Party, i: State, r: State) {
    exists fi, fr, sentI, sentR ::
      BothFinish(p, pi, pr, fi, fr, i, r, sentI, sentR) && Along(fi.All(), Flat(sentR)) && Along(fr.All(), Flat(sentI))
  }

  /** Both finish over a mailbox that delivers every act as one control message. */
  ghost predicate MailboxRun(p: HandshakePattern, pi: Party, pr: Party, i: State, r: State) {
    exists sentI, sentR :: BothFinish(p, pi, pr, Feed([], sentR), Feed([], sentI), i, r, sentI, sentR)
  }

  lemma {:induction false} MailboxIsStream(p: HandshakePattern, pi: Party, pr: Party, i: State, r: State)
    requires MailboxRun(p, pi, pr, i, r)
    ensures StreamRun(p, pi, pr, i, r)
  {
    var sentI, sentR :| BothFinish(p, pi, pr, Feed([], sentR), Feed([], sentI), i, r, sentI, sentR);
    assert [] + Flat(sentR) == Flat(sentR) && [] + Flat(sentI) == Flat(sentI);
  }

  /** A side that finishes on `inp` finishes alike on all that the other side sends, and more. */
  lemma {:induction false} Extended(h: State, acts: seq<MessagePattern>, inp: Wire, sent: Wire) returns (more: Wire)
    requires OneSide(h, acts, inp).Some? && Along(inp, sent)
    ensures OneSide(h, acts, sent + more).Some?
    ensures OneSide(h, acts, sent + more).value.0 == OneSide(h, acts, inp).value.0
    ensures OneSide(h, acts, sent + more).value.1 == OneSide(h, acts, inp).value.1
  {
    if inp <= sent {
      more := [];
      OneSideMore(h, acts, inp, sent[|inp|..]);
      assert sent + [] == inp + sent[|inp|..];
    } else {
      more := inp[|sent|..];
      assert sent + more == inp;
    }
  }

  /** For every pattern that has acts: if both machines finish, over any connection, their configurations
      were compatible and they agree on everything. */
  lemma {:induction false} FinishedAgree(p: HandshakePattern, pi: Party, pr: Party, i: State, r: State)
    requires p.acts != [] && StreamRun(p, pi, pr, i, r)
    ensures Handshake(p, pi, pr) == Some((i, r, [], []))
    ensures Compatible(p, pi, pr) && Finished(p, pi, pr, i, r)
  {
    hide FetchSide, Exchange, OneSide, NewMachine, Compatible, Finished, Flat, Linked;
    var fi, fr, sentI, sentR :|
      BothFinish(p, pi, pr, fi, fr, i, r, sentI, sentR) && Along(fi.All(), Flat(sentR)) && Along(fr.All(), Flat(sentI));
    var i0, r0 := MachinesLinked(p, pi, pr);
    FetchSideSound(i0, p.acts, fi);
    FetchSideSound(r0, p.acts, fr);
    var moreR := Extended(i0, p.acts, fi.All(), Flat(sentR));
    var moreI := Extended(r0, p.acts, fr.All(), Flat(sentI));
    SidesSound(i0, r0, p.acts, Flat(sentI), Flat(sentR), moreI, moreR);
    var i', r' := HandshakeSound(p, pi, pr);
  }

  /** For every pattern whose tokens only use keys that are there, and all configurations: through a
      mailbox both machines finish exactly when the configurations are compatible. */
  lemma {:induction false} MailboxExact(p: HandshakePattern, pi: Party, pr: Party)
    requires KeysInOrder(p)
    ensures (exists i, r :: MailboxRun(p, pi, pr, i, r)) <==> Compatible(p, pi, pr)
  {
    if Compatible(p, pi, pr) {
      HandshakeExact(p, pi, pr);
      var i0, r0 := MachinesLinked(p, pi, pr);
      var (i, r, _, _) := Handshake(p, pi, pr).value;
      var sentI, sentR := SidesByPacket(i0, r0, p.acts);
      assert BothFinish(p, pi, pr, Feed([], sentR), Feed([], sentI), i, r, sentI, sentR);
      assert MailboxRun(p, pi, pr, i, r);
    }
    if i, r :| MailboxRun(p, pi, pr, i, r) {
      MailboxIsStream(p, pi, pr, i, r);
      FinishedAgree(p, pi, pr, i, r);
    }
  }

  /** Over a connection that does not keep an act together, compatible machines may fail: if the first
      act of XX comes in two segments and the first ends inside the masked key, the responder fails. */
  lemma {:induction false} SplitActFails(pi: Party, pr: Party, c: nat)
    requires Compatible(XX_PATTERN, pi, pr) && 1 < c <= PUBKEY_SIZE
    ensures NewMachine(XX_PATTERN, pi, true).Some? && NewMachine(XX_PATTERN, pr, false).Some?
    ensures var i, r := NewMachine(XX_PATTERN, pi, true).value, NewMachine(XX_PATTERN, pr, false).value;
            && WriteAct(i, XX_PATTERN.acts[0]).Some?
            && var out := WriteAct(i, XX_PATTERN.acts[0]).value.1;
               c < |out| && FetchAct(r, XX_PATTERN.acts[0], Feed([], [out[..c], out[c..]])) == None
  {
    XXInOrder();
    var i, r := MachinesComplete(XX_PATTERN, pi, pr);
    CutAct(i, r, XX_PATTERN.acts[0], FromPre(XX_PATTERN.pre), c);
  }

  lemma {:induction false} CutAct(w: State, r: State, mp: MessagePattern, k: Known, c: nat)
    requires Agree(w, r) && Shared(w, r, k) && w.initiator == mp.initiator
    requires TokensOk(k, mp.tokens, mp.initiator) && Fits(w, r, mp)
    requires mp.tokens == [ME] && 1 < c <= PUBKEY_SIZE
    ensures WriteAct(w, mp).Some?
    ensures var out := WriteAct(w, mp).value.1;
            c < |out| && FetchAct(r, mp, Feed([], [out[..c], out[c..]])) == None
  {
    var w1, out, r1 := ActComplete(w, r, mp, k);
    FirstActSize(w, mp);
    var f := Feed([], [out[..c], out[c..]]);
    FlatTwo(out[..c], out[c..]);
    assert f.All() == out + [];
    ActReadExactly(w, r, mp, k, f, []);
    ShortSecondRead(f, mp, c, w.version, |w.payloadToSend|);
  }

  lemma {:induction false} FlatTwo(a: Wire, b: Wire)
    ensures Flat([a, b]) == a + b
  {
    assert [a, b][1..] == [b] && [b][1..] == [];
    assert Flat([b]) == b + [] == b;
  }

  lemma {:induction false} FirstActSize(w: State, mp: MessagePattern)
    requires WriteAct(w, mp).Some? && mp.tokens == [ME]
    ensures |WriteAct(w, mp).value.1| > PUBKEY_SIZE
  {
    assert [ME][1..] == [];
  }

  lemma {:induction false} ShortSecondRead(f: Feed, mp: MessagePattern, c: nat, version: uint8, auth: nat)
    requires f.buf == [] && f.packets != [] && |f.packets[0]| == c && 1 < c <= PUBKEY_SIZE && mp.tokens == [ME]
    ensures !FullReads(f, ActWidths(mp, version, auth))
  {
    assert [ME][1..] == [];
    assert ActWidths(mp, version, auth)[0] == 1 && ActWidths(mp, version, auth)[1..][0] == PUBKEY_SIZE;
  }
}
