/** All layers together: encrypted gRPC connections over control messages, over chunked packets, over the
    8-bit window protocol, over wires that lose, delay and repeat (mailbox/, gbn/). */
module FullStack {
  import opened Common
  import opened Terms
  import opened Ciphers
  import opened Messages
  import opened Protocol
  import opened Simulation
  import opened Guarantees
  import opened NoisePatterns
  import opened NoiseReads
  import opened NoiseSides
  import H = NoiseHandshake
  import A = NoiseAgreement
  import Chunking
  import ControlMessages
  import Transport
  import ByteStreams
  import NoiseSessions

  // -------------------------------------------------------------------------
  // Control messages over the transport

  /** The payloads of control messages received one after another. */
  function Payloads(ch: seq<Bytes>): seq<Bytes> {
    if ch == [] then [] else
    match ControlMessages.Decode(ControlMessages.MsgData(ControlMessages.PROTOCOL_VERSION, []), ch[0])
    case None => []
    case Some(m) => [m.payload] + Payloads(ch[1..])
  }

  /** The payloads that have come through to the other side of `v.me`. */
  function Arrived(v: World): seq<Bytes> { Payloads(Chunking.Received(Chunking.NonPing(v.peer.accepted))) }

  /** `v.me` has sent these control messages, or as many of their packets as it has got to. */
  predicate Sends(v: World, writes: seq<Bytes>, max: nat) {
    ControlMessages.Short(writes) &&
    Chunking.NonPing(v.me.added) <= Chunking.Stream(ControlMessages.Encoded(writes), max)
  }

  /** All of them are sent, and all packets are accepted. */
  predicate AllSent(v: World, writes: seq<Bytes>, max: nat) {
    && v.peer.accepted == v.me.added
    && Chunking.NonPing(v.me.added) == Chunking.Stream(ControlMessages.Encoded(writes), max)
  }

  lemma {:induction false} PayloadsOf(writes: seq<Bytes>, n: nat)
    requires ControlMessages.Short(writes) && n <= |writes|
    ensures Payloads(ControlMessages.Encoded(writes)[..n]) == writes[..n]
    decreases n
  {
    hide ControlMessages.Decode, ControlMessages.Encode;
    if n > 0 {
      var ch := ControlMessages.Encoded(writes)[..n];
      ControlMessages.FirstControl(writes);
      PayloadsOf(writes[1..], n - 1);
      assert ch[0] == ControlMessages.Encoded(writes)[0];
      assert ch[1..] == ControlMessages.Encoded(writes[1..])[..n - 1];
      assert writes[..n] == [writes[0]] + writes[1..][..n - 1];
    }
  }

  /** Control messages arrive whole and in order. */
  lemma {:induction false} ArrivedPrefix(w: World, left: bool, writes: seq<Bytes>, max: nat, cfg: Config)
    requires ConfigOk(cfg) && Reachable(w, cfg) && Sends(w.From(left), writes, max)
    ensures Arrived(w.From(left)) <= writes
    ensures AllSent(w.From(left), writes, max) ==> Arrived(w.From(left)) == writes
  {
    var encoded := ControlMessages.Encoded(writes);
    var received := Chunking.Received(Chunking.NonPing(w.From(left).peer.accepted));
    Chunking.EndToEnd(w, left, encoded, max, cfg);
    Chunking.AllSendable(encoded, max);
    assert [] !in encoded;
    assert received == encoded[..|received|];
    PayloadsOf(writes, |received|);
    assert writes[..|writes|] == writes;
  }

  /** What a `Read` of the mailbox connection returns is what the handshake reads. */
  lemma {:induction false} FetchIsRead(b: Bytes, packets: seq<Bytes>, k: nat)
    requires b != []
    ensures var f := FromBuffer(b, k);
            && Fetch(Feed(b, packets), k) == Some((f.out + seq(k - |f.out|, _ => Raw(0)), Feed(f.left, packets)))
            && Fetch(Feed([], [b] + packets), k) == Fetch(Feed(b, packets), k)
  {
    assert ([b] + packets)[1..] == packets;
    if |b| >= k {
      assert |b| == k ==> b[..k] == b && b[k..] == [];
      assert b[..k] + seq(0, _ => Raw(0)) == b[..k];
    }
  }

  // -------------------------------------------------------------------------
  // Handshakes over the transport

  lemma {:induction false} AlongPart(a: Wire, b: Wire, c: Wire)
    requires a <= b + c
    ensures Along(a, b)
  {
    PrefixOfConcat(a, b, c);
  }

  lemma {:induction false} FlatMonotone(a: seq<Wire>, b: seq<Wire>)
    requires a <= b
    ensures Flat(a) <= Flat(b)
  {
    FlatPrefix(b, |a|);
    assert b[..|a|] == a;
  }

  /** What one side has sent: one control message for each of its acts, and what came after. */
  datatype Traffic = Traffic(acts: seq<Wire>, later: seq<Wire>) {
    function All(): seq<Wire> { acts + later }
  }

  /** Two machines whose handshakes have come to their end over the transport: `v.me` is the initiator's
      endpoint, and `restI` and `restR` are what the two machines have left unread. */
  predicate Paired(v: World, p: HandshakePattern, pi: H.Party, pr: H.Party, max: nat, i: H.State, r: H.State,
                   fromI: Traffic, fromR: Traffic, restI: Feed, restR: Feed) {
    && Sends(v, fromI.All(), max) && Sends(v.Swap(), fromR.All(), max)
    && H.NewMachine(p, pi, true).Some? && H.NewMachine(p, pr, false).Some?
    && FetchSide(H.NewMachine(p, pi, true).value, p.acts, Feed([], Arrived(v.Swap()))) == Some((i, fromI.acts, restI))
    && FetchSide(H.NewMachine(p, pr, false).value, p.acts, Feed([], Arrived(v))) == Some((r, fromR.acts, restR))
  }

  /** One of them has read its part of what came; the rest is what came after the handshake. */
  lemma {:induction false} RestOfSide(h: H.State, acts: seq<MessagePattern>, arrived: Wire, sent: Wire, later: Wire)
    requires OneSide(h, acts, arrived).Some? && arrived <= sent + later
    requires OneSide(h, acts, sent + later).Some? && OneSide(h, acts, sent + later).value.2 == later
    ensures OneSide(h, acts, arrived).value.2 <= later
    ensures arrived == sent + later ==> OneSide(h, acts, arrived).value.2 == later
  {
    var missing := (sent + later)[|arrived|..];
    OneSideMore(h, acts, arrived, missing);
    assert arrived + missing == sent + later;
  }

  /** Such machines were compatible and agree, and each has left unread a prefix of what the other has
      sent after the handshake. */
  lemma {:induction false} PairedAgree(w: World, left: bool, p: HandshakePattern, pi: H.Party, pr: H.Party, max: nat,
                                       i: H.State, r: H.State, fromI: Traffic, fromR: Traffic, restI: Feed, restR: Feed,
                                       cfg: Config)
    requires ConfigOk(cfg) && Reachable(w, cfg) && p.acts != []
    requires Paired(w.From(left), p, pi, pr, max, i, r, fromI, fromR, restI, restR)
    ensures StreamRun(p, pi, pr, i, r)
    ensures A.Compatible(p, pi, pr) && A.Finished(p, pi, pr, i, r)
    ensures restR.All() <= Flat(fromI.later) && restI.All() <= Flat(fromR.later)
    ensures AllSent(w.From(left), fromI.All(), max) ==> restR.All() == Flat(fromI.later)
    ensures AllSent(w.From(!left), fromR.All(), max) ==> restI.All() == Flat(fromR.later)
  {
    var v := w.From(left);
    assert w.From(!left) == v.Swap();
    ArrivedPrefix(w, left, fromI.All(), max, cfg);
    ArrivedPrefix(w, !left, fromR.All(), max, cfg);
    PairedRest(p, pi, pr, i, r, Arrived(v.Swap()), Arrived(v), fromI, fromR, restI, restR);
    FinishedAgree(p, pi, pr, i, r);
  }

  lemma {:induction false} PairedRest(p: HandshakePattern, pi: H.Party, pr: H.Party, i: H.State, r: H.State,
                                      toI: seq<Wire>, toR: seq<Wire>, fromI: Traffic, fromR: Traffic,
                                      restI: Feed, restR: Feed)
    requires toR <= fromI.All() && toI <= fromR.All()
    requires H.NewMachine(p, pi, true).Some? && H.NewMachine(p, pr, false).Some?
    requires FetchSide(H.NewMachine(p, pi, true).value, p.acts, Feed([], toI)) == Some((i, fromI.acts, restI))
    requires FetchSide(H.NewMachine(p, pr, false).value, p.acts, Feed([], toR)) == Some((r, fromR.acts, restR))
    ensures StreamRun(p, pi, pr, i, r)
    ensures restR.All() <= Flat(fromI.later) && restI.All() <= Flat(fromR.later)
    ensures toR == fromI.All() ==> restR.All() == Flat(fromI.later)
    ensures toI == fromR.All() ==> restI.All() == Flat(fromR.later)
  {
    var i0, r0 := A.MachinesLinked(p, pi, pr);
    var outI, outR, moreI, moreR := Flat(fromI.acts), Flat(fromR.acts), Flat(fromI.later), Flat(fromR.later);
    FlatMonotone(toI, fromR.All());
    FlatMonotone(toR, fromI.All());
    FlatAppend(fromI.acts, fromI.later);
    FlatAppend(fromR.acts, fromR.later);
    assert Feed([], toI).All() == Flat(toI) && Feed([], toR).All() == Flat(toR);
    FetchSideSound(i0, p.acts, Feed([], toI));
    FetchSideSound(r0, p.acts, Feed([], toR));
    SidesRest(i0, r0, p.acts, Flat(toI), Flat(toR), outI, outR, moreI, moreR);
    AlongPart(Flat(toI), outR, moreR);
    AlongPart(Flat(toR), outI, moreI);
    assert BothFinish(p, pi, pr, Feed([], toI), Feed([], toR), i, r, fromI.acts, fromR.acts);
  }

  lemma {:induction false} SidesRest(i: H.State, r: H.State, acts: seq<MessagePattern>, toI: Wire, toR: Wire,
                                     outI: Wire, outR: Wire, moreI: Wire, moreR: Wire)
    requires A.Linked(i, r) && i.initiator && !r.initiator && toI <= outR + moreR && toR <= outI + moreI
    requires OneSide(i, acts, toI).Some? && OneSide(i, acts, toI).value.1 == outI
    requires OneSide(r, acts, toR).Some? && OneSide(r, acts, toR).value.1 == outR
    ensures OneSide(i, acts, toI).value.2 <= moreR && OneSide(r, acts, toR).value.2 <= moreI
    ensures toI == outR + moreR ==> OneSide(i, acts, toI).value.2 == moreR
    ensures toR == outI + moreI ==> OneSide(r, acts, toR).value.2 == moreI
  {
    var missingI, missingR := (outR + moreR)[|toI|..], (outI + moreI)[|toR|..];
    OneSideMore(i, acts, toI, missingI);
    OneSideMore(r, acts, toR, missingR);
    assert toI + missingI == outR + moreR && toR + missingR == outI + moreI;
    SidesSound(i, r, acts, outI, outR, moreI, moreR);
    RestOfSide(i, acts, toI, outR, moreR);
    RestOfSide(r, acts, toR, outI, moreI);
  }

  // -------------------------------------------------------------------------
  // Streams over the transport

  /** Only writes and flushes, only reads. */
  predicate Writing(ops: seq<ByteStreams.Op>) { forall j :: 0 <= j < |ops| ==> !ops[j].ReadOp? }

  predicate Reading(ops: seq<ByteStreams.Op>) { forall j :: 0 <= j < |ops| ==> ops[j].ReadOp? }

  lemma {:induction false} WritingTakesNothing(l: ByteStreams.Link, ops: seq<ByteStreams.Op>, grpc: bool)
    requires ByteStreams.DoAll(l, ops, grpc).Some? && Writing(ops)
    ensures var l1 := ByteStreams.DoAll(l, ops, grpc).value;
            l1.taken == l.taken && l1.carry == l.carry && l1.read == l.read && l1.recv == l.recv
    decreases |ops|
  {
    if ops != [] {
      WritingTakesNothing(ByteStreams.Do(l, ops[0], grpc), ops[1..], grpc);
    }
  }

  /** A reader that has the bytes `wire` in front of it. */
  function Reader(c: Cipher, wire: Wire): ByteStreams.Link {
    ByteStreams.Fresh(c).(wire := wire)
  }

  /** Reads only depend on the reader's side of a connection. */
  lemma {:induction false} ReadsAlike(a: ByteStreams.Link, b: ByteStreams.Link, ops: seq<ByteStreams.Op>, grpc: bool)
    requires Reading(ops) && a.recv == b.recv && a.wire == b.wire && a.carry == b.carry && a.read == b.read
    ensures ByteStreams.DoAll(a, ops, grpc).Some? <==> ByteStreams.DoAll(b, ops, grpc).Some?
    ensures ByteStreams.DoAll(a, ops, grpc).Some? ==>
              var a1, b1 := ByteStreams.DoAll(a, ops, grpc).value, ByteStreams.DoAll(b, ops, grpc).value;
              a1.read == b1.read && a1.wire == b1.wire && a1.carry == b1.carry && a1.pending == a.pending
    decreases |ops|
  {
    if ops != [] && ByteStreams.CanDo(a, ops[0]) {
      ReadsAlike(ByteStreams.Do(a, ops[0], grpc), ByteStreams.Do(b, ops[0], grpc), ops[1..], grpc);
    }
  }

  /** A reader that gets a prefix of the ciphertext written reads a prefix of the bytes written; and all of
      them when it got all and has read all. */
  lemma {:induction false} ReadsPrefix(c: Cipher, wops: seq<ByteStreams.Op>, wire: Wire,
                                       rops: seq<ByteStreams.Op>, grpc: bool)
    requires ByteStreams.DoAll(ByteStreams.Fresh(c), wops, grpc).Some? && Writing(wops)
    requires wire <= ByteStreams.DoAll(ByteStreams.Fresh(c), wops, grpc).value.wire
    requires ByteStreams.DoAll(Reader(c, wire), rops, grpc).Some? && Reading(rops)
    requires grpc ==> ByteStreams.BigReads(rops)
    ensures var l, end := ByteStreams.DoAll(ByteStreams.Fresh(c), wops, grpc).value,
                          ByteStreams.DoAll(Reader(c, wire), rops, grpc).value;
            && end.read <= ByteStreams.TakenAll(ByteStreams.Fresh(c), wops, grpc)
            && (wire == l.wire && l.pending.All() == [] && end.wire == [] && end.carry == [] ==>
                  end.read == ByteStreams.TakenAll(ByteStreams.Fresh(c), wops, grpc))
  {
    var l := ByteStreams.DoAll(ByteStreams.Fresh(c), wops, grpc).value;
    ByteStreams.DoAllKeeps(ByteStreams.Fresh(c), wops, grpc);
    WritingTakesNothing(ByteStreams.Fresh(c), wops, grpc);
    ByteStreams.TakenFresh(c, wops, grpc);
    var l1 := Held(l, wire, grpc);
    ReadsAlike(l1, Reader(c, wire), rops, grpc);
    ByteStreams.DoAllKeeps(l1, rops, grpc);
    ByteStreams.ReadPrefix(ByteStreams.DoAll(l1, rops, grpc).value, grpc);
    ReadsSendNothing(l1, rops, grpc);
  }

  lemma {:induction false} ReadsSendNothing(l: ByteStreams.Link, ops: seq<ByteStreams.Op>, grpc: bool)
    requires ByteStreams.DoAll(l, ops, grpc).Some? && Reading(ops)
    ensures ByteStreams.DoAll(l, ops, grpc).value.msgs == l.msgs
    decreases |ops|
  {
    if ops != [] {
      ReadsSendNothing(ByteStreams.Do(l, ops[0], grpc), ops[1..], grpc);
    }
  }

  /** What has not come through yet counts as not sent. */
  lemma {:induction false} Held(l: ByteStreams.Link, wire: Wire, grpc: bool) returns (l1: ByteStreams.Link)
    requires ByteStreams.LinkOk(l, grpc) && wire <= l.wire
    ensures l1 == l.(wire := wire, pending := l1.pending) && ByteStreams.LinkOk(l1, grpc)
    ensures wire == l.wire && l.pending.All() == [] ==> l1.pending.All() == []
  {
    var held := l.wire[|wire|..];
    l1 := l.(wire := wire, pending := Transport.Pending(held, l.pending.All()));
    assert wire + (held + l.pending.All()) == l.wire + l.pending.All();
  }

  // -------------------------------------------------------------------------
  // The whole connection

  /** Over wires that lose, delay and repeat, on every schedule: if both machines have finished their
      handshakes on what came through, the bytes read from one connection are a prefix of the bytes that
      the other has taken over, which without write errors are the bytes written; and all of them once
      every packet is accepted, nothing is buffered and everything has been read. `toR` tells the
      direction, `later` is what the sender has written out after its handshake. */
  lemma {:induction false} ConnectionDelivers(w: World, left: bool, p: HandshakePattern, pi: H.Party, pr: H.Party,
                                              max: nat, i: H.State, r: H.State, fromI: Traffic, fromR: Traffic,
                                              restI: Feed, restR: Feed, toR: bool, wops: seq<ByteStreams.Op>,
                                              rops: seq<ByteStreams.Op>, grpc: bool, cfg: Config)
    requires ConfigOk(cfg) && Reachable(w, cfg) && p.acts != []
    requires Paired(w.From(left), p, pi, pr, max, i, r, fromI, fromR, restI, restR)
    requires Writing(wops) && Reading(rops) && (grpc ==> ByteStreams.BigReads(rops))
    requires var start := ByteStreams.Fresh(if toR then H.Split(i).0 else H.Split(r).0);
             && ByteStreams.DoAll(start, wops, grpc).Some?
             && ByteStreams.DoAll(start, wops, grpc).value.wire == Flat(if toR then fromI.later else fromR.later)
    requires var reader := if toR then Reader(H.Split(r).1, restR.All()) else Reader(H.Split(i).1, restI.All());
             ByteStreams.DoAll(reader, rops, grpc).Some?
    ensures var start := ByteStreams.Fresh(if toR then H.Split(i).0 else H.Split(r).0);
            var reader := if toR then Reader(H.Split(r).1, restR.All()) else Reader(H.Split(i).1, restI.All());
            var end := ByteStreams.DoAll(reader, rops, grpc).value;
            && end.read <= ByteStreams.TakenAll(start, wops, grpc)
            && (ByteStreams.AllWritten(start, wops, grpc) ==>
                  ByteStreams.TakenAll(start, wops, grpc) == ByteStreams.WrittenBytes(wops))
            && (AllSent(w.From(left == toR), (if toR then fromI else fromR).All(), max) &&
                ByteStreams.DoAll(start, wops, grpc).value.pending.All() == [] && end.wire == [] && end.carry == [] ==>
                  end.read == ByteStreams.TakenAll(start, wops, grpc))
  {
    PairedAgree(w, left, p, pi, pr, max, i, r, fromI, fromR, restI, restR, cfg);
    NoiseSessions.FinishedCrossed(p, pi, pr, i, r);
    var c := if toR then H.Split(i).0 else H.Split(r).0;
    ReadsPrefix(c, wops, if toR then restR.All() else restI.All(), rops, grpc);
    ByteStreams.TakenFresh(c, wops, grpc);
  }
}
