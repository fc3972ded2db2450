/** The protocol on 8-bit numbers and bytes does, on every schedule, exactly what the protocol with
    unbounded numbers does. */
module Simulation {
  import opened Common
  import opened Messages
  import opened SequenceNumbers
  import opened SendQueue
  import opened Network
  import opened Protocol
  import U = Unbounded

  predicate ConfigOk(cfg: Config) { 1 <= cfg.n < cfg.s }

  // -------------------------------------------------------------------------
  // The relation between the two

  /** Slot `SeqOf(j)` still holds packet `j` for the last `s` packets. */
  predicate SlotsHold(slots: seq<Option<Message>>, log: seq<Body>, s: uint8)
    requires s > 0
  {
    |slots| == s as int &&
    forall j :: 0 <= j < |log| && |log| <= j + s as int ==>
      slots[SeqOf(j, s)] == Some(Data(SeqOf(j, s), log[j]))
  }

  /** The messages for packets `i..j`. */
  function Packets(log: seq<Body>, i: nat, j: nat, s: uint8): seq<Message>
    requires s > 0 && i <= j <= |log|
  {
    seq(j - i, k requires 0 <= k < j - i => Data(SeqOf(i + k, s), log[i + k]))
  }

  predicate PcRel(pc: Pc, u: U.Pc, log: seq<Body>, s: uint8)
    requires s > 0
  {
    match u
    case Idle(ready) => pc == Idle(ready)
    case Fresh => |log| > 0 && pc == Fresh(Data(SeqOf(|log| - 1, s), log[|log| - 1]))
    case Resending(start, cursor, stop, ready) =>
      && start <= cursor <= stop == |log|
      && pc == Resending(SeqOf(cursor, s), SeqOf(stop, s), ready, log[start..stop], Packets(log, start, cursor, s))
  }

  /** The syncer only waits during a resend, and waits for the answers to that resend. */
  predicate SyncRel(sync: Sync, pc: Pc, top: uint8, s: uint8)
    requires s > 0
  {
    sync.resending ==> pc.Resending? && pc.stop == top && sync == SyncStarted(top, s)
  }

  /** A recorded send time belongs to the last packet with that number, which was sent only then. */
  predicate TimesRel(times: map<uint8, int>, sentAt: seq<seq<int>>, unsent: bool, s: uint8)
    requires s > 0
  {
    (unsent ==> |sentAt| > 0 && sentAt[|sentAt| - 1] == []) &&
    (forall j | 0 <= j < |sentAt| && |sentAt| <= j + s as int && SeqOf(j, s) in times && !(unsent && j == |sentAt| - 1)
       :: sentAt[j] == [times[SeqOf(j, s)]])
  }

  predicate EndpointRel(e: Endpoint, u: U.Endpoint, peerLog: seq<Body>, s: uint8)
    requires s > 0
  {
    && e.queue.base == SeqOf(u.base, s)
    && e.queue.top == SeqOf(|u.log|, s)
    && SlotsHold(e.queue.slots, u.log, s)
    && e.added == u.log
    && PcRel(e.pc, u.pc, u.log, s)
    && SyncRel(e.sync, e.pc, e.queue.top, s)
    && |e.sentAt| == |e.added| && TimesRel(e.times, e.sentAt, e.pc.Fresh?, s)
    && e.recvSeq == SeqOf(u.next, s)
    && u.next <= |peerLog| && e.accepted == peerLog[..u.next]
  }

  /** `m` is what `u` looks like on the wire, from an endpoint that has added `log`. */
  predicate Means(m: Message, u: U.Msg, log: seq<Body>, s: uint8)
    requires s > 0
  {
    match u
    case Seg(j) => j < |log| && m == Data(SeqOf(j, s), log[j])
    case Accept(v) => v >= 1 && m == Ack(SeqOf(v - 1, s))
    case Reject(v) => m == Nack(SeqOf(v, s))
    case Other => m.IsControl()
  }

  predicate MsgRel(b: Bytes, u: U.Msg, log: seq<Body>, s: uint8)
    requires s > 0
  {
    Decode(b).Some? && Means(Decode(b).value, u, log, s)
  }

  predicate WireRel(w: seq<Bytes>, u: seq<U.Msg>, log: seq<Body>, s: uint8)
    requires s > 0
  {
    |w| == |u| && forall i :: 0 <= i < |w| ==> MsgRel(w[i], u[i], log, s)
  }

  predicate Rel(w: World, u: U.World, s: uint8)
    requires s > 0
  {
    && EndpointRel(w.me, u.me, u.peer.log, s)
    && EndpointRel(w.peer, u.peer, u.me.log, s)
    && WireRel(w.outbox, u.outbox, u.me.log, s)
    && WireRel(w.inbox, u.inbox, u.peer.log, s)
  }

  lemma {:induction false} RelOk(w: World, u: U.World, s: uint8)
    requires s > 0 && Rel(w, u, s)
    ensures EndpointOk(w.me, s) && EndpointOk(w.peer, s)
  {
  }

  // -------------------------------------------------------------------------
  // One step

  lemma {:induction false} LogGrowthKeepsWire(w: seq<Bytes>, u: seq<U.Msg>, log: seq<Body>, body: Body, s: uint8)
    requires s > 0 && WireRel(w, u, log, s)
    ensures WireRel(w, u, log + [body], s)
  {
    forall i | 0 <= i < |w|
      ensures MsgRel(w[i], u[i], log + [body], s)
    {
      assert MsgRel(w[i], u[i], log, s);
    }
  }

  lemma {:induction false} PushKeepsWire(w: seq<Bytes>, u: seq<U.Msg>, m: Message, x: U.Msg,
                                         log: seq<Body>, s: uint8)
    requires s > 0 && WireRel(w, u, log, s) && Means(m, x, log, s)
    ensures WireRel(w + [Encode(m)], u + [x], log, s)
  {
    DecodeEncode(m);
  }

  lemma {:induction false} WireKeepsRel(w: seq<Bytes>, u: seq<U.Msg>, i: nat, log: seq<Body>, s: uint8)
    requires s > 0 && WireRel(w, u, log, s) && i < |w|
    ensures WireRel(Without(w, i), Without(u, i), log, s)
    ensures WireRel(Twice(w, i), Twice(u, i), log, s)
    ensures WireRel(w[1..], u[1..], log, s)
  {
  }

  lemma {:induction false} AddKeepsSlots(slots: seq<Option<Message>>, log: seq<Body>, body: Body, s: uint8)
    requires s > 0 && SlotsHold(slots, log, s)
    ensures SlotsHold(slots[SeqOf(|log|, s) := Some(Data(SeqOf(|log|, s), body))], log + [body], s)
  {
    forall j | 0 <= j < |log| && |log| + 1 <= j + s as int
      ensures SeqOf(j, s) != SeqOf(|log|, s)
    {
      SeqUnique(j, |log|, s);
    }
  }

  lemma {:induction false} AddKeepsTimes(times: map<uint8, int>, sentAt: seq<seq<int>>, s: uint8)
    requires s > 0 && TimesRel(times, sentAt, false, s)
    ensures TimesRel(times, sentAt + [[]], true, s)
  {
  }

  lemma {:induction false} AddEndpoint(e: Endpoint, u: U.Endpoint, peerLog: seq<Body>, body: Body, cfg: Config)
    requires ConfigOk(cfg) && EndpointRel(e, u, peerLog, cfg.s) && EndpointOk(e, cfg.s) && u.pc.Idle?
    ensures EndpointRel(OnAdd(e, body, cfg.s), u.(log := u.log + [body], pc := U.Fresh), peerLog, cfg.s)
  {
    hide SlotsHold, TimesRel;
    AddKeepsSlots(e.queue.slots, u.log, body, cfg.s);
    AddKeepsTimes(e.times, e.sentAt, cfg.s);
  }

  lemma {:induction false} LogGrowthKeepsPeer(e: Endpoint, u: U.Endpoint, log: seq<Body>, body: Body, s: uint8)
    requires s > 0 && EndpointRel(e, u, log, s)
    ensures EndpointRel(e, u, log + [body], s)
  {
    hide SlotsHold, TimesRel, PcRel, SyncRel, SeqOf;
    assert (log + [body])[..u.next] == log[..u.next];
  }

  lemma {:induction false} AddSimulates(w: World, u: U.World, body: Body, now: int, cfg: Config)
    requires ConfigOk(cfg) && Rel(w, u, cfg.s) && U.Inv(u, cfg.n as int)
    requires U.CanAct(u, Add(body), cfg.n as int) && CanAct(w, Add(body), cfg)
    ensures Rel(Act(w, Add(body), now, cfg), U.Act(u, Add(body), cfg.n as int), cfg.s)
  {
    hide EndpointRel, OnAdd, WireRel, U.Inv;
    AddEndpoint(w.me, u.me, u.peer.log, body, cfg);
    LogGrowthKeepsPeer(w.peer, u.peer, u.me.log, body, cfg.s);
    LogGrowthKeepsWire(w.outbox, u.outbox, u.me.log, body, cfg.s);
  }

  lemma {:induction false} TransmitKeepsTimes(times: map<uint8, int>, sentAt: seq<seq<int>>, now: int, s: uint8)
    requires s > 0 && TimesRel(times, sentAt, true, s)
    ensures TimesRel(times[SeqOf(|sentAt| - 1, s) := now], Stamp(sentAt, |sentAt| - 1, now), false, s)
  {
    var times', sentAt' := times[SeqOf(|sentAt| - 1, s) := now], Stamp(sentAt, |sentAt| - 1, now);
    forall j | 0 <= j < |sentAt| && |sentAt| <= j + s as int && SeqOf(j, s) in times'
      ensures sentAt'[j] == [times'[SeqOf(j, s)]]
    {
      SeqUnique(j, |sentAt| - 1, s);
    }
  }

  lemma {:induction false} TransmitSimulates(w: World, u: U.World, now: int, cfg: Config)
    requires ConfigOk(cfg) && Rel(w, u, cfg.s) && U.Inv(u, cfg.n as int)
    requires U.CanAct(u, Transmit, cfg.n as int) && CanAct(w, Transmit, cfg)
    ensures Rel(Act(w, Transmit, now, cfg), U.Act(u, Transmit, cfg.n as int), cfg.s)
  {
    PushKeepsWire(w.outbox, u.outbox, w.me.pc.packet, U.Seg(|u.me.log| - 1), u.me.log, cfg.s);
    TransmitEndpoint(w.me, u.me, u.peer.log, now, cfg);
  }

  lemma {:induction false} TransmitEndpoint(e: Endpoint, u: U.Endpoint, peerLog: seq<Body>, now: int, cfg: Config)
    requires ConfigOk(cfg) && EndpointRel(e, u, peerLog, cfg.s) && u.pc.Fresh?
    ensures EndpointRel(OnTransmit(e, now), u.(pc := U.Idle(false)), peerLog, cfg.s)
  {
    TransmitKeepsTimes(e.times, e.sentAt, now, cfg.s);
  }

  lemma {:induction false} BeginResendSimulates(w: World, u: U.World, now: int, cfg: Config)
    requires ConfigOk(cfg) && Rel(w, u, cfg.s) && U.Inv(u, cfg.n as int)
    requires U.CanAct(u, BeginResend, cfg.n as int) && CanAct(w, BeginResend, cfg)
    ensures Rel(Act(w, BeginResend, now, cfg), U.Act(u, BeginResend, cfg.n as int), cfg.s)
  {
    BeginResendEndpoint(w.me, u.me, u.peer.log, cfg);
  }

  lemma {:induction false} BeginResendEndpoint(e: Endpoint, u: U.Endpoint, peerLog: seq<Body>, cfg: Config)
    requires ConfigOk(cfg) && EndpointRel(e, u, peerLog, cfg.s) && EndpointOk(e, cfg.s)
    requires u.pc.Idle? && u.base <= |u.log| <= u.base + cfg.n as int
    ensures EndpointRel(OnBeginResend(e, cfg.s), u.(pc := U.Resending(u.base, u.base, |u.log|, u.pc.ready)),
                        peerLog, cfg.s)
  {
    SizeIsDistance(u.base, |u.log|, cfg.s);
    assert u.log[u.base..|u.log|] == u.log[u.base..];
  }

  lemma {:induction false} ResendKeepsTimes(times: map<uint8, int>, sentAt: seq<seq<int>>, i: nat, now: int, s: uint8)
    requires s > 0 && TimesRel(times, sentAt, false, s) && i < |sentAt| <= i + s as int
    ensures TimesRel(times - {SeqOf(i, s)}, Stamp(sentAt, i, now), false, s)
  {
    var times', sentAt' := times - {SeqOf(i, s)}, Stamp(sentAt, i, now);
    forall j | 0 <= j < |sentAt| && |sentAt| <= j + s as int && SeqOf(j, s) in times'
      ensures sentAt'[j] == [times'[SeqOf(j, s)]]
    {
      SeqUnique(j, i, s);
    }
  }

  /** The slot under the cursor still holds the packet of the snapshot: nothing was added since. */
  lemma {:induction false} CursorSlot(e: Endpoint, u: U.Endpoint, peerLog: seq<Body>, cfg: Config)
    requires ConfigOk(cfg) && EndpointRel(e, u, peerLog, cfg.s) && U.PcOk(u, cfg.n as int)
    requires u.pc.Resending? && u.pc.cursor != u.pc.stop
    ensures e.pc.Resending? && e.pc.cursor < cfg.s
    ensures e.queue.slots[e.pc.cursor] == Some(Data(SeqOf(u.pc.cursor, cfg.s), u.log[u.pc.cursor]))
    ensures Size(e.pc.cursor, e.queue.top, cfg.s) as int == |u.log| - u.pc.cursor
  {
    SizeIsDistance(u.pc.cursor, |u.log|, cfg.s);
  }

  lemma {:induction false} ResendOneEndpoint(e: Endpoint, e': Endpoint, u: U.Endpoint, u': U.Endpoint,
                                             peerLog: seq<Body>, now: int, cfg: Config)
    requires ConfigOk(cfg) && EndpointRel(e, u, peerLog, cfg.s) && U.PcOk(u, cfg.n as int)
    requires u.pc.Resending? && u.pc.cursor != u.pc.stop
    requires u' == u.(pc := u.pc.(cursor := u.pc.cursor + 1))
    requires var i := u.pc.cursor;
             var packet := Data(SeqOf(i, cfg.s), u.log[i]);
             e' == e.(pc := e.pc.(cursor := Next(e.pc.cursor, cfg.s), out := e.pc.out + [packet]),
                      times := e.times - {packet.num}, sentAt := Stamp(e.sentAt, i, now))
    ensures EndpointRel(e', u', peerLog, cfg.s)
  {
    var i := u.pc.cursor;
    ResendKeepsTimes(e.times, e.sentAt, i, now, cfg.s);
    assert Packets(u.log, u.pc.start, i + 1, cfg.s) ==
           Packets(u.log, u.pc.start, i, cfg.s) + [Data(SeqOf(i, cfg.s), u.log[i])];
  }

  lemma {:induction false} ResendOneSimulates(w: World, u: U.World, now: int, cfg: Config)
    requires ConfigOk(cfg) && Rel(w, u, cfg.s) && U.Inv(u, cfg.n as int)
    requires U.CanAct(u, ResendOne, cfg.n as int) && CanAct(w, ResendOne, cfg)
    ensures Rel(Act(w, ResendOne, now, cfg), U.Act(u, ResendOne, cfg.n as int), cfg.s)
  {
    hide SlotsHold, PcRel, TimesRel, SyncRel, SeqOf, U.ForwardOk, U.BackwardOk;
    var i := u.me.pc.cursor;
    CursorSlot(w.me, u.me, u.peer.log, cfg);
    ResendOneEndpoint(w.me, Act(w, ResendOne, now, cfg).me, u.me, U.Act(u, ResendOne, cfg.n as int).me,
                      u.peer.log, now, cfg);
    PushKeepsWire(w.outbox, u.outbox, Data(SeqOf(i, cfg.s), u.me.log[i]), U.Seg(i), u.me.log, cfg.s);
  }

  lemma {:induction false} ControlSimulates(w: World, u: U.World, m: Message, now: int, cfg: Config)
    requires ConfigOk(cfg) && Rel(w, u, cfg.s) && CanAct(w, Control(m), cfg)
    ensures Rel(Act(w, Control(m), now, cfg), U.Act(u, Control(m), cfg.n as int), cfg.s)
  {
    PushKeepsWire(w.outbox, u.outbox, m, U.Other, u.me.log, cfg.s);
  }

  /** A data packet is taken for the expected one exactly when it is the expected one. */
  lemma {:induction false} SegDecision(u: U.World, n: nat, s: uint8)
    requires n < s as int && U.Inv(u, n) && |u.inbox| > 0 && u.inbox[0].Seg?
    ensures SeqOf(u.inbox[0].j, s) == SeqOf(u.me.next, s) <==> u.inbox[0].j == u.me.next
  {
    SeqUnique(u.inbox[0].j, u.me.next, s);
  }

  lemma {:induction false} AcceptEndpoint(e: Endpoint, u: U.Endpoint, peerLog: seq<Body>, s: uint8)
    requires s > 0 && EndpointRel(e, u, peerLog, s) && u.next < |peerLog|
    ensures EndpointRel(e.(recvSeq := Next(e.recvSeq, s), accepted := e.accepted + [peerLog[u.next]]),
                        u.(next := u.next + 1), peerLog, s)
  {
    assert peerLog[..u.next + 1] == peerLog[..u.next] + [peerLog[u.next]];
  }

  lemma {:induction false} AcceptSimulates(w: World, u: U.World, mute: bool, now: int, cfg: Config)
    requires ConfigOk(cfg) && Rel(w, u, cfg.s) && CanAct(w, Deliver(mute), cfg) && u.me.next < |u.peer.log|
    requires u.inbox[0] == U.Seg(u.me.next) && MsgRel(w.inbox[0], u.inbox[0], u.peer.log, cfg.s)
    ensures Rel(Act(w, Deliver(mute), now, cfg), U.Act(u, Deliver(mute), cfg.n as int), cfg.s)
  {
    hide SlotsHold, PcRel, SyncRel, TimesRel, SeqOf;
    var j := u.me.next;
    WireKeepsRel(w.inbox, u.inbox, 0, u.peer.log, cfg.s);
    AcceptEndpoint(w.me, u.me, u.peer.log, cfg.s);
    PushKeepsWire(w.outbox, u.outbox, Ack(SeqOf(j, cfg.s)), U.Accept(j + 1), u.me.log, cfg.s);
  }

  lemma {:induction false} DeliverSegSimulates(w: World, u: U.World, mute: bool, now: int, cfg: Config)
    requires ConfigOk(cfg) && Rel(w, u, cfg.s) && U.Inv(u, cfg.n as int)
    requires U.CanAct(u, Deliver(mute), cfg.n as int) && CanAct(w, Deliver(mute), cfg)
    requires u.inbox[0].Seg?
    ensures Rel(Act(w, Deliver(mute), now, cfg), U.Act(u, Deliver(mute), cfg.n as int), cfg.s)
  {
    hide SlotsHold, PcRel, SyncRel, TimesRel, SeqOf, U.BackwardOk, U.PcOk;
    var s := cfg.s;
    assert MsgRel(w.inbox[0], u.inbox[0], u.peer.log, s);
    WireKeepsRel(w.inbox, u.inbox, 0, u.peer.log, s);
    SegDecision(u, cfg.n as int, s);
    if u.inbox[0].j == u.me.next {
      AcceptSimulates(w, u, mute, now, cfg);
    } else if mute {
      assert w.outbox + [] == w.outbox;
    } else {
      PushKeepsWire(w.outbox, u.outbox, Nack(SeqOf(u.me.next, s)), U.Reject(u.me.next), u.me.log, s);
    }
  }

  lemma {:induction false} AckKeepsTimes(times: map<uint8, int>, sentAt: seq<seq<int>>, unsent: bool,
                                         num: uint8, s: uint8)
    requires s > 0 && TimesRel(times, sentAt, unsent, s)
    ensures TimesRel(times - {num}, sentAt, unsent, s)
  {
  }

  lemma {:induction false} ReplyEndpoint(e: Endpoint, e': Endpoint, m: Message, u: U.Endpoint, x: U.Msg,
                                         peerLog: seq<Body>, cfg: Config)
    requires ConfigOk(cfg) && EndpointRel(e, u, peerLog, cfg.s) && EndpointOk(e, cfg.s)
    requires x.IsReply() && Means(m, x, u.log, cfg.s) && e' == Handle(e, m, cfg)
    requires u.base <= x.v <= |u.log| <= u.base + cfg.n as int
    ensures EndpointRel(e', u.(base := x.v), peerLog, cfg.s)
  {
    hide EndpointRel, Handle, SeqOf;
    if x.Accept? {
      assert m == Ack(SeqOf(x.v - 1, cfg.s));
      AckEndpoint(e, u, x.v, peerLog, cfg);
    } else {
      assert m == Nack(SeqOf(x.v, cfg.s));
      NackEndpoint(e, u, x.v, peerLog, cfg);
    }
  }

  lemma {:induction false} NackEndpoint(e: Endpoint, u: U.Endpoint, v: nat, peerLog: seq<Body>, cfg: Config)
    requires ConfigOk(cfg) && EndpointRel(e, u, peerLog, cfg.s) && EndpointOk(e, cfg.s)
    requires u.base <= v <= |u.log| <= u.base + cfg.n as int
    ensures EndpointRel(Handle(e, Nack(SeqOf(v, cfg.s)), cfg), u.(base := v), peerLog, cfg.s)
  {
    hide SlotsHold, PcRel, TimesRel, SeqOf, NackBase;
    NackDecodes(u.base, v, |u.log|, cfg.s);
  }

  lemma {:induction false} AckEndpoint(e: Endpoint, u: U.Endpoint, v: nat, peerLog: seq<Body>, cfg: Config)
    requires ConfigOk(cfg) && EndpointRel(e, u, peerLog, cfg.s) && EndpointOk(e, cfg.s)
    requires 1 <= v && u.base <= v <= |u.log| <= u.base + cfg.n as int
    ensures EndpointRel(Handle(e, Ack(SeqOf(v - 1, cfg.s)), cfg), u.(base := v), peerLog, cfg.s)
  {
    hide SlotsHold, PcRel, SyncRel, TimesRel, SeqOf, AckBase;
    AckDecodes(u.base, v, |u.log|, cfg.s);
    AckKeepsTimes(e.times, e.sentAt, e.pc.Fresh?, SeqOf(v - 1, cfg.s), cfg.s);
  }

  lemma {:induction false} DeliverReplySimulates(w: World, u: U.World, mute: bool, now: int, cfg: Config)
    requires ConfigOk(cfg) && Rel(w, u, cfg.s) && U.Inv(u, cfg.n as int)
    requires U.CanAct(u, Deliver(mute), cfg.n as int) && CanAct(w, Deliver(mute), cfg)
    requires u.inbox[0].IsReply()
    ensures Rel(Act(w, Deliver(mute), now, cfg), U.Act(u, Deliver(mute), cfg.n as int), cfg.s)
  {
    hide EndpointRel, Handle, SeqOf, U.ForwardOk, U.PcOk;
    var s := cfg.s;
    var w', u' := Act(w, Deliver(mute), now, cfg), U.Act(u, Deliver(mute), cfg.n as int);
    assert MsgRel(w.inbox[0], u.inbox[0], u.peer.log, s);
    var m := Decode(w.inbox[0]).value;
    assert Means(m, u.inbox[0], u.me.log, s);
    ReplyEndpoint(w.me, w'.me, m, u.me, u.inbox[0], u.peer.log, cfg);
    assert u'.me == u.me.(base := u.inbox[0].v);
    WireKeepsRel(w.inbox, u.inbox, 0, u.peer.log, s);
    assert w'.outbox == w.outbox;
  }

  /** The remaining steps touch one field, or only the wire. */
  lemma {:induction false} QuietSimulates(w: World, u: U.World, a: Action, now: int, cfg: Config)
    requires ConfigOk(cfg) && Rel(w, u, cfg.s) && U.Inv(u, cfg.n as int)
    requires U.CanAct(u, a, cfg.n as int) && CanAct(w, a, cfg)
    requires a.Check? || a.EndResend? || a.SyncTimer? || a.Drop? || a.Duplicate?
    ensures Rel(Act(w, a, now, cfg), U.Act(u, a, cfg.n as int), cfg.s)
  {
    if a.Drop? || a.Duplicate? {
      WireKeepsRel(w.inbox, u.inbox, a.i, u.peer.log, cfg.s);
    }
  }

  lemma {:induction false} ActSimulates(w: World, u: U.World, a: Action, now: int, cfg: Config)
    requires ConfigOk(cfg) && Rel(w, u, cfg.s) && U.Inv(u, cfg.n as int)
    ensures CanAct(w, a, cfg) <==> U.CanAct(u, a, cfg.n as int)
    ensures CanAct(w, a, cfg) ==> Rel(Act(w, a, now, cfg), U.Act(u, a, cfg.n as int), cfg.s)
  {
    hide Rel, Act, U.Act, U.Inv, CanAct, U.CanAct;
    EnabledAlike(w, u, a, cfg);
    if CanAct(w, a, cfg) {
      match a
      case Add(body) => AddSimulates(w, u, body, now, cfg);
      case Transmit => TransmitSimulates(w, u, now, cfg);
      case BeginResend => BeginResendSimulates(w, u, now, cfg);
      case ResendOne => ResendOneSimulates(w, u, now, cfg);
      case Control(m) => ControlSimulates(w, u, m, now, cfg);
      case Deliver(mute) => DeliverSimulates(w, u, mute, now, cfg);
      case _ => QuietSimulates(w, u, a, now, cfg);
    }
  }

  lemma {:induction false} DeliverSimulates(w: World, u: U.World, mute: bool, now: int, cfg: Config)
    requires ConfigOk(cfg) && Rel(w, u, cfg.s) && U.Inv(u, cfg.n as int)
    requires U.CanAct(u, Deliver(mute), cfg.n as int) && CanAct(w, Deliver(mute), cfg)
    ensures Rel(Act(w, Deliver(mute), now, cfg), U.Act(u, Deliver(mute), cfg.n as int), cfg.s)
  {
    if u.inbox[0].Seg? {
      DeliverSegSimulates(w, u, mute, now, cfg);
    } else {
      DeliverReplySimulates(w, u, mute, now, cfg);
    }
  }

  lemma {:induction false} EnabledAlike(w: World, u: U.World, a: Action, cfg: Config)
    requires ConfigOk(cfg) && Rel(w, u, cfg.s) && U.Inv(u, cfg.n as int)
    ensures CanAct(w, a, cfg) <==> U.CanAct(u, a, cfg.n as int)
  {
    hide SyncRel, TimesRel, SeqOf, U.ForwardOk, U.BackwardOk;
    SizeIsDistance(u.me.base, |u.me.log|, cfg.s);
    if a.Deliver? {
      if |u.inbox| > 0 {
        assert MsgRel(w.inbox[0], u.inbox[0], u.peer.log, cfg.s);
      }
    } else if a.ResendOne? || a.EndResend? {
      CursorAlike(w.me, u.me, u.peer.log, cfg);
    }
  }

  lemma {:induction false} CursorAlike(e: Endpoint, u: U.Endpoint, peerLog: seq<Body>, cfg: Config)
    requires ConfigOk(cfg) && EndpointRel(e, u, peerLog, cfg.s) && U.PcOk(u, cfg.n as int)
    ensures e.pc.Resending? <==> u.pc.Resending?
    ensures e.pc.Resending? ==> (e.pc.cursor == e.pc.stop <==> u.pc.cursor == u.pc.stop)
    ensures e.pc.Resending? && e.pc.cursor != e.pc.stop ==>
              e.pc.cursor < cfg.s && e.queue.slots[e.pc.cursor].Some? && e.queue.slots[e.pc.cursor].value.Data?
  {
    if u.pc.Resending? {
      SeqUnique(u.pc.cursor, u.pc.stop, cfg.s);
      if u.pc.cursor != u.pc.stop {
        CursorSlot(e, u, peerLog, cfg);
      }
    }
  }

  lemma {:induction false} StepSimulates(w: World, u: U.World, st: Step, cfg: Config)
    requires ConfigOk(cfg) && Rel(w, u, cfg.s) && U.Inv(u, cfg.n as int)
    ensures CanStep(w, st, cfg) <==> U.CanStep(u, st, cfg.n as int)
    ensures CanStep(w, st, cfg) ==> Rel(Apply(w, st, cfg), U.Apply(u, st, cfg.n as int), cfg.s)
  {
    if st.left {
      ActSimulates(w, u, st.action, st.now, cfg);
    } else {
      ActSimulates(w.Swap(), u.Swap(), st.action, st.now, cfg);
    }
  }

  // -------------------------------------------------------------------------
  // Whole runs

  lemma {:induction false} InitialRel(cfg: Config)
    requires ConfigOk(cfg)
    ensures Rel(Initial(cfg.s), U.INITIAL, cfg.s) && U.Inv(U.INITIAL, cfg.n as int)
  {
  }

  lemma {:induction false} RunSimulatesFrom(w: World, u: U.World, steps: seq<Step>, cfg: Config)
    requires ConfigOk(cfg) && Rel(w, u, cfg.s) && U.Inv(u, cfg.n as int)
    ensures Run(w, steps, cfg).Some? <==> U.Run(u, steps, cfg.n as int).Some?
    ensures Run(w, steps, cfg).Some? ==>
              && Rel(Run(w, steps, cfg).value, U.Run(u, steps, cfg.n as int).value, cfg.s)
              && U.Inv(U.Run(u, steps, cfg.n as int).value, cfg.n as int)
    decreases |steps|
  {
    if steps != [] {
      StepSimulates(w, u, steps[0], cfg);
      if CanStep(w, steps[0], cfg) {
        U.StepKeeps(u, steps[0], cfg.n as int);
        RunSimulatesFrom(Apply(w, steps[0], cfg), U.Apply(u, steps[0], cfg.n as int), steps[1..], cfg);
      }
    }
  }

  /** The same schedules are possible in both protocols, and they lead to related states. */
  lemma {:induction false} RunSimulates(steps: seq<Step>, cfg: Config)
    requires ConfigOk(cfg)
    ensures Run(Initial(cfg.s), steps, cfg).Some? <==> U.Run(U.INITIAL, steps, cfg.n as int).Some?
    ensures Run(Initial(cfg.s), steps, cfg).Some? ==>
              && Rel(Run(Initial(cfg.s), steps, cfg).value, U.Run(U.INITIAL, steps, cfg.n as int).value, cfg.s)
              && U.Inv(U.Run(U.INITIAL, steps, cfg.n as int).value, cfg.n as int)
  {
    InitialRel(cfg);
    RunSimulatesFrom(Initial(cfg.s), U.INITIAL, steps, cfg);
  }
}
