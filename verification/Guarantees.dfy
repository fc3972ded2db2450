/** What holds after every schedule of the real protocol. */
module Guarantees {
  import opened Common
  import opened Messages
  import opened SequenceNumbers
  import opened SendQueue
  import opened Network
  import opened Protocol
  import opened Simulation
  import U = Unbounded

  /** `w` is the state after some schedule. */
  ghost predicate Reachable(w: World, cfg: Config) {
    exists steps :: Run(Initial(cfg.s), steps, cfg) == Some(w)
  }

  /** The same schedule with the endpoints exchanged. */
  function Mirrored(steps: seq<Step>): seq<Step> {
    if steps == [] then [] else [steps[0].(left := !steps[0].left)] + Mirrored(steps[1..])
  }

  lemma {:induction false} RunMirrored(w: World, steps: seq<Step>, cfg: Config)
    requires Run(w, steps, cfg).Some?
    ensures Run(w.Swap(), Mirrored(steps), cfg) == Some(Run(w, steps, cfg).value.Swap())
    decreases |steps|
  {
    if steps != [] {
      RunMirrored(Apply(w, steps[0], cfg), steps[1..], cfg);
      assert Mirrored(steps)[1..] == Mirrored(steps[1..]);
    }
  }

  /** The two endpoints are interchangeable: what holds of one in every reachable state holds of the
      other. */
  lemma {:induction false} ReachableFrom(w: World, left: bool, cfg: Config)
    requires Reachable(w, cfg)
    ensures Reachable(w.From(left), cfg)
  {
    if !left {
      var steps :| Run(Initial(cfg.s), steps, cfg) == Some(w);
      RunMirrored(Initial(cfg.s), steps, cfg);
    }
  }

  /** The unbounded state that a reachable state stands for. */
  lemma {:induction false} Unbound(w: World, cfg: Config) returns (u: U.World)
    requires ConfigOk(cfg) && Reachable(w, cfg)
    ensures Rel(w, u, cfg.s) && U.Inv(u, cfg.n as int)
  {
    var steps :| Run(Initial(cfg.s), steps, cfg) == Some(w);
    RunSimulates(steps, cfg);
    u := U.Run(U.INITIAL, steps, cfg.n as int).value;
  }

  /** One endpoint of that state, on its own. */
  lemma {:induction false} UnboundMe(w: World, left: bool, cfg: Config) returns (u: U.Endpoint, peerLog: seq<Body>)
    requires ConfigOk(cfg) && Reachable(w, cfg)
    ensures EndpointRel(w.From(left).me, u, peerLog, cfg.s) && U.PcOk(u, cfg.n as int)
    ensures u.base <= |u.log| <= u.base + cfg.n as int
  {
    ReachableFrom(w, left, cfg);
    var v := Unbound(w.From(left), cfg);
    u, peerLog := v.me, v.peer.log;
  }

  lemma {:induction false} RunAppend(w: World, steps: seq<Step>, st: Step, cfg: Config)
    requires Run(w, steps, cfg).Some? && CanStep(Run(w, steps, cfg).value, st, cfg)
    ensures Run(w, steps + [st], cfg) == Some(Apply(Run(w, steps, cfg).value, st, cfg))
    decreases |steps|
  {
    if steps == [] {
      assert Run(Apply(w, st, cfg), [], cfg) == Some(Apply(w, st, cfg));
      assert (steps + [st])[1..] == [];
    } else {
      RunAppend(Apply(w, steps[0], cfg), steps[1..], st, cfg);
      assert (steps + [st])[1..] == steps[1..] + [st];
    }
  }

  lemma {:induction false} StepReaches(w: World, st: Step, cfg: Config)
    requires Reachable(w, cfg) && CanStep(w, st, cfg)
    ensures Reachable(Apply(w, st, cfg), cfg)
  {
    var steps :| Run(Initial(cfg.s), steps, cfg) == Some(w);
    RunAppend(Initial(cfg.s), steps, st, cfg);
  }

  /** Reliable, in-order, exactly-once delivery: whatever is lost, delayed, repeated or resent, the
      packets accepted by each endpoint are a prefix of the packets added by the other. */
  lemma {:induction false} PrefixDelivery(w: World, cfg: Config)
    requires ConfigOk(cfg) && Reachable(w, cfg)
    ensures w.peer.accepted <= w.me.added
    ensures w.me.accepted <= w.peer.added
  {
    var u := Unbound(w, cfg);
  }

  /** The window never exceeds `n`, and no reply, however old, moves its base past a packet that was
      not received: a packet leaves the queue only after the peer accepted it. */
  lemma {:induction false} WindowBounds(w: World, left: bool, cfg: Config)
    requires ConfigOk(cfg) && Reachable(w, cfg)
    ensures EndpointOk(w.From(left).me, cfg.s)
    ensures var v := w.From(left);
            var size := Size(v.me.queue.base, v.me.queue.top, cfg.s) as int;
            size <= cfg.n as int && 0 <= |v.me.added| - size <= |v.peer.accepted| <= |v.me.added|
  {
    ReachableFrom(w, left, cfg);
    var u := Unbound(w.From(left), cfg);
    SizeIsDistance(u.me.base, |u.me.log|, cfg.s);
  }

  /** The queue still holds every unacknowledged packet, in its place and under its own number. */
  lemma {:induction false} QueueHoldsUnacked(w: World, left: bool, i: nat, cfg: Config)
    requires ConfigOk(cfg) && Reachable(w, cfg)
    requires var e := w.From(left).me; EndpointOk(e, cfg.s) && i < Size(e.queue.base, e.queue.top, cfg.s) as int
    ensures var e := w.From(left).me;
            var slot := Slot(e.queue.base, i, cfg.s);
            i < |Unacked(e, cfg.s)| && e.queue.slots[slot] == Some(Data(slot, Unacked(e, cfg.s)[i]))
  {
    var u, _ := UnboundMe(w, left, cfg);
    SizeIsDistance(u.base, |u.log|, cfg.s);
    SlotOfUnacked(w.From(left).me.queue.slots, u.log, u.base, i, cfg.s);
  }

  /** So a resend always finds the packets it needs. */
  lemma {:induction false} WindowAlwaysHolds(w: World, left: bool, cfg: Config)
    requires ConfigOk(cfg) && Reachable(w, cfg)
    ensures EndpointOk(w.From(left).me, cfg.s) && WindowHolds(w.From(left).me.queue, cfg.s)
  {
    WindowBounds(w, left, cfg);
    var q := w.From(left).me.queue;
    forall i | 0 <= i < Size(q.base, q.top, cfg.s) as int
      ensures q.slots[Slot(q.base, i, cfg.s)].Some? && q.slots[Slot(q.base, i, cfg.s)].value.Data?
    {
      QueueHoldsUnacked(w, left, i, cfg);
    }
  }

  /** And what it sends with nothing else going on are exactly the unacknowledged packets, in order and under
      the numbers of their indices. */
  lemma {:induction false} OutstandingExact(w: World, left: bool, cfg: Config)
    requires ConfigOk(cfg) && Reachable(w, cfg)
    ensures EndpointOk(w.From(left).me, cfg.s)
    ensures var e := w.From(left).me;
            var i := |e.added| - Size(e.queue.base, e.queue.top, cfg.s) as int;
            i >= 0 && Outstanding(e.queue, cfg.s) == Packets(e.added, i, |e.added|, cfg.s)
  {
    hide Reachable, SlotsHold, PcRel, SyncRel, TimesRel, SeqOf, OutstandingFrom, Packets;
    WindowBounds(w, left, cfg);
    var e := w.From(left).me;
    var u, _ := UnboundMe(w, left, cfg);
    SizeIsDistance(u.base, |u.log|, cfg.s);
    OutstandingOf(e.queue, u.log, u.base, 0, cfg.s);
  }

  lemma {:induction false} OutstandingOf(q: Window, log: seq<Body>, base: nat, i: nat, s: uint8)
    requires WindowOk(q, s) && SlotsHold(q.slots, log, s) && base + i <= |log| < base + s as int
    requires q.base == SeqOf(base, s) && Size(q.base, q.top, s) as int == |log| - base
    ensures OutstandingFrom(q, i, s) == Packets(log, base + i, |log|, s)
    decreases |log| - i
  {
    hide SlotsHold, SeqOf;
    if base + i < |log| {
      SlotOfUnacked(q.slots, log, base, i, s);
      SlotNumber(base, i, s);
      OutstandingOf(q, log, base, i + 1, s);
      assert Packets(log, base + i, |log|, s) ==
             [Data(SeqOf(base + i, s), log[base + i])] + Packets(log, base + (i + 1), |log|, s);
    }
  }

  lemma {:induction false} SlotNumber(base: nat, i: nat, s: uint8)
    requires i < s as int
    ensures Slot(SeqOf(base, s), i, s) == SeqOf(base + i, s)
  {
    SeqAdd(base, i, s);
  }

  lemma {:induction false} SlotOfUnacked(slots: seq<Option<Message>>, log: seq<Body>, base: nat, i: nat, s: uint8)
    requires s > 0 && SlotsHold(slots, log, s) && base + i < |log| < base + s as int
    ensures var slot := Slot(SeqOf(base, s), i, s); slots[slot] == Some(Data(slot, log[base..][i]))
  {
    SeqAdd(base, i, s);
    assert slots[SeqOf(base + i, s)] == Some(Data(SeqOf(base + i, s), log[base + i]));
  }

  /** Nothing in flight is ever unreadable, so no connection ends on a parse error. */
  lemma {:induction false} WireAlwaysReadable(w: World, left: bool, i: nat, cfg: Config)
    requires ConfigOk(cfg) && Reachable(w, cfg) && i < |w.From(left).inbox|
    ensures var b := w.From(left).inbox[i];
            && Decode(b).Some?
            && var m := Decode(b).value; (m.Data? || m.Ack? || m.Nack?) ==> m.num < cfg.s
  {
    ReachableFrom(w, left, cfg);
    var v := w.From(left);
    var u := Unbound(v, cfg);
    assert MsgRel(v.inbox[i], u.inbox[i], u.peer.log, cfg.s);
  }

  /** A resend that has run to its end has sent exactly the packets that were unacknowledged when it
      began, in order, whatever replies moved the base in the meantime. */
  lemma {:induction false} ResendExact(w: World, left: bool, cfg: Config)
    requires ConfigOk(cfg) && Reachable(w, cfg)
    requires var e := w.From(left).me; e.pc.Resending? && e.pc.cursor == e.pc.stop
    ensures var e := w.From(left).me;
            var i := |e.added| - |e.pc.window|;
            && i >= 0 && e.pc.window == e.added[i..]
            && e.pc.out == Packets(e.added, i, |e.added|, cfg.s)
  {
    hide SlotsHold, TimesRel, SyncRel, SeqOf;
    var u, _ := UnboundMe(w, left, cfg);
    SeqUnique(u.pc.cursor, u.pc.stop, cfg.s);
    assert u.log[u.pc.start..|u.log|] == u.log[u.pc.start..];
  }

  /** A resend in progress never meets an empty slot. */
  lemma {:induction false} ResendNeverStuck(w: World, left: bool, cfg: Config)
    requires ConfigOk(cfg) && Reachable(w, cfg) && w.From(left).me.pc.Resending?
    ensures var pc := w.From(left).me.pc;
            CanAct(w.From(left), if pc.cursor == pc.stop then EndResend else ResendOne, cfg)
  {
    ReachableFrom(w, left, cfg);
    var v := w.From(left);
    var u := Unbound(v, cfg);
    EnabledAlike(v, u, if v.me.pc.cursor == v.me.pc.stop then EndResend else ResendOne, cfg);
    SeqUnique(u.me.pc.cursor, u.me.pc.stop, cfg.s);
  }

  /** While the syncer waits, it waits for the NACK of the queue's top and, unless its 8-bit sum
      wraps, for the ACK of the last packet; on a non-empty queue either one empties the window. */
  lemma {:induction false} SyncerAwaitsTop(w: World, left: bool, cfg: Config)
    requires ConfigOk(cfg) && Reachable(w, cfg) && w.From(left).me.sync.resending
    ensures EndpointOk(w.From(left).me, cfg.s)
    ensures var e := w.From(left).me;
            && e.sync.expectedNack == e.queue.top
            && (e.sync.expectedAck == Pred(e.queue.top, cfg.s) <==> cfg.s as int + e.queue.top as int <= 256)
            && (e.queue.base != e.queue.top ==>
                  && Nacked(e.queue, e.sync.expectedNack).base == e.queue.top
                  && (cfg.s as int + e.queue.top as int <= 256 ==>
                        Acked(e.queue, e.sync.expectedAck, cfg.s).base == e.queue.top))
  {
    var u, _ := UnboundMe(w, left, cfg);
    ExpectedAckExact(w.From(left).me.queue.top, cfg.s);
    SeqUnique(u.base, |u.log|, cfg.s);
    if u.base < |u.log| {
      SyncEmptiesQueue(u.base, |u.log|, cfg.s);
    }
  }

  /** A round-trip sample is taken only when the ACK at the head of the inbox acknowledges a packet
      that the peer has accepted and that was transmitted exactly once, and it measures from that
      one transmission. */
  lemma {:induction false} RttSampleExact(w: World, left: bool, now: int, cfg: Config) returns (j: nat)
    requires ConfigOk(cfg) && Reachable(w, cfg) && |w.From(left).inbox| > 0
    requires var v := w.From(left); Decode(v.inbox[0]).Some? && RttSample(v.me, Decode(v.inbox[0]).value, now).Some?
    ensures var v := w.From(left);
            && j < |v.peer.accepted| <= |v.me.added| == |v.me.sentAt| && |v.me.added| <= j + cfg.s as int
            && Decode(v.inbox[0]).value == Ack(SeqOf(j, cfg.s))
            && v.me.added[j] == v.peer.accepted[j]
            && |v.me.sentAt[j]| == 1
            && RttSample(v.me, Decode(v.inbox[0]).value, now) == Some(now - v.me.sentAt[j][0])
    ensures forall k: nat | |w.From(left).me.added| <= k + cfg.s as int && k < |w.From(left).me.added| && k != j ::
              SeqOf(k, cfg.s) != SeqOf(j, cfg.s)
  {
    hide SlotsHold, SyncRel, SeqOf, U.ForwardOk, U.PcOk;
    ReachableFrom(w, left, cfg);
    var v := w.From(left);
    var u := Unbound(v, cfg);
    assert MsgRel(v.inbox[0], u.inbox[0], u.peer.log, cfg.s);
    j := u.inbox[0].v - 1;
    assert v.me.sentAt[j] == [v.me.times[SeqOf(j, cfg.s)]];
    OnlyRecent(j, |v.me.added|, cfg.s);
  }

  lemma {:induction false} OnlyRecent(j: nat, n: nat, s: uint8)
    requires s > 0 && j < n <= j + s as int
    ensures forall k: nat | n <= k + s as int && k < n && k != j :: SeqOf(k, s) != SeqOf(j, s)
  {
    forall k: nat | n <= k + s as int && k < n && k != j
      ensures SeqOf(k, s) != SeqOf(j, s)
    {
      SeqUnique(k, j, s);
    }
  }
}
