/** The connection object: one iteration of each of its loops, proved against the steps of
    `Protocol` (gbn/gbn_conn.go, gbn/timeout_manager.go). */
module Connection {
  import opened Common
  import opened Messages
  import opened SequenceNumbers
  import opened SendQueue
  import opened Network
  import opened Protocol

  /** Send times of packets whose acknowledgement will give a round-trip sample. */
  class TimeoutManager {
    const useStaticTimeout: bool
    var sentTimes: map<uint8, int>
    var latestSentSYNTime: Option<int>

    constructor (useStaticTimeout: bool)
      ensures this.useStaticTimeout == useStaticTimeout && sentTimes == map[] && latestSentSYNTime == None
    {
      this.useStaticTimeout := useStaticTimeout;
      sentTimes := map[];
      latestSentSYNTime := None;
    }

    /** A resent message can no longer be timed. */
    method Sent(m: Message, resent: bool, now: int)
      modifies this
      ensures sentTimes == (if useStaticTimeout || !m.Data? then old(sentTimes)
                            else if resent then old(sentTimes) - {m.num}
                            else old(sentTimes)[m.num := now])
      ensures latestSentSYNTime == (if useStaticTimeout || !m.Syn? then old(latestSentSYNTime)
                                    else if resent then None else Some(now))
    {
      if useStaticTimeout { return; }
      match m
      case Syn(_) =>
        if !resent {
          latestSentSYNTime := Some(now);
          return;
        }
        latestSentSYNTime := None;
      case Data(num, _) =>
        if resent {
          sentTimes := sentTimes - {num};
          return;
        }
        sentTimes := sentTimes[num := now];
      case _ =>
    }

    /** The round-trip time measured by this message, if any. No send time is used twice. */
    method Received(m: Message, now: int) returns (rtt: Option<int>)
      modifies this
      ensures useStaticTimeout ==> unchanged(this) && rtt == None
      ensures !useStaticTimeout && m.Ack? ==>
                && sentTimes == old(sentTimes) - {m.num}
                && rtt == (if m.num in old(sentTimes) then Some(now - old(sentTimes)[m.num]) else None)
      ensures !useStaticTimeout && (m.Syn? || m.SynAck?) ==>
                && latestSentSYNTime == None
                && rtt == (if old(latestSentSYNTime) == None then None
                           else Some(now - old(latestSentSYNTime).value))
      ensures !m.Ack? ==> sentTimes == old(sentTimes)
      ensures !m.Syn? && !m.SynAck? ==> latestSentSYNTime == old(latestSentSYNTime)
      ensures !m.Ack? && !m.Syn? && !m.SynAck? ==> rtt == None
    {
      rtt := None;
      if useStaticTimeout { return; }
      if m.Syn? || m.SynAck? {
        if latestSentSYNTime == None { return; }
        rtt := Some(now - latestSentSYNTime.value);
        latestSentSYNTime := None;
      } else if m.Ack? {
        if m.num !in sentTimes {
          assert sentTimes == sentTimes - {m.num};
          return;
        }
        rtt := Some(now - sentTimes[m.num]);
        sentTimes := sentTimes - {m.num};
      }
    }
  }

  class GoBackNConn {
    const cfg: Config
    const queue: Queue
    const timeouts: TimeoutManager
    var recvSeq: uint8
    var lastNackSeq: uint8
    ghost var pc: Pc
    ghost var accepted: seq<Body>
    ghost var added: seq<Body>
    ghost var sentAt: seq<seq<int>>

    constructor (n: uint8)
      requires n < 255
      ensures Valid() && cfg == Config(n, n + 1) && Value() == InitialEndpoint(cfg.s)
    {
      cfg := Config(n, n + 1);
      queue := new Queue(n + 1);
      timeouts := new TimeoutManager(false);
      recvSeq, lastNackSeq := 0, 0;
      pc, accepted, added, sentAt := Idle(true), [], [], [];
    }

    ghost predicate Valid()
      reads this, queue, queue.content
    {
      && queue.Valid() && queue.s == cfg.s && recvSeq < cfg.s && !timeouts.useStaticTimeout
      && (pc.Resending? ==> pc.cursor < cfg.s && pc.stop < cfg.s)
    }

    ghost function Value(): Endpoint
      reads this, queue, queue.content, queue.syncer, timeouts
    {
      Endpoint(queue.Value(), queue.syncer.Value(), timeouts.sentTimes, pc, recvSeq, accepted, added, sentAt)
    }

    /** One iteration of the receiving loop. `recently` is the outcome of the wall-clock test on the
        last NACK; `ok` is false when the loop ends with an error or a FIN. The two signals tell the
        sending loop that the window has shrunk and that it should resend. */
    method ReceiveOne(b: Bytes, recently: bool, now: int)
      returns (ok: bool, reply: seq<Bytes>, up: Option<Body>, rtt: Option<int>, acked: bool, resend: bool)
      requires Valid()
      modifies this, queue, queue.syncer, timeouts
      ensures ok <==> Decode(b).Some? && !Decode(b).value.IsControl()
      ensures !ok ==> Value() == old(Value()) && reply == [] && up == None && !acked && !resend
      ensures ok ==>
                var e, m := old(Value()), Decode(b).value;
                var mute := old(lastNackSeq) == e.recvSeq && recently;
                && Value() == Handle(e, m, cfg) && reply == Reply(e, m, mute) && rtt == RttSample(e, m, now)
                && up == (if m.Data? && m.num == e.recvSeq && !m.body.isPing then Some(m.body) else None)
                && lastNackSeq == (if m.Data? && m.num != e.recvSeq && !mute then e.recvSeq else old(lastNackSeq))
                && (resend <==> m.Nack? && NackResend(e.queue.base, e.queue.top, m.num))
                && (acked <==> || (m.Ack? && AckValid(e.queue.base, e.queue.top, m.num, cfg.s))
                               || (resend && NackBumped(e.queue.base, e.queue.top, m.num)))
                && (Valid() <==> (m.Nack? ==> m.num < cfg.s || e.queue.base <= e.queue.top))
    {
      hide Encode, Decode, AckBase, NackBase, ContainsSequence, SyncNacked;
      reply, up, rtt, acked, resend := [], None, None, false, false;
      var msg := Decode(b);
      if msg == None { return false, [], None, None, false, false; }
      rtt := timeouts.Received(msg.value, now);
      ok := true;
      match msg.value
      case Data(num, body) =>
        if num == recvSeq {
          var ack := Serialize(Ack(num));
          reply := [ack];
          NextIsIncrement(recvSeq, cfg.s);
          recvSeq := (recvSeq + 1) % cfg.s;
          accepted := accepted + [body];
          if !body.isPing {
            up := Some(body);
          }
        } else if !(lastNackSeq == recvSeq && recently) {
          var nack := Serialize(Nack(recvSeq));
          reply := [nack];
          lastNackSeq := recvSeq;
        }
      case Ack(num) =>
        var valid, wait := queue.ProcessACK(num);
        acked := valid;
      case Nack(num) =>
        var bumped;
        resend, bumped := queue.ProcessNACK(num);
        acked := resend && bumped;
      case _ =>
        ok := false;
    }

    /** The sending loop takes a packet from the channel, or a ping, and sends it. */
    method SendOne(body: Body, now: int) returns (b: Bytes)
      requires Valid() && pc == Idle(true)
      modifies this, queue, queue.content, timeouts
      ensures Valid()
      ensures Value() == OnTransmit(OnAdd(old(Value()), body, cfg.s), now) && lastNackSeq == old(lastNackSeq)
      ensures b == Encode(Data(old(queue.sequenceTop), body))
    {
      var packet := queue.AddPacket(body);
      added, sentAt := added + [body], sentAt + [[]];
      b := Serialize(packet);
      timeouts.Sent(packet, false, now);
      sentAt := Stamp(sentAt, |added| - 1, now);
      pc := Idle(false);
    }

    /** Has the queue room for another packet? */
    method CheckRoom() returns (room: bool)
      requires Valid() && pc == Idle(false)
      modifies this`pc
      ensures Valid()
      ensures room <==> Size(queue.sequenceBase, queue.sequenceTop, cfg.s) < cfg.n
      ensures pc == Idle(room)
    {
      var size := queue.Size();
      room := size < cfg.n;
      pc := Idle(room);
    }

    /** A whole resend with nothing else going on is the corresponding series of protocol steps. */
    method ResendQueue(recently: bool, now: int) returns (out: seq<Bytes>)
      requires Valid() && pc.Idle? && WindowHolds(queue.Value(), cfg.s)
      modifies this`pc, this`sentAt, queue.syncer, timeouts
      ensures Valid()
      ensures recently || queue.sequenceBase == queue.sequenceTop ==> out == [] && Value() == old(Value())
      ensures !recently && queue.sequenceBase != queue.sequenceTop ==>
                && out == EncodeAll(Outstanding(queue.Value(), cfg.s))
                && Value() == WholeResend(old(Value()), now, cfg.s)
    {
      ghost var e := Value();
      var packets := queue.Resend(recently);
      if recently || queue.sequenceBase == queue.sequenceTop {
        return [];
      }
      ghost var e1;
      out, e1 := SendAll(packets, now, OnBeginResend(e, cfg.s));
      pc, sentAt := Idle(e1.pc.ready), e1.sentAt;
    }

    /** Each packet is sent as a resend, whose number is no longer timed. `e` is the endpoint that is
        about to resend. */
    method SendAll(packets: seq<Message>, now: int, ghost e: Endpoint)
      returns (out: seq<Bytes>, ghost e1: Endpoint)
      requires !timeouts.useStaticTimeout && timeouts.sentTimes == e.times && Begun(e, 0, cfg.s)
      requires packets == Outstanding(e.queue, cfg.s)
      modifies timeouts
      ensures out == EncodeAll(packets) && e1 == Resends(e, now, cfg.s) && timeouts.sentTimes == e1.times
    {
      hide WindowHolds, OutstandingFrom, OnResend, Resends, Encode;
      out, e1 := [], e;
      var i := 0;
      while i < |packets|
        invariant 0 <= i <= |packets| && out == EncodeAll(packets[..i])
        invariant Begun(e1, i, cfg.s) && e1.queue == e.queue && timeouts.sentTimes == e1.times
        invariant packets[i..] == OutstandingFrom(e.queue, i, cfg.s)
        invariant Resends(e1, now, cfg.s) == Resends(e, now, cfg.s)
      {
        NextOutstanding(e1, i, now, cfg.s);
        assert packets[i..][1..] == packets[i + 1..];
        EncodeMore(packets, i);
        var b := Serialize(packets[i]);
        out := out + [b];
        timeouts.Sent(packets[i], true, now);
        e1 := OnResend(e1, now, cfg.s);
        i := i + 1;
      }
      AllResent(e1, i, now, cfg.s);
      assert packets[..i] == packets;
    }
  }

  function EncodeAll(ms: seq<Message>): seq<Bytes> { seq(|ms|, i requires 0 <= i < |ms| => Encode(ms[i])) }

  lemma {:induction false} EncodeMore(ms: seq<Message>, i: nat)
    requires i < |ms|
    ensures EncodeAll(ms[..i + 1]) == EncodeAll(ms[..i]) + [Encode(ms[i])]
  {
  }

  // -------------------------------------------------------------------------
  // A resend without interruption

  /** A resend has sent its first `i` packets and no reply has come in. */
  predicate Begun(e: Endpoint, i: nat, s: uint8) {
    && EndpointOk(e, s) && WindowHolds(e.queue, s) && i <= Size(e.queue.base, e.queue.top, s) as int
    && e.pc.Resending? && e.pc.cursor == Slot(e.queue.base, i, s) && e.pc.stop == e.queue.top
  }

  /** The packets that are left of a resend go out one after another. */
  function Resends(e: Endpoint, now: int, s: uint8): (r: Endpoint)
    requires EndpointOk(e, s) && e.pc.Resending?
    ensures r.pc.Resending? && r.pc.ready == e.pc.ready && r == e.(pc := r.pc, times := r.times, sentAt := r.sentAt)
    decreases Size(e.pc.cursor, e.pc.stop, s)
  {
    if e.pc.cursor == e.pc.stop then e
    else if !(e.queue.slots[e.pc.cursor].Some? && e.queue.slots[e.pc.cursor].value.Data?) then e
    else Resends(OnResend(e, now, s), now, s)
  }

  function WholeResend(e: Endpoint, now: int, s: uint8): Endpoint
    requires EndpointOk(e, s) && e.pc.Idle?
  {
    OnEndResend(Resends(OnBeginResend(e, s), now, s))
  }

  lemma {:induction false} NextOutstanding(e: Endpoint, i: nat, now: int, s: uint8)
    requires Begun(e, i, s) && |OutstandingFrom(e.queue, i, s)| > 0
    ensures var packet := e.queue.slots[e.pc.cursor];
            && packet.Some? && packet.value.Data? && e.pc.cursor != e.pc.stop
            && OutstandingFrom(e.queue, i, s) == [packet.value] + OutstandingFrom(e.queue, i + 1, s)
            && var e1 := OnResend(e, now, s);
               && Begun(e1, i + 1, s) && e1.queue == e.queue && e1.times == e.times - {packet.value.num}
               && Resends(e1, now, s) == Resends(e, now, s)
  {
    SlotWalk(e.queue, i, s);
    NextIsIncrement(e.pc.cursor, s);
  }

  lemma {:induction false} AllResent(e: Endpoint, i: nat, now: int, s: uint8)
    requires Begun(e, i, s) && OutstandingFrom(e.queue, i, s) == []
    ensures e.pc.cursor == e.pc.stop && Resends(e, now, s) == e
  {
    SlotWalk(e.queue, i, s);
  }

  /** The steps of a whole resend of `k` packets. */
  function ResendSchedule(k: nat, now: int): seq<Step> { [Step(true, BeginResend, now)] + FinishSteps(k, now) }

  lemma {:induction false} RestIsRun(w: World, i: nat, now: int, cfg: Config)
    requires Begun(w.me, i, cfg.s)
    ensures var k := Size(w.me.queue.base, w.me.queue.top, cfg.s) as int - i;
            Run(w, FinishSteps(k, now), cfg) ==
            Some(w.(me := OnEndResend(Resends(w.me, now, cfg.s)),
                    outbox := w.outbox + EncodeAll(OutstandingFrom(w.me.queue, i, cfg.s))))
    decreases Size(w.me.queue.base, w.me.queue.top, cfg.s) as int - i
  {
    hide EncodeAll, OutstandingFrom, WindowHolds, Resends, OnEndResend, Run;
    var k := Size(w.me.queue.base, w.me.queue.top, cfg.s) as int - i;
    if k == 0 {
      LastStep(w, i, now, cfg);
    } else {
      ResendStep(w, i, now, cfg);
      RunFirst(w, Step(true, ResendOne, now), FinishSteps(k - 1, now), cfg);
      RestIsRun(Apply(w, Step(true, ResendOne, now), cfg), i + 1, now, cfg);
    }
  }

  lemma {:induction false} LastStep(w: World, i: nat, now: int, cfg: Config)
    requires Begun(w.me, i, cfg.s) && i == Size(w.me.queue.base, w.me.queue.top, cfg.s) as int
    ensures Run(w, FinishSteps(0, now), cfg) ==
            Some(w.(me := OnEndResend(Resends(w.me, now, cfg.s)),
                    outbox := w.outbox + EncodeAll(OutstandingFrom(w.me.queue, i, cfg.s))))
  {
    AllResent(w.me, i, now, cfg.s);
    RunFirst(w, Step(true, EndResend, now), [], cfg);
    assert w.outbox + EncodeAll(OutstandingFrom(w.me.queue, i, cfg.s)) == w.outbox;
  }

  lemma {:induction false} RunFirst(w: World, st: Step, rest: seq<Step>, cfg: Config)
    requires CanStep(w, st, cfg)
    ensures Run(w, [st] + rest, cfg) == Run(Apply(w, st, cfg), rest, cfg)
    ensures rest == [] ==> Run(w, [st] + rest, cfg) == Some(Apply(w, st, cfg))
  {
    assert ([st] + rest)[1..] == rest;
  }

  lemma {:induction false} ResendStep(w: World, i: nat, now: int, cfg: Config)
    requires Begun(w.me, i, cfg.s) && i < Size(w.me.queue.base, w.me.queue.top, cfg.s) as int
    ensures CanStep(w, Step(true, ResendOne, now), cfg)
    ensures var v := Apply(w, Step(true, ResendOne, now), cfg);
            && Begun(v.me, i + 1, cfg.s) && v.me.queue == w.me.queue
            && Resends(v.me, now, cfg.s) == Resends(w.me, now, cfg.s)
            && w == v.(me := w.me, outbox := w.outbox)
            && v.outbox + EncodeAll(OutstandingFrom(w.me.queue, i + 1, cfg.s)) ==
               w.outbox + EncodeAll(OutstandingFrom(w.me.queue, i, cfg.s))
  {
    SlotWalk(w.me.queue, i, cfg.s);
    NextOutstanding(w.me, i, now, cfg.s);
    EncodeFirst(w.outbox, w.me.queue.slots[w.me.pc.cursor].value, OutstandingFrom(w.me.queue, i + 1, cfg.s));
  }

  lemma {:induction false} EncodeFirst(wire: seq<Bytes>, m: Message, ms: seq<Message>)
    ensures wire + EncodeAll([m] + ms) == wire + [Encode(m)] + EncodeAll(ms)
  {
    assert EncodeAll([m] + ms) == [Encode(m)] + EncodeAll(ms);
  }

  /** What `ResendQueue` does to the connection is what the schedule of its steps does in the protocol. */
  lemma {:induction false} ResendIsSchedule(w: World, now: int, cfg: Config)
    requires EndpointOk(w.me, cfg.s) && w.me.pc.Idle? && WindowHolds(w.me.queue, cfg.s)
    requires w.me.queue.base != w.me.queue.top
    ensures Run(w, ResendSchedule(Size(w.me.queue.base, w.me.queue.top, cfg.s) as int, now), cfg) ==
            Some(w.(me := WholeResend(w.me, now, cfg.s),
                    outbox := w.outbox + EncodeAll(Outstanding(w.me.queue, cfg.s))))
  {
    hide EncodeAll, OutstandingFrom, WindowHolds, Run;
    var k := Size(w.me.queue.base, w.me.queue.top, cfg.s) as int;
    SlotWalk(w.me.queue, 0, cfg.s);
    RunFirst(w, Step(true, BeginResend, now), FinishSteps(k, now), cfg);
    RestIsRun(Apply(w, Step(true, BeginResend, now), cfg), 0, now, cfg);
  }
}
