/** What starts and ends a sync, what lets the next packet in, and when a round trip is measured, in
    every run of the real protocol (gbn/syncer.go, gbn/gbn_conn.go, gbn/timeout_manager.go). */
module Progress {
  import opened Common
  import opened Messages
  import opened SequenceNumbers
  import opened SendQueue
  import opened Network
  import opened Protocol
  import opened Simulation
  import opened Guarantees
  import U = Unbounded

  // -------------------------------------------------------------------------
  // The syncer

  /** The steps of an endpoint that end its sync: the resend is over, a timer runs off, or the peer asks
      for the packet after the last one. */
  predicate EndsSync(v: World, a: Action) {
    a.EndResend? || a.SyncTimer? || (a.Deliver? && v.inbox != [] && Decode(v.inbox[0]) == Some(Nack(v.me.queue.top)))
  }

  /** Whatever step is taken in a reachable state: an endpoint is in a sync afterwards exactly when it has
      begun a resend, or was in one before and did not take a step that ends it. No ACK, no data packet,
      no other NACK and nothing the peer does ends it. */
  lemma {:induction false} SyncExact(w: World, st: Step, left: bool, cfg: Config)
    requires ConfigOk(cfg) && Reachable(w, cfg) && CanStep(w, st, cfg)
    ensures var v, v' := w.From(left), Apply(w, st, cfg).From(left);
            v'.me.sync.resending <==>
            if st.left != left then v.me.sync.resending
            else st.action.BeginResend? || (v.me.sync.resending && !EndsSync(v, st.action))
  {
    hide Encode, Decode, Added, Acked, Nacked, ExpectedAck;
    var v := w.From(left);
    if st.left == left && v.me.sync.resending {
      SyncerAwaitsTop(w, left, cfg);
    }
  }

  // -------------------------------------------------------------------------
  // The sending goroutine

  /** What the sending goroutine does for the next packet, once it has nothing else to do. */
  function SendSteps(ready: bool, body: Body, left: bool, now: int): seq<Step> {
    (if ready then [] else [Step(left, Check, now)]) + [Step(left, Add(body), now), Step(left, Transmit, now)]
  }

  /** The endpoint after that. */
  predicate HasSent(v: World, v': World, body: Body, s: uint8)
    requires s > 0
  {
    && v'.me.added == v.me.added + [body] && v'.me.pc == Idle(false)
    && v'.outbox == v.outbox + [Encode(Data(SeqOf(|v.me.added|, s), body))]
    && v'.inbox == v.inbox && v'.peer == v.peer && v'.me.accepted == v.me.accepted
  }

  /** In every reachable state an idle sender can take and send a packet exactly when fewer than `n` are
      unacknowledged, and it goes out under the number of its index. */
  lemma {:induction false} SendExact(w: World, body: Body, left: bool, now: int, cfg: Config)
    requires ConfigOk(cfg) && Reachable(w, cfg) && w.From(left).me.pc.Idle?
    ensures EndpointOk(w.From(left).me, cfg.s)
    ensures var v := w.From(left);
            var steps := SendSteps(v.me.pc.ready, body, left, now);
            && (Run(w, steps, cfg).Some? <==> Size(v.me.queue.base, v.me.queue.top, cfg.s) < cfg.n)
            && (Run(w, steps, cfg).Some? ==> HasSent(v, Run(w, steps, cfg).value.From(left), body, cfg.s))
  {
    hide Reachable;
    WindowBounds(w, left, cfg);
    var v := w.From(left);
    var u, _ := UnboundMe(w, left, cfg);
    SizeIsDistance(u.base, |u.log|, cfg.s);
    var steps := SendSteps(v.me.pc.ready, body, left, now);
    if v.me.pc.ready {
      AddAndTransmit(w, body, left, now, cfg);
      assert steps == [Step(left, Add(body), now), Step(left, Transmit, now)];
    } else {
      var st := Step(left, Check, now);
      assert steps[0] == st && steps[1..] == [Step(left, Add(body), now), Step(left, Transmit, now)];
      if CanStep(w, st, cfg) {
        StepReaches(w, st, cfg);
        AddAndTransmit(Apply(w, st, cfg), body, left, now, cfg);
      }
    }
  }

  lemma {:induction false} AddAndTransmit(w: World, body: Body, left: bool, now: int, cfg: Config)
    requires ConfigOk(cfg) && Reachable(w, cfg) && w.From(left).me.pc == Idle(true)
    ensures var run := Run(w, [Step(left, Add(body), now), Step(left, Transmit, now)], cfg);
            run.Some? && HasSent(w.From(left), run.value.From(left), body, cfg.s)
  {
    WindowBounds(w, left, cfg);
    var u, _ := UnboundMe(w, left, cfg);
    var first, second := Step(left, Add(body), now), Step(left, Transmit, now);
    var w1 := Apply(w, first, cfg);
    StepReaches(w, first, cfg);
    WindowBounds(w1, left, cfg);
    var w2 := Apply(w1, second, cfg);
    assert Run(w2, [], cfg) == Some(w2);
    assert [second][1..] == [] && [first, second][1..] == [second];
    assert Run(w1, [second], cfg) == Some(w2);
  }

  // -------------------------------------------------------------------------
  // Round-trip samples

  /** Every packet but one just added has been transmitted, and a packet from `base` on that was
      transmitted once has its send time recorded. */
  predicate Timed(times: map<uint8, int>, sentAt: seq<seq<int>>, unsent: bool, base: nat, s: uint8)
    requires s > 0
  {
    && (forall j :: 0 <= j < |sentAt| && !(unsent && j == |sentAt| - 1) ==> sentAt[j] != [])
    && (forall j :: base <= j < |sentAt| && |sentAt[j]| == 1 ==> SeqOf(j, s) in times)
  }

  predicate EndTimed(e: Endpoint, u: U.Endpoint, s: uint8)
    requires s > 0
  {
    Timed(e.times, e.sentAt, e.pc.Fresh?, u.base, s)
  }

  lemma {:induction false} TransmitTimed(times: map<uint8, int>, sentAt: seq<seq<int>>, base: nat, now: int, s: uint8)
    requires s > 0 && Timed(times, sentAt, true, base, s) && |sentAt| > 0
    ensures Timed(times[SeqOf(|sentAt| - 1, s) := now], Stamp(sentAt, |sentAt| - 1, now), false, base, s)
  {
  }

  lemma {:induction false} ResendTimed(times: map<uint8, int>, sentAt: seq<seq<int>>, base: nat, i: nat, now: int,
                                       s: uint8)
    requires s > 0 && Timed(times, sentAt, false, base, s)
    requires i < |sentAt| < i + s as int && |sentAt| < base + s as int
    ensures Timed(times - {SeqOf(i, s)}, Stamp(sentAt, i, now), false, base, s)
  {
    var times', sentAt' := times - {SeqOf(i, s)}, Stamp(sentAt, i, now);
    forall j | base <= j < |sentAt'| && |sentAt'[j]| == 1
      ensures SeqOf(j, s) in times'
    {
      assert sentAt[i] != [];
      SeqUnique(i, j, s);
    }
  }

  /** The ACK of packet `v - 1` forgets no send time but that of packet `v - 1`. */
  lemma {:induction false} AckTimed(times: map<uint8, int>, sentAt: seq<seq<int>>, unsent: bool, base: nat, v: nat,
                                    s: uint8)
    requires s > 0 && Timed(times, sentAt, unsent, base, s) && v >= 1
    requires base <= v <= |sentAt| && |sentAt| < base + s as int
    ensures Timed(times - {SeqOf(v - 1, s)}, sentAt, unsent, v, s)
  {
    forall j | v <= j < |sentAt| && |sentAt[j]| == 1
      ensures SeqOf(j, s) in times - {SeqOf(v - 1, s)}
    {
      SeqUnique(v - 1, j, s);
    }
  }

  lemma {:induction false} ReplyTimed(e: Endpoint, m: Message, u: U.Endpoint, x: U.Msg, peerLog: seq<Body>, cfg: Config)
    requires ConfigOk(cfg) && EndpointRel(e, u, peerLog, cfg.s) && EndpointOk(e, cfg.s) && EndTimed(e, u, cfg.s)
    requires x.IsReply() && Means(m, x, u.log, cfg.s) && u.base <= x.v <= |u.log| <= u.base + cfg.n as int
    ensures EndTimed(Handle(e, m, cfg), u.(base := x.v), cfg.s)
  {
    hide SlotsHold, PcRel, SyncRel, TimesRel, SeqOf;
    if x.Accept? {
      AckTimed(e.times, e.sentAt, e.pc.Fresh?, u.base, x.v, cfg.s);
    }
  }

  lemma {:induction false} DeliverTimed(w: World, u: U.World, mute: bool, now: int, cfg: Config)
    requires ConfigOk(cfg) && Rel(w, u, cfg.s) && U.Inv(u, cfg.n as int) && EndTimed(w.me, u.me, cfg.s)
    requires CanAct(w, Deliver(mute), cfg) && U.CanAct(u, Deliver(mute), cfg.n as int)
    ensures EndTimed(Act(w, Deliver(mute), now, cfg).me, U.Act(u, Deliver(mute), cfg.n as int).me, cfg.s)
  {
    hide SlotsHold, PcRel, SyncRel, TimesRel, SeqOf, Timed, U.ForwardOk, U.PcOk;
    assert MsgRel(w.inbox[0], u.inbox[0], u.peer.log, cfg.s);
    var m := Decode(w.inbox[0]).value;
    if u.inbox[0].IsReply() {
      ReplyTimed(w.me, m, u.me, u.inbox[0], u.peer.log, cfg);
    }
  }

  lemma {:induction false} ResendOneTimed(e: Endpoint, u: U.Endpoint, peerLog: seq<Body>, now: int, cfg: Config)
    requires ConfigOk(cfg) && EndpointRel(e, u, peerLog, cfg.s) && EndpointOk(e, cfg.s) && EndTimed(e, u, cfg.s)
    requires U.PcOk(u, cfg.n as int) && |u.log| <= u.base + cfg.n as int
    requires u.pc.Resending? && u.pc.cursor != u.pc.stop
    requires e.pc.Resending? && e.queue.slots[e.pc.cursor].Some? && e.queue.slots[e.pc.cursor].value.Data?
    ensures EndTimed(OnResend(e, now, cfg.s), u, cfg.s)
  {
    hide SlotsHold, SyncRel, TimesRel, SeqOf, Timed;
    CursorSlot(e, u, peerLog, cfg);
    ResendTimed(e.times, e.sentAt, u.base, u.pc.cursor, now, cfg.s);
  }

  lemma {:induction false} ActTimed(w: World, u: U.World, a: Action, now: int, cfg: Config)
    requires ConfigOk(cfg) && Rel(w, u, cfg.s) && U.Inv(u, cfg.n as int) && EndTimed(w.me, u.me, cfg.s)
    requires CanAct(w, a, cfg) && U.CanAct(u, a, cfg.n as int)
    ensures EndTimed(Act(w, a, now, cfg).me, U.Act(u, a, cfg.n as int).me, cfg.s)
  {
    hide SlotsHold, SyncRel, TimesRel, SeqOf, U.ForwardOk, U.BackwardOk, WireRel;
    match a
    case Deliver(mute) => DeliverTimed(w, u, mute, now, cfg);
    case Transmit => TransmitTimed(w.me.times, w.me.sentAt, u.me.base, now, cfg.s);
    case ResendOne => ResendOneTimed(w.me, u.me, u.peer.log, now, cfg);
    case _ =>
  }

  lemma {:induction false} RunTimed(w: World, u: U.World, steps: seq<Step>, cfg: Config)
    requires ConfigOk(cfg) && Rel(w, u, cfg.s) && U.Inv(u, cfg.n as int) && Run(w, steps, cfg).Some?
    requires EndTimed(w.me, u.me, cfg.s) && EndTimed(w.peer, u.peer, cfg.s)
    ensures var u' := U.Run(u, steps, cfg.n as int);
            && u'.Some? && EndTimed(Run(w, steps, cfg).value.me, u'.value.me, cfg.s)
            && EndTimed(Run(w, steps, cfg).value.peer, u'.value.peer, cfg.s)
    decreases |steps|
  {
    hide Rel, U.Inv, EndTimed;
    if steps != [] {
      var st := steps[0];
      StepSimulates(w, u, st, cfg);
      U.StepKeeps(u, st, cfg.n as int);
      StepTimed(w, u, st, cfg);
      RunTimed(Apply(w, st, cfg), U.Apply(u, st, cfg.n as int), steps[1..], cfg);
    }
  }

  lemma {:induction false} StepTimed(w: World, u: U.World, st: Step, cfg: Config)
    requires ConfigOk(cfg) && Rel(w, u, cfg.s) && U.Inv(u, cfg.n as int)
    requires CanStep(w, st, cfg) && U.CanStep(u, st, cfg.n as int)
    requires EndTimed(w.me, u.me, cfg.s) && EndTimed(w.peer, u.peer, cfg.s)
    ensures EndTimed(Apply(w, st, cfg).me, U.Apply(u, st, cfg.n as int).me, cfg.s)
    ensures EndTimed(Apply(w, st, cfg).peer, U.Apply(u, st, cfg.n as int).peer, cfg.s)
  {
    hide EndTimed, EndpointRel, WireRel, U.FlowOk;
    if st.left {
      ActTimed(w, u, st.action, st.now, cfg);
    } else {
      U.SwapKeeps(u, cfg.n as int);
      ActTimed(w.Swap(), u.Swap(), st.action, st.now, cfg);
    }
  }

  lemma {:induction false} ReachTimed(w: World, cfg: Config) returns (u: U.World)
    requires ConfigOk(cfg) && Reachable(w, cfg)
    ensures Rel(w, u, cfg.s) && U.Inv(u, cfg.n as int) && EndTimed(w.me, u.me, cfg.s)
  {
    hide Rel, U.Inv;
    var steps :| Run(Initial(cfg.s), steps, cfg) == Some(w);
    RunSimulates(steps, cfg);
    InitialRel(cfg);
    RunTimed(Initial(cfg.s), U.INITIAL, steps, cfg);
    u := U.Run(U.INITIAL, steps, cfg.n as int).value;
  }

  lemma {:induction false} MeSize(e: Endpoint, u: U.Endpoint, peerLog: seq<Body>, cfg: Config)
    requires ConfigOk(cfg) && EndpointRel(e, u, peerLog, cfg.s) && u.base <= |u.log| <= u.base + cfg.n as int
    ensures EndpointOk(e, cfg.s) && e.added == u.log
    ensures Size(e.queue.base, e.queue.top, cfg.s) as int == |u.log| - u.base
  {
    SizeIsDistance(u.base, |u.log|, cfg.s);
  }

  /** When the ACK of a packet that is still in the window arrives, a sample is taken exactly when the
      packet was transmitted once, and it is the time since that transmission; then its send time is
      forgotten. */
  lemma {:induction false} RttSampleTaken(w: World, left: bool, j: nat, now: int, cfg: Config)
    requires ConfigOk(cfg) && Reachable(w, cfg) && w.From(left).inbox != []
    requires Decode(w.From(left).inbox[0]) == Some(Ack(SeqOf(j, cfg.s)))
    requires var e := w.From(left).me;
             EndpointOk(e, cfg.s) && |e.added| - Size(e.queue.base, e.queue.top, cfg.s) as int <= j < |e.added|
    ensures var e := w.From(left).me;
            && |e.sentAt| == |e.added| && e.sentAt[j] != []
            && RttSample(e, Ack(SeqOf(j, cfg.s)), now) ==
               (if |e.sentAt[j]| == 1 then Some(now - e.sentAt[j][0]) else None)
            && SeqOf(j, cfg.s) !in Handle(e, Ack(SeqOf(j, cfg.s)), cfg).times
  {
    hide EndpointRel, EndTimed, Handle, SeqOf, U.ForwardOk, RttSample, Reachable;
    ReachableFrom(w, left, cfg);
    var v := w.From(left);
    var u := ReachTimed(v, cfg);
    MeSize(v.me, u.me, u.peer.log, cfg);
    assert MsgRel(v.inbox[0], u.inbox[0], u.peer.log, cfg.s);
    SampleTaken(v.me, u.me, u.peer.log, u.inbox[0].v, j, now, cfg);
  }

  lemma {:induction false} SampleTaken(e: Endpoint, u: U.Endpoint, peerLog: seq<Body>, v: nat, j: nat, now: int,
                                       cfg: Config)
    requires ConfigOk(cfg) && EndpointRel(e, u, peerLog, cfg.s) && EndpointOk(e, cfg.s) && EndTimed(e, u, cfg.s)
    requires 1 <= v && u.base <= v <= U.Sent(u) && SeqOf(v - 1, cfg.s) == SeqOf(j, cfg.s)
    requires u.base <= j < |u.log| <= u.base + cfg.n as int
    ensures |e.sentAt| == |e.added| && e.sentAt[j] != []
    ensures RttSample(e, Ack(SeqOf(j, cfg.s)), now) ==
            (if |e.sentAt[j]| == 1 then Some(now - e.sentAt[j][0]) else None)
    ensures SeqOf(j, cfg.s) !in Handle(e, Ack(SeqOf(j, cfg.s)), cfg).times
  {
    hide SlotsHold, SyncRel, SeqOf, AckBase;
    SeqUnique(v - 1, j, cfg.s);
  }
}
