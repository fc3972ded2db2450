/** Recovery: one resend over a wire that loses nothing brings both ends back in step
    (gbn/queue.go, gbn/gbn_conn.go). */
module Recovery {
  import opened Common
  import opened Messages
  import opened SequenceNumbers
  import opened Network
  import opened Protocol
  import opened Simulation
  import opened Guarantees
  import U = Unbounded

  // -------------------------------------------------------------------------
  // Schedules

  /** Deliver the next `k` messages to one side; `mute(i)` suppresses the NACK for the `i`-th. */
  function DeliverSteps(left: bool, k: nat, mute: nat -> bool, i: nat): seq<Step> {
    if k == 0 then [] else [Step(left, Deliver(mute(i)), 0)] + DeliverSteps(left, k - 1, mute, i + 1)
  }

  /** Let the left sending goroutine complete what it is doing. */
  function SettleSteps(w: World, cfg: Config): seq<Step>
    requires EndpointOk(w.me, cfg.s)
  {
    match w.me.pc
    case Idle(_) => []
    case Fresh(_) => [Step(true, Transmit, 0)]
    case Resending(cursor, stop, _, _, _) => FinishSteps(Size(cursor, stop, cfg.s) as int, 0)
  }

  function ResendSteps(w: World, cfg: Config): seq<Step>
    requires EndpointOk(w.me, cfg.s)
  {
    var k := Size(w.me.queue.base, w.me.queue.top, cfg.s) as int;
    if k == 0 then [] else [Step(true, BeginResend, 0)] + FinishSteps(k, 0)
  }

  // -------------------------------------------------------------------------
  // The same on unbounded numbers, seen from the endpoint that acts

  predicate NoOther(wire: seq<U.Msg>) { forall i :: 0 <= i < |wire| ==> !wire[i].Other? }

  function Drain(u: U.World, mute: nat -> bool, i: nat, n: nat): U.World
    requires NoOther(u.inbox)
    decreases |u.inbox|
  {
    if u.inbox == [] then u else Drain(U.Act(u, Deliver(mute(i)), n), mute, i + 1, n)
  }

  /** Draining empties the inbox and adds only replies to the outbox. */
  lemma {:induction false} DrainEmpties(u: U.World, mute: nat -> bool, i: nat, n: nat)
    requires n >= 1 && U.Inv(u, n) && NoOther(u.inbox)
    ensures var v := Drain(u, mute, i, n);
            && U.Inv(v, n) && v.inbox == [] && v.peer == u.peer
            && v.me.log == u.me.log && v.me.pc == u.me.pc
            && u.outbox <= v.outbox
            && forall k :: |u.outbox| <= k < |v.outbox| ==> v.outbox[k].IsReply()
    decreases |u.inbox|
  {
    hide U.Inv;
    if u.inbox != [] {
      U.ActKeeps(u, Deliver(mute(i)), n);
      DrainEmpties(U.Act(u, Deliver(mute(i)), n), mute, i + 1, n);
    }
  }

  lemma {:induction false} DrainIsRun(u: U.World, left: bool, mute: nat -> bool, i: nat, n: nat)
    requires NoOther(if left then u.inbox else u.outbox)
    ensures U.Run(u, DeliverSteps(left, |if left then u.inbox else u.outbox|, mute, i), n) ==
            Some(if left then Drain(u, mute, i, n) else Drain(u.Swap(), mute, i, n).Swap())
    decreases |if left then u.inbox else u.outbox|
  {
    var wire := if left then u.inbox else u.outbox;
    if wire != [] {
      var st := Step(left, Deliver(mute(i)), 0);
      assert DeliverSteps(left, |wire|, mute, i)[1..] == DeliverSteps(left, |wire| - 1, mute, i + 1);
      DrainIsRun(U.Apply(u, st, n), left, mute, i + 1, n);
    }
  }

  /** The rest of a resend, from `k` up to the top. */
  function Segs(k: nat, t: nat): seq<U.Msg>
    requires k <= t
    decreases t - k
  {
    if k == t then [] else [U.Seg(k)] + Segs(k + 1, t)
  }

  function Finished(u: U.World): U.World
    requires u.me.pc.Resending? && u.me.pc.cursor <= u.me.pc.stop
  {
    u.(me := u.me.(pc := U.Idle(u.me.pc.ready)), outbox := u.outbox + Segs(u.me.pc.cursor, u.me.pc.stop))
  }

  lemma {:induction false} FinishIsRun(u: U.World, n: nat)
    requires u.me.pc.Resending? && u.me.pc.cursor <= u.me.pc.stop
    ensures U.Run(u, FinishSteps(u.me.pc.stop - u.me.pc.cursor, 0), n) == Some(Finished(u))
    decreases u.me.pc.stop - u.me.pc.cursor
  {
    var k := u.me.pc.stop - u.me.pc.cursor;
    if k == 0 {
      var st := Step(true, EndResend, 0);
      assert U.Run(U.Apply(u, st, n), [], n) == Some(U.Apply(u, st, n));
      assert u.outbox + [] == u.outbox;
    } else {
      var v := U.Apply(u, Step(true, ResendOne, 0), n);
      assert FinishSteps(k, 0)[1..] == FinishSteps(k - 1, 0);
      FinishIsRun(v, n);
      assert v.outbox + Segs(v.me.pc.cursor, v.me.pc.stop) == u.outbox + Segs(u.me.pc.cursor, u.me.pc.stop);
    }
  }

  /** The left sending goroutine at rest. */
  function Settled(u: U.World): U.World
    requires u.me.pc.Fresh? ==> |u.me.log| > 0
    requires u.me.pc.Resending? ==> u.me.pc.cursor <= u.me.pc.stop
  {
    match u.me.pc
    case Idle(_) => u
    case Fresh => u.(me := u.me.(pc := U.Idle(false)), outbox := u.outbox + [U.Seg(|u.me.log| - 1)])
    case Resending(_, _, _, _) => Finished(u)
  }

  /** The window resent in full. */
  function Resent(u: U.World): U.World
    requires u.me.pc.Idle? && u.me.base <= |u.me.log|
  {
    u.(outbox := u.outbox + Segs(u.me.base, |u.me.log|))
  }

  lemma {:induction false} SettleIsRun(w: World, u: U.World, cfg: Config)
    requires ConfigOk(cfg) && Rel(w, u, cfg.s) && U.Inv(u, cfg.n as int) && EndpointOk(w.me, cfg.s)
    ensures U.Run(u, SettleSteps(w, cfg), cfg.n as int) == Some(Settled(u))
  {
    hide SlotsHold, SyncRel, TimesRel, SeqOf, WireRel, U.ForwardOk, U.BackwardOk;
    match u.me.pc
    case Idle(_) =>
    case Fresh => TransmitIsRun(u, cfg.n as int);
    case Resending(_, cursor, stop, _) =>
      SizeIsDistance(cursor, stop, cfg.s);
      FinishIsRun(u, cfg.n as int);
  }

  lemma {:induction false} TransmitIsRun(u: U.World, n: nat)
    requires u.me.pc.Fresh? && |u.me.log| > 0
    ensures U.Run(u, [Step(true, Transmit, 0)], n) == Some(Settled(u))
  {
    var v := U.Apply(u, Step(true, Transmit, 0), n);
    assert U.Run(v, [], n) == Some(v);
  }

  lemma {:induction false} BeginAndFinish(u: U.World, n: nat)
    requires u.me.pc.Idle? && u.me.base < |u.me.log|
    ensures U.Run(u, [Step(true, BeginResend, 0)] + FinishSteps(|u.me.log| - u.me.base, 0), n) == Some(Resent(u))
  {
    var st, rest := Step(true, BeginResend, 0), FinishSteps(|u.me.log| - u.me.base, 0);
    var v := U.Apply(u, st, n);
    FinishIsRun(v, n);
    assert Finished(v) == Resent(u);
    assert ([st] + rest)[1..] == rest;
    assert U.Run(u, [st] + rest, n) == U.Run(v, rest, n);
  }

  lemma {:induction false} ResendIsRun(w: World, u: U.World, cfg: Config)
    requires ConfigOk(cfg) && Rel(w, u, cfg.s) && U.Inv(u, cfg.n as int) && EndpointOk(w.me, cfg.s)
    requires u.me.pc.Idle?
    ensures U.Run(u, ResendSteps(w, cfg), cfg.n as int) == Some(Resent(u))
  {
    hide SlotsHold, PcRel, SyncRel, TimesRel, SeqOf, WireRel, U.ForwardOk, U.BackwardOk;
    SizeIsDistance(u.me.base, |u.me.log|, cfg.s);
    if u.me.base == |u.me.log| {
      assert ResendSteps(w, cfg) == [];
      assert Resent(u) == u;
    } else {
      BeginAndFinish(u, cfg.n as int);
    }
  }

  // -------------------------------------------------------------------------
  // Catching up

  /** The data packets among `wire` are exactly `k..t`, in order. */
  predicate Catching(wire: seq<U.Msg>, k: nat, t: nat) {
    if wire == [] then k == t
    else if wire[0].IsReply() then Catching(wire[1..], k, t)
    else wire[0] == U.Seg(k) && k < t && Catching(wire[1..], k + 1, t)
  }

  lemma {:induction false} RepliesThenSegs(wire: seq<U.Msg>, k: nat, t: nat)
    requires k <= t && forall i :: 0 <= i < |wire| ==> wire[i].IsReply()
    ensures Catching(wire + Segs(k, t), k, t) && NoOther(wire + Segs(k, t))
    decreases |wire| + t - k
  {
    if wire != [] {
      assert (wire + Segs(k, t))[1..] == wire[1..] + Segs(k, t);
      RepliesThenSegs(wire[1..], k, t);
    } else if k < t {
      assert wire + Segs(k, t) == [U.Seg(k)] + Segs(k + 1, t);
      assert ([U.Seg(k)] + Segs(k + 1, t))[1..] == [] + Segs(k + 1, t);
      RepliesThenSegs([], k + 1, t);
    }
  }

  predicate HasReply(wire: seq<U.Msg>, v: nat) {
    exists i :: 0 <= i < |wire| && wire[i].IsReply() && wire[i].v == v
  }

  /** Some data packet of `wire` is answered if it is not the expected one. */
  predicate SomeHeard(wire: seq<U.Msg>, mute: nat -> bool, i: nat) {
    exists k :: 0 <= k < |wire| && wire[k].Seg? && !mute(i + k)
  }

  lemma {:induction false} SomeHeardStep(wire: seq<U.Msg>, mute: nat -> bool, i: nat)
    requires |wire| > 0
    ensures SomeHeard(wire, mute, i) <==> (wire[0].Seg? && !mute(i)) || SomeHeard(wire[1..], mute, i + 1)
  {
    if SomeHeard(wire[1..], mute, i + 1) {
      var k :| 0 <= k < |wire[1..]| && wire[1..][k].Seg? && !mute(i + 1 + k);
      assert wire[k + 1].Seg? && !mute(i + (k + 1));
    }
    if SomeHeard(wire, mute, i) && !(wire[0].Seg? && !mute(i)) {
      var k :| 0 <= k < |wire| && wire[k].Seg? && !mute(i + k);
      assert wire[1..][k - 1].Seg? && !mute(i + 1 + (k - 1));
    }
  }

  /** A receiver that is handed everything up to `t` ends expecting `t`, and says so if anything was
      missing or some unexpected packet was answered. */
  lemma {:induction false} CatchUp(u: U.World, k: nat, t: nat, mute: nat -> bool, i: nat, n: nat)
    requires NoOther(u.inbox) && Catching(u.inbox, k, t) && k <= u.me.next <= t
    ensures Drain(u, mute, i, n).me.next == t
    ensures HasReply(Drain(u, mute, i, n).outbox, t) <==>
            HasReply(u.outbox, t) || u.me.next < t || SomeHeard(u.inbox, mute, i)
    decreases |u.inbox|
  {
    if u.inbox != [] {
      var v := U.Act(u, Deliver(mute(i)), n);
      var k' := if u.inbox[0].Seg? then k + 1 else k;
      SomeHeardStep(u.inbox, mute, i);
      CatchUp(v, k', t, mute, i + 1, n);
      if v.outbox != u.outbox {
        assert v.outbox[|u.outbox|].IsReply() && v.outbox[|u.outbox|].v == v.me.next;
        HasReplyPush(u.outbox, v.outbox[|u.outbox|], t);
        assert v.outbox == u.outbox + [v.outbox[|u.outbox|]];
      }
    }
  }

  lemma {:induction false} HasReplyPush(wire: seq<U.Msg>, m: U.Msg, t: nat)
    requires m.IsReply()
    ensures HasReply(wire + [m], t) <==> HasReply(wire, t) || m.v == t
  {
    if m.v == t {
      assert (wire + [m])[|wire|] == m;
    }
    if HasReply(wire, t) {
      var i :| 0 <= i < |wire| && wire[i].IsReply() && wire[i].v == t;
      assert (wire + [m])[i] == wire[i];
    }
  }

  /** A sender that is handed all replies empties its window exactly when one of them says that
      everything was received. */
  lemma {:induction false} ReadReplies(u: U.World, mute: nat -> bool, i: nat, n: nat)
    requires n >= 1 && U.Inv(u, n) && NoOther(u.inbox)
    ensures Drain(u, mute, i, n).me.base == |u.me.log| <==>
            u.me.base == |u.me.log| || HasReply(u.inbox, |u.me.log|)
    decreases |u.inbox|
  {
    hide U.ForwardOk, U.PcOk;
    if u.inbox != [] {
      var v := U.Act(u, Deliver(mute(i)), n);
      U.ActKeeps(u, Deliver(mute(i)), n);
      ReadReplies(v, mute, i + 1, n);
      HasReplyPop(u.inbox, |u.me.log|);
    }
  }

  lemma {:induction false} HasReplyPop(wire: seq<U.Msg>, t: nat)
    requires |wire| > 0
    ensures HasReply(wire, t) <==> (wire[0].IsReply() && wire[0].v == t) || HasReply(wire[1..], t)
  {
    if HasReply(wire[1..], t) {
      var i :| 0 <= i < |wire[1..]| && wire[1..][i].IsReply() && wire[1..][i].v == t;
      assert wire[i + 1].IsReply() && wire[i + 1].v == t;
    }
    if HasReply(wire, t) && !(wire[0].IsReply() && wire[0].v == t) {
      var i :| 0 <= i < |wire| && wire[i].IsReply() && wire[i].v == t;
      assert wire[1..][i - 1] == wire[i];
    }
  }

  // -------------------------------------------------------------------------
  // The whole round

  /** Nothing but data, ACKs and NACKs in flight. */
  predicate NoControl(wire: seq<Bytes>) {
    forall i :: 0 <= i < |wire| && Decode(wire[i]).Some? ==> !Decode(wire[i]).value.IsControl()
  }

  /** The left endpoint completes what it is sending; both wires are drained; the left endpoint
      resends its window; both wires are drained again. The states before and after the resend and
      at the end; `m1` to `m4` decide which NACKs are suppressed. */
  function Round(w: World, m1: nat -> bool, m2: nat -> bool, m3: nat -> bool, m4: nat -> bool, cfg: Config)
    : Option<(World, World, World)>
  {
    if !EndpointOk(w.me, cfg.s) then None else
    match Run(w, SettleSteps(w, cfg), cfg) case None => None case Some(w0) =>
    match Run(w0, DeliverSteps(false, |w0.outbox|, m1, 0), cfg) case None => None case Some(w1) =>
    match Run(w1, DeliverSteps(true, |w1.inbox|, m2, 0), cfg) case None => None case Some(w2) =>
    if !EndpointOk(w2.me, cfg.s) then None else
    match Run(w2, ResendSteps(w2, cfg), cfg) case None => None case Some(w3) =>
    match Run(w3, DeliverSteps(false, |w3.outbox|, m3, 0), cfg) case None => None case Some(w4) =>
    match Run(w4, DeliverSteps(true, |w4.inbox|, m4, 0), cfg) case None => None case Some(w5) =>
    Some((w2, w3, w5))
  }

  /** Some resent packet, if unexpected, is answered with a NACK. */
  predicate SomeNackSent(wire: seq<Bytes>, mute: nat -> bool) {
    exists i :: 0 <= i < |wire| && Decode(wire[i]).Some? && Decode(wire[i]).value.Data? && !mute(i)
  }

  /** Left's packets are all accepted and acknowledged. */
  predicate InStep(w: World, s: uint8) {
    w.peer.accepted == w.me.added && w.me.queue.base == w.me.queue.top && w.peer.recvSeq == w.me.queue.top
  }

  lemma {:induction false} DrainStage(w: World, u: U.World, left: bool, mute: nat -> bool, cfg: Config)
    returns (w': World, u': U.World)
    requires ConfigOk(cfg) && Rel(w, u, cfg.s) && U.Inv(u, cfg.n as int)
    requires NoOther(if left then u.inbox else u.outbox)
    ensures Run(w, DeliverSteps(left, |if left then w.inbox else w.outbox|, mute, 0), cfg) == Some(w')
    ensures Rel(w', u', cfg.s) && U.Inv(u', cfg.n as int)
    ensures u' == (if left then Drain(u, mute, 0, cfg.n as int) else Drain(u.Swap(), mute, 0, cfg.n as int).Swap())
  {
    var steps := DeliverSteps(left, |if left then w.inbox else w.outbox|, mute, 0);
    DrainIsRun(u, left, mute, 0, cfg.n as int);
    RunSimulatesFrom(w, u, steps, cfg);
    w', u' := Run(w, steps, cfg).value, U.Run(u, steps, cfg.n as int).value;
  }

  lemma {:induction false} SettleStage(w: World, u: U.World, cfg: Config) returns (w': World)
    requires ConfigOk(cfg) && Rel(w, u, cfg.s) && U.Inv(u, cfg.n as int) && EndpointOk(w.me, cfg.s)
    ensures Run(w, SettleSteps(w, cfg), cfg) == Some(w')
    ensures Rel(w', Settled(u), cfg.s) && U.Inv(Settled(u), cfg.n as int)
  {
    SettleIsRun(w, u, cfg);
    RunSimulatesFrom(w, u, SettleSteps(w, cfg), cfg);
    w' := Run(w, SettleSteps(w, cfg), cfg).value;
  }

  lemma {:induction false} ResendStage(w: World, u: U.World, cfg: Config) returns (w': World)
    requires ConfigOk(cfg) && Rel(w, u, cfg.s) && U.Inv(u, cfg.n as int) && EndpointOk(w.me, cfg.s)
    requires u.me.pc.Idle?
    ensures Run(w, ResendSteps(w, cfg), cfg) == Some(w')
    ensures Rel(w', Resent(u), cfg.s) && U.Inv(Resent(u), cfg.n as int)
  {
    ResendIsRun(w, u, cfg);
    RunSimulatesFrom(w, u, ResendSteps(w, cfg), cfg);
    w' := Run(w, ResendSteps(w, cfg), cfg).value;
  }

  lemma {:induction false} SegsNoOther(k: nat, t: nat)
    requires k <= t
    ensures NoOther(Segs(k, t))
    decreases t - k
  {
    if k < t {
      SegsNoOther(k + 1, t);
    }
  }

  lemma {:induction false} SettledAtRest(u: U.World, n: nat)
    requires U.Inv(u, n) && NoOther(u.inbox) && NoOther(u.outbox)
    ensures Settled(u).me.pc.Idle? && NoOther(Settled(u).inbox) && NoOther(Settled(u).outbox)
  {
    if u.me.pc.Resending? {
      SegsNoOther(u.me.pc.cursor, u.me.pc.stop);
    }
  }

  /** After both drains: no data of the left endpoint is in flight, and no reply to it. */
  lemma {:induction false} AfterDrains(u0: U.World, u1: U.World, m2: nat -> bool, n: nat)
    requires n >= 1 && U.Inv(u1, n) && NoOther(u1.inbox) && u1.outbox == [] && u1.me == u0.me && u0.me.pc.Idle?
    ensures var u2 := Drain(u1, m2, 0, n);
            u2.me.pc.Idle? && u2.inbox == [] && forall i :: 0 <= i < |u2.outbox| ==> u2.outbox[i].IsReply()
  {
    DrainEmpties(u1, m2, 0, n);
  }

  /** The second half of the round on unbounded numbers. */
  lemma {:induction false} ResendRound(u2: U.World, u3: U.World, u4: U.World, u5: U.World,
                                       m3: nat -> bool, m4: nat -> bool, n: nat)
    requires n >= 1 && U.Inv(u2, n) && u2.me.pc.Idle? && u2.inbox == []
    requires forall i :: 0 <= i < |u2.outbox| ==> u2.outbox[i].IsReply()
    requires u3 == Resent(u2) && U.Inv(u3, n) && NoOther(u3.outbox)
    requires u4 == Drain(u3.Swap(), m3, 0, n).Swap() && U.Inv(u4, n) && NoOther(u4.inbox)
    requires u5 == Drain(u4, m4, 0, n)
    ensures u5.me.log == u2.me.log && u5.peer.next == |u2.me.log|
    ensures u5.me.base == |u2.me.log| <==>
            u2.me.base == |u2.me.log| || u2.peer.next < |u2.me.log| || SomeHeard(u3.outbox, m3, 0)
  {
    var t := |u2.me.log|;
    RepliesThenSegs(u2.outbox, u2.me.base, t);
    CatchUp(u3.Swap(), u2.me.base, t, m3, 0, n);
    U.SwapKeeps(u3, n);
    DrainEmpties(u3.Swap(), m3, 0, n);
    ReadReplies(u4, m4, 0, n);
    DrainEmpties(u4, m4, 0, n);
  }

  /** From every reachable state the round is possible for either endpoint and delivers everything that
      endpoint has added, and its window is empty afterwards exactly when it already was, or a packet had
      been missing, or at least one NACK was not suppressed. */
  lemma {:induction false} RecoveryExact(w: World, left: bool, m1: nat -> bool, m2: nat -> bool, m3: nat -> bool,
                                         m4: nat -> bool, cfg: Config)
    requires ConfigOk(cfg) && Reachable(w, cfg) && NoControl(w.inbox) && NoControl(w.outbox)
    ensures Round(w.From(left), m1, m2, m3, m4, cfg).Some?
    ensures var (before, resent, end) := Round(w.From(left), m1, m2, m3, m4, cfg).value;
            && end.peer.accepted == end.me.added
            && (InStep(end, cfg.s) <==>
                  || before.me.queue.base == before.me.queue.top
                  || |before.peer.accepted| < |before.me.added|
                  || SomeNackSent(resent.outbox, m3))
  {
    hide Rel, U.Inv, Run, Reachable, InStep, SomeNackSent, SettleSteps, DeliverSteps, ResendSteps;
    ReachableFrom(w, left, cfg);
    var v := w.From(left);
    var u := Unbound(v, cfg);
    var w0, w1, w2, u2 := FirstHalf(v, u, m1, m2, cfg);
    var w3, w4, w5, u5 := SecondHalf(w2, u2, m3, m4, cfg);
    assert Round(v, m1, m2, m3, m4, cfg) == Some((w2, w3, w5));
  }

  /** Completing the current send and draining both wires. */
  lemma {:induction false} FirstHalf(w: World, u: U.World, m1: nat -> bool, m2: nat -> bool, cfg: Config)
    returns (w0: World, w1: World, w2: World, u2: U.World)
    requires ConfigOk(cfg) && Rel(w, u, cfg.s) && U.Inv(u, cfg.n as int)
    requires NoControl(w.inbox) && NoControl(w.outbox)
    ensures EndpointOk(w.me, cfg.s) && Run(w, SettleSteps(w, cfg), cfg) == Some(w0)
    ensures Run(w0, DeliverSteps(false, |w0.outbox|, m1, 0), cfg) == Some(w1)
    ensures Run(w1, DeliverSteps(true, |w1.inbox|, m2, 0), cfg) == Some(w2)
    ensures Rel(w2, u2, cfg.s) && U.Inv(u2, cfg.n as int)
    ensures u2.me.pc.Idle? && u2.inbox == [] && forall i :: 0 <= i < |u2.outbox| ==> u2.outbox[i].IsReply()
  {
    hide Rel, U.ForwardOk, U.BackwardOk, Run, DeliverSteps, SettleSteps;
    var n := cfg.n as int;
    QuietWires(w, u, cfg.s);
    SettledAtRest(u, n);
    RelOk(w, u, cfg.s);
    w0 := SettleStage(w, u, cfg);
    var u0, u1 := Settled(u), u;
    w1, u1 := DrainStage(w0, u0, false, m1, cfg);
    FirstDrain(u0, u1, m1, n);
    w2, u2 := DrainStage(w1, u1, true, m2, cfg);
    AfterDrains(u0, u1, m2, n);
  }

  /** Resending and draining both wires again. */
  lemma {:induction false} SecondHalf(w2: World, u2: U.World, m3: nat -> bool, m4: nat -> bool, cfg: Config)
    returns (w3: World, w4: World, w5: World, u5: U.World)
    requires ConfigOk(cfg) && Rel(w2, u2, cfg.s) && U.Inv(u2, cfg.n as int)
    requires u2.me.pc.Idle? && u2.inbox == [] && forall i :: 0 <= i < |u2.outbox| ==> u2.outbox[i].IsReply()
    ensures EndpointOk(w2.me, cfg.s) && Run(w2, ResendSteps(w2, cfg), cfg) == Some(w3)
    ensures Run(w3, DeliverSteps(false, |w3.outbox|, m3, 0), cfg) == Some(w4)
    ensures Run(w4, DeliverSteps(true, |w4.inbox|, m4, 0), cfg) == Some(w5)
    ensures w5.peer.accepted == w5.me.added
    ensures InStep(w5, cfg.s) <==>
            || w2.me.queue.base == w2.me.queue.top
            || |w2.peer.accepted| < |w2.me.added|
            || SomeNackSent(w3.outbox, m3)
  {
    hide Rel, U.ForwardOk, U.BackwardOk, U.PcOk, Run, DeliverSteps, ResendSteps, InStep, SomeNackSent;
    var n := cfg.n as int;
    RelOk(w2, u2, cfg.s);
    w3 := ResendStage(w2, u2, cfg);
    var u3, u4 := Resent(u2), u2;
    RepliesThenSegs(u2.outbox, u2.me.base, |u2.me.log|);
    w4, u4 := DrainStage(w3, u3, false, m3, cfg);
    FirstDrain(u3, u4, m3, n);
    w5, u5 := DrainStage(w4, u4, true, m4, cfg);
    ResendRound(u2, u3, u4, u5, m3, m4, n);
    RoundTransfers(w2, u2, w3, u3, w5, u5, m3, cfg);
  }

  lemma {:induction false} QuietWires(w: World, u: U.World, s: uint8)
    requires s > 0 && Rel(w, u, s) && NoControl(w.inbox) && NoControl(w.outbox)
    ensures NoOther(u.inbox) && NoOther(u.outbox)
  {
    forall i | 0 <= i < |u.inbox| ensures !u.inbox[i].Other? {
      assert MsgRel(w.inbox[i], u.inbox[i], u.peer.log, s);
    }
    forall i | 0 <= i < |u.outbox| ensures !u.outbox[i].Other? {
      assert MsgRel(w.outbox[i], u.outbox[i], u.me.log, s);
    }
  }

  /** The right endpoint drains its side. */
  lemma {:induction false} FirstDrain(u: U.World, v: U.World, mute: nat -> bool, n: nat)
    requires n >= 1 && U.Inv(u, n) && NoOther(u.outbox) && NoOther(u.inbox)
    requires v == Drain(u.Swap(), mute, 0, n).Swap()
    ensures v.outbox == [] && v.me == u.me && NoOther(v.inbox)
  {
    U.SwapKeeps(u, n);
    DrainEmpties(u.Swap(), mute, 0, n);
    forall i | 0 <= i < |v.inbox|
      ensures !v.inbox[i].Other?
    {
      if i < |u.inbox| {
        assert v.inbox[i] == u.inbox[i];
      }
    }
  }

  lemma {:induction false} HeardAlike(w: World, u: U.World, mute: nat -> bool, s: uint8)
    requires s > 0 && WireRel(w.outbox, u.outbox, u.me.log, s)
    ensures SomeNackSent(w.outbox, mute) <==> SomeHeard(u.outbox, mute, 0)
  {
    forall i | 0 <= i < |w.outbox|
      ensures Decode(w.outbox[i]).Some? && (Decode(w.outbox[i]).value.Data? <==> u.outbox[i].Seg?)
    {
      assert MsgRel(w.outbox[i], u.outbox[i], u.me.log, s);
    }
    if SomeNackSent(w.outbox, mute) {
      var i :| 0 <= i < |w.outbox| && Decode(w.outbox[i]).Some? && Decode(w.outbox[i]).value.Data? && !mute(i);
      assert u.outbox[i].Seg? && !mute(0 + i);
    }
    if SomeHeard(u.outbox, mute, 0) {
      var i :| 0 <= i < |u.outbox| && u.outbox[i].Seg? && !mute(0 + i);
      assert Decode(w.outbox[i]).value.Data? && !mute(i);
    }
  }

  lemma {:induction false} RoundTransfers(w2: World, u2: U.World, w3: World, u3: U.World,
                                          w5: World, u5: U.World, m3: nat -> bool, cfg: Config)
    requires ConfigOk(cfg) && Rel(w2, u2, cfg.s) && Rel(w3, u3, cfg.s) && Rel(w5, u5, cfg.s)
    requires U.Inv(u2, cfg.n as int) && U.Inv(u5, cfg.n as int)
    requires u5.me.log == u2.me.log && u5.peer.next == |u2.me.log|
    requires u5.me.base == |u2.me.log| <==>
             u2.me.base == |u2.me.log| || u2.peer.next < |u2.me.log| || SomeHeard(u3.outbox, m3, 0)
    ensures w5.peer.accepted == w5.me.added
    ensures InStep(w5, cfg.s) <==>
            || w2.me.queue.base == w2.me.queue.top
            || |w2.peer.accepted| < |w2.me.added|
            || SomeNackSent(w3.outbox, m3)
  {
    hide WireRel, SlotsHold, PcRel, SyncRel, TimesRel, SeqOf, SomeHeard, SomeNackSent, U.ForwardOk, U.BackwardOk,
         U.PcOk;
    HeardAlike(w3, u3, m3, cfg.s);
    EmptyAlike(w2.me, u2.me, u2.peer.log, cfg);
    EmptyAlike(w5.me, u5.me, u5.peer.log, cfg);
    assert u5.me.log[..u5.peer.next] == u5.me.log;
  }

  lemma {:induction false} EmptyAlike(e: Endpoint, u: U.Endpoint, peerLog: seq<Body>, cfg: Config)
    requires ConfigOk(cfg) && EndpointRel(e, u, peerLog, cfg.s) && u.base <= |u.log| <= u.base + cfg.n as int
    ensures e.queue.base == e.queue.top <==> u.base == |u.log|
  {
    SeqUnique(u.base, |u.log|, cfg.s);
  }
}
