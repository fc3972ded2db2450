/** How many sequence numbers the protocol needs (gbn/config.go). */
module Tightness {
  import opened Common
  import opened Terms
  import opened Messages
  import opened SequenceNumbers
  import opened SendQueue
  import opened Network
  import opened Protocol
  import opened Guarantees

  /** No schedule makes the right endpoint accept anything but the left one's packets in order. */
  ghost predicate Safe(cfg: Config) {
    forall w :: Reachable(w, cfg) ==> w.peer.accepted <= w.me.added
  }

  /** The protocol is safe exactly when there are more numbers than the window has places, and more
      than one of them. */
  lemma {:induction false} SafeExactly(cfg: Config)
    requires cfg.s > 0
    ensures Safe(cfg) <==> cfg.s > cfg.n && cfg.s > 1
  {
    if cfg.s > cfg.n && cfg.s > 1 {
      forall w | Reachable(w, cfg)
        ensures w.peer.accepted <= w.me.added
      {
        if cfg.n == 0 {
          WiderWindow(w, cfg.s);
          PrefixDelivery(w, Config(1, cfg.s));
        } else {
          PrefixDelivery(w, cfg);
        }
      }
    } else if cfg.s <= cfg.n {
      var w := Confused(cfg);
    } else {
      var w := AcceptedTwice(cfg);
    }
  }

  /** With the source's choice `s = n + 1`, that leaves out only the window of no packets. */
  lemma {:induction false} SafeForSource(n: uint8)
    requires n < 255
    ensures Safe(Config(n, n + 1)) <==> n >= 1
  {
    SafeExactly(Config(n, n + 1));
  }

  /** A larger window only allows more schedules. */
  lemma {:induction false} WiderWindow(w: World, s: uint8)
    requires Reachable(w, Config(0, s))
    ensures Reachable(w, Config(1, s))
  {
    var steps :| Run(Initial(s), steps, Config(0, s)) == Some(w);
    WiderRun(Initial(s), steps, s);
  }

  lemma {:induction false} WiderRun(w: World, steps: seq<Step>, s: uint8)
    requires Run(w, steps, Config(0, s)).Some?
    ensures Run(w, steps, Config(1, s)) == Run(w, steps, Config(0, s))
    decreases |steps|
  {
    if steps != [] {
      assert CanStep(w, steps[0], Config(1, s));
      assert Apply(w, steps[0], Config(1, s)) == Apply(w, steps[0], Config(0, s));
      WiderRun(Apply(w, steps[0], Config(0, s)), steps[1..], s);
    }
  }

  /** Packet 0 differs from all later ones. */
  function Sample(i: nat): Body { Body(true, false, if i == 0 then [] else [Raw(1)]) }

  /** `k` packets have been sent and all of them were lost. */
  predicate AllLost(w: World, k: nat, s: uint8)
    requires s > 0
  {
    && EndpointOk(w.me, s) && EndpointOk(w.peer, s)
    && w.me.pc == Idle(true) && w.me.queue.base == 0 && w.me.queue.top == SeqOf(k, s)
    && |w.me.added| == k && (k > 0 ==> w.me.added[0] == Sample(0))
    && w.peer.recvSeq == 0 && w.peer.accepted == []
    && w.inbox == [] && w.outbox == []
  }

  lemma {:induction false} SendNext(w: World, k: nat, cfg: Config) returns (w': World)
    requires cfg.s > 0 && AllLost(w, k, cfg.s) && Reachable(w, cfg)
    ensures Reachable(w', cfg)
    ensures w'.me.pc == Idle(false) && w'.outbox == [Encode(Data(SeqOf(k, cfg.s), Sample(k)))]
    ensures w'.me.queue.base == 0 && w'.me.queue.top == SeqOf(k + 1, cfg.s) && EndpointOk(w'.me, cfg.s)
    ensures w'.me.added == w.me.added + [Sample(k)] && w'.peer == w.peer && w'.inbox == []
  {
    var w1 := Apply(w, Step(true, Add(Sample(k)), 0), cfg);
    StepReaches(w, Step(true, Add(Sample(k)), 0), cfg);
    w' := Apply(w1, Step(true, Transmit, 0), cfg);
    StepReaches(w1, Step(true, Transmit, 0), cfg);
  }

  lemma {:induction false} LoseAndGoOn(w: World, w': World, k: nat, cfg: Config) returns (w'': World)
    requires cfg.s > 0 && Reachable(w', cfg) && Room(k + 1, cfg)
    requires AllLost(w, k, cfg.s)
    requires w'.me.pc == Idle(false) && |w'.outbox| == 1
    requires w'.me.queue.base == 0 && w'.me.queue.top == SeqOf(k + 1, cfg.s) && EndpointOk(w'.me, cfg.s)
    requires w'.me.added == w.me.added + [Sample(k)] && w'.peer == w.peer && w'.inbox == []
    ensures Reachable(w'', cfg) && AllLost(w'', k + 1, cfg.s)
  {
    var drop, check := Step(false, Drop(0), 0), Step(true, Check, 0);
    var w1 := Apply(w', drop, cfg);
    StepReaches(w', drop, cfg);
    assert w1.me == w'.me && w1.outbox == [];
    if k + 1 < cfg.s as int {
      SeqAdd(0, k + 1, cfg.s);
    } else {
      SeqPeriod(0, cfg.s);
    }
    w'' := Apply(w1, check, cfg);
    StepReaches(w1, check, cfg);
  }

  /** `k` packets can be sent without an answer, and there is still room for more. */
  predicate Room(k: nat, cfg: Config) {
    if k < cfg.s as int then k < cfg.n as int else k == cfg.s as int <= cfg.n as int
  }

  lemma {:induction false} LoseAll(k: nat, cfg: Config) returns (w: World)
    requires cfg.s > 0 && Room(k, cfg)
    ensures Reachable(w, cfg) && AllLost(w, k, cfg.s)
  {
    if k == 0 {
      w := Initial(cfg.s);
      assert Run(w, [], cfg) == Some(w);
    } else {
      var before := LoseAll(k - 1, cfg);
      var sent := SendNext(before, k - 1, cfg);
      w := LoseAndGoOn(before, sent, k - 1, cfg);
    }
  }

  /** With `s <= n` numbers the window wraps onto itself: the first `s` packets are lost, and packet
      `s`, which carries number 0 again, is accepted in place of packet 0. */
  lemma {:induction false} Confused(cfg: Config) returns (w: World)
    requires 0 < cfg.s <= cfg.n
    ensures Reachable(w, cfg) && !(w.peer.accepted <= w.me.added)
  {
    var s := cfg.s;
    var before := LoseAll(s as int, cfg);
    var sent := SendNext(before, s as int, cfg);
    SeqPeriod(0, s);
    DecodeEncode(Data(0, Sample(s as int)));
    w := Apply(sent, Step(false, Deliver(false), 0), cfg);
    StepReaches(sent, Step(false, Deliver(false), 0), cfg);
    assert w.peer.accepted == [Sample(s as int)];
    assert w.me.added[0] == Sample(0);
  }

  /** With a single number, a packet repeated by the wire is accepted again. */
  lemma {:induction false} AcceptedTwice(cfg: Config) returns (w: World)
    requires cfg.s == 1
    ensures Reachable(w, cfg) && !(w.peer.accepted <= w.me.added)
  {
    var w0 := Initial(1);
    assert Run(w0, [], cfg) == Some(w0);
    assert AllLost(w0, 0, 1);
    var w1 := SendNext(w0, 0, cfg);
    var repeat, deliver := Step(false, Duplicate(0), 0), Step(false, Deliver(false), 0);
    var m := Encode(Data(0, Sample(0)));
    DecodeEncode(Data(0, Sample(0)));
    var w2 := Apply(w1, repeat, cfg);
    StepReaches(w1, repeat, cfg);
    assert w2.outbox == [m, m];
    var w3 := Apply(w2, deliver, cfg);
    StepReaches(w2, deliver, cfg);
    w := Apply(w3, deliver, cfg);
    StepReaches(w3, deliver, cfg);
    assert |w.peer.accepted| == 2 && |w.me.added| == 1;
  }

  /** The syncer of `e` is waiting for an ACK that is not the one of the last packet resent. */
  predicate AwaitsWrongAck(e: Endpoint, s: uint8)
    requires s > 0
  {
    e.sync.resending && e.sync.expectedAck != Pred(e.queue.top, s)
  }

  /** With the source's modulus there is a run in which that happens exactly for windows of 128
      packets and more. */
  lemma {:induction false} WrongAckExactly(n: uint8)
    requires 1 <= n < 255
    ensures (exists w :: Reachable(w, Config(n, n + 1)) && AwaitsWrongAck(w.me, n + 1)) <==> n >= 128
  {
    var cfg := Config(n, n + 1);
    if n >= 128 {
      var w := WindowResent(cfg);
    } else {
      forall w | Reachable(w, cfg)
        ensures !AwaitsWrongAck(w.me, n + 1)
      {
        if w.me.sync.resending {
          SyncerAwaitsTop(w, true, cfg);
        }
      }
    }
  }

  /** A whole window is sent, all of it is lost, and a resend begins. */
  lemma {:induction false} WindowResent(cfg: Config) returns (w: World)
    requires 128 <= cfg.n < 255 && cfg.s == cfg.n + 1
    ensures Reachable(w, cfg) && AwaitsWrongAck(w.me, cfg.s)
  {
    var k := cfg.n as int - 1;
    var before := LoseAll(k, cfg);
    var sent := SendNext(before, k, cfg);
    SeqAdd(0, cfg.n as int, cfg.s);
    w := Apply(sent, Step(true, BeginResend, 0), cfg);
    StepReaches(sent, Step(true, BeginResend, 0), cfg);
    ExpectedAckExact(cfg.n, cfg.s);
  }
}
