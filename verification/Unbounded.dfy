/** The protocol with unbounded sequence numbers: every message names the absolute index it is
    about, so nothing can be confused. This is the reference that the real protocol is compared
    with; its invariant is what makes `s` numbers enough. */
module Unbounded {
  import opened Common
  import opened Messages
  import opened Network

  /** `Seg(j)` is packet `j`; `Accept(v)` and `Reject(v)` answer a packet that was, or was not, the
      expected one, and carry the index `v` expected next. `Other` is a control message. */
  datatype Msg = Seg(j: nat) | Accept(v: nat) | Reject(v: nat) | Other {
    predicate IsReply() { Accept? || Reject? }
  }

  /** Where the sending goroutine is: waiting for work (`ready`) or for room, about to send the
      newest packet, or resending the packets from `start` up to `stop`. */
  datatype Pc = Idle(ready: bool) | Fresh | Resending(start: nat, cursor: nat, stop: nat, ready: bool)

  /** `log` is every packet ever added, `base` the first unacknowledged one, `next` the index the
      receiving goroutine expects. */
  datatype Endpoint = Endpoint(log: seq<Body>, base: nat, pc: Pc, next: nat)

  type World = State<Endpoint, Msg>

  const INITIAL: World := State(Endpoint([], 0, Idle(true), 0), Endpoint([], 0, Idle(true), 0), [], [])

  predicate CanAct(w: World, a: Action, n: nat) {
    match a
    case Add(_) => w.me.pc == Idle(true)
    case Transmit => w.me.pc.Fresh? && |w.me.log| > 0
    case Check => w.me.pc == Idle(false) && |w.me.log| - w.me.base < n
    case BeginResend => w.me.pc.Idle? && w.me.base < |w.me.log|
    case ResendOne => w.me.pc.Resending? && w.me.pc.cursor != w.me.pc.stop
    case EndResend => w.me.pc.Resending? && w.me.pc.cursor == w.me.pc.stop
    case SyncTimer => true
    case Control(m) => m.IsControl()
    case Deliver(_) => |w.inbox| > 0 && !w.inbox[0].Other?
    case Drop(i) => i < |w.inbox|
    case Duplicate(i) => i < |w.inbox|
  }

  function Act(w: World, a: Action, n: nat): World
    requires CanAct(w, a, n)
  {
    match a
    case Add(body) => w.(me := w.me.(log := w.me.log + [body], pc := Fresh))
    case Transmit => w.(me := w.me.(pc := Idle(false)), outbox := w.outbox + [Seg(|w.me.log| - 1)])
    case Check => w.(me := w.me.(pc := Idle(true)))
    case BeginResend => w.(me := w.me.(pc := Resending(w.me.base, w.me.base, |w.me.log|, w.me.pc.ready)))
    case ResendOne =>
      w.(me := w.me.(pc := w.me.pc.(cursor := w.me.pc.cursor + 1)),
         outbox := w.outbox + [Seg(w.me.pc.cursor)])
    case EndResend => w.(me := w.me.(pc := Idle(w.me.pc.ready)))
    case SyncTimer => w
    case Control(_) => w.(outbox := w.outbox + [Other])
    case Deliver(mute) => Receive(w.(inbox := w.inbox[1..]), w.inbox[0], mute)
    case Drop(i) => w.(inbox := Without(w.inbox, i))
    case Duplicate(i) => w.(inbox := Twice(w.inbox, i))
  }

  function Receive(w: World, m: Msg, mute: bool): World {
    match m
    case Seg(j) =>
      if j == w.me.next then
        w.(me := w.me.(next := j + 1), outbox := w.outbox + [Accept(j + 1)])
      else if mute then w
      else w.(outbox := w.outbox + [Reject(w.me.next)])
    case Accept(v) => w.(me := w.me.(base := if v > w.me.base then v else w.me.base))
    case Reject(v) => w.(me := w.me.(base := if v > w.me.base then v else w.me.base))
    case Other => w
  }

  predicate CanStep(w: World, st: Step, n: nat) {
    CanAct(if st.left then w else w.Swap(), st.action, n)
  }

  function Apply(w: World, st: Step, n: nat): World
    requires CanStep(w, st, n)
  {
    if st.left then Act(w, st.action, n) else Act(w.Swap(), st.action, n).Swap()
  }

  /** The state a schedule leads to; `None` when some step of it is not possible. */
  function Run(w: World, steps: seq<Step>, n: nat): Option<World>
    decreases |steps|
  {
    if steps == [] then Some(w)
    else if !CanStep(w, steps[0], n) then None
    else Run(Apply(w, steps[0], n), steps[1..], n)
  }

  // -------------------------------------------------------------------------
  // The invariant of one direction of the connection

  /** How many of the sender's packets have been transmitted at least once. */
  function Sent(e: Endpoint): int { if e.pc.Fresh? then |e.log| - 1 else |e.log| }

  /** The sending goroutine: a new packet is only taken when it fits the window, and the packets
      being resent are still those of a single window. */
  predicate PcOk(e: Endpoint, n: nat) {
    match e.pc
    case Idle(ready) => ready ==> |e.log| < e.base + n
    case Fresh => |e.log| > 0
    case Resending(start, cursor, stop, ready) =>
      start <= cursor <= stop == |e.log| <= start + n && (ready ==> |e.log| < e.base + n)
  }

  /** A data packet in flight is at most `n` behind what the receiver expects, now and after
      everything ahead of it has been received. */
  predicate ForwardOk(wire: seq<Msg>, sent: int, next: nat, n: nat) {
    (forall i :: 0 <= i < |wire| && wire[i].Seg? ==> wire[i].j < sent && next <= wire[i].j + n) &&
    (forall i, k :: 0 <= i < k < |wire| && wire[i].Seg? && wire[k].Seg? ==> wire[i].j < wire[k].j + n)
  }

  /** Replies in flight lie between the sender's base and what the receiver expects, and never step
      back. */
  predicate BackwardOk(wire: seq<Msg>, base: nat, next: nat) {
    (forall i :: 0 <= i < |wire| && wire[i].IsReply() ==>
      base <= wire[i].v <= next && (wire[i].Accept? ==> wire[i].v >= 1)) &&
    (forall i, k :: 0 <= i < k < |wire| && wire[i].IsReply() && wire[k].IsReply() ==> wire[i].v <= wire[k].v)
  }

  /** `snd` sends to the endpoint that expects `next`, over `there`; replies come `back`. */
  predicate FlowOk(snd: Endpoint, next: nat, there: seq<Msg>, back: seq<Msg>, n: nat) {
    && snd.base <= next <= Sent(snd)
    && |snd.log| <= snd.base + n
    && PcOk(snd, n)
    && ForwardOk(there, Sent(snd), next, n)
    && BackwardOk(back, snd.base, next)
  }

  predicate Inv(w: World, n: nat) {
    FlowOk(w.me, w.peer.next, w.outbox, w.inbox, n) && FlowOk(w.peer, w.me.next, w.inbox, w.outbox, n)
  }

  // -------------------------------------------------------------------------
  // Every step keeps it

  lemma {:induction false} PushKeepsForward(wire: seq<Msg>, m: Msg, sent: int, next: nat, n: nat)
    requires ForwardOk(wire, sent, next, n)
    requires m.Seg? ==> m.j < sent && sent <= m.j + n && next <= sent
    ensures ForwardOk(wire + [m], sent, next, n)
  {
  }

  lemma {:induction false} SendLaterKeepsForward(wire: seq<Msg>, sent: int, sent': int, next: nat, n: nat)
    requires ForwardOk(wire, sent, next, n) && sent <= sent'
    ensures ForwardOk(wire, sent', next, n)
  {
  }

  lemma {:induction false} PopKeepsForward(wire: seq<Msg>, sent: int, next: nat, n: nat)
    requires ForwardOk(wire, sent, next, n) && |wire| > 0
    ensures ForwardOk(wire[1..], sent, next, n) && (wire[0].Seg? ==> wire[0].j < sent)
    ensures wire[0].Seg? && wire[0].j == next ==> ForwardOk(wire[1..], sent, next + 1, n)
  {
    if wire[0].Seg? && wire[0].j == next {
      forall i | 0 <= i < |wire[1..]| && wire[1..][i].Seg?
        ensures next + 1 <= wire[1..][i].j + n
      {
        assert wire[1..][i] == wire[i + 1];
      }
    }
  }

  lemma {:induction false} LossKeepsForward(wire: seq<Msg>, i: nat, sent: int, next: nat, n: nat)
    requires ForwardOk(wire, sent, next, n) && i < |wire| && n >= 1
    ensures ForwardOk(Without(wire, i), sent, next, n) && ForwardOk(Twice(wire, i), sent, next, n)
  {
  }

  lemma {:induction false} PushKeepsBackward(wire: seq<Msg>, m: Msg, base: nat, next: nat)
    requires BackwardOk(wire, base, next)
    requires m.IsReply() ==> base <= m.v == next && (m.Accept? ==> m.v >= 1)
    ensures BackwardOk(wire + [m], base, next)
  {
  }

  lemma {:induction false} ExpectMoreKeepsBackward(wire: seq<Msg>, base: nat, next: nat, next': nat)
    requires BackwardOk(wire, base, next) && next <= next'
    ensures BackwardOk(wire, base, next')
  {
  }

  lemma {:induction false} PopKeepsBackward(wire: seq<Msg>, base: nat, next: nat)
    requires BackwardOk(wire, base, next) && |wire| > 0
    ensures BackwardOk(wire[1..], base, next) && (wire[0].IsReply() ==> base <= wire[0].v <= next)
    ensures wire[0].IsReply() ==> BackwardOk(wire[1..], wire[0].v, next)
  {
    if wire[0].IsReply() {
      forall i | 0 <= i < |wire[1..]| && wire[1..][i].IsReply()
        ensures wire[0].v <= wire[1..][i].v
      {
        assert wire[1..][i] == wire[i + 1];
      }
    }
  }

  lemma {:induction false} LossKeepsBackward(wire: seq<Msg>, i: nat, base: nat, next: nat)
    requires BackwardOk(wire, base, next) && i < |wire|
    ensures BackwardOk(Without(wire, i), base, next) && BackwardOk(Twice(wire, i), base, next)
  {
  }

  lemma {:induction false} SwapKeeps(w: World, n: nat)
    ensures Inv(w, n) <==> Inv(w.Swap(), n)
  {
  }

  /** The steps of the sending goroutine. */
  lemma {:induction false} SendingKeeps(w: World, a: Action, n: nat)
    requires n >= 1 && Inv(w, n) && CanAct(w, a, n)
    requires !a.Deliver? && !a.Drop? && !a.Duplicate?
    ensures Inv(Act(w, a, n), n)
  {
    var w' := Act(w, a, n);
    var next := w.peer.next;
    match a
    case Add(body) =>
      SendLaterKeepsForward(w.outbox, Sent(w.me), Sent(w'.me), next, n);
    case Transmit =>
      SendLaterKeepsForward(w.outbox, Sent(w.me), Sent(w'.me), next, n);
      PushKeepsForward(w.outbox, Seg(|w.me.log| - 1), Sent(w'.me), next, n);
      PushKeepsBackward(w.outbox, Seg(|w.me.log| - 1), w.peer.base, w.me.next);
    case ResendOne =>
      PushKeepsForward(w.outbox, Seg(w.me.pc.cursor), Sent(w'.me), next, n);
      PushKeepsBackward(w.outbox, Seg(w.me.pc.cursor), w.peer.base, w.me.next);
    case Control(_) =>
      PushKeepsForward(w.outbox, Other, Sent(w.me), next, n);
      PushKeepsBackward(w.outbox, Other, w.peer.base, w.me.next);
    case Check =>
    case BeginResend =>
    case EndResend =>
    case SyncTimer =>
  }

  /** Losing or repeating a message. */
  lemma {:induction false} WireKeeps(w: World, a: Action, n: nat)
    requires n >= 1 && Inv(w, n) && CanAct(w, a, n) && (a.Drop? || a.Duplicate?)
    ensures Inv(Act(w, a, n), n)
  {
    LossKeepsForward(w.inbox, a.i, Sent(w.peer), w.me.next, n);
    LossKeepsBackward(w.inbox, a.i, w.me.base, w.peer.next);
  }

  /** The step of the receiving goroutine. */
  lemma {:induction false} DeliverKeeps(w: World, mute: bool, n: nat)
    requires n >= 1 && Inv(w, n) && CanAct(w, Deliver(mute), n)
    ensures Inv(Act(w, Deliver(mute), n), n)
  {
    if w.inbox[0].IsReply() {
      PopKeepsForward(w.inbox, Sent(w.peer), w.me.next, n);
      PopKeepsBackward(w.inbox, w.me.base, w.peer.next);
    } else if w.inbox[0].j == w.me.next {
      AcceptKeeps(w, mute, n);
    } else {
      RejectKeeps(w, mute, n);
    }
  }

  lemma {:induction false} AcceptKeeps(w: World, mute: bool, n: nat)
    requires Inv(w, n) && CanAct(w, Deliver(mute), n) && w.inbox[0] == Seg(w.me.next)
    ensures Inv(Act(w, Deliver(mute), n), n)
  {
    hide ForwardOk, BackwardOk;
    var j := w.me.next;
    PopKeepsForward(w.inbox, Sent(w.peer), j, n);
    PopKeepsBackward(w.inbox, w.me.base, w.peer.next);
    ExpectMoreKeepsBackward(w.outbox, w.peer.base, j, j + 1);
    PushKeepsBackward(w.outbox, Accept(j + 1), w.peer.base, j + 1);
    PushKeepsForward(w.outbox, Accept(j + 1), Sent(w.me), w.peer.next, n);
  }

  lemma {:induction false} RejectKeeps(w: World, mute: bool, n: nat)
    requires Inv(w, n) && CanAct(w, Deliver(mute), n) && w.inbox[0].Seg? && w.inbox[0].j != w.me.next
    ensures Inv(Act(w, Deliver(mute), n), n)
  {
    hide ForwardOk, BackwardOk;
    PopKeepsForward(w.inbox, Sent(w.peer), w.me.next, n);
    PopKeepsBackward(w.inbox, w.me.base, w.peer.next);
    PushKeepsBackward(w.outbox, Reject(w.me.next), w.peer.base, w.me.next);
    PushKeepsForward(w.outbox, Reject(w.me.next), Sent(w.me), w.peer.next, n);
  }

  lemma {:induction false} ActKeeps(w: World, a: Action, n: nat)
    requires n >= 1 && Inv(w, n) && CanAct(w, a, n)
    ensures Inv(Act(w, a, n), n)
  {
    match a
    case Deliver(mute) => DeliverKeeps(w, mute, n);
    case Drop(_) => WireKeeps(w, a, n);
    case Duplicate(_) => WireKeeps(w, a, n);
    case _ => SendingKeeps(w, a, n);
  }

  /** Every step of either endpoint keeps the invariant of both directions. */
  lemma {:induction false} StepKeeps(w: World, st: Step, n: nat)
    requires n >= 1 && Inv(w, n) && CanStep(w, st, n)
    ensures Inv(Apply(w, st, n), n)
  {
    if st.left {
      ActKeeps(w, st.action, n);
    } else {
      SwapKeeps(w, n);
      ActKeeps(w.Swap(), st.action, n);
      SwapKeeps(Act(w.Swap(), st.action, n), n);
    }
  }

  lemma {:induction false} RunKeeps(w: World, steps: seq<Step>, n: nat)
    requires n >= 1 && Inv(w, n) && Run(w, steps, n).Some?
    ensures Inv(Run(w, steps, n).value, n)
    decreases |steps|
  {
    if steps != [] {
      StepKeeps(w, steps[0], n);
      RunKeeps(Apply(w, steps[0], n), steps[1..], n);
    }
  }
}
