/** The protocol as the code runs it: 8-bit sequence numbers modulo `s`, byte strings on the wires
    (gbn/gbn_conn.go, gbn/queue.go, gbn/syncer.go, gbn/timeout_manager.go). */
module Protocol {
  import opened Common
  import opened Messages
  import opened SequenceNumbers
  import opened SendQueue
  import opened Network

  /** Window size and modulus; the source always uses `s = n + 1`. */
  datatype Config = Config(n: uint8, s: uint8)

  /** The sending goroutine. `window` and `out` record, for one resend, the packets that were
      unacknowledged when it began and what it has sent so far. */
  datatype Pc =
    | Idle(ready: bool)
    | Fresh(packet: Message)
    | Resending(cursor: uint8, stop: uint8, ready: bool, window: seq<Body>, out: seq<Message>)

  /** One `GoBackNConn`. `times` is the timeout manager's map of send times. The last three fields
      are history: the packets handed to the layer above (pings included), the packets added to the
      send queue, and the times at which each of those was transmitted. */
  datatype Endpoint = Endpoint(
    queue: Window,
    sync: Sync,
    times: map<uint8, int>,
    pc: Pc,
    recvSeq: uint8,
    accepted: seq<Body>,
    added: seq<Body>,
    sentAt: seq<seq<int>>)

  type World = State<Endpoint, Bytes>

  function InitialEndpoint(s: uint8): Endpoint {
    Endpoint(EmptyWindow(s), Sync(false, 0, 0), map[], Idle(true), 0, [], [], [])
  }

  function Initial(s: uint8): World { State(InitialEndpoint(s), InitialEndpoint(s), [], []) }

  predicate EndpointOk(e: Endpoint, s: uint8) {
    && WindowOk(e.queue, s)
    && e.recvSeq < s
    && (e.pc.Resending? ==> e.pc.cursor < s && e.pc.stop < s)
  }

  /** The packets not yet acknowledged, oldest first. */
  function Unacked(e: Endpoint, s: uint8): seq<Body>
    requires EndpointOk(e, s)
  {
    var k := Size(e.queue.base, e.queue.top, s) as int;
    if k <= |e.added| then e.added[|e.added| - k..] else []
  }

  /** Record a transmission of packet `i`. */
  function Stamp(sentAt: seq<seq<int>>, i: int, now: int): seq<seq<int>> {
    if 0 <= i < |sentAt| then sentAt[i := sentAt[i] + [now]] else sentAt
  }

  predicate CanAct(w: World, a: Action, cfg: Config) {
    EndpointOk(w.me, cfg.s) &&
    match a
    case Add(_) => w.me.pc == Idle(true)
    case Transmit => w.me.pc.Fresh? && w.me.pc.packet.Data?
    case Check => w.me.pc == Idle(false) && Size(w.me.queue.base, w.me.queue.top, cfg.s) < cfg.n
    case BeginResend => w.me.pc.Idle? && Size(w.me.queue.base, w.me.queue.top, cfg.s) != 0
    case ResendOne =>
      && w.me.pc.Resending? && w.me.pc.cursor != w.me.pc.stop
      && w.me.queue.slots[w.me.pc.cursor].Some? && w.me.queue.slots[w.me.pc.cursor].value.Data?
    case EndResend => w.me.pc.Resending? && w.me.pc.cursor == w.me.pc.stop
    case SyncTimer => true
    case Control(m) => m.IsControl()
    case Deliver(_) =>
      |w.inbox| > 0 && Decode(w.inbox[0]).Some? && !Decode(w.inbox[0]).value.IsControl()
    case Drop(i) => i < |w.inbox|
    case Duplicate(i) => i < |w.inbox|
  }

  function Act(w: World, a: Action, now: int, cfg: Config): World
    requires CanAct(w, a, cfg)
  {
    var e := w.me;
    match a
    case Add(body) => w.(me := OnAdd(e, body, cfg.s))
    case Transmit => w.(me := OnTransmit(e, now), outbox := w.outbox + [Encode(e.pc.packet)])
    case Check => w.(me := e.(pc := Idle(true)))
    case BeginResend => w.(me := OnBeginResend(e, cfg.s))
    case ResendOne =>
      w.(me := OnResend(e, now, cfg.s), outbox := w.outbox + [Encode(e.queue.slots[e.pc.cursor].value)])
    case EndResend => w.(me := OnEndResend(e))
    case SyncTimer => w.(me := e.(sync := e.sync.(resending := false)))
    case Control(m) => w.(outbox := w.outbox + [Encode(m)])
    case Deliver(mute) =>
      var m := Decode(w.inbox[0]).value;
      w.(me := Handle(e, m, cfg), inbox := w.inbox[1..], outbox := w.outbox + Reply(e, m, mute))
    case Drop(i) => w.(inbox := Without(w.inbox, i))
    case Duplicate(i) => w.(inbox := Twice(w.inbox, i))
  }

  /** A packet enters the queue. */
  function OnAdd(e: Endpoint, body: Body, s: uint8): Endpoint
    requires EndpointOk(e, s)
  {
    e.(queue := Added(e.queue, body, s), pc := Fresh(Data(e.queue.top, body)),
       added := e.added + [body], sentAt := e.sentAt + [[]])
  }

  /** The packet just added goes out. */
  function OnTransmit(e: Endpoint, now: int): Endpoint
    requires e.pc.Fresh? && e.pc.packet.Data?
  {
    e.(pc := Idle(false), times := e.times[e.pc.packet.num := now],
       sentAt := Stamp(e.sentAt, |e.added| - 1, now))
  }

  /** Base and top are remembered, and the syncer waits for the answers to this resend. */
  function OnBeginResend(e: Endpoint, s: uint8): Endpoint
    requires EndpointOk(e, s) && e.pc.Idle?
  {
    e.(pc := Resending(e.queue.base, e.queue.top, e.pc.ready, Unacked(e, s), []), sync := SyncStarted(e.queue.top, s))
  }

  /** Synced, or timed out. */
  function OnEndResend(e: Endpoint): Endpoint
    requires e.pc.Resending?
  {
    e.(pc := Idle(e.pc.ready), sync := e.sync.(resending := false))
  }

  /** The packet under the cursor goes out again; its send time is forgotten. */
  function OnResend(e: Endpoint, now: int, s: uint8): Endpoint
    requires EndpointOk(e, s) && e.pc.Resending?
    requires e.queue.slots[e.pc.cursor].Some? && e.queue.slots[e.pc.cursor].value.Data?
  {
    var packet := e.queue.slots[e.pc.cursor].value;
    e.(pc := e.pc.(cursor := Next(e.pc.cursor, s), out := e.pc.out + [packet]),
       times := e.times - {packet.num},
       sentAt := Stamp(e.sentAt, |e.added| - Size(e.pc.cursor, e.queue.top, s) as int, now))
  }

  /** What receiving `m` does to an endpoint. */
  function Handle(e: Endpoint, m: Message, cfg: Config): Endpoint
    requires EndpointOk(e, cfg.s)
  {
    match m
    case Data(num, body) =>
      if num == e.recvSeq then e.(recvSeq := Next(e.recvSeq, cfg.s), accepted := e.accepted + [body]) else e
    case Ack(num) => e.(times := e.times - {num}, queue := Acked(e.queue, num, cfg.s))
    case Nack(num) => e.(sync := SyncNacked(e.sync, num), queue := Nacked(e.queue, num))
    case _ => e
  }

  /** What is sent back: an ACK for the expected packet, else a NACK unless one was sent recently. */
  function Reply(e: Endpoint, m: Message, mute: bool): seq<Bytes> {
    match m
    case Data(num, body) =>
      if num == e.recvSeq then [Encode(Ack(num))]
      else if mute then []
      else [Encode(Nack(e.recvSeq))]
    case _ => []
  }

  /** The round-trip time that the timeout manager measures when `m` arrives. */
  function RttSample(e: Endpoint, m: Message, now: int): Option<int> {
    if m.Ack? && m.num in e.times then Some(now - e.times[m.num]) else None
  }

  predicate CanStep(w: World, st: Step, cfg: Config) {
    CanAct(if st.left then w else w.Swap(), st.action, cfg)
  }

  function Apply(w: World, st: Step, cfg: Config): World
    requires CanStep(w, st, cfg)
  {
    if st.left then Act(w, st.action, st.now, cfg) else Act(w.Swap(), st.action, st.now, cfg).Swap()
  }

  /** The state a schedule leads to; `None` when some step of it is not possible. */
  function Run(w: World, steps: seq<Step>, cfg: Config): Option<World>
    decreases |steps|
  {
    if steps == [] then Some(w)
    else if !CanStep(w, steps[0], cfg) then None
    else Run(Apply(w, steps[0], cfg), steps[1..], cfg)
  }
}
