/** Two endpoints joined by two wires, and the schedules that drive them.

    Each endpoint runs two goroutines: one sends new packets and resends old ones
    (sendPacketsForever), the other handles one incoming message at a time
    (receivePacketsForever). A wire keeps the order of its messages but may lose, delay and
    duplicate them in place. Timers and Go channel signals only decide when a step happens, so
    they are left to the schedule. */
module Network {
  import opened Messages

  /** The system seen from one endpoint. */
  datatype State<E, M> = State(me: E, peer: E, inbox: seq<M>, outbox: seq<M>) {
    /** The same system seen from the other endpoint. */
    function Swap(): State<E, M> { State(peer, me, outbox, inbox) }

    /** The system seen from the left or from the right endpoint. */
    function From(left: bool): State<E, M> { if left then this else Swap() }
  }

  datatype Action =
    | Add(body: Body)         // take a packet (or a ping) and put it into the send queue
    | Transmit                // send the packet just added
    | Check                   // the queue has room again
    | BeginResend             // snapshot base and top
    | ResendOne               // resend one packet of the snapshot
    | EndResend               // the resend is over: synced or timed out
    | SyncTimer               // a timer of the syncer resets it
    | Control(m: Message)     // send a SYN, SYNACK or FIN
    | Deliver(mute: bool)     // handle the next message; mute: a NACK was sent too recently
    | Drop(i: nat)            // the wire loses an incoming message
    | Duplicate(i: nat)       // the wire repeats an incoming message

  /** `left` says whose step it is, `now` is the time on that endpoint's clock. */
  datatype Step = Step(left: bool, action: Action, now: int)

  /** The left endpoint sends the `k` packets left of a resend and finishes it. */
  function FinishSteps(k: nat, now: int): seq<Step> {
    if k == 0 then [Step(true, EndResend, now)] else [Step(true, ResendOne, now)] + FinishSteps(k - 1, now)
  }
}
