/** The opening handshake, and the data transfer that follows it (gbn/gbn_client.go,
    gbn/gbn_server.go). The client is the left endpoint, the server the right one. */
module Opening {
  import opened Common
  import opened Messages
  import opened SequenceNumbers
  import opened Network
  import opened Protocol
  import opened Simulation
  import opened Guarantees

  datatype ClientPhase = Dialing | Open | ClientFailed
  datatype ServerPhase = AwaitSyn | AwaitSynAck | Serving | ServerFailed

  /** `resent` and `serverN` are the server's local variables; `net` is the two connections and the
      wires between them. */
  datatype Handshake = Handshake(
    client: ClientPhase, server: ServerPhase, resent: bool, serverN: uint8, net: World)

  datatype Event =
    | SendSyn                          // the client starts, or starts over after a timeout
    | ClientReads                      // the client reads the next message
    | ServerReads                      // the server reads the next message
    | ServerTimeout                    // no SYNACK came
    | Lose(left: bool, i: nat)         // a wire loses a message
    | Repeat(left: bool, i: nat)       // a wire repeats a message
    | Transfer(step: Step)             // a connection that is open does a step of the protocol

  /** `n + 1` on a byte. */
  function Modulus(n: uint8): uint8 { if n == 255 then 0 else n + 1 }

  function Start(n: uint8): Handshake {
    Handshake(Dialing, AwaitSyn, false, 0, Initial(Modulus(n)))
  }

  predicate CanHappen(h: Handshake, ev: Event, n: uint8) {
    match ev
    case SendSyn => h.client.Dialing?
    case ClientReads => h.client.Dialing? && |h.net.inbox| > 0
    case ServerReads => (h.server.AwaitSyn? || h.server.AwaitSynAck?) && |h.net.outbox| > 0
    case ServerTimeout => h.server.AwaitSynAck?
    case Lose(left, i) => i < |if left then h.net.inbox else h.net.outbox|
    case Repeat(left, i) => i < |if left then h.net.inbox else h.net.outbox|
    case Transfer(st) =>
      && !st.action.Control? && !st.action.Drop? && !st.action.Duplicate?
      && (if st.left then h.client.Open? else h.server.Serving?)
      && CanStep(h.net, st, if st.left then Config(n, Modulus(n)) else Config(h.serverN, Modulus(h.serverN)))
  }

  function Happen(h: Handshake, ev: Event, n: uint8): Handshake
    requires CanHappen(h, ev, n)
  {
    match ev
    case SendSyn => Dials(h, n)
    case ClientReads =>
      ClientGot(h.(net := h.net.(inbox := Without(h.net.inbox, 0))), Decode(h.net.inbox[0]), n)
    case ServerReads =>
      ServerGot(h.(net := h.net.(outbox := Without(h.net.outbox, 0))), Decode(h.net.outbox[0]))
    case ServerTimeout => StartsOver(h)
    case Lose(left, i) =>
      h.(net := if left then h.net.(inbox := Without(h.net.inbox, i))
                else h.net.(outbox := Without(h.net.outbox, i)))
    case Repeat(left, i) =>
      h.(net := if left then h.net.(inbox := Twice(h.net.inbox, i))
                else h.net.(outbox := Twice(h.net.outbox, i)))
    case Transfer(st) =>
      h.(net := Apply(h.net, st, if st.left then Config(n, Modulus(n)) else Config(h.serverN, Modulus(h.serverN))))
  }

  function Dials(h: Handshake, n: uint8): Handshake {
    h.(net := h.net.(outbox := h.net.outbox + [Encode(Syn(n))]))
  }

  function StartsOver(h: Handshake): Handshake { h.(resent := true, server := AwaitSyn) }

  /** Anything but a SYN is taken for a leftover of an earlier connection. */
  function ClientGot(h: Handshake, m: Option<Message>, n: uint8): Handshake {
    match m
    case None => h.(client := ClientFailed)
    case Some(Syn(k)) =>
      if k != n then h.(client := ClientFailed)
      else h.(client := Open, net := h.net.(outbox := h.net.outbox + [Encode(SynAck)]))
    case Some(_) => h
  }

  function ServerGot(h: Handshake, m: Option<Message>): Handshake {
    match m
    case None => h.(server := ServerFailed)
    case Some(Syn(k)) =>
      h.(server := AwaitSynAck, resent := h.resent || h.server.AwaitSynAck?, serverN := k,
         net := h.net.(inbox := h.net.inbox + [Encode(Syn(k))]))
    case Some(m) =>
      if h.server.AwaitSynAck? then
        if m.SynAck? then Completed(h) else h.(server := ServerFailed)
      else if (m.SynAck? || m.Data?) && h.resent then Completed(h)
      else h
  }

  /** `setN`: the server's queue is made anew for the client's window. */
  function Completed(h: Handshake): Handshake {
    h.(server := Serving, net := h.net.(peer := InitialEndpoint(Modulus(h.serverN))))
  }

  // -------------------------------------------------------------------------
  // The two handshake functions

  /** What a waiting handshake gets: a message, or nothing in time. */
  datatype Incoming = Packet(b: Bytes) | Timeout

  /** The server's part in a series of events. */
  function ServerAfter(h: Handshake, script: seq<Incoming>): Handshake
    decreases |script|
  {
    if script == [] || h.server.Serving? || h.server.ServerFailed? then h
    else
      match script[0]
      case Timeout =>
        ServerAfter(if h.server.AwaitSynAck? then StartsOver(h) else h, script[1..])
      case Packet(b) => ServerAfter(ServerGot(h, Decode(b)), script[1..])
  }

  /** The client's part, once it has sent its first SYN. */
  function ClientAfter(h: Handshake, script: seq<Incoming>, n: uint8): Handshake
    decreases |script|
  {
    if script == [] || !h.client.Dialing? then h
    else
      match script[0]
      case Timeout => ClientAfter(Dials(h, n), script[1..], n)
      case Packet(b) => ClientAfter(ClientGot(h, Decode(b), n), script[1..], n)
  }

  /** `h` while the server is in its loop: it has sent `sent` so far. */
  function ServerAt(h: Handshake, phase: ServerPhase, n: uint8, resent: bool, sent: seq<Bytes>): Handshake {
    h.(server := phase, serverN := n, resent := resent, net := h.net.(inbox := h.net.inbox + sent))
  }

  /** `serverHandshake` on the messages and timeouts in `script`. The result tells where it stands
      when they are used up or it has ended, and what it has sent. */
  method ServerHandshake(script: seq<Incoming>, ghost h: Handshake)
    returns (phase: ServerPhase, n: uint8, resent: bool, sent: seq<Bytes>)
    requires h.server.AwaitSyn? && h.serverN == 0 && !h.resent
    ensures var done := ServerAt(h, phase, n, resent, sent);
            ServerAfter(h, script) == (if phase.Serving? then Completed(done) else done)
  {
    hide Encode, Decode, InitialEndpoint;
    n, resent, sent := 0, false, [];
    var i := 0;
    assert script[0..] == script && h.net.inbox + [] == h.net.inbox;
    while i < |script|
      invariant 0 <= i <= |script|
      invariant ServerAfter(h, script) == ServerAfter(ServerAt(h, AwaitSyn, n, resent, sent), script[i..])
    {
      var incoming := script[i];
      assert script[i..][1..] == script[i + 1..];
      i := i + 1;
      if incoming.Timeout? { continue; }
      var msg := Decode(incoming.b);
      if msg == None { return ServerFailed, n, resent, sent; }
      if msg.value.SynAck? || msg.value.Data? {
        if resent { return Serving, n, resent, sent; }
        continue;
      }
      if !msg.value.Syn? { continue; }
      var again := true;
      n := msg.value.n;
      Assoc(h.net.inbox, sent, [Encode(Syn(n))]);
      while again
        invariant 0 <= i <= |script|
        invariant var syn := [Encode(Syn(n))];
                  ServerAfter(h, script) ==
                  (if again then ServerAfter(ServerAt(h, AwaitSynAck, n, resent, sent + syn), script[i..])
                   else ServerAfter(ServerAt(h, AwaitSyn, n, resent, sent), script[i..]))
        decreases |script| - i, again
      {
        var b := Serialize(Syn(n));
        sent := sent + [b];
        if i == |script| { return AwaitSynAck, n, resent, sent; }
        incoming := script[i];
        assert script[i..][1..] == script[i + 1..];
        i := i + 1;
        if incoming.Timeout? {
          resent, again := true, false;
        } else {
          msg := Decode(incoming.b);
          if msg == None { return ServerFailed, n, resent, sent; }
          if msg.value.SynAck? { return Serving, n, resent, sent; }
          if !msg.value.Syn? { return ServerFailed, n, resent, sent; }
          resent, n := true, msg.value.n;
          Assoc(h.net.inbox, sent, [Encode(Syn(n))]);
        }
      }
    }
    phase := AwaitSyn;
  }

  /** `clientHandshake` on the messages and timeouts in `script`. */
  method ClientHandshake(n: uint8, script: seq<Incoming>, ghost h: Handshake)
    returns (phase: ClientPhase, sent: seq<Bytes>)
    requires h.client.Dialing?
    ensures ClientAfter(Dials(h, n), script, n) ==
            h.(client := phase, net := h.net.(outbox := h.net.outbox + sent))
  {
    var syn := Serialize(Syn(n));
    sent := [syn];
    var i := 0;
    assert script[0..] == script;
    while i < |script|
      invariant 0 <= i <= |script|
      invariant ClientAfter(Dials(h, n), script, n) ==
                ClientAfter(h.(net := h.net.(outbox := h.net.outbox + sent)), script[i..], n)
    {
      var incoming := script[i];
      assert script[i..][1..] == script[i + 1..];
      i := i + 1;
      if incoming.Timeout? {
        syn := Serialize(Syn(n));
        Assoc(h.net.outbox, sent, [syn]);
        sent := sent + [syn];
      } else {
        var resp := Decode(incoming.b);
        if resp == None { return ClientFailed, sent; }
        if resp.value.Syn? {
          if resp.value.n != n { return ClientFailed, sent; }
          var synack := Serialize(SynAck);
          Assoc(h.net.outbox, sent, [synack]);
          return Open, sent + [synack];
        }
      }
    }
    phase := Dialing;
  }

  // -------------------------------------------------------------------------
  // Both of them together

  function History(h: Handshake, evs: seq<Event>, n: uint8): Option<Handshake>
    decreases |evs|
  {
    if evs == [] then Some(h)
    else if !CanHappen(h, evs[0], n) then None
    else History(Happen(h, evs[0], n), evs[1..], n)
  }

  /** The messages in a script. */
  function Arriving(script: seq<Incoming>): seq<Bytes> {
    if script == [] then []
    else (if script[0].Packet? then [script[0].b] else []) + Arriving(script[1..])
  }

  /** The events of the server that a script stands for. */
  function ServerEvents(h: Handshake, script: seq<Incoming>): seq<Event>
    decreases |script|
  {
    if script == [] || h.server.Serving? || h.server.ServerFailed? then []
    else
      match script[0]
      case Timeout =>
        if h.server.AwaitSynAck? then [ServerTimeout] + ServerEvents(StartsOver(h), script[1..])
        else ServerEvents(h, script[1..])
      case Packet(b) => [ServerReads] + ServerEvents(ServerGot(h, Decode(b)), script[1..])
  }

  function ToServer(h: Handshake, wire: seq<Bytes>): Handshake { h.(net := h.net.(outbox := wire)) }

  /** The server's handshake, on the messages on its wire, is what it does in the history. */
  lemma {:induction false} ServerInHistory(h: Handshake, script: seq<Incoming>, n: uint8) returns (left: seq<Bytes>)
    ensures History(ToServer(h, Arriving(script)), ServerEvents(h, script), n) ==
            Some(ToServer(ServerAfter(h, script), left))
    decreases |script|
  {
    hide Encode, Decode, InitialEndpoint, Apply, CanStep;
    left := Arriving(script);
    if script != [] && !h.server.Serving? && !h.server.ServerFailed? {
      var h0, evs := ToServer(h, left), ServerEvents(h, script);
      if script[0].Timeout? && h.server.AwaitSyn? {
        left := ServerInHistory(h, script[1..], n);
        assert Arriving(script) == Arriving(script[1..]);
      } else if script[0].Timeout? {
        left := ServerInHistory(StartsOver(h), script[1..], n);
        assert evs[1..] == ServerEvents(StartsOver(h), script[1..]);
        assert Happen(h0, ServerTimeout, n) == ToServer(StartsOver(h), Arriving(script[1..]));
      } else {
        var h1 := ServerGot(h, Decode(script[0].b));
        left := ServerInHistory(h1, script[1..], n);
        assert evs[1..] == ServerEvents(h1, script[1..]);
        assert Without(h0.net.outbox, 0) == Arriving(script[1..]);
        assert Happen(h0, ServerReads, n) == ToServer(h1, Arriving(script[1..]));
      }
    }
  }

  function ClientEvents(h: Handshake, script: seq<Incoming>, n: uint8): seq<Event>
    decreases |script|
  {
    if script == [] || !h.client.Dialing? then []
    else
      match script[0]
      case Timeout => [SendSyn] + ClientEvents(Dials(h, n), script[1..], n)
      case Packet(b) => [ClientReads] + ClientEvents(ClientGot(h, Decode(b), n), script[1..], n)
  }

  function ToClient(h: Handshake, wire: seq<Bytes>): Handshake { h.(net := h.net.(inbox := wire)) }

  lemma {:induction false} ClientInHistory(h: Handshake, script: seq<Incoming>, n: uint8) returns (left: seq<Bytes>)
    ensures History(ToClient(h, Arriving(script)), ClientEvents(h, script, n), n) ==
            Some(ToClient(ClientAfter(h, script, n), left))
    decreases |script|
  {
    hide Encode, Decode, InitialEndpoint, Apply, CanStep;
    left := Arriving(script);
    if script != [] && h.client.Dialing? {
      var h0, evs := ToClient(h, left), ClientEvents(h, script, n);
      if script[0].Timeout? {
        left := ClientInHistory(Dials(h, n), script[1..], n);
        assert evs[1..] == ClientEvents(Dials(h, n), script[1..], n);
        assert Happen(h0, SendSyn, n) == ToClient(Dials(h, n), Arriving(script[1..]));
      } else {
        var h1 := ClientGot(h, Decode(script[0].b), n);
        left := ClientInHistory(h1, script[1..], n);
        assert evs[1..] == ClientEvents(h1, script[1..], n);
        assert Without(h0.net.inbox, 0) == Arriving(script[1..]);
        assert Happen(h0, ClientReads, n) == ToClient(h1, Arriving(script[1..]));
      }
    }
  }

  // -------------------------------------------------------------------------
  // What the two handshakes come to, for any messages and timeouts

  /** The message that an item of a script is, if it is a readable one. */
  function Got(x: Incoming): Option<Message> { if x.Packet? then Decode(x.b) else None }

  predicate IsSyn(x: Incoming) { Got(x).Some? && Got(x).value.Syn? }

  predicate Unreadable(x: Incoming) { x.Packet? && Decode(x.b) == None }

  /** The SYNs that answer, or repeat, those of a script. */
  function Echoes(script: seq<Incoming>): seq<Bytes> {
    if script == [] then []
    else Echoes(script[..|script| - 1]) +
         (if IsSyn(script[|script| - 1]) then [Encode(Syn(Got(script[|script| - 1]).value.n))] else [])
  }

  /** The window size in the last SYN. */
  function LastN(script: seq<Incoming>): uint8 {
    if script == [] then 0
    else if IsSyn(script[|script| - 1]) then Got(script[|script| - 1]).value.n
    else LastN(script[..|script| - 1])
  }

  /** The server has just answered a SYN. */
  predicate Awaiting(script: seq<Incoming>, j: nat)
    requires j <= |script|
  {
    j > 0 && IsSyn(script[j - 1])
  }

  /** Item `j` completes the server's handshake: a SYNACK right after a SYN, or a SYNACK or a DATA packet at
      any time after one. */
  predicate Completes(script: seq<Incoming>, j: nat)
    requires j < |script|
  {
    && Got(script[j]).Some?
    && if Awaiting(script, j) then Got(script[j]).value.SynAck?
       else (Got(script[j]).value.SynAck? || Got(script[j]).value.Data?) && exists i :: 0 <= i < j && IsSyn(script[i])
  }

  /** Item `j` ends it with an error: it is unreadable, or follows a SYN and is neither SYN nor SYNACK. */
  predicate Breaks(script: seq<Incoming>, j: nat)
    requires j < |script|
  {
    || Unreadable(script[j])
    || (Awaiting(script, j) && Got(script[j]).Some? && !IsSyn(script[j]) && !Got(script[j]).value.SynAck?)
  }

  /** The server after `j` items that neither complete nor end its handshake. */
  function ServerMid(h: Handshake, script: seq<Incoming>, j: nat): Handshake
    requires j <= |script|
  {
    ServerAt(h, if Awaiting(script, j) then AwaitSynAck else AwaitSyn, LastN(script[..j]),
             exists i :: 0 <= i < j - 1 && IsSyn(script[i]), Echoes(script[..j]))
  }

  /** For any messages and timeouts, the first item that completes or breaks the handshake decides: the server
      serves with the window of the last SYN before it, or has failed; it has answered each SYN with the
      same window size, in order, and sent nothing else. */
  lemma {:induction false} ServerExact(h: Handshake, script: seq<Incoming>, k: nat)
    requires h.server.AwaitSyn? && h.serverN == 0 && !h.resent && k <= |script|
    requires forall j :: 0 <= j < k ==> !Completes(script, j) && !Breaks(script, j)
    requires k < |script| ==> Completes(script, k) || Breaks(script, k)
    ensures var mid := ServerMid(h, script, k);
            ServerAfter(h, script) ==
            if k == |script| then mid
            else if Completes(script, k) then Completed(mid)
            else mid.(server := ServerFailed)
  {
    hide Decode, Encode, InitialEndpoint;
    assert script[..0] == [] && script[0..] == script && h.net.inbox + [] == h.net.inbox;
    ServerFrom(h, script, 0, k);
  }

  lemma {:induction false} ServerFrom(h: Handshake, script: seq<Incoming>, j: nat, k: nat)
    requires j <= k <= |script|
    requires forall j :: 0 <= j < k ==> !Completes(script, j) && !Breaks(script, j)
    requires k < |script| ==> Completes(script, k) || Breaks(script, k)
    ensures var mid := ServerMid(h, script, k);
            ServerAfter(ServerMid(h, script, j), script[j..]) ==
            if k == |script| then mid
            else if Completes(script, k) then Completed(mid)
            else mid.(server := ServerFailed)
    decreases k - j
  {
    hide Decode, Encode, InitialEndpoint;
    if j < |script| {
      assert script[j..][0] == script[j] && script[j..][1..] == script[j + 1..];
      if j < k {
        assert !Completes(script, j) && !Breaks(script, j);
        ServerItem(h, script, j);
        ServerFrom(h, script, j + 1, k);
      } else {
        ServerEnds(h, script, j);
      }
    }
  }

  /** One item that does not end the handshake. */
  lemma {:induction false} ServerItem(h: Handshake, script: seq<Incoming>, j: nat)
    requires j < |script| && !Completes(script, j) && !Breaks(script, j)
    ensures var mid := ServerMid(h, script, j);
            ServerMid(h, script, j + 1) ==
            if script[j].Packet? then ServerGot(mid, Decode(script[j].b))
            else if mid.server.AwaitSynAck? then StartsOver(mid) else mid
  {
    hide Decode, Encode, InitialEndpoint;
    var now := script[..j + 1];
    assert now[..j] == script[..j] && now[j] == script[j];
    if IsSyn(script[j]) {
      Assoc(h.net.inbox, Echoes(script[..j]), [Encode(Syn(Got(script[j]).value.n))]);
    } else {
      assert Echoes(now) == Echoes(script[..j]);
    }
    if exists i :: 0 <= i < j && IsSyn(script[i]) {
      var i :| 0 <= i < j && IsSyn(script[i]);
      assert i == j - 1 || i < j - 1;
    }
  }

  lemma {:induction false} ServerEnds(h: Handshake, script: seq<Incoming>, j: nat)
    requires j < |script| && (Completes(script, j) || Breaks(script, j))
    ensures var mid := ServerMid(h, script, j);
            ServerAfter(mid, script[j..]) ==
            if Completes(script, j) then Completed(mid) else mid.(server := ServerFailed)
  {
    hide Decode, Encode, InitialEndpoint, Echoes, LastN;
    var mid := ServerMid(h, script, j);
    assert script[j..][0] == script[j];
    if Completes(script, j) && !Awaiting(script, j) {
      var i :| 0 <= i < j && IsSyn(script[i]);
      assert i < j - 1;
    }
    var next := ServerGot(mid, Decode(script[j].b));
    assert next.server.Serving? || next.server.ServerFailed?;
    assert ServerAfter(next, script[j..][1..]) == next;
  }

  /** As often as the client has timed out, it has sent another SYN. */
  function Resyns(script: seq<Incoming>, n: uint8): seq<Bytes> {
    if script == [] then []
    else (if script[0].Timeout? then [Encode(Syn(n))] else []) + Resyns(script[1..], n)
  }

  /** For any messages and timeouts, the first SYN or unreadable message decides: the client is open exactly
      when it is a SYN with its own window size. It has sent one SYN for each timeout and, if open, a
      SYNACK. */
  lemma {:induction false} ClientExact(h: Handshake, script: seq<Incoming>, n: uint8, k: nat)
    requires h.client.Dialing? && k <= |script|
    requires forall j :: 0 <= j < k ==> !IsSyn(script[j]) && !Unreadable(script[j])
    requires k < |script| ==> IsSyn(script[k]) || Unreadable(script[k])
    ensures var open := k < |script| && Got(script[k]) == Some(Syn(n));
            ClientAfter(h, script, n) ==
            h.(client := if k == |script| then Dialing else if open then Open else ClientFailed,
               net := h.net.(outbox := h.net.outbox + Resyns(script[..k], n) + if open then [Encode(SynAck)] else []))
    decreases |script|
  {
    hide Decode, Encode;
    assert h.net.outbox + [] + [] == h.net.outbox;
    if k == 0 {
      assert script[..0] == [] && h.net.outbox + [] == h.net.outbox;
      if script != [] {
        var next := ClientGot(h, Decode(script[0].b), n);
        assert ClientAfter(next, script[1..], n) == next;
      }
    } else {
      assert !IsSyn(script[0]) && !Unreadable(script[0]);
      assert script[..k][1..] == script[1..][..k - 1];
      var h1 := if script[0].Timeout? then Dials(h, n) else ClientGot(h, Decode(script[0].b), n);
      ClientExact(h1, script[1..], n, k - 1);
      assert k < |script| ==> script[1..][k - 1] == script[k];
      ResynsStep(h.net.outbox, script[..k], n);
    }
  }

  lemma {:induction false} ResynsStep(wire: seq<Bytes>, script: seq<Incoming>, n: uint8)
    requires script != []
    ensures wire + Resyns(script, n) ==
            (if script[0].Timeout? then wire + [Encode(Syn(n))] else wire) + Resyns(script[1..], n)
  {
    if script[0].Timeout? {
      Assoc(wire, [Encode(Syn(n))], Resyns(script[1..], n));
    } else {
      assert [] + Resyns(script[1..], n) == Resyns(script[1..], n);
    }
  }

  // -------------------------------------------------------------------------
  // The invariant

  /** SYNs carry the client's window; before the sender has completed the handshake there is nothing
      but SYNs. */
  predicate WireOk(wire: seq<Bytes>, open: bool, n: uint8) {
    forall i :: 0 <= i < |wire| ==>
      && Decode(wire[i]).Some?
      && (Decode(wire[i]).value.Syn? ==> Decode(wire[i]).value.n == n)
      && (!open ==> Decode(wire[i]).value.Syn?)
  }

  ghost predicate Inv(h: Handshake, n: uint8) {
    && Reachable(h.net, Config(n, Modulus(n)))
    && WireOk(h.net.outbox, h.client.Open?, n)
    && WireOk(h.net.inbox, h.server.Serving?, n)
    && !h.client.ClientFailed?
    && (!h.client.Open? ==> h.net.me == InitialEndpoint(Modulus(n)))
    && (!h.server.Serving? ==> h.net.peer == InitialEndpoint(Modulus(n)))
    && (h.server.AwaitSynAck? || h.server.Serving? || h.resent ==> h.serverN == n)
    && (h.server.Serving? ==> h.client.Open?)
    && (h.server.AwaitSyn? && !h.resent ==> !h.client.Open? && h.net.inbox == [])
  }

  lemma {:induction false} EndpointsOk(w: World, cfg: Config)
    requires ConfigOk(cfg) && Reachable(w, cfg)
    ensures EndpointOk(w.me, cfg.s) && EndpointOk(w.peer, cfg.s)
  {
    var u := Unbound(w, cfg);
    RelOk(w, u, cfg.s);
  }

  lemma {:induction false} PushOk(wire: seq<Bytes>, m: Message, open: bool, n: uint8)
    requires WireOk(wire, open, n) && (m.Syn? ==> m.n == n) && (!open ==> m.Syn?)
    ensures WireOk(wire + [Encode(m)], open, n)
  {
    DecodeEncode(m);
  }

  lemma {:induction false} Push(w: World, left: bool, m: Message, cfg: Config)
    requires ConfigOk(cfg) && Reachable(w, cfg) && m.IsControl()
    ensures Reachable(if left then w.(outbox := w.outbox + [Encode(m)])
                      else w.(inbox := w.inbox + [Encode(m)]), cfg)
  {
    EndpointsOk(w, cfg);
    StepReaches(w, Step(left, Control(m), 0), cfg);
  }

  lemma {:induction false} Disturb(w: World, left: bool, i: nat, cfg: Config)
    requires ConfigOk(cfg) && Reachable(w, cfg) && i < |if left then w.inbox else w.outbox|
    ensures Reachable(if left then w.(inbox := Without(w.inbox, i)) else w.(outbox := Without(w.outbox, i)), cfg)
    ensures Reachable(if left then w.(inbox := Twice(w.inbox, i)) else w.(outbox := Twice(w.outbox, i)), cfg)
  {
    EndpointsOk(w, cfg);
    StepReaches(w, Step(left, Drop(i), 0), cfg);
    StepReaches(w, Step(left, Duplicate(i), 0), cfg);
  }

  /** What an open connection adds to its outgoing wire is never a SYN. */
  lemma {:induction false} TransferWires(w: World, a: Action, now: int, cfg: Config, inOpen: bool, n: uint8)
    requires CanAct(w, a, cfg) && WireOk(w.outbox, true, n) && WireOk(w.inbox, inOpen, n)
    requires !a.Control? && !a.Drop? && !a.Duplicate?
    ensures WireOk(Act(w, a, now, cfg).outbox, true, n) && WireOk(Act(w, a, now, cfg).inbox, inOpen, n)
    ensures Act(w, a, now, cfg).peer == w.peer
  {
    match a
    case Transmit => PushOk(w.outbox, w.me.pc.packet, true, n);
    case ResendOne => PushOk(w.outbox, w.me.queue.slots[w.me.pc.cursor].value, true, n);
    case Deliver(mute) =>
      var m := Decode(w.inbox[0]).value;
      if m.Data? {
        PushOk(w.outbox, Ack(m.num), true, n);
        PushOk(w.outbox, Nack(w.me.recvSeq), true, n);
      }
      assert w.outbox + [] == w.outbox;
    case _ =>
  }

  lemma {:induction false} TransferKeeps(h: Handshake, st: Step, n: uint8)
    requires 1 <= n < 255 && Inv(h, n) && CanHappen(h, Transfer(st), n)
    ensures Inv(Happen(h, Transfer(st), n), n)
  {
    var cfg := Config(n, n + 1);
    StepReaches(h.net, st, cfg);
    if st.left {
      TransferWires(h.net, st.action, st.now, cfg, h.server.Serving?, n);
    } else {
      TransferWires(h.net.Swap(), st.action, st.now, cfg, h.client.Open?, n);
    }
  }

  lemma {:induction false} ClientReadsKeeps(h: Handshake, n: uint8)
    requires 1 <= n < 255 && Inv(h, n) && CanHappen(h, ClientReads, n)
    ensures Inv(Happen(h, ClientReads, n), n)
  {
    var cfg := Config(n, n + 1);
    Disturb(h.net, true, 0, cfg);
    var net := h.net.(inbox := Without(h.net.inbox, 0));
    Push(net, true, SynAck, cfg);
    assert WireOk(h.net.outbox, true, n);
    PushOk(h.net.outbox, SynAck, true, n);
  }

  lemma {:induction false} ServerReadsKeeps(h: Handshake, n: uint8)
    requires 1 <= n < 255 && Inv(h, n) && CanHappen(h, ServerReads, n)
    ensures Inv(Happen(h, ServerReads, n), n)
  {
    Disturb(h.net, false, 0, Config(n, n + 1));
    DisturbedOk(h.net.outbox, 0, h.client.Open?, n);
    var h1 := h.(net := h.net.(outbox := Without(h.net.outbox, 0)));
    ServerGotKeeps(h1, Decode(h.net.outbox[0]).value, n);
  }

  lemma {:induction false} ServerGotKeeps(h: Handshake, m: Message, n: uint8)
    requires 1 <= n < 255 && Inv(h, n) && (h.server.AwaitSyn? || h.server.AwaitSynAck?)
    requires (m.Syn? ==> m.n == n) && (!h.client.Open? ==> m.Syn?)
    ensures Inv(ServerGot(h, Some(m)), n)
  {
    if m.Syn? {
      Push(h.net, false, m, Config(n, n + 1));
      PushOk(h.net.inbox, m, false, n);
    } else {
      assert WireOk(h.net.inbox, true, n);
      assert h.net.(peer := InitialEndpoint(n + 1)) == h.net;
    }
  }

  lemma {:induction false} SendSynKeeps(h: Handshake, n: uint8)
    requires 1 <= n < 255 && Inv(h, n) && CanHappen(h, SendSyn, n)
    ensures Inv(Happen(h, SendSyn, n), n)
  {
    Push(h.net, true, Syn(n), Config(n, n + 1));
    PushOk(h.net.outbox, Syn(n), h.client.Open?, n);
  }

  lemma {:induction false} DisturbedOk(wire: seq<Bytes>, i: nat, open: bool, n: uint8)
    requires WireOk(wire, open, n) && i < |wire|
    ensures WireOk(Without(wire, i), open, n) && WireOk(Twice(wire, i), open, n)
  {
  }

  lemma {:induction false} DisturbKeeps(h: Handshake, ev: Event, n: uint8)
    requires 1 <= n < 255 && Inv(h, n) && CanHappen(h, ev, n) && (ev.Lose? || ev.Repeat?)
    ensures Inv(Happen(h, ev, n), n)
  {
    Disturb(h.net, ev.left, ev.i, Config(n, n + 1));
    if ev.left {
      DisturbedOk(h.net.inbox, ev.i, h.server.Serving?, n);
    } else {
      DisturbedOk(h.net.outbox, ev.i, h.client.Open?, n);
    }
  }

  lemma {:induction false} HappenKeeps(h: Handshake, ev: Event, n: uint8)
    requires 1 <= n < 255 && Inv(h, n) && CanHappen(h, ev, n)
    ensures Inv(Happen(h, ev, n), n)
  {
    match ev
    case SendSyn => SendSynKeeps(h, n);
    case ClientReads => ClientReadsKeeps(h, n);
    case ServerReads => ServerReadsKeeps(h, n);
    case ServerTimeout =>
    case Lose(_, _) => DisturbKeeps(h, ev, n);
    case Repeat(_, _) => DisturbKeeps(h, ev, n);
    case Transfer(st) => TransferKeeps(h, st, n);
  }

  lemma {:induction false} HistoryKeeps(h: Handshake, evs: seq<Event>, n: uint8)
    requires 1 <= n < 255 && Inv(h, n) && History(h, evs, n).Some?
    ensures Inv(History(h, evs, n).value, n)
    decreases |evs|
  {
    if evs != [] {
      HappenKeeps(h, evs[0], n);
      HistoryKeeps(Happen(h, evs[0], n), evs[1..], n);
    }
  }

  lemma {:induction false} StartOk(n: uint8)
    requires 1 <= n < 255
    ensures Inv(Start(n), n)
  {
    assert Run(Initial(n + 1), [], Config(n, n + 1)) == Some(Initial(n + 1));
  }

  /** Whatever is lost, repeated or timed out: a server that completes has the client's window, and
      then the client has completed too; the client never gives up over a wrong answer. */
  lemma {:induction false} HandshakeAgrees(evs: seq<Event>, n: uint8)
    requires 1 <= n < 255 && History(Start(n), evs, n).Some?
    ensures var h := History(Start(n), evs, n).value;
            && (h.server.Serving? ==> h.serverN == n && h.client.Open?)
            && !h.client.ClientFailed?
  {
    StartOk(n);
    HistoryKeeps(Start(n), evs, n);
  }

  /** What reading the next message does to the server, in every history: a SYN is answered, a SYNACK
      completes the handshake exactly when a SYN was answered before it, a DATA packet exactly when the
      handshake was started over; only while a SYNACK is awaited does anything else end it. */
  lemma {:induction false} ServerReadsExact(evs: seq<Event>, n: uint8)
    requires 1 <= n < 255 && History(Start(n), evs, n).Some?
    requires CanHappen(History(Start(n), evs, n).value, ServerReads, n)
    ensures var h := History(Start(n), evs, n).value;
            ServerStep(h, Decode(h.net.outbox[0]), Happen(h, ServerReads, n), n)
  {
    StartOk(n);
    HistoryKeeps(Start(n), evs, n);
  }

  predicate ServerStep(h: Handshake, head: Option<Message>, h': Handshake, n: uint8) {
    && head.Some? && h.net.outbox != [] && h'.net.outbox == h.net.outbox[1..] && h'.net.me == h.net.me
    && h'.client == h.client
    && (h'.server.Serving? <==>
          || (head.value.SynAck? && (h.server.AwaitSynAck? || (h.server.AwaitSyn? && h.resent)))
          || (head.value.Data? && h.server.AwaitSyn? && h.resent))
    && (h'.server.AwaitSynAck? <==> head.value.Syn?)
    && (h'.server.ServerFailed? <==> h.server.AwaitSynAck? && !head.value.Syn? && !head.value.SynAck?)
    && (h'.server.Serving? ==> h'.serverN == n)
    && h'.net.inbox == (if head.value.Syn? then h.net.inbox + [Encode(Syn(n))] else h.net.inbox)
    && (h'.resent <==> h.resent || (head.value.Syn? && h.server.AwaitSynAck?))
  }

  /** And to the client: the first SYN opens the connection and is answered with a SYNACK, everything else
      is skipped. */
  lemma {:induction false} ClientReadsExact(evs: seq<Event>, n: uint8)
    requires 1 <= n < 255 && History(Start(n), evs, n).Some?
    requires CanHappen(History(Start(n), evs, n).value, ClientReads, n)
    ensures var h := History(Start(n), evs, n).value;
            ClientStep(h, Decode(h.net.inbox[0]), Happen(h, ClientReads, n))
  {
    StartOk(n);
    HistoryKeeps(Start(n), evs, n);
  }

  predicate ClientStep(h: Handshake, head: Option<Message>, h': Handshake) {
    && head.Some? && h.net.inbox != []
    && h' == h.(client := if head.value.Syn? then Open else Dialing,
                net := h.net.(inbox := h.net.inbox[1..],
                              outbox := h.net.outbox + if head.value.Syn? then [Encode(SynAck)] else []))
  }

  /** The handshake without loss: SYN, SYN, SYNACK. */
  lemma {:induction false} PlainHandshake(n: uint8)
    requires 1 <= n < 255
    ensures History(Start(n), [SendSyn, ServerReads, ClientReads, ServerReads], n) ==
            Some(Handshake(Open, Serving, false, n, Initial(n + 1)))
  {
    var h := Start(n);
    Dial(h, n);
    assert Dialed(h, n) == Handshake(Open, Serving, false, n, Initial(n + 1));
  }

  /** From empty wires, a dialing client and a server that is waiting complete the handshake so. */
  function Dialed(h: Handshake, n: uint8): Handshake {
    h.(client := Open, server := Serving, serverN := n, resent := h.resent || h.server.AwaitSynAck?,
       net := h.net.(peer := InitialEndpoint(Modulus(n)), inbox := [], outbox := []))
  }

  const DIAL: seq<Event> := [SendSyn, ServerReads, ClientReads, ServerReads]

  lemma {:induction false} Dial(h: Handshake, n: uint8)
    requires h.client.Dialing? && (h.server.AwaitSyn? || h.server.AwaitSynAck?)
    requires h.net.inbox == [] && h.net.outbox == []
    ensures History(h, DIAL, n) == Some(Dialed(h, n))
  {
    hide Encode, Decode, InitialEndpoint;
    DecodeEncode(Syn(n));
    DecodeEncode(SynAck);
    var h1 := Happen(h, SendSyn, n);
    assert h1.net.outbox == [Encode(Syn(n))] && h1.net.inbox == [];
    var h2 := Happen(h1, ServerReads, n);
    assert h2.net.outbox == [] && h2.net.inbox == [Encode(Syn(n))];
    var h3 := Happen(h2, ClientReads, n);
    assert h3.net.outbox == [Encode(SynAck)] && h3.net.inbox == [];
    var h4 := Happen(h3, ServerReads, n);
    assert h4.net.outbox == [] && h4.net.inbox == [];
    assert DIAL[1..] == [ServerReads, ClientReads, ServerReads] && DIAL[1..][1..] == [ClientReads, ServerReads];
    assert DIAL[1..][1..][1..] == [ServerReads] && DIAL[1..][1..][1..][1..] == [];
    assert History(h4, [], n) == Some(h4);
    assert History(h3, [ServerReads], n) == Some(h4);
    assert History(h2, [ClientReads, ServerReads], n) == Some(h4);
    assert History(h1, [ServerReads, ClientReads, ServerReads], n) == Some(h4);
  }

  // -------------------------------------------------------------------------
  // The handshake can always still complete

  ghost predicate CanComplete(h: Handshake, n: uint8) {
    exists more :: History(h, more, n).Some? && Established(History(h, more, n).value)
  }

  predicate Established(h: Handshake) { h.client.Open? && h.server.Serving? }

  lemma {:induction false} HistoryConcat(h: Handshake, a: seq<Event>, b: seq<Event>, n: uint8)
    requires History(h, a, n).Some?
    ensures History(h, a + b, n) == History(History(h, a, n).value, b, n)
    decreases |a|
  {
    if a == [] {
      assert a + b == b;
    } else {
      HistoryConcat(Happen(h, a[0], n), a[1..], b, n);
      assert (a + b)[1..] == a[1..] + b;
    }
  }

  lemma {:induction false} CompleteAfter(h: Handshake, evs: seq<Event>, n: uint8)
    requires History(h, evs, n).Some? && CanComplete(History(h, evs, n).value, n)
    ensures CanComplete(h, n)
  {
    var h' := History(h, evs, n).value;
    var more :| History(h', more, n).Some? && Established(History(h', more, n).value);
    HistoryConcat(h, evs, more, n);
  }

  lemma {:induction false} CompleteAfterOne(h: Handshake, ev: Event, n: uint8)
    requires CanHappen(h, ev, n) && CanComplete(Happen(h, ev, n), n)
    ensures CanComplete(h, n)
  {
    assert [ev][1..] == [];
    assert History(Happen(h, ev, n), [], n) == Some(Happen(h, ev, n));
    CompleteAfter(h, [ev], n);
  }

  /** The wires lose everything. */
  function Cleared(h: Handshake, left: bool): Handshake {
    h.(net := if left then h.net.(inbox := []) else h.net.(outbox := []))
  }

  lemma {:induction false} CompleteCleared(h: Handshake, left: bool, n: uint8)
    requires CanComplete(Cleared(h, left), n)
    ensures CanComplete(h, n)
    decreases |if left then h.net.inbox else h.net.outbox|
  {
    if (if left then h.net.inbox else h.net.outbox) == [] {
      assert Cleared(h, left) == h;
    } else {
      var h1 := Happen(h, Lose(left, 0), n);
      assert Cleared(h1, left) == Cleared(h, left);
      CompleteCleared(h1, left, n);
      CompleteAfterOne(h, Lose(left, 0), n);
    }
  }

  lemma {:induction false} ClearedOk(h: Handshake, left: bool, n: uint8)
    requires 1 <= n < 255 && Inv(h, n)
    ensures Inv(Cleared(h, left), n)
    decreases |if left then h.net.inbox else h.net.outbox|
  {
    if (if left then h.net.inbox else h.net.outbox) == [] {
      assert Cleared(h, left) == h;
    } else {
      var h1 := Happen(h, Lose(left, 0), n);
      assert Cleared(h1, left) == Cleared(h, left);
      DisturbKeeps(h, Lose(left, 0), n);
      ClearedOk(h1, left, n);
    }
  }

  /** A client that is dialing starts over. */
  lemma {:induction false} DialingCompletes(h: Handshake, n: uint8)
    requires h.client.Dialing? && (h.server.AwaitSyn? || h.server.AwaitSynAck?)
    ensures CanComplete(h, n)
  {
    var h1 := Cleared(Cleared(h, true), false);
    Dial(h1, n);
    assert Established(History(h1, DIAL, n).value);
    CompleteCleared(Cleared(h, true), false, n);
    CompleteCleared(h, true, n);
  }

  /** A client that is open has lost its SYNACK: the server times out, and the client's next packet
      completes the handshake. */
  lemma {:induction false} OpenCompletes(h: Handshake, n: uint8)
    requires 1 <= n < 255 && Inv(h, n) && h.client.Open? && (h.server.AwaitSyn? || h.server.AwaitSynAck?)
    ensures CanComplete(h, n)
  {
    var h1 := Cleared(h, false);
    ClearedOk(h, false, n);
    if h1.server.AwaitSynAck? {
      HappenKeeps(h1, ServerTimeout, n);
      PacketCompletes(Happen(h1, ServerTimeout, n), n);
      CompleteAfterOne(h1, ServerTimeout, n);
    } else {
      PacketCompletes(h1, n);
    }
    CompleteCleared(h, false, n);
  }

  /** The client's connection is open and the server has started over. */
  ghost predicate Restarted(h: Handshake, n: uint8) {
    1 <= n < 255 && Inv(h, n) && h.client.Open? && h.server.AwaitSyn? && h.resent && h.net.outbox == []
  }

  lemma {:induction false} PacketCompletes(h: Handshake, n: uint8)
    requires Restarted(h, n)
    ensures CanComplete(h, n)
  {
    var e, s := h.net.me, n + 1;
    EndpointsOk(h.net, Config(n, s));
    match e.pc
    case Fresh(_) => SendCompletes(h, Transmit, n);
    case Resending(cursor, stop, _, _, _) =>
      ResendNeverStuck(h.net, true, Config(n, s));
      if cursor == stop {
        var h1 := ClientActs(h, EndResend, n);
        IdleCompletes(h1, n);
        CompleteAfterOne(h, Transfer(Step(true, EndResend, 0)), n);
      } else {
        SendCompletes(h, ResendOne, n);
      }
    case Idle(_) => IdleCompletes(h, n);
  }

  lemma {:induction false} IdleCompletes(h: Handshake, n: uint8)
    requires Restarted(h, n) && h.net.me.pc.Idle?
    ensures CanComplete(h, n)
  {
    var e, s := h.net.me, n + 1;
    EndpointsOk(h.net, Config(n, s));
    if Size(e.queue.base, e.queue.top, s) != 0 {
      var h1 := ClientActs(h, BeginResend, n);
      ResendNeverStuck(h1.net, true, Config(n, s));
      SendCompletes(h1, ResendOne, n);
      CompleteAfterOne(h, Transfer(Step(true, BeginResend, 0)), n);
    } else if e.pc.ready {
      AddCompletes(h, n);
    } else {
      var h1 := ClientActs(h, Check, n);
      AddCompletes(h1, n);
      CompleteAfterOne(h, Transfer(Step(true, Check, 0)), n);
    }
  }

  lemma {:induction false} AddCompletes(h: Handshake, n: uint8)
    requires Restarted(h, n) && h.net.me.pc == Idle(true)
    ensures CanComplete(h, n)
  {
    EndpointsOk(h.net, Config(n, n + 1));
    var a := Add(Body(true, true, []));
    var h1 := ClientActs(h, a, n);
    SendCompletes(h1, Transmit, n);
    CompleteAfterOne(h, Transfer(Step(true, a, 0)), n);
  }

  /** A step of the client that sends nothing. */
  lemma {:induction false} ClientActs(h: Handshake, a: Action, n: uint8) returns (h1: Handshake)
    requires Restarted(h, n) && CanAct(h.net, a, Config(n, n + 1))
    requires a.Add? || a.Check? || a.BeginResend? || a.EndResend?
    ensures CanHappen(h, Transfer(Step(true, a, 0)), n) && h1 == Happen(h, Transfer(Step(true, a, 0)), n)
    ensures Restarted(h1, n) && h1.net == Act(h.net, a, 0, Config(n, n + 1))
  {
    h1 := Happen(h, Transfer(Step(true, a, 0)), n);
    HappenKeeps(h, Transfer(Step(true, a, 0)), n);
  }

  /** A step of the client that sends a packet. */
  lemma {:induction false} SendCompletes(h: Handshake, a: Action, n: uint8)
    requires Restarted(h, n) && (a == Transmit || a == ResendOne)
    requires a == Transmit ==> h.net.me.pc.Fresh?
    requires a == ResendOne ==> CanAct(h.net, ResendOne, Config(n, n + 1))
    ensures CanComplete(h, n)
  {
    hide Encode, Decode, WireOk, Reachable, CanComplete, InitialEndpoint;
    var cfg := Config(n, n + 1);
    TransmitReady(h.net, cfg);
    assert CanAct(h.net, a, cfg);
    var packet := if a == Transmit then h.net.me.pc.packet else h.net.me.queue.slots[h.net.me.pc.cursor].value;
    var ev := Transfer(Step(true, a, 0));
    var h1 := Happen(h, ev, n);
    assert h1.net.outbox == [Encode(packet)];
    DataCompletes(h1, packet, n);
    CompleteAfterOne(h, ev, n);
  }

  lemma {:induction false} TransmitReady(w: World, cfg: Config)
    requires ConfigOk(cfg) && Reachable(w, cfg)
    ensures EndpointOk(w.me, cfg.s) && (w.me.pc.Fresh? ==> w.me.pc.packet.Data?)
  {
    EndpointsOk(w, cfg);
    var u := Unbound(w, cfg);
  }

  lemma {:induction false} DataCompletes(h: Handshake, packet: Message, n: uint8)
    requires h.client.Open? && h.server.AwaitSyn? && h.resent && h.net.outbox == [Encode(packet)] && packet.Data?
    ensures CanComplete(h, n)
  {
    hide Encode, Decode, InitialEndpoint;
    DecodeEncode(packet);
    var h1 := Happen(h, ServerReads, n);
    assert History(h1, [], n) == Some(h1) && Established(h1);
    CompleteAfterOne(h, ServerReads, n);
  }

  lemma {:induction false} FailedForever(h: Handshake, evs: seq<Event>, n: uint8)
    requires h.server.ServerFailed? && History(h, evs, n).Some?
    ensures History(h, evs, n).value.server.ServerFailed?
    decreases |evs|
  {
    if evs != [] {
      FailedForever(Happen(h, evs[0], n), evs[1..], n);
    }
  }

  /** After every history the handshake can still complete on both sides, unless the server has given up. */
  lemma {:induction false} AlwaysCompletable(evs: seq<Event>, n: uint8)
    requires 1 <= n < 255 && History(Start(n), evs, n).Some?
    ensures var h := History(Start(n), evs, n).value;
            CanComplete(h, n) <==> !h.server.ServerFailed?
  {
    StartOk(n);
    HistoryKeeps(Start(n), evs, n);
    var h := History(Start(n), evs, n).value;
    if h.server.ServerFailed? {
      forall more | History(h, more, n).Some?
        ensures !Established(History(h, more, n).value)
      {
        FailedForever(h, more, n);
      }
    } else if h.server.Serving? {
      assert History(h, [], n) == Some(h) && Established(h);
    } else if h.client.Dialing? {
      DialingCompletes(h, n);
    } else {
      OpenCompletes(h, n);
    }
  }

  /** At any time, before and after the server completes, a packet the client has added is still in
      its queue unless the server's connection has accepted it: nothing the handshake swallows is
      lost. */
  lemma {:induction false} SwallowedDataStays(evs: seq<Event>, n: uint8)
    requires 1 <= n < 255 && History(Start(n), evs, n).Some?
    ensures var h := History(Start(n), evs, n).value;
            && EndpointOk(h.net.me, n + 1)
            && var queued, added := Unacked(h.net.me, n + 1), h.net.me.added;
               && |queued| <= |added| && queued == added[|added| - |queued|..]
               && added[..|added| - |queued|] <= h.net.peer.accepted
               && (!h.server.Serving? ==> h.net.peer.accepted == [] && queued == added)
  {
    StartOk(n);
    HistoryKeeps(Start(n), evs, n);
    var h := History(Start(n), evs, n).value;
    WindowBounds(h.net, true, Config(n, n + 1));
    PrefixDelivery(h.net, Config(n, n + 1));
    assert h.net.me.added[0..] == h.net.me.added;
  }

  /** Every DATA packet that the server's handshake reads either completes it, exactly when the
      handshake had been restarted, or ends it with an error; it is never just skipped. When it
      completes, the packet is one of those still in the client's queue, none of which has been
      acknowledged, and the new connection expects the first of them. */
  lemma {:induction false} SwallowedDataCompletes(evs: seq<Event>, n: uint8) returns (j: nat)
    requires 1 <= n < 255 && History(Start(n), evs, n).Some?
    requires var h := History(Start(n), evs, n).value;
             CanHappen(h, ServerReads, n) && Decode(h.net.outbox[0]).Some? && Decode(h.net.outbox[0]).value.Data?
    ensures Swallowed(History(Start(n), evs, n).value, j, n)
  {
    StartOk(n);
    HistoryKeeps(Start(n), evs, n);
    j := DataRead(History(Start(n), evs, n).value, n);
  }

  lemma {:induction false} DataRead(h: Handshake, n: uint8) returns (j: nat)
    requires 1 <= n < 255 && Inv(h, n) && CanHappen(h, ServerReads, n)
    requires Decode(h.net.outbox[0]).Some? && Decode(h.net.outbox[0]).value.Data?
    ensures Swallowed(h, j, n)
  {
    j := SwallowedIsQueued(h, n);
    assert EndpointOk(h.net.me, n + 1) && Unacked(h.net.me, n + 1) == h.net.me.added by {
      WindowBounds(h.net, true, Config(n, n + 1));
      AllQueued(h.net.me, n + 1);
    }
    DataOutcome(h, j, n);
  }

  lemma {:induction false} DataOutcome(h: Handshake, j: nat, n: uint8)
    requires n < 255 && CanHappen(h, ServerReads, n) && Decode(h.net.outbox[0]).Some?
    requires h.server.AwaitSyn? ==> h.resent && h.serverN == n
    requires h.net.peer == InitialEndpoint(n + 1) && h.net.me.queue.base == 0
    requires EndpointOk(h.net.me, n + 1) && Unacked(h.net.me, n + 1) == h.net.me.added
    requires j < |h.net.me.added| && Decode(h.net.outbox[0]).value == Data(SeqOf(j, n + 1), h.net.me.added[j])
    ensures Swallowed(h, j, n)
  {
    hide Decode, Unacked, EndpointOk, SeqOf;
  }

  /** The server's handshake reads packet `j` of the client. */
  predicate Swallowed(h: Handshake, j: nat, n: uint8)
    requires n < 255 && CanHappen(h, ServerReads, n)
  {
    var h' := Happen(h, ServerReads, n);
    && (h'.server.Serving? <==> h.server.AwaitSyn?) && (h'.server.ServerFailed? <==> h.server.AwaitSynAck?)
    && (h.server.AwaitSyn? ==> h.resent)
    && EndpointOk(h'.net.me, n + 1)
    && var queued := Unacked(h'.net.me, n + 1);
       && queued == h'.net.me.added
       && j < |queued| && Decode(h.net.outbox[0]) == Some(Data(SeqOf(j, n + 1), queued[j]))
       && h'.net.peer == InitialEndpoint(n + 1) && h'.net.peer.recvSeq == h'.net.me.queue.base
  }

  lemma {:induction false} AllQueued(e: Endpoint, s: uint8)
    requires EndpointOk(e, s) && Size(e.queue.base, e.queue.top, s) as int == |e.added|
    ensures Unacked(e, s) == e.added
  {
    assert e.added[0..] == e.added;
  }

  lemma {:induction false} SwallowedIsQueued(h: Handshake, n: uint8) returns (j: nat)
    requires 1 <= n < 255 && Inv(h, n) && !h.server.Serving? && |h.net.outbox| > 0
    requires Decode(h.net.outbox[0]).Some? && Decode(h.net.outbox[0]).value.Data?
    ensures j < |h.net.me.added| && Decode(h.net.outbox[0]) == Some(Data(SeqOf(j, n + 1), h.net.me.added[j]))
    ensures h.net.me.queue.base == 0
  {
    var cfg := Config(n, n + 1);
    var u := Unbound(h.net, cfg);
    assert MsgRel(h.net.outbox[0], u.outbox[0], u.me.log, cfg.s);
    j := u.outbox[0].j;
  }

  /** And from the first SYN on, what each side accepts is a prefix of what the other has sent. */
  lemma {:induction false} DeliveryFromFirstSyn(evs: seq<Event>, n: uint8)
    requires 1 <= n < 255 && History(Start(n), evs, n).Some?
    ensures var w := History(Start(n), evs, n).value.net;
            w.peer.accepted <= w.me.added && w.me.accepted <= w.peer.added
  {
    StartOk(n);
    HistoryKeeps(Start(n), evs, n);
    PrefixDelivery(History(Start(n), evs, n).value.net, Config(n, n + 1));
  }
}
