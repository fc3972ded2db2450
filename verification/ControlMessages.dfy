/** Control messages and the byte stream of the mailbox connection (mailbox/interface.go). */
module ControlMessages {
  import opened Common
  import opened Terms
  import Protocol
  import Simulation
  import Guarantees
  import Chunking
  import Messages

  type Bytes = Messages.Bytes

  const PROTOCOL_VERSION: uint8 := 0
  const LIMIT: nat := 0x1_0000_0000

  datatype MsgData = MsgData(version: uint8, payload: Bytes)

  /** `Serialize`: the length field holds the length modulo 2^32, and a payload of length 0 modulo
      2^32 is not written. */
  function Encode(m: MsgData): Bytes {
    [Raw(m.version)] + Raws(Be32(|m.payload|)) + (if |m.payload| % LIMIT > 0 then m.payload else [])
  }

  /** `Deserialize` into a message that holds `prev`; `None` is the `io.EOF` of the source. */
  function Decode(prev: MsgData, b: Bytes): Option<MsgData> {
    if |b| < 5 || !AllRaw(b[..5]) then None else
    var len := FromBe32(Unraw(b[1..5]));
    if |b| < 5 + len then None
    else Some(MsgData(b[0].b, if len > 0 then b[5..5 + len] else prev.payload))
  }

  /** The five bytes before the payload. */
  lemma {:induction false} HeaderRead(m: MsgData)
    ensures var b := Encode(m);
            && |b| >= 5 && AllRaw(b[..5]) && b[0] == Raw(m.version)
            && AllRaw(b[1..5]) && FromBe32(Unraw(b[1..5])) == |m.payload| % LIMIT
            && b[5..] == (if |m.payload| % LIMIT > 0 then m.payload else [])
  {
    var b, field := Encode(m), Be32(|m.payload|);
    Be32RoundTrip(|m.payload|);
    assert |field| == 4;
    UnrawRaws(field);
    assert b[1..5] == Raws(field);
    assert b[..5] == [Raw(m.version)] + Raws(field);
  }

  /** A message parses back to itself exactly when its length fits the field or, for a length that is
      written as 0, when the message it is read into already held the payload. */
  lemma {:induction false} RoundTrip(prev: MsgData, m: MsgData)
    ensures Decode(prev, Encode(m)) == Some(m) <==>
            if |m.payload| % LIMIT == 0 then prev.payload == m.payload else |m.payload| < LIMIT
  {
    hide Encode, FromBe32, Unraw;
    var b, len := Encode(m), |m.payload| % LIMIT;
    HeaderRead(m);
    if len > 0 {
      assert b[5..5 + len] == m.payload[..len];
      assert |m.payload| < LIMIT ==> m.payload[..len] == m.payload;
    }
  }

  /** In particular every message shorter than 2^32 bytes, read as the connection reads it. */
  lemma {:induction false} RoundTripFresh(p: Bytes)
    requires |p| < LIMIT
    ensures Decode(MsgData(PROTOCOL_VERSION, []), Encode(MsgData(PROTOCOL_VERSION, p))) ==
            Some(MsgData(PROTOCOL_VERSION, p))
  {
    RoundTrip(MsgData(PROTOCOL_VERSION, []), MsgData(PROTOCOL_VERSION, p));
  }

  /** An empty message read into one that holds a payload leaves that payload in place. */
  lemma {:induction false} StalePayload()
    ensures var stale := MsgData(PROTOCOL_VERSION, [Raw(1)]);
            Decode(stale, Encode(MsgData(PROTOCOL_VERSION, []))) == Some(stale)
  {
    HeaderRead(MsgData(PROTOCOL_VERSION, []));
  }

  class MsgDataRef {
    var version: uint8
    var payload: Bytes

    constructor (version: uint8, payload: Bytes)
      ensures Value() == MsgData(version, payload)
    {
      this.version, this.payload := version, payload;
    }

    function Value(): MsgData
      reads this
    {
      MsgData(version, payload)
    }

    method Serialize() returns (buf: Bytes)
      ensures buf == Encode(Value())
    {
      buf := [Raw(version)];
      var payloadLen := |payload| % LIMIT;
      buf := buf + Raws(Be32(|payload|));
      if payloadLen > 0 {
        buf := buf + payload;
      }
    }

    /** On failure after the length check the version has already been overwritten. */
    method Deserialize(b: Bytes) returns (ok: bool)
      modifies this
      ensures ok <==> Decode(old(Value()), b).Some?
      ensures ok ==> Value() == Decode(old(Value()), b).value
      ensures !ok ==>
                payload == old(payload) && version == (if |b| < 5 || !AllRaw(b[..5]) then old(version) else b[0].b)
    {
      if |b| < 5 || !AllRaw(b[..5]) { return false; }
      version := b[0].b;
      var payloadLen := FromBe32(Unraw(b[1..5]));
      if |b| < 5 + payloadLen { return false; }
      if payloadLen > 0 {
        payload := b[5..5 + payloadLen];
      }
      ok := true;
    }
  }

  class ConnKit {
    var recvBuffer: Bytes

    constructor ()
      ensures recvBuffer == []
    {
      recvBuffer := [];
    }

    /** `Read` into a buffer of `k` bytes; `next` is the control message received if one is needed. */
    method Read(next: Bytes, k: nat) returns (ok: bool, f: Fetched<WireByte>)
      modifies this
      ensures ok <==> old(recvBuffer) != [] || Decode(MsgData(PROTOCOL_VERSION, []), next).Some?
      ensures ok ==>
                && f == FromBuffer(if old(recvBuffer) != [] then old(recvBuffer)
                                   else Decode(MsgData(PROTOCOL_VERSION, []), next).value.payload, k)
                && recvBuffer == f.left
      ensures !ok ==> recvBuffer == old(recvBuffer)
    {
      f := Fetched([], [], false);
      if |recvBuffer| == 0 {
        var data := new MsgDataRef(PROTOCOL_VERSION, []);
        var parsed := data.Deserialize(next);
        if !parsed { return false, f; }
        recvBuffer := recvBuffer + data.payload;
      }
      f := FromBuffer(recvBuffer, k);
      recvBuffer := f.left;
      ok := true;
    }

    method Write(b: Bytes) returns (out: Bytes)
      ensures out == Encode(MsgData(PROTOCOL_VERSION, b))
    {
      var data := new MsgDataRef(PROTOCOL_VERSION, b);
      out := data.Serialize();
    }
  }

  // -------------------------------------------------------------------------
  // The stream over the reliable transport

  /** The control messages for a series of writes. */
  function Encoded(writes: seq<Bytes>): seq<Bytes> {
    seq(|writes|, i requires 0 <= i < |writes| => Encode(MsgData(PROTOCOL_VERSION, writes[i])))
  }

  /** The bytes returned by reads with buffers of `ks` bytes, from the messages `ch`; reading stops
      where it would block or fail. */
  function ReadMany(buf: Bytes, ch: seq<Bytes>, ks: seq<nat>): Bytes
    decreases |ks|
  {
    if ks == [] then []
    else if buf != [] then
      var f := FromBuffer(buf, ks[0]);
      f.out + ReadMany(f.left, ch, ks[1..])
    else if ch == [] then []
    else
      match Decode(MsgData(PROTOCOL_VERSION, []), ch[0])
      case None => []
      case Some(m) =>
        var f := FromBuffer(m.payload, ks[0]);
        f.out + ReadMany(f.left, ch[1..], ks[1..])
  }

  predicate Short(writes: seq<Bytes>) { forall i :: 0 <= i < |writes| ==> |writes[i]| < LIMIT }

  predicate Positive(ks: seq<nat>) { forall i :: 0 <= i < |ks| ==> ks[i] > 0 }

  lemma {:induction false} AppendPrefix(a: Bytes, p: Bytes, q: Bytes)
    requires p <= q
    ensures a + p <= a + q
  {
  }

  lemma {:induction false} ReadFirst(writes: seq<Bytes>, n: nat, ks: seq<nat>)
    requires Short(writes) && 0 < n <= |writes| && ks != []
    ensures var f := FromBuffer(writes[0], ks[0]);
            ReadMany([], Encoded(writes)[..n], ks) ==
            f.out + ReadMany(f.left, Encoded(writes[1..])[..n - 1], ks[1..])
  {
    RoundTripFresh(writes[0]);
    var ch := Encoded(writes)[..n];
    assert ch[0] == Encode(MsgData(PROTOCOL_VERSION, writes[0]));
    assert ch[1..] == Encoded(writes[1..])[..n - 1];
  }

  /** Buffered reads reproduce the written stream. */
  lemma {:induction false} ReadManyPrefix(buf: Bytes, writes: seq<Bytes>, n: nat, ks: seq<nat>)
    requires Short(writes) && n <= |writes|
    ensures ReadMany(buf, Encoded(writes)[..n], ks) <= buf + Flat(writes)
    decreases |ks|
  {
    if ks == [] {
    } else if buf != [] {
      var f := FromBuffer(buf, ks[0]);
      FetchedParts(buf, ks[0]);
      ReadManyPrefix(f.left, writes, n, ks[1..]);
      AppendPrefix(f.out, ReadMany(f.left, Encoded(writes)[..n], ks[1..]), f.left + Flat(writes));
      Assoc(f.out, f.left, Flat(writes));
    } else if n > 0 {
      var f := FromBuffer(writes[0], ks[0]);
      FetchedParts(writes[0], ks[0]);
      ReadFirst(writes, n, ks);
      ReadManyPrefix(f.left, writes[1..], n - 1, ks[1..]);
      AppendPrefix(f.out, ReadMany(f.left, Encoded(writes[1..])[..n - 1], ks[1..]), f.left + Flat(writes[1..]));
      Assoc(f.out, f.left, Flat(writes[1..]));
    }
  }

  lemma {:induction false} FetchedSome(buf: Bytes, k: nat)
    requires k > 0
    ensures |FromBuffer(buf, k).left| < |buf| || buf == []
  {
  }

  /** Every read with room for a byte uses up a byte or a message, so enough of them read it all. */
  lemma {:induction false} ReadManyAll(buf: Bytes, writes: seq<Bytes>, ks: seq<nat>)
    requires Short(writes) && Positive(ks)
    requires |ks| >= |buf| + |Flat(writes)| + |writes|
    ensures ReadMany(buf, Encoded(writes), ks) == buf + Flat(writes)
    decreases |ks|
  {
    if buf != [] {
      var f := FromBuffer(buf, ks[0]);
      FetchedParts(buf, ks[0]);
      FetchedSome(buf, ks[0]);
      ReadManyAll(f.left, writes, ks[1..]);
      Assoc(f.out, f.left, Flat(writes));
    } else if writes != [] {
      var f := FromBuffer(writes[0], ks[0]);
      FetchedParts(writes[0], ks[0]);
      assert Encoded(writes)[..|writes|] == Encoded(writes);
      assert Encoded(writes[1..])[..|writes| - 1] == Encoded(writes[1..]);
      ReadFirst(writes, |writes|, ks);
      ReadManyAll(f.left, writes[1..], ks[1..]);
      Assoc(f.out, f.left, Flat(writes[1..]));
    }
  }

  /** Some read of the series reports `io.EOF`. */
  predicate SomeEof(buf: Bytes, ch: seq<Bytes>, ks: seq<nat>)
    decreases |ks|
  {
    if ks == [] then false
    else if buf != [] then SomeEof(FromBuffer(buf, ks[0]).left, ch, ks[1..])
    else if ch == [] then false
    else
      match Decode(MsgData(PROTOCOL_VERSION, []), ch[0])
      case None => false
      case Some(m) =>
        FromBuffer(m.payload, ks[0]).eof || SomeEof(FromBuffer(m.payload, ks[0]).left, ch[1..], ks[1..])
  }

  /** No series of reads of at least one byte ever reports the end of the file exactly when no write was
      empty. */
  lemma {:induction false} NoEofExactly(writes: seq<Bytes>)
    requires Short(writes)
    ensures (forall ks | Positive(ks) :: !SomeEof([], Encoded(writes), ks)) <==> [] !in writes
  {
    if [] in writes {
      var ks := EofReads(writes);
    } else {
      forall ks | Positive(ks)
        ensures !SomeEof([], Encoded(writes), ks)
      {
        NoEof([], writes, ks);
      }
    }
  }

  lemma {:induction false} NoEof(buf: Bytes, writes: seq<Bytes>, ks: seq<nat>)
    requires Short(writes) && [] !in writes && Positive(ks)
    ensures !SomeEof(buf, Encoded(writes), ks)
    decreases |ks|
  {
    if ks != [] {
      if buf != [] {
        NoEof(FromBuffer(buf, ks[0]).left, writes, ks[1..]);
      } else if writes != [] {
        FirstControl(writes);
        NoEof(FromBuffer(writes[0], ks[0]).left, writes[1..], ks[1..]);
      }
    }
  }

  lemma {:induction false} FirstControl(writes: seq<Bytes>)
    requires Short(writes) && writes != []
    ensures var m := MsgData(PROTOCOL_VERSION, writes[0]);
            Encoded(writes)[0] == Encode(m) && Decode(MsgData(PROTOCOL_VERSION, []), Encode(m)) == Some(m)
    ensures Encoded(writes)[1..] == Encoded(writes[1..])
  {
    RoundTripFresh(writes[0]);
  }

  /** Reads that take one message each come to the empty one. */
  lemma {:induction false} EofReads(writes: seq<Bytes>) returns (ks: seq<nat>)
    requires Short(writes) && [] in writes
    ensures Positive(ks) && SomeEof([], Encoded(writes), ks)
  {
    FirstControl(writes);
    if writes[0] == [] {
      ks := [1];
    } else {
      var more := EofReads(writes[1..]);
      ks := [|writes[0]|] + more;
      assert ks[1..] == more;
    }
  }

  /** The mailbox connection over the whole Go-Back-N stack: over lossy wires, with 8-bit numbers,
      resends, pings, chunks of any size and read buffers of any size, either side reads a prefix of
      the bytes that the other side wrote; and all of them, with enough reads, once every packet has
      been accepted. */
  lemma {:induction false} StackDelivers(w: Protocol.World, left: bool, writes: seq<Bytes>, max: nat, ks: seq<nat>,
                                         cfg: Protocol.Config)
    requires Simulation.ConfigOk(cfg) && Guarantees.Reachable(w, cfg) && Short(writes)
    requires Chunking.NonPing(w.From(left).me.added) <= Chunking.Stream(Encoded(writes), max)
    ensures var v := w.From(left);
            var read := ReadMany([], Chunking.Received(Chunking.NonPing(v.peer.accepted)), ks);
            && read <= Flat(writes)
            && ((v.peer.accepted == v.me.added && Chunking.NonPing(v.me.added) == Chunking.Stream(Encoded(writes), max)
                 && Positive(ks) && |ks| >= |Flat(writes)| + |writes|) ==> read == Flat(writes))
  {
    var received := Chunking.Received(Chunking.NonPing(w.From(left).peer.accepted));
    Chunking.EndToEnd(w, left, Encoded(writes), max, cfg);
    Chunking.AllSendable(Encoded(writes), max);
    assert received == Encoded(writes)[..|received|];
    ReadManyPrefix([], writes, |received|, ks);
    assert [] + Flat(writes) == Flat(writes);
    if |ks| >= |Flat(writes)| + |writes| && Positive(ks) {
      ReadManyAll([], writes, ks);
    }
  }
}
