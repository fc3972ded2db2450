/** Messages over packets: `Send` splits, `Recv` reassembles (gbn/gbn_conn.go). */
module Chunking {
  import opened Common
  import opened Terms
  import opened Messages
  import opened Protocol
  import opened Simulation
  import opened Guarantees

  /** The packets for one message; `max == 0` disables splitting. */
  function Chunks(data: Bytes, max: nat): seq<Body> {
    if max == 0 then [Body(true, false, data)] else Split(data, max)
  }

  function Split(data: Bytes, max: nat): seq<Body>
    requires max > 0
  {
    if data == [] then []
    else if |data| <= max then [Body(true, false, data)]
    else [Body(false, false, data[..max])] + Split(data[max..], max)
  }

  /** The payloads of packets. */
  function Payloads(packets: seq<Body>): seq<Bytes> {
    seq(|packets|, k requires 0 <= k < |packets| => packets[k].payload)
  }

  /** `packets` is `data` cut into payloads of `max` bytes, none of them empty; the last packet alone is
      final, and none is a ping. */
  predicate CutInto(packets: seq<Body>, data: Bytes, max: nat) {
    && CutEvenly(Payloads(packets), data, max)
    && (forall k :: 0 <= k < |packets| ==>
          packets[k].payload != [] && !packets[k].isPing && packets[k].finalChunk == (k == |packets| - 1))
  }

  lemma {:induction false} SplitIsCut(data: Bytes, max: nat)
    requires max > 0
    ensures CutInto(Split(data, max), data, max) && (Split(data, max) == [] <==> data == [])
    decreases |data|
  {
    var packets := Split(data, max);
    if data == [] {
      assert Payloads(packets) == [];
    } else if |data| <= max {
      assert Payloads(packets) == [data];
      CutWhole(data, data, max);
    } else {
      SplitIsCut(data[max..], max);
      CutMore(Split(data[max..], max), data, max);
    }
  }

  lemma {:induction false} CutMore(rest: seq<Body>, data: Bytes, max: nat)
    requires |data| > max > 0 && rest != [] && CutInto(rest, data[max..], max)
    ensures CutInto([Body(false, false, data[..max])] + rest, data, max)
  {
    hide CutEvenly;
    var packets := [Body(false, false, data[..max])] + rest;
    assert Payloads(packets) == [data[..max]] + Payloads(rest);
    CutStep(data[..max], Payloads(rest), data, max);
  }

  /** A message becomes exactly the packets that are so cut, and no others; with splitting off, one packet. */
  lemma {:induction false} ChunksExact(packets: seq<Body>, data: Bytes, max: nat)
    ensures packets == Chunks(data, max) <==>
            if max > 0 then CutInto(packets, data, max)
            else |packets| == 1 && packets[0].payload == data && packets[0].finalChunk && !packets[0].isPing
  {
    if max > 0 && CutInto(packets, data, max) {
      SplitIsCut(data, max);
      var split := Split(data, max);
      if packets == [] {
        assert Payloads(packets) == [];
      } else {
        FlatFirst(Payloads(packets));
        assert Payloads(packets)[|packets| - 1] != [];
        CutUnique(Payloads(packets), Payloads(split), data, max);
        forall k | 0 <= k < |packets|
          ensures packets[k] == split[k]
        {
          assert Payloads(packets)[k] == Payloads(split)[k];
        }
      }
    } else if max > 0 {
      SplitIsCut(data, max);
    }
  }

  /** The packets for messages sent one after another. */
  function Stream(msgs: seq<Bytes>, max: nat): seq<Body> {
    if msgs == [] then [] else Chunks(msgs[0], max) + Stream(msgs[1..], max)
  }

  /** `Send`, with the packets it hands over in order as result. */
  method Send(data: Bytes, max: nat) returns (packets: seq<Body>)
    ensures packets == Chunks(data, max)
  {
    if max == 0 {
      return [Body(true, false, data)];
    }
    packets := [];
    var sentBytes := 0;
    assert data[0..] == data;
    while sentBytes < |data|
      invariant 0 <= sentBytes <= |data|
      invariant packets + Split(data[sentBytes..], max) == Split(data, max)
    {
      var remainingBytes := |data| - sentBytes;
      ghost var rest := data[sentBytes..];
      if remainingBytes <= max {
        packets := packets + [Body(true, false, data[sentBytes..])];
        sentBytes := sentBytes + remainingBytes;
        assert Split(rest, max) == [Body(true, false, rest)] + Split(data[sentBytes..], max);
      } else {
        packets := packets + [Body(false, false, data[sentBytes..sentBytes + max])];
        assert rest[..max] == data[sentBytes..sentBytes + max];
        sentBytes := sentBytes + max;
        assert rest[max..] == data[sentBytes..];
      }
    }
  }

  /** One `Recv` on a channel holding `ch`, after `b` was already read: the message and what is left
      in the channel, or nothing as long as no final chunk has come. */
  function Take(b: Bytes, ch: seq<Body>): Option<(Bytes, seq<Body>)>
    decreases |ch|
  {
    if ch == [] then None
    else if ch[0].finalChunk then Some((b + ch[0].payload, ch[1..]))
    else Take(b + ch[0].payload, ch[1..])
  }

  method Recv(ch: seq<Body>) returns (r: Option<(Bytes, seq<Body>)>)
    ensures r == Take([], ch)
  {
    var b: Bytes := [];
    var i := 0;
    assert ch[0..] == ch;
    while i < |ch|
      invariant 0 <= i <= |ch|
      invariant Take(b, ch[i..]) == Take([], ch)
    {
      var msg := ch[i];
      assert ch[i..][1..] == ch[i + 1..];
      b := b + msg.payload;
      i := i + 1;
      if msg.finalChunk {
        return Some((b, ch[i..]));
      }
    }
    r := None;
  }

  lemma {:induction false} TakeShrinks(b: Bytes, ch: seq<Body>)
    ensures Take(b, ch).Some? ==> |Take(b, ch).value.1| < |ch|
    decreases |ch|
  {
    if ch != [] && !ch[0].finalChunk {
      TakeShrinks(b + ch[0].payload, ch[1..]);
    }
  }

  /** Everything that repeated calls of `Recv` return. */
  function Received(ch: seq<Body>): seq<Bytes>
    decreases |ch|
  {
    TakeShrinks([], ch);
    match Take([], ch)
    case None => []
    case Some((m, rest)) => [m] + Received(rest)
  }

  /** A channel that starts with all chunks of a message yields that message. */
  lemma {:induction false} TakeSplit(b: Bytes, data: Bytes, max: nat, rest: seq<Body>)
    requires max > 0 && data != []
    ensures Take(b, Split(data, max) + rest) == Some((b + data, rest))
    decreases |data|
  {
    var ch := Split(data, max) + rest;
    if |data| <= max {
      assert ch[1..] == rest;
    } else {
      assert ch[1..] == Split(data[max..], max) + rest;
      TakeSplit(b + data[..max], data[max..], max, rest);
      assert b + data[..max] + data[max..] == b + data;
    }
  }

  /** A channel that holds only some of its chunks yields nothing yet. */
  lemma {:induction false} TakePartial(b: Bytes, data: Bytes, max: nat, p: seq<Body>)
    requires p <= Chunks(data, max) && |p| < |Chunks(data, max)|
    ensures Take(b, p) == None
    decreases |data|
  {
    if p != [] {
      assert |data| > max > 0;
      assert p[0] == Chunks(data, max)[0];
      assert p[1..] <= Chunks(data[max..], max) by {
        assert Chunks(data, max)[1..] == Chunks(data[max..], max);
        assert p[1..] == Chunks(data, max)[1..][..|p| - 1];
      }
      TakePartial(b + p[0].payload, data[max..], max, p[1..]);
    }
  }

  /** An empty message has no chunks when splitting is enabled: it is never sent. */
  function Sendable(msgs: seq<Bytes>, max: nat): seq<Bytes> {
    if msgs == [] then []
    else (if max > 0 && msgs[0] == [] then [] else [msgs[0]]) + Sendable(msgs[1..], max)
  }

  /** All messages are sent exactly when splitting is off or none of them is empty. */
  lemma {:induction false} AllSendable(msgs: seq<Bytes>, max: nat)
    ensures |Sendable(msgs, max)| <= |msgs|
    ensures Sendable(msgs, max) == msgs <==> max == 0 || [] !in msgs
  {
    if msgs != [] {
      AllSendable(msgs[1..], max);
      assert msgs == [msgs[0]] + msgs[1..];
      if !(max > 0 && msgs[0] == []) {
        assert Sendable(msgs, max)[1..] == Sendable(msgs[1..], max);
      }
    }
  }

  /** With chunks of at most one byte, an empty message between two others is dropped. */
  lemma {:induction false} EmptyMessageDropped()
    ensures Sendable([[Raw(1)], [], [Raw(2)]], 1) == [[Raw(1)], [Raw(2)]] && Chunks([], 1) == []
  {
    var first, last: Bytes := [Raw(1)], [Raw(2)];
    var msgs := [first, [], last];
    assert msgs[1..] == [[], last] && msgs[1..][1..] == [last] && msgs[1..][1..][1..] == [];
    assert Sendable([last], 1) == [last] by { assert [last][1..] == []; }
    assert Sendable([[], last], 1) == [last];
  }

  /** Any prefix of the packets for `msgs` reassembles to a prefix of the messages sent. */
  lemma {:induction false} ReassemblePrefix(p: seq<Body>, msgs: seq<Bytes>, max: nat)
    requires p <= Stream(msgs, max)
    ensures Received(p) <= Sendable(msgs, max)
    ensures p == Stream(msgs, max) ==> Received(p) == Sendable(msgs, max)
    decreases |msgs|
  {
    if msgs != [] {
      var c, rest := Chunks(msgs[0], max), Stream(msgs[1..], max);
      PrefixOfConcat(p, c, rest);
      if |p| < |c| {
        TakePartial([], msgs[0], max, p);
      } else {
        var p' := p[|c|..];
        assert p == c + p';
        ReassemblePrefix(p', msgs[1..], max);
        TakeFirst(msgs[0], max, p');
        assert p == Stream(msgs, max) ==> p' == rest;
      }
    }
  }

  lemma {:induction false} TakeFirst(m: Bytes, max: nat, rest: seq<Body>)
    ensures Received(Chunks(m, max) + rest) ==
            (if max > 0 && m == [] then [] else [m]) + Received(rest)
  {
    var ch := Chunks(m, max) + rest;
    if max == 0 {
      assert ch[1..] == rest;
      assert [] + m == m;
    } else if m == [] {
      assert ch == rest;
    } else {
      TakeSplit([], m, max, rest);
      assert [] + m == m;
    }
  }

  /** What the receiving goroutine passes up: everything but pings. */
  function NonPing(bodies: seq<Body>): seq<Body> {
    if bodies == [] then []
    else NonPing(bodies[..|bodies| - 1]) +
         (if bodies[|bodies| - 1].isPing then [] else [bodies[|bodies| - 1]])
  }

  /** A ping anywhere makes no difference; everything else is passed up in its place. */
  lemma {:induction false} NonPingExact(before: seq<Body>, x: Body, after: seq<Body>)
    ensures NonPing(before + [x] + after) == NonPing(before) + (if x.isPing then [] else [x]) + NonPing(after)
    decreases |after|
  {
    hide NonPing;
    var up := if x.isPing then [] else [x];
    if after == [] {
      assert before + [x] + after == before + [x];
      NonPingLast(before, x);
      assert NonPing([]) == [] by { NonPingNone(); }
      assert NonPing(before) + up + [] == NonPing(before) + up;
    } else {
      var last, rest := after[|after| - 1], after[..|after| - 1];
      NonPingExact(before, x, rest);
      assert after == rest + [last];
      Assoc(before + [x], rest, [last]);
      NonPingLast(before + [x] + rest, last);
      NonPingLast(rest, last);
      Assoc(NonPing(before) + up, NonPing(rest), if last.isPing then [] else [last]);
    }
  }

  lemma {:induction false} NonPingNone()
    ensures NonPing([]) == []
  {
  }

  lemma {:induction false} NonPingLast(before: seq<Body>, x: Body)
    ensures NonPing(before + [x]) == NonPing(before) + if x.isPing then [] else [x]
  {
    assert (before + [x])[..|before|] == before;
  }

  lemma {:induction false} NonPingPrefix(p: seq<Body>, q: seq<Body>)
    requires p <= q
    ensures NonPing(p) <= NonPing(q)
    decreases |q|
  {
    if p != q {
      NonPingPrefix(p, q[..|q| - 1]);
    }
  }

  /** End to end: whatever schedule was run, and wherever pings were sent in between, if one
      application has sent `msgs` one after another, the other one receives a prefix of them, whole
      and in order; and all of them once every packet has been accepted. */
  lemma {:induction false} EndToEnd(w: World, left: bool, msgs: seq<Bytes>, max: nat, cfg: Config)
    requires ConfigOk(cfg) && Reachable(w, cfg)
    requires NonPing(w.From(left).me.added) <= Stream(msgs, max)
    ensures var v := w.From(left);
            && Received(NonPing(v.peer.accepted)) <= Sendable(msgs, max)
            && (v.peer.accepted == v.me.added && NonPing(v.me.added) == Stream(msgs, max) ==>
                  Received(NonPing(v.peer.accepted)) == Sendable(msgs, max))
  {
    var v := w.From(left);
    PrefixDelivery(w, cfg);
    NonPingPrefix(v.peer.accepted, v.me.added);
    ReassemblePrefix(NonPing(v.peer.accepted), msgs, max);
  }
}
