/** The send queue and the resend synchroniser (gbn/queue.go, gbn/syncer.go). */
module SendQueue {
  import opened Common
  import opened Messages
  import opened SequenceNumbers

  /** The value of a queue: `slots` has `s` entries, indexed by sequence number. */
  datatype Window = Window(base: uint8, top: uint8, slots: seq<Option<Message>>)

  predicate WindowOk(q: Window, s: uint8) {
    q.base < s && q.top < s && |q.slots| == s as int
  }

  function EmptyWindow(s: uint8): Window { Window(0, 0, seq(s as int, _ => None)) }

  function Added(q: Window, body: Body, s: uint8): Window
    requires WindowOk(q, s)
  {
    q.(slots := q.slots[q.top := Some(Data(q.top, body))], top := Next(q.top, s))
  }

  function Acked(q: Window, num: uint8, s: uint8): Window
    requires WindowOk(q, s)
  {
    q.(base := AckBase(q.base, q.top, num, s))
  }

  function Nacked(q: Window, num: uint8): Window { q.(base := NackBase(q.base, q.top, num)) }

  /** The value of a syncer. */
  datatype Sync = Sync(resending: bool, expectedAck: uint8, expectedNack: uint8)

  /** `(s + top - 1) % s` on bytes: the sum wraps at 256. */
  function ExpectedAck(top: uint8, s: uint8): uint8
    requires s > 0
  {
    (((s as int + top as int - 1) % 256) % s as int) as uint8
  }

  function SyncStarted(top: uint8, s: uint8): Sync
    requires s > 0
  {
    Sync(true, ExpectedAck(top, s), top)
  }

  function SyncNacked(c: Sync, num: uint8): Sync {
    if c.resending && num == c.expectedNack then c.(resending := false) else c
  }

  /** The number that precedes `top` on the circle of `s` numbers. */
  function Pred(top: uint8, s: uint8): uint8
    requires s > 0
  {
    if top == 0 then s - 1 else top - 1
  }

  /** The syncer waits for the ACK of the last resent packet exactly when its 8-bit sum does not
      wrap. For `s <= 128` it never does; for every larger `s` there are values of `top` for which
      the syncer waits for the wrong ACK. */
  lemma {:induction false} ExpectedAckExact(top: uint8, s: uint8)
    requires top < s
    ensures ExpectedAck(top, s) == Pred(top, s) <==> s as int + top as int <= 256
    ensures s <= 128 ==> ExpectedAck(top, s) == Pred(top, s)
  {
    var v := s as int + top as int - 1;
    ModIsRemainder(v % 256, s as int);
    if v < 256 {
      assert v % 256 == v;
    } else {
      assert v % 256 == v - 256;
    }
  }

  /** A window of 200 packets and a resend up to packet 100: the syncer expects the ACK of packet 44. */
  lemma {:induction false} ExpectedAckWraps()
    ensures ExpectedAck(100, 201) == 44 && Pred(100, 201) == 99
  {
    ModIsRemainder((201 + 100 - 1) % 256, 201);
  }

  /** Either answer the syncer waits for empties a non-empty queue. */
  lemma {:induction false} SyncEmptiesQueue(b: nat, t: nat, s: uint8)
    requires s > 0 && b < t < b + s as int
    ensures var base, top := SeqOf(b, s), SeqOf(t, s);
            && NackBase(base, top, SyncStarted(top, s).expectedNack) == top
            && (s as int + top as int <= 256 ==>
                 AckBase(base, top, SyncStarted(top, s).expectedAck, s) == top)
  {
    AckDecodes(b, t, t, s);
    NackDecodes(b, t, t, s);
    ExpectedAckExact(SeqOf(t, s), s);
    assert SeqOf(t, s) == Next(SeqOf(t - 1, s), s);
  }

  /** A NACK whose number no packet can carry, on a window that wraps around: the base is no number
      of this queue any more. */
  lemma {:induction false} NackSpoilsWindow()
    ensures var q := Window(2, 1, seq(3, _ => None)); WindowOk(q, 3) && !WindowOk(Nacked(q, 200), 3)
  {
  }

  class Syncer {
    const s: uint8
    var resending: bool
    var expectedACK: uint8
    var expectedNACK: uint8

    constructor (s: uint8)
      requires s > 0
      ensures this.s == s && Value() == Sync(false, 0, 0)
    {
      this.s := s;
      resending := false;
      expectedACK, expectedNACK := 0, 0;
    }

    function Value(): Sync
      reads this
    {
      Sync(resending, expectedACK, expectedNACK)
    }

    method InitResendUpTo(top: uint8)
      requires s > 0
      modifies this
      ensures Value() == SyncStarted(top, s)
    {
      resending := true;
      ModIsRemainder((s as int + top as int - 1) % 256, s as int);
      expectedACK := (((s as int + top as int - 1) % 256) % s as int) as uint8;
      expectedNACK := top;
    }

    /** `wait`: the expected ACK came, a timer is started that will complete the sync. */
    method ProcessACK(num: uint8) returns (wait: bool)
      ensures wait <==> resending && num == expectedACK
    {
      if !resending { return false; }
      if num != expectedACK { return false; }
      wait := true;
    }

    method ProcessNACK(num: uint8)
      modifies this
      ensures Value() == SyncNacked(old(Value()), num)
    {
      if !resending { return; }
      if num != expectedNACK { return; }
      Reset();
    }

    /** The sync is over: by the expected NACK, by the expected ACK and its timer, or by a timeout. */
    method WaitForSync()
      modifies this
      ensures Value() == old(Value()).(resending := false)
    {
      Reset();
    }

    method Reset()
      modifies this
      ensures Value() == old(Value()).(resending := false)
    {
      resending := false;
    }
  }

  class Queue {
    const s: uint8
    const content: array<Option<Message>>
    const syncer: Syncer
    var sequenceBase: uint8
    var sequenceTop: uint8

    constructor (s: uint8)
      requires s > 0
      ensures Valid() && this.s == s && fresh(content) && fresh(syncer)
      ensures Value() == EmptyWindow(s) && syncer.Value() == Sync(false, 0, 0)
    {
      this.s := s;
      content := new Option<Message>[s](_ => None);
      syncer := new Syncer(s);
      sequenceBase, sequenceTop := 0, 0;
    }

    predicate Valid()
      reads this, content
    {
      syncer.s == s && WindowOk(Value(), s)
    }

    function Value(): Window
      reads this, content
    {
      Window(sequenceBase, sequenceTop, content[..])
    }

    /** `size`, computed on bytes without overflow. */
    method Size() returns (r: uint8)
      requires Valid()
      ensures r == SequenceNumbers.Size(sequenceBase, sequenceTop, s)
    {
      if sequenceTop >= sequenceBase {
        return sequenceTop - sequenceBase;
      }
      return sequenceTop + (s - sequenceBase);
    }

    /** The packet is labelled with the top of the window and stored there. */
    method AddPacket(body: Body) returns (packet: Message)
      requires Valid()
      modifies this, content
      ensures Valid() && Value() == Added(old(Value()), body, s)
      ensures packet == Data(old(sequenceTop), body)
    {
      NextIsIncrement(sequenceTop, s);
      packet := Data(sequenceTop, body);
      content[sequenceTop] := Some(packet);
      sequenceTop := (sequenceTop + 1) % s;
    }

    /** The base is moved on the numbers alone; see `AckDecodes` for what that means. */
    method ProcessACK(num: uint8) returns (valid: bool, wait: bool)
      requires Valid()
      modifies this
      ensures Valid() && Value() == Acked(old(Value()), num, s)
      ensures valid == AckValid(old(sequenceBase), old(sequenceTop), num, s)
      ensures wait <==> old(sequenceBase != sequenceTop) && syncer.resending && num == syncer.expectedACK
    {
      var size := Size();
      if size == 0 { return false, false; }
      wait := syncer.ProcessACK(num);
      if num == sequenceBase {
        NextIsIncrement(sequenceBase, s);
        sequenceBase := (sequenceBase + 1) % s;
        return true, wait;
      }
      if ContainsSequence(sequenceBase, sequenceTop, num) {
        NextIsIncrement(num, s);
        ModIsRemainder((num as int + 1) % 256, s as int);
        sequenceBase := (((num as int + 1) % 256) % s as int) as uint8;
        return true, wait;
      }
      return false, wait;
    }

    /** The source does not check that the number is below `s`, which every number of a peer that
        follows the protocol is; a larger one spoils a window that wraps around. */
    method ProcessNACK(num: uint8) returns (resend: bool, bumped: bool)
      requires Valid()
      modifies this, syncer
      ensures Value() == Nacked(old(Value()), num)
      ensures Valid() <==> num < s || old(sequenceBase) <= old(sequenceTop)
      ensures syncer.Value() == SyncNacked(old(syncer.Value()), num)
      ensures resend == NackResend(old(sequenceBase), old(sequenceTop), num)
      ensures bumped == NackBumped(old(sequenceBase), old(sequenceTop), num)
    {
      syncer.ProcessNACK(num);
      if num == sequenceTop {
        sequenceBase := sequenceTop;
        return false, true;
      }
      if !ContainsSequence(sequenceBase, sequenceTop, num) {
        return false, false;
      }
      bumped := false;
      if sequenceBase != num {
        bumped := true;
      }
      sequenceBase := num;
      resend := true;
    }

    /** `resend` with nothing else going on: the packets from base to top, in order. `recently` is
        the outcome of the wall-clock test. The method returns when the sync is over. */
    method Resend(recently: bool) returns (out: seq<Message>)
      requires Valid() && WindowHolds(Value(), s)
      modifies syncer
      ensures out == (if recently then [] else Outstanding(Value(), s))
      ensures syncer.Value() == (if recently || sequenceBase == sequenceTop then old(syncer.Value())
                                 else SyncStarted(sequenceTop, s).(resending := false))
    {
      hide ExpectedAck, OutstandingFrom, WindowHolds;
      out := [];
      if recently { return; }
      var size := Size();
      if size == 0 {
        OutstandingEnd(Value(), 0, s, []);
        return;
      }
      var base, top := sequenceBase, sequenceTop;
      if base == top { return; }
      syncer.InitResendUpTo(top);
      ghost var count := size as int;
      ghost var done := 0;
      SlotWalk(Value(), 0, s);
      while base != top
        invariant 0 <= done <= count == SequenceNumbers.Size(sequenceBase, top, s) as int
        invariant base == Slot(sequenceBase, done, s)
        invariant out + OutstandingFrom(Value(), done, s) == Outstanding(Value(), s)
        invariant syncer.Value() == SyncStarted(top, s)
        decreases count - done
      {
        SlotWalk(Value(), done, s);
        NextPacket(Value(), done, s, out);
        var packet := content[base];
        out := out + [packet.value];
        base := (base + 1) % s;
        done := done + 1;
        SlotWalk(Value(), done, s);
      }
      OutstandingEnd(Value(), done, s, out);
      syncer.WaitForSync();
    }
  }

  /** The slot `i` places after `base`. */
  function Slot(base: uint8, i: nat, s: uint8): uint8
    requires base < s && i < s as int
  {
    if base as int + i < s as int then (base as int + i) as uint8 else (base as int + i - s as int) as uint8
  }

  /** Walking from base to top meets the outstanding packets and stops after the last of them. */
  lemma {:induction false} SlotWalk(q: Window, i: nat, s: uint8)
    requires WindowOk(q, s) && i <= Size(q.base, q.top, s) as int
    ensures i < s as int && (Slot(q.base, i, s) == q.top <==> i == Size(q.base, q.top, s) as int)
    ensures Slot(q.base, 0, s) == q.base
    ensures i < Size(q.base, q.top, s) as int ==>
              && i + 1 < s as int
              && Slot(q.base, i + 1, s) == (Slot(q.base, i, s) + 1) % s
  {
    NextIsIncrement(Slot(q.base, i, s), s);
  }

  /** Every outstanding packet is stored. */
  predicate WindowHolds(q: Window, s: uint8)
    requires WindowOk(q, s)
  {
    forall i :: 0 <= i < Size(q.base, q.top, s) as int ==>
      q.slots[Slot(q.base, i, s)].Some? && q.slots[Slot(q.base, i, s)].value.Data?
  }

  /** The stored packets from the `i`-th outstanding one on. */
  function OutstandingFrom(q: Window, i: nat, s: uint8): seq<Message>
    requires WindowOk(q, s)
    decreases s as int - i
  {
    if i >= Size(q.base, q.top, s) as int then []
    else (match q.slots[Slot(q.base, i, s)] case Some(m) => [m] case None => []) + OutstandingFrom(q, i + 1, s)
  }

  lemma {:induction false} NextPacket(q: Window, i: nat, s: uint8, out: seq<Message>)
    requires WindowOk(q, s) && WindowHolds(q, s) && i < Size(q.base, q.top, s) as int
    ensures q.slots[Slot(q.base, i, s)].Some?
    ensures out + [q.slots[Slot(q.base, i, s)].value] + OutstandingFrom(q, i + 1, s) == out + OutstandingFrom(q, i, s)
  {
    Assoc(out, [q.slots[Slot(q.base, i, s)].value], OutstandingFrom(q, i + 1, s));
  }

  lemma {:induction false} OutstandingEnd(q: Window, i: nat, s: uint8, out: seq<Message>)
    requires WindowOk(q, s) && i == Size(q.base, q.top, s) as int
    ensures out + OutstandingFrom(q, i, s) == out
  {
  }

  function Outstanding(q: Window, s: uint8): seq<Message>
    requires WindowOk(q, s)
  {
    OutstandingFrom(q, 0, s)
  }
}
