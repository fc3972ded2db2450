/** Encrypted messages after the handshake: buffering, partial writes, reading (mailbox/noise.go). */
module Transport {
  import opened Common
  import opened Terms
  import opened Ciphers

  type Text = seq<uint8>

  const MAX_MESSAGE: nat := 65535
  const HEADER_SIZE: nat := 18

  /** The transport phase uses no associated data. */
  const NO_AD: Term := Plain([])

  /** The two ciphertexts of message `p`: its length, and the message itself. */
  function Header(c: Cipher, p: Text): Wire { Bytes(Sealed(c, NO_AD, Plain(Be16(|p|)))) }

  function Body(c: Cipher, p: Text): Wire { Bytes(Sealed(Bumped(c), NO_AD, Plain(p))) }

  function Frame(c: Cipher, p: Text): Wire { Header(c, p) + Body(c, p) }

  lemma {:induction false} FrameSizes(c: Cipher, p: Text)
    ensures |Header(c, p)| == HEADER_SIZE && |Body(c, p)| == |p| + MAC_SIZE
  {
    assert Len(Plain(Be16(|p|))) == 2;
    assert Len(Plain(p)) == |p|;
  }

  /** A message costs 34 bytes, and the longest one accepted is the longest whose length the header can
      carry. */
  lemma {:induction false} FrameLimits(c: Cipher, p: Text)
    ensures |Frame(c, p)| == |p| + 34
    ensures |p| <= MAX_MESSAGE <==> FromBe16(Be16(|p|)) == |p|
  {
    FrameSizes(c, p);
    Be16RoundTrip(|p|);
  }

  /** Message `k` of a cipher, byte for byte: its length under nonce `2k % 1000` and its text under the next
      nonce, both with the key of that epoch. */
  lemma {:induction false} FrameExact(c: Cipher, k: nat, p: Text)
    requires c.nonce == 0
    ensures var key, nonce := Epoch(c, 2 * k / 1000).key, 2 * k % 1000;
            Frame(After(c, 2 * k), p) ==
            Bytes(Seal(key, nonce, Plain([]), Plain(Be16(|p|)))) + Bytes(Seal(key, nonce + 1, Plain([]), Plain(p)))
  {
    AfterIsEpoch(c, 2 * k);
    MessageWithinEpoch(c, k);
  }

  /** The ciphertext of a run of messages. */
  function Frames(c: Cipher, msgs: seq<Text>): Wire
    decreases |msgs|
  {
    if msgs == [] then [] else Frame(c, msgs[0]) + Frames(After(c, 2), msgs[1..])
  }

  // -------------------------------------------------------------------------
  // Reading

  /** `Short`: the stream ends inside the message; `Bad`: it does not decrypt. */
  datatype ReadResult = Short | Bad | Got(text: Text, cipher: Cipher, rest: Wire)

  /** `ReadMessage`: header, then as many bytes as it announces. */
  function ReadMessage(c: Cipher, wire: Wire): ReadResult {
    if |wire| < HEADER_SIZE then Short else
    match Opened(c, NO_AD, wire[..HEADER_SIZE])
    case Some(Plain(pktLen)) =>
      if |pktLen| != 2 then Bad
      else ReadBody(Bumped(c), FromBe16(pktLen) + MAC_SIZE, wire[HEADER_SIZE..])
    case _ => Bad
  }

  function ReadBody(c: Cipher, size: nat, wire: Wire): ReadResult {
    if |wire| < size then Short else
    match Opened(c, NO_AD, wire[..size])
    case Some(Plain(text)) => Got(text, Bumped(c), wire[size..])
    case _ => Bad
  }

  /** The cipher after an attempt to read, which every decryption advances, successful or not. */
  function CipherAfter(c: Cipher, wire: Wire): Cipher {
    if |wire| < HEADER_SIZE then c else
    match Opened(c, NO_AD, wire[..HEADER_SIZE])
    case Some(Plain(pktLen)) =>
      if |pktLen| != 2 || |wire| - HEADER_SIZE < FromBe16(pktLen) + MAC_SIZE then Bumped(c) else Bumped(Bumped(c))
    case _ => Bumped(c)
  }

  /** A receiver in step with the sender reads the message, and stays in step. */
  lemma {:induction false} ReadFrame(c: Cipher, p: Text, rest: Wire)
    requires |p| <= MAX_MESSAGE
    ensures ReadMessage(c, Frame(c, p) + rest) == Got(p, After(c, 2), rest)
  {
    hide Be16, FromBe16;
    var header, body := Header(c, p), Body(c, p);
    var wire := Frame(c, p) + rest;
    FrameSizes(c, p);
    assert wire == header + (body + rest);
    TakeDrop(header, body + rest);
    TakeDrop(body, rest);
    Be16RoundTrip(|p|);
    OpenedSealed(c, NO_AD, Plain(Be16(|p|)));
    OpenedSealed(Bumped(c), NO_AD, Plain(p));
    assert After(c, 2) == Bumped(Bumped(c)) by { assert After(c, 1) == Bumped(After(c, 0)); }
  }

  /** And nothing else is taken for a message: what is read is the next message of an equal cipher, of any
      length that fits, and the reader is then two operations further. */
  lemma {:induction false} ReadExact(c: Cipher, wire: Wire, p: Text, c': Cipher, rest: Wire)
    ensures ReadMessage(c, wire) == Got(p, c', rest) <==>
            |p| <= 65535 && wire == Frame(c, p) + rest && c' == After(c, 2)
  {
    if |p| <= MAX_MESSAGE {
      ReadFrame(c, p, rest);
    }
    if ReadMessage(c, wire) == Got(p, c', rest) {
      var len := Opened(c, NO_AD, wire[..HEADER_SIZE]).value.bytes;
      OpenedExact(c, NO_AD, wire[..HEADER_SIZE], Plain(len));
      var body := wire[HEADER_SIZE..];
      var size := FromBe16(len) + MAC_SIZE;
      OpenedExact(Bumped(c), NO_AD, body[..size], Plain(p));
      assert |Bytes(Sealed(Bumped(c), NO_AD, Plain(p)))| == |p| + MAC_SIZE by { FrameSizes(c, p); }
      Be16Unique(len);
      assert wire == wire[..HEADER_SIZE] + (body[..size] + body[size..]);
      Assoc(wire[..HEADER_SIZE], body[..size], body[size..]);
      assert After(c, 2) == Bumped(Bumped(c)) by { assert After(c, 1) == Bumped(After(c, 0)); }
    }
  }

  /** A receiver that has only part of the message waits. */
  lemma {:induction false} ReadPartial(c: Cipher, p: Text, wire: Wire)
    requires |p| <= MAX_MESSAGE && wire <= Frame(c, p) && |wire| < |Frame(c, p)|
    ensures ReadMessage(c, wire) == Short
  {
    var header, body := Header(c, p), Body(c, p);
    FrameSizes(c, p);
    if |wire| >= HEADER_SIZE {
      PrefixOfConcat(wire, header, body);
      assert wire[..HEADER_SIZE] == header;
      OpenedSealed(c, NO_AD, Plain(Be16(|p|)));
      Be16RoundTrip(|p|);
    }
  }

  /** Everything that repeated reads return. */
  function ReadAll(c: Cipher, wire: Wire): seq<Text>
    decreases |wire|
  {
    match ReadMessage(c, wire)
    case Got(text, c', rest) => [text] + ReadAll(c', rest)
    case _ => []
  }

  predicate Fit(msgs: seq<Text>) { forall i :: 0 <= i < |msgs| ==> |msgs[i]| <= MAX_MESSAGE }

  /** In a run of any length, the receiver decrypts a prefix of the messages from a prefix of the
      bytes, and all of them from all of the bytes. */
  lemma {:induction false} NothingToRead(c: Cipher)
    ensures ReadAll(c, []) == []
  {
  }

  lemma {:induction false} ReadAllPrefix(c: Cipher, msgs: seq<Text>, wire: Wire)
    requires Fit(msgs) && wire <= Frames(c, msgs)
    ensures ReadAll(c, wire) <= msgs
    ensures wire == Frames(c, msgs) ==> ReadAll(c, wire) == msgs
    decreases |msgs|
  {
    hide Frame, ReadMessage, After;
    if msgs == [] {
      assert ReadAll(c, []) == [] by { NothingToRead(c); }
    } else {
      var frame, rest := Frame(c, msgs[0]), Frames(After(c, 2), msgs[1..]);
      PrefixOfConcat(wire, frame, rest);
      if |wire| < |frame| {
        ReadPartial(c, msgs[0], wire);
      } else {
        var wire' := wire[|frame|..];
        assert wire == frame + wire';
        ReadFrame(c, msgs[0], wire');
        ReadAllPrefix(After(c, 2), msgs[1..], wire');
        assert wire == Frames(c, msgs) ==> wire' == rest;
      }
    }
  }

  // -------------------------------------------------------------------------
  // Writing

  /** A buffered message, as far as it has not been written out. */
  datatype Pending = Pending(header: Wire, body: Wire) {
    function All(): Wire { header + body }
    /** Plaintext bytes not yet written: the MAC at the end does not count. */
    function PlainLeft(): nat { if |body| > MAC_SIZE then |body| - MAC_SIZE else 0 }
  }

  /** What one `Write` of the underlying connection reports. */
  datatype Written = Written(n: nat, failed: bool)

  /** The contract of io.Writer: a short write comes with an error. */
  predicate Obeys(w: Written, len: nat) { w.n <= len && (w.n < len ==> w.failed) }

  datatype Flushed = Flushed(left: Pending, out: Wire, count: nat, failed: bool)

  /** One call of `Flush`; `w1` and `w2` are the outcomes of its writes, if it comes to them. */
  function FlushOnce(p: Pending, w1: Written, w2: Written): Flushed
    requires |p.header| > 0 ==> Obeys(w1, |p.header|)
    requires |p.body| > 0 ==> Obeys(w2, |p.body|)
  {
    if |p.header| > 0 && w1.failed then
      Flushed(p.(header := p.header[w1.n..]), p.header[..w1.n], 0, true)
    else if |p.body| > 0 then
      Flushed(Pending([], p.body[w2.n..]), p.header + p.body[..w2.n], Counted(|p.body|, w2.n), w2.failed)
    else Flushed(Pending([], []), p.header, 0, false)
  }

  /** The three cases of the source: the write straddles message and MAC, stays in the message, or
      only writes MAC bytes. */
  function Counted(len: nat, n: nat): nat
    requires n <= len
  {
    var start, end := len, len - n;
    if start > MAC_SIZE && end <= MAC_SIZE then n - (MAC_SIZE - end)
    else if start > MAC_SIZE && end > MAC_SIZE then n
    else 0
  }

  /** One flush writes the next bytes in order and counts exactly the plaintext among them. */
  lemma {:induction false} FlushAccounts(p: Pending, w1: Written, w2: Written)
    requires |p.header| > 0 ==> Obeys(w1, |p.header|)
    requires |p.body| > 0 ==> Obeys(w2, |p.body|)
    ensures var f := FlushOnce(p, w1, w2);
            && f.out + f.left.All() == p.All()
            && f.count + f.left.PlainLeft() == p.PlainLeft()
            && (!f.failed ==> f.left == Pending([], []))
  {
  }

  /** It writes exactly as many bytes as its writes report, and fails exactly when one of them does. */
  lemma {:induction false} FlushReports(p: Pending, w1: Written, w2: Written)
    requires |p.header| > 0 ==> Obeys(w1, |p.header|)
    requires |p.body| > 0 ==> Obeys(w2, |p.body|)
    ensures var f, stuck := FlushOnce(p, w1, w2), |p.header| > 0 && w1.failed;
            && |f.out| == (if |p.header| > 0 then w1.n else 0) + (if !stuck && |p.body| > 0 then w2.n else 0)
            && (f.failed <==> stuck || (|p.body| > 0 && w2.failed))
  {
  }

  /** A series of flushes; it may stop at any point. */
  function FlushMany(p: Pending, ws: seq<(Written, Written)>): Option<Flushed>
    decreases |ws|
  {
    if ws == [] then Some(Flushed(p, [], 0, false))
    else if |p.header| > 0 && !Obeys(ws[0].0, |p.header|) then None
    else if |p.body| > 0 && !Obeys(ws[0].1, |p.body|) then None
    else
      var f := FlushOnce(p, ws[0].0, ws[0].1);
      match FlushMany(f.left, ws[1..])
      case None => None
      case Some(g) => Some(g.(out := f.out + g.out, count := f.count + g.count))
  }

  /** Over any series of flushes with any partial writes, header and body go out exactly once, in
      order; the counts add up to the plaintext written, and to the whole message once nothing is
      left. */
  lemma {:induction false} FlushManyExact(p: Pending, ws: seq<(Written, Written)>)
    requires FlushMany(p, ws).Some?
    ensures var f := FlushMany(p, ws).value;
            && f.out + f.left.All() == p.All()
            && f.count + f.left.PlainLeft() == p.PlainLeft()
            && (f.left.All() == [] ==> f.out == p.All() && f.count == p.PlainLeft())
    decreases |ws|
  {
    if ws != [] {
      var f := FlushOnce(p, ws[0].0, ws[0].1);
      FlushAccounts(p, ws[0].0, ws[0].1);
      FlushManyExact(f.left, ws[1..]);
      var g := FlushMany(f.left, ws[1..]).value;
      Assoc(f.out, g.out, g.left.All());
    }
  }

  class Machine {
    const sendCipher: CipherState
    const recvCipher: CipherState
    var nextHeaderSend: Wire
    var nextBodySend: Wire

    /** The transport phase starts with the two ciphers made by the handshake. */
    constructor (send: Cipher, recv: Cipher)
      requires send.nonce == recv.nonce == 0
      ensures Valid() && fresh(sendCipher) && fresh(recvCipher)
      ensures sendCipher.Value() == send && recvCipher.Value() == recv && Value() == Pending([], [])
    {
      sendCipher := new CipherState();
      recvCipher := new CipherState();
      nextHeaderSend, nextBodySend := [], [];
      new;
      sendCipher.InitializeKeyWithSalt(send.salt, send.key);
      recvCipher.InitializeKeyWithSalt(recv.salt, recv.key);
    }

    predicate Valid() { sendCipher != recvCipher }

    function Value(): Pending
      reads this
    {
      Pending(nextHeaderSend, nextBodySend)
    }

    /** Encrypts and buffers a message, unless it is too long or another one is still buffered. */
    method WriteMessage(p: Text) returns (ok: bool)
      requires Valid()
      modifies this, sendCipher
      ensures ok <==> |p| <= MAX_MESSAGE && old(Value()) == Pending([], [])
      ensures ok ==>
                var c := old(sendCipher.Value());
                && Value() == Pending(Header(c, p), Body(c, p)) && sendCipher.Value() == After(c, 2)
                && Value().PlainLeft() == |p|
      ensures !ok ==> Value() == old(Value()) && sendCipher.Value() == old(sendCipher.Value())
    {
      if |p| > MAX_MESSAGE { return false; }
      if |nextHeaderSend| > 0 || |nextBodySend| > 0 { return false; }
      ghost var c := sendCipher.Value();
      FrameSizes(c, p);
      assert After(c, 2) == Bumped(Bumped(c)) by { assert After(c, 1) == Bumped(After(c, 0)); }
      var header := sendCipher.Encrypt(NO_AD, Plain(Be16(|p|)));
      nextHeaderSend := Bytes(header);
      var body := sendCipher.Encrypt(NO_AD, Plain(p));
      nextBodySend := Bytes(body);
      ok := true;
    }

    /** Writes out as much as the underlying connection takes. */
    method Flush(w1: Written, w2: Written) returns (nn: nat, failed: bool, out: Wire)
      requires |nextHeaderSend| > 0 ==> Obeys(w1, |nextHeaderSend|)
      requires |nextBodySend| > 0 ==> Obeys(w2, |nextBodySend|)
      modifies this
      ensures var f := FlushOnce(old(Value()), w1, w2);
              Value() == f.left && nn == f.count && failed == f.failed && out == f.out
    {
      out := [];
      if |nextHeaderSend| > 0 {
        out := nextHeaderSend[..w1.n];
        nextHeaderSend := nextHeaderSend[w1.n..];
        if w1.failed { return 0, true, out; }
      }
      nn := 0;
      if |nextBodySend| > 0 {
        var n := w2.n;
        out := out + nextBodySend[..n];
        nextBodySend := nextBodySend[n..];
        var start, end := n + |nextBodySend|, |nextBodySend|;
        if start > MAC_SIZE && end <= MAC_SIZE {
          nn := n - (MAC_SIZE - end);
        } else if start > MAC_SIZE && end > MAC_SIZE {
          nn := n;
        }
        if w2.failed { return nn, true, out; }
      }
      failed := false;
    }

    /** Reads the next message off the wire. */
    method ReadNext(wire: Wire) returns (r: ReadResult)
      requires Valid()
      modifies recvCipher
      ensures r == ReadMessage(old(recvCipher.Value()), wire)
      ensures recvCipher.Value() == CipherAfter(old(recvCipher.Value()), wire)
      ensures r.Got? ==> recvCipher.Value() == r.cipher
    {
      if |wire| < HEADER_SIZE { return Short; }
      var header := recvCipher.Decrypt(NO_AD, wire[..HEADER_SIZE]);
      if header == None || !header.value.Plain? || |header.value.bytes| != 2 { return Bad; }
      var size := FromBe16(header.value.bytes) + MAC_SIZE;
      var rest := wire[HEADER_SIZE..];
      if |rest| < size { return Short; }
      var body := recvCipher.Decrypt(NO_AD, rest[..size]);
      if body == None || !body.value.Plain? { return Bad; }
      r := Got(body.value.bytes, recvCipher.Value(), rest[size..]);
    }
  }
}
