/** Byte streams over encrypted messages (mailbox/tcp_noise_conn.go, mailbox/grpc_noise_conn.go). */
module ByteStreams {
  import opened Common
  import opened Terms
  import opened Ciphers
  import opened Transport

  // -------------------------------------------------------------------------
  // Reading through a buffer

  /** What one `NoiseGrpcConn.Read` reports, what it really copies, and what it keeps for later. */
  datatype GrpcFetched = GrpcFetched(n: nat, out: Text, left: Text)

  const GRPC_BUF_SIZE: nat := 32768

  /** Go's `copy` into a slice of `k` bytes. */
  function Copied(src: Text, k: nat): (out: Text)
    ensures out <= src && |out| == (if |src| < k then |src| else k)
  {
    if |src| <= k then src else src[..k]
  }

  /** With a carry-over the whole of it is reported; else at most 32 KiB of the new message. */
  function GrpcFetch(nextMsg: Text, msg: Text, k: nat): GrpcFetched {
    if |nextMsg| > 0 then GrpcFetched(|nextMsg|, Copied(nextMsg, k), [])
    else if |msg| > GRPC_BUF_SIZE then
      GrpcFetched(GRPC_BUF_SIZE, Copied(msg[..GRPC_BUF_SIZE], k), msg[GRPC_BUF_SIZE..])
    else GrpcFetched(|msg|, Copied(msg, k), [])
  }

  /** What one read copies and keeps, when it has room for all it reports. */
  lemma {:induction false} GrpcFetchParts(nextMsg: Text, msg: Text, k: nat)
    requires |msg| <= MAX_MESSAGE && |nextMsg| < GRPC_BUF_SIZE && GrpcFetch(nextMsg, msg, k).n <= k
    ensures var f := GrpcFetch(nextMsg, msg, k);
            && f.out + f.left == (if |nextMsg| > 0 then nextMsg else msg)
            && |f.out| == f.n && |f.left| < GRPC_BUF_SIZE
  {
    if |nextMsg| == 0 && |msg| > GRPC_BUF_SIZE {
      assert msg == msg[..GRPC_BUF_SIZE] + msg[GRPC_BUF_SIZE..];
    }
  }

  /** What one read reports: all of the carry-over, or as much of the message as fits 32 KiB; the rest of the
      message is kept, and what is copied is as much of what is reported as the buffer holds. */
  lemma {:induction false} GrpcReports(nextMsg: Text, msg: Text, k: nat)
    ensures var f, whole := GrpcFetch(nextMsg, msg, k), if |nextMsg| > 0 then nextMsg else msg;
            && f.n == (if |nextMsg| == 0 && |msg| > 32768 then 32768 else |whole|)
            && f.left == whole[f.n..] && f.out <= whole && |f.out| == (if f.n < k then f.n else k)
  {
  }

  /** No message and no carry-over loses a byte at this buffer size. */
  ghost predicate NoLoss(k: nat) {
    forall nextMsg: Text, msg: Text | |msg| <= MAX_MESSAGE && |nextMsg| < GRPC_BUF_SIZE ::
      var f := GrpcFetch(nextMsg, msg, k); f.out + f.left == if |nextMsg| > 0 then nextMsg else msg
  }

  /** That is so exactly from 32 KiB on. */
  lemma {:induction false} GrpcFetchExact(k: nat)
    ensures NoLoss(k) <==> k >= 32768
  {
    if k >= GRPC_BUF_SIZE {
      forall nextMsg: Text, msg: Text | |msg| <= MAX_MESSAGE && |nextMsg| < GRPC_BUF_SIZE
        ensures var f := GrpcFetch(nextMsg, msg, k); f.out + f.left == if |nextMsg| > 0 then nextMsg else msg
      {
        GrpcFetchParts(nextMsg, msg, k);
      }
    } else {
      var msg: Text := seq(GRPC_BUF_SIZE, _ => 0);
      var f := GrpcFetch([], msg, k);
      assert |f.out + f.left| == k;
    }
  }

  // -------------------------------------------------------------------------
  // Writing a stream of any length

  /** The messages that `NoiseConn.Write` makes of `b`. */
  function Pieces(b: Text): seq<Text>
    decreases |b|
  {
    if |b| <= MAX_MESSAGE then [b] else [b[..MAX_MESSAGE]] + Pieces(b[MAX_MESSAGE..])
  }

  /** The outcome `w` if it is one an io.Writer may report for `len` bytes, else success. */
  function Conforming(w: Written, len: nat): Written { if Obeys(w, len) then w else Written(len, false) }

  /** The state of the machine after a write, what went out, how many messages were encrypted, and
      what is returned. */
  datatype Wrote = Wrote(cipher: Cipher, pending: Pending, out: Wire, pieces: nat, count: nat, failed: bool)

  /** Each message is buffered and flushed; the first that cannot be buffered or not be flushed in full
      ends the write. `io(j)` says how the writes of the underlying connection for message `j` end. */
  function WritePieces(c: Cipher, p: Pending, pieces: seq<Text>, io: nat -> (Written, Written), j: nat): Wrote
    decreases |pieces|
  {
    if pieces == [] then Wrote(c, p, [], 0, 0, false)
    else if |pieces[0]| > MAX_MESSAGE || p != Pending([], []) then Wrote(c, p, [], 0, 0, true)
    else
      var f := FlushFirst(c, pieces[0], io(j));
      if f.failed then Wrote(After(c, 2), f.left, f.out, 1, f.count, true)
      else Preceded(f.out, 1, f.count, WritePieces(After(c, 2), f.left, pieces[1..], io, j + 1))
  }

  function FlushFirst(c: Cipher, piece: Text, io: (Written, Written)): Flushed {
    var q := Pending(Header(c, piece), Body(c, piece));
    FlushOnce(q, Conforming(io.0, |q.header|), Conforming(io.1, |q.body|))
  }

  function Preceded(out: Wire, pieces: nat, count: nat, w: Wrote): Wrote {
    w.(out := out + w.out, pieces := pieces + w.pieces, count := count + w.count)
  }

  lemma {:induction false} FlushFirstAccounts(c: Cipher, piece: Text, io: (Written, Written))
    ensures var f := FlushFirst(c, piece, io);
            && f.out + f.left.All() == Frame(c, piece)
            && f.count + f.left.PlainLeft() == |piece|
            && (!f.failed ==> f.left == Pending([], []))
  {
    var q := Pending(Header(c, piece), Body(c, piece));
    FrameSizes(c, piece);
    FlushAccounts(q, Conforming(io.0, |q.header|), Conforming(io.1, |q.body|));
  }

  /** What went out and what is still buffered is the ciphertext of the messages that were encrypted,
      and the count accounts for their bytes; without a failure these are all messages. */
  predicate WroteOk(c: Cipher, p: Pending, pieces: seq<Text>, w: Wrote) {
    && w.pieces <= |pieces| && w.cipher == After(c, 2 * w.pieces) && Fit(pieces[..w.pieces])
    && w.out + w.pending.All() == p.All() + Frames(c, pieces[..w.pieces])
    && (p == Pending([], []) ==> w.count + w.pending.PlainLeft() == |Flat(pieces[..w.pieces])|)
    && (p != Pending([], []) && pieces != [] ==> w == Wrote(c, p, [], 0, 0, true))
    && (!w.failed ==> w.pieces == |pieces| && (p == Pending([], []) ==> w.pending == p))
  }

  lemma {:induction false} WritePiecesExact(c: Cipher, p: Pending, pieces: seq<Text>,
                                            io: nat -> (Written, Written), j: nat)
    ensures WroteOk(c, p, pieces, WritePieces(c, p, pieces, io, j))
    decreases |pieces|
  {
    if pieces == [] || |pieces[0]| > MAX_MESSAGE || p != Pending([], []) {
      NothingWritten(c, p, pieces, pieces != []);
    } else {
      var f := FlushFirst(c, pieces[0], io(j));
      FlushFirstAccounts(c, pieces[0], io(j));
      if f.failed {
        OneWritten(c, pieces, f);
      } else {
        WritePiecesExact(After(c, 2), f.left, pieces[1..], io, j + 1);
        MoreWritten(c, pieces, f, WritePieces(After(c, 2), f.left, pieces[1..], io, j + 1));
      }
    }
  }

  /** The message fits and both writes of the underlying connection succeed. */
  predicate Goes(piece: Text, io: (Written, Written)) {
    |piece| <= 65535 && !Conforming(io.0, 18).failed && !Conforming(io.1, |piece| + 16).failed
  }

  /** A write goes on until the first message `k` that does not fit or is not written in full, and fails
      exactly when there is one; with all messages gone out the count is the whole length. */
  lemma {:induction false} WriteEndsAt(c: Cipher, pieces: seq<Text>, io: nat -> (Written, Written), j: nat, k: nat)
    requires k <= |pieces| && (forall i :: 0 <= i < k ==> Goes(pieces[i], io(j + i)))
    requires k < |pieces| ==> !Goes(pieces[k], io(j + k))
    ensures var w := WritePieces(c, Pending([], []), pieces, io, j);
            && (w.failed <==> k < |pieces|)
            && w.pieces == (if k < |pieces| && |pieces[k]| <= 65535 then k + 1 else k)
            && (k == |pieces| ==> w.count == |Flat(pieces)| && w.out == Frames(c, pieces))
    decreases |pieces|
  {
    hide Frames, Flat, WritePieces, Goes;
    WriteStops(c, pieces, io, j, k);
    WritePiecesExact(c, Pending([], []), pieces, io, j);
    var w := WritePieces(c, Pending([], []), pieces, io, j);
    if k == |pieces| {
      assert pieces[..k] == pieces && w.out + [] == w.out && [] + Frames(c, pieces) == Frames(c, pieces);
    }
  }

  lemma {:induction false} WriteStops(c: Cipher, pieces: seq<Text>, io: nat -> (Written, Written), j: nat, k: nat)
    requires k <= |pieces| && (forall i :: 0 <= i < k ==> Goes(pieces[i], io(j + i)))
    requires k < |pieces| ==> !Goes(pieces[k], io(j + k))
    ensures var w := WritePieces(c, Pending([], []), pieces, io, j);
            && (w.failed <==> k < |pieces|)
            && w.pieces == (if k < |pieces| && |pieces[k]| <= 65535 then k + 1 else k)
    decreases |pieces|
  {
    hide FlushFirst, After, Conforming;
    if pieces != [] {
      if |pieces[0]| <= MAX_MESSAGE {
        FlushFails(c, pieces[0], io(j));
        FlushFirstAccounts(c, pieces[0], io(j));
      }
      if k > 0 {
        var rest := pieces[1..];
        assert Goes(pieces[0], io(j + 0));
        forall i | 0 <= i < k - 1
          ensures Goes(rest[i], io(j + 1 + i))
        {
          assert Goes(pieces[i + 1], io(j + (i + 1)));
        }
        assert k < |pieces| ==> rest[k - 1] == pieces[k];
        WriteStops(After(c, 2), rest, io, j + 1, k - 1);
      }
    }
  }

  lemma {:induction false} FlushFails(c: Cipher, piece: Text, io: (Written, Written))
    requires |piece| <= MAX_MESSAGE
    ensures FlushFirst(c, piece, io).failed <==> !Goes(piece, io)
  {
    var q := Pending(Header(c, piece), Body(c, piece));
    FrameSizes(c, piece);
    FlushReports(q, Conforming(io.0, |q.header|), Conforming(io.1, |q.body|));
  }

  lemma {:induction false} NothingWritten(c: Cipher, p: Pending, pieces: seq<Text>, failed: bool)
    requires !failed ==> pieces == []
    requires p != Pending([], []) && pieces != [] ==> failed
    ensures WroteOk(c, p, pieces, Wrote(c, p, [], 0, 0, failed))
  {
    assert pieces[..0] == [];
    assert p.All() + [] == p.All() == [] + p.All();
  }

  lemma {:induction false} OneWritten(c: Cipher, pieces: seq<Text>, f: Flushed)
    requires pieces != [] && |pieces[0]| <= MAX_MESSAGE
    requires f.out + f.left.All() == Frame(c, pieces[0]) && f.count + f.left.PlainLeft() == |pieces[0]|
    ensures WroteOk(c, Pending([], []), pieces, Wrote(After(c, 2), f.left, f.out, 1, f.count, true))
  {
    assert pieces[..1] == [pieces[0]] + [] == [pieces[0]];
    FramesCons(c, pieces[0], []);
    assert Frame(c, pieces[0]) + [] == Frame(c, pieces[0]) == [] + Frame(c, pieces[0]);
    FlatOne(pieces[0]);
  }

  lemma {:induction false} MoreWritten(c: Cipher, pieces: seq<Text>, f: Flushed, v: Wrote)
    requires pieces != [] && |pieces[0]| <= MAX_MESSAGE && f.left == Pending([], [])
    requires f.out + f.left.All() == Frame(c, pieces[0]) && f.count + f.left.PlainLeft() == |pieces[0]|
    requires WroteOk(After(c, 2), f.left, pieces[1..], v)
    ensures WroteOk(c, Pending([], []), pieces, Preceded(f.out, 1, f.count, v))
  {
    hide After, Frame, Frames, Flat;
    var first, later := pieces[0], pieces[1..][..v.pieces];
    assert pieces[..v.pieces + 1] == [first] + later;
    assert Frames(c, [first] + later) == f.out + (v.out + v.pending.All()) by {
      FramesCons(c, first, later);
      assert f.out + f.left.All() == f.out;
      assert f.left.All() + Frames(After(c, 2), later) == Frames(After(c, 2), later);
    }
    Assoc(f.out, v.out, v.pending.All());
    assert [] + Frames(c, [first] + later) == Frames(c, [first] + later);
    assert v.cipher == After(c, 2 * (v.pieces + 1)) by { AfterAdd(c, 2, 2 * v.pieces); }
    assert |Flat([first] + later)| == |first| + |Flat(later)| by {
      FlatAppend([first], later);
      FlatOne(first);
    }
  }

  lemma {:induction false} FirstPiece(c: Cipher, p: Pending, piece: Text, rest: seq<Text>,
                                      io: nat -> (Written, Written), j: nat)
    ensures var w := WritePieces(c, p, [piece], io, j);
            WritePieces(c, p, [piece] + rest, io, j) ==
            if w.failed then w else Preceded(w.out, 1, w.count, WritePieces(w.cipher, w.pending, rest, io, j + 1))
  {
    assert ([piece] + rest)[1..] == rest && [piece][1..] == [];
    if |piece| <= MAX_MESSAGE && p == Pending([], []) {
      var f := FlushFirst(c, piece, io(j));
      assert f.out + [] == f.out;
    }
  }

  /** An empty message is only made of an empty write. */
  lemma {:induction false} PiecesNonEmpty(b: Text)
    ensures [] in Pieces(b) <==> b == []
    decreases |b|
  {
    if |b| > MAX_MESSAGE {
      PiecesNonEmpty(b[MAX_MESSAGE..]);
    }
  }

  /** The pieces still to be written. */
  function Rest(b: Text, i: nat): seq<Text>
    requires i <= |b|
  {
    if i == |b| then [] else Pieces(b[i..])
  }

  lemma {:induction false} RestStep(b: Text, i: nat, size: nat)
    requires i < |b| && i + size <= |b| && size == (if i + MAX_MESSAGE > |b| then |b| - i else MAX_MESSAGE)
    ensures Rest(b, i) == [b[i..i + size]] + Rest(b, i + size)
  {
    if |b[i..]| > MAX_MESSAGE {
      assert b[i..][..MAX_MESSAGE] == b[i..i + size];
      assert b[i..][MAX_MESSAGE..] == b[i + size..];
    } else {
      assert b[i..] == b[i..i + size];
    }
  }

  /** `WriteMessage` followed by `Flush`. */
  method WriteAndFlush(noise: Machine, p: Text, io: nat -> (Written, Written), j: nat)
    returns (n: nat, failed: bool, out: Wire)
    requires noise.Valid()
    modifies noise, noise.sendCipher
    ensures var w := WritePieces(old(noise.sendCipher.Value()), old(noise.Value()), [p], io, j);
            && noise.sendCipher.Value() == w.cipher && noise.Value() == w.pending
            && out == w.out && n == w.count && failed == w.failed
  {
    var ok := noise.WriteMessage(p);
    if !ok { return 0, true, []; }
    assert [p][1..] == [];
    n, failed, out := noise.Flush(Conforming(io(j).0, |noise.nextHeaderSend|),
                                  Conforming(io(j).1, |noise.nextBodySend|));
    assert out + [] == out;
  }

  // -------------------------------------------------------------------------
  // One direction of a connection

  /** The writer's cipher and buffer, the wire, the reader's cipher and carry-over. `msgs` are the
      messages encrypted so far, `taken` how many of them the reader has decrypted, `read` the bytes
      it has returned. */
  datatype Link = Link(
    send: Cipher, pending: Pending, wire: Wire, recv: Cipher, carry: Text,
    msgs: seq<Text>, taken: nat, read: Text)

  datatype Op =
    | Push(p: Text)                                        // WriteMessage
    | FlushOp(w1: Written, w2: Written)                    // Flush
    | WriteOp(b: Text, io: nat -> (Written, Written))      // Write
    | ReadOp(k: nat)                                       // Read into a buffer of k bytes

  predicate CanDo(l: Link, op: Op) {
    match op
    case Push(p) => |p| <= MAX_MESSAGE && l.pending == Pending([], [])
    case FlushOp(w1, w2) =>
      && (|l.pending.header| > 0 ==> Obeys(w1, |l.pending.header|))
      && (|l.pending.body| > 0 ==> Obeys(w2, |l.pending.body|))
    case WriteOp(_, _) => true
    case ReadOp(_) => l.carry != [] || ReadMessage(l.recv, l.wire).Got?
  }

  /** The gRPC connection writes one message and refuses what does not fit it. */
  function PiecesFor(b: Text, grpc: bool): seq<Text> { if grpc then [b] else Pieces(b) }

  function WriteOn(l: Link, b: Text, io: nat -> (Written, Written), grpc: bool): Wrote {
    WritePieces(l.send, l.pending, PiecesFor(b, grpc), io, 0)
  }

  function Do(l: Link, op: Op, grpc: bool): Link
    requires CanDo(l, op)
  {
    match op
    case Push(p) =>
      l.(send := After(l.send, 2), pending := Pending(Header(l.send, p), Body(l.send, p)), msgs := l.msgs + [p])
    case FlushOp(w1, w2) =>
      var f := FlushOnce(l.pending, w1, w2);
      l.(pending := f.left, wire := l.wire + f.out)
    case WriteOp(b, io) =>
      var w := WriteOn(l, b, io, grpc);
      WritePiecesExact(l.send, l.pending, PiecesFor(b, grpc), io, 0);
      l.(send := w.cipher, pending := w.pending, wire := l.wire + w.out,
         msgs := l.msgs + PiecesFor(b, grpc)[..w.pieces])
    case ReadOp(k) =>
      if l.carry != [] then Returned(l, [], k, grpc)
      else
        var r := ReadMessage(l.recv, l.wire);
        Returned(l.(recv := r.cipher, wire := r.rest, taken := l.taken + 1), r.text, k, grpc)
  }

  function Returned(l: Link, msg: Text, k: nat, grpc: bool): Link {
    if grpc then
      var f := GrpcFetch(l.carry, msg, k);
      l.(carry := f.left, read := l.read + f.out)
    else
      var f := FromBuffer(l.carry + msg, k);
      l.(carry := f.left, read := l.read + f.out)
  }

  function DoAll(l: Link, ops: seq<Op>, grpc: bool): Option<Link>
    decreases |ops|
  {
    if ops == [] then Some(l)
    else if !CanDo(l, ops[0]) then None
    else DoAll(Do(l, ops[0], grpc), ops[1..], grpc)
  }

  function Fresh(c: Cipher): Link { Link(c, Pending([], []), [], c, [], [], 0, []) }

  predicate LinkOk(l: Link, grpc: bool) {
    CipherOk(l) && Flat(l.msgs[..l.taken]) == l.read + l.carry && (grpc ==> |l.carry| < GRPC_BUF_SIZE)
  }

  /** The ciphertext under way is that of the messages not yet taken, and the ciphers agree on it. */
  predicate CipherOk(l: Link) {
    && Fit(l.msgs) && l.taken <= |l.msgs|
    && l.wire + l.pending.All() == Frames(l.recv, l.msgs[l.taken..])
    && l.send == After(l.recv, 2 * (|l.msgs| - l.taken))
  }

  lemma {:induction false} FramesCons(c: Cipher, p: Text, msgs: seq<Text>)
    ensures Frames(c, [p] + msgs) == Frame(c, p) + Frames(After(c, 2), msgs)
  {
    assert ([p] + msgs)[1..] == msgs;
  }

  lemma {:induction false} FramesLonger(c: Cipher, first: Text, a: seq<Text>, b: seq<Text>, last: Wire)
    requires Frames(After(c, 2), a + b) == Frames(After(c, 2), a) + last
    ensures Frames(c, [first] + a + b) == Frames(c, [first] + a) + last
  {
    Assoc([first], a, b);
    FramesCons(c, first, a + b);
    FramesCons(c, first, a);
    Assoc(Frame(c, first), Frames(After(c, 2), a), last);
  }

  /** The ciphertext of two runs of messages; `c'` is the cipher after the first. */
  lemma {:induction false} FramesConcat(c: Cipher, a: seq<Text>, b: seq<Text>, c': Cipher)
    requires c' == After(c, 2 * |a|)
    ensures Frames(c, a + b) == Frames(c, a) + Frames(c', b)
    decreases |a|
  {
    if a == [] {
      assert a + b == b;
    } else {
      assert c' == After(After(c, 2), 2 * |a[1..]|) by { AfterAdd(c, 2, 2 * |a[1..]|); }
      FramesConcat(After(c, 2), a[1..], b, c');
      FramesLonger(c, a[0], a[1..], b, Frames(c', b));
      assert [a[0]] + a[1..] == a;
    }
  }

  /** More messages have been encrypted; `under` is what was still to be flushed before them. */
  lemma {:induction false} SentKeeps(l: Link, ps: seq<Text>, l1: Link, grpc: bool)
    requires LinkOk(l, grpc) && Fit(ps) && l1.send == After(l.send, 2 * |ps|)
    requires l1 == l.(send := l1.send, pending := l1.pending, wire := l1.wire, msgs := l.msgs + ps)
    requires l1.wire + l1.pending.All() == l.wire + l.pending.All() + Frames(l.send, ps)
    ensures LinkOk(l1, grpc)
  {
    hide After, Frames, Flat;
    var todo := l.msgs[l.taken..];
    assert l1.msgs[..l.taken] == l.msgs[..l.taken] && l1.msgs[l.taken..] == todo + ps;
    assert l1.send == After(l.recv, 2 * (|l1.msgs| - l1.taken)) by { AfterAdd(l.recv, 2 * |todo|, 2 * |ps|); }
    assert l1.wire + l1.pending.All() == Frames(l.recv, todo + ps) by { FramesConcat(l.recv, todo, ps, l.send); }
    FitConcat(l.msgs, ps);
  }

  lemma {:induction false} FitConcat(a: seq<Text>, b: seq<Text>)
    requires Fit(a) && Fit(b)
    ensures Fit(a + b)
  {
  }

  lemma {:induction false} PushKeeps(l: Link, p: Text, grpc: bool)
    requires LinkOk(l, grpc) && CanDo(l, Push(p))
    ensures LinkOk(Do(l, Push(p), grpc), grpc)
  {
    var l1 := Do(l, Push(p), grpc);
    FramesCons(l.send, p, []);
    assert [p] + [] == [p] && Frame(l.send, p) + [] == Frame(l.send, p);
    assert l.wire + l.pending.All() == l.wire;
    SentKeeps(l, [p], l1, grpc);
  }

  lemma {:induction false} WriteKeeps(l: Link, b: Text, io: nat -> (Written, Written), grpc: bool)
    requires LinkOk(l, grpc)
    ensures LinkOk(Do(l, WriteOp(b, io), grpc), grpc)
  {
    var w, pieces := WriteOn(l, b, io, grpc), PiecesFor(b, grpc);
    WritePiecesExact(l.send, l.pending, pieces, io, 0);
    Assoc(l.wire, w.out, w.pending.All());
    Assoc(l.wire, l.pending.All(), Frames(l.send, pieces[..w.pieces]));
    SentKeeps(l, pieces[..w.pieces], Do(l, WriteOp(b, io), grpc), grpc);
  }

  lemma {:induction false} FlushKeeps(l: Link, w1: Written, w2: Written, grpc: bool)
    requires LinkOk(l, grpc) && CanDo(l, FlushOp(w1, w2))
    ensures LinkOk(Do(l, FlushOp(w1, w2), grpc), grpc)
  {
    FlushAccounts(l.pending, w1, w2);
    var f := FlushOnce(l.pending, w1, w2);
    Assoc(l.wire, f.out, f.left.All());
  }

  /** A message that can be read is the next one sent. */
  lemma {:induction false} NextMessage(l: Link, grpc: bool)
    requires LinkOk(l, grpc) && ReadMessage(l.recv, l.wire).Got?
    ensures l.taken < |l.msgs|
    ensures var r := ReadMessage(l.recv, l.wire);
            && r.text == l.msgs[l.taken] && r.cipher == After(l.recv, 2)
            && r.rest + l.pending.All() == Frames(r.cipher, l.msgs[l.taken + 1..])
  {
    var todo, all := l.msgs[l.taken..], l.pending.All();
    if todo == [] {
      assert false;
    } else {
      var frame, rest := Frame(l.recv, todo[0]), Frames(After(l.recv, 2), todo[1..]);
      assert l.wire <= l.wire + all;
      PrefixOfConcat(l.wire, frame, rest);
      if |l.wire| < |frame| {
        ReadPartial(l.recv, todo[0], l.wire);
      } else {
        var wire' := l.wire[|frame|..];
        assert l.wire == frame + wire';
        ReadFrame(l.recv, todo[0], wire');
        Assoc(frame, wire', all);
        TakeDrop(frame, wire' + all);
        TakeDrop(frame, rest);
        assert todo[1..] == l.msgs[l.taken + 1..];
      }
    }
  }

  lemma {:induction false} ReadKeeps(l: Link, k: nat, grpc: bool)
    requires LinkOk(l, grpc) && CanDo(l, ReadOp(k)) && (grpc ==> k >= GRPC_BUF_SIZE)
    ensures LinkOk(Do(l, ReadOp(k), grpc), grpc)
  {
    if l.carry != [] {
      assert l.carry + [] == l.carry;
      ReturnedKeeps(l, [], k, grpc);
    } else {
      var l1 := MessageTaken(l, grpc);
      ReturnedKeeps(l1, ReadMessage(l.recv, l.wire).text, k, grpc);
    }
  }

  /** The next message has been decrypted but not yet returned. */
  lemma {:induction false} MessageTaken(l: Link, grpc: bool) returns (l1: Link)
    requires LinkOk(l, grpc) && l.carry == [] && ReadMessage(l.recv, l.wire).Got?
    ensures var r := ReadMessage(l.recv, l.wire);
            && l1 == l.(recv := r.cipher, wire := r.rest, taken := l.taken + 1)
            && |r.text| <= MAX_MESSAGE && CipherOk(l1)
            && Flat(l1.msgs[..l1.taken]) == l1.read + (l1.carry + r.text)
  {
    NextMessage(l, grpc);
    var r := ReadMessage(l.recv, l.wire);
    l1 := Taken(l, r.cipher, r.rest);
  }

  lemma {:induction false} Taken(l: Link, c: Cipher, rest: Wire) returns (l1: Link)
    requires CipherOk(l) && Flat(l.msgs[..l.taken]) == l.read + l.carry && l.carry == []
    requires l.taken < |l.msgs| && c == After(l.recv, 2)
    requires rest + l.pending.All() == Frames(c, l.msgs[l.taken + 1..])
    ensures l1 == l.(recv := c, wire := rest, taken := l.taken + 1)
    ensures CipherOk(l1) && Flat(l1.msgs[..l1.taken]) == l1.read + (l1.carry + l.msgs[l.taken])
  {
    hide After, Frames, Flat;
    l1 := l.(recv := c, wire := rest, taken := l.taken + 1);
    FlatTake(l.msgs, l.taken);
    assert l.carry + l.msgs[l.taken] == l.msgs[l.taken] && l.read + l.carry == l.read;
    AfterAdd(l.recv, 2, 2 * (|l.msgs| - l1.taken));
  }

  /** The reader takes what it has room for out of the message; the rest is kept for later. */
  lemma {:induction false} ReturnedKeeps(l: Link, msg: Text, k: nat, grpc: bool)
    requires CipherOk(l) && Flat(l.msgs[..l.taken]) == l.read + (l.carry + msg)
    requires |msg| <= MAX_MESSAGE && (l.carry != [] ==> msg == [])
    requires grpc ==> k >= GRPC_BUF_SIZE && |l.carry| < GRPC_BUF_SIZE
    ensures LinkOk(Returned(l, msg, k, grpc), grpc)
  {
    if grpc {
      GrpcFetchParts(l.carry, msg, k);
      var f := GrpcFetch(l.carry, msg, k);
      assert f.out + f.left == l.carry + msg;
      PartReturned(l, f.out, f.left, grpc);
    } else {
      var f := FromBuffer(l.carry + msg, k);
      FetchedParts(l.carry + msg, k);
      PartReturned(l, f.out, f.left, grpc);
    }
  }

  lemma {:induction false} PartReturned(l: Link, out: Text, left: Text, grpc: bool)
    requires CipherOk(l) && Flat(l.msgs[..l.taken]) == l.read + (out + left) && (grpc ==> |left| < GRPC_BUF_SIZE)
    ensures LinkOk(l.(carry := left, read := l.read + out), grpc)
  {
    Assoc(l.read, out, left);
  }

  predicate BigReads(ops: seq<Op>) {
    forall i :: 0 <= i < |ops| && ops[i].ReadOp? ==> ops[i].k >= GRPC_BUF_SIZE
  }

  lemma {:induction false} OneKeeps(l: Link, op: Op, grpc: bool)
    requires LinkOk(l, grpc) && CanDo(l, op) && (grpc && op.ReadOp? ==> op.k >= GRPC_BUF_SIZE)
    ensures LinkOk(Do(l, op, grpc), grpc)
  {
    match op
    case Push(p) => PushKeeps(l, p, grpc);
    case FlushOp(w1, w2) => FlushKeeps(l, w1, w2, grpc);
    case WriteOp(b, io) => WriteKeeps(l, b, io, grpc);
    case ReadOp(k) => ReadKeeps(l, k, grpc);
  }

  lemma {:induction false} DoAllKeeps(l: Link, ops: seq<Op>, grpc: bool)
    requires LinkOk(l, grpc) && DoAll(l, ops, grpc).Some? && (grpc ==> BigReads(ops))
    ensures LinkOk(DoAll(l, ops, grpc).value, grpc)
    decreases |ops|
  {
    if ops != [] {
      OneKeeps(l, ops[0], grpc);
      DoAllKeeps(Do(l, ops[0], grpc), ops[1..], grpc);
    }
  }

  /** The bytes of one operation that the connection has taken over: for a write, as many as it
      reports written and as are still buffered of it. */
  function TakenBy(l: Link, op: Op, grpc: bool): Text
    requires CanDo(l, op)
  {
    match op
    case Push(p) => p
    case WriteOp(b, io) =>
      var w := WriteOn(l, b, io, grpc);
      if l.pending != Pending([], []) then [] else Copied(b, w.count + w.pending.PlainLeft())
    case _ => []
  }

  lemma {:induction false} TakenExact(l: Link, op: Op, grpc: bool)
    requires CanDo(l, op)
    ensures Flat(Do(l, op, grpc).msgs) == Flat(l.msgs) + TakenBy(l, op, grpc)
    ensures op.WriteOp? && !WriteOn(l, op.b, op.io, grpc).failed ==> TakenBy(l, op, grpc) == op.b
  {
    match op
    case Push(p) =>
      FlatAppend(l.msgs, [p]);
      FlatOne(p);
    case WriteOp(b, io) => WriteTaken(l, b, io, grpc);
    case _ => assert Flat(l.msgs) + [] == Flat(l.msgs);
  }

  lemma {:induction false} WriteTaken(l: Link, b: Text, io: nat -> (Written, Written), grpc: bool)
    ensures Flat(Do(l, WriteOp(b, io), grpc).msgs) == Flat(l.msgs) + TakenBy(l, WriteOp(b, io), grpc)
    ensures !WriteOn(l, b, io, grpc).failed ==> TakenBy(l, WriteOp(b, io), grpc) == b
  {
    var pieces := PiecesFor(b, grpc);
    WritePiecesExact(l.send, l.pending, pieces, io, 0);
    PiecesForFlat(b, grpc);
    TakenOf(l, Do(l, WriteOp(b, io), grpc), pieces, b, WriteOn(l, b, io, grpc));
  }

  lemma {:induction false} TakenOf(l: Link, l1: Link, pieces: seq<Text>, b: Text, w: Wrote)
    requires WroteOk(l.send, l.pending, pieces, w) && l1.msgs == l.msgs + pieces[..w.pieces]
    requires pieces != [] && Flat(pieces) == b
    ensures Flat(l1.msgs) == Flat(l.msgs) +
            if l.pending != Pending([], []) then [] else Copied(b, w.count + w.pending.PlainLeft())
    ensures !w.failed ==> l.pending == Pending([], []) && Copied(b, w.count + w.pending.PlainLeft()) == b
  {
    FlatAppend(l.msgs, pieces[..w.pieces]);
    FlatPrefix(pieces, w.pieces);
    CountedBytes(l.send, l.pending, pieces, b, w);
  }

  lemma {:induction false} PiecesForFlat(b: Text, grpc: bool)
    ensures PiecesFor(b, grpc) != [] && Flat(PiecesFor(b, grpc)) == b
  {
    PiecesFlat(b);
    FlatOne(b);
  }

  lemma {:induction false} CountedBytes(c: Cipher, p: Pending, pieces: seq<Text>, b: Text, w: Wrote)
    requires WroteOk(c, p, pieces, w) && pieces != [] && Flat(pieces) == b && Flat(pieces[..w.pieces]) <= b
    ensures Flat(pieces[..w.pieces]) ==
            if p != Pending([], []) then [] else Copied(b, w.count + w.pending.PlainLeft())
    ensures !w.failed ==> p == Pending([], []) && Flat(pieces[..w.pieces]) == b
  {
    assert pieces[..0] == [] && pieces[..|pieces|] == pieces;
  }

  /** The bytes taken over in a series of operations. */
  function TakenAll(l: Link, ops: seq<Op>, grpc: bool): Text
    requires DoAll(l, ops, grpc).Some?
    decreases |ops|
  {
    if ops == [] then [] else TakenBy(l, ops[0], grpc) + TakenAll(Do(l, ops[0], grpc), ops[1..], grpc)
  }

  /** No write returned an error. */
  predicate AllWritten(l: Link, ops: seq<Op>, grpc: bool)
    requires DoAll(l, ops, grpc).Some?
    decreases |ops|
  {
    ops == [] ||
    ((ops[0].WriteOp? ==> !WriteOn(l, ops[0].b, ops[0].io, grpc).failed) &&
     AllWritten(Do(l, ops[0], grpc), ops[1..], grpc))
  }

  /** All the bytes passed to `Write` and `WriteMessage`. */
  function WrittenBytes(ops: seq<Op>): Text {
    if ops == [] then []
    else (match ops[0] case Push(p) => p case WriteOp(b, _) => b case _ => []) + WrittenBytes(ops[1..])
  }

  lemma {:induction false} TakenAllExact(l: Link, ops: seq<Op>, grpc: bool)
    requires DoAll(l, ops, grpc).Some?
    ensures Flat(DoAll(l, ops, grpc).value.msgs) == Flat(l.msgs) + TakenAll(l, ops, grpc)
    ensures AllWritten(l, ops, grpc) ==> TakenAll(l, ops, grpc) == WrittenBytes(ops)
    decreases |ops|
  {
    if ops == [] {
      assert Flat(l.msgs) + [] == Flat(l.msgs);
    } else {
      var l1 := Do(l, ops[0], grpc);
      TakenExact(l, ops[0], grpc);
      TakenAllExact(l1, ops[1..], grpc);
      Assoc(Flat(l.msgs), TakenBy(l, ops[0], grpc), TakenAll(l1, ops[1..], grpc));
    }
  }

  /** For writes of any length, however they are cut short and resumed, and whatever buffers the reader
      uses, the bytes it reads are a prefix of the bytes taken over, and all of them when nothing is
      under way; without write errors these are all the bytes written. For gRPC, when its buffers hold
      at least 32 KiB. */
  lemma {:induction false} StreamPrefix(c: Cipher, ops: seq<Op>, grpc: bool)
    requires DoAll(Fresh(c), ops, grpc).Some? && (grpc ==> BigReads(ops))
    ensures var l := DoAll(Fresh(c), ops, grpc).value;
            && l.read <= TakenAll(Fresh(c), ops, grpc)
            && (l.wire == [] && l.pending.All() == [] && l.carry == [] ==> l.read == TakenAll(Fresh(c), ops, grpc))
            && (AllWritten(Fresh(c), ops, grpc) ==> TakenAll(Fresh(c), ops, grpc) == WrittenBytes(ops))
  {
    DoAllKeeps(Fresh(c), ops, grpc);
    TakenFresh(c, ops, grpc);
    ReadPrefix(DoAll(Fresh(c), ops, grpc).value, grpc);
  }

  lemma {:induction false} TakenFresh(c: Cipher, ops: seq<Op>, grpc: bool)
    requires DoAll(Fresh(c), ops, grpc).Some?
    ensures Flat(DoAll(Fresh(c), ops, grpc).value.msgs) == TakenAll(Fresh(c), ops, grpc)
    ensures AllWritten(Fresh(c), ops, grpc) ==> TakenAll(Fresh(c), ops, grpc) == WrittenBytes(ops)
  {
    TakenAllExact(Fresh(c), ops, grpc);
    assert [] + TakenAll(Fresh(c), ops, grpc) == TakenAll(Fresh(c), ops, grpc);
  }

  lemma {:induction false} ReadPrefix(l: Link, grpc: bool)
    requires LinkOk(l, grpc)
    ensures l.read <= Flat(l.msgs)
    ensures l.wire == [] && l.pending.All() == [] && l.carry == [] ==> l.read == Flat(l.msgs)
  {
    FlatPrefix(l.msgs, l.taken);
    assert l.read <= l.read + l.carry;
    if l.wire == [] && l.pending.All() == [] {
      NothingLeft(l.recv, l.msgs[l.taken..]);
      assert l.msgs[..l.taken] == l.msgs;
    }
  }

  lemma {:induction false} NothingLeft(c: Cipher, msgs: seq<Text>)
    requires Frames(c, msgs) == []
    ensures msgs == []
  {
    if msgs != [] {
      FrameSizes(c, msgs[0]);
    }
  }

  // -------------------------------------------------------------------------
  // End of file

  /** Some read of the run reports `io.EOF`, as `bytes.Buffer` does when it is empty. */
  predicate SomeEof(l: Link, ops: seq<Op>)
    requires DoAll(l, ops, false).Some?
    decreases |ops|
  {
    ops != [] &&
    ((ops[0].ReadOp? && l.carry == [] && FromBuffer(ReadMessage(l.recv, l.wire).text, ops[0].k).eof) ||
     SomeEof(Do(l, ops[0], false), ops[1..]))
  }

  lemma {:induction false} MessagesStay(l: Link, op: Op)
    requires CanDo(l, op)
    ensures l.msgs <= Do(l, op, false).msgs
    ensures Do(l, op, false).taken == l.taken + (if op.ReadOp? && l.carry == [] then 1 else 0)
  {
  }

  /** A read reports the end of the file exactly when the message it has just decrypted is empty. */
  lemma {:induction false} EofRead(l: Link, ops: seq<Op>)
    requires LinkOk(l, false) && DoAll(l, ops, false).Some?
    requires PositiveReads(ops)
    ensures var end := DoAll(l, ops, false).value;
            && l.msgs <= end.msgs && l.taken <= end.taken <= |end.msgs|
            && (SomeEof(l, ops) <==> [] in end.msgs[l.taken..end.taken])
    decreases |ops|
  {
    hide ReadMessage, Do, Frames, After, Flat;
    if ops != [] {
      OneKeeps(l, ops[0], false);
      MessagesStay(l, ops[0]);
      EofRead(Do(l, ops[0], false), ops[1..]);
      if ops[0].ReadOp? && l.carry == [] {
        NextMessage(l, false);
        var end := DoAll(l, ops, false).value;
        OneMoreTaken(l.msgs, end.msgs, l.taken, end.taken);
      }
    }
  }

  predicate PositiveReads(ops: seq<Op>) { forall i :: 0 <= i < |ops| && ops[i].ReadOp? ==> ops[i].k > 0 }

  /** `Write` or `WriteMessage` is called with no bytes. */
  predicate EmptyWrite(ops: seq<Op>) { ops != [] && (WritesNothing(ops[0]) || EmptyWrite(ops[1..])) }

  predicate WritesNothing(op: Op) { (op.Push? && op.p == []) || (op.WriteOp? && op.b == []) }

  lemma {:induction false} EmptyMessage(l: Link, op: Op)
    requires CanDo(l, op)
    ensures var msgs := Do(l, op, false).msgs;
            && ([] in msgs ==> [] in l.msgs || WritesNothing(op))
            && ([] in l.msgs ==> [] in msgs)
            && (WritesNothing(op) && (op.WriteOp? ==> !WriteOn(l, op.b, op.io, false).failed) ==> [] in msgs)
  {
    match op
    case Push(p) =>
      assert Do(l, op, false).msgs[|l.msgs|] == p;
    case WriteOp(b, io) =>
      var w := WriteOn(l, b, io, false);
      WritePiecesExact(l.send, l.pending, Pieces(b), io, 0);
      PiecesNonEmpty(b);
      assert Pieces(b)[..|Pieces(b)|] == Pieces(b);
    case _ =>
  }

  lemma {:induction false} EmptyMessages(l: Link, ops: seq<Op>)
    requires DoAll(l, ops, false).Some?
    ensures var msgs := DoAll(l, ops, false).value.msgs;
            && ([] in msgs ==> [] in l.msgs || EmptyWrite(ops))
            && ([] in l.msgs ==> [] in msgs)
            && (AllWritten(l, ops, false) && EmptyWrite(ops) ==> [] in msgs)
    decreases |ops|
  {
    if ops != [] {
      EmptyMessage(l, ops[0]);
      EmptyMessages(Do(l, ops[0], false), ops[1..]);
    }
  }

  /** With buffers of at least one byte a run reports the end of the file only if a write was empty; and
      always then, if no write failed and everything has been read. */
  lemma {:induction false} EofExactly(c: Cipher, ops: seq<Op>)
    requires DoAll(Fresh(c), ops, false).Some? && PositiveReads(ops)
    ensures SomeEof(Fresh(c), ops) ==> EmptyWrite(ops)
    ensures var l := DoAll(Fresh(c), ops, false).value;
            AllWritten(Fresh(c), ops, false) && l.wire == [] && l.pending.All() == [] ==>
              (SomeEof(Fresh(c), ops) <==> EmptyWrite(ops))
  {
    var l := DoAll(Fresh(c), ops, false).value;
    EofRead(Fresh(c), ops);
    EmptyMessages(Fresh(c), ops);
    DoAllKeeps(Fresh(c), ops, false);
    if l.wire == [] && l.pending.All() == [] {
      NothingLeft(l.recv, l.msgs[l.taken..]);
      assert l.msgs[0..l.taken] == l.msgs;
    }
  }

  lemma {:induction false} OneMoreTaken(msgs: seq<Text>, end: seq<Text>, i: nat, k: nat)
    requires i < |msgs| && msgs <= end && i + 1 <= k <= |end|
    ensures [] in end[i..k] <==> msgs[i] == [] || [] in end[i + 1..k]
  {
    assert end[i..k] == [msgs[i]] + end[i + 1..k];
  }

  // -------------------------------------------------------------------------
  // How large the buffers of gRPC must be

  /** Writes of the underlying connection that all succeed. */
  const GOOD_IO: nat -> (Written, Written) := _ => (Written(0, false), Written(0, false))

  lemma {:induction false} CleanWrite(l: Link, b: Text, grpc: bool)
    requires l.pending == Pending([], []) && |b| <= MAX_MESSAGE
    ensures Do(l, WriteOp(b, GOOD_IO), grpc) ==
            l.(send := After(l.send, 2), wire := l.wire + Frame(l.send, b), msgs := l.msgs + [b])
    ensures TakenBy(l, WriteOp(b, GOOD_IO), grpc) == b
  {
    CleanPiece(l.send, b);
    assert [b][..1] == [b];
    assert WriteOn(l, b, GOOD_IO, grpc) == Wrote(After(l.send, 2), Pending([], []), Frame(l.send, b), 1, |b|, false);
  }

  lemma {:induction false} CleanPiece(c: Cipher, b: Text)
    requires |b| <= MAX_MESSAGE
    ensures WritePieces(c, Pending([], []), [b], GOOD_IO, 0) ==
            Wrote(After(c, 2), Pending([], []), Frame(c, b), 1, |b|, false)
  {
    var f := FlushFirst(c, b, GOOD_IO(0));
    FrameSizes(c, b);
    assert !f.failed;
    FlushFirstAccounts(c, b, GOOD_IO(0));
    assert [b][1..] == [];
    assert f.out + f.left.All() == f.out && f.out + [] == f.out;
  }

  lemma {:induction false} ReadNext(l: Link, b: Text, rest: Wire, k: nat)
    requires l.carry == [] && l.wire == Frame(l.recv, b) + rest && |b| <= GRPC_BUF_SIZE
    ensures CanDo(l, ReadOp(k))
    ensures var l1 := Do(l, ReadOp(k), true);
            l1 == l.(recv := After(l.recv, 2), wire := rest, taken := l.taken + 1, read := l.read + Copied(b, k))
  {
    ReadFrame(l.recv, b, rest);
  }

  /** All reads have a buffer of `k` bytes. */
  predicate ReadsOf(ops: seq<Op>, k: nat) { forall i :: 0 <= i < |ops| && ops[i].ReadOp? ==> ops[i].k == k }

  /** Whatever is written, reads with a buffer of `k` bytes return a prefix of it. */
  ghost predicate GrpcSafe(k: nat) {
    forall c, ops | DoAll(Fresh(c), ops, true).Some? && ReadsOf(ops, k) ::
      DoAll(Fresh(c), ops, true).value.read <= TakenAll(Fresh(c), ops, true)
  }

  /** That is so exactly for buffers of 32 KiB and more: with any smaller one, a message one byte longer
      than the buffer loses its last byte. */
  lemma {:induction false} GrpcSafeExactly(k: nat)
    requires k >= 1
    ensures GrpcSafe(k) <==> k >= 32768
  {
    if k >= GRPC_BUF_SIZE {
      forall c, ops | DoAll(Fresh(c), ops, true).Some? && ReadsOf(ops, k)
        ensures DoAll(Fresh(c), ops, true).value.read <= TakenAll(Fresh(c), ops, true)
      {
        StreamPrefix(c, ops, true);
      }
    } else {
      var ops := LossyRun(Cipher(Zero, Zero, 0), k);
    }
  }

  lemma {:induction false} RunTwo(l: Link, a: Op, b: Op, grpc: bool)
    requires CanDo(l, a) && CanDo(Do(l, a, grpc), b)
    ensures DoAll(l, [a, b], grpc) == Some(Do(Do(l, a, grpc), b, grpc))
    ensures TakenAll(l, [a, b], grpc) == TakenBy(l, a, grpc) + TakenBy(Do(l, a, grpc), b, grpc)
  {
    var l1 := Do(l, a, grpc);
    assert [a, b][1..] == [b] && [b][1..] == [];
    assert DoAll(Do(l1, b, grpc), [], grpc) == Some(Do(l1, b, grpc));
    assert TakenAll(l1, [b], grpc) == TakenBy(l1, b, grpc) + [] == TakenBy(l1, b, grpc);
  }

  lemma {:induction false} RunAppend(l: Link, a: seq<Op>, b: seq<Op>, grpc: bool)
    requires DoAll(l, a, grpc).Some?
    ensures DoAll(l, a + b, grpc) == DoAll(DoAll(l, a, grpc).value, b, grpc)
    ensures DoAll(l, a + b, grpc).Some? ==>
              TakenAll(l, a + b, grpc) == TakenAll(l, a, grpc) + TakenAll(DoAll(l, a, grpc).value, b, grpc)
    decreases |a|
  {
    hide CanDo, Do, TakenBy;
    if a == [] {
      assert a + b == b;
    } else {
      var l1 := Do(l, a[0], grpc);
      RunAppend(l1, a[1..], b, grpc);
      assert (a + b)[0] == a[0] && (a + b)[1..] == a[1..] + b;
      if DoAll(l, a + b, grpc).Some? {
        Assoc(TakenBy(l, a[0], grpc), TakenAll(l1, a[1..], grpc), TakenAll(DoAll(l, a, grpc).value, b, grpc));
      }
    }
  }

  /** Two messages written, then two reads. */
  lemma {:induction false} LossyRun(c: Cipher, k: nat) returns (ops: seq<Op>)
    requires 1 <= k < GRPC_BUF_SIZE
    ensures DoAll(Fresh(c), ops, true).Some? && ReadsOf(ops, k)
    ensures !(DoAll(Fresh(c), ops, true).value.read <= TakenAll(Fresh(c), ops, true))
  {
    hide DoAll, TakenAll, Do, CanDo;
    var b1: Text, b2: Text := seq(k + 1, _ => 1), [2];
    var sends, fetches := [WriteOp(b1, GOOD_IO), WriteOp(b2, GOOD_IO)], [ReadOp(k), ReadOp(k)];
    var l2 := TwoWritten(c, b1, b2);
    var l4 := TwoRead(l2, b1, b2, k);
    ops := sends + fetches;
    RunAppend(Fresh(c), sends, fetches, true);
    assert l4.read == b1[..k] + [2];
    assert (b1 + [2])[k] == 1 && l4.read[k] == 2;
  }

  lemma {:induction false} TwoWritten(c: Cipher, b1: Text, b2: Text) returns (l: Link)
    requires |b1| <= MAX_MESSAGE && |b2| <= MAX_MESSAGE
    ensures var writes := [WriteOp(b1, GOOD_IO), WriteOp(b2, GOOD_IO)];
            DoAll(Fresh(c), writes, true) == Some(l) && TakenAll(Fresh(c), writes, true) == b1 + b2
    ensures l.wire == Frame(c, b1) + Frame(After(c, 2), b2) && l.recv == c && l.carry == l.read == []
  {
    var l0 := Fresh(c);
    CleanWrite(l0, b1, true);
    var l1 := Do(l0, WriteOp(b1, GOOD_IO), true);
    CleanWrite(l1, b2, true);
    RunTwo(l0, WriteOp(b1, GOOD_IO), WriteOp(b2, GOOD_IO), true);
    l := Do(l1, WriteOp(b2, GOOD_IO), true);
    assert [] + Frame(c, b1) == Frame(c, b1);
  }

  lemma {:induction false} TwoRead(l: Link, b1: Text, b2: Text, k: nat) returns (l2: Link)
    requires |b1| <= GRPC_BUF_SIZE && |b2| <= GRPC_BUF_SIZE && l.carry == l.read == []
    requires l.wire == Frame(l.recv, b1) + Frame(After(l.recv, 2), b2)
    ensures DoAll(l, [ReadOp(k), ReadOp(k)], true) == Some(l2) && TakenAll(l, [ReadOp(k), ReadOp(k)], true) == []
    ensures l2.read == Copied(b1, k) + Copied(b2, k)
  {
    ReadNext(l, b1, Frame(After(l.recv, 2), b2), k);
    var l1 := Do(l, ReadOp(k), true);
    assert l1.wire == Frame(l1.recv, b2) + [];
    ReadNext(l1, b2, [], k);
    RunTwo(l, ReadOp(k), ReadOp(k), true);
    l2 := Do(l1, ReadOp(k), true);
    assert [] + Copied(b1, k) == Copied(b1, k);
  }

  /** An empty write, and a read that reports the end of the file. */
  lemma {:induction false} EofAfterEmptyWrite(c: Cipher)
    ensures var ops := [WriteOp([], GOOD_IO), ReadOp(1)]; DoAll(Fresh(c), ops, false).Some? && SomeEof(Fresh(c), ops)
  {
    CleanWrite(Fresh(c), [], false);
    var l := Do(Fresh(c), WriteOp([], GOOD_IO), false);
    assert l.wire == Frame(l.recv, []) + [];
    ReadFrame(l.recv, [], []);
    RunTwo(Fresh(c), WriteOp([], GOOD_IO), ReadOp(1), false);
    assert [WriteOp([], GOOD_IO), ReadOp(1)][1..] == [ReadOp(1)];
    assert [ReadOp(1)][1..] == [];
    assert SomeEof(l, [ReadOp(1)]);
  }

  lemma {:induction false} PiecesFlat(b: Text)
    ensures Flat(Pieces(b)) == b && Fit(Pieces(b))
    decreases |b|
  {
    if |b| <= MAX_MESSAGE {
      assert [b][..0] == [];
    } else {
      var first, rest := b[..MAX_MESSAGE], b[MAX_MESSAGE..];
      PiecesFlat(rest);
      FlatAppend([first], Pieces(rest));
      FlatOne(first);
      assert first + rest == b;
    }
  }

  /** A write is cut into messages of 65535 bytes and a last one, and into no others; an empty write is one
      empty message. */
  lemma {:induction false} PiecesExact(pieces: seq<Text>, b: Text)
    ensures pieces == Pieces(b) <==> pieces != [] && CutEvenly(pieces, b, 65535)
  {
    PiecesCut(b);
    if pieces != [] && CutEvenly(pieces, b, 65535) {
      CutUnique(pieces, Pieces(b), b, 65535);
    }
  }

  lemma {:induction false} PiecesCut(b: Text)
    ensures Pieces(b) != [] && CutEvenly(Pieces(b), b, 65535)
    ensures b != [] ==> Pieces(b)[|Pieces(b)| - 1] != []
    decreases |b|
  {
    if |b| <= MAX_MESSAGE {
      CutWhole(b, b, 65535);
    } else {
      PiecesCut(b[MAX_MESSAGE..]);
      CutStep(b[..MAX_MESSAGE], Pieces(b[MAX_MESSAGE..]), b, 65535);
    }
  }

  class NoiseConn {
    const noise: Machine
    var readBuf: Text

    constructor (noise: Machine)
      ensures this.noise == noise && readBuf == []
    {
      this.noise := noise;
      readBuf := [];
    }

    /** `Read` into a buffer of `k` bytes. */
    method Read(wire: Wire, k: nat) returns (r: ReadResult, f: Fetched<uint8>)
      requires noise.Valid()
      modifies this, noise.recvCipher
      ensures old(readBuf) != [] ==> r == Got([], old(noise.recvCipher.Value()), wire)
      ensures old(readBuf) == [] ==> r == ReadMessage(old(noise.recvCipher.Value()), wire)
      ensures r.Got? ==> f == FromBuffer(old(readBuf) + r.text, k) && readBuf == f.left
      ensures !r.Got? ==> readBuf == old(readBuf) == []
      ensures noise.recvCipher.Value() ==
              (if old(readBuf) != [] then old(noise.recvCipher.Value())
               else CipherAfter(old(noise.recvCipher.Value()), wire))
    {
      f := Fetched([], [], false);
      r := Got([], noise.recvCipher.Value(), wire);
      if |readBuf| == 0 {
        r := noise.ReadNext(wire);
        if !r.Got? { return; }
        readBuf := readBuf + r.text;
      }
      f := FromBuffer(readBuf, k);
      readBuf := f.left;
    }

    /** `Write`: one message, or as many as it takes. */
    method Write(b: Text, io: nat -> (Written, Written)) returns (n: nat, failed: bool, out: Wire)
      requires noise.Valid()
      modifies noise, noise.sendCipher
      ensures var w := WritePieces(old(noise.sendCipher.Value()), old(noise.Value()), Pieces(b), io, 0);
              && noise.sendCipher.Value() == w.cipher && noise.Value() == w.pending
              && out == w.out && n == w.count && failed == w.failed
    {
      if |b| <= MAX_MESSAGE {
        n, failed, out := WriteAndFlush(noise, b, io, 0);
      } else {
        n, failed, out := WriteChunks(b, io);
      }
    }

    /** The loop over the chunks. */
    method WriteChunks(b: Text, io: nat -> (Written, Written)) returns (n: nat, failed: bool, out: Wire)
      requires noise.Valid() && |b| > MAX_MESSAGE
      modifies noise, noise.sendCipher
      ensures var w := WritePieces(old(noise.sendCipher.Value()), old(noise.Value()), Pieces(b), io, 0);
              && noise.sendCipher.Value() == w.cipher && noise.Value() == w.pending
              && out == w.out && n == w.count && failed == w.failed
    {
      hide WritePieces;
      var chunkSize := MAX_MESSAGE;
      var bytesWritten, call := 0, 0;
      out := [];
      ghost var whole := WritePieces(noise.sendCipher.Value(), noise.Value(), Pieces(b), io, 0);
      FirstChunk(whole, noise.sendCipher.Value(), noise.Value(), b, io);
      while bytesWritten < |b|
        invariant 0 <= bytesWritten <= |b|
        invariant bytesWritten < |b| ==> chunkSize == MAX_MESSAGE
        invariant Advanced(whole, out, call, bytesWritten, noise.sendCipher.Value(), noise.Value(),
                           Rest(b, bytesWritten), io, false)
      {
        if bytesWritten + chunkSize > |b| {
          chunkSize := |b| - bytesWritten;
        }
        var chunk := b[bytesWritten..bytesWritten + chunkSize];
        ghost var rest := Rest(b, bytesWritten + chunkSize);
        assert Rest(b, bytesWritten) == [chunk] + rest by { RestStep(b, bytesWritten, chunkSize); }
        var m, bad, o := WriteChunk(chunk, io, call, whole, out, bytesWritten, rest);
        out := out + o;
        bytesWritten := bytesWritten + m;
        if bad {
          return bytesWritten, true, out;
        }
        call := call + 1;
      }
      LastChunk(whole, out, call, bytesWritten, noise.sendCipher.Value(), noise.Value(), io);
      n, failed := bytesWritten, false;
    }

    /** One chunk: it ends the write, or is written in full. `whole` is the outcome of the whole write,
        `out` and `n` what went before, `rest` the chunks to come. */
    method WriteChunk(chunk: Text, io: nat -> (Written, Written), call: nat, ghost whole: Wrote, ghost out: Wire,
                      ghost n: nat, ghost rest: seq<Text>)
      returns (m: nat, failed: bool, o: Wire)
      requires noise.Valid()
      requires Advanced(whole, out, call, n, noise.sendCipher.Value(), noise.Value(), [chunk] + rest, io, false)
      modifies noise, noise.sendCipher
      ensures Advanced(whole, out + o, call + 1, n + m, noise.sendCipher.Value(), noise.Value(), rest, io, failed)
      ensures !failed ==> m == |chunk|
    {
      ghost var c, p := noise.sendCipher.Value(), noise.Value();
      m, failed, o := WriteAndFlush(noise, chunk, io, call);
      NextChunk(whole, out, call, n, c, p, chunk, rest, io);
    }
  }

  /** `whole` has ended with the message just tried, or goes on with `rest`. */
  predicate Advanced(whole: Wrote, out: Wire, call: nat, n: nat, c: Cipher, p: Pending, rest: seq<Text>,
                     io: nat -> (Written, Written), failed: bool) {
    if failed then whole.cipher == c && whole.pending == p && whole.out == out && whole.count == n && whole.failed
    else whole == Preceded(out, call, n, WritePieces(c, p, rest, io, call))
  }

  lemma {:induction false} FirstChunk(whole: Wrote, c: Cipher, p: Pending, b: Text, io: nat -> (Written, Written))
    requires whole == WritePieces(c, p, Pieces(b), io, 0) && b != []
    ensures Advanced(whole, [], 0, 0, c, p, Rest(b, 0), io, false)
  {
    assert b[0..] == b && [] + whole.out == whole.out;
  }

  lemma {:induction false} LastChunk(whole: Wrote, out: Wire, call: nat, n: nat, c: Cipher, p: Pending,
                                     io: nat -> (Written, Written))
    requires Advanced(whole, out, call, n, c, p, [], io, false)
    ensures whole == Wrote(c, p, out, call, n, false)
  {
    assert out + [] == out;
  }

  /** One iteration of the loop: it ends the write, or has written its chunk in full. */
  lemma {:induction false} NextChunk(whole: Wrote, out: Wire, call: nat, n: nat, c: Cipher, p: Pending, chunk: Text,
                                     rest: seq<Text>, io: nat -> (Written, Written))
    requires Advanced(whole, out, call, n, c, p, [chunk] + rest, io, false)
    ensures var w := WritePieces(c, p, [chunk], io, call);
            && Advanced(whole, out + w.out, call + 1, n + w.count, w.cipher, w.pending, rest, io, w.failed)
            && (!w.failed ==> w.count == |chunk|)
  {
    var w := WritePieces(c, p, [chunk], io, call);
    FirstPiece(c, p, chunk, rest, io, call);
    WritePiecesExact(c, p, [chunk], io, call);
    if !w.failed {
      assert [chunk][..1] == [chunk];
      FlatOne(chunk);
      Assoc(out, w.out, WritePieces(w.cipher, w.pending, rest, io, call + 1).out);
    }
  }

  class NoiseGrpcConn {
    const noise: Machine
    var nextMsg: Text

    constructor (noise: Machine)
      ensures this.noise == noise && nextMsg == []
    {
      this.noise := noise;
      nextMsg := [];
    }

    /** `Read` into a buffer of `k` bytes; `out` is what that buffer then holds. */
    method Read(wire: Wire, k: nat) returns (r: ReadResult, n: nat, out: Text)
      requires noise.Valid()
      modifies this, noise.recvCipher
      ensures old(nextMsg) != [] ==> r == Got([], old(noise.recvCipher.Value()), wire)
      ensures old(nextMsg) == [] ==> r == ReadMessage(old(noise.recvCipher.Value()), wire)
      ensures r.Got? ==> GrpcFetched(n, out, nextMsg) == GrpcFetch(old(nextMsg), r.text, k)
      ensures !r.Got? ==> nextMsg == old(nextMsg) == []
      ensures noise.recvCipher.Value() ==
              (if old(nextMsg) != [] then old(noise.recvCipher.Value())
               else CipherAfter(old(noise.recvCipher.Value()), wire))
    {
      r := Got([], noise.recvCipher.Value(), wire);
      if |nextMsg| > 0 {
        n, out := |nextMsg|, Copied(nextMsg, k);
        nextMsg := [];
        return;
      }
      n, out := 0, [];
      r := noise.ReadNext(wire);
      if !r.Got? { return; }
      var requestBytes := r.text;
      if |requestBytes| > GRPC_BUF_SIZE {
        nextMsg := requestBytes[GRPC_BUF_SIZE..];
        n, out := GRPC_BUF_SIZE, Copied(requestBytes[..GRPC_BUF_SIZE], k);
        return;
      }
      n, out := |requestBytes|, Copied(requestBytes, k);
    }

    /** `Write`: one message, or an error when it is too long for one. */
    method Write(b: Text, io: nat -> (Written, Written)) returns (n: nat, failed: bool, out: Wire)
      requires noise.Valid()
      modifies noise, noise.sendCipher
      ensures var w := WritePieces(old(noise.sendCipher.Value()), old(noise.Value()), [b], io, 0);
              && noise.sendCipher.Value() == w.cipher && noise.Value() == w.pending
              && out == w.out && n == w.count && failed == w.failed
    {
      n, failed, out := WriteAndFlush(noise, b, io, 0);
    }
  }
}
