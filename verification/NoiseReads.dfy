/** How the handshake reads its input: with plain `Read` calls, each of which may return fewer bytes than
    asked for (mailbox/noise.go, mailbox/interface.go).

    A read takes bytes from what is buffered of the last packet, or from the next packet when nothing is;
    it never takes bytes of two packets, and the part of the caller's array it does not fill stays zero.
    The functions here read a handshake in this way. The lemmas compare them with the functions of
    `NoiseHandshake`, which read exactly as many bytes as they ask for. */
module NoiseReads {
  import opened Common
  import opened Terms
  import opened NoisePatterns
  import opened NoiseHandshake

  // -------------------------------------------------------------------------
  // Packets

  /** What is left of the last packet, and the packets to come: control messages or TCP segments. */
  datatype Feed = Feed(buf: Wire, packets: seq<Wire>) {
    function All(): Wire { buf + Flat(packets) }

    /** How many bytes the next read can return; 0 when it blocks or reports the end of the file. */
    function Front(): nat { if buf != [] then |buf| else if packets != [] then |packets[0]| else 0 }
  }

  /** One `Read` into a new array of `k` bytes; `None` when it blocks or reports the end of the file. */
  function Fetch(f: Feed, k: nat): Option<(Wire, Feed)> {
    if f.Front() == 0 then None
    else if f.buf != [] then Some(Slice(f.buf, f.packets, k))
    else Some(Slice(f.packets[0], f.packets[1..], k))
  }

  function Slice(b: Wire, packets: seq<Wire>, k: nat): (Wire, Feed) {
    if |b| >= k then (b[..k], Feed(b[k..], packets)) else (b + seq(k - |b|, _ => Raw(0)), Feed([], packets))
  }

  lemma {:induction false} FetchFull(f: Feed, k: nat)
    requires 0 < k <= f.Front()
    ensures Fetch(f, k).Some? && k <= |f.All()|
    ensures var (b, f') := Fetch(f, k).value; b == f.All()[..k] && f'.All() == f.All()[k..]
  {
    var b, packets := if f.buf != [] then f.buf else f.packets[0], if f.buf != [] then f.packets else f.packets[1..];
    assert f.All() == b + Flat(packets);
    assert (b + Flat(packets))[..k] == b[..k];
    assert (b + Flat(packets))[k..] == b[k..] + Flat(packets);
  }

  /** A short read leaves zeros behind, which belong to no key and no ciphertext. */
  lemma {:induction false} FetchShort(f: Feed, k: nat)
    requires f.Front() < k && Fetch(f, k).Some?
    ensures |Fetch(f, k).value.0| == k && Parse(Fetch(f, k).value.0) == None
  {
    assert Fetch(f, k).value.0[k - 1] == Raw(0);
  }

  /** A read that does not reach the end of a packet. */
  lemma {:induction false} FetchWithin(b: Wire, packets: seq<Wire>, k: nat)
    requires 0 < k <= |b|
    ensures Fetch(Feed(b, packets), k) == Some((b[..k], Feed(b[k..], packets)))
    ensures Fetch(Feed([], [b] + packets), k) == Some((b[..k], Feed(b[k..], packets)))
  {
    assert ([b] + packets)[1..] == packets;
  }

  // -------------------------------------------------------------------------
  // The handshake on packets

  function FetchKey(f: Feed): Option<(PublicKey, Feed)> {
    match Fetch(f, PUBKEY_SIZE) case None => None case Some((b, f1)) =>
    match Parse(b)
    case Some(Point(k, m)) => Some((Point(k, m), f1))
    case _ => None
  }

  function FetchToken(h: State, t: Token, f: Feed): Option<(State, Feed)> {
    match t
    case E =>
      (match FetchKey(f)
       case None => None
       case Some((e, f1)) => Some((MixHash(h.(remoteEphemeral := Some(e)), e), f1)))
    case ME =>
      (match FetchKey(f)
       case None => None
       case Some((masked, f1)) =>
         var e := Unmasked(masked, h.passphrase);
         Some((MixHash(h.(remoteEphemeral := Some(e)), e), f1)))
    case S =>
      (match Fetch(f, PUBKEY_SIZE + MAC_SIZE) case None => None case Some((b, f1)) =>
       match Decrypted(h, b)
       case Some((h', Point(k, m))) => Some((h'.(remoteStatic := Some(Point(k, m))), f1))
       case _ => None)
    case _ =>
      match DhSecret(h, t)
      case None => None
      case Some(secret) => Some((MixKey(h, secret), f))
  }

  function FetchTokens(h: State, ts: seq<Token>, f: Feed): Option<(State, Feed)>
    decreases |ts|
  {
    if ts == [] then Some((h, f)) else
    match FetchToken(h, ts[0], f) case None => None case Some((h1, f1)) =>
    FetchTokens(h1, ts[1..], f1)
  }

  function FetchSealed(h: State, size: nat, f: Feed): Option<(State, seq<uint8>, Feed)> {
    match Fetch(f, size) case None => None case Some((b, f1)) =>
    match Decrypted(h, b)
    case Some((h', Plain(text))) => Some((h', text, f1))
    case _ => None
  }

  function FetchPayload(h: State, act: nat, version: uint8, f: Feed): Option<(State, Feed)> {
    if !(1 <= act <= 3) then None
    else if version == 0 then
      match FetchSealed(h, (if act == 2 then ACT_TWO_PAYLOAD_SIZE else 0) + MAC_SIZE, f)
      case None => None
      case Some((h1, b, f1)) =>
        if |b| != ACT_TWO_PAYLOAD_SIZE then Some((h1, f1))
        else Some((h1.(receivedPayload := Some(FromFixed(b))), f1))
    else if version <= 2 then
      if act == 2 then
        match FetchSealed(h, 4 + MAC_SIZE, f) case None => None case Some((h1, len, f1)) =>
        if |len| != 4 then None else
        match FetchSealed(h1, MAC_SIZE + FromBe32(len), f1) case None => None case Some((h2, auth, f2)) =>
        Some((h2.(receivedPayload := Some(auth)), f2))
      else
        match FetchSealed(h, MAC_SIZE, f) case None => None case Some((h1, _, f1)) => Some((h1, f1))
    else None
  }

  function FetchAct(h: State, mp: MessagePattern, f: Feed): Option<(State, Feed)> {
    match Fetch(f, 1) case None => None case Some((b, f1)) =>
    if |b| != 1 || !b[0].Raw? then None else
    match Negotiated(h, mp.act, b[0].b) case None => None case Some(h1) =>
    match FetchTokens(h1, mp.tokens, f1) case None => None case Some((h2, f2)) =>
    FetchPayload(h2, mp.act, b[0].b, f2)
  }

  // -------------------------------------------------------------------------
  // When every read is full

  /** The sizes of the reads for a series of tokens, for a payload and for an act. */
  function Width(t: Token): nat {
    match t
    case E => PUBKEY_SIZE
    case ME => PUBKEY_SIZE
    case S => PUBKEY_SIZE + MAC_SIZE
    case _ => 0
  }

  function Widths(ts: seq<Token>): seq<nat> {
    if ts == [] then [] else (if Width(ts[0]) > 0 then [Width(ts[0])] else []) + Widths(ts[1..])
  }

  function PayloadWidths(act: nat, version: uint8, auth: nat): seq<nat> {
    if version == 0 then [(if act == 2 then ACT_TWO_PAYLOAD_SIZE else 0) + MAC_SIZE]
    else if act == 2 then [4 + MAC_SIZE, MAC_SIZE + auth]
    else [MAC_SIZE]
  }

  function ActWidths(mp: MessagePattern, version: uint8, auth: nat): seq<nat> {
    [1] + (Widths(mp.tokens) + PayloadWidths(mp.act, version, auth))
  }

  /** No packet ends inside one of these reads. */
  predicate FullReads(f: Feed, sizes: seq<nat>)
    decreases |sizes|
  {
    sizes == [] ||
    (sizes[0] <= f.Front() && Fetch(f, sizes[0]).Some? && FullReads(Fetch(f, sizes[0]).value.1, sizes[1..]))
  }

  function AfterReads(f: Feed, sizes: seq<nat>): Feed
    decreases |sizes|
  {
    if sizes == [] || Fetch(f, sizes[0]) == None then f else AfterReads(Fetch(f, sizes[0]).value.1, sizes[1..])
  }

  lemma {:induction false} FullReadsAppend(f: Feed, a: seq<nat>, b: seq<nat>)
    ensures FullReads(f, a + b) <==> FullReads(f, a) && FullReads(AfterReads(f, a), b)
    decreases |a|
  {
    if a == [] {
      assert a + b == b;
    } else {
      assert (a + b)[1..] == a[1..] + b;
      if Fetch(f, a[0]).Some? {
        FullReadsAppend(Fetch(f, a[0]).value.1, a[1..], b);
      }
    }
  }

  lemma {:induction false} FullReadsOne(f: Feed, size: nat)
    requires size > 0
    ensures FullReads(f, [size]) <==> size <= f.Front()
    ensures size <= f.Front() ==> AfterReads(f, [size]) == Fetch(f, size).value.1
  {
    assert [size][1..] == [];
  }

  /** A ciphertext is read exactly when it is there and in one packet. */
  lemma {:induction false} SealedFetch(h: State, size: nat, f: Feed)
    requires size > 0
    ensures FetchSealed(h, size, f).Some? <==> ReadSealed(h, size, f.All()).Some? && size <= f.Front()
    ensures FetchSealed(h, size, f).Some? ==>
              var (h', b, f') := FetchSealed(h, size, f).value;
              ReadSealed(h, size, f.All()) == Some((h', b, f'.All())) && f' == Fetch(f, size).value.1
  {
    if size <= f.Front() {
      FetchFull(f, size);
    } else if Fetch(f, size).Some? {
      FetchShort(f, size);
    }
  }

  lemma {:induction false} TokenFetch(h: State, t: Token, f: Feed)
    ensures FetchToken(h, t, f).Some? <==> ReadToken(h, t, f.All()).Some? && Width(t) <= f.Front()
    ensures FetchToken(h, t, f).Some? ==>
              var (h', f') := FetchToken(h, t, f).value;
              && ReadToken(h, t, f.All()) == Some((h', f'.All()))
              && f' == (if Width(t) > 0 then Fetch(f, Width(t)).value.1 else f)
  {
    var k := Width(t);
    if k > 0 {
      if k <= f.Front() {
        FetchFull(f, k);
      } else if Fetch(f, k).Some? {
        FetchShort(f, k);
      }
    }
  }

  lemma {:induction false} TokensFetch(h: State, ts: seq<Token>, f: Feed)
    ensures FetchTokens(h, ts, f).Some? <==> ReadTokens(h, ts, f.All()).Some? && FullReads(f, Widths(ts))
    ensures FetchTokens(h, ts, f).Some? ==>
              var (h', f') := FetchTokens(h, ts, f).value;
              ReadTokens(h, ts, f.All()) == Some((h', f'.All())) && f' == AfterReads(f, Widths(ts))
    decreases |ts|
  {
    if ts != [] {
      TokenFetch(h, ts[0], f);
      var k := Width(ts[0]);
      var first := if k > 0 then [k] else [];
      FullReadsAppend(f, first, Widths(ts[1..]));
      if k > 0 {
        FullReadsOne(f, k);
        assert Widths(ts)[1..] == Widths(ts[1..]);
      } else {
        assert [] + Widths(ts[1..]) == Widths(ts[1..]);
      }
      if FetchToken(h, ts[0], f).Some? {
        var (h1, f1) := FetchToken(h, ts[0], f).value;
        TokensFetch(h1, ts[1..], f1);
      }
    }
  }

  /** The auth data read is as long as its length field says. */
  lemma {:induction false} SealedSize(h: State, size: nat, wire: Wire)
    requires ReadSealed(h, size, wire).Some?
    ensures size == |ReadSealed(h, size, wire).value.1| + MAC_SIZE
  {
    var ct := Parse(wire[..size]).value;
    assert |Bytes(ct)| == Len(ct);
  }

  lemma {:induction false} PayloadFetch(h: State, act: nat, version: uint8, f: Feed, auth: nat)
    requires ReadPayload(h, act, version, f.All()).Some? && version >= 1 && act == 2 ==>
               ReadPayload(h, act, version, f.All()).value.0.receivedPayload.Some? &&
               |ReadPayload(h, act, version, f.All()).value.0.receivedPayload.value| == auth
    ensures FetchPayload(h, act, version, f).Some? <==>
            ReadPayload(h, act, version, f.All()).Some? && FullReads(f, PayloadWidths(act, version, auth))
    ensures FetchPayload(h, act, version, f).Some? ==>
              var (h', f') := FetchPayload(h, act, version, f).value;
              ReadPayload(h, act, version, f.All()) == Some((h', f'.All()))
  {
    if version == 0 || act != 2 {
      var size := PayloadWidths(act, version, auth)[0];
      SealedFetch(h, size, f);
      FullReadsOne(f, size);
    } else {
      PrefixedFetch(h, version, f, auth);
    }
  }

  lemma {:induction false} PrefixedFetch(h: State, version: uint8, f: Feed, auth: nat)
    requires version >= 1
    requires ReadPayload(h, 2, version, f.All()).Some? ==>
               ReadPayload(h, 2, version, f.All()).value.0.receivedPayload.Some? &&
               |ReadPayload(h, 2, version, f.All()).value.0.receivedPayload.value| == auth
    ensures FetchPayload(h, 2, version, f).Some? <==>
            ReadPayload(h, 2, version, f.All()).Some? && FullReads(f, PayloadWidths(2, version, auth))
    ensures FetchPayload(h, 2, version, f).Some? ==>
              var (h', f') := FetchPayload(h, 2, version, f).value;
              ReadPayload(h, 2, version, f.All()) == Some((h', f'.All()))
  {
    var size := 4 + MAC_SIZE;
    SealedFetch(h, size, f);
    if version <= 2 && FetchSealed(h, size, f).Some? && |FetchSealed(h, size, f).value.1| == 4 {
      var (h1, len, f1) := FetchSealed(h, size, f).value;
      PrefixedWidths(f, version, auth);
      ReadPrefixed(h, version, f.All(), h1, len, f1.All());
      FetchPrefixed(h, version, f, h1, len, f1);
      SealedFetch(h1, MAC_SIZE + FromBe32(len), f1);
      if ReadSealed(h1, MAC_SIZE + FromBe32(len), f1.All()).Some? {
        SealedSize(h1, MAC_SIZE + FromBe32(len), f1.All());
      }
    } else {
      assert FetchPayload(h, 2, version, f) == None;
      if size > f.Front() {
        assert !FullReads(f, PayloadWidths(2, version, auth));
      } else {
        assert ReadPayload(h, 2, version, f.All()) == None;
      }
    }
  }

  lemma {:induction false} PrefixedWidths(f: Feed, version: uint8, auth: nat)
    requires version >= 1 && 4 + MAC_SIZE <= f.Front()
    ensures FullReads(f, PayloadWidths(2, version, auth)) <==>
            MAC_SIZE + auth <= Fetch(f, 4 + MAC_SIZE).value.1.Front()
  {
    assert PayloadWidths(2, version, auth) == [4 + MAC_SIZE] + [MAC_SIZE + auth];
    FullReadsAppend(f, [4 + MAC_SIZE], [MAC_SIZE + auth]);
    FullReadsOne(f, 4 + MAC_SIZE);
    FullReadsOne(Fetch(f, 4 + MAC_SIZE).value.1, MAC_SIZE + auth);
  }

  lemma {:induction false} ReadPrefixed(h: State, version: uint8, wire: Wire, h1: State, len: seq<uint8>, wire1: Wire)
    requires 1 <= version <= 2 && ReadSealed(h, 4 + MAC_SIZE, wire) == Some((h1, len, wire1)) && |len| == 4
    ensures ReadPayload(h, 2, version, wire) ==
            match ReadSealed(h1, MAC_SIZE + FromBe32(len), wire1)
            case None => None
            case Some((h2, auth, rest)) => Some((h2.(receivedPayload := Some(auth)), rest))
  {
  }

  lemma {:induction false} FetchPrefixed(h: State, version: uint8, f: Feed, h1: State, len: seq<uint8>, f1: Feed)
    requires 1 <= version <= 2 && FetchSealed(h, 4 + MAC_SIZE, f) == Some((h1, len, f1)) && |len| == 4
    ensures FetchPayload(h, 2, version, f) ==
            match FetchSealed(h1, MAC_SIZE + FromBe32(len), f1)
            case None => None
            case Some((h2, auth, f2)) => Some((h2.(receivedPayload := Some(auth)), f2))
  {
  }

  /** Plain reads do what exact reads do exactly when no packet ends inside a field; otherwise the
      handshake fails, whatever the bytes are. `auth` is the length of the auth data received. */
  lemma {:induction false} ActFetch(h: State, mp: MessagePattern, f: Feed, auth: nat)
    requires ReadAct(h, mp, f.All()).Some? && f.All()[0].b >= 1 && mp.act == 2 ==>
               ReadAct(h, mp, f.All()).value.0.receivedPayload.Some? &&
               |ReadAct(h, mp, f.All()).value.0.receivedPayload.value| == auth
    ensures FetchAct(h, mp, f).Some? <==>
            ReadAct(h, mp, f.All()).Some? && FullReads(f, ActWidths(mp, f.All()[0].b, auth))
    ensures FetchAct(h, mp, f).Some? ==>
              var (h', f') := FetchAct(h, mp, f).value; ReadAct(h, mp, f.All()) == Some((h', f'.All()))
  {
    if f.Front() >= 1 {
      FetchFull(f, 1);
      var f1 := Fetch(f, 1).value.1;
      if f.All()[0].Raw? && Negotiated(h, mp.act, f.All()[0].b).Some? {
        var version, h1 := f.All()[0].b, Negotiated(h, mp.act, f.All()[0].b).value;
        ActWidthsFull(f, mp, version, auth);
        TokensFetch(h1, mp.tokens, f1);
        if FetchTokens(h1, mp.tokens, f1).Some? {
          var (h2, f2) := FetchTokens(h1, mp.tokens, f1).value;
          PayloadFetch(h2, mp.act, version, f2, auth);
        }
      }
    }
  }

  lemma {:induction false} ActWidthsFull(f: Feed, mp: MessagePattern, version: uint8, auth: nat)
    requires f.Front() >= 1
    ensures FullReads(f, ActWidths(mp, version, auth)) <==>
            var f1 := Fetch(f, 1).value.1;
            && FullReads(f1, Widths(mp.tokens))
            && FullReads(AfterReads(f1, Widths(mp.tokens)), PayloadWidths(mp.act, version, auth))
  {
    FullReadsAppend(f, [1], Widths(mp.tokens) + PayloadWidths(mp.act, version, auth));
    FullReadsOne(f, 1);
    FullReadsAppend(Fetch(f, 1).value.1, Widths(mp.tokens), PayloadWidths(mp.act, version, auth));
  }

  // -------------------------------------------------------------------------
  // An act in a packet of its own

  lemma {:induction false} TokensWithin(h: State, ts: seq<Token>, b: Wire, packets: seq<Wire>)
    requires ReadTokens(h, ts, b).Some?
    ensures var (h', rest) := ReadTokens(h, ts, b).value;
            FetchTokens(h, ts, Feed(b, packets)) == Some((h', Feed(rest, packets)))
    decreases |ts|
  {
    if ts != [] {
      if Width(ts[0]) > 0 {
        FetchWithin(b, packets, Width(ts[0]));
      }
      var (h1, b1) := ReadToken(h, ts[0], b).value;
      TokensWithin(h1, ts[1..], b1, packets);
    }
  }

  lemma {:induction false} SealedWithin(h: State, size: nat, b: Wire, packets: seq<Wire>)
    requires size > 0 && ReadSealed(h, size, b).Some?
    ensures var (h', text, rest) := ReadSealed(h, size, b).value;
            FetchSealed(h, size, Feed(b, packets)) == Some((h', text, Feed(rest, packets)))
  {
    FetchWithin(b, packets, size);
  }

  lemma {:induction false} PayloadWithin(h: State, act: nat, version: uint8, b: Wire, packets: seq<Wire>)
    requires ReadPayload(h, act, version, b).Some?
    ensures var (h', rest) := ReadPayload(h, act, version, b).value;
            FetchPayload(h, act, version, Feed(b, packets)) == Some((h', Feed(rest, packets)))
  {
    if version == 0 {
      SealedWithin(h, (if act == 2 then ACT_TWO_PAYLOAD_SIZE else 0) + MAC_SIZE, b, packets);
    } else if act == 2 {
      SealedWithin(h, 4 + MAC_SIZE, b, packets);
      var (h1, len, b1) := ReadSealed(h, 4 + MAC_SIZE, b).value;
      SealedWithin(h1, MAC_SIZE + FromBe32(len), b1, packets);
    } else {
      SealedWithin(h, MAC_SIZE, b, packets);
    }
  }

  /** An act that arrives as one control message is read as the exact reads read it. */
  lemma {:induction false} ActInPacket(h: State, mp: MessagePattern, b: Wire, packets: seq<Wire>)
    requires ReadAct(h, mp, b).Some?
    ensures var (h', rest) := ReadAct(h, mp, b).value;
            FetchAct(h, mp, Feed([], [b] + packets)) == Some((h', Feed(rest, packets)))
  {
    FetchWithin(b, packets, 1);
    var h1 := Negotiated(h, mp.act, b[0].b).value;
    TokensWithin(h1, mp.tokens, b[1..], packets);
    var (h2, b2) := ReadTokens(h1, mp.tokens, b[1..]).value;
    PayloadWithin(h2, mp.act, b[0].b, b2, packets);
  }
}
