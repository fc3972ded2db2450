/** Symbolic cryptography: keys, digests and ciphertexts are terms, equal only when they were built
    in the same way from the same parts. */
module Terms {
  import opened Common

  datatype Term =
    | Zero                                                     // the all-zero key
    | Name(name: string)                                       // hash of a protocol name
    | Plain(bytes: seq<uint8>)                                 // known bytes
    | Point(scalar: nat, mask: int)                            // the curve point scalar * G + mask * N
    | Dh(a: nat, b: nat, mask: int)                            // the product a * (b * G + mask * N)
    | Mix(digest: Term, data: Term)                            // hash of digest and data
    | Kdf1(salt: Term, secret: Term)                           // first 32 bytes of HKDF
    | Kdf2(salt: Term, secret: Term)                           // second 32 bytes of HKDF
    | Entropy(passphrase: int)                                 // the bytes behind a pairing phrase
    | Hmac(key: Term, text: Term)                              // HMAC-SHA256
    | Sha512(data: Term)                                       // hash of 64 bytes
    | Seal(key: Term, nonce: nat, ad: Term, text: Term)        // authenticated encryption

  /** The ECDH of a private key and a public point; the product of two keys does not depend on whose
      private key is used. */
  function Ecdh(pub: Term, priv: nat): Term
    requires pub.Point?
  {
    if pub.mask != 0 then Dh(priv, pub.scalar, pub.mask)
    else if priv <= pub.scalar then Dh(priv, pub.scalar, 0)
    else Dh(pub.scalar, priv, 0)
  }

  /** `ekeMask` adds pw * N, `ekeUnmask` subtracts it. */
  function Masked(p: Term, pw: int): Term
    requires p.Point?
  {
    Point(p.scalar, p.mask + pw)
  }

  function Unmasked(p: Term, pw: int): Term
    requires p.Point?
  {
    Point(p.scalar, p.mask - pw)
  }

  const MAC_SIZE: nat := 16
  const PUBKEY_SIZE: nat := 33

  function Len(t: Term): nat {
    match t
    case Plain(b) => |b|
    case Point(_, _) => PUBKEY_SIZE
    case Seal(_, _, _, text) => Len(text) + MAC_SIZE
    case Sha512(_) => 64
    case _ => 32
  }

  /** A byte on the wire: a known one, or the `i`-th byte of a key or ciphertext. */
  datatype WireByte = Raw(b: uint8) | Part(t: Term, i: nat)

  type Wire = seq<WireByte>

  function Bytes(t: Term): Wire { seq(Len(t), i requires 0 <= i < Len(t) => Part(t, i)) }

  /** The term that these bytes are the whole of. */
  function Parse(b: Wire): Option<Term> {
    if |b| > 0 && b[0].Part? && b == Bytes(b[0].t) then Some(b[0].t) else None
  }

  /** Known bytes on the wire. */
  function Raws(b: seq<uint8>): Wire { seq(|b|, i requires 0 <= i < |b| => Raw(b[i])) }

  predicate AllRaw(w: Wire) { forall i :: 0 <= i < |w| ==> w[i].Raw? }

  function Unraw(w: Wire): seq<uint8>
    requires AllRaw(w)
  {
    seq(|w|, i requires 0 <= i < |w| => w[i].b)
  }

  lemma {:induction false} UnrawRaws(b: seq<uint8>)
    ensures AllRaw(Raws(b)) && Unraw(Raws(b)) == b
  {
  }

  lemma {:induction false} ParseBytes(t: Term)
    requires Len(t) > 0
    ensures Parse(Bytes(t)) == Some(t)
  {
    assert Bytes(t)[0] == Part(t, 0);
  }

  /** Two-byte big-endian numbers. */
  function Be16(n: nat): (b: seq<uint8>)
    ensures |b| == 2
  {
    [(n / 256 % 256) as uint8, (n % 256) as uint8]
  }

  function FromBe16(b: seq<uint8>): nat
    requires |b| == 2
  {
    b[0] as nat * 256 + b[1] as nat
  }

  lemma {:induction false} Be16RoundTrip(n: nat)
    ensures FromBe16(Be16(n)) == n % 65536
  {
  }

  lemma {:induction false} Be16Unique(b: seq<uint8>)
    requires |b| == 2
    ensures Be16(FromBe16(b)) == b && FromBe16(b) <= 65535
  {
  }

  /** The earlier of two bytes that differ decides. */
  predicate Precedes(a: seq<uint8>, b: seq<uint8>)
    requires |a| == |b|
  {
    a != [] && (a[0] < b[0] || (a[0] == b[0] && Precedes(a[1..], b[1..])))
  }

  /** Most significant byte first: the order of the numbers is the order of their bytes. */
  lemma {:induction false} Be16Order(m: nat, n: nat)
    requires m < n < 65536
    ensures Precedes(Be16(m), Be16(n))
  {
    assert Be16(m)[1..] == [Be16(m)[1]] && Be16(n)[1..] == [Be16(n)[1]];
    assert m / 256 == n / 256 ==> m % 256 < n % 256;
  }

  /** Four-byte big-endian numbers. */
  function Be32(n: nat): (b: seq<uint8>)
    ensures |b| == 4
  {
    Be16(n / 65536) + Be16(n % 65536)
  }

  function FromBe32(b: seq<uint8>): nat
    requires |b| == 4
  {
    FromBe16(b[..2]) * 65536 + FromBe16(b[2..])
  }

  lemma {:induction false} PrecedesPrepended(p: seq<uint8>, a: seq<uint8>, b: seq<uint8>)
    requires |a| == |b| && Precedes(a, b)
    ensures Precedes(p + a, p + b)
  {
    if p == [] {
      assert p + a == a && p + b == b;
    } else {
      PrecedesPrepended(p[1..], a, b);
      assert (p + a)[1..] == p[1..] + a && (p + b)[1..] == p[1..] + b;
    }
  }

  lemma {:induction false} PrecedesFollowed(a: seq<uint8>, b: seq<uint8>, p: seq<uint8>, q: seq<uint8>)
    requires |a| == |b| && Precedes(a, b) && |p| == |q|
    ensures Precedes(a + p, b + q)
  {
    if a[0] == b[0] {
      PrecedesFollowed(a[1..], b[1..], p, q);
      assert (a + p)[1..] == a[1..] + p && (b + q)[1..] == b[1..] + q;
    }
  }

  lemma {:induction false} Be32Order(m: nat, n: nat)
    requires m < n < 0x1_0000_0000
    ensures Precedes(Be32(m), Be32(n))
  {
    hide Precedes;
    if m / 65536 == n / 65536 {
      Be16Order(m % 65536, n % 65536);
      PrecedesPrepended(Be16(n / 65536), Be16(m % 65536), Be16(n % 65536));
    } else {
      Be16Order(m / 65536, n / 65536);
      PrecedesFollowed(Be16(m / 65536), Be16(n / 65536), Be16(m % 65536), Be16(n % 65536));
    }
  }

  lemma {:induction false} Be32RoundTrip(n: nat)
    ensures FromBe32(Be32(n)) == n % 0x1_0000_0000
  {
    hide Be16, FromBe16;
    TakeDrop(Be16(n / 65536), Be16(n % 65536));
    Be16RoundTrip(n / 65536);
    Be16RoundTrip(n % 65536);
  }
}
