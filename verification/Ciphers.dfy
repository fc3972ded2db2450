/** The ratcheting cipher (mailbox/noise.go). */
module Ciphers {
  import opened Common
  import opened Terms

  const KEY_ROTATION_INTERVAL: nat := 1000

  /** The value of a cipher state. */
  datatype Cipher = Cipher(key: Term, salt: Term, nonce: nat)

  function Rotated(c: Cipher): Cipher { Cipher(Kdf2(c.salt, c.key), Kdf1(c.salt, c.key), 0) }

  /** What every encryption and decryption, successful or not, does to the state. */
  function Bumped(c: Cipher): Cipher {
    if c.nonce + 1 == KEY_ROTATION_INTERVAL then Rotated(c) else c.(nonce := c.nonce + 1)
  }

  function Sealed(c: Cipher, ad: Term, text: Term): Term { Seal(c.key, c.nonce, ad, text) }

  function Opened(c: Cipher, ad: Term, b: Wire): Option<Term> {
    match Parse(b)
    case Some(Seal(key, nonce, ad', text)) =>
      if key == c.key && nonce == c.nonce && ad' == ad then Some(text) else None
    case _ => None
  }

  lemma {:induction false} OpenedSealed(c: Cipher, ad: Term, text: Term)
    ensures Opened(c, ad, Bytes(Sealed(c, ad, text))) == Some(text)
  {
    ParseBytes(Sealed(c, ad, text));
  }

  /** Nothing else opens: bytes open to a text exactly when they are what this cipher makes of it. */
  lemma {:induction false} OpenedExact(c: Cipher, ad: Term, b: Wire, text: Term)
    ensures Opened(c, ad, b) == Some(text) <==> b == Bytes(Seal(c.key, c.nonce, ad, text))
  {
    OpenedSealed(c, ad, text);
  }

  class CipherState {
    var nonce: nat
    var secretKey: Term
    var salt: Term

    constructor ()
      ensures Value() == Cipher(Zero, Zero, 0)
    {
      nonce, secretKey, salt := 0, Zero, Zero;
    }

    function Value(): Cipher
      reads this
    {
      Cipher(secretKey, salt, nonce)
    }

    method InitializeKey(key: Term)
      modifies this
      ensures Value() == Cipher(key, old(salt), 0)
    {
      secretKey := key;
      nonce := 0;
    }

    method InitializeKeyWithSalt(s: Term, key: Term)
      modifies this
      ensures Value() == Cipher(key, s, 0)
    {
      salt := s;
      InitializeKey(key);
    }

    method RotateKey()
      modifies this
      ensures Value() == Rotated(old(Value()))
    {
      var oldKey, oldSalt := secretKey, salt;
      salt := Kdf1(oldSalt, oldKey);
      InitializeKey(Kdf2(oldSalt, oldKey));
    }

    method Encrypt(ad: Term, text: Term) returns (ct: Term)
      modifies this
      ensures ct == Sealed(old(Value()), ad, text) && Value() == Bumped(old(Value()))
    {
      ct := Seal(secretKey, nonce, ad, text);
      nonce := nonce + 1;
      if nonce == KEY_ROTATION_INTERVAL {
        RotateKey();
      }
    }

    method Decrypt(ad: Term, b: Wire) returns (text: Option<Term>)
      modifies this
      ensures text == Opened(old(Value()), ad, b) && Value() == Bumped(old(Value()))
    {
      text := Opened(Cipher(secretKey, salt, nonce), ad, b);
      nonce := nonce + 1;
      if nonce == KEY_ROTATION_INTERVAL {
        RotateKey();
      }
    }
  }

  // -------------------------------------------------------------------------
  // Any number of operations

  /** The state after `i` operations. */
  function After(c: Cipher, i: nat): Cipher { if i == 0 then c else Bumped(After(c, i - 1)) }

  /** The state after `e` rotations. */
  function Epoch(c: Cipher, e: nat): Cipher { if e == 0 then c else Rotated(Epoch(c, e - 1)) }

  /** After `i` operations the key and salt have been ratcheted `i / 1000` times and the nonce is
      `i % 1000`. */
  lemma {:induction false} AfterIsEpoch(c: Cipher, i: nat)
    requires c.nonce == 0
    ensures After(c, i) == Epoch(c, i / 1000).(nonce := i % 1000)
  {
    if i > 0 {
      AfterIsEpoch(c, i - 1);
      EpochNonce(c, (i - 1) / 1000);
      if i % 1000 == 0 {
        assert i / 1000 == (i - 1) / 1000 + 1;
      }
    } else {
      EpochNonce(c, 0);
    }
  }

  lemma {:induction false} EpochNonce(c: Cipher, e: nat)
    requires c.nonce == 0
    ensures Epoch(c, e).nonce == 0
  {
  }

  /** What an operation does to key, salt and nonce: the first 999 of every 1000 only count, the last
      one derives the next salt and the next key, in this order, from both of them. */
  lemma {:induction false} RatchetExact(c: Cipher, i: nat)
    requires c.nonce == 0
    ensures After(c, i).nonce == i % 1000
    ensures var k, s := After(c, i).key, After(c, i).salt;
            After(c, i + 1) ==
            if i % 1000 == 999 then Cipher(Kdf2(s, k), Kdf1(s, k), 0) else Cipher(k, s, i % 1000 + 1)
  {
    AfterIsEpoch(c, i);
  }

  /** How often a key, and a salt, has been ratcheted. */
  function Height(t: Term): nat { if t.Kdf2? then 1 + Height(t.secret) else 0 }

  function SaltHeight(t: Term): nat { if t.Kdf1? then 1 + SaltHeight(t.salt) else 0 }

  lemma {:induction false} EpochHeight(c: Cipher, e: nat)
    ensures Height(Epoch(c, e).key) == Height(c.key) + e
    ensures SaltHeight(Epoch(c, e).salt) == SaltHeight(c.salt) + e
  {
    if e > 0 {
      EpochHeight(c, e - 1);
    }
  }

  /** Two operations have the same salt, and the same key, exactly when they lie in the same thousand:
      no two epochs share either. */
  lemma {:induction false} EpochsDistinct(c: Cipher, i: nat, j: nat)
    requires c.nonce == 0
    ensures After(c, i).salt == After(c, j).salt <==> i / 1000 == j / 1000
    ensures After(c, i).key == After(c, j).key <==> i / 1000 == j / 1000
  {
    AfterIsEpoch(c, i);
    AfterIsEpoch(c, j);
    EpochHeight(c, i / 1000);
    EpochHeight(c, j / 1000);
  }

  /** No two operations of one cipher ever use the same key with the same nonce. */
  lemma {:induction false} NoKeyNonceReuse(c: Cipher, i: nat, j: nat)
    requires c.nonce == 0
    requires After(c, i).key == After(c, j).key && After(c, i).nonce == After(c, j).nonce
    ensures i == j
  {
    RatchetExact(c, i);
    RatchetExact(c, j);
    EpochsDistinct(c, i, j);
  }

  lemma {:induction false} AfterAdd(c: Cipher, i: nat, j: nat)
    ensures After(After(c, i), j) == After(c, i + j)
  {
    if j > 0 {
      AfterAdd(c, i, j - 1);
    }
  }

  /** The two operations of message `k` use the same key and consecutive nonces. */
  lemma {:induction false} MessageWithinEpoch(c: Cipher, k: nat)
    requires c.nonce == 0
    ensures After(c, 2 * k + 1) == After(c, 2 * k).(nonce := After(c, 2 * k).nonce + 1)
  {
    AfterIsEpoch(c, 2 * k);
    AfterIsEpoch(c, 2 * k + 1);
  }
}
