/** Which secrets a handshake is made of, as sections 5.2 and 5.3 of the Noise Protocol Framework
    (revision 34) define them from the key pairs of the two parties alone. */
module KeySchedule {
  import opened Common
  import opened Terms
  import opened NoisePatterns

  /** The private keys of initiator and responder: the static ones, the ephemeral ones in use, and those that
      their generators will return. */
  datatype Ring = Ring(iS: nat, rS: nat, iE: Option<nat>, rE: Option<nat>, iNext: seq<nat>, rNext: seq<nat>)

  /** The secret that a token stands for, if it stands for one. */
  function TokenSecrets(k: Ring, t: Token): seq<Term> {
    match t
    case EE => if k.iE.Some? && k.rE.Some? then [Ecdh(Point(k.rE.value, 0), k.iE.value)] else []
    case ES => if k.iE.Some? then [Ecdh(Point(k.rS, 0), k.iE.value)] else []
    case SE => if k.rE.Some? then [Ecdh(Point(k.rE.value, 0), k.iS)] else []
    case SS => [Ecdh(Point(k.rS, 0), k.iS)]
    case _ => []
  }

  /** A new ephemeral key replaces the one in use. */
  function Turned(k: Ring, t: Token, initiator: bool): Ring {
    if !t.E? && !t.ME? then k
    else if initiator then (if k.iNext == [] then k else k.(iE := Some(k.iNext[0]), iNext := k.iNext[1..]))
    else (if k.rNext == [] then k else k.(rE := Some(k.rNext[0]), rNext := k.rNext[1..]))
  }

  function TurnedAll(k: Ring, ts: seq<Token>, initiator: bool): Ring
    decreases |ts|
  {
    if ts == [] then k else TurnedAll(Turned(k, ts[0], initiator), ts[1..], initiator)
  }

  /** The secrets of one act, in order. */
  function ActSecrets(k: Ring, ts: seq<Token>, initiator: bool): seq<Term>
    decreases |ts|
  {
    if ts == [] then []
    else TokenSecrets(k, ts[0]) + ActSecrets(Turned(k, ts[0], initiator), ts[1..], initiator)
  }

  /** The secrets of all acts, in order. */
  function Secrets(k: Ring, acts: seq<MessagePattern>): seq<Term>
    decreases |acts|
  {
    if acts == [] then []
    else ActSecrets(k, acts[0].tokens, acts[0].initiator) +
         Secrets(TurnedAll(k, acts[0].tokens, acts[0].initiator), acts[1..])
  }

  /** The chaining key after these secrets. */
  function Chain(ck: Term, secrets: seq<Term>): Term {
    if secrets == [] then ck else Kdf1(Chain(ck, secrets[..|secrets| - 1]), secrets[|secrets| - 1])
  }

  lemma {:induction false} ChainAppend(ck: Term, a: seq<Term>, b: seq<Term>)
    ensures Chain(ck, a + b) == Chain(Chain(ck, a), b)
    decreases |b|
  {
    if b == [] {
      assert a + b == a;
    } else {
      ChainAppend(ck, a, b[..|b| - 1]);
      assert (a + b)[..|a + b| - 1] == a + b[..|b| - 1];
    }
  }

  lemma {:induction false} ChainOne(ck: Term, s: Term)
    ensures Chain(ck, [s]) == Kdf1(ck, s) && Chain(ck, []) == ck
  {
    assert [s][..0] == [];
  }

  /** A chaining key commits to the name it was started from and to every secret in it. */
  lemma {:induction false} ChainInjective(m: string, n: string, a: seq<Term>, b: seq<Term>)
    ensures Chain(Name(m), a) == Chain(Name(n), b) <==> m == n && a == b
    decreases |a|
  {
    if a != [] && b != [] {
      ChainInjective(m, n, a[..|a| - 1], b[..|b| - 1]);
      assert a == a[..|a| - 1] + [a[|a| - 1]] && b == b[..|b| - 1] + [b[|b| - 1]];
    }
  }

  /** Two products are equal exactly when they are made of the same two key pairs. */
  lemma {:induction false} EcdhExact(a: nat, b: nat, c: nat, d: nat)
    ensures Ecdh(Point(a, 0), b) == Ecdh(Point(c, 0), d) <==> (a == c && b == d) || (a == d && b == c)
  {
  }
}
