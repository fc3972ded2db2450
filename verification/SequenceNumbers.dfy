/** Sequence numbers modulo `s` and the send window they delimit (gbn/queue.go).

    A packet's absolute index `j` counts the packets added before it; `SeqOf(j, s)` is the 8-bit
    number it is labelled with. The lemmas say how far the 8-bit arithmetic of the queue agrees
    with arithmetic on absolute indices. */
module SequenceNumbers {
  import opened Common

  /** `x % s`, by repeated subtraction. */
  function Mod(x: nat, s: nat): nat
    requires s > 0
  {
    if x < s then x else Mod(x - s, s)
  }

  lemma {:induction false} ModIsRemainder(x: nat, s: nat)
    requires s > 0
    ensures Mod(x, s) == x % s
  {
    if x < s {
      RemainderUnique(x, s, 0, x);
    } else {
      ModIsRemainder(x - s, s);
      var q, r := (x - s) / s, (x - s) % s;
      assert x - s == s * q + r;
      assert s * (q + 1) == s * q + s;
      RemainderUnique(x, s, q + 1, r);
    }
  }

  lemma {:induction false} RemainderUnique(x: nat, s: nat, q: int, r: nat)
    requires r < s && x == s * q + r
    ensures x % s == r
  {
    var q', r' := x / s, x % s;
    assert x == s * q' + r';
    if q < q' {
      TimesMonotone(s, q, q');
    } else if q' < q {
      TimesMonotone(s, q', q);
    }
  }

  lemma {:induction false} TimesMonotone(s: nat, a: int, b: int)
    requires a < b
    ensures s * a + s <= s * b
  {
    assert s * b == s * a + s + s * (b - a - 1);
    assert s * (b - a - 1) >= 0;
  }

  /** `(x + 1) % s` on bytes: the sum wraps at 256 before the remainder is taken. */
  function Next(x: uint8, s: uint8): uint8
    requires s > 0
  {
    if x < s then (if x + 1 == s then 0 else x + 1)
    else if x == 255 then 0
    else (x + 1) % s
  }

  /** `Next` is the source's expression, for every byte. */
  lemma {:induction false} NextIsIncrement(x: uint8, s: uint8)
    requires s > 0
    ensures Next(x, s) as int == (x as int + 1) % 256 % s as int
  {
    ModIsRemainder((x as int + 1) % 256, s as int);
  }

  /** The number of the packet with absolute index `j`: 0, then incremented once per packet. */
  function SeqOf(j: nat, s: uint8): (r: uint8)
    requires s > 0
    ensures r < s
  {
    if j == 0 then 0 else Next(SeqOf(j - 1, s), s)
  }

  lemma {:induction false} SeqOfIsResidue(j: nat, s: uint8)
    requires s > 0
    ensures SeqOf(j, s) as int == j % s as int
  {
    ModIsRemainder(j, s as int);
    if j < s as int {
      SeqAdd(0, j, s);
    } else {
      SeqOfIsResidue(j - s as int, s);
      ModIsRemainder(j - s as int, s as int);
      SeqPeriod(j - s as int, s);
    }
  }

  /** The numbering has period `s`. */
  lemma {:induction false} SeqPeriod(i: nat, s: uint8)
    requires s > 0
    ensures SeqOf(i + s as int, s) == SeqOf(i, s)
  {
    SeqAdd(i, s as int - 1, s);
    assert SeqOf(i + s as int, s) == Next(SeqOf(i + s as int - 1, s), s);
  }

  /** Moving `d < s` packets on adds `d` to the number, wrapping at most once. */
  lemma {:induction false} SeqAdd(i: nat, d: nat, s: uint8)
    requires d < s as int
    ensures SeqOf(i + d, s) as int ==
            (if SeqOf(i, s) as int + d < s as int then SeqOf(i, s) as int + d
             else SeqOf(i, s) as int + d - s as int)
  {
    if d > 0 {
      SeqAdd(i, d - 1, s);
      assert SeqOf(i + d, s) == Next(SeqOf(i + d - 1, s), s);
    }
  }

  /** Indices less than `s` apart are told apart by their numbers. */
  lemma {:induction false} SeqUnique(i: nat, j: nat, s: uint8)
    requires s > 0 && i - j < s as int && j - i < s as int
    ensures SeqOf(i, s) == SeqOf(j, s) <==> i == j
  {
    if i <= j {
      SeqAdd(i, j - i, s);
    } else {
      SeqAdd(j, i - j, s);
    }
  }

  /** `queue.size`. */
  function Size(base: uint8, top: uint8, s: uint8): uint8
    requires base < s && top < s
  {
    if top >= base then top - base else top + (s - base)
  }

  /** `containsSequence`. */
  predicate ContainsSequence(base: uint8, top: uint8, num: uint8) {
    if base == top then false
    else if base < top then base <= num && num < top
    else num < top || base <= num
  }

  /** The base after `processACK(num)`, and whether the ACK was for a packet in the window. */
  function AckBase(base: uint8, top: uint8, num: uint8, s: uint8): uint8
    requires base < s && top < s
  {
    if Size(base, top, s) == 0 then base
    else if num == base then Next(base, s)
    else if ContainsSequence(base, top, num) then Next(num, s)
    else base
  }

  predicate AckValid(base: uint8, top: uint8, num: uint8, s: uint8)
    requires base < s && top < s
  {
    Size(base, top, s) != 0 && (num == base || ContainsSequence(base, top, num))
  }

  /** The base after `processNACK(num)`, and its two flags: resend the queue, base was bumped. */
  function NackBase(base: uint8, top: uint8, num: uint8): uint8 {
    if num == top then top
    else if !ContainsSequence(base, top, num) then base
    else num
  }

  predicate NackResend(base: uint8, top: uint8, num: uint8) {
    num != top && ContainsSequence(base, top, num)
  }

  predicate NackBumped(base: uint8, top: uint8, num: uint8) {
    num == top || (ContainsSequence(base, top, num) && base != num)
  }

  lemma {:induction false} SizeIsDistance(b: nat, t: nat, s: uint8)
    requires s > 0 && b <= t < b + s as int
    ensures Size(SeqOf(b, s), SeqOf(t, s), s) as int == t - b
  {
    SeqAdd(b, t - b, s);
  }

  /** `containsSequence` holds exactly for the numbers of the packets in the window `[b, t)`. */
  lemma {:induction false} ContainsExactlyWindow(b: nat, t: nat, num: uint8, s: uint8)
    requires num < s && b <= t < b + s as int
    ensures ContainsSequence(SeqOf(b, s), SeqOf(t, s), num) <==>
            exists j :: b <= j < t && SeqOf(j, s) == num
  {
    var base := SeqOf(b, s);
    SeqAdd(b, t - b, s);
    if ContainsSequence(base, SeqOf(t, s), num) {
      var d := if num >= base then num as int - base as int else num as int + s as int - base as int;
      SeqAdd(b, d, s);
      assert SeqOf(b + d, s) == num;
    }
    forall j | b <= j < t && SeqOf(j, s) == num
      ensures ContainsSequence(base, SeqOf(t, s), num)
    {
      SeqAdd(b, j - b, s);
    }
  }

  /** An ACK for packet `v - 1`, with `v` anywhere in `[b, t]`, moves the base to exactly `v`; the
      stale one for `b - 1` is told apart because the window is shorter than `s`. */
  lemma {:induction false} AckDecodes(b: nat, v: nat, t: nat, s: uint8)
    requires s > 0 && 1 <= v && b <= v <= t < b + s as int
    ensures AckBase(SeqOf(b, s), SeqOf(t, s), SeqOf(v - 1, s), s) == SeqOf(v, s)
    ensures AckValid(SeqOf(b, s), SeqOf(t, s), SeqOf(v - 1, s), s) <==> v > b
  {
    SeqAdd(b, t - b, s);
    if v == b {
      assert SeqOf(b, s) == Next(SeqOf(b - 1, s), s);
    } else {
      SeqAdd(b, v - 1 - b, s);
    }
  }

  /** A NACK asking for `v`, with `v` anywhere in `[b, t]`, moves the base to exactly `v`. */
  lemma {:induction false} NackDecodes(b: nat, v: nat, t: nat, s: uint8)
    requires s > 0 && b <= v <= t < b + s as int
    ensures NackBase(SeqOf(b, s), SeqOf(t, s), SeqOf(v, s)) == SeqOf(v, s)
    ensures NackResend(SeqOf(b, s), SeqOf(t, s), SeqOf(v, s)) <==> v < t
    ensures NackBumped(SeqOf(b, s), SeqOf(t, s), SeqOf(v, s)) <==> v > b || v == t
  {
    SeqAdd(b, t - b, s);
    SeqAdd(b, v - b, s);
  }
}
