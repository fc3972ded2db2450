/** Types shared by the whole model. */
module Common {

  /** A byte, and the width of every Go-Back-N sequence number. */
  newtype uint8 = x: int | 0 <= x < 256

  datatype Option<+T> = None | Some(value: T)

  /** `w` without its element `i`: a message lost in transit. */
  function Without<T>(w: seq<T>, i: nat): (r: seq<T>)
    requires i < |w|
    ensures |r| == |w| - 1
    ensures forall k :: 0 <= k < |r| ==> r[k] == (if k < i then w[k] else w[k + 1])
  {
    w[..i] + w[i + 1..]
  }

  /** `w` with its element `i` delivered twice in a row. */
  function Twice<T>(w: seq<T>, i: nat): (r: seq<T>)
    requires i < |w|
    ensures |r| == |w| + 1
    ensures forall k :: 0 <= k < |r| ==> r[k] == (if k <= i then w[k] else w[k - 1])
  {
    w[..i + 1] + w[i..]
  }

  lemma {:induction false} Assoc<T>(a: seq<T>, b: seq<T>, c: seq<T>)
    ensures a + b + c == a + (b + c)
  {
  }

  lemma {:induction false} TakeDrop<T>(a: seq<T>, b: seq<T>)
    ensures (a + b)[..|a|] == a && (a + b)[|a|..] == b
  {
  }

  /** The parts one after another. */
  function Flat<T>(parts: seq<seq<T>>): seq<T> {
    if parts == [] then [] else parts[0] + Flat(parts[1..])
  }

  lemma {:induction false} FlatOne<T>(p: seq<T>)
    ensures Flat([p]) == p
  {
    assert [p][1..] == [];
    assert p + [] == p;
  }

  lemma {:induction false} FlatAppend<T>(a: seq<seq<T>>, b: seq<seq<T>>)
    ensures Flat(a + b) == Flat(a) + Flat(b)
  {
    if a == [] {
      assert a + b == b;
    } else {
      FlatAppend(a[1..], b);
      assert (a + b)[1..] == a[1..] + b;
      Assoc(a[0], Flat(a[1..]), Flat(b));
    }
  }

  lemma {:induction false} FlatPrefix<T>(parts: seq<seq<T>>, k: nat)
    requires k <= |parts|
    ensures Flat(parts[..k]) <= Flat(parts)
  {
    assert parts == parts[..k] + parts[k..];
    FlatAppend(parts[..k], parts[k..]);
  }

  lemma {:induction false} FlatTake<T>(parts: seq<seq<T>>, k: nat)
    requires k < |parts|
    ensures Flat(parts[..k + 1]) == Flat(parts[..k]) + parts[k]
  {
    assert parts[..k + 1] == parts[..k] + [parts[k]];
    FlatAppend(parts[..k], [parts[k]]);
    FlatOne(parts[k]);
  }

  /** `data` cut into parts of `max` elements: all are full but the last, which is not empty unless it is the
      only one. */
  predicate CutEvenly<T(==)>(parts: seq<seq<T>>, data: seq<T>, max: nat) {
    && Flat(parts) == data && (|parts| > 1 ==> parts[|parts| - 1] != [])
    && (forall k :: 0 <= k < |parts| ==> |parts[k]| <= max && (k < |parts| - 1 ==> |parts[k]| == max))
  }

  lemma {:induction false} FlatFirst<T>(parts: seq<seq<T>>)
    requires parts != []
    ensures Flat(parts) == parts[0] + Flat(parts[1..])
    ensures |parts| == 1 ==> Flat(parts) == parts[0]
    ensures |Flat(parts)| >= |parts[|parts| - 1]|
  {
    if |parts| > 1 {
      FlatFirst(parts[1..]);
    }
  }

  /** The first part of a longer cut, and the rest of it. */
  lemma {:induction false} CutStep<T>(first: seq<T>, rest: seq<seq<T>>, data: seq<T>, max: nat)
    requires max > 0 && rest != []
    ensures CutEvenly([first] + rest, data, max) <==>
            |data| > max && first == data[..max] && rest[|rest| - 1] != [] && CutEvenly(rest, data[max..], max)
  {
    var parts := [first] + rest;
    assert parts[1..] == rest && parts[|parts| - 1] == rest[|rest| - 1];
    FlatFirst(rest);
    if CutEvenly(parts, data, max) {
      assert parts[0] == first && |parts[0]| == max;
      assert data == first + Flat(rest);
      forall k | 0 <= k < |rest|
        ensures |rest[k]| <= max && (k < |rest| - 1 ==> |rest[k]| == max)
      {
        assert rest[k] == parts[k + 1];
      }
    }
    if |data| > max && first == data[..max] && rest[|rest| - 1] != [] && CutEvenly(rest, data[max..], max) {
      assert data == data[..max] + data[max..];
    }
  }

  lemma {:induction false} CutWhole<T>(part: seq<T>, data: seq<T>, max: nat)
    ensures CutEvenly([part], data, max) <==> part == data && |data| <= max
  {
    FlatOne(part);
  }

  /** There is only one way to do it. */
  lemma {:induction false} CutUnique<T>(p: seq<seq<T>>, q: seq<seq<T>>, data: seq<T>, max: nat)
    requires max > 0 && p != [] && q != [] && CutEvenly(p, data, max) && CutEvenly(q, data, max)
    ensures p == q
    decreases |p|
  {
    assert p == [p[0]] + p[1..] && q == [q[0]] + q[1..];
    if |p| > 1 {
      CutStep(p[0], p[1..], data, max);
    } else {
      assert p == [p[0]];
      CutWhole(p[0], data, max);
    }
    if |q| > 1 {
      CutStep(q[0], q[1..], data, max);
    } else {
      assert q == [q[0]];
      CutWhole(q[0], data, max);
    }
    if |p| > 1 && |q| > 1 {
      CutUnique(p[1..], q[1..], data[max..], max);
    }
  }

  /** `bytes.Buffer.Read` into a slice of `k` elements: what is returned, what stays buffered, and whether
      the end of the file is reported. */
  datatype Fetched<T> = Fetched(out: seq<T>, left: seq<T>, eof: bool)

  function FromBuffer<T>(buf: seq<T>, k: nat): (f: Fetched<T>)
    ensures f.out <= buf && |f.out| == (if |buf| < k then |buf| else k)
    ensures f.eof <==> |buf| == 0 && k > 0
  {
    if |buf| <= k then Fetched(buf, [], |buf| == 0 && k > 0) else Fetched(buf[..k], buf[k..], false)
  }

  lemma {:induction false} FetchedParts<T>(buf: seq<T>, k: nat)
    ensures FromBuffer(buf, k).out + FromBuffer(buf, k).left == buf
  {
  }

  /** A prefix of `a + b` is a prefix of `a`, or all of `a` followed by a prefix of `b`. */
  lemma {:induction false} PrefixOfConcat<T>(p: seq<T>, a: seq<T>, b: seq<T>)
    requires p <= a + b
    ensures |p| <= |a| ==> p <= a
    ensures |p| >= |a| ==> a <= p && p[|a|..] <= b
  {
    if |p| <= |a| {
      assert p == (a + b)[..|p|] == a[..|p|];
    } else {
      assert p == (a + b)[..|p|] == a + b[..|p| - |a|];
    }
  }
}
