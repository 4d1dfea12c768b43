/**
 * The generator's use of Python's `random` module, as an explicit oracle.
 * A seeded generator is a stream of raw draws: `stream(k)` is the k-th
 * number it produces after seeding. Every `random.choice` and every
 * `random.randint` consumes exactly one draw, so the position in the stream
 * is threaded through the callers and two runs over the same stream from the
 * same position make the same choices.
 */
module Rand {
  import opened Wrappers

  /** The outputs of a generator seeded with one particular seed. */
  type Stream = nat -> nat

  /** A drawn word and the stream position after the draws that chose it. */
  datatype Drawn = Drawn(word: string, next: nat)

  /** `random.choice(xs)`: `None` stands for the `IndexError` raised on an
      empty sequence. */
  function Choice<T>(xs: seq<T>, stream: Stream, pos: nat): (r: Option<T>)
    ensures r.Some? <==> xs != []
    ensures r.Some? ==> r.value in xs
  {
    if xs == [] then None else Some(xs[stream(pos) % |xs|])
  }

  /** `random.randint(lo, hi)`, both bounds included: `None` stands for the
      `ValueError` raised on an empty range. */
  function RandInt(lo: int, hi: int, stream: Stream, pos: nat): (r: Option<int>)
    ensures r.Some? <==> lo <= hi
    ensures r.Some? ==> lo <= r.value <= hi
  {
    if hi < lo then None else Some(lo + stream(pos) % (hi - lo + 1))
  }

  /** Every value of the range is drawn by some stream: the oracle leaves
      nothing out that the real generator might produce. */
  lemma RandIntReaches(lo: int, hi: int, v: int, pos: nat)
    requires lo <= v <= hi
    ensures RandInt(lo, hi, (k: nat) => (v - lo) as nat, pos) == Some(v)
  {
    var n := hi - lo + 1;
    assert 0 <= v - lo < n;
    assert (v - lo) % n == v - lo;
  }
}
