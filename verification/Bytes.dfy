/** Raw bytes, and lists of chunks as a stream delivers them. */
module Bytes {

  type byte = x: int | 0 <= x < 256

  /** The largest integer a JavaScript number represents exactly together with its neighbours. */
  const MAX_SAFE_INTEGER := 0x1F_FFFF_FFFF_FFFF

  /** The whole stream that a list of chunks carries. */
  function Concat<T>(chunks: seq<seq<T>>): seq<T> {
    if chunks == [] then [] else chunks[0] + Concat(chunks[1..])
  }

  lemma {:induction false} ConcatAppend<T>(a: seq<seq<T>>, b: seq<seq<T>>)
    ensures Concat(a + b) == Concat(a) + Concat(b)
  {
    if a == [] {
      assert a + b == b;
    } else {
      assert (a + b)[1..] == a[1..] + b;
      ConcatAppend(a[1..], b);
    }
  }

  /** Taking one chunk more extends the stream by that chunk. */
  lemma ConcatStep<T>(chunks: seq<seq<T>>, k: nat)
    requires k < |chunks|
    ensures Concat(chunks[..k + 1]) == Concat(chunks[..k]) + chunks[k]
  {
    assert chunks[..k + 1] == chunks[..k] + [chunks[k]];
    ConcatAppend(chunks[..k], [chunks[k]]);
    assert Concat([chunks[k]]) == chunks[k] + [];
  }

  lemma ConcatOne<T>(x: seq<T>)
    ensures Concat([x]) == x
  {
    assert [x][1..] == [];
    assert Concat([x]) == x + [];
  }

  lemma ConcatTwo<T>(x: seq<T>, y: seq<T>)
    ensures Concat([x, y]) == x + y
  {
    hide Concat;
    ConcatOne(x);
    ConcatOne(y);
    ConcatAppend([x], [y]);
    assert [x] + [y] == [x, y];
  }
}
