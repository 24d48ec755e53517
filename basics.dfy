/** Small value types shared by every module of the model. */
module Basics {

  /** One octet of a response body or of the output file. */
  newtype byte = x: int | 0 <= x < 256

  datatype Option<+T> = None | Some(value: T)

  datatype Result<+T, +E> = Success(value: T) | Failure(error: E)

  /** The Python exceptions that the modelled code raises and does not catch itself. */
  datatype PyError =
    | ValueError   // `int()` of a string that is not a number, or `list.remove` of a missing item
    | IndexError   // a list index outside the list
    | KeyError     // a dict lookup of a missing key
    | TypeError    // `int()` of a value that is neither a number nor a string

  /** No element occurs twice. */
  predicate NoDup<T(==)>(s: seq<T>)
  {
    forall i, j :: 0 <= i < j < |s| ==> s[i] != s[j]
  }

  /** Python's `xs[k]`: a negative `k` counts from the end; anything else out of range raises. */
  function PyIndex<T>(xs: seq<T>, k: int): (r: Option<T>)
    ensures r.Some? <==> -|xs| <= k < |xs|
    ensures 0 <= k < |xs| ==> r == Some(xs[k])
    ensures -|xs| <= k < 0 ==> r == Some(xs[|xs| + k])
  {
    if 0 <= k < |xs| then Some(xs[k])
    else if -|xs| <= k < 0 then Some(xs[|xs| + k])
    else None
  }

  /** The concatenation of a sequence of byte strings, first to last. */
  function Concat(chunks: seq<seq<byte>>): seq<byte>
  {
    if chunks == [] then [] else Concat(chunks[..|chunks| - 1]) + chunks[|chunks| - 1]
  }

  /** Concatenation distributes over appending chunk lists. */
  lemma {:induction false} ConcatAppend(a: seq<seq<byte>>, b: seq<seq<byte>>)
    ensures Concat(a + b) == Concat(a) + Concat(b)
    decreases |b|
  {
    if b == [] {
      assert a + b == a;
    } else {
      var b' := b[..|b| - 1];
      assert (a + b)[..|a + b| - 1] == a + b';
      ConcatAppend(a, b');
    }
  }

  /** The length of a concatenation is the sum of the chunk lengths. */
  function TotalLength(chunks: seq<seq<byte>>): nat
  {
    if chunks == [] then 0 else TotalLength(chunks[..|chunks| - 1]) + |chunks[|chunks| - 1]|
  }

  lemma {:induction false} ConcatLength(chunks: seq<seq<byte>>)
    ensures |Concat(chunks)| == TotalLength(chunks)
  {
    if chunks != [] {
      ConcatLength(chunks[..|chunks| - 1]);
    }
  }

  /** Chunk `k` sits in the concatenation right after the chunks before it. */
  lemma {:induction false} ConcatChunkAt(chunks: seq<seq<byte>>, k: nat)
    requires k < |chunks|
    ensures TotalLength(chunks[..k]) + |chunks[k]| <= |Concat(chunks)|
    ensures Concat(chunks)[TotalLength(chunks[..k])..TotalLength(chunks[..k]) + |chunks[k]|] == chunks[k]
  {
    assert chunks == chunks[..k] + [chunks[k]] + chunks[k + 1..];
    ConcatAppend(chunks[..k] + [chunks[k]], chunks[k + 1..]);
    ConcatAppend(chunks[..k], [chunks[k]]);
    assert [chunks[k]][..0] == [];
    assert Concat([chunks[k]]) == Concat([]) + chunks[k];
    ConcatLength(chunks[..k]);
  }
}
