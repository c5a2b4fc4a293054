/** Optional values and results with an error, shared by every module of the model. */
module Base {

  datatype Option<+T> = None | Some(value: T)

  /** The outcome of an operation that the Python code lets raise an exception. */
  datatype Result<+T, +E> = Ok(value: T) | Err(error: E)

  // Sequence facts, proved once for every element type so that proofs about
  // lists of strings need not redo them in their own, larger contexts.

  lemma AppendAssoc<T>(a: seq<T>, b: seq<T>, c: seq<T>)
    ensures (a + b) + c == a + (b + c)
  {
  }

  lemma AppendEmpty<T>(a: seq<T>)
    ensures a + [] == a && [] + a == a
  {
  }

  lemma ConsParts<T>(x: T, a: seq<T>)
    ensures ([x] + a)[0] == x && ([x] + a)[1..] == a
  {
  }

  lemma TailFrom<T>(a: seq<T>, i: nat)
    requires i < |a|
    ensures a[i..][0] == a[i] && a[i..][1..] == a[i + 1..]
  {
  }
}
