/** Small shared vocabulary: optional values (JavaScript's `undefined`) and
    flattening of a list of batches. */
module Common {

  /** `None` stands for JavaScript's `undefined` (or `null` once written as JSON). */
  datatype Option<+T> = None | Some(value: T) {
    function GetOr(default: T): T
    {
      match this
      case Some(v) => v
      case None => default
    }
  }

  /** All batches concatenated, in order. */
  function Flatten<T>(batches: seq<seq<T>>): (r: seq<T>)
    ensures |batches| == 0 ==> r == []
  {
    if |batches| == 0 then [] else Flatten(batches[..|batches| - 1]) + batches[|batches| - 1]
  }

  lemma FlattenAppend<T>(batches: seq<seq<T>>, b: seq<T>)
    ensures Flatten(batches + [b]) == Flatten(batches) + b
  {
    assert (batches + [b])[..|batches|] == batches;
  }
}
