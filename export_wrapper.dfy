/**
 * `_ExportLogitsOnly.forward`: the wrapper that gives the exported graph a single
 * output by keeping the first element when the model returns a list or tuple
 * (classification head first, auxiliary heads after it).
 */
module ExportWrapper {
  import opened Wrappers

  /** What the wrapped model returns: one tensor, or a list/tuple of them. */
  datatype ModelOutput<T> = Single(value: T) | Several(items: seq<T>)

  /** `out[0]` on an empty list or tuple raises `IndexError`. */
  datatype ForwardError = IndexError

  function LogitsOnly<T>(out: ModelOutput<T>): Result<T, ForwardError>
  {
    match out
    case Single(t) => Success(t)
    case Several(items) => if items == [] then Failure(IndexError) else Success(items[0])
  }

  /** Whatever auxiliary heads follow the logits, the exported output is the logits. */
  lemma DropsAuxiliaryHeads<T>(logits: T, aux: seq<T>)
    ensures LogitsOnly(Several([logits] + aux)) == LogitsOnly(Single(logits)) == Success(logits)
  {
  }
}
