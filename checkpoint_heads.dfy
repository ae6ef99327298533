/**
 * The classifier-head pruning in `main`: before the pretrained weights are loaded,
 * each of the four head parameters is dropped from the checkpoint when its shape
 * differs from the freshly built model's, so that it is re-initialised instead.
 */
module CheckpointHeads {
  import opened Wrappers

  /** A parameter tensor: its shape and its flattened values. */
  datatype Tensor<E> = Tensor(shape: seq<nat>, values: seq<E>)

  /** The keys the loop visits, in order. */
  const HeadKeys: seq<string> := ["head.weight", "head.bias", "head_dist.weight", "head_dist.bias"]

  /** `state_dict[k]` for a head key the model does not have raises `KeyError`. */
  datatype PruneError = KeyError(key: string)

  /** Head key `HeadKeys[i]` is in the checkpoint but not in the model, and no earlier head key is. */
  ghost predicate FirstUnknownAt<E>(checkpoint: map<string, Tensor<E>>, stateDict: map<string, Tensor<E>>, i: int)
  {
    && 0 <= i < |HeadKeys|
    && HeadKeys[i] in checkpoint && HeadKeys[i] !in stateDict
    && forall j :: 0 <= j < i && HeadKeys[j] in checkpoint ==> HeadKeys[j] in stateDict
  }

  method PruneHeadKeys<E>(checkpoint: map<string, Tensor<E>>, stateDict: map<string, Tensor<E>>)
    returns (r: Result<map<string, Tensor<E>>, PruneError>)
    ensures r.Failure? <==> exists k :: k in HeadKeys && k in checkpoint && k !in stateDict
    ensures r.Failure? ==> exists i :: FirstUnknownAt(checkpoint, stateDict, i) && r.error == KeyError(HeadKeys[i])
    ensures r.Success? ==> forall k :: k in r.value ==> k in checkpoint && r.value[k] == checkpoint[k]
    ensures r.Success? ==> forall k :: k in checkpoint && k !in HeadKeys ==> k in r.value
    ensures r.Success? ==> forall k :: k in HeadKeys && k in checkpoint ==>
      (k in r.value <==> checkpoint[k].shape == stateDict[k].shape)
  {
    var pruned := checkpoint;
    for i := 0 to |HeadKeys|
      invariant forall k :: k in pruned ==> k in checkpoint && pruned[k] == checkpoint[k]
      invariant forall k :: k in checkpoint && k !in HeadKeys[..i] ==> k in pruned
      invariant forall j :: 0 <= j < i && HeadKeys[j] in checkpoint ==>
        HeadKeys[j] in stateDict && (HeadKeys[j] in pruned <==> checkpoint[HeadKeys[j]].shape == stateDict[HeadKeys[j]].shape)
    {
      var k := HeadKeys[i];
      assert HeadKeys[..i + 1] == HeadKeys[..i] + [k];
      assert forall j :: 0 <= j < i ==> HeadKeys[j] != k;
      if k in pruned {
        if k !in stateDict {
          assert FirstUnknownAt(checkpoint, stateDict, i);
          return Failure(KeyError(k));
        }
        if pruned[k].shape != stateDict[k].shape {
          pruned := pruned - {k};
        }
      }
    }
    assert HeadKeys[..|HeadKeys|] == HeadKeys;
    r := Success(pruned);
  }
}
