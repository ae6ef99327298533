/**
 * `save_interm_outputs`: run an inference session over the calibration batches,
 * gather the arrays of the requested outputs batch by batch, and concatenate
 * each name's chunks along the leading axis into the archive written by `np.savez`.
 *
 * An array is the sequence of its slices along axis 0, so `np.concatenate(chunks, axis=0)`
 * is `Flatten(chunks)`. The session is given by its declared output names and its
 * `run` function, which returns one array per declared output.
 */
module ActivationArchive {
  import opened Wrappers
  import opened NameOrder
  import Calibration

  datatype Session<!T, R> = Session(outputs: seq<string>, run: map<string, seq<T>> -> seq<seq<R>>)

  /** The session returns one array per declared output, whatever it is fed. */
  ghost predicate Consistent<T(!new), R>(sess: Session<T, R>)
  {
    forall feed :: |sess.run(feed)| == |sess.outputs|
  }

  datatype ArchiveError =
    | TensorNotFound(name: string)  // the RuntimeError raised for a requested name the session does not output
    | NothingToConcatenate          // numpy's ValueError for `np.concatenate([])`

  /** `output_name_to_idx`: each output name to its position; a repeated name keeps its last position. */
  function OutputIndex(names: seq<string>): (m: map<string, nat>)
    ensures forall n :: n in m <==> n in names
    ensures forall n :: n in m ==> m[n] < |names| && names[m[n]] == n
    ensures forall n, j :: n in m && m[n] < j < |names| ==> names[j] != n
  {
    if names == [] then map[]
    else
      var init := names[..|names| - 1];
      assert names == init + [names[|names| - 1]];
      OutputIndex(init)[names[|names| - 1] := |names| - 1]
  }

  /** How many batches the loop processes before `bidx >= max_batches` breaks it or the loader ends. */
  function BatchLimit(numBatches: nat, maxBatches: Option<int>): (k: nat)
    ensures k <= numBatches
    ensures maxBatches.Some? && k > 0 ==> k <= maxBatches.value
    ensures k < numBatches ==> maxBatches.Some? && k >= maxBatches.value
  {
    match maxBatches
    case None => numBatches
    case Some(m) => if m <= 0 then 0 else if m < numBatches then m else numBatches
  }

  /** `n` sits at position `i` of `names` and every name before it is known. */
  ghost predicate IsFirstAt(names: seq<string>, known: set<string>, i: int, n: string)
  {
    0 <= i < |names| && names[i] == n && forall k :: 0 <= k < i ==> names[k] in known
  }

  /** The first requested name, in request order, that is not among `known`. */
  function FirstMissing(names: seq<string>, known: set<string>): (r: Option<string>)
    ensures r.None? <==> forall n :: n in names ==> n in known
    ensures r.Some? ==> r.value !in known && exists i :: IsFirstAt(names, known, i, r.value)
  {
    if names == [] then None
    else if names[0] !in known then
      assert IsFirstAt(names, known, 0, names[0]);
      Some(names[0])
    else
      var r := FirstMissing(names[1..], known);
      assert names == [names[0]] + names[1..];
      assert r.Some? ==> exists i :: IsFirstAt(names, known, i, r.value) by {
        if r.Some? {
          var i :| IsFirstAt(names[1..], known, i, r.value);
          assert forall k :: 0 <= k < i + 1 ==> names[k] in known by {
            forall k | 0 <= k < i + 1 ensures names[k] in known {
              if k > 0 {
                assert names[k] == names[1..][k - 1];
              }
            }
          }
          assert IsFirstAt(names, known, i + 1, r.value);
        }
      }
      r
  }

  /** Occurrences of `n` in `names`. */
  function Count(names: seq<string>, n: string): (c: nat)
    ensures c > 0 <==> n in names
    ensures c <= |names|
  {
    if names == [] then 0
    else
      var init := names[..|names| - 1];
      assert names == init + [names[|names| - 1]];
      Count(init, n) + (if names[|names| - 1] == n then 1 else 0)
  }

  lemma {:induction false} CountNoDup(names: seq<string>, n: string)
    requires NoDup(names) && n in names
    ensures Count(names, n) == 1
  {
    var init, last := names[..|names| - 1], names[|names| - 1];
    assert names == init + [last];
    if last == n {
      assert n !in init by {
        forall i | 0 <= i < |init| ensures init[i] != n {
          assert init[i] == names[i];
        }
      }
    } else {
      assert NoDup(init) by {
        forall i, j | 0 <= i < j < |init| ensures init[i] != init[j] {
          assert init[i] == names[i] && init[j] == names[j];
        }
      }
      CountNoDup(init, n);
    }
  }

  /** Names listed by `collect_linear_tensors` (strictly sorted) each get one chunk per batch. */
  lemma SortedNamesOnce(names: seq<string>, n: string)
    requires StrictlySorted(names) && n in names
    ensures Count(names, n) == 1
  {
    StrictlySortedNoDup(names);
    CountNoDup(names, n);
  }

  function Repeat<X>(x: X, c: nat): seq<X>
  {
    seq(c, _ => x)
  }

  /** `np.concatenate(chunks, axis=0)` on a non-empty list of chunks. */
  function Flatten<X>(chunks: seq<seq<X>>): seq<X>
  {
    if chunks == [] then [] else Flatten(chunks[..|chunks| - 1]) + chunks[|chunks| - 1]
  }

  /** Concatenating two runs of chunks is concatenating their concatenations. */
  lemma {:induction false} FlattenAppend<X>(a: seq<seq<X>>, b: seq<seq<X>>)
    ensures Flatten(a + b) == Flatten(a) + Flatten(b)
    decreases |b|
  {
    if b == [] {
      assert a + b == a;
    } else {
      var b' := b[..|b| - 1];
      assert (a + b)[..|a + b| - 1] == a + b';
      FlattenAppend(a, b');
    }
  }

  /** The concatenation has as many rows as all chunks together. */
  lemma {:induction false} FlattenLength<X>(chunks: seq<seq<X>>)
    ensures |Flatten(chunks)| == Calibration.SampleCount(chunks)
  {
    if chunks != [] {
      var init, last := chunks[..|chunks| - 1], chunks[|chunks| - 1];
      FlattenLength(init);
      assert chunks == init + [last];
      Calibration.SampleCountAppend(init, [last]);
      assert Calibration.SampleCount([last]) == |last| by {
        assert [last][1..] == [];
      }
    }
  }

  /** Row `j` of chunk `i` is the row of the concatenation offset by the rows of the chunks before it. */
  lemma {:induction false} FlattenAt<X>(chunks: seq<seq<X>>, i: nat, j: nat)
    requires i < |chunks| && j < |chunks[i]|
    ensures Calibration.SampleCount(chunks[..i]) + j < |Flatten(chunks)|
    ensures Flatten(chunks)[Calibration.SampleCount(chunks[..i]) + j] == chunks[i][j]
  {
    var before, rest := chunks[..i], chunks[i + 1..];
    assert chunks == before + [chunks[i]] + rest;
    FlattenAppend(before + [chunks[i]], rest);
    FlattenAppend(before, [chunks[i]]);
    assert Flatten([chunks[i]]) == chunks[i] by {
      assert [chunks[i]][..0] == [];
    }
    FlattenLength(before);
  }

  /** The array session output `idx` gives for one batch fed under `inputName`. */
  function Chunk<T(!new), R>(sess: Session<T, R>, inputName: string, batch: seq<T>, idx: nat): seq<R>
    requires Consistent(sess) && idx < |sess.outputs|
  {
    sess.run(map[inputName := batch])[idx]
  }

  /** The chunks gathered for an output after the first `k` batches, `copies` per batch. */
  function Buffer<T(!new), R>(sess: Session<T, R>, inputName: string, batches: seq<seq<T>>, idx: nat, copies: nat, k: nat)
    : seq<seq<R>>
    requires Consistent(sess) && idx < |sess.outputs| && k <= |batches|
  {
    if k == 0 then []
    else Buffer(sess, inputName, batches, idx, copies, k - 1) + Repeat(Chunk(sess, inputName, batches[k - 1], idx), copies)
  }

  /** The dictionary comprehension that concatenates each buffer, failing on an empty one as numpy does. */
  function Concatenate<R>(buffers: map<string, seq<seq<R>>>): Result<map<string, seq<R>>, ArchiveError>
  {
    if exists n :: n in buffers && buffers[n] == [] then Failure(NothingToConcatenate)
    else Success(map n | n in buffers :: Flatten(buffers[n]))
  }

  /**
   * One pass of the inner loop: for each requested name, in order, look up its output index
   * (raising on a missing one) and append that output's array to its buffer.
   */
  method AppendChunks<R>(buffers: map<string, seq<seq<R>>>, outputs: seq<seq<R>>, tensorNames: seq<string>,
                         index: map<string, nat>)
    returns (r: Result<map<string, seq<seq<R>>>, ArchiveError>)
    requires forall n :: n in index ==> index[n] < |outputs|
    requires forall n :: n in tensorNames ==> n in buffers
    ensures r.Failure? <==> FirstMissing(tensorNames, index.Keys).Some?
    ensures r.Failure? ==> r.error == TensorNotFound(FirstMissing(tensorNames, index.Keys).value)
    ensures r.Success? ==> Appended(buffers, r.value, outputs, index, tensorNames)
  {
    var acc := buffers;
    assert tensorNames[..0] == [];
    for j := 0 to |tensorNames|
      invariant forall i :: 0 <= i < j ==> tensorNames[i] in index
      invariant Appended(buffers, acc, outputs, index, tensorNames[..j])
    {
      var name := tensorNames[j];
      assert tensorNames[..j + 1] == tensorNames[..j] + [name];
      if name !in index {
        FirstMissingAt(tensorNames, index.Keys, j);
        return Failure(TensorNotFound(name));
      }
      AppendStep(buffers, acc, outputs, index, tensorNames[..j], name);
      acc := acc[name := acc[name] + [outputs[index[name]]]];
    }
    assert tensorNames[..|tensorNames|] == tensorNames;
    return Success(acc);
  }

  /**
   * `acc` is `buffers` after the arrays for the requests `names` were appended: the same keys,
   * each name the session outputs gains its array once per request, every other buffer is unchanged.
   */
  ghost predicate Appended<R>(buffers: map<string, seq<seq<R>>>, acc: map<string, seq<seq<R>>>, outputs: seq<seq<R>>,
                              index: map<string, nat>, names: seq<string>)
    requires forall n :: n in index ==> index[n] < |outputs|
  {
    && acc.Keys == buffers.Keys
    && (forall n :: n in buffers && n in index ==> acc[n] == buffers[n] + Repeat(outputs[index[n]], Count(names, n)))
    && (forall n :: n in buffers && n !in index ==> acc[n] == buffers[n])
  }

  /** Appending the array for one more request advances the invariant by that request. */
  lemma AppendStep<R>(buffers: map<string, seq<seq<R>>>, acc: map<string, seq<seq<R>>>, outputs: seq<seq<R>>,
                      index: map<string, nat>, names: seq<string>, name: string)
    requires forall n :: n in index ==> index[n] < |outputs|
    requires Appended(buffers, acc, outputs, index, names)
    requires name in index && name in buffers
    ensures Appended(buffers, acc[name := acc[name] + [outputs[index[name]]]], outputs, index, names + [name])
  {
    assert (names + [name])[..|names|] == names;
    var x := outputs[index[name]];
    assert Repeat(x, Count(names, name) + 1) == Repeat(x, Count(names, name)) + [x];
  }

  /** A name missing at position `j`, with every earlier name present, is the first missing one. */
  lemma {:induction false} FirstMissingAt(names: seq<string>, known: set<string>, j: nat)
    requires j < |names| && names[j] !in known
    requires forall i :: 0 <= i < j ==> names[i] in known
    ensures FirstMissing(names, known) == Some(names[j])
  {
    if j > 0 {
      FirstMissingAt(names[1..], known, j - 1);
    }
  }

  method SaveIntermOutputs<T(!new), R>(sess: Session<T, R>, batches: seq<seq<T>>, inputName: string,
                                 tensorNames: seq<string>, maxBatches: Option<int>)
    returns (r: Result<map<string, seq<R>>, ArchiveError>)
    requires Consistent(sess)
    ensures var k := BatchLimit(|batches|, maxBatches);
      && (k > 0 && FirstMissing(tensorNames, set n | n in sess.outputs).Some? ==>
            r == Failure(TensorNotFound(FirstMissing(tensorNames, set n | n in sess.outputs).value)))
      && (k == 0 && tensorNames != [] ==> r == Failure(NothingToConcatenate))
      && (r.Success? <==> tensorNames == [] || (k > 0 && forall n :: n in tensorNames ==> n in sess.outputs))
    ensures r.Success? ==> forall n :: n in r.value <==> n in tensorNames
    ensures r.Success? ==> forall n :: n in r.value ==>
      && n in OutputIndex(sess.outputs)
      && r.value[n] == Flatten(Buffer(sess, inputName, batches, OutputIndex(sess.outputs)[n], Count(tensorNames, n),
                                      BatchLimit(|batches|, maxBatches)))
  {
    var outputNameToIdx := OutputIndex(sess.outputs);
    assert outputNameToIdx.Keys == set n | n in sess.outputs;
    ghost var k := BatchLimit(|batches|, maxBatches);
    var gathered := GatherBuffers(sess, batches, inputName, tensorNames, maxBatches, outputNameToIdx);
    if gathered.Failure? {
      return Failure(gathered.error);
    }
    var buffers := gathered.value;
    r := Concatenate(buffers);
    if k > 0 && FirstMissing(tensorNames, outputNameToIdx.Keys).None? {
      forall n | n in buffers
        ensures buffers[n] != []
      {
        BufferNonEmpty(sess, inputName, batches, outputNameToIdx[n], Count(tensorNames, n), k);
      }
    }
    if tensorNames != [] && k == 0 {
      assert tensorNames[0] in buffers;
    }
  }

  /**
   * The batch loop: feed each batch (until `max_batches` breaks the loop) and append
   * every requested output's array to that name's buffer, raising on a missing name.
   */
  method GatherBuffers<T(!new), R>(sess: Session<T, R>, batches: seq<seq<T>>, inputName: string,
                                   tensorNames: seq<string>, maxBatches: Option<int>, outputNameToIdx: map<string, nat>)
    returns (r: Result<map<string, seq<seq<R>>>, ArchiveError>)
    requires Consistent(sess)
    requires forall n :: n in outputNameToIdx ==> outputNameToIdx[n] < |sess.outputs|
    ensures var k := BatchLimit(|batches|, maxBatches);
      && (r.Failure? <==> k > 0 && FirstMissing(tensorNames, outputNameToIdx.Keys).Some?)
      && (r.Failure? ==> r.error == TensorNotFound(FirstMissing(tensorNames, outputNameToIdx.Keys).value))
      && (r.Success? ==> r.value.Keys == set n | n in tensorNames)
      && (r.Success? ==> Gathered(sess, inputName, batches, tensorNames, outputNameToIdx, r.value, k))
  {
    var buffers: map<string, seq<seq<R>>> := map n | n in tensorNames :: [];
    ghost var k := BatchLimit(|batches|, maxBatches);
    var bidx := 0;
    while bidx < |batches|
      invariant bidx <= k <= |batches|
      invariant buffers.Keys == set n | n in tensorNames
      invariant bidx > 0 ==> FirstMissing(tensorNames, outputNameToIdx.Keys).None?
      invariant Gathered(sess, inputName, batches, tensorNames, outputNameToIdx, buffers, bidx)
    {
      if maxBatches.Some? && bidx >= maxBatches.value {
        break;
      }
      var outputs := sess.run(map[inputName := batches[bidx]]);
      assert |outputs| == |sess.outputs|;
      var step := AppendChunks(buffers, outputs, tensorNames, outputNameToIdx);
      if step.Failure? {
        return Failure(step.error);
      }
      GatherStep(sess, inputName, batches, tensorNames, outputNameToIdx, buffers, bidx, step.value);
      buffers := step.value;
      bidx := bidx + 1;
    }
    return Success(buffers);
  }

  /** Loop invariant: after `b` batches each found name's buffer holds its chunks, the others none. */
  ghost predicate Gathered<T(!new), R>(sess: Session<T, R>, inputName: string, batches: seq<seq<T>>,
                                       tensorNames: seq<string>, index: map<string, nat>,
                                       buffers: map<string, seq<seq<R>>>, b: nat)
    requires Consistent(sess) && b <= |batches|
    requires forall n :: n in index ==> index[n] < |sess.outputs|
  {
    && (forall n :: n in buffers && n in index ==>
          buffers[n] == Buffer(sess, inputName, batches, index[n], Count(tensorNames, n), b))
    && (forall n :: n in buffers && n !in index ==> buffers[n] == [])
  }

  /** Appending one batch's chunks, as `AppendChunks` promises, advances the invariant by one batch. */
  lemma GatherStep<T(!new), R>(sess: Session<T, R>, inputName: string, batches: seq<seq<T>>,
                               tensorNames: seq<string>, index: map<string, nat>,
                               buffers: map<string, seq<seq<R>>>, b: nat, next: map<string, seq<seq<R>>>)
    requires Consistent(sess) && b < |batches|
    requires forall n :: n in index ==> index[n] < |sess.outputs|
    requires Gathered(sess, inputName, batches, tensorNames, index, buffers, b)
    requires Appended(buffers, next, sess.run(map[inputName := batches[b]]), index, tensorNames)
    ensures Gathered(sess, inputName, batches, tensorNames, index, next, b + 1)
  {
  }

  lemma {:induction false} BufferNonEmpty<T(!new), R>(sess: Session<T, R>, inputName: string, batches: seq<seq<T>>,
                                                idx: nat, copies: nat, k: nat)
    requires Consistent(sess) && idx < |sess.outputs| && k <= |batches|
    requires copies > 0 && k > 0
    ensures Buffer(sess, inputName, batches, idx, copies, k) != []
  {
    var last := Repeat(Chunk(sess, inputName, batches[k - 1], idx), copies);
    assert |last| == copies;
  }

  /** For a name requested once, the buffer holds exactly one chunk per processed batch, in batch order. */
  lemma {:induction false} OneChunkPerBatch<T(!new), R>(sess: Session<T, R>, inputName: string, batches: seq<seq<T>>,
                                                  idx: nat, k: nat)
    requires Consistent(sess) && idx < |sess.outputs| && k <= |batches|
    ensures |Buffer(sess, inputName, batches, idx, 1, k)| == k
    ensures forall b :: 0 <= b < k ==> Buffer(sess, inputName, batches, idx, 1, k)[b] == Chunk(sess, inputName, batches[b], idx)
  {
    if k > 0 {
      OneChunkPerBatch(sess, inputName, batches, idx, k - 1);
      assert Repeat(Chunk(sess, inputName, batches[k - 1], idx), 1) == [Chunk(sess, inputName, batches[k - 1], idx)];
    }
  }

  /** When every chunk keeps its batch's leading dimension, the archived array has one row per processed sample. */
  lemma {:induction false} ArchiveRows<T(!new), R>(sess: Session<T, R>, inputName: string, batches: seq<seq<T>>,
                                             idx: nat, k: nat)
    requires Consistent(sess) && idx < |sess.outputs| && k <= |batches|
    requires forall b :: 0 <= b < |batches| ==> |Chunk(sess, inputName, batches[b], idx)| == |batches[b]|
    ensures |Flatten(Buffer(sess, inputName, batches, idx, 1, k))| == Calibration.SampleCount(batches[..k])
  {
    if k > 0 {
      ArchiveRows(sess, inputName, batches, idx, k - 1);
      var chunks := Buffer(sess, inputName, batches, idx, 1, k);
      var chunk := Chunk(sess, inputName, batches[k - 1], idx);
      assert Repeat(chunk, 1) == [chunk];
      assert chunks[..|chunks| - 1] == Buffer(sess, inputName, batches, idx, 1, k - 1);
      assert batches[..k] == batches[..k - 1] + [batches[k - 1]];
      Calibration.SampleCountAppend(batches[..k - 1], [batches[k - 1]]);
      assert Calibration.SampleCount([batches[k - 1]]) == |batches[k - 1]| by {
        assert [batches[k - 1]][1..] == [];
      }
    } else {
      assert batches[..0] == [];
    }
  }
}
