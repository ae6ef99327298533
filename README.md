# ViTALiTy post-training quantization helpers, modelled in Dafny

ViTALiTy's `quantize_model.py` has two jobs. It exports a vision transformer to ONNX and quantizes it statically with ONNX Runtime. It also dumps the activations that feed and leave the linear layers, so they can be compared between the float and the quantized model. This project models the parts of that file that decide *what* is exported, calibrated, collected and archived:

- **`DataReader`** (module `Calibration`, class `DataReader`): the calibration reader. It hands the quantizer one batch per `get_next` call, keyed by the model's input name. It stops with `None` once `max_samples` samples have been counted or the loader is exhausted. `rewind` restarts it.
- **`_ExportLogitsOnly.forward`** (module `ExportWrapper`): keeps the first element when the model returns a list or tuple. That element is the classification head.
- **`collect_linear_tensors`** (module `LinearTensors`): the sorted, duplicate-free list of the first input and first output of every `MatMul`/`Gemm` node (float model) or every `QLinearMatMul` node (quantized model).
- **`add_interm_outputs`** (module `IntermOutputs`): appends an output declaration for every requested tensor that is not already a graph output. The declaration reuses recorded metadata when there is some, otherwise it is a shapeless FLOAT declaration.
- **`save_interm_outputs`** (module `ActivationArchive`): the batch loop. It feeds each batch to the session, appends the requested outputs to per-name buffers, stops at `max_batches`, and concatenates every buffer along axis 0.
- **The head-key pruning in `main`** (module `CheckpointHeads`): drops a classifier-head parameter from the checkpoint when its shape differs from the model's.

Shared pieces:

- `Wrappers` holds `Option` and `Result`. The exceptions this model covers are `Failure` values:
  - `IndexError` on `node.input[0]` / `node.output[0]` and on `out[0]`;
  - `KeyError` on `state_dict[k]`;
  - the `RuntimeError` for a tensor the session does not output;
  - numpy's `ValueError` for concatenating an empty list.
- `NameOrder` is Python's string order, plus `sorted` on a set of strings.
- `OnnxGraph` holds the parts of an ONNX graph the core reads: nodes with their op type, inputs and outputs, and value-info entries with name, element type and optional shape.
- An array is the sequence of its slices along axis 0. So a batch's `shape[0]` is its length, and `np.concatenate(chunks, axis=0)` is `Flatten(chunks)`.
- The inference session is a value with its declared output names and a `run` function from feeds to one array per output.

Behaviours of the code worth knowing:

- `save_interm_outputs` checks the requested names only inside the batch loop. When no batch is processed (an empty loader, or `max_batches <= 0`), a missing name is not reported. The call then fails on numpy's empty concatenation instead, or writes an empty archive when no names were requested.
- `add_interm_outputs` reuses the graph input's entry for a name, else its `value_info` entry. It does this whether or not that entry carries a shape. Output entries are in `value_info_map` too, but names with an output entry are skipped before the map is consulted (`AppendedPrecedence`).
- A name requested twice in `save_interm_outputs` has one buffer, which receives two chunks per batch. The names `collect_linear_tensors` produces are duplicate-free, so in `quantize_model`'s own calls each name gets one chunk per batch (`SortedNamesOnce`).
- Only the first input and the first output of a targeted node are collected.

## Model

| member | source | states |
|---|---|---|
| Calibration.DataReader.constructor | ViTALiTy/src/quantize_model.py:69-75 | a new reader keeps the loader, cap and input name, starts at the loader's first batch with zero samples counted, and will hand out exactly `Delivered(loader, maxSamples, 0)` |
| Calibration.DataReader.GetNext | ViTALiTy/src/quantize_model.py:77-85 | returns `None` exactly when nothing is left to deliver, always once `seen >= max_samples`, and then leaves the reader unchanged; otherwise returns `{input_name: next batch}`, advances the iterator by one batch and adds that batch's length to `seen` |
| Calibration.DataReader.Rewind | ViTALiTy/src/quantize_model.py:87-89 | restarts the iterator at the first batch with `seen = 0`, so the reader delivers the same batches as a fresh one |
| Calibration.DeliveredStopsAtCap | ViTALiTy/src/quantize_model.py:77-85 | the batches handed out are a prefix of the loader; each was requested while fewer than `max_samples` samples had been counted; the reader stops before the loader ends only once the cap has been reached |
| Calibration.SampleCountAppend | ViTALiTy/src/quantize_model.py:84 | the sample count of two runs of batches is the sum of their counts |
| ExportWrapper.DropsAuxiliaryHeads | ViTALiTy/src/quantize_model.py:96-100 | whatever auxiliary heads follow the logits, the exported output equals the logits, exactly as for a model returning the logits alone |
| NameOrder.Insert | ViTALiTy/src/quantize_model.py:117 | inserting a name into a strictly sorted list keeps it strictly sorted and adds exactly that name |
| NameOrder.StrictlySortedNoDup | ViTALiTy/src/quantize_model.py:117 | a strictly ascending list of names has no duplicates |
| NameOrder.Listing | ViTALiTy/src/quantize_model.py:117 | `sorted` of a set of names is strictly ascending and holds exactly the set's members |
| NameOrder.SortedUnique | ViTALiTy/src/quantize_model.py:117 | two strictly ascending lists with the same members are equal, so `sorted` of a set has one possible result |
| NameOrder.SortNames | ViTALiTy/src/quantize_model.py:117 | sorting a set gives `Listing` of it: strictly ascending, one entry per member |
| LinearTensors.CollectLinearTensors | ViTALiTy/src/quantize_model.py:103-117 | fails with `IndexError` exactly when some targeted node lacks an input or an output; otherwise returns a strictly sorted list holding exactly the first inputs and first outputs of the targeted nodes |
| LinearTensors.LinearNamesMembers | ViTALiTy/src/quantize_model.py:111-115 | a name is collected from well-formed nodes exactly when some targeted node has it as first input or first output |
| LinearTensors.LinearNamesAppend | ViTALiTy/src/quantize_model.py:111-115 | the names collected from two runs of nodes are the union of each run's names |
| LinearTensors.WellFormedWithout | ViTALiTy/src/quantize_model.py:111-115 | removing a node that is not targeted does not change whether the node list is well formed |
| LinearTensors.IgnoresOtherKinds | ViTALiTy/src/quantize_model.py:111-113 | inserting a node whose op type is not targeted anywhere in the graph leaves the result, including any failure, unchanged |
| IntermOutputs.Lookup | ViTALiTy/src/quantize_model.py:126-128 | the lookup finds an entry with the requested name that is one of the recorded entries, and finds nothing exactly when no entry has that name |
| IntermOutputs.LookupConcat | ViTALiTy/src/quantize_model.py:126-128 | an entry recorded later overrides an earlier entry with the same name |
| IntermOutputs.IndexByName | ViTALiTy/src/quantize_model.py:126-128 | the built `value_info_map` answers every name as `Lookup` on value_info + inputs + outputs does |
| IntermOutputs.Declaration | ViTALiTy/src/quantize_model.py:133-139 | the declaration appended for a name always carries that name |
| IntermOutputs.DeclarationPrecedence | ViTALiTy/src/quantize_model.py:126-139 | `value_info_map.get(name)` with the FLOAT fallback gives the output entry for the name if there is one, else the input entry, else the `value_info` entry, else a FLOAT declaration without shape |
| IntermOutputs.AppendedPrecedence | ViTALiTy/src/quantize_model.py:124-139 | an appended name never has an output entry, and its appended declaration is the graph input's entry for it, else the `value_info` entry, else a FLOAT declaration without shape |
| IntermOutputs.NextOutput | ViTALiTy/src/quantize_model.py:133-139 | given a map that agrees with the recorded entries, the entry appended for a name is its `Declaration` |
| IntermOutputs.PendingMembers | ViTALiTy/src/quantize_model.py:124-132 | a name is appended exactly when it is requested and is not an existing output |
| IntermOutputs.PendingNone | ViTALiTy/src/quantize_model.py:130-132 | when every requested name is already an output, nothing is appended |
| IntermOutputs.PendingNoDup | ViTALiTy/src/quantize_model.py:130-132 | duplicate-free requested names give duplicate-free appended names |
| IntermOutputs.DeclarationsNames | ViTALiTy/src/quantize_model.py:133-139 | the appended entries carry the pending names, in order |
| IntermOutputs.AddIntermOutputs | ViTALiTy/src/quantize_model.py:120-141 | the saved graph is `Augmented(g, tensor_names)`: the original outputs followed by one declaration per pending name |
| IntermOutputs.AugmentedShape | ViTALiTy/src/quantize_model.py:124-139 | nodes, inputs and value_info are unchanged; the old outputs stay as a prefix; the k-th appended entry is the `Declaration` of the k-th pending name |
| IntermOutputs.AugmentedNames | ViTALiTy/src/quantize_model.py:124-139 | the output names afterwards are the old output names followed by the pending names |
| IntermOutputs.AugmentedNoDup | ViTALiTy/src/quantize_model.py:124-139 | duplicate-free outputs and duplicate-free requested names give a graph that declares each output once |
| IntermOutputs.AugmentedCovers | ViTALiTy/src/quantize_model.py:124-139 | every requested name is an output of the saved graph |
| IntermOutputs.AugmentIdempotent | ViTALiTy/src/quantize_model.py:124-139 | augmenting the saved graph again with the same names changes nothing |
| ActivationArchive.OutputIndex | ViTALiTy/src/quantize_model.py:154 | each session output name maps to a position holding that name, and to the last such position when the name repeats; no other name is mapped |
| ActivationArchive.BatchLimit | ViTALiTy/src/quantize_model.py:157-159 | at most the loader's batches are processed, and at most `max_batches` when it is given; fewer than all batches are processed only when `max_batches` stops the loop |
| ActivationArchive.FirstMissing | ViTALiTy/src/quantize_model.py:163-166 | reports nothing exactly when every requested name is known; otherwise reports an unknown name that every name before it in request order is known |
| ActivationArchive.FirstMissingAt | ViTALiTy/src/quantize_model.py:163-166 | an unknown name at position j with all earlier names known is the one `FirstMissing` reports |
| ActivationArchive.Count | ViTALiTy/src/quantize_model.py:163-167 | a name gets chunks in a batch exactly when it is requested, at most once per request |
| ActivationArchive.CountNoDup | ViTALiTy/src/quantize_model.py:163-167 | a name requested once gets one chunk per batch |
| ActivationArchive.SortedNamesOnce | ViTALiTy/src/quantize_model.py:163-167 | every name in a list produced by `collect_linear_tensors` gets exactly one chunk per batch |
| ActivationArchive.AppendChunks | ViTALiTy/src/quantize_model.py:163-167 | fails with `RuntimeError` on exactly the first requested name the session does not output; otherwise every requested name's buffer gains this batch's array once per request, and no other buffer changes |
| ActivationArchive.AppendStep | ViTALiTy/src/quantize_model.py:163-167 | appending the array for one more request of a found name gives that name one more chunk and leaves every other buffer as it was |
| ActivationArchive.GatherBuffers | ViTALiTy/src/quantize_model.py:155-167 | fails exactly when a batch is processed and a requested name is missing, naming the first one; otherwise each buffer holds the chunks of the first `BatchLimit` batches in batch order |
| ActivationArchive.GatherStep | ViTALiTy/src/quantize_model.py:161-167 | one batch's appends extend every buffer by that batch's chunks |
| ActivationArchive.BufferNonEmpty | ViTALiTy/src/quantize_model.py:157-169 | once one batch is processed, every requested name's buffer is non-empty, so the concatenation succeeds |
| ActivationArchive.FlattenAppend | ViTALiTy/src/quantize_model.py:169 | concatenating two runs of chunks along axis 0 gives the concatenation of the first run followed by that of the second |
| ActivationArchive.FlattenLength | ViTALiTy/src/quantize_model.py:169 | the concatenated array has as many rows as all its chunks together |
| ActivationArchive.FlattenAt | ViTALiTy/src/quantize_model.py:169 | row `j` of chunk `i` sits in the concatenated array at `j` plus the number of rows of the chunks before chunk `i` |
| ActivationArchive.SaveIntermOutputs | ViTALiTy/src/quantize_model.py:144-170 | when a batch is processed and a requested name is not a session output, fails with `RuntimeError` naming the first one; with no batch and some name requested, fails with numpy's empty-concatenate error; succeeds exactly otherwise; the archive has exactly the requested names as keys, each holding its output's arrays over the processed batches joined along axis 0 |
| ActivationArchive.OneChunkPerBatch | ViTALiTy/src/quantize_model.py:157-167 | a name requested once has exactly one chunk per processed batch: the session's array for that batch, in batch order |
| ActivationArchive.ArchiveRows | ViTALiTy/src/quantize_model.py:157-169 | when every output keeps its batch's leading dimension, the archived array has one row per processed sample |
| CheckpointHeads.PruneHeadKeys | ViTALiTy/src/quantize_model.py:336-339 | fails with `KeyError` exactly when a head key is in the checkpoint but not in the model, naming the first in visiting order; otherwise drops exactly the head keys whose shapes differ from the model's and keeps every other entry with its original value |

## Left out

- ONNX export, pre-processing, subgraph extraction and static quantization are calls into `torch.onnx`, `onnxruntime.quantization` and `onnx.utils`. They are not modelled. Neither is `quantize_model`, the function that chains them.
- `onnx.shape_inference.infer_shapes` is not modelled. `add_interm_outputs` is modelled on the graph that inference returns.
- The inference session is a parameter. `ActivationArchive.SaveIntermOutputs` requires that `run` returns one array per declared output, as ONNX Runtime guarantees.
- Loading and saving models, `np.savez`, `torch.load` and `print` are file and console I/O. The functions return the graph, archive or checkpoint they would write.
- Errors raised by the session's `run` are not modelled. One example is a feed keyed by a name that is not the graph's input. `Session.run` is a total function, so `ActivationArchive.SaveIntermOutputs` never fails on the session's side.
- Errors from unpacking a loader item that is not an (images, label) pair are not modelled. This unpacking is `batch, _ = next(self._it)` in `get_next` and `images, *rest` in `save_interm_outputs`.
- Array contents, dtypes and trailing dimensions are abstract. numpy's check that concatenated chunks agree beyond axis 0 is not modelled. Neither is its refusal to concatenate zero-dimensional arrays, which an axis-0 sequence cannot represent. Those `ValueError`s are therefore not `Failure` values.
- `batch.cpu().numpy()` and the device are not modelled.
- Each loader item's label is dropped. The loader is modelled as the image batches it yields, and every pass over it is taken to yield the same batches, as with an unshuffled loader.
- `CheckpointHeads.PruneHeadKeys`: a tensor's shape is compared as a list of dimensions. The values are carried but never inspected.
- The position-embedding interpolation and the rest of `main`, `evaluate_onnx` and the argument parser are numeric or orchestration code outside this model.
- `sw/models/degree_2_quant/test.py` is not part of this model.
