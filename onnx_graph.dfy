/**
 * The parts of an ONNX `ModelProto` graph that the quantization script reads
 * and writes: operator nodes with their input/output tensor-name slots, and
 * value-info declarations (name, element type, optional shape).
 */
module OnnxGraph {
  import opened Wrappers

  /** `NodeProto`: the operator kind and the tensor names in its input and output slots. */
  datatype Node = Node(opType: string, input: seq<string>, output: seq<string>)

  /** One dimension of a declared shape: a fixed size or a symbolic name such as `batch`. */
  datatype Dim = Fixed(size: nat) | Symbolic(param: string)

  /** `ValueInfoProto`: a tensor name, its element type code, and its shape if one is recorded. */
  datatype ValueInfo = ValueInfo(name: string, elemType: int, shape: Option<seq<Dim>>)

  /** `GraphProto`: nodes, declared inputs, declared outputs and the recorded value-info entries. */
  datatype Graph = Graph(node: seq<Node>, input: seq<ValueInfo>, output: seq<ValueInfo>, valueInfo: seq<ValueInfo>)

  /** `TensorProto.FLOAT`, the element type code of 32-bit floats. */
  const FLOAT: int := 1

  /** The names of a list of declarations, in order. */
  function Names(vis: seq<ValueInfo>): (r: seq<string>)
    ensures |r| == |vis|
    ensures forall i :: 0 <= i < |vis| ==> r[i] == vis[i].name
  {
    seq(|vis|, i requires 0 <= i < |vis| => vis[i].name)
  }

  lemma NamesAppend(a: seq<ValueInfo>, b: seq<ValueInfo>)
    ensures Names(a + b) == Names(a) + Names(b)
  {
  }
}
