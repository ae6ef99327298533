/**
 * `collect_linear_tensors`: the names flowing into and out of the linear
 * operators of an extracted subgraph, sorted and without duplicates.
 */
module LinearTensors {
  import opened Wrappers
  import opened OnnxGraph
  import opened NameOrder

  /** `node.input[0]` or `node.output[0]` on an empty slot list raises `IndexError`. */
  datatype CollectError = IndexError

  /** The operator kinds counted as linear: float graphs use MatMul and Gemm, quantized ones QLinearMatMul. */
  function TargetOps(floatModel: bool): set<string>
  {
    if floatModel then {"MatMul", "Gemm"} else {"QLinearMatMul"}
  }

  predicate Targeted(n: Node, floatModel: bool)
  {
    n.opType in TargetOps(floatModel)
  }

  /** A targeted node whose first input or first output slot is missing. */
  predicate Malformed(n: Node, floatModel: bool)
  {
    Targeted(n, floatModel) && (|n.input| == 0 || |n.output| == 0)
  }

  ghost predicate WellFormed(nodes: seq<Node>, floatModel: bool)
  {
    forall i :: 0 <= i < |nodes| ==> !Malformed(nodes[i], floatModel)
  }

  /** `s` is the first input or the first output of the targeted node `n`. */
  ghost predicate Contributes(n: Node, floatModel: bool, s: string)
  {
    && Targeted(n, floatModel)
    && ((|n.input| > 0 && s == n.input[0]) || (|n.output| > 0 && s == n.output[0]))
  }

  /** Some node of the list contributes `s`. */
  ghost predicate Produced(nodes: seq<Node>, floatModel: bool, s: string)
  {
    exists i :: 0 <= i < |nodes| && Contributes(nodes[i], floatModel, s)
  }

  /** The set the loop builds: first input and first output of every targeted node. */
  ghost function LinearNames(nodes: seq<Node>, floatModel: bool): set<string>
  {
    if nodes == [] then {}
    else
      var n := nodes[|nodes| - 1];
      LinearNames(nodes[..|nodes| - 1], floatModel)
        + (if Targeted(n, floatModel) && !Malformed(n, floatModel) then {n.input[0], n.output[0]} else {})
  }

  /** What `collect_linear_tensors` returns for a graph with these nodes. */
  ghost function Collected(nodes: seq<Node>, floatModel: bool): Result<seq<string>, CollectError>
  {
    if WellFormed(nodes, floatModel) then Success(Listing(LinearNames(nodes, floatModel)))
    else Failure(IndexError)
  }

  method CollectLinearTensors(nodes: seq<Node>, floatModel: bool) returns (r: Result<seq<string>, CollectError>)
    ensures r == Collected(nodes, floatModel)
    ensures r.Failure? <==> exists i :: 0 <= i < |nodes| && Malformed(nodes[i], floatModel)
    ensures r.Success? ==> StrictlySorted(r.value)
    ensures r.Success? ==> forall s :: s in r.value <==> Produced(nodes, floatModel, s)
  {
    var targetOps := TargetOps(floatModel);
    var names: set<string> := {};
    for i := 0 to |nodes|
      invariant names == LinearNames(nodes[..i], floatModel)
      invariant WellFormed(nodes[..i], floatModel)
    {
      var node := nodes[i];
      assert nodes[..i + 1][..i] == nodes[..i] && nodes[..i + 1][i] == node;
      if node.opType !in targetOps {
        continue;
      }
      if |node.input| == 0 || |node.output| == 0 {
        assert Malformed(nodes[i], floatModel);
        return Failure(IndexError);
      }
      names := names + {node.input[0]};
      names := names + {node.output[0]};
    }
    assert nodes[..|nodes|] == nodes;
    LinearNamesMembers(nodes, floatModel);
    var sorted := SortNames(names);
    r := Success(sorted);
  }

  /** On well-formed nodes, the collected set is exactly the names the nodes contribute. */
  lemma {:induction false} LinearNamesMembers(nodes: seq<Node>, floatModel: bool)
    requires WellFormed(nodes, floatModel)
    ensures forall s :: s in LinearNames(nodes, floatModel) <==> Produced(nodes, floatModel, s)
  {
    if nodes != [] {
      var init := nodes[..|nodes| - 1];
      assert WellFormed(init, floatModel) by {
        forall i | 0 <= i < |init| ensures !Malformed(init[i], floatModel) {
          assert init[i] == nodes[i];
        }
      }
      LinearNamesMembers(init, floatModel);
      forall s
        ensures s in LinearNames(nodes, floatModel) <==> Produced(nodes, floatModel, s)
      {
        if exists i :: 0 <= i < |nodes| && Contributes(nodes[i], floatModel, s) {
          var i :| 0 <= i < |nodes| && Contributes(nodes[i], floatModel, s);
          if i < |nodes| - 1 {
            assert init[i] == nodes[i];
          }
        }
        if exists i :: 0 <= i < |init| && Contributes(init[i], floatModel, s) {
          var i :| 0 <= i < |init| && Contributes(init[i], floatModel, s);
          assert nodes[i] == init[i];
        }
      }
    }
  }

  lemma {:induction false} LinearNamesAppend(a: seq<Node>, b: seq<Node>, floatModel: bool)
    ensures LinearNames(a + b, floatModel) == LinearNames(a, floatModel) + LinearNames(b, floatModel)
    decreases |b|
  {
    if b == [] {
      assert a + b == a;
    } else {
      var b' := b[..|b| - 1];
      assert (a + b)[..|a + b| - 1] == a + b';
      LinearNamesAppend(a, b', floatModel);
    }
  }

  lemma WellFormedWithout(a: seq<Node>, n: Node, b: seq<Node>, floatModel: bool)
    requires !Targeted(n, floatModel)
    ensures WellFormed(a + [n] + b, floatModel) <==> WellFormed(a + b, floatModel)
  {
    var full, short := a + [n] + b, a + b;
    if WellFormed(short, floatModel) {
      forall i | 0 <= i < |full| ensures !Malformed(full[i], floatModel) {
        if i < |a| {
          assert full[i] == short[i];
        } else if i > |a| {
          assert full[i] == short[i - 1];
        }
      }
    }
    if WellFormed(full, floatModel) {
      forall j | 0 <= j < |short| ensures !Malformed(short[j], floatModel) {
        if j < |a| {
          assert full[j] == short[j];
        } else {
          assert full[j + 1] == short[j];
        }
      }
    }
  }

  /** A node whose kind is outside the target set can be added or removed without changing the result. */
  lemma IgnoresOtherKinds(a: seq<Node>, n: Node, b: seq<Node>, floatModel: bool)
    requires !Targeted(n, floatModel)
    ensures Collected(a + [n] + b, floatModel) == Collected(a + b, floatModel)
  {
    LinearNamesAppend(a + [n], b, floatModel);
    LinearNamesAppend(a, [n], floatModel);
    LinearNamesAppend(a, b, floatModel);
    assert LinearNames([n], floatModel) == {} by {
      assert [n][..0] == [];
    }
    assert LinearNames(a + [n] + b, floatModel) == LinearNames(a + b, floatModel);
    WellFormedWithout(a, n, b, floatModel);
  }
}
