/**
 * `add_interm_outputs`: declare extra graph outputs for intermediate tensors so
 * that an inference session returns their values.
 *
 * The graph given here is the one after `onnx.shape_inference.infer_shapes`.
 */
module IntermOutputs {
  import opened Wrappers
  import opened OnnxGraph
  import opened NameOrder

  /** `value_info_map.get(name)` for a map filled from `vis` in order, later entries overwriting earlier ones. */
  function Lookup(vis: seq<ValueInfo>, name: string): (r: Option<ValueInfo>)
    ensures r.Some? ==> r.value.name == name && r.value in vis
    ensures r.None? <==> name !in Names(vis)
  {
    if vis == [] then None
    else if vis[|vis| - 1].name == name then Some(vis[|vis| - 1])
    else
      var r := Lookup(vis[..|vis| - 1], name);
      assert Names(vis) == Names(vis[..|vis| - 1]) + [vis[|vis| - 1].name];
      r
  }

  /** An entry in a later part of the list wins over one in an earlier part. */
  lemma {:induction false} LookupConcat(a: seq<ValueInfo>, b: seq<ValueInfo>, name: string)
    ensures Lookup(a + b, name) == if Lookup(b, name).Some? then Lookup(b, name) else Lookup(a, name)
    decreases |b|
  {
    if b == [] {
      assert a + b == a;
    } else {
      assert (a + b)[..|a + b| - 1] == a + b[..|b| - 1];
      LookupConcat(a, b[..|b| - 1], name);
    }
  }

  /** The entries `value_info_map` is filled from: value_info, then inputs, then outputs. */
  function Recorded(g: Graph): seq<ValueInfo>
  {
    g.valueInfo + g.input + g.output
  }

  /** The output entry appended for `name`: the recorded one if any, else a FLOAT declaration with no shape. */
  function Declaration(g: Graph, name: string): (vi: ValueInfo)
    ensures vi.name == name
  {
    match Lookup(Recorded(g), name)
    case Some(v) => v
    case None => ValueInfo(name, FLOAT, None)
  }

  /** The metadata reused for a name: an output's over an input's over a value_info entry's. */
  lemma DeclarationPrecedence(g: Graph, name: string)
    ensures name in Names(g.output) ==> Declaration(g, name) == Lookup(g.output, name).value
    ensures name !in Names(g.output) && name in Names(g.input) ==>
      Declaration(g, name) == Lookup(g.input, name).value
    ensures name !in Names(g.output) && name !in Names(g.input) && name in Names(g.valueInfo) ==>
      Declaration(g, name) == Lookup(g.valueInfo, name).value
    ensures name !in Names(g.output) && name !in Names(g.input) && name !in Names(g.valueInfo) ==>
      Declaration(g, name) == ValueInfo(name, FLOAT, None)
  {
    LookupConcat(g.valueInfo + g.input, g.output, name);
    LookupConcat(g.valueInfo, g.input, name);
  }

  /** The names of `names` that are not in `existing`, in order (duplicates in `names` kept). */
  function Pending(names: seq<string>, existing: seq<string>): seq<string>
  {
    if names == [] then []
    else
      var init, last := names[..|names| - 1], names[|names| - 1];
      Pending(init, existing) + (if last in existing then [] else [last])
  }

  /** A name is pending exactly when it is requested and not already an output. */
  lemma {:induction false} PendingMembers(names: seq<string>, existing: seq<string>)
    ensures forall x :: x in Pending(names, existing) <==> x in names && x !in existing
  {
    if names != [] {
      var init, last := names[..|names| - 1], names[|names| - 1];
      PendingMembers(init, existing);
      assert names == init + [last];
    }
  }

  /** Nothing is pending once every requested name is already an output. */
  lemma {:induction false} PendingNone(names: seq<string>, existing: seq<string>)
    requires forall x :: x in names ==> x in existing
    ensures Pending(names, existing) == []
  {
    if names != [] {
      var init := names[..|names| - 1];
      assert forall x :: x in init ==> x in names;
      PendingNone(init, existing);
    }
  }

  lemma PendingStep(names: seq<string>, existing: seq<string>, j: nat)
    requires j < |names|
    ensures Pending(names[..j + 1], existing)
      == Pending(names[..j], existing) + (if names[j] in existing then [] else [names[j]])
  {
    assert names[..j + 1][..j] == names[..j];
  }

  lemma {:induction false} PendingNoDup(names: seq<string>, existing: seq<string>)
    requires NoDup(names)
    ensures NoDup(Pending(names, existing))
  {
    if names != [] {
      var init, last := names[..|names| - 1], names[|names| - 1];
      assert NoDup(init) by {
        forall i, j | 0 <= i < j < |init| ensures init[i] != init[j] {
          assert init[i] == names[i] && init[j] == names[j];
        }
      }
      PendingNoDup(init, existing);
      PendingMembers(init, existing);
      assert last !in init by {
        forall i | 0 <= i < |init| ensures init[i] != last {
          assert init[i] == names[i];
        }
      }
    }
  }

  /** The entries appended for a list of names. */
  function Declarations(g: Graph, names: seq<string>): seq<ValueInfo>
  {
    seq(|names|, k requires 0 <= k < |names| => Declaration(g, names[k]))
  }

  /** Each appended entry carries the name it was appended for. */
  lemma DeclarationsNames(g: Graph, names: seq<string>)
    ensures Names(Declarations(g, names)) == names
  {
  }

  lemma DeclarationsSnoc(g: Graph, names: seq<string>, name: string)
    ensures Declarations(g, names + [name]) == Declarations(g, names) + [Declaration(g, name)]
  {
  }

  /** The graph `add_interm_outputs` saves. */
  function Augmented(g: Graph, names: seq<string>): Graph
  {
    g.(output := g.output + Declarations(g, Pending(names, Names(g.output))))
  }

  /** `dict.get` on a map. */
  function Get(m: map<string, ValueInfo>, name: string): Option<ValueInfo>
  {
    if name in m then Some(m[name]) else None
  }

  /** `value_info_map`: each name mapped to its last entry in `recorded`. */
  method IndexByName(recorded: seq<ValueInfo>) returns (m: map<string, ValueInfo>)
    ensures forall n :: Get(m, n) == Lookup(recorded, n)
  {
    m := map[];
    for i := 0 to |recorded|
      invariant forall n :: Get(m, n) == Lookup(recorded[..i], n)
    {
      var vi := recorded[i];
      assert recorded[..i + 1][..i] == recorded[..i] && recorded[..i + 1][i] == vi;
      m := m[vi.name := vi];
    }
    assert recorded[..|recorded|] == recorded;
  }

  /** The entry appended for `name`: `value_info_map[name]` if present, else a FLOAT, shape-less declaration. */
  method NextOutput(g: Graph, valueInfoMap: map<string, ValueInfo>, name: string) returns (vi: ValueInfo)
    requires forall n :: Get(valueInfoMap, n) == Lookup(Recorded(g), n)
    ensures vi == Declaration(g, name)
  {
    assert Get(valueInfoMap, name) == Lookup(Recorded(g), name);
    if name in valueInfoMap {
      vi := valueInfoMap[name];
    } else {
      vi := ValueInfo(name, FLOAT, None);
    }
  }

  method AddIntermOutputs(g: Graph, tensorNames: seq<string>) returns (r: Graph)
    ensures r == Augmented(g, tensorNames)
  {
    var existing := set n | n in Names(g.output);

    var recorded := Recorded(g);
    var valueInfoMap := IndexByName(recorded);

    var outputs := g.output;
    ghost var appended: seq<string> := [];
    for j := 0 to |tensorNames|
      invariant appended == Pending(tensorNames[..j], Names(g.output))
      invariant outputs == g.output + Declarations(g, appended)
    {
      var name := tensorNames[j];
      PendingStep(tensorNames, Names(g.output), j);
      if name in existing {
        continue;
      }
      var vi := NextOutput(g, valueInfoMap, name);
      DeclarationsSnoc(g, appended, name);
      outputs := outputs + [vi];
      appended := appended + [name];
    }
    assert tensorNames[..|tensorNames|] == tensorNames;
    r := g.(output := outputs);
  }

  /**
   * Only the output list changes; the old outputs stay as its prefix, and each appended
   * entry declares the next pending name with the metadata `Declaration` picks for it.
   */
  lemma AugmentedShape(g: Graph, names: seq<string>)
    ensures var r := Augmented(g, names);
      && r.node == g.node && r.input == g.input && r.valueInfo == g.valueInfo
      && |g.output| <= |r.output| && r.output[..|g.output|] == g.output
      && |r.output| == |g.output| + |Pending(names, Names(g.output))|
      && forall k :: 0 <= k < |Pending(names, Names(g.output))| ==>
           r.output[|g.output| + k] == Declaration(g, Pending(names, Names(g.output))[k])
  {
  }

  /**
   * The metadata that reaches the saved graph. A name with an output entry is never appended,
   * so each appended entry is the graph input's entry for its name, else the `value_info`
   * entry's, else a FLOAT declaration without shape.
   */
  lemma AppendedPrecedence(g: Graph, names: seq<string>, k: nat)
    requires k < |Pending(names, Names(g.output))|
    ensures var p := Pending(names, Names(g.output))[k];
      var entry := Augmented(g, names).output[|g.output| + k];
      && p !in Names(g.output)
      && (p in Names(g.input) ==> entry == Lookup(g.input, p).value)
      && (p !in Names(g.input) && p in Names(g.valueInfo) ==> entry == Lookup(g.valueInfo, p).value)
      && (p !in Names(g.input) && p !in Names(g.valueInfo) ==> entry == ValueInfo(p, FLOAT, None))
  {
    var pending := Pending(names, Names(g.output));
    var p := pending[k];
    AugmentedShape(g, names);
    PendingMembers(names, Names(g.output));
    assert p in pending;
    DeclarationPrecedence(g, p);
  }

  /** The output names after augmentation: the old ones, then the pending names. */
  lemma AugmentedNames(g: Graph, names: seq<string>)
    ensures Names(Augmented(g, names).output) == Names(g.output) + Pending(names, Names(g.output))
  {
    PendingMembers(names, Names(g.output));
    NamesAppend(g.output, Declarations(g, Pending(names, Names(g.output))));
    DeclarationsNames(g, Pending(names, Names(g.output)));
  }

  /** With duplicate-free outputs and names, the augmented graph declares every output once. */
  lemma AugmentedNoDup(g: Graph, names: seq<string>)
    requires NoDup(Names(g.output)) && NoDup(names)
    ensures NoDup(Names(Augmented(g, names).output))
  {
    AugmentedNames(g, names);
    var before, added := Names(g.output), Pending(names, Names(g.output));
    PendingNoDup(names, before);
    PendingMembers(names, before);
    var all := before + added;
    forall i, j | 0 <= i < j < |all|
      ensures all[i] != all[j]
    {
      if i < |before| && j >= |before| {
        assert all[j] in added;
        assert all[i] in before;
      } else if i >= |before| {
        assert all[i] == added[i - |before|] && all[j] == added[j - |before|];
      }
    }
  }

  /** Every requested name is an output of the augmented graph. */
  lemma AugmentedCovers(g: Graph, names: seq<string>)
    ensures forall x :: x in names ==> x in Names(Augmented(g, names).output)
  {
    AugmentedNames(g, names);
    PendingMembers(names, Names(g.output));
  }

  /** A second augmentation with the same names appends nothing. */
  lemma AugmentIdempotent(g: Graph, names: seq<string>)
    ensures Augmented(Augmented(g, names), names) == Augmented(g, names)
  {
    var a := Augmented(g, names);
    AugmentedCovers(g, names);
    var p := Pending(names, Names(a.output));
    PendingNone(names, Names(a.output));
    assert Declarations(a, p) == [];
    assert a.output + [] == a.output;
  }
}
