/** The model-construction loop of src/run_osif.py lines 31-95: input variables, then layer by
    layer and neuron by neuron the bounds and encodings, each layer from the previous layer's
    finalized bounds. Each layer's bounds are filled into arrays in place, neuron by neuron. */
module Builder {
  import opened Sums
  import opened Bounds
  import opened Split
  import opened Hull
  import opened Model

  /** Configurations the source cannot build a model for. */
  datatype BuildError =
    | ShapeMismatch          // a bias vector too short or a weight row of the wrong length
    | NonPositivePartitions  // `np.array_split` refuses `nSplits <= 0`

  datatype Result<T> = Ok(value: T) | Err(error: BuildError)

  /** Lines 35-36: one input variable per column of the first weight matrix, bounded by `[0, 1]`. */
  method InputLayer(n: nat) returns (box: Box)
    ensures box == InputBox(n)
  {
    var lo := new real[n];
    var hi := new real[n];
    var i := 0;
    while i < n
      invariant 0 <= i <= n
      invariant forall j :: 0 <= j < i ==> lo[j] == 0.0 && hi[j] == 1.0
    {
      lo[i], hi[i] := 0.0, 1.0;
      i := i + 1;
    }
    box := Box(lo[..], hi[..]);
  }

  /** Lines 66-69: the bounds of every group of one neuron, in group order. */
  method GroupBounds(m: seq<real>, box: Box, g: seq<seq<nat>>) returns (gLo: seq<real>, gHi: seq<real>)
    requires Fits(m, box) && GroupsInRange(g, |m|)
    ensures gLo == GroupLower(m, box, g) && gHi == GroupUpper(m, box, g)
  {
    var lo := new real[|g|];
    var hi := new real[|g|];
    var j := 0;
    while j < |g|
      invariant 0 <= j <= |g|
      invariant forall k :: 0 <= k < j ==> lo[k] == Lower(m, box, g[k]) && hi[k] == Upper(m, box, g[k])
    {
      hi[j] := Upper(m, box, g[j]);
      lo[j] := Lower(m, box, g[j]);
      j := j + 1;
    }
    gLo, gHi := lo[..], hi[..];
  }

  /** Lines 48-93 for one neuron: its split (line 49), its bounds `ub` and `lb` (lines 52-53), the
      bounds of its output variable (lines 57, 62) and its encoding. */
  method BuildNeuron(m: seq<real>, b: real, box: Box, sort: Sorter, nSplits: int, final: bool) returns (lo: real, hi: real, e: Encoding)
    requires Fits(m, box) && ValidSorter(sort) && nSplits >= 1
    ensures lo == NeuronLo(m, b, box, final) && hi == NeuronHi(m, b, box, final)
    ensures e == EncodeNeuron(m, b, box, sort, nSplits, final)
  {
    var split := GetSplit(sort, m, nSplits).value;
    var ub, lb := FullUpper(m, b, box), FullLower(m, b, box);
    if final {
      lo, hi := lb, ub;
      e := Linear(lb, ub);
    } else {
      lo, hi := 0.0, Max0(ub);
      var gLo, gHi := GroupBounds(m, box, split);
      e := Relu(ub, split, gLo, gHi, LowerTot(m, box), UpperTot(m, box));
    }
  }

  /** Lines 46-93 for one layer: every neuron in order, its output bounds filled into the layer's
      bound arrays. */
  method BuildLayer(layer: Layer, box: Box, sort: Sorter, nSplits: int, final: bool) returns (next: Box, encs: seq<Encoding>)
    requires LayerFits(layer, |box.lo|) && |box.hi| == |box.lo| && ValidSorter(sort) && nSplits >= 1
    ensures next == LayerBox(layer, box, final)
    ensures encs == LayerEncodings(layer, box, sort, nSplits, final)
  {
    var w, bias := layer.weights, layer.bias;
    var lo := new real[|w|];
    var hi := new real[|w|];
    encs := [];
    ghost var spec, specEncs := LayerBox(layer, box, final), LayerEncodings(layer, box, sort, nSplits, final);
    var i := 0;
    while i < |w|
      invariant 0 <= i <= |w|
      invariant lo[..i] == spec.lo[..i] && hi[..i] == spec.hi[..i]
      invariant encs == specEncs[..i]
    {
      var l, h, e := BuildNeuron(w[i], bias[i], box, sort, nSplits, final);
      lo[i] := l;
      hi[i] := h;
      encs := encs + [e];
      i := i + 1;
    }
    next := Box(lo[..], hi[..]);
    assert lo[..] == lo[..|w|] && hi[..] == hi[..|w|];
    assert encs == specEncs;
  }

  /** Lines 33-95 on a well-formed network: the input layer, then every layer in order, each
      from the bounds of the one before. */
  method BuildLayers(net: Network, sort: Sorter, nPartitions: int) returns (boxes: seq<Box>, encodings: seq<seq<Encoding>>)
    requires WellFormed(net) && ValidSorter(sort) && nPartitions >= 1
    ensures |boxes| == |net.layers| + 1 && |encodings| == |net.layers|
    ensures forall t :: 0 <= t <= |net.layers| ==> boxes[t] == BoxAt(net, t)
    ensures forall t :: 0 <= t < |net.layers| ==>
      encodings[t] == LayerEncodings(net.layers[t], BoxAt(net, t), sort, nPartitions, IsFinal(net, t))
  {
    var box := InputLayer(net.nInputs);
    boxes, encodings := [box], [];
    var ind := 0;
    while ind < |net.layers|
      invariant 0 <= ind <= |net.layers|
      invariant |boxes| == ind + 1 && |encodings| == ind
      invariant forall t :: 0 <= t <= ind ==> boxes[t] == BoxAt(net, t)
      invariant forall t :: 0 <= t < ind ==>
        encodings[t] == LayerEncodings(net.layers[t], BoxAt(net, t), sort, nPartitions, IsFinal(net, t))
    {
      var next, encs := BuildLayer(net.layers[ind], boxes[ind], sort, nPartitions, IsFinal(net, ind));
      assert next == BoxAt(net, ind + 1);
      ghost var prevBoxes, prevEncodings := boxes, encodings;
      boxes, encodings := boxes + [next], encodings + [encs];
      forall t | 0 <= t <= ind + 1
        ensures boxes[t] == BoxAt(net, t)
      {
        if t <= ind {
          assert boxes[t] == prevBoxes[t];
        }
      }
      forall t | 0 <= t <= ind
        ensures encodings[t] == LayerEncodings(net.layers[t], BoxAt(net, t), sort, nPartitions, IsFinal(net, t))
      {
        if t < ind {
          assert encodings[t] == prevEncodings[t];
        }
      }
      ind := ind + 1;
    }
  }

  /** Lines 31-95: the whole formulation, built strictly in layer order. A malformed network or a
      nonpositive partition count is reported and no model is built. */
  method BuildModel(net: Network, sort: Sorter, nPartitions: int, epsilon: real) returns (r: Result<Formulation>)
    requires ValidSorter(sort)
    ensures !WellFormed(net) ==> r == Err(ShapeMismatch)
    ensures WellFormed(net) && nPartitions < 1 ==> r == Err(NonPositivePartitions)
    ensures WellFormed(net) && nPartitions >= 1 ==> r == Ok(Formulate(net, sort, nPartitions, epsilon))
  {
    if !WellFormed(net) {
      return Err(ShapeMismatch);
    }
    if nPartitions < 1 {
      return Err(NonPositivePartitions);
    }
    var boxes, encodings := BuildLayers(net, sort, nPartitions);
    ghost var f := Formulate(net, sort, nPartitions, epsilon);
    assert boxes == f.boxes && encodings == f.encodings;
    return Ok(Formulation(epsilon, boxes, encodings));
  }
}
