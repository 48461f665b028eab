/** The whole mixed-integer model built by src/run_osif.py lines 33-95: input variables in
    `[0, 1]` under an L1 budget, then, layer by layer, every neuron's encoding computed from the
    previous layer's finalized bounds. The model's meaning is stated against the network's forward
    pass: every input within the budget extends to a satisfying assignment (completeness), every
    satisfying assignment is the forward pass of its input (exactness), and each layer's bounds
    enclose its forward values (soundness). */
module Model {
  import opened Sums
  import opened Bounds
  import opened Split
  import opened Hull

  /** Weight matrix `m{i}` (one row per output neuron) and bias vector `b{i}` of one dense layer. */
  datatype Layer = Layer(weights: seq<seq<real>>, bias: seq<real>)

  /** The trained network: the input width (the column count of `m1`) and its layers in order;
      the last one has no ReLU. */
  datatype Network = Network(nInputs: nat, layers: seq<Layer>)

  /** The number of variables of layer `t` (layer 0 is the input). */
  function Width(net: Network, t: nat): nat
    requires t <= |net.layers|
  {
    if t == 0 then net.nInputs else |net.layers[t - 1].weights|
  }

  /** A bias for every row (extra biases are never read), and every row as long as the previous
      layer is wide. */
  predicate LayerFits(layer: Layer, n: nat)
  {
    |layer.bias| >= |layer.weights| && forall i :: 0 <= i < |layer.weights| ==> |layer.weights[i]| == n
  }

  predicate WellFormed(net: Network)
  {
    forall ind :: 0 <= ind < |net.layers| ==> LayerFits(net.layers[ind], Width(net, ind))
  }

  /** Layer `ind + 1` is the output layer (`ind == nLayers - 1`, line 55). */
  predicate IsFinal(net: Network, ind: nat)
  {
    ind == |net.layers| - 1
  }

  /** Input variables `x[0][i]` in `[0, 1]` (line 36). */
  function InputBox(n: nat): Box
  {
    Box(seq(n, _ => 0.0), seq(n, _ => 1.0))
  }

  /** An input the model admits: in the unit box and within the L1 budget (lines 36, 39). */
  predicate FeasibleInput(n: nat, x0: seq<real>, epsilon: real)
  {
    Contains(InputBox(n), x0) && Total(x0) <= epsilon
  }

  /** The bounds given to one neuron's output variable: `[lb, ub]` in the final layer (line 57),
      `[0, max(0, ub)]` after a ReLU (line 62). */
  function NeuronLo(m: seq<real>, b: real, box: Box, final: bool): real
    requires Fits(m, box)
  {
    if final then FullLower(m, b, box) else 0.0
  }

  function NeuronHi(m: seq<real>, b: real, box: Box, final: bool): real
    requires Fits(m, box)
  {
    if final then FullUpper(m, b, box) else Max0(FullUpper(m, b, box))
  }

  /** The bounds of one layer's output variables. */
  function LayerBox(layer: Layer, box: Box, final: bool): Box
    requires LayerFits(layer, |box.lo|) && |box.hi| == |box.lo|
  {
    var w, b := layer.weights, layer.bias;
    Box(seq(|w|, i requires 0 <= i < |w| => NeuronLo(w[i], b[i], box, final)),
        seq(|w|, i requires 0 <= i < |w| => NeuronHi(w[i], b[i], box, final)))
  }

  /** The bounds of layer `t`, each layer computed from the finalized bounds of the one before. */
  function BoxAt(net: Network, t: nat): (box: Box)
    requires WellFormed(net) && t <= |net.layers|
    ensures |box.lo| == Width(net, t) && |box.hi| == Width(net, t)
  {
    if t == 0 then InputBox(net.nInputs)
    else LayerBox(net.layers[t - 1], BoxAt(net, t - 1), IsFinal(net, t - 1))
  }

  /** The network's own semantics for one layer: affine map, then ReLU except in the final layer. */
  function LayerForward(layer: Layer, xPrev: seq<real>, final: bool): seq<real>
    requires LayerFits(layer, |xPrev|)
  {
    var w, b := layer.weights, layer.bias;
    seq(|w|, i requires 0 <= i < |w| => if final then Affine(w[i], b[i], xPrev) else Max0(Affine(w[i], b[i], xPrev)))
  }

  /** The values of layer `t` in the forward pass from input `x0`. */
  function ForwardAt(net: Network, x0: seq<real>, t: nat): (x: seq<real>)
    requires WellFormed(net) && |x0| == net.nInputs && t <= |net.layers|
    ensures |x| == Width(net, t)
  {
    if t == 0 then x0
    else LayerForward(net.layers[t - 1], ForwardAt(net, x0, t - 1), IsFinal(net, t - 1))
  }

  /** The encodings of one layer's neurons (lines 46-93). */
  function LayerEncodings(layer: Layer, box: Box, sort: Sorter, nSplits: int, final: bool): seq<Encoding>
    requires LayerFits(layer, |box.lo|) && |box.hi| == |box.lo| && ValidSorter(sort) && nSplits >= 1
  {
    var w, b := layer.weights, layer.bias;
    seq(|w|, i requires 0 <= i < |w| => EncodeNeuron(w[i], b[i], box, sort, nSplits, final))
  }

  /** What the builder produces: the budget, the bounds of every layer and every neuron's encoding. */
  datatype Formulation = Formulation(epsilon: real, boxes: seq<Box>, encodings: seq<seq<Encoding>>)

  /** The formulation of lines 33-95 for a well-formed network and `nSplits >= 1` groups. */
  function Formulate(net: Network, sort: Sorter, nSplits: int, epsilon: real): Formulation
    requires WellFormed(net) && ValidSorter(sort) && nSplits >= 1
  {
    var n := |net.layers|;
    Formulation(epsilon,
      seq(n + 1, t requires 0 <= t <= n => BoxAt(net, t)),
      seq(n, ind requires 0 <= ind < n =>
        LayerEncodings(net.layers[ind], BoxAt(net, ind), sort, nSplits, IsFinal(net, ind))))
  }

  /** A candidate solution: `x[t][i]` for every layer, and `sig[ind][i]` and `z2[ind][i][j]` for
      the neurons of layer `ind + 1` (unused in the final layer). */
  datatype Assignment = Assignment(x: seq<seq<real>>, sig: seq<seq<real>>, z: seq<seq<seq<real>>>)

  /** Every neuron of one layer satisfies its constraints. */
  predicate LayerHolds(layer: Layer, encs: seq<Encoding>, xPrev: seq<real>, xCur: seq<real>,
                       sigs: seq<real>, zs: seq<seq<real>>)
    requires LayerFits(layer, |xPrev|)
    requires |encs| == |layer.weights| && |xCur| == |layer.weights|
    requires |sigs| == |layer.weights| && |zs| == |layer.weights|
  {
    forall i :: 0 <= i < |layer.weights| ==>
      NeuronHolds(layer.weights[i], layer.bias[i], encs[i], xPrev, xCur[i], sigs[i], zs[i])
  }

  /** The assignment has one value per variable of the formulation. */
  predicate Shaped(net: Network, f: Formulation, a: Assignment)
    requires WellFormed(net)
  {
    var n := |net.layers|;
    && |f.encodings| == n && |a.x| == n + 1 && |a.sig| == n && |a.z| == n
    && (forall t :: 0 <= t <= n ==> |a.x[t]| == Width(net, t))
    && (forall ind :: 0 <= ind < n ==>
          |f.encodings[ind]| == Width(net, ind + 1) && |a.sig[ind]| == Width(net, ind + 1)
          && |a.z[ind]| == Width(net, ind + 1))
  }

  /** The assignment is a feasible point of the mixed-integer model. */
  predicate Satisfies(net: Network, f: Formulation, a: Assignment)
    requires WellFormed(net)
  {
    && Shaped(net, f, a)
    && FeasibleInput(net.nInputs, a.x[0], f.epsilon)
    && forall ind :: 0 <= ind < |net.layers| ==>
         LayerHolds(net.layers[ind], f.encodings[ind], a.x[ind], a.x[ind + 1], a.sig[ind], a.z[ind])
  }

  function LayerWitnessSig(layer: Layer, xPrev: seq<real>, final: bool): seq<real>
    requires LayerFits(layer, |xPrev|)
  {
    var w, b := layer.weights, layer.bias;
    seq(|w|, i requires 0 <= i < |w| => if final then 0.0 else WitnessSig(w[i], b[i], xPrev))
  }

  function LayerWitnessZ(layer: Layer, sort: Sorter, nSplits: int, xPrev: seq<real>, final: bool): seq<seq<real>>
    requires LayerFits(layer, |xPrev|) && ValidSorter(sort) && nSplits >= 1
  {
    var w, b := layer.weights, layer.bias;
    seq(|w|, i requires 0 <= i < |w| =>
      if final then [] else WitnessZ(w[i], b[i], xPrev, GetSplit(sort, w[i], nSplits).value))
  }

  /** The forward pass from `x0`, with every neuron's `sig` and `z2` chosen as in `HiddenComplete`. */
  function Witness(net: Network, sort: Sorter, nSplits: int, x0: seq<real>): Assignment
    requires WellFormed(net) && ValidSorter(sort) && nSplits >= 1 && |x0| == net.nInputs
  {
    var n := |net.layers|;
    Assignment(
      seq(n + 1, t requires 0 <= t <= n => ForwardAt(net, x0, t)),
      seq(n, ind requires 0 <= ind < n => LayerWitnessSig(net.layers[ind], ForwardAt(net, x0, ind), IsFinal(net, ind))),
      seq(n, ind requires 0 <= ind < n => LayerWitnessZ(net.layers[ind], sort, nSplits, ForwardAt(net, x0, ind), IsFinal(net, ind))))
  }

  /** One layer of propagation is sound: forward values of a point of the box lie in the next box. */
  lemma LayerSound(layer: Layer, box: Box, x: seq<real>, final: bool)
    requires LayerFits(layer, |box.lo|) && Contains(box, x)
    ensures Contains(LayerBox(layer, box, final), LayerForward(layer, x, final))
  {
    forall i | 0 <= i < |layer.weights|
      ensures FullLower(layer.weights[i], layer.bias[i], box) <= Affine(layer.weights[i], layer.bias[i], x)
                <= FullUpper(layer.weights[i], layer.bias[i], box)
    {
      FullBoundsSound(layer.weights[i], layer.bias[i], box, x);
    }
  }

  /** Network-wide soundness, by induction over the layer loop: for every input in the unit box
      (in particular every input the budget admits), each layer's forward values lie within that
      layer's computed bounds. */
  lemma {:induction false} BoundsSound(net: Network, x0: seq<real>, t: nat)
    requires WellFormed(net) && Contains(InputBox(net.nInputs), x0) && t <= |net.layers|
    ensures Contains(BoxAt(net, t), ForwardAt(net, x0, t))
  {
    if t > 0 {
      BoundsSound(net, x0, t - 1);
      LayerSound(net.layers[t - 1], BoxAt(net, t - 1), ForwardAt(net, x0, t - 1), IsFinal(net, t - 1));
    }
  }

  /** Every layer's bounds are ordered, and a hidden layer's lower bounds are 0, so the precondition
      of the next propagation is re-established (lines 52-53, 57, 62). */
  lemma {:induction false} BoxesOrdered(net: Network, t: nat)
    requires WellFormed(net) && t <= |net.layers|
    ensures Ordered(BoxAt(net, t))
    ensures 0 < t < |net.layers| ==> forall j :: 0 <= j < Width(net, t) ==> BoxAt(net, t).lo[j] == 0.0
  {
    if t > 0 {
      BoxesOrdered(net, t - 1);
      var layer, box := net.layers[t - 1], BoxAt(net, t - 1);
      forall i | 0 <= i < |layer.weights|
        ensures BoxAt(net, t).lo[i] <= BoxAt(net, t).hi[i]
      {
        BoundsOrdered(layer.weights[i], box, Iota(|layer.weights[i]|));
      }
    }
  }

  /** Completeness of one layer: for every point of the previous layer's box, the forward values
      with the witness `sig` and `z2` satisfy all of the layer's constraints. */
  lemma LayerComplete(layer: Layer, box: Box, sort: Sorter, nSplits: int, x: seq<real>, final: bool)
    requires LayerFits(layer, |box.lo|) && ValidSorter(sort) && nSplits >= 1 && Contains(box, x)
    ensures LayerHolds(layer, LayerEncodings(layer, box, sort, nSplits, final), x, LayerForward(layer, x, final),
                       LayerWitnessSig(layer, x, final), LayerWitnessZ(layer, sort, nSplits, x, final))
  {
    var w, b := layer.weights, layer.bias;
    var encs, y := LayerEncodings(layer, box, sort, nSplits, final), LayerForward(layer, x, final);
    var sigs, zs := LayerWitnessSig(layer, x, final), LayerWitnessZ(layer, sort, nSplits, x, final);
    forall i | 0 <= i < |w|
      ensures NeuronHolds(w[i], b[i], encs[i], x, y[i], sigs[i], zs[i])
    {
      if final {
        OutputExact(w[i], b[i], box, sort, nSplits, x, y[i], sigs[i], zs[i]);
      } else {
        HiddenComplete(w[i], b[i], box, sort, nSplits, x);
      }
    }
  }

  /** Layer `ind + 1` of the witness satisfies its constraints. */
  lemma WitnessLayer(net: Network, sort: Sorter, nSplits: int, epsilon: real, x0: seq<real>, ind: nat)
    requires WellFormed(net) && ValidSorter(sort) && nSplits >= 1 && Contains(InputBox(net.nInputs), x0) && ind < |net.layers|
    ensures var f, a := Formulate(net, sort, nSplits, epsilon), Witness(net, sort, nSplits, x0);
      LayerHolds(net.layers[ind], f.encodings[ind], a.x[ind], a.x[ind + 1], a.sig[ind], a.z[ind])
  {
    var layer, box, x, final := net.layers[ind], BoxAt(net, ind), ForwardAt(net, x0, ind), IsFinal(net, ind);
    BoundsSound(net, x0, ind);
    LayerComplete(layer, box, sort, nSplits, x, final);
    FormulateAt(net, sort, nSplits, epsilon, ind);
    WitnessAt(net, sort, nSplits, x0, ind);
    WitnessGatesAt(net, sort, nSplits, x0, ind);
  }

  lemma FormulateAt(net: Network, sort: Sorter, nSplits: int, epsilon: real, ind: nat)
    requires WellFormed(net) && ValidSorter(sort) && nSplits >= 1 && ind < |net.layers|
    ensures Formulate(net, sort, nSplits, epsilon).encodings[ind]
      == LayerEncodings(net.layers[ind], BoxAt(net, ind), sort, nSplits, IsFinal(net, ind))
  {
  }

  lemma WitnessAt(net: Network, sort: Sorter, nSplits: int, x0: seq<real>, ind: nat)
    requires WellFormed(net) && ValidSorter(sort) && nSplits >= 1 && |x0| == net.nInputs && ind < |net.layers|
    ensures var a, layer, x, final := Witness(net, sort, nSplits, x0), net.layers[ind], ForwardAt(net, x0, ind), IsFinal(net, ind);
      a.x[ind] == x && a.x[ind + 1] == LayerForward(layer, x, final)
  {
    var a := Witness(net, sort, nSplits, x0);
    assert a.x[ind] == ForwardAt(net, x0, ind);
    assert a.x[ind + 1] == ForwardAt(net, x0, ind + 1);
  }

  lemma WitnessGatesAt(net: Network, sort: Sorter, nSplits: int, x0: seq<real>, ind: nat)
    requires WellFormed(net) && ValidSorter(sort) && nSplits >= 1 && |x0| == net.nInputs && ind < |net.layers|
    ensures var a, layer, x, final := Witness(net, sort, nSplits, x0), net.layers[ind], ForwardAt(net, x0, ind), IsFinal(net, ind);
      && a.sig[ind] == LayerWitnessSig(layer, x, final)
      && a.z[ind] == LayerWitnessZ(layer, sort, nSplits, x, final)
  {
  }

  /** Completeness: every input the budget admits, with its forward pass and witness `sig`/`z2`,
      is a feasible point of the model, whose output variables hold the network's output. */
  lemma ModelComplete(net: Network, sort: Sorter, nSplits: int, epsilon: real, x0: seq<real>)
    requires WellFormed(net) && ValidSorter(sort) && nSplits >= 1 && FeasibleInput(net.nInputs, x0, epsilon)
    ensures Satisfies(net, Formulate(net, sort, nSplits, epsilon), Witness(net, sort, nSplits, x0))
    ensures Witness(net, sort, nSplits, x0).x[|net.layers|] == ForwardAt(net, x0, |net.layers|)
  {
    var f, a := Formulate(net, sort, nSplits, epsilon), Witness(net, sort, nSplits, x0);
    WitnessShaped(net, sort, nSplits, epsilon, x0);
    forall ind | 0 <= ind < |net.layers|
      ensures LayerHolds(net.layers[ind], f.encodings[ind], a.x[ind], a.x[ind + 1], a.sig[ind], a.z[ind])
    {
      WitnessLayer(net, sort, nSplits, epsilon, x0, ind);
    }
    assert a.x[0] == x0;
  }

  lemma WitnessShaped(net: Network, sort: Sorter, nSplits: int, epsilon: real, x0: seq<real>)
    requires WellFormed(net) && ValidSorter(sort) && nSplits >= 1 && |x0| == net.nInputs
    ensures Shaped(net, Formulate(net, sort, nSplits, epsilon), Witness(net, sort, nSplits, x0))
  {
  }

  /** Exactness of one layer: whatever `sig` and `z2` satisfy the layer's constraints, its output
      variables hold the forward values of the previous layer's values. */
  lemma LayerExact(layer: Layer, box: Box, sort: Sorter, nSplits: int, final: bool,
                   x: seq<real>, y: seq<real>, sigs: seq<real>, zs: seq<seq<real>>)
    requires LayerFits(layer, |box.lo|) && |box.hi| == |box.lo| && |x| == |box.lo| && ValidSorter(sort) && nSplits >= 1
    requires |y| == |layer.weights| && |sigs| == |layer.weights| && |zs| == |layer.weights|
    requires LayerHolds(layer, LayerEncodings(layer, box, sort, nSplits, final), x, y, sigs, zs)
    ensures y == LayerForward(layer, x, final)
  {
    var w, b := layer.weights, layer.bias;
    var encs := LayerEncodings(layer, box, sort, nSplits, final);
    forall i | 0 <= i < |w|
      ensures y[i] == LayerForward(layer, x, final)[i]
    {
      EncodeNeuronShape(w[i], b[i], box, sort, nSplits, final);
      if !final {
        HiddenExact(w[i], b[i], encs[i], x, y[i], sigs[i], zs[i]);
      }
    }
  }

  /** What a feasible point says about the neurons of layer `ind + 1`. */
  lemma SatisfiesLayer(net: Network, sort: Sorter, nSplits: int, epsilon: real, a: Assignment, ind: nat)
    requires WellFormed(net) && ValidSorter(sort) && nSplits >= 1 && Satisfies(net, Formulate(net, sort, nSplits, epsilon), a)
    requires ind < |net.layers|
    ensures |a.x[ind]| == Width(net, ind) && |a.x[ind + 1]| == Width(net, ind + 1)
    ensures |a.sig[ind]| == Width(net, ind + 1) && |a.z[ind]| == Width(net, ind + 1)
    ensures LayerHolds(net.layers[ind], LayerEncodings(net.layers[ind], BoxAt(net, ind), sort, nSplits, IsFinal(net, ind)),
                       a.x[ind], a.x[ind + 1], a.sig[ind], a.z[ind])
  {
    var f := Formulate(net, sort, nSplits, epsilon);
    assert f.encodings[ind] == LayerEncodings(net.layers[ind], BoxAt(net, ind), sort, nSplits, IsFinal(net, ind));
  }

  lemma {:induction false} ModelExactAt(net: Network, sort: Sorter, nSplits: int, epsilon: real, a: Assignment, t: nat)
    requires WellFormed(net) && ValidSorter(sort) && nSplits >= 1 && Satisfies(net, Formulate(net, sort, nSplits, epsilon), a)
    requires t <= |net.layers|
    ensures |a.x[0]| == net.nInputs && a.x[t] == ForwardAt(net, a.x[0], t)
  {
    if t > 0 {
      ModelExactAt(net, sort, nSplits, epsilon, a, t - 1);
      SatisfiesLayer(net, sort, nSplits, epsilon, a, t - 1);
      LayerExact(net.layers[t - 1], BoxAt(net, t - 1), sort, nSplits, IsFinal(net, t - 1),
                 a.x[t - 1], a.x[t], a.sig[t - 1], a.z[t - 1]);
    }
  }

  /** Exactness: in every feasible point of the model (with every `sig` binary, as the model
      declares it), the input is admitted by the budget and every layer's variables hold the
      forward pass of that input; in particular the output layer holds the network's output. */
  lemma ModelExact(net: Network, sort: Sorter, nSplits: int, epsilon: real, a: Assignment)
    requires WellFormed(net) && ValidSorter(sort) && nSplits >= 1 && Satisfies(net, Formulate(net, sort, nSplits, epsilon), a)
    ensures FeasibleInput(net.nInputs, a.x[0], epsilon)
    ensures forall t :: 0 <= t <= |net.layers| ==> a.x[t] == ForwardAt(net, a.x[0], t)
  {
    forall t | 0 <= t <= |net.layers|
      ensures a.x[t] == ForwardAt(net, a.x[0], t)
    {
      ModelExactAt(net, sort, nSplits, epsilon, a, t);
    }
  }

  /** The all-zero input is admitted exactly when the budget is nonnegative, and no input is
      admitted by a negative budget. */
  lemma BudgetFeasibility(n: nat, epsilon: real, x0: seq<real>)
    ensures FeasibleInput(n, seq(n, _ => 0.0), epsilon) <==> epsilon >= 0.0
    ensures FeasibleInput(n, x0, epsilon) ==> epsilon >= 0.0
  {
    var zero: seq<real> := seq(n, _ => 0.0);
    SumAtZero(zero, Iota(n));
    if FeasibleInput(n, x0, epsilon) {
      SumAtMono(zero, x0, Iota(n));
    }
  }

  /** The model has a feasible point exactly when the budget is nonnegative (never infeasible for
      the nonnegative budgets the configuration allows). */
  lemma ModelFeasible(net: Network, sort: Sorter, nSplits: int, epsilon: real)
    requires WellFormed(net) && ValidSorter(sort) && nSplits >= 1
    ensures (exists a :: Satisfies(net, Formulate(net, sort, nSplits, epsilon), a)) <==> epsilon >= 0.0
  {
    var zero: seq<real> := seq(net.nInputs, _ => 0.0);
    if epsilon >= 0.0 {
      BudgetFeasibility(net.nInputs, epsilon, zero);
      ModelComplete(net, sort, nSplits, epsilon, zero);
    }
    if a :| Satisfies(net, Formulate(net, sort, nSplits, epsilon), a) {
      BudgetFeasibility(net.nInputs, epsilon, a.x[0]);
    }
  }
}
