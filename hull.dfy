/** The constraints emitted for one neuron (src/run_osif.py lines 55-93). A final-layer neuron is an
    affine equality; a hidden neuron gets an output variable, a binary `sig`, one auxiliary `z2`
    per weight group and the partitioned hull constraints. As the code is written, `sig = 1` is
    the inactive branch (output 0) and `sig = 0` the active one (output = affine value). */
module Hull {
  import opened Sums
  import opened Bounds
  import opened Split

  /** The data the builder attaches to one neuron: the bounds of its variables and the groups. */
  datatype Encoding =
    | Linear(lb: real, ub: real)
      // final layer: the output variable's bounds `[lb, ub]` (line 57)
    | Relu(ub: real, groups: seq<seq<nat>>, gLo: seq<real>, gHi: seq<real>, lbTot: real, ubTot: real)
      // hidden layer: `ub` of line 52, `split`, group bounds of lines 68-69, totals of lines 86-87

  /** Builds one neuron's encoding from its weights, bias and the previous layer's bounds. */
  function EncodeNeuron(m: seq<real>, b: real, box: Box, sort: Sorter, nSplits: int, final: bool): Encoding
    requires Fits(m, box) && ValidSorter(sort) && nSplits >= 1
  {
    if final then Linear(FullLower(m, b, box), FullUpper(m, b, box))
    else
      var g := GetSplit(sort, m, nSplits).value;
      Relu(FullUpper(m, b, box), g, GroupLower(m, box, g), GroupUpper(m, box, g),
           LowerTot(m, box), UpperTot(m, box))
  }

  /** A hidden neuron gets `nSplits` groups that partition its weights, with one pair of bounds
      per group; a final-layer neuron gets no groups. */
  lemma EncodeNeuronShape(m: seq<real>, b: real, box: Box, sort: Sorter, nSplits: int, final: bool)
    requires Fits(m, box) && ValidSorter(sort) && nSplits >= 1
    ensures var e := EncodeNeuron(m, b, box, sort, nSplits, final);
      && (e.Relu? <==> !final)
      && (e.Relu? ==> |e.groups| == nSplits && |e.gLo| == nSplits && |e.gHi| == nSplits)
      && (e.Relu? ==> IsPartition(e.groups, |m|))
  {
    if !final {
      GetSplitSpec(sort, m, nSplits);
    }
  }

  /** Pointwise difference `raw[j] - z[j]`. */
  function Diff(raw: seq<real>, z: seq<real>): seq<real>
    requires |raw| == |z|
  {
    seq(|z|, j requires 0 <= j < |z| => raw[j] - z[j])
  }

  /** The hidden neuron's variable bounds: the output in `[0, max(0, ub)]` (line 62), `sig`
      binary (line 63), each `z2[j]` in `[min(0, lb_j), max(0, ub_j)]` (line 72). */
  predicate VariableBounds(e: Encoding, xOut: real, sig: real, z: seq<real>)
    requires e.Relu? && |e.gLo| == |z| && |e.gHi| == |z|
  {
    && 0.0 <= xOut <= Max0(e.ub)
    && (sig == 0.0 || sig == 1.0)
    && forall j :: 0 <= j < |z| ==> Min0(e.gLo[j]) <= z[j] <= Max0(e.gHi[j])
  }

  /** The four gated inequalities of each group (lines 75-78). */
  predicate GroupConstraints(e: Encoding, raw: seq<real>, sig: real, z: seq<real>)
    requires e.Relu? && |e.gLo| == |z| && |e.gHi| == |z| && |raw| == |z|
  {
    forall j :: 0 <= j < |z| ==>
      && raw[j] - z[j] >= sig * e.gLo[j]
      && raw[j] - z[j] <= sig * e.gHi[j]
      && z[j] >= (1.0 - sig) * e.gLo[j]
      && z[j] <= (1.0 - sig) * e.gHi[j]
  }

  /** The assembly equality and the six whole-neuron constraints (lines 81-93); `full` is the
      whole raw sum `sum(x[n] * m[n] for n in range(len(x)))`. */
  predicate HullConstraints(e: Encoding, b: real, raw: seq<real>, full: real, sig: real, z: seq<real>, xOut: real)
    requires e.Relu? && |raw| == |z|
  {
    && xOut == Total(z) + b * (1.0 - sig)
    && Total(Diff(raw, z)) + sig * b <= 0.0
    && Total(z) + (1.0 - sig) * b >= 0.0
    && Total(z) <= e.ubTot * (1.0 - sig)
    && Total(z) >= e.lbTot * (1.0 - sig)
    && full - Total(z) >= sig * e.lbTot
    && full - Total(z) <= sig * e.ubTot
  }

  /** Every bound and constraint emitted for one neuron holds of the values `xPrev` of the
      previous layer, the output `xOut`, the binary `sig` and the auxiliaries `z`. */
  predicate NeuronHolds(m: seq<real>, b: real, e: Encoding, xPrev: seq<real>, xOut: real, sig: real, z: seq<real>)
    requires |xPrev| == |m|
  {
    match e
    case Linear(lb, ub) =>
      lb <= xOut <= ub && xOut == Affine(m, b, xPrev)
    case Relu(_, g, gLo, gHi, _, _) =>
      && |gLo| == |g| && |gHi| == |g| && |z| == |g| && GroupsInRange(g, |m|)
      && VariableBounds(e, xOut, sig, z)
      && GroupConstraints(e, GroupRaw(m, xPrev, g), sig, z)
      && HullConstraints(e, b, GroupRaw(m, xPrev, g), Total(RawTerms(m, xPrev)), sig, z, xOut)
  }

  /** The value of `sig` that makes a hidden neuron's constraints hold: 1 (inactive) exactly when
      the affine value is not positive. */
  function WitnessSig(m: seq<real>, b: real, x: seq<real>): real
    requires |x| == |m|
  {
    if Affine(m, b, x) <= 0.0 then 1.0 else 0.0
  }

  /** The matching auxiliaries: all zero when inactive, the group raw sums when active. */
  function WitnessZ(m: seq<real>, b: real, x: seq<real>, g: seq<seq<nat>>): seq<real>
    requires |x| == |m| && GroupsInRange(g, |m|)
  {
    if Affine(m, b, x) <= 0.0 then seq(|g|, _ => 0.0) else GroupRaw(m, x, g)
  }

  /** Completeness of a hidden neuron: for every point of the previous layer's box, the ReLU value
      together with the witness `sig` and `z2` satisfies every bound and constraint of lines 62-93. */
  lemma HiddenComplete(m: seq<real>, b: real, box: Box, sort: Sorter, nSplits: int, x: seq<real>)
    requires Fits(m, box) && ValidSorter(sort) && nSplits >= 1 && Contains(box, x)
    ensures var e := EncodeNeuron(m, b, box, sort, nSplits, false);
      NeuronHolds(m, b, e, x, Max0(Affine(m, b, x)), WitnessSig(m, b, x), WitnessZ(m, b, x, e.groups))
  {
    var e := EncodeNeuron(m, b, box, sort, nSplits, false);
    EncodeNeuronShape(m, b, box, sort, nSplits, false);
    var g := e.groups;
    var raw := GroupRaw(m, x, g);
    var z := WitnessZ(m, b, x, g);
    var sig := WitnessSig(m, b, x);
    FullBoundsSound(m, b, box, x);
    GroupBoundsSound(m, box, x, g);
    PartitionSum(RawTerms(m, x), g);
    assert Total(raw) == Total(RawTerms(m, x));
    if Affine(m, b, x) <= 0.0 {
      SumAtZero(z, Iota(|z|));
      SumAtAgree(Diff(raw, z), raw, Iota(|z|));
    } else {
      assert z == raw;
      SumAtZero(Diff(raw, z), Iota(|z|));
    }
    assert VariableBounds(e, Max0(Affine(m, b, x)), sig, z);
    assert GroupConstraints(e, raw, sig, z);
  }

  /** Exactness of a hidden neuron: whenever its groups partition the weights, any values that
      satisfy the emitted constraints (with `sig` binary) have output `max(0, affine)`; `sig = 1`
      forces every `z2` and the output to 0 and the affine value to be at most 0, `sig = 0` forces
      each `z2` to its group's raw sum and the affine value to be at least 0. */
  lemma HiddenExact(m: seq<real>, b: real, e: Encoding, x: seq<real>, xOut: real, sig: real, z: seq<real>)
    requires |x| == |m| && e.Relu? && IsPartition(e.groups, |m|)
    requires NeuronHolds(m, b, e, x, xOut, sig, z)
    ensures xOut == Max0(Affine(m, b, x))
    ensures sig == 1.0 ==> Affine(m, b, x) <= 0.0 && xOut == 0.0 && forall j :: 0 <= j < |z| ==> z[j] == 0.0
    ensures sig == 0.0 ==> Affine(m, b, x) >= 0.0 && z == GroupRaw(m, x, e.groups)
  {
    var g := e.groups;
    var raw := GroupRaw(m, x, g);
    PartitionSum(RawTerms(m, x), g);
    assert Total(raw) == Total(RawTerms(m, x));
    if sig == 1.0 {
      assert forall j :: 0 <= j < |z| ==> z[j] == 0.0;
      SumAtZero(z, Iota(|z|));
      SumAtAgree(Diff(raw, z), raw, Iota(|z|));
    } else {
      assert forall j :: 0 <= j < |z| ==> z[j] == raw[j];
      assert z == raw;
    }
  }

  /** A final-layer neuron has no binary: its constraints hold exactly when the output equals the
      affine value, and for a point of the box that value lies in the variable's bounds, which are
      ordered (lines 52-53, 57-58). */
  lemma OutputExact(m: seq<real>, b: real, box: Box, sort: Sorter, nSplits: int, x: seq<real>, y: real, sig: real, z: seq<real>)
    requires Fits(m, box) && ValidSorter(sort) && nSplits >= 1 && Contains(box, x)
    ensures var e := EncodeNeuron(m, b, box, sort, nSplits, true);
      && e.lb <= e.ub
      && (NeuronHolds(m, b, e, x, y, sig, z) <==> y == Affine(m, b, x))
  {
    FullBoundsSound(m, b, box, x);
  }
}
