# Partitioned ReLU hull formulation (Optimal Sparse Input Features)

This project models how `src/run_osif.py` builds its mixed-integer linear model of a trained dense
ReLU network, and proves properties of that model in Dafny. The script does the following:

- It declares the input variables in `[0, 1]` under an L1 budget `sum(x[0]) <= epsilon`.
- Layer by layer, it propagates interval bounds with sign-split interval arithmetic.
- It splits each neuron's incoming weights into `nPartitions` groups (`getSplit`: `np.argsort`,
  then `np.array_split`).
- For each hidden neuron it emits a partitioned partial-hull encoding of the ReLU:
  - a binary `sig`;
  - one auxiliary `z2` per group;
  - four gated inequalities per group;
  - the assembly equality and six whole-neuron constraints.
- For the final layer it emits a plain affine equality.

The modules follow that structure:

| module | file | contents |
|---|---|---|
| `Sums` | `sums.dfy` | sums over index sequences (`range(len(m))` is `Iota`, a group is `split[j]`), partitions of `0..n-1` and their sums |
| `Bounds` | `bounds.dfy` | the sign-split bounds of lines 52-53, 68-69 and 86-87, and their soundness |
| `Split` | `split.dfy` | `getSplit`: argsort, then `array_split` into near-equal contiguous chunks |
| `Hull` | `hull.dfy` | one neuron's encoding and the constraints emitted for it (lines 55-93) |
| `Model` | `model.dfy` | the network, its forward pass, the whole formulation, and the end-to-end theorems |
| `Builder` | `builder.dfy` | the imperative build loop over layers, neurons and groups |

The end-to-end theorems are:

- **Completeness.** Every input within the budget extends to a feasible point of the model. That
  point is the input's forward pass plus witness values for `sig` and `z2`.
- **Exactness.** Every feasible point, with `sig` binary as the model declares it, holds the
  network's forward pass of its own input in every layer.
- **Soundness.** Every layer's bounds enclose the forward values of every input in the unit box.

All arithmetic is exact (`real`).

The `sig` polarity is modelled as the code has it. With `sig = 1` the neuron is inactive: lines
77-78 force every `z2` to 0, line 81 gives output 0, and line 82 gives affine value ≤ 0. With
`sig = 0` the neuron is active: lines 75-76 force each `z2` to its group's raw sum, and line 84
gives affine value ≥ 0.

`np.argsort` is an external routine whose order among equal weights is not fixed (its default
sort is not stable). The model therefore takes it as a parameter `sort` of type `Split.Sorter`,
required only to return, for every weight row, a permutation of the indices with nondecreasing
weights (`Split.ValidSorter`). Every theorem below holds for every such routine, so it covers
whatever tie order numpy produces. `Split.ArgSort`, a stable insertion sort, shows the
requirement can be met.

## Model

| member | source | states |
|---|---|---|
| Bounds.IntervalSound | src/run_osif.py:68-69 | for every point of the previous layer's box and any group of indices, the partial affine sum lies between the sign-split lower sum and upper sum |
| Bounds.FullBoundsSound | src/run_osif.py:52-53 | for every point of the box, `lb <= sum(m[j]*x[j]) + b <= ub`, and the sum without bias lies within `[lb_tot, ub_tot]` |
| Bounds.BoundsOrdered | src/run_osif.py:52-53 | on a box with ordered bounds, the propagated lower bound never exceeds the upper bound |
| Bounds.GroupBoundsAddUp | src/run_osif.py:86-87 | when the groups partition the weights, the group upper and lower bounds add up to `ub_tot` and `lb_tot`, and these plus `b` equal the `ub` and `lb` of lines 52-53 |
| Bounds.GroupBoundsSound | src/run_osif.py:68-69 | for every point of the box, each group's raw sum lies within that group's `[lb, ub]` |
| Split.ArgSortSpec | src/run_osif.py:27 | the insertion argsort of a row is a permutation of `0..len(m)-1`, and the weights are nondecreasing along it |
| Split.ArgSortValid | src/run_osif.py:27 | the stable insertion argsort returns, for every weight row, a permutation of its indices with nondecreasing weights, so the requirement on `np.argsort` can be met |
| Split.ArraySplitSpec | src/run_osif.py:27 | `array_split(s, k)` gives `k` contiguous chunks whose concatenation is `s`; chunk `i` has `len(s)//k` elements, plus one when `i < len(s) % k` |
| Split.GetSplit | src/run_osif.py:26-27 | for any valid argsort routine, there is a split exactly when `nSplits >= 1`; it then has `nSplits` groups, each holding only indices of `m` |
| Split.GetSplitSpec | src/run_osif.py:26-27 | for any valid argsort routine, the concatenated groups are an argsort of `m`, the groups partition `0..len(m)-1`, and the first `len(m) % nSplits` groups are one index longer |
| Split.GetSplitPartition | src/run_osif.py:26-27 | the groups are pairwise disjoint, every index of `m` is in some group, and no group holds any other index |
| Split.GetSplitBalanced | src/run_osif.py:26-27 | any two group sizes differ by at most one, and sizes never increase along the split |
| Hull.EncodeNeuronShape | src/run_osif.py:49-72 | a neuron gets groups and a binary exactly when it is not in the final layer; its groups then partition its weights, with one bound pair per group |
| Hull.HiddenComplete | src/run_osif.py:62-93 | for every point of the box, `max(0, affine)`, `sig = 1` when the affine value is ≤ 0 (else 0), and `z2 = 0` or the group raw sums satisfy every bound and constraint of lines 62-93 |
| Hull.HiddenExact | src/run_osif.py:75-84 | any values satisfying the constraints, with `sig` binary and the groups a partition, have output `max(0, affine)`; `sig = 1` forces every `z2` and the output to 0 and the affine value to be ≤ 0; `sig = 0` forces each `z2` to its raw sum and the affine value to be ≥ 0 |
| Hull.OutputExact | src/run_osif.py:55-58 | a final-layer neuron's bounds are ordered, and its constraints hold exactly when the output equals the affine value |
| Model.LayerSound | src/run_osif.py:52-62 | one layer's forward values, for a point of the previous box, lie in the layer's box (`[lb, ub]` in the final layer, `[0, max(0, ub)]` after a ReLU) |
| Model.BoundsSound | src/run_osif.py:41-95 | by induction over the layer loop, for every input in `[0, 1]^n`, every layer's forward values lie within that layer's computed bounds |
| Model.BoxesOrdered | src/run_osif.py:52-62 | every layer's bounds are ordered, and a hidden layer's lower bounds are 0, which re-establishes the next propagation's precondition |
| Model.LayerComplete | src/run_osif.py:46-93 | for a point of the previous box, one layer's forward values and witness `sig`/`z2` satisfy every constraint of that layer |
| Model.LayerExact | src/run_osif.py:46-93 | any values that satisfy one layer's constraints are that layer's forward values |
| Model.ModelComplete | src/run_osif.py:35-95 | every input in the unit box within the L1 budget, with its forward pass and witness `sig`/`z2`, is a feasible point whose output variables hold the network's output |
| Model.ModelExact | src/run_osif.py:35-95 | every feasible point's input is within the budget, and its layer-`t` variables equal the forward pass of that input for every `t` |
| Model.BudgetFeasibility | src/run_osif.py:36-39 | the all-zero input is admitted exactly when `epsilon >= 0`, and no input is admitted when `epsilon < 0` |
| Model.ModelFeasible | src/run_osif.py:35-95 | the model has a feasible point if and only if `epsilon >= 0` |
| Builder.InputLayer | src/run_osif.py:35-36 | fills one `[0, 1]` bound pair per input variable |
| Builder.GroupBounds | src/run_osif.py:66-69 | fills the arrays of group bounds, in group order, with the sign-split bounds of each group |
| Builder.BuildNeuron | src/run_osif.py:48-72 | computes one neuron's split, its output variable's bounds (`[lb, ub]` in the final layer, `[0, max(0, ub)]` otherwise) and its encoding |
| Builder.BuildLayer | src/run_osif.py:46-93 | fills one layer's bound arrays neuron by neuron; the result is that layer's box and encodings |
| Builder.BuildLayers | src/run_osif.py:41-95 | builds every layer in order, each from the finalized bounds of the one before; the result is each layer's bounds and encodings |
| Builder.BuildModel | src/run_osif.py:31-95 | a malformed network is reported as `ShapeMismatch` and `nPartitions < 1` as `NonPositivePartitions`; otherwise the result is the whole formulation |

## Left out

- The solver itself is not modelled: `gb.Model`, `addVar` and `addConstr` as calls, `model.update`, the objective on `targetClass`, `setParam` and `optimize` (lines 30, 38, 95, 98-105). Constraints are predicates over an assignment, not solver state.
- `np.load` of the parameter file (line 22) is I/O. Weights and biases are parameters of the model.
- Variable names (`'x_1_3'` and the like) are bookkeeping only.
- IEEE floating-point rounding is not modelled; all arithmetic is exact.
- `np.argsort` is not modelled as a particular algorithm. It is a parameter that must return an argsort of every row (`Split.ValidSorter`), so which equal-weight index numpy puts first is left open.
- `nLayers = 3` (line 23) becomes the number of layers of the given network.
- Builder.BuildModel: the script does not check dimensions. A short bias vector, or a weight row longer than the previous layer, makes it fail part way with an indexing error (lines 48, 52). A shorter weight row fails only in a hidden layer (line 90); in the final layer the script would accept it. `nPartitions <= 0` fails at the first `getSplit` call with numpy's error. The model checks all of these up front and builds nothing. A bias vector longer than the weight matrix's row count is accepted, as in the script, and its extra entries are never read.
- Hull.EncodeNeuron keeps no whole-neuron `lb` for a hidden neuron. The script computes it at line 53 but does not use it there.
- The script never checks `lower <= upper` for a layer's bounds. Model.BoxesOrdered proves that a box with `lower > upper` never arises.
- Tightness of the LP relaxation when `sig` is continuous is not modelled. Soundness and exactness are proved with `sig` binary.
