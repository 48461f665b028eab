/** Interval bound propagation through one affine map (src/run_osif.py lines 52-53, 68-69, 86-87):
    a positive weight takes the upper bound of its input for the upper bound and the lower bound for
    the lower bound; a negative weight swaps them. */
module Bounds {
  import opened Sums

  /** The `.LB` and `.UB` attributes of one layer's variables. */
  datatype Box = Box(lo: seq<real>, hi: seq<real>)

  /** `x` is a point of the box. */
  predicate Contains(box: Box, x: seq<real>)
  {
    |box.lo| == |x| && |box.hi| == |x| &&
    forall j :: 0 <= j < |x| ==> box.lo[j] <= x[j] <= box.hi[j]
  }

  /** Every lower bound is at most its upper bound. */
  predicate Ordered(box: Box)
  {
    |box.lo| == |box.hi| && forall j :: 0 <= j < |box.lo| ==> box.lo[j] <= box.hi[j]
  }

  /** The box is over as many variables as `m` has weights. */
  predicate Fits(m: seq<real>, box: Box)
  {
    |box.lo| == |m| && |box.hi| == |m|
  }

  /** `max(0, w)` */
  function Max0(w: real): real
  {
    if w > 0.0 then w else 0.0
  }

  /** `min(0, w)` */
  function Min0(w: real): real
  {
    if w < 0.0 then w else 0.0
  }

  /** The summands `x.UB*max(0, m[j]) + x.LB*min(0, m[j])` of the upper bound. */
  function UpperTerms(m: seq<real>, box: Box): seq<real>
    requires Fits(m, box)
  {
    seq(|m|, j requires 0 <= j < |m| => box.hi[j] * Max0(m[j]) + box.lo[j] * Min0(m[j]))
  }

  /** The summands `x.UB*min(0, m[j]) + x.LB*max(0, m[j])` of the lower bound. */
  function LowerTerms(m: seq<real>, box: Box): seq<real>
    requires Fits(m, box)
  {
    seq(|m|, j requires 0 <= j < |m| => box.hi[j] * Min0(m[j]) + box.lo[j] * Max0(m[j]))
  }

  /** The summands `x[j] * m[j]` of the affine map itself. */
  function RawTerms(m: seq<real>, x: seq<real>): seq<real>
    requires |x| == |m|
  {
    seq(|m|, j requires 0 <= j < |m| => x[j] * m[j])
  }

  /** Upper bound over the indices `idx` (line 68 for one group). */
  function Upper(m: seq<real>, box: Box, idx: seq<nat>): real
    requires Fits(m, box) && InRange(idx, |m|)
  {
    SumAt(UpperTerms(m, box), idx)
  }

  /** Lower bound over the indices `idx` (line 69 for one group). */
  function Lower(m: seq<real>, box: Box, idx: seq<nat>): real
    requires Fits(m, box) && InRange(idx, |m|)
  {
    SumAt(LowerTerms(m, box), idx)
  }

  /** `ub_tot` and `lb_tot` (lines 86-87): the bounds over all weights, without the bias. */
  function UpperTot(m: seq<real>, box: Box): real
    requires Fits(m, box)
  {
    Total(UpperTerms(m, box))
  }

  function LowerTot(m: seq<real>, box: Box): real
    requires Fits(m, box)
  {
    Total(LowerTerms(m, box))
  }

  /** `ub` and `lb` of lines 52-53: the totals plus the bias. */
  function FullUpper(m: seq<real>, b: real, box: Box): real
    requires Fits(m, box)
  {
    UpperTot(m, box) + b
  }

  function FullLower(m: seq<real>, b: real, box: Box): real
    requires Fits(m, box)
  {
    LowerTot(m, box) + b
  }

  /** The pre-activation value `sum(x[j] * m[j] for j in range(len(m))) + b` (line 58). */
  function Affine(m: seq<real>, b: real, x: seq<real>): real
    requires |x| == |m|
  {
    Total(RawTerms(m, x)) + b
  }

  /** Per-group upper bounds `ub` of line 68, in group order. */
  function GroupUpper(m: seq<real>, box: Box, g: seq<seq<nat>>): seq<real>
    requires Fits(m, box) && GroupsInRange(g, |m|)
  {
    GroupSums(UpperTerms(m, box), g)
  }

  /** Per-group lower bounds `lb` of line 69, in group order. */
  function GroupLower(m: seq<real>, box: Box, g: seq<seq<nat>>): seq<real>
    requires Fits(m, box) && GroupsInRange(g, |m|)
  {
    GroupSums(LowerTerms(m, box), g)
  }

  /** Per-group raw sums `sum(x[n] * m[n] for n in split[j])` of lines 75-76, in group order. */
  function GroupRaw(m: seq<real>, x: seq<real>, g: seq<seq<nat>>): seq<real>
    requires |x| == |m| && GroupsInRange(g, |m|)
  {
    GroupSums(RawTerms(m, x), g)
  }

  /** One summand: whatever the sign of `w`, `x * w` lies between the two bound summands. */
  lemma TermSound(w: real, lo: real, hi: real, x: real)
    requires lo <= x <= hi
    ensures hi * Min0(w) + lo * Max0(w) <= x * w <= hi * Max0(w) + lo * Min0(w)
  {
    // For `w > 0` the two sides follow from `(x - lo) * w >= 0` and `(hi - x) * w >= 0`; for
    // `w < 0` both products flip sign.
  }

  /** Soundness of the sign-split bounds over any index sequence: for every point of the box,
      the partial affine sum lies between `Lower` and `Upper`. */
  lemma {:induction false} IntervalSound(m: seq<real>, box: Box, x: seq<real>, idx: seq<nat>)
    requires Fits(m, box) && Contains(box, x) && InRange(idx, |m|)
    ensures Lower(m, box, idx) <= SumAt(RawTerms(m, x), idx) <= Upper(m, box, idx)
  {
    var lt, rt, ut := LowerTerms(m, box), RawTerms(m, x), UpperTerms(m, box);
    forall k | 0 <= k < |m|
      ensures lt[k] <= rt[k] <= ut[k]
    {
      TermSound(m[k], box.lo[k], box.hi[k], x[k]);
    }
    SumAtMono(lt, rt, idx);
    SumAtMono(rt, ut, idx);
  }

  /** Lines 52-53 and 86-87: the whole-neuron bounds enclose the affine value of every point of the box. */
  lemma FullBoundsSound(m: seq<real>, b: real, box: Box, x: seq<real>)
    requires Fits(m, box) && Contains(box, x)
    ensures LowerTot(m, box) <= Total(RawTerms(m, x)) <= UpperTot(m, box)
    ensures FullLower(m, b, box) <= Affine(m, b, x) <= FullUpper(m, b, box)
  {
    IntervalSound(m, box, x, Iota(|m|));
  }

  /** On an ordered box the propagated bounds are ordered too: `lb <= ub`. */
  lemma BoundsOrdered(m: seq<real>, box: Box, idx: seq<nat>)
    requires Fits(m, box) && Ordered(box) && InRange(idx, |m|)
    ensures Lower(m, box, idx) <= Upper(m, box, idx)
  {
    IntervalSound(m, box, box.lo, idx);
  }

  /** Lines 68-69 against 86-87 and 52-53: because the groups partition the weights, the group
      bounds add up to `ub_tot` and `lb_tot`, and those plus the bias are `ub` and `lb`. */
  lemma GroupBoundsAddUp(m: seq<real>, b: real, box: Box, g: seq<seq<nat>>)
    requires Fits(m, box) && IsPartition(g, |m|)
    ensures Total(GroupUpper(m, box, g)) == UpperTot(m, box)
    ensures Total(GroupLower(m, box, g)) == LowerTot(m, box)
    ensures Total(GroupUpper(m, box, g)) + b == FullUpper(m, b, box)
    ensures Total(GroupLower(m, box, g)) + b == FullLower(m, b, box)
  {
    PartitionSum(UpperTerms(m, box), g);
    PartitionSum(LowerTerms(m, box), g);
  }

  /** Each group's bounds enclose that group's raw sum, for every point of the box. */
  lemma GroupBoundsSound(m: seq<real>, box: Box, x: seq<real>, g: seq<seq<nat>>)
    requires Fits(m, box) && Contains(box, x) && GroupsInRange(g, |m|)
    ensures forall j :: 0 <= j < |g| ==>
      GroupLower(m, box, g)[j] <= GroupRaw(m, x, g)[j] <= GroupUpper(m, box, g)[j]
  {
    forall j | 0 <= j < |g|
      ensures GroupLower(m, box, g)[j] <= GroupRaw(m, x, g)[j] <= GroupUpper(m, box, g)[j]
    {
      IntervalSound(m, box, x, g[j]);
    }
  }
}
