/** Events kept apart in time: how many can fall into a window. */
module Spacing {

  ghost predicate SpacedBy(ts: seq<real>, gap: real) {
    forall i :: 0 < i < |ts| ==> ts[i] - ts[i - 1] >= gap
  }

  /** n gaps in a row. */
  function Times(n: nat, gap: real): real {
    n as real * gap
  }

  lemma OneMoreTime(n: nat, gap: real)
    ensures Times(0, gap) == 0.0
    ensures Times(n + 1, gap) == Times(n, gap) + gap
  {
  }

  lemma {:induction false} SpanAtLeast(ts: seq<real>, gap: real, i: nat, j: nat)
    requires SpacedBy(ts, gap) && i <= j < |ts|
    ensures ts[j] - ts[i] >= Times(j - i, gap)
    decreases j
  {
    hide Times;
    OneMoreTime(0, gap);
    if i < j {
      SpanAtLeast(ts, gap, i, j - 1);
      OneMoreTime(j - 1 - i, gap);
    }
  }

  /** Events i to j fit a window of length `span` only if (their number - 1) * gap does. */
  lemma AtMostInWindow(ts: seq<real>, gap: real, i: nat, j: nat, span: real)
    requires SpacedBy(ts, gap)
    requires i <= j < |ts| && ts[j] - ts[i] <= span
    ensures Times(j - i, gap) <= span
  {
    SpanAtLeast(ts, gap, i, j);
  }
}
