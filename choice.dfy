/**
 * The tie-breaking rule every selector uses: a left-to-right scan that replaces its current
 * best only on a strictly greater value, so the first of several equal maxima wins.
 */
module Choice {
  import opened Wrappers

  /** `k` holds a maximum of `xs`, and every earlier value is strictly smaller. */
  predicate IsFirstMax(xs: seq<real>, k: int)
  {
    && 0 <= k < |xs|
    && (forall i :: 0 <= i < |xs| ==> xs[i] <= xs[k])
    && (forall i :: 0 <= i < k ==> xs[i] < xs[k])
  }

  /**
   * The index the scan ends on: none for an empty sequence, otherwise the first maximum.
   */
  function FirstMax(xs: seq<real>): (r: Option<nat>)
    ensures r.None? <==> |xs| == 0
    ensures r.Some? ==> IsFirstMax(xs, r.value)
  {
    if |xs| == 0 then None
    else
      var init := xs[..|xs| - 1];
      assert forall i :: 0 <= i < |init| ==> init[i] == xs[i];
      match FirstMax(init)
      case None => Some(|xs| - 1)
      case Some(k) => if xs[|xs| - 1] > xs[k] then Some(|xs| - 1) else Some(k)
  }

  /** The first maximum is unique. */
  lemma FirstMaxUnique(xs: seq<real>, k: int)
    requires IsFirstMax(xs, k)
    ensures FirstMax(xs) == Some(k)
  {
  }

  /** One step of the scan: the first maximum of a longer prefix. */
  lemma FirstMaxStep(xs: seq<real>, i: int)
    requires 0 <= i < |xs|
    ensures FirstMax(xs[..i + 1]) ==
              match FirstMax(xs[..i])
              case None => Some(i)
              case Some(k) => if xs[i] > xs[k] then Some(i) else Some(k)
  {
    assert xs[..i + 1][..i] == xs[..i];
  }
}
