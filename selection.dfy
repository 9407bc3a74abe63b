/**
 * Selecting the target among a frame's detections: the first detection whose
 * key is largest. Python's `max(items, key=...)` and a loop that replaces its
 * candidate only on a strictly greater score both keep the earliest of equal
 * scores. Keys are integers here; where a variant scores with a real-valued
 * formula, its module proves that the integer key orders detections exactly
 * as that formula does.
 */
module Selection {

  /** `k` indexes a largest key, and every earlier key is strictly smaller. */
  predicate IsFirstMax(keys: seq<int>, k: int)
  {
    && 0 <= k < |keys|
    && (forall j :: 0 <= j < |keys| ==> keys[j] <= keys[k])
    && (forall j :: 0 <= j < k ==> keys[j] < keys[k])
  }

  /** Python's `max` with a key on a non-empty list: a left fold that keeps the
      current best unless a later key is strictly greater. */
  function FirstMax(keys: seq<int>): (k: nat)
    requires |keys| > 0
    ensures IsFirstMax(keys, k)
  {
    if |keys| == 1 then 0
    else
      var best := FirstMax(keys[..|keys| - 1]);
      if keys[|keys| - 1] > keys[best] then |keys| - 1 else best
  }

  /** At most one index is the first maximum, so the selection is deterministic. */
  lemma FirstMaxIsUnique(keys: seq<int>, k1: int, k2: int)
    requires IsFirstMax(keys, k1) && IsFirstMax(keys, k2)
    ensures k1 == k2
  {
    // Both keys are maximal, so they are equal, and neither index can come first.
    assert keys[k1] == keys[k2];
  }
}
