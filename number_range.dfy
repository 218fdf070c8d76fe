/** The `to` template filter of notes/templatetags/number_range.py:
    `value|to:arg` is `range(value, arg + 1)`, the integers from `value` to
    `arg`, both included. */
module NumberRange {

  /** Python's `range(start, stop)` with step 1: the element at index `i` is
      `start + i`, and there are `max(0, stop - start)` of them. */
  function Range(start: int, stop: int): seq<int> {
    seq(if start < stop then stop - start else 0, i => start + i)
  }

  /** The filter `to`. */
  function To(value: int, arg: int): (r: seq<int>)
    ensures |r| == if value <= arg then arg - value + 1 else 0
    ensures arg < value <==> r == []
    ensures value <= arg ==> r[0] == value && r[|r| - 1] == arg
    ensures forall i :: 0 <= i < |r| ==> value <= r[i] <= arg
    ensures forall i :: 0 < i < |r| ==> r[i] == r[i - 1] + 1
    ensures forall i, j :: 0 <= i < j < |r| ==> r[i] < r[j]
  {
    Range(value, arg + 1)
  }

  /** An integer is in `to(value, arg)` exactly when it lies between the two
      bounds, both included. */
  lemma ToMembership(value: int, arg: int, x: int)
    ensures x in To(value, arg) <==> value <= x <= arg
  {
    if value <= x <= arg {
      assert To(value, arg)[x - value] == x;
    }
  }

  /** Reference definition of the inclusive range: count up one at a time
      from `lo` until `hi` is passed. */
  ghost function CountUp(lo: int, hi: int): seq<int>
    decreases hi - lo
  {
    if hi < lo then [] else [lo] + CountUp(lo + 1, hi)
  }

  /** `to` is the count from `value` up to `arg`. */
  lemma {:induction false} ToIsCountUp(value: int, arg: int)
    ensures To(value, arg) == CountUp(value, arg)
    decreases arg - value
  {
    if value <= arg {
      var r, rest := To(value, arg), To(value + 1, arg);
      assert |r| == 1 + |rest|;
      assert r[0] == value;
      assert forall i :: 0 <= i < |rest| ==> r[i + 1] == rest[i];
      assert r == [value] + rest;
      ToIsCountUp(value + 1, arg);
    }
  }
}
