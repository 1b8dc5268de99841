/** Helper predicates: the callable test and the inclusive range check with
    optional bounds. */
module Utility {
  import opened Wrappers
  import opened Values
  import opened Functions

  /** `is_callable`: the built-in `callable()`. */
  function IsCallable(fn: Value): (r: bool)
    ensures r <==> ValidateCallable(fn, "fn") == None
  {
    Callable(fn)
  }

  /** Functions of any arity are callable; numbers and strings are not. */
  lemma IsCallableExamples(n: nat, i: int, s: string)
    ensures IsCallable(VCallable(n))
    ensures !IsCallable(VInt(i)) && !IsCallable(VStr(s))
  {
  }

  /** `in_inclusive_range`: a missing bound does not restrict that side. */
  function InInclusiveRange(count: int, minCount: Option<int>, maxCount: Option<int>): bool {
    if minCount.None? && maxCount.None? then true
    else if minCount.None? then count <= maxCount.value
    else if maxCount.None? then minCount.value <= count
    else minCount.value <= count <= maxCount.value
  }

  /** The range check holds exactly when each present bound is respected. */
  lemma InInclusiveRangeIff(count: int, minCount: Option<int>, maxCount: Option<int>)
    ensures InInclusiveRange(count, minCount, maxCount)
            <==> (minCount.None? || minCount.value <= count) && (maxCount.None? || count <= maxCount.value)
  {
  }

  /** Bounds in the wrong order admit nothing. */
  lemma ReversedBoundsAdmitNothing(count: int, lo: int, hi: int)
    requires lo > hi
    ensures !InInclusiveRange(count, Some(lo), Some(hi))
  {
  }

  /** `a` restricts the lower side no more than `b`: absent, or a smaller
      minimum. */
  predicate LowerNoTighter(a: Option<int>, b: Option<int>) {
    a.None? || (b.Some? && a.value <= b.value)
  }

  /** `a` restricts the upper side no more than `b`: absent, or a larger
      maximum. */
  predicate UpperNoTighter(a: Option<int>, b: Option<int>) {
    a.None? || (b.Some? && a.value >= b.value)
  }

  /** Lowering the minimum, raising the maximum or dropping a bound never
      turns a pass into a failure. */
  lemma WideningKeepsPass(count: int, minCount: Option<int>, maxCount: Option<int>,
                          minCount': Option<int>, maxCount': Option<int>)
    requires InInclusiveRange(count, minCount, maxCount)
    requires LowerNoTighter(minCount', minCount) && UpperNoTighter(maxCount', maxCount)
    ensures InInclusiveRange(count, minCount', maxCount')
  {
    InInclusiveRangeIff(count, minCount, maxCount);
    InInclusiveRangeIff(count, minCount', maxCount');
  }
}
