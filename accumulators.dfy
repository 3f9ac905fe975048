/** `Accumulators.sum()`: integer addition packaged as a stateless strategy
    object, meant to be folded over a sequence by a reduction. */
module Accumulators {
  import opened Sequences

  /** The only accumulator shipped; it carries no fields, so every instance
      behaves alike. */
  datatype SumAccumulator = SumAccumulator
  {
    /** `apply(prev, next)` is `prev + next`; 0 is an identity on both
        sides. */
    function Apply(prev: int, next: int): (r: int)
      ensures prev == 0 ==> r == next
      ensures next == 0 ==> r == prev
    {
      prev + next
    }
  }

  /** `Accumulators.sum()`: an accumulator whose `apply` adds. */
  function Sum(): (acc: SumAccumulator)
    ensures forall prev, next :: acc.Apply(prev, next) == prev + next
  {
    SumAccumulator
  }

  /** The mathematical sum of a sequence, as a reference definition. */
  function SumOf(s: seq<int>): int
  {
    if |s| == 0 then 0 else s[0] + SumOf(s[1..])
  }

  lemma {:induction false} FoldApplyFrom(acc: SumAccumulator, start: int, s: seq<int>)
    ensures FoldLeft(acc.Apply, start, s) == start + SumOf(s)
    decreases |s|
  {
    if |s| > 0 {
      FoldApplyFrom(acc, acc.Apply(start, s[0]), s[1..]);
    }
  }

  /** Left-folding `apply` from 0, as a reduction does, sums the sequence. */
  lemma FoldApplyIsSum(acc: SumAccumulator, s: seq<int>)
    ensures FoldLeft(acc.Apply, 0, s) == SumOf(s)
  {
    FoldApplyFrom(acc, 0, s);
  }
}
