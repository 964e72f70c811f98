/** The measure of copied lines between two source trees. */
module SharedRun {

  /** Lines `lo` up to `hi` of the candidate all occur in the reference. */
  predicate Shared(candidate: seq<string>, reference: set<string>, lo: nat, hi: nat)
    requires lo <= hi <= |candidate|
  {
    forall i | lo <= i < hi :: candidate[i] in reference
  }

  /** No shared block ending by `n` is longer than `length`, and none as long begins
      before `start`. */
  ghost predicate Earliest(candidate: seq<string>, reference: set<string>, n: nat, start: nat, length: nat)
    requires n <= |candidate|
  {
    forall lo, hi | 0 <= lo <= hi <= n && Shared(candidate, reference, lo, hi) ::
      hi - lo < length || (hi - lo == length && start <= lo)
  }

  /** When the line before the last `run` ones is not shared, no shared block ending
      here is longer than that. */
  lemma BlocksEndingHere(candidate: seq<string>, reference: set<string>, run: nat, hi: nat)
    requires run <= hi <= |candidate|
    requires run < hi ==> candidate[hi - run - 1] !in reference
    ensures forall lo | 0 <= lo <= hi && Shared(candidate, reference, lo, hi) :: hi - run <= lo
  {
    if run < hi {
      forall lo | 0 <= lo <= hi && Shared(candidate, reference, lo, hi) ensures hi - run <= lo {
        assert !(lo <= hi - run - 1 < hi);
      }
    }
  }

  /** `longest_shared_run`: a block of the candidate lying wholly in the reference,
      longer than every such block that ends earlier and at least as long as every
      other, so the earliest of the longest ones. */
  method LongestSharedRun(candidate: seq<string>, reference: set<string>)
    returns (length: nat, best: seq<string>, ghost start: nat)
    ensures length == |best| && start + length <= |candidate| && best == candidate[start..start + length]
    ensures Shared(candidate, reference, start, start + length)
    ensures forall lo, hi | 0 <= lo <= hi <= |candidate| && Shared(candidate, reference, lo, hi) :: hi - lo <= length
    ensures forall lo, hi | 0 <= lo <= hi <= |candidate| && Shared(candidate, reference, lo, hi) && hi - lo == length ::
      start <= lo
  {
    best := [];
    start := 0;
    var current: seq<string> := [];
    for i := 0 to |candidate|
      invariant |current| <= i && current == candidate[i - |current|..i]
      invariant Shared(candidate, reference, i - |current|, i)
      invariant |current| < i ==> candidate[i - |current| - 1] !in reference
      invariant start + |best| <= i && best == candidate[start..start + |best|]
      invariant Shared(candidate, reference, start, start + |best|)
      invariant Earliest(candidate, reference, i, start, |best|)
    {
      if candidate[i] in reference {
        current := current + [candidate[i]];
        if |current| > |best| {
          best := current;
          start := i + 1 - |current|;
        }
      } else {
        current := [];
      }
      BlocksEndingHere(candidate, reference, |current|, i + 1);
    }
    length := |best|;
  }
}
