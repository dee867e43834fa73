/**
 * The search traced for `from = 1, to = 10`. Because `delete_if` also
 * removes `i` itself, the values extracted are 1, 5 and 7 and then the pool
 * runs dry; the answers are not the primes up to 10.
 */
module Scenarios {
  import opened Wrappers
  import opened Options
  import opened Elimination
  import opened Strategies
  import PrimeFinder

  /** `next_prime(2)` on `[*1..10]` keeps 1 and the odd numbers. */
  lemma FirstElimination()
    ensures Filter(Interval(1, 10), 2) == [1, 3, 5, 7, 9]
  {
    assert Interval(1, 10) == [1, 2, 3, 4, 5] + [6, 7, 8, 9, 10];
    FilterConcat([1, 2, 3, 4, 5], [6, 7, 8, 9, 10], 2);
    assert Filter([1, 2, 3, 4, 5], 2) == [1, 3, 5];
    assert Filter([6, 7, 8, 9, 10], 2) == [7, 9];
  }

  /** `next_prime(3)` on what is left, `[3, 5, 7, 9]`, also removes 3. */
  lemma SecondElimination()
    ensures Filter([3, 5, 7, 9], 3) == [5, 7]
  {
  }

  /** `next_prime(4)` on `[7]` returns 7 and `next_prime(5)` finds the pool
      empty. */
  lemma LastExtractions()
    ensures Extracted([7], [4, 5, 6]) == [7]
  {
    assert Filter([7], 4) == [7];
    assert Filter([], 5) == [];
    assert [4, 5, 6][1..] == [5, 6];
    assert [7][1..] == [];
    assert Extracted([], [5, 6]) == [];
  }

  /** On `[3, 5, 7, 9]`, `next_prime(3)` then `next_prime(4)` return 5 and
      7, and the last two divisors find nothing left. */
  lemma MiddleExtractions()
    ensures Extracted([3, 5, 7, 9], [3, 4, 5, 6]) == [5, 7]
  {
    SecondElimination();
    LastExtractions();
    assert [3, 4, 5, 6][1..] == [4, 5, 6];
    assert [5, 7][1..] == [7];
  }

  /** The values `next_prime(2)`, `next_prime(3)`, `next_prime(4)` return
      from the pool `[*1..10]`, after which `next_prime(5)` finds it empty. */
  lemma ExtractedOneToTen()
    ensures Extracted(Interval(1, 10), Interval(2, 6)) == [1, 5, 7]
  {
    var rng := Interval(2, 6);
    assert rng == [2, 3, 4, 5, 6];
    FirstExtraction(Interval(1, 10), rng);
    MiddleExtractions();
  }

  /** `next_prime(2)` on `[*1..10]` returns 1 and leaves `[3, 5, 7, 9]`. */
  lemma FirstExtraction(pool: seq<int>, rng: seq<int>)
    requires pool == Interval(1, 10) && rng == [2, 3, 4, 5, 6]
    ensures Extracted(pool, rng) == [1] + Extracted([3, 5, 7, 9], [3, 4, 5, 6])
  {
    FirstElimination();
    assert rng[1..] == [3, 4, 5, 6];
    assert [1, 3, 5, 7, 9][1..] == [3, 5, 7, 9];
  }

  /** With `from = 1, to = 10`, `All` answers `[1, 5, 7]`, so `First`
      answers 1 and `Last` answers 7. */
  lemma AllOneToTen(mode: string, quantity: int)
    ensures AllResult(Settings(mode, quantity, 1, 10)) == [1, 5, 7]
  {
    ExtractedOneToTen();
    var e: seq<int> := [1, 5, 7];
    assert e[1..] == [5, 7] && e[1..][1..] == [7] && e[1..][1..][1..] == [];
    assert InRange([7], 1, 10) == [7];
    assert InRange([5, 7], 1, 10) == [5, 7];
    assert InRange(e, 1, 10) == [1, 5, 7];
  }

  /** With `from = 1, to = 10`, `FindX` with `quantity = 2` answers `[1, 5]`. */
  lemma FindXOneToTen(mode: string)
    ensures FindXResult(Settings(mode, 2, 1, 10)) == [1, 5]
  {
    ExtractedOneToTen();
    var e: seq<int> := [1, 5, 7];
    assert e[1..] == [5, 7];
    var empty: seq<int> := [];
    assert empty + [1] == [1] && [1] + [5] == [1, 5];
    assert TakeInRange(e[1..], 1, 10, 2, [1]) == [1, 5];
  }

  /** `from = 10, to = 1` is refused at construction, whatever the mode. */
  lemma RefusedTenToOne(mode: string)
    ensures PrimeFinder.New(PrimeFinder.Opts(Some(mode), None, Some(10), Some(1)))
      == Err(FromGreaterThanTo(10, 1))
  {
  }
}
