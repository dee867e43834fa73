/**
 * `PrimeFinder::Base` and its four subclasses. Ruby subclassing becomes one
 * class `Search` holding `Base`'s state, with one `Perform` method per
 * subclass; the subclass to run is chosen by the caller.
 */
module Strategies {
  import opened Wrappers
  import opened Options
  import opened Elimination

  /** The in-bounds values a fresh `All` search for `s` collects: the pool
      `[*1..to]` walked by the driver `[*2..(to / 2) + 1]`. */
  function AllResult(s: Settings): seq<int>
  {
    InRange(Extracted(Interval(1, s.to), Interval(2, s.to / 2 + 1)), s.from, s.to)
  }

  /** What a fresh `FindX` search for `s` returns. */
  function FindXResult(s: Settings): seq<int>
  {
    TakeInRange(Extracted(Interval(1, s.to), Interval(2, s.to / 2 + 1)), s.from, s.to, s.quantity, [])
  }

  /** The state of one strategy run. */
  class Search {
    /** The `PrimeFinder` the strategy delegates `from`, `to` and `quantity` to. */
    const settings: Settings
    /** The candidate pool, shrunk in place by `NextPrime`. */
    var possibilities: seq<int>
    /** The driver `perform` iterates over. */
    const range: seq<int>

    /** The pool stays ascending, the driver holds no zero, and the object
        passed `Base#initialize`'s check, so `from <= to`. */
    ghost predicate Valid()
      reads this
    {
      Ascending(possibilities) && Divisors(range) && settings.from <= settings.to
    }

    constructor (settings: Settings)
      requires settings.from <= settings.to
      ensures Valid()
      ensures this.settings == settings
      ensures possibilities == Interval(1, settings.to)
      ensures range == Interval(2, settings.to / 2 + 1)
    {
      this.settings := settings;
      possibilities := Interval(1, settings.to);
      range := Interval(2, settings.to / 2 + 1);
      new;
      IntervalAscending(1, settings.to);
    }

    /** `Base.new(settings)`: builds the pool and the driver, then runs
        `check_options_validity`, which in `Base` (no `mode` accessor)
        raises exactly when `from > to`. */
    static method New(settings: Settings) returns (r: Result<Search, Error>)
      ensures r.Err? <==> settings.from > settings.to
      ensures r.Err? ==> r.error == FromGreaterThanTo(settings.from, settings.to)
      ensures r.Ok? ==> fresh(r.value) && r.value.Valid() && r.value.settings == settings
      ensures r.Ok? ==> r.value.possibilities == Interval(1, settings.to)
      ensures r.Ok? ==> r.value.range == Interval(2, settings.to / 2 + 1)
    {
      match CheckOptionsValidity(false, settings)
      case Raised(e) =>
        r := Err(e);
      case Returned(_) =>
        OptionsValidityIgnoresMode(false, settings);
        var search := new Search(settings);
        r := Ok(search);
    }

    /** `Array#delete_if` with `next_prime`'s block: the survivors, in order. */
    static method DeleteIf(pool: seq<int>, k: int) returns (kept: seq<int>)
      requires k != 0
      ensures kept == Filter(pool, k)
    {
      kept := [];
      var j := 0;
      while j < |pool|
        invariant 0 <= j <= |pool|
        invariant kept + Filter(pool[j..], k) == Filter(pool, k)
      {
        var x := pool[j];
        DeleteIfStep(pool, j, k, kept);
        if !Eliminated(x, k) {
          kept := kept + [x];
        }
        j := j + 1;
      }
      assert pool[j..] == [];
    }

    /** One element decided by `delete_if`. */
    static lemma DeleteIfStep(pool: seq<int>, j: nat, k: int, kept: seq<int>)
      requires k != 0 && j < |pool|
      requires kept + Filter(pool[j..], k) == Filter(pool, k)
      ensures (if Eliminated(pool[j], k) then kept else kept + [pool[j]]) + Filter(pool[j + 1..], k) == Filter(pool, k)
    {
      FilterStep(pool, j, k);
      AppendAssoc(kept, [pool[j]], Filter(pool[j + 1..], k));
    }

    /** `next_prime(k)`: `delete_if` removes every element other than `1`
        that `k` divides, then `shift` removes and returns the smallest
        survivor, or `nil` when none is left. Nothing else changes. */
    method NextPrime(k: int) returns (r: Option<int>)
      requires Valid()
      requires k != 0
      modifies this`possibilities
      ensures Valid()
      ensures var f := Filter(old(possibilities), k);
        if f == [] then r == None && possibilities == []
        else r == Some(f[0]) && possibilities == f[1..]
      ensures r.Some? ==> forall x :: x in possibilities ==> r.value < x
    {
      var kept := DeleteIf(possibilities, k);
      FilterAscending(possibilities, k);
      possibilities := kept;
      if possibilities == [] {
        r := None;
      } else {
        AscendingTail(kept);
        r := Some(possibilities[0]);
        possibilities := possibilities[1..];
      }
    }

    /** One `next_prime` call unfolds `Extracted` by one step. */
    static lemma ExtractStep(pool: seq<int>, rng: seq<int>, i: nat)
      requires Divisors(rng)
      requires i < |rng|
      ensures Divisors(rng[i..]) && Divisors(rng[i + 1..])
      ensures var f := Filter(pool, rng[i]);
        Extracted(pool, rng[i..]) == if f == [] then [] else [f[0]] + Extracted(f[1..], rng[i + 1..])
    {
      assert rng[i..][1..] == rng[i + 1..];
    }

    /** One `next_prime` call advances `All`'s loop: the values still to
        collect and the pool still to be left lose one step. */
    static lemma AllStep(pool: seq<int>, rng: seq<int>, i: nat, from: int, to: int,
                         result: seq<int>, target: seq<int>, left: seq<int>)
      requires Divisors(rng)
      requires i < |rng|
      requires result + InRange(Extracted(pool, rng[i..]), from, to) == target
      requires Remaining(pool, rng[i..]) == left
      ensures Divisors(rng[i + 1..])
      ensures var f := Filter(pool, rng[i]);
        if f == [] then result == target && left == []
        else
          var result' := result + (if InBounds(f[0], from, to) then [f[0]] else []);
          result' + InRange(Extracted(f[1..], rng[i + 1..]), from, to) == target &&
          Remaining(f[1..], rng[i + 1..]) == left
    {
      ExtractStep(pool, rng, i);
      var f := Filter(pool, rng[i]);
      assert rng[i..][1..] == rng[i + 1..];
      if f == [] {
        assert result + [] == result;
      } else {
        var e := [f[0]] + Extracted(f[1..], rng[i + 1..]);
        assert e[1..] == Extracted(f[1..], rng[i + 1..]);
        var rest := InRange(Extracted(f[1..], rng[i + 1..]), from, to);
        if InBounds(f[0], from, to) {
          AppendAssoc(result, [f[0]], rest);
        } else {
          assert result + [] == result;
        }
      }
    }

    /** One `next_prime` call advances `FindX`'s loop. */
    static lemma FindXStep(pool: seq<int>, rng: seq<int>, i: nat, from: int, to: int, quantity: int,
                           result: seq<int>, target: seq<int>, left: seq<int>)
      requires Divisors(rng)
      requires i < |rng|
      requires TakeInRange(Extracted(pool, rng[i..]), from, to, quantity, result) == target
      requires RemainingFindX(pool, rng[i..], from, to, quantity, result) == left
      ensures Divisors(rng[i + 1..])
      ensures var f := Filter(pool, rng[i]);
        if f == [] then result == target && left == []
        else
          var result' := result + (if InBounds(f[0], from, to) then [f[0]] else []);
          if |result'| == quantity then result' == target && f[1..] == left
          else
            TakeInRange(Extracted(f[1..], rng[i + 1..]), from, to, quantity, result') == target &&
            RemainingFindX(f[1..], rng[i + 1..], from, to, quantity, result') == left
    {
      ExtractStep(pool, rng, i);
      var f := Filter(pool, rng[i]);
      assert rng[i..][1..] == rng[i + 1..];
      if f != [] {
        var e := [f[0]] + Extracted(f[1..], rng[i + 1..]);
        assert e[1..] == Extracted(f[1..], rng[i + 1..]);
      }
    }

    /** One `next_prime` call advances `First`'s loop. */
    static lemma FirstStep(pool: seq<int>, rng: seq<int>, i: nat, from: int, to: int,
                           target: seq<int>, left: seq<int>)
      requires Divisors(rng)
      requires i < |rng|
      requires InRange(Extracted(pool, rng[i..]), from, to) == target
      requires RemainingFirst(pool, rng[i..], from, to) == left
      ensures Divisors(rng[i + 1..])
      ensures var f := Filter(pool, rng[i]);
        if f == [] then target == [] && left == []
        else if InBounds(f[0], from, to) then target != [] && target[0] == f[0] && f[1..] == left
        else
          InRange(Extracted(f[1..], rng[i + 1..]), from, to) == target &&
          RemainingFirst(f[1..], rng[i + 1..], from, to) == left
    {
      ExtractStep(pool, rng, i);
      var f := Filter(pool, rng[i]);
      assert rng[i..][1..] == rng[i + 1..];
      if f != [] {
        var e := [f[0]] + Extracted(f[1..], rng[i + 1..]);
        assert e[1..] == Extracted(f[1..], rng[i + 1..]);
      }
    }

    /** `All#perform`: every extracted value within `[from, to]`, in order;
        the pool is left as the walk over the whole driver leaves it. */
    method PerformAll() returns (result: seq<int>)
      requires Valid()
      modifies this`possibilities
      ensures Valid()
      ensures result == InRange(Extracted(old(possibilities), range), settings.from, settings.to)
      ensures possibilities == Remaining(old(possibilities), range)
    {
      ghost var target := InRange(Extracted(possibilities, range), settings.from, settings.to);
      ghost var left := Remaining(possibilities, range);
      result := [];
      var i := 0;
      while i < |range|
        invariant 0 <= i <= |range|
        invariant Valid()
        invariant Divisors(range[i..])
        invariant result + InRange(Extracted(possibilities, range[i..]), settings.from, settings.to) == target
        invariant Remaining(possibilities, range[i..]) == left
      {
        AllStep(possibilities, range, i, settings.from, settings.to, result, target, left);
        var np := NextPrime(range[i]);
        if np.None? {
          return;
        }
        if InBounds(np.value, settings.from, settings.to) {
          result := result + [np.value];
        } else {
          assert result + [] == result;
        }
        i := i + 1;
      }
      EndOfDriver(possibilities, range, result, target, settings.from, settings.to);
    }

    /** When the driver is used up nothing more is collected and the pool
        stays as it is. */
    static lemma EndOfDriver(pool: seq<int>, rng: seq<int>, result: seq<int>, target: seq<int>, from: int, to: int)
      requires Divisors(rng)
      ensures rng[|rng|..] == []
      ensures result + InRange(Extracted(pool, rng[|rng|..]), from, to) == target ==> result == target
    {
      assert rng[|rng|..] == [];
      assert result + [] == result;
    }

    /** `FindX#perform`: `All`'s loop that also returns as soon as the
        result holds `quantity` values; the pool is left as that shorter
        walk leaves it. */
    method PerformFindX() returns (result: seq<int>)
      requires Valid()
      modifies this`possibilities
      ensures Valid()
      ensures result == TakeInRange(Extracted(old(possibilities), range), settings.from, settings.to, settings.quantity, [])
      ensures possibilities == RemainingFindX(old(possibilities), range, settings.from, settings.to, settings.quantity, [])
    {
      ghost var target := TakeInRange(Extracted(possibilities, range), settings.from, settings.to, settings.quantity, []);
      ghost var left := RemainingFindX(possibilities, range, settings.from, settings.to, settings.quantity, []);
      result := [];
      var i := 0;
      while i < |range|
        invariant 0 <= i <= |range|
        invariant Valid()
        invariant Divisors(range[i..])
        invariant TakeInRange(Extracted(possibilities, range[i..]), settings.from, settings.to, settings.quantity, result) == target
        invariant RemainingFindX(possibilities, range[i..], settings.from, settings.to, settings.quantity, result) == left
      {
        FindXStep(possibilities, range, i, settings.from, settings.to, settings.quantity, result, target, left);
        var np := NextPrime(range[i]);
        if np.None? {
          return;
        }
        if InBounds(np.value, settings.from, settings.to) {
          result := result + [np.value];
        } else {
          assert result + [] == result;
        }
        if |result| == settings.quantity {
          return;
        }
        i := i + 1;
      }
      assert range[i..] == [];
    }

    /** `First#perform`: the first extracted value within `[from, to]`, or
        none when the pool runs dry or the driver ends first; the pool is
        left as the walk up to that value leaves it. */
    method PerformFirst() returns (r: Option<int>)
      requires Valid()
      modifies this`possibilities
      ensures Valid()
      ensures var a := InRange(Extracted(old(possibilities), range), settings.from, settings.to);
        r == if a == [] then None else Some(a[0])
      ensures possibilities == RemainingFirst(old(possibilities), range, settings.from, settings.to)
    {
      ghost var target := InRange(Extracted(possibilities, range), settings.from, settings.to);
      ghost var left := RemainingFirst(possibilities, range, settings.from, settings.to);
      var i := 0;
      while i < |range|
        invariant 0 <= i <= |range|
        invariant Valid()
        invariant Divisors(range[i..])
        invariant InRange(Extracted(possibilities, range[i..]), settings.from, settings.to) == target
        invariant RemainingFirst(possibilities, range[i..], settings.from, settings.to) == left
      {
        FirstStep(possibilities, range, i, settings.from, settings.to, target, left);
        var np := NextPrime(range[i]);
        if np.None? {
          return None;
        }
        if InBounds(np.value, settings.from, settings.to) {
          return Some(np.value);
        }
        i := i + 1;
      }
      assert range[i..] == [];
      return None;
    }

    /** `Last#perform`: runs a fresh `All` search on the same settings and
        returns the last value it collects, or none when it collects none.
        The object's own pool is left alone. */
    method PerformLast() returns (r: Option<int>)
      requires Valid()
      ensures var a := AllResult(settings);
        r == if a == [] then None else Some(a[|a| - 1])
    {
      var created := New(settings);
      var all := created.value;
      var items := all.PerformAll();
      r := if items == [] then None else Some(items[|items| - 1]);
    }
  }
}
