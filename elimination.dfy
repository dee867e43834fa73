/**
 * The pure view of `Base`'s search state: the candidate pool
 * `possibilities`, the driver `range`, and what the elimination primitive
 * `next_prime` extracts from the pool as `range` is walked.
 */
module Elimination {

  /** Ruby's `[*lo..hi]`: the integers from `lo` to `hi` inclusive, empty
      when `hi < lo`. */
  function Interval(lo: int, hi: int): (r: seq<int>)
    ensures |r| == if hi < lo then 0 else hi - lo + 1
    ensures forall i :: 0 <= i < |r| ==> r[i] == lo + i
  {
    seq(if hi < lo then 0 else hi - lo + 1, i requires 0 <= i => lo + i)
  }

  /** Concatenation regroups freely. */
  lemma AppendAssoc(a: seq<int>, b: seq<int>, c: seq<int>)
    ensures a + (b + c) == (a + b) + c
  {
  }

  /** Strictly increasing. */
  ghost predicate Ascending(s: seq<int>)
  {
    forall i, j :: 0 <= i < j < |s| ==> s[i] < s[j]
  }

  /** Every element of `range` can be used as a divisor. */
  ghost predicate Divisors(rng: seq<int>)
  {
    forall i :: 0 <= i < |rng| ==> rng[i] != 0
  }

  /** Putting a value below every element in front of an ascending
      sequence keeps it ascending. */
  lemma AscendingCons(h: int, rest: seq<int>)
    requires Ascending(rest)
    requires forall x :: x in rest ==> h < x
    ensures Ascending([h] + rest)
  {
    var s := [h] + rest;
    forall i, j | 0 <= i < j < |s| ensures s[i] < s[j] {
      assert s[j] == rest[j - 1] && rest[j - 1] in rest;
      if i > 0 { assert s[i] == rest[i - 1]; }
    }
  }

  /** Removing the head of an ascending sequence leaves an ascending
      sequence whose elements all exceed the head. */
  lemma AscendingTail(s: seq<int>)
    requires Ascending(s) && s != []
    ensures Ascending(s[1..])
    ensures forall x :: x in s[1..] ==> s[0] < x
  {
    forall x | x in s[1..] ensures s[0] < x {
      var t :| 0 <= t < |s[1..]| && s[1..][t] == x;
      assert s[t + 1] == x;
    }
  }

  /** The block of `delete_if` in `next_prime`: an element other than `1`
      that `k` divides is removed. */
  predicate Eliminated(x: int, k: int)
    requires k != 0
  {
    x != 1 && x % k == 0
  }

  /** `delete_if` decides the element at `j` and moves on. */
  lemma FilterStep(p: seq<int>, j: nat, k: int)
    requires k != 0 && j < |p|
    ensures Filter(p[j..], k) == (if Eliminated(p[j], k) then [] else [p[j]]) + Filter(p[j + 1..], k)
  {
    assert p[j..][1..] == p[j + 1..];
  }

  /** `delete_if` decides each element on its own, so it distributes over
      concatenation. */
  lemma {:induction false} FilterConcat(a: seq<int>, b: seq<int>, k: int)
    requires k != 0
    ensures Filter(a + b, k) == Filter(a, k) + Filter(b, k)
  {
    if a != [] {
      var hit := if Eliminated(a[0], k) then [] else [a[0]];
      FilterConcat(a[1..], b, k);
      assert (a + b)[0] == a[0] && (a + b)[1..] == a[1..] + b;
      assert Filter(a + b, k) == hit + Filter(a[1..] + b, k);
      assert Filter(a, k) == hit + Filter(a[1..], k);
      AppendAssoc(hit, Filter(a[1..], k), Filter(b, k));
    } else {
      assert a + b == b;
    }
  }

  /** `possibilities` after `delete_if`: the survivors, in their order. */
  function Filter(p: seq<int>, k: int): seq<int>
    requires k != 0
  {
    if p == [] then []
    else (if Eliminated(p[0], k) then [] else [p[0]]) + Filter(p[1..], k)
  }

  /** The values successive `next_prime(i)` calls return, `i` running over
      `rng` from the pool `p`, up to the first `nil` (or the end of `rng`). */
  function Extracted(p: seq<int>, rng: seq<int>): seq<int>
    requires Divisors(rng)
    decreases rng
  {
    if rng == [] then []
    else
      var f := Filter(p, rng[0]);
      if f == [] then [] else [f[0]] + Extracted(f[1..], rng[1..])
  }

  /** The pool `All`'s walk leaves behind: what is left when the driver
      ends, or the empty pool once `next_prime` has found it empty. */
  function Remaining(p: seq<int>, rng: seq<int>): seq<int>
    requires Divisors(rng)
    decreases rng
  {
    if rng == [] then p
    else
      var f := Filter(p, rng[0]);
      if f == [] then [] else Remaining(f[1..], rng[1..])
  }

  /** Whatever the walk leaves in the pool was in the pool before it, and
      exceeds every value the walk extracted. */
  lemma {:induction false} RemainingMembers(p: seq<int>, rng: seq<int>, x: int)
    requires Divisors(rng)
    requires Ascending(p)
    requires x in Remaining(p, rng)
    ensures x in p
    ensures forall y :: y in Extracted(p, rng) ==> y < x
    decreases rng
  {
    if rng != [] {
      var f := Filter(p, rng[0]);
      FilterAscending(p, rng[0]);
      assert f != [];
      DivisorsTail(rng);
      AscendingTail(f);
      RemainingMembers(f[1..], rng[1..], x);
      FilterMembers(p, rng[0], x);
      assert Extracted(p, rng) == [f[0]] + Extracted(f[1..], rng[1..]);
    }
  }

  /** Dropping the first driver element keeps the driver free of zeros. */
  lemma DivisorsTail(rng: seq<int>)
    requires Divisors(rng) && rng != []
    ensures Divisors(rng[1..])
  {
    forall i | 0 <= i < |rng[1..]| ensures rng[1..][i] != 0 {
      assert rng[1..][i] == rng[i + 1];
    }
  }

  /** The test `np >= from && np <= to` of `perform`. */
  predicate InBounds(x: int, from: int, to: int)
  {
    from <= x && x <= to
  }

  /** The extracted values that pass the bounds test, in order: what `All`
      appends to its result. */
  function InRange(e: seq<int>, from: int, to: int): seq<int>
  {
    if e == [] then []
    else (if InBounds(e[0], from, to) then [e[0]] else []) + InRange(e[1..], from, to)
  }

  /** `FindX`'s loop on the extracted values: append a value that passes the
      bounds test to `acc`, and stop as soon as `acc.size == quantity`. */
  function TakeInRange(e: seq<int>, from: int, to: int, quantity: int, acc: seq<int>): seq<int>
  {
    if e == [] then acc
    else
      var acc' := acc + (if InBounds(e[0], from, to) then [e[0]] else []);
      if |acc'| == quantity then acc' else TakeInRange(e[1..], from, to, quantity, acc')
  }

  /** The pool `FindX`'s walk leaves behind: as `Remaining`, but the walk
      also stops right after the call that brings `acc` to `quantity`. */
  function RemainingFindX(p: seq<int>, rng: seq<int>, from: int, to: int, quantity: int, acc: seq<int>): seq<int>
    requires Divisors(rng)
    decreases rng
  {
    if rng == [] then p
    else
      var f := Filter(p, rng[0]);
      if f == [] then []
      else
        var acc' := acc + (if InBounds(f[0], from, to) then [f[0]] else []);
        if |acc'| == quantity then f[1..] else RemainingFindX(f[1..], rng[1..], from, to, quantity, acc')
  }

  /** The pool `First`'s walk leaves behind: as `Remaining`, but the walk
      also stops right after the call that extracts an in-bounds value. */
  function RemainingFirst(p: seq<int>, rng: seq<int>, from: int, to: int): seq<int>
    requires Divisors(rng)
    decreases rng
  {
    if rng == [] then p
    else
      var f := Filter(p, rng[0]);
      if f == [] then []
      else if InBounds(f[0], from, to) then f[1..]
      else RemainingFirst(f[1..], rng[1..], from, to)
  }

  /** The first `n` elements of `s`, or all of `s` when it is shorter. */
  function Take(s: seq<int>, n: nat): (r: seq<int>)
    ensures |r| <= n && r <= s
    ensures |s| <= n ==> r == s
  {
    if |s| <= n then s else s[..n]
  }

  /** `delete_if` keeps exactly the elements of the pool that the block
      does not select. */
  lemma {:induction false} FilterMembers(p: seq<int>, k: int, x: int)
    requires k != 0
    ensures x in Filter(p, k) <==> x in p && !Eliminated(x, k)
  {
    if p != [] {
      FilterMembers(p[1..], k, x);
      assert p == [p[0]] + p[1..];
    }
  }

  /** `delete_if` only removes, so an ascending pool stays ascending. */
  lemma {:induction false} FilterAscending(p: seq<int>, k: int)
    requires k != 0
    requires Ascending(p)
    ensures Ascending(Filter(p, k))
  {
    if p != [] {
      FilterAscending(p[1..], k);
      var rest := Filter(p[1..], k);
      forall x | x in rest ensures p[0] < x {
        FilterMembers(p[1..], k, x);
        var j :| 0 <= j < |p[1..]| && p[1..][j] == x;
        assert p[j + 1] == x;
      }
      if !Eliminated(p[0], k) {
        AscendingCons(p[0], rest);
      }
    }
  }

  /** The pool `[*1..to]` that `Base#initialize` builds is ascending. */
  lemma IntervalAscending(lo: int, hi: int)
    ensures Ascending(Interval(lo, hi))
  {
  }

  /** Every value `next_prime` extracts came from the pool, and successive
      values strictly increase. */
  lemma {:induction false} ExtractedAscending(p: seq<int>, rng: seq<int>)
    requires Divisors(rng)
    requires Ascending(p)
    ensures Ascending(Extracted(p, rng))
    ensures forall x :: x in Extracted(p, rng) ==> x in p
    decreases rng
  {
    if rng != [] {
      var f := Filter(p, rng[0]);
      FilterAscending(p, rng[0]);
      if f != [] {
        assert Divisors(rng[1..]) by {
          forall i | 0 <= i < |rng[1..]| ensures rng[1..][i] != 0 {
            assert rng[1..][i] == rng[i + 1];
          }
        }
        ExtractedAscending(f[1..], rng[1..]);
        var rest := Extracted(f[1..], rng[1..]);
        forall x | x in rest ensures f[0] < x && x in p {
          var j :| 0 <= j < |f[1..]| && f[1..][j] == x;
          assert f[j + 1] == x;
          FilterMembers(p, rng[0], x);
        }
        FilterMembers(p, rng[0], f[0]);
        AscendingCons(f[0], rest);
        assert Extracted(p, rng) == [f[0]] + rest;
      }
    }
  }

  /** At most one value is extracted per element of `range`, and never more
      than the pool holds: the search loops are bounded by `|range|`. */
  lemma {:induction false} ExtractedLength(p: seq<int>, rng: seq<int>)
    requires Divisors(rng)
    ensures |Extracted(p, rng)| <= |rng|
    ensures |Extracted(p, rng)| <= |p|
    decreases rng
  {
    if rng != [] {
      var f := Filter(p, rng[0]);
      FilterLength(p, rng[0]);
      if f != [] {
        assert Divisors(rng[1..]) by {
          forall i | 0 <= i < |rng[1..]| ensures rng[1..][i] != 0 {
            assert rng[1..][i] == rng[i + 1];
          }
        }
        ExtractedLength(f[1..], rng[1..]);
      }
    }
  }

  /** `delete_if` never grows the pool. */
  lemma {:induction false} FilterLength(p: seq<int>, k: int)
    requires k != 0
    ensures |Filter(p, k)| <= |p|
  {
    if p != [] {
      FilterLength(p[1..], k);
    }
  }

  /** The driver `[*2..(to / 2) + 1]` has `max(0, to / 2)` elements; Ruby's
      floor division and Dafny's `/` agree for the divisor 2. */
  lemma RangeLength(to: int)
    ensures |Interval(2, to / 2 + 1)| == if to / 2 < 0 then 0 else to / 2
  {
  }

  /** Every value `InRange` keeps was extracted and passes the bounds test,
      and every extracted value that passes it is kept. */
  lemma {:induction false} InRangeMembers(e: seq<int>, from: int, to: int, x: int)
    ensures x in InRange(e, from, to) <==> x in e && InBounds(x, from, to)
  {
    if e != [] {
      InRangeMembers(e[1..], from, to, x);
      assert e == [e[0]] + e[1..];
    }
  }

  /** Keeping the in-bounds values of an ascending sequence leaves it
      ascending. */
  lemma {:induction false} InRangeAscending(e: seq<int>, from: int, to: int)
    requires Ascending(e)
    ensures Ascending(InRange(e, from, to))
  {
    if e != [] {
      InRangeAscending(e[1..], from, to);
      forall x | x in InRange(e[1..], from, to) ensures e[0] < x {
        InRangeMembers(e[1..], from, to, x);
        var j :| 0 <= j < |e[1..]| && e[1..][j] == x;
        assert e[j + 1] == x;
      }
      if InBounds(e[0], from, to) {
        AscendingCons(e[0], InRange(e[1..], from, to));
      }
    }
  }

  /** For `quantity >= 1`, `FindX`'s loop started with `acc` shorter than
      `quantity` returns `acc` followed by the first in-bounds values, as
      many as are needed to reach `quantity` or as many as there are. */
  lemma {:induction false} TakeInRangeIsPrefix(e: seq<int>, from: int, to: int, quantity: int, acc: seq<int>)
    requires |acc| < quantity
    ensures TakeInRange(e, from, to, quantity, acc) == acc + Take(InRange(e, from, to), quantity - |acc|)
  {
    if e != [] {
      var rest := InRange(e[1..], from, to);
      var n := quantity - |acc|;
      InRangeUnfold(e, from, to);
      if InBounds(e[0], from, to) {
        TakeCons(e[0], rest, n);
        if |acc| + 1 == quantity {
          TakeInRangeStops(e, from, to, quantity, acc);
          assert Take(rest, 0) == [];
          AppendAssoc(acc, [e[0]], []);
        } else {
          TakeInRangeGoesOn(e, from, to, quantity, acc);
          TakeInRangeIsPrefix(e[1..], from, to, quantity, acc + [e[0]]);
          AppendAssoc(acc, [e[0]], Take(rest, n - 1));
        }
      } else {
        TakeInRangeGoesOn(e, from, to, quantity, acc);
        assert acc + [] == acc;
        TakeInRangeIsPrefix(e[1..], from, to, quantity, acc);
      }
    }
  }

  /** `InRange` takes one value off the front. */
  lemma InRangeUnfold(e: seq<int>, from: int, to: int)
    requires e != []
    ensures InRange(e, from, to) == (if InBounds(e[0], from, to) then [e[0]] else []) + InRange(e[1..], from, to)
  {
  }

  /** `FindX`'s loop returns once the in-bounds head brings `acc` to
      `quantity`. */
  lemma TakeInRangeStops(e: seq<int>, from: int, to: int, quantity: int, acc: seq<int>)
    requires e != [] && InBounds(e[0], from, to) && |acc| + 1 == quantity
    ensures TakeInRange(e, from, to, quantity, acc) == acc + [e[0]]
  {
  }

  /** `FindX`'s loop goes on past a head that does not bring `acc` to
      `quantity`. */
  lemma TakeInRangeGoesOn(e: seq<int>, from: int, to: int, quantity: int, acc: seq<int>)
    requires e != [] && |acc| < quantity
    requires !(InBounds(e[0], from, to) && |acc| + 1 == quantity)
    ensures InBounds(e[0], from, to) ==>
      TakeInRange(e, from, to, quantity, acc) == TakeInRange(e[1..], from, to, quantity, acc + [e[0]])
    ensures !InBounds(e[0], from, to) ==>
      TakeInRange(e, from, to, quantity, acc) == TakeInRange(e[1..], from, to, quantity, acc)
  {
    assert acc + [] == acc;
  }

  /** Taking `n >= 1` elements of `[h] + s` is `h` followed by `n - 1` of `s`. */
  lemma TakeCons(h: int, s: seq<int>, n: nat)
    requires n >= 1
    ensures Take([h] + s, n) == [h] + Take(s, n - 1)
  {
    if |s| + 1 > n {
      assert ([h] + s)[..n] == [h] + s[..n - 1];
    }
  }

  /** Once `acc` is longer than `quantity` the `==` test can no longer fire,
      and `FindX`'s loop keeps every in-bounds value, as `All` does; with
      `acc` empty this is the case of a negative `quantity`. */
  lemma {:induction false} TakeInRangePastQuantity(e: seq<int>, from: int, to: int, quantity: int, acc: seq<int>)
    requires quantity < |acc|
    ensures TakeInRange(e, from, to, quantity, acc) == acc + InRange(e, from, to)
  {
    if e != [] {
      var hit := if InBounds(e[0], from, to) then [e[0]] else [];
      TakeInRangePastQuantity(e[1..], from, to, quantity, acc + hit);
      assert InRange(e, from, to) == hit + InRange(e[1..], from, to);
    }
  }

  /** `FindX`'s loop only adds in-bounds values to `acc`. */
  lemma {:induction false} TakeInRangeMembers(e: seq<int>, from: int, to: int, quantity: int, acc: seq<int>, x: int)
    requires x in TakeInRange(e, from, to, quantity, acc)
    ensures x in acc || InBounds(x, from, to)
  {
    if e != [] {
      var acc' := acc + (if InBounds(e[0], from, to) then [e[0]] else []);
      if |acc'| != quantity {
        TakeInRangeMembers(e[1..], from, to, quantity, acc', x);
      }
    }
  }

  /** Keeping the in-bounds values never lengthens a sequence. */
  lemma {:induction false} InRangeLength(e: seq<int>, from: int, to: int)
    ensures |InRange(e, from, to)| <= |e|
  {
    if e != [] {
      InRangeLength(e[1..], from, to);
    }
  }

  /** With `quantity == 0`, `FindX`'s loop returns nothing when the first
      extracted value fails the bounds test (or there is none), and every
      in-bounds value otherwise. */
  lemma TakeInRangeZero(e: seq<int>, from: int, to: int)
    ensures TakeInRange(e, from, to, 0, []) == if e != [] && InBounds(e[0], from, to) then InRange(e, from, to) else []
  {
    var empty: seq<int> := [];
    if e != [] && InBounds(e[0], from, to) {
      assert empty + [e[0]] == [e[0]];
      TakeInRangePastQuantity(e[1..], from, to, 0, [e[0]]);
      InRangeUnfold(e, from, to);
    } else if e != [] {
      assert empty + [] == empty;
    }
  }

  /** `FindX`'s loop against `All`'s on the same extracted values, for every
      `quantity`. */
  lemma TakeInRangeAgainstInRange(e: seq<int>, from: int, to: int, quantity: int)
    ensures quantity >= 1 ==> TakeInRange(e, from, to, quantity, []) == Take(InRange(e, from, to), quantity)
    ensures quantity < 0 ==> TakeInRange(e, from, to, quantity, []) == InRange(e, from, to)
    ensures quantity == 0 ==>
      TakeInRange(e, from, to, quantity, []) == if e != [] && InBounds(e[0], from, to) then InRange(e, from, to) else []
    ensures forall x :: x in TakeInRange(e, from, to, quantity, []) ==> from <= x <= to
  {
    var empty: seq<int> := [];
    if quantity >= 1 {
      TakeInRangeIsPrefix(e, from, to, quantity, []);
      assert empty + Take(InRange(e, from, to), quantity) == Take(InRange(e, from, to), quantity);
    } else if quantity < 0 {
      TakeInRangePastQuantity(e, from, to, quantity, []);
      assert empty + InRange(e, from, to) == InRange(e, from, to);
    } else {
      TakeInRangeZero(e, from, to);
    }
    TakeInRangeBounds(e, from, to, quantity);
  }

  /** Started empty, `FindX`'s loop returns only in-bounds values. */
  lemma TakeInRangeBounds(e: seq<int>, from: int, to: int, quantity: int)
    ensures forall x :: x in TakeInRange(e, from, to, quantity, []) ==> from <= x <= to
  {
    forall x | x in TakeInRange(e, from, to, quantity, []) ensures from <= x <= to {
      TakeInRangeMembers(e, from, to, quantity, [], x);
    }
  }
}
