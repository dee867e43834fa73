# prime_numbers: a Dafny model of `PrimeFinder`

`PrimeFinder` is a small Ruby utility. It is built from keyword options
(`mode`, `quantity`, `from`, `to`, defaulting to `:find_x`, 100, 1 and 1000),
validates them, and on `find` runs one of four search strategies over the
candidate pool `[*1..to]`. The strategies walk the driver `[*2..(to / 2) + 1]`
and call the elimination primitive `next_prime(i)` once per driver element.
`next_prime` deletes in place every pool element other than 1 that `i`
divides, then shifts off and returns the smallest survivor, or `nil`.
- `FindX` collects the first `quantity` extracted values that lie in `[from, to]`.
- `All` collects every extracted value that lies in `[from, to]`.
- `First` returns the first such value.
- `Last` returns the last value of a fresh `All` run.

The code does not compute primes, and this model follows the code. The
`delete_if` block also removes `i` itself. For `from = 1, to = 10` the
extracted values are 1, 5, 7 and then `nil`, so `All` answers `[1, 5, 7]`,
not `[2, 3, 5, 7]` (`Scenarios.AllOneToTen`). The model proves ordering,
bounds, prefix relations and error conditions, never primality.

Two more behaviours of the code may be unexpected, and the model follows
the code in both.
- Construction never checks the mode. `check_options_validity` is
  `check_from_not_gt_to && check_mode`, and `check_from_not_gt_to` returns
  `nil` when it does not raise, so the `&&` stops there. An unknown mode is
  rejected only by `find`.
- `quantity` is never validated. A `quantity` of 0 or less makes `FindX`
  behave as its `==` test dictates (`PrimeFinder.FindXAgainstAll`).

Layout, one module per part of `prime_numbers.rb`:
- `wrappers.dfy`: `Option` (Ruby `nil` or a value) and `Result` (a raise or a return).
- `options.dfy`: module `Options`. It holds the `OptionsValidation` mixin: the
  accessors as `Settings`, the `InvalidOptions` causes as `Error`, and the checks.
  Each check's outcome is a `Raised` error or a `Returned` value with a
  truthiness, and Ruby's `&&` is written out as `AndAlso`.
- `elimination.dfy`: module `Elimination`. It holds the pure view of the search:
  `Filter` (the pool after `delete_if`), `Extracted` (the values successive
  `next_prime` calls return), `InRange` (what `All` keeps) and `TakeInRange`
  (`FindX`'s loop), with their lemmas.
- `strategies.dfy`: module `Strategies`. Class `Search` holds `Base`'s state:
  the mutable `possibilities` sequence and the constant `range`. It has
  `next_prime` and one `Perform` method per subclass. `DeleteIf` (the
  `delete_if` inside `next_prime`), `PerformAll`, `PerformFindX` and
  `PerformFirst` are while-loops; `NextPrime` calls `DeleteIf`, and
  `PerformLast` runs a fresh `All` search. Each is proved against the
  functions of `Elimination`.
- `prime_finder.dfy`: module `PrimeFinder`. It holds construction with
  defaults, `mode_klazz` (split on `_`, capitalise ASCII, join), class lookup,
  and `find`.
- `scenarios.dfy`: the concrete trace for `from = 1, to = 10`, and the
  refusal of `from = 10, to = 1` at construction.

The definitions below have no contract of their own; the lemmas in the
table state what they mean. Each models these source lines:

- `Options.CheckFromNotGtTo`: prime_numbers.rb:21-23.
- `Options.CheckMode`: prime_numbers.rb:25-28.
- `Options.CheckOptionsValidity`: prime_numbers.rb:30-32.
- `Elimination.Filter`: the `delete_if` at prime_numbers.rb:96.
- `Elimination.Extracted`: successive `next_prime` calls (prime_numbers.rb:95-97) over the driver.
- `PrimeFinder.ModeClassName`: prime_numbers.rb:62-64.
- `PrimeFinder.StrategyOf`: the `Object.const_get` at prime_numbers.rb:57.

## Model

| member | source | states |
|---|---|---|
| `Options.OptionsValidityIgnoresMode` | prime_numbers.rb:21-32 | `check_options_validity` raises exactly when `from > to`, and then with the from/to error, whatever the mode and whether the object has a `mode` accessor. |
| `Options.CheckModeRejectsUnknown` | prime_numbers.rb:25-28 | With a `mode` accessor, `check_mode` raises exactly for a mode outside `MODES = [find_x, all, first, last]`, naming that mode. |
| `Options.CheckModeInertWithoutAccessor` | prime_numbers.rb:26 | In `Base`, which has no `mode` accessor, `check_mode` returns `nil` and never raises. |
| `PrimeFinder.New` | prime_numbers.rb:41-53 | Construction fails exactly when the fetched `from` exceeds the fetched `to`, with the from/to error. Otherwise the settings are the given options, or the defaults `find_x`, 100, 1 and 1000. |
| `PrimeFinder.NewAcceptsAnyMode` | prime_numbers.rb:30-32 | Any mode, recognised or not, is accepted at construction when `from <= to`. |
| `PrimeFinder.Split` | prime_numbers.rb:63 | `split('_')` yields at least one field, no field contains `_`, and the fields joined with `_` give the mode back. |
| `PrimeFinder.ClassNameFindX` | prime_numbers.rb:62-64 | `mode_klazz` maps `find_x` to `PrimeFinder::FindX`. |
| `PrimeFinder.ClassNameAll` | prime_numbers.rb:62-64 | `mode_klazz` maps `all` to `PrimeFinder::All`. |
| `PrimeFinder.ClassNameFirst` | prime_numbers.rb:62-64 | `mode_klazz` maps `first` to `PrimeFinder::First`. |
| `PrimeFinder.ClassNameLast` | prime_numbers.rb:62-64 | `mode_klazz` maps `last` to `PrimeFinder::Last`. |
| `PrimeFinder.ModeDispatch` | prime_numbers.rb:57 | Every recognised mode resolves through `mode_klazz` and `const_get` to the strategy class of its own name. |
| `PrimeFinder.Run` | prime_numbers.rb:57 | Building the strategy fails with the from/to error when `from > to`. Otherwise each strategy returns its result on fresh state: `FindX` the `FindX` result, `All` the `All` result, `First` the head of the `All` result or none, and `Last` its last element or none. |
| `PrimeFinder.Find` | prime_numbers.rb:55-58 | An unrecognised mode fails with the mode error. A recognised mode with `from > to` fails with the from/to error. Otherwise `find_x`, `all`, `first` and `last` run `FindX`, `All`, `First` and `Last` respectively. The answer depends only on the settings, so repeated calls agree. |
| `PrimeFinder.AllBoundsAndOrder` | prime_numbers.rb:120-127 | Every value `All` returns lies in `[from, to]` and is at least 1. The result is strictly ascending and has at most `\|range\|` values. |
| `PrimeFinder.FindXAgainstAll` | prime_numbers.rb:105-114 | For `quantity >= 1`, `FindX` returns the first `quantity` values of `All`'s result, so at most `quantity` of them and a prefix of it. A negative `quantity` gives all of `All`'s result. `quantity == 0` gives nothing, or all of `All`'s result when the first extracted value is in bounds. Every value lies in `[from, to]`. |
| `Elimination.FilterMembers` | prime_numbers.rb:96 | `delete_if` keeps exactly the pool elements that are 1 or not divisible by `i`. |
| `Elimination.FilterAscending` | prime_numbers.rb:96 | `delete_if` keeps an ascending pool ascending. |
| `Elimination.FilterConcat` | prime_numbers.rb:96 | `delete_if` decides each element on its own, so filtering a concatenation is the concatenation of the filtered parts. |
| `Elimination.RemainingMembers` | prime_numbers.rb:95-97 | Whatever the successive `next_prime` calls leave in the pool was in it before, and exceeds every value they returned. |
| `Elimination.FilterLength` | prime_numbers.rb:96 | `delete_if` never grows the pool. |
| `Elimination.IntervalAscending` | prime_numbers.rb:76 | The pool `[*1..to]` is strictly ascending. |
| `Elimination.ExtractedAscending` | prime_numbers.rb:95-97 | Values extracted by successive `next_prime` calls come from the pool and strictly increase. |
| `Elimination.ExtractedLength` | prime_numbers.rb:76-78 | At most one value is extracted per driver element, and never more than the pool holds. |
| `Elimination.RangeLength` | prime_numbers.rb:77-78 | The driver `[*2..(to / 2) + 1]` has `max(0, to / 2)` elements, which bounds every `perform` loop. |
| `Elimination.InRangeMembers` | prime_numbers.rb:123 | `All` keeps exactly the extracted values in `[from, to]`. |
| `Elimination.InRangeAscending` | prime_numbers.rb:123 | Keeping the in-bounds values of an ascending sequence leaves it ascending. |
| `Elimination.InRangeLength` | prime_numbers.rb:123 | Keeping the in-bounds values never lengthens the sequence. |
| `Elimination.TakeInRangeIsPrefix` | prime_numbers.rb:106-111 | While the result is shorter than `quantity`, `FindX`'s loop ends with the current result followed by as many in-bounds values as are needed to reach `quantity`, or as many as remain. |
| `Elimination.TakeInRangePastQuantity` | prime_numbers.rb:110 | Once the result is longer than `quantity`, the `==` test never fires, and `FindX`'s loop keeps every in-bounds value. |
| `Elimination.TakeInRangeAgainstInRange` | prime_numbers.rb:106-111 | `FindX`'s loop, from an empty result, gives the first `quantity` in-bounds values for `quantity >= 1`, every in-bounds value for a negative `quantity`, and for `quantity == 0` nothing or everything depending on the first extracted value. Every value it keeps lies in `[from, to]`. |
| `Elimination.TakeInRangeMembers` | prime_numbers.rb:108 | `FindX`'s loop adds only in-bounds values. |
| `Strategies.Search.New` | prime_numbers.rb:74-83 | `Base.new` fails exactly when `from > to`, with the from/to error. Otherwise the object is fresh and valid, with pool `[*1..to]` and driver `[*2..(to / 2) + 1]`. |
| `Strategies.Search.DeleteIf` | prime_numbers.rb:96 | The `delete_if` loop leaves exactly `Filter` of the pool. |
| `Strategies.Search.NextPrime` | prime_numbers.rb:95-97 | The pool becomes the old pool filtered and then without its head. The result is that head, or none when the filtered pool is empty. Every remaining element exceeds the result, the pool stays ascending, and only the pool changes. |
| `Strategies.Search.PerformAll` | prime_numbers.rb:120-127 | `All#perform` returns the in-bounds values, in order, of what `next_prime` extracts from the current pool over the driver. It leaves the pool that the whole walk over the driver leaves (`Remaining`). |
| `Strategies.Search.PerformFindX` | prime_numbers.rb:105-114 | `FindX#perform` returns what `TakeInRange` gives for the extracted values. Its meaning is stated by `PrimeFinder.FindXAgainstAll`. It leaves the pool as it was when the loop stopped (`RemainingFindX`): once the result reaches `quantity`, the rest of the driver is not walked. |
| `Strategies.Search.PerformFirst` | prime_numbers.rb:131-136 | `First#perform` returns the first in-bounds extracted value, or none when there is none. It leaves the pool as it was after that value was extracted (`RemainingFirst`), or after the whole walk when nothing was in bounds. |
| `Strategies.Search.PerformLast` | prime_numbers.rb:139-143 | `Last#perform` returns the last value of a fresh `All` run on the same settings, or none when that run collects nothing. The object's own pool is left alone. |
| `Scenarios.ExtractedOneToTen` | prime_numbers.rb:95-97 | From `[*1..10]` with the driver `[2..6]`, `next_prime` returns 1, 5, 7 and then `nil`. |
| `Scenarios.AllOneToTen` | prime_numbers.rb:120-127 | For `from = 1, to = 10`, `All` answers `[1, 5, 7]`, whatever the mode and quantity. |
| `Scenarios.FindXOneToTen` | prime_numbers.rb:105-114 | For `from = 1, to = 10` and `quantity = 2`, `FindX` answers `[1, 5]`. |
| `Scenarios.RefusedTenToOne` | prime_numbers.rb:21-23 | `from = 10, to = 1` is refused at construction with the from/to error, whatever the mode. |

## Left out

- Error message text (prime_numbers.rb:12-19) is not modelled. `Error` records which check failed and the values the message quotes.
- `Object.const_get` is modelled only for the four strategy class names (`StrategyOf`). `find` reaches it only with a recognised mode.
- `mode_klazz` lower-cases and upper-cases ASCII letters only. Ruby's Unicode case mapping is not modelled.
- `Split` keeps trailing empty fields, which Ruby's `split` drops. Empty fields capitalise to nothing, so the joined class name is the same.
- `Forwardable` delegation, `attr_accessor` and the `CollectionResult` mixin are not modelled as such. A strategy holds the settings it delegates to. The `result` accumulator is a local variable of each `Perform` method.
- `counter` (prime_numbers.rb:79) is set but never read, so it is not modelled.
- `Base#perform` raising `NotImplementedError` (prime_numbers.rb:85-87) is not modelled: `find` never builds a bare `Base`.
- Changing the accessors after construction is not modelled as mutation. Instead, `Find` accepts any `Settings`, including an unknown mode or `from > to`.
- Options of other Ruby types (non-integer bounds or quantity, non-symbol modes) are not modelled. All four options are integers or strings.
- `next_prime(0)` would raise `ZeroDivisionError`. `NextPrime` requires a non-zero argument, because the driver holds only integers of 2 and up.
- `Strategies.Search.New` runs `Base#initialize`'s check before building the pool and the driver, the reverse of the source's order. Building them has no visible effect, so the outcome is the same.
- `Strategies.Search.PerformFirst` returns none when the driver ends without an in-bounds value. In that case Ruby's `range.each` returns the `range` array itself (prime_numbers.rb:132-135).
