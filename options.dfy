/**
 * The `OptionsValidation` mixin of `PrimeFinder`: the two checks and their
 * combination, together with the settings they inspect.
 *
 * A check is a Ruby method whose call either raises `InvalidOptions` or
 * returns a Ruby value; the value matters because `check_options_validity`
 * combines the checks with `&&`, which only evaluates its right operand when
 * the left one returned something truthy.
 */
module Options {

  /** The accessors `mode`, `quantity`, `from` and `to` of a `PrimeFinder`.
      A mode is the name of a Ruby symbol, so unknown modes can be written. */
  datatype Settings = Settings(mode: string, quantity: int, from: int, to: int)

  /** Which check raised `InvalidOptions`, with the values its message quotes. */
  datatype Error =
    | FromGreaterThanTo(from: int, to: int)
    | ModeNotRecognised(mode: string)

  /** What a call to a check does: raise, or return a value of some truthiness. */
  datatype Outcome = Raised(error: Error) | Returned(truthy: bool)

  /** `PrimeFinder::MODES`. */
  const MODES: seq<string> := ["find_x", "all", "first", "last"]

  /** `check_from_not_gt_to`: raises when `from > to`, otherwise returns the
      `nil` that `raise … if …` yields. */
  function CheckFromNotGtTo(from: int, to: int): Outcome
  {
    if from > to then Raised(FromGreaterThanTo(from, to)) else Returned(false)
  }

  /** `check_mode`: does nothing (returns `nil`) in an object that has no
      `mode` accessor; otherwise raises unless the mode is one of `MODES`,
      and returns `nil` when it is. */
  function CheckMode(respondsToMode: bool, mode: string): Outcome
  {
    if !respondsToMode then Returned(false)
    else if mode !in MODES then Raised(ModeNotRecognised(mode))
    else Returned(false)
  }

  /** Ruby's `left && right`: a raise in `left` propagates, a falsy `left`
      is the answer and `right` is never evaluated, otherwise `right` is. */
  function AndAlso(left: Outcome, right: Outcome): Outcome
  {
    match left
    case Raised(_) => left
    case Returned(truthy) => if truthy then right else left
  }

  /** `check_options_validity`: `check_from_not_gt_to && check_mode`. */
  function CheckOptionsValidity(respondsToMode: bool, s: Settings): Outcome
  {
    AndAlso(CheckFromNotGtTo(s.from, s.to), CheckMode(respondsToMode, s.mode))
  }

  /** `check_options_validity` raises exactly when `from > to`, and then
      with the `from`/`to` error; the mode never makes it raise, because the
      `nil` returned by `check_from_not_gt_to` short-circuits the `&&`. */
  lemma OptionsValidityIgnoresMode(respondsToMode: bool, s: Settings)
    ensures CheckOptionsValidity(respondsToMode, s).Raised? <==> s.from > s.to
    ensures CheckOptionsValidity(respondsToMode, s).Raised? ==>
              CheckOptionsValidity(respondsToMode, s).error == FromGreaterThanTo(s.from, s.to)
  {
  }

  /** `check_mode` in an object with a `mode` accessor raises exactly for a
      mode outside `MODES`, and then names that mode. */
  lemma CheckModeRejectsUnknown(mode: string)
    ensures CheckMode(true, mode).Raised? <==> mode !in MODES
    ensures CheckMode(true, mode).Raised? ==> CheckMode(true, mode).error == ModeNotRecognised(mode)
  {
  }

  /** In `Base`, which has no `mode` accessor, `check_mode` never raises. */
  lemma CheckModeInertWithoutAccessor(mode: string)
    ensures CheckMode(false, mode) == Returned(false)
  {
  }
}
