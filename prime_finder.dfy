/**
 * `PrimeFinder` itself: construction from keyword options with defaults,
 * the mode-to-class-name mapping, and `find`, which dispatches to one of the
 * four strategies.
 */
module PrimeFinder {
  import opened Wrappers
  import opened Options
  import opened Elimination
  import opened Strategies

  /** The keyword arguments of `PrimeFinder.new`; a missing key is `None`. */
  datatype Opts = Opts(mode: Option<string>, quantity: Option<int>, from: Option<int>, to: Option<int>)

  const DEFAULT_MODE: string := "find_x"
  const DEFAULT_QUANTITY: int := 100
  const DEFAULT_FROM: int := 1
  const DEFAULT_TO: int := 1000

  /** `opts.fetch(key, default)`. */
  function Fetch<T>(o: Option<T>, default: T): T
  {
    match o
    case Some(v) => v
    case None => default
  }

  /** `PrimeFinder#initialize`: fills the four accessors from the options or
      their defaults and runs `check_options_validity`. */
  function New(opts: Opts): (r: Result<Settings, Error>)
    ensures var from, to := Fetch(opts.from, DEFAULT_FROM), Fetch(opts.to, DEFAULT_TO);
      (r.Err? <==> from > to) &&
      (r.Err? ==> r.error == FromGreaterThanTo(from, to))
    ensures r.Ok? ==>
      r.value == Settings(Fetch(opts.mode, DEFAULT_MODE), Fetch(opts.quantity, DEFAULT_QUANTITY),
                          Fetch(opts.from, DEFAULT_FROM), Fetch(opts.to, DEFAULT_TO))
  {
    var s := Settings(Fetch(opts.mode, DEFAULT_MODE), Fetch(opts.quantity, DEFAULT_QUANTITY),
                      Fetch(opts.from, DEFAULT_FROM), Fetch(opts.to, DEFAULT_TO));
    OptionsValidityIgnoresMode(true, s);
    match CheckOptionsValidity(true, s)
    case Raised(e) => Err(e)
    case Returned(_) => Ok(s)
  }

  /** Construction succeeds whatever the mode, recognised or not, as long as
      `from <= to`. */
  lemma NewAcceptsAnyMode(mode: string, quantity: int, from: int, to: int)
    requires from <= to
    ensures New(Opts(Some(mode), Some(quantity), Some(from), Some(to))) == Ok(Settings(mode, quantity, from, to))
  {
  }

  // ----- `mode_klazz`: split the mode on `_`, capitalise each field, join
  // the fields and prefix `PrimeFinder::`

  /** The fields joined back together with `_` between them. */
  function JoinFields(ws: seq<string>): string
    requires |ws| >= 1
  {
    if |ws| == 1 then ws[0] else ws[0] + "_" + JoinFields(ws[1..])
  }

  /** Joining a field that starts with `c` puts `c` in front of the join. */
  lemma JoinFieldsCons(c: char, ws: seq<string>)
    requires |ws| >= 1
    ensures JoinFields([[c] + ws[0]] + ws[1..]) == [c] + JoinFields(ws)
  {
    var vs := [[c] + ws[0]] + ws[1..];
    assert vs[0] == [c] + ws[0];
    assert vs[1..] == ws[1..];
    if |ws| > 1 {
      var w, t := ws[0], JoinFields(ws[1..]);
      assert JoinFields(ws) == w + "_" + t;
      assert JoinFields(vs) == ([c] + w) + "_" + t;
      ConsBeforeJoin(c, w, t);
    }
  }

  /** Regrouping `[c] + w + "_" + t`. */
  lemma ConsBeforeJoin(c: char, w: string, t: string)
    ensures ([c] + w) + "_" + t == [c] + (w + "_" + t)
  {
  }

  /** `String#split('_')`: the pieces between the underscores, which join
      back to the string. Ruby also drops trailing empty fields; they
      capitalise to nothing, so the joined class name is the same. */
  function Split(s: string): (r: seq<string>)
    ensures |r| >= 1
    ensures forall i :: 0 <= i < |r| ==> '_' !in r[i]
    ensures JoinFields(r) == s
  {
    if s == [] then [""]
    else
      var rest := Split(s[1..]);
      assert s == [s[0]] + s[1..];
      if s[0] == '_' then
        assert ([""] + rest)[1..] == rest;
        [""] + rest
      else
        JoinFieldsCons(s[0], rest);
        [[s[0]] + rest[0]] + rest[1..]
  }

  function Upcase(c: char): char
  {
    if 'a' <= c <= 'z' then (c as int - 32) as char else c
  }

  function Downcase(c: char): char
  {
    if 'A' <= c <= 'Z' then (c as int + 32) as char else c
  }

  function DowncaseAll(s: string): string
  {
    if s == [] then [] else [Downcase(s[0])] + DowncaseAll(s[1..])
  }

  /** `String#capitalize` on ASCII: first letter upper case, the rest lower. */
  function Capitalize(w: string): string
  {
    if w == [] then [] else [Upcase(w[0])] + DowncaseAll(w[1..])
  }

  /** `.map(&:capitalize).join`. */
  function CapitalizeJoin(ws: seq<string>): string
  {
    if ws == [] then [] else Capitalize(ws[0]) + CapitalizeJoin(ws[1..])
  }

  /** `mode_klazz`. */
  function ModeClassName(mode: string): string
  {
    "PrimeFinder::" + CapitalizeJoin(Split(mode))
  }

  /** The four strategy classes nested in `PrimeFinder`. */
  datatype Strategy = FindX | All | First | Last

  /** `Object.const_get` restricted to the strategy classes. */
  function StrategyOf(className: string): Option<Strategy>
  {
    if className == "PrimeFinder::FindX" then Some(FindX)
    else if className == "PrimeFinder::All" then Some(All)
    else if className == "PrimeFinder::First" then Some(First)
    else if className == "PrimeFinder::Last" then Some(Last)
    else None
  }

  /** A word without `_` splits into itself. */
  lemma {:induction false} SplitWord(w: string)
    requires '_' !in w
    ensures Split(w) == [w]
  {
    if w != [] {
      SplitWord(w[1..]);
      assert [w[0]] + w[1..] == w;
    }
  }

  /** A word without `_` followed by `_` is split off as the first field. */
  lemma {:induction false} SplitField(a: string, b: string)
    requires '_' !in a
    ensures Split(a + "_" + b) == [a] + Split(b)
  {
    var s := a + "_" + b;
    if a == [] {
      assert s[1..] == b;
    } else {
      assert s[1..] == a[1..] + "_" + b;
      SplitField(a[1..], b);
      assert [a[0]] + a[1..] == a;
    }
  }

  /** `DowncaseAll` leaves a word without capitals alone. */
  lemma {:induction false} DowncaseAllLower(w: string)
    requires forall i :: 0 <= i < |w| ==> !('A' <= w[i] <= 'Z')
    ensures DowncaseAll(w) == w
  {
    if w != [] {
      DowncaseAllLower(w[1..]);
      assert [w[0]] + w[1..] == w;
    }
  }

  /** `capitalize` on a word whose letters after the first are already
      lower case only upcases the first. */
  lemma CapitalizeLower(w: string)
    requires w != []
    requires forall i :: 0 < i < |w| ==> !('A' <= w[i] <= 'Z')
    ensures Capitalize(w) == [Upcase(w[0])] + w[1..]
  {
    DowncaseAllLower(w[1..]);
  }

  /** The class name of a mode without `_` is the capitalised mode. */
  lemma ClassNameWord(w: string)
    requires '_' !in w
    ensures ModeClassName(w) == "PrimeFinder::" + Capitalize(w)
  {
    SplitWord(w);
    assert [w][1..] == [];
    assert CapitalizeJoin([w]) == Capitalize(w) + [];
  }

  /** The class name of a mode `a_b` joins the capitalised halves. */
  lemma ClassNameTwoWords(a: string, b: string)
    requires '_' !in a && '_' !in b
    ensures ModeClassName(a + "_" + b) == "PrimeFinder::" + Capitalize(a) + Capitalize(b)
  {
    SplitField(a, b);
    SplitWord(b);
    assert [a] + [b] == [a, b];
    assert [a, b][1..] == [b] && [b][1..] == [];
    assert CapitalizeJoin([b]) == Capitalize(b) + [];
    assert CapitalizeJoin([a, b]) == Capitalize(a) + CapitalizeJoin([b]);
  }

  /** `"find".capitalize` is `"Find"`. */
  lemma CapitalizeFind()
    ensures Capitalize("find") == "Find"
  {
    CapitalizeLower("find");
    assert [Upcase('f')] + "find"[1..] == "Find";
  }

  /** `"x".capitalize` is `"X"`. */
  lemma CapitalizeX()
    ensures Capitalize("x") == "X"
  {
    CapitalizeLower("x");
    assert [Upcase('x')] + "x"[1..] == "X";
  }

  /** `"all".capitalize` is `"All"`. */
  lemma CapitalizeAll()
    ensures Capitalize("all") == "All"
  {
    CapitalizeLower("all");
    assert [Upcase('a')] + "all"[1..] == "All";
  }

  /** `"first".capitalize` is `"First"`. */
  lemma CapitalizeFirst()
    ensures Capitalize("first") == "First"
  {
    CapitalizeLower("first");
    assert [Upcase('f')] + "first"[1..] == "First";
  }

  /** `"last".capitalize` is `"Last"`. */
  lemma CapitalizeLast()
    ensures Capitalize("last") == "Last"
  {
    CapitalizeLower("last");
    assert [Upcase('l')] + "last"[1..] == "Last";
  }

  /** `mode_klazz` for `find_x` names `FindX`. */
  lemma ClassNameFindX()
    ensures ModeClassName("find_x") == "PrimeFinder::FindX"
  {
    assert "find_x" == "find" + "_" + "x";
    ClassNameTwoWords("find", "x");
    CapitalizeFind();
    CapitalizeX();
  }

  /** `mode_klazz` for `all` names `All`. */
  lemma ClassNameAll()
    ensures ModeClassName("all") == "PrimeFinder::All"
  {
    ClassNameWord("all");
    CapitalizeAll();
  }

  /** `mode_klazz` for `first` names `First`. */
  lemma ClassNameFirst()
    ensures ModeClassName("first") == "PrimeFinder::First"
  {
    ClassNameWord("first");
    CapitalizeFirst();
  }

  /** `mode_klazz` for `last` names `Last`. */
  lemma ClassNameLast()
    ensures ModeClassName("last") == "PrimeFinder::Last"
  {
    ClassNameWord("last");
    CapitalizeLast();
  }

  /** The strategy class named after each recognised mode. */
  function ModeStrategy(mode: string): Strategy
    requires mode in MODES
  {
    if mode == "find_x" then FindX
    else if mode == "all" then All
    else if mode == "first" then First
    else Last
  }

  /** `find_x` resolves to `FindX`. */
  lemma DispatchFindX()
    ensures StrategyOf(ModeClassName("find_x")) == Some(ModeStrategy("find_x"))
  {
    ClassNameFindX();
  }

  /** `all` resolves to `All`. */
  lemma DispatchAll()
    ensures StrategyOf(ModeClassName("all")) == Some(ModeStrategy("all"))
  {
    ClassNameAll();
  }

  /** `first` resolves to `First`. */
  lemma DispatchFirst()
    ensures StrategyOf(ModeClassName("first")) == Some(ModeStrategy("first"))
  {
    ClassNameFirst();
  }

  /** `last` resolves to `Last`. */
  lemma DispatchLast()
    ensures StrategyOf(ModeClassName("last")) == Some(ModeStrategy("last"))
  {
    ClassNameLast();
  }

  /** Every recognised mode resolves, through `mode_klazz` and
      `Object.const_get`, to the strategy class of its own name. */
  lemma ModeDispatch(mode: string)
    requires mode in MODES
    ensures StrategyOf(ModeClassName(mode)) == Some(ModeStrategy(mode))
  {
    assert mode == "find_x" || mode == "all" || mode == "first" || mode == "last";
    if mode == "find_x" {
      DispatchFindX();
    } else if mode == "all" {
      DispatchAll();
    } else if mode == "first" {
      DispatchFirst();
    } else {
      DispatchLast();
    }
  }

  /** What `find` returns on success: a collection for `FindX` and `All`,
      a single value or `nil` for `First` and `Last`. */
  datatype Answer = Collection(items: seq<int>) | Single(value: Option<int>)

  /** `find`'s last step: look up the strategy class named by `mode_klazz`,
      build it on these settings (its `Base#initialize` re-checks
      `from <= to`, which can fail if the accessors were changed after
      construction) and run its `perform` on fresh state. */
  method Run(strategy: Strategy, s: Settings) returns (r: Result<Answer, Error>)
    ensures s.from > s.to ==> r == Err(FromGreaterThanTo(s.from, s.to))
    ensures s.from <= s.to && strategy == FindX ==> r == Ok(Collection(FindXResult(s)))
    ensures s.from <= s.to && strategy == All ==> r == Ok(Collection(AllResult(s)))
    ensures s.from <= s.to && strategy == First ==>
      r == Ok(Single(if AllResult(s) == [] then None else Some(AllResult(s)[0])))
    ensures s.from <= s.to && strategy == Last ==>
      r == Ok(Single(if AllResult(s) == [] then None else Some(AllResult(s)[|AllResult(s)| - 1])))
  {
    var created := Search.New(s);
    if created.Err? {
      return Err(created.error);
    }
    var search := created.value;
    match strategy
    case FindX =>
      var items := search.PerformFindX();
      r := Ok(Collection(items));
    case All =>
      var items := search.PerformAll();
      r := Ok(Collection(items));
    case First =>
      var value := search.PerformFirst();
      r := Ok(Single(value));
    case Last =>
      var value := search.PerformLast();
      r := Ok(Single(value));
  }

  /** `PrimeFinder#find`: `check_mode` rejects an unrecognised mode (which
      construction let through); otherwise the strategy class `mode_klazz`
      names is run. The answer depends on the settings alone, so repeated
      calls give equal answers. */
  method Find(s: Settings) returns (r: Result<Answer, Error>)
    ensures s.mode !in MODES ==> r == Err(ModeNotRecognised(s.mode))
    ensures s.mode in MODES && s.from > s.to ==> r == Err(FromGreaterThanTo(s.from, s.to))
    ensures s.from <= s.to && s.mode == "find_x" ==> r == Ok(Collection(FindXResult(s)))
    ensures s.from <= s.to && s.mode == "all" ==> r == Ok(Collection(AllResult(s)))
    ensures s.from <= s.to && s.mode == "first" ==>
      r == Ok(Single(if AllResult(s) == [] then None else Some(AllResult(s)[0])))
    ensures s.from <= s.to && s.mode == "last" ==>
      r == Ok(Single(if AllResult(s) == [] then None else Some(AllResult(s)[|AllResult(s)| - 1])))
  {
    var checked := CheckMode(true, s.mode);
    if checked.Raised? {
      return Err(checked.error);
    }
    ModeDispatch(s.mode);
    var strategy := StrategyOf(ModeClassName(s.mode)).value;
    r := Run(strategy, s);
  }

  // ----- What the strategies' results are, for all settings

  /** `All` collects values within `[from, to]`, strictly ascending, and no
      more than there are elements in the driver. */
  lemma {:induction false} AllBoundsAndOrder(s: Settings)
    ensures forall x :: x in AllResult(s) ==> s.from <= x <= s.to && 1 <= x
    ensures Ascending(AllResult(s))
    ensures |AllResult(s)| <= |Interval(2, s.to / 2 + 1)|
  {
    var pool, rng := Interval(1, s.to), Interval(2, s.to / 2 + 1);
    var e := Extracted(pool, rng);
    IntervalAscending(1, s.to);
    ExtractedAscending(pool, rng);
    ExtractedLength(pool, rng);
    InRangeAscending(e, s.from, s.to);
    InRangeLength(e, s.from, s.to);
    forall x | x in AllResult(s) ensures s.from <= x <= s.to && 1 <= x {
      InRangeMembers(e, s.from, s.to, x);
    }
  }

  /** For `quantity >= 1`, `FindX` returns the first `quantity` values of
      `All`'s result (all of it when it is shorter), so at most `quantity`
      values. For a negative `quantity` the `==` test never fires and it
      returns all of `All`'s result; for `quantity == 0` it returns nothing
      when the first extracted value fails the bounds test (or nothing is
      extracted), and all of `All`'s result otherwise. Every value it
      returns lies within `[from, to]`. */
  lemma FindXAgainstAll(s: Settings)
    ensures s.quantity >= 1 ==> FindXResult(s) == Take(AllResult(s), s.quantity)
    ensures s.quantity >= 1 ==> |FindXResult(s)| <= s.quantity && FindXResult(s) <= AllResult(s)
    ensures s.quantity < 0 ==> FindXResult(s) == AllResult(s)
    ensures var e := Extracted(Interval(1, s.to), Interval(2, s.to / 2 + 1));
      s.quantity == 0 ==>
        FindXResult(s) == if e != [] && InBounds(e[0], s.from, s.to) then AllResult(s) else []
    ensures forall x :: x in FindXResult(s) ==> s.from <= x <= s.to
  {
    var e := Extracted(Interval(1, s.to), Interval(2, s.to / 2 + 1));
    TakeInRangeAgainstInRange(e, s.from, s.to, s.quantity);
  }
}
