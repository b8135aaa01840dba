/**
 * The scenario game component: its three pieces of state (scenario, loading,
 * feedback), the load and choice handlers, the view it renders, and the impact
 * labels on each option button.
 */
module Game {
  import opened Wrappers
  import opened Types
  import opened App
  import opened Gemini

  // ---------------------------------------------------------------------------
  // Numbers as the page prints them
  // ---------------------------------------------------------------------------

  predicate IsDigit(c: char) {
    '0' <= c <= '9'
  }

  function DigitChar(d: int): (c: char)
    requires 0 <= d < 10
    ensures IsDigit(c) && c as int - '0' as int == d
  {
    ('0' as int + d) as char
  }

  /** The decimal digits of a natural number, most significant first, without leading zeros. */
  function NatDigits(n: nat): (s: string)
    ensures |s| > 0 && forall k :: 0 <= k < |s| ==> IsDigit(s[k])
    ensures |s| > 1 ==> s[0] != '0'
  {
    if n < 10 then [DigitChar(n)] else NatDigits(n / 10) + [DigitChar(n % 10)]
  }

  /** `String(n)` for a whole number. */
  function Decimal(n: int): (s: string)
    ensures |s| > 0
    ensures s[0] == '-' <==> n < 0
  {
    if n < 0 then "-" + NatDigits(-n) else NatDigits(n)
  }

  /** The value of a non-empty string of decimal digits. */
  function ParseNat(s: string): (r: Option<nat>)
    ensures r.Some? <==> |s| > 0 && forall k :: 0 <= k < |s| ==> IsDigit(s[k])
    decreases |s|
  {
    if |s| == 0 || !IsDigit(s[|s| - 1]) then None
    else
      var d := s[|s| - 1] as int - '0' as int;
      if |s| == 1 then Some(d)
      else
        match ParseNat(s[..|s| - 1])
        case None => None
        case Some(v) => Some(v * 10 + d)
  }

  /** The value of an optionally negative decimal numeral. */
  function ParseInt(s: string): Option<int> {
    if |s| > 0 && s[0] == '-' then
      match ParseNat(s[1..])
      case None => None
      case Some(v) => Some(0 - v as int)
    else
      match ParseNat(s)
      case None => None
      case Some(v) => Some(v)
  }

  lemma {:induction false} ParseNatDigits(n: nat)
    ensures ParseNat(NatDigits(n)) == Some(n)
    decreases n
  {
    if n >= 10 {
      var s := NatDigits(n);
      ParseNatDigits(n / 10);
      assert s[..|s| - 1] == NatDigits(n / 10);
    }
  }

  /** Printing a number and reading it back gives the number. */
  lemma DecimalRoundTrip(n: int)
    ensures ParseInt(Decimal(n)) == Some(n)
  {
    if n < 0 {
      ParseNatDigits(-n);
      assert Decimal(n)[1..] == NatDigits(-n);
    } else {
      ParseNatDigits(n);
    }
  }

  /** A number as a JSX child: React renders an absent (undefined) child as nothing. */
  function ShowNumber(v: Option<int>): (s: string)
    ensures v.None? ==> s == ""
    ensures v.Some? ==> ParseInt(s) == Some(v.value)
  {
    if v.None? then "" else (DecimalRoundTrip(v.value); Decimal(v.value))
  }

  // ---------------------------------------------------------------------------
  // Impact labels
  // ---------------------------------------------------------------------------

  /** A label's text and whether it is coloured as a gain. */
  datatype Label = Label(text: string, gain: bool)

  /** `v! > 0` on an optional number: an absent field is not positive. */
  predicate Positive(v: Option<int>) {
    v.Some? && v.value > 0
  }

  function Sign(v: Option<int>): string {
    if Positive(v) then "+" else ""
  }

  /**
   * The savings label: shown unless the field is exactly 0. An absent field is
   * not `!== 0`-equal to 0, so its label shows, with no number after the rupee sign.
   */
  function SavingsLabel(v: Option<int>): (r: Option<Label>)
    ensures r.Some? <==> v != Some(0)
    ensures r.Some? ==> (r.value.gain <==> Positive(v))
    ensures r.Some? ==> r.value.text == (if Positive(v) then "+" else "") + "₹" + (if v.None? then "" else Decimal(v.value))
  {
    if v == Some(0) then None else Some(Label(Sign(v) + "₹" + ShowNumber(v), Positive(v)))
  }

  /** The happiness label, the same rule with a `% Happy` suffix. */
  function HappinessLabel(v: Option<int>): (r: Option<Label>)
    ensures r.Some? <==> v != Some(0)
    ensures r.Some? ==> (r.value.gain <==> Positive(v))
    ensures r.Some? ==> r.value.text == (if Positive(v) then "+" else "") + (if v.None? then "" else Decimal(v.value)) + "% Happy"
  {
    if v == Some(0) then None else Some(Label(Sign(v) + ShowNumber(v) + "% Happy", Positive(v)))
  }

  /**
   * A savings label reads back as its value: a `+` exactly when the value is
   * positive, the rupee sign, then the number.
   */
  lemma SavingsLabelReadsBack(n: int)
    requires n != 0
    ensures var text := SavingsLabel(Some(n)).value.text;
      var skip := if n > 0 then 1 else 0;
      && (text[0] == '+' <==> n > 0)
      && text[skip] == '₹'
      && ParseInt(text[skip + 1..]) == Some(n)
  {
    var text := SavingsLabel(Some(n)).value.text;
    DecimalRoundTrip(n);
    if n > 0 {
      assert text == "+" + "₹" + Decimal(n);
      assert text[2..] == Decimal(n);
    } else {
      assert text == "₹" + Decimal(n);
      assert text[1..] == Decimal(n);
    }
  }

  /** A happiness label reads back likewise, before its suffix. */
  lemma HappinessLabelReadsBack(n: int)
    requires n != 0
    ensures var text := HappinessLabel(Some(n)).value.text;
      var skip := if n > 0 then 1 else 0;
      && (text[0] == '+' <==> n > 0)
      && |text| >= skip + 7
      && text[|text| - 7..] == "% Happy"
      && ParseInt(text[skip..|text| - 7]) == Some(n)
  {
    var text := HappinessLabel(Some(n)).value.text;
    DecimalRoundTrip(n);
    if n > 0 {
      assert text == "+" + Decimal(n) + "% Happy";
      assert text[1..|text| - 7] == Decimal(n);
    } else {
      assert text == Decimal(n) + "% Happy";
      assert text[..|text| - 7] == Decimal(n);
    }
  }

  // ---------------------------------------------------------------------------
  // The view
  // ---------------------------------------------------------------------------

  /** What the component body shows. */
  datatype View = Spinner | Choices(options: seq<ScenarioOption>) | NoOptions | ResultView(feedback: string) | RetryView

  /** The theme badge: the scenario's theme, or `General` when it is missing or empty. */
  function ThemeLabel(s: ParsedScenario): (r: string)
    ensures Truthy(s.theme) ==> r == s.theme.value
    ensures !Truthy(s.theme) ==> r == "General"
    ensures r != ""
  {
    if Truthy(s.theme) then s.theme.value else "General"
  }

  /**
   * A scenario of the declared type shows its own theme, and the safety check
   * never changes the badge.
   */
  lemma ThemeLabelDeclared(g: GameScenario, s: ParsedScenario)
    ensures ThemeLabel(Declared(g)) == ThemeName(g.theme)
    ensures ThemeLabel(Normalise(s)) == ThemeLabel(s)
  {
    ThemeNameRoundTrip(g.theme);
  }

  /**
   * The nested conditional of the render: loading first, then the scenario; with a
   * scenario, an empty or missing feedback shows the options (or the "No options"
   * message), and any other feedback shows the result.
   */
  function ViewOf(loading: bool, scenario: Option<ParsedScenario>, feedback: Option<string>): (v: View)
    ensures v.Spinner? <==> loading
    ensures v.RetryView? <==> !loading && scenario.None?
    ensures v.ResultView? <==> !loading && scenario.Some? && Truthy(feedback)
    ensures v.ResultView? ==> feedback == Some(v.feedback)
    ensures v.Choices? <==> (!loading && scenario.Some? && !Truthy(feedback)
      && scenario.value.options.Some? && |scenario.value.options.value| > 0)
    ensures v.Choices? ==> scenario.value.options == Some(v.options)
  {
    if loading then Spinner
    else if scenario.None? then RetryView
    else if !Truthy(feedback) then
      match scenario.value.options
      case Some(options) => if |options| > 0 then Choices(options) else NoOptions
      case None => NoOptions
    else ResultView(feedback.value)
  }

  class GameView {
    var scenario: Option<ParsedScenario>
    var loading: bool
    var feedback: Option<string>

    function CurrentView(): View
      reads this
    {
      ViewOf(loading, scenario, feedback)
    }

    constructor ()
      ensures scenario.None? && !loading && feedback.None?
    {
      scenario := None;
      loading := false;
      feedback := None;
    }

    /** The synchronous start of `loadNewScenario`: spinner on, feedback and scenario cleared. */
    method BeginLoad()
      modifies this
      ensures loading && scenario.None? && feedback.None?
      ensures CurrentView() == Spinner
    {
      loading := true;
      feedback := None;
      scenario := None;
    }

    /**
     * The rest of `loadNewScenario`, given what the service call produced (`None`
     * when it threw): the scenario is stored, its situation is spoken when it has
     * one, and loading ends on both paths.
     */
    method FinishLoad(outcome: Option<ParsedScenario>) returns (spoken: Option<string>)
      modifies this
      ensures !loading && feedback == old(feedback)
      ensures outcome.Some? ==> scenario == outcome
      ensures outcome.None? ==> scenario == old(scenario)
      ensures spoken.Some? <==> outcome.Some? && Truthy(outcome.value.situation)
      ensures spoken.Some? ==> spoken == outcome.value.situation
    {
      spoken := None;
      if outcome.Some? {
        scenario := outcome;
        if Truthy(outcome.value.situation) {
          spoken := outcome.value.situation;
        }
      }
      loading := false;
    }

    /**
     * `loadNewScenario` when the scenario service's `try` is reached: nothing
     * inside it throws, so afterwards a normalised scenario is showing and the
     * retry view is not reached this way.
     */
    method LoadNewScenario(reply: Reply, parse: string -> Option<ParsedScenario>) returns (spoken: Option<string>)
      modifies this
      ensures scenario == Some(GenerateGameScenario(reply, parse))
      ensures !loading && feedback.None?
      ensures CurrentView().Choices? || CurrentView() == NoOptions
      ensures spoken.Some? <==> Truthy(scenario.value.situation)
    {
      BeginLoad();
      var next := GenerateGameScenario(reply, parse);
      spoken := FinishLoad(Some(next));
    }

    /**
     * `handleChoice`: without a scenario or its options, nothing happens;
     * otherwise the chosen option's impact goes through `updateStats` once and its
     * feedback is shown and spoken. The index comes from the option buttons.
     */
    method HandleChoice(idx: nat, stats: UserStats) returns (newStats: UserStats, spoken: Option<string>)
      requires scenario.Some? && scenario.value.options.Some? ==> idx < |scenario.value.options.value|
      modifies this
      ensures scenario == old(scenario) && loading == old(loading)
      ensures scenario.None? || scenario.value.options.None? ==>
        newStats == stats && spoken.None? && feedback == old(feedback)
      ensures scenario.Some? && scenario.value.options.Some? ==>
        var option := scenario.value.options.value[idx];
        && newStats == UpdateStats(stats, option.impact)
        && feedback == Some(option.feedback) && spoken == Some(option.feedback)
    {
      if scenario.None? || scenario.value.options.None? {
        return stats, None;
      }
      var option := scenario.value.options.value[idx];
      newStats := UpdateStats(stats, option.impact);
      feedback := Some(option.feedback);
      spoken := Some(option.feedback);
    }

    /**
     * A choice from the option buttons shows its result, unless the option's
     * feedback is empty: then the options stay up and another choice can be made.
     */
    lemma ChoiceShowsResult(idx: nat)
      requires !loading && CurrentView().Choices? && idx < |CurrentView().options|
      ensures var option := CurrentView().options[idx];
        var after := ViewOf(loading, scenario, Some(option.feedback));
        (option.feedback != "" ==> after == ResultView(option.feedback))
        && (option.feedback == "" ==> after == CurrentView())
    {
    }
  }
}
