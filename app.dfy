/** The top-level component: the stat gauges, their clamped update, and the single active tab. */
module App {
  import opened Wrappers
  import opened Types

  /** The stats the app starts with. */
  const InitialStats := UserStats(1000, 50, 20)

  /** Savings never go negative; happiness and knowledge are percentages. */
  predicate InBounds(s: UserStats) {
    s.savings >= 0 && 0 <= s.happiness <= 100 && 0 <= s.knowledge <= 100
  }

  /** `Math.max(0, x)`. */
  function AtLeastZero(x: int): (r: int)
    ensures r >= 0
    ensures x >= 0 ==> r == x
    ensures x < 0 ==> r == 0
  {
    if x >= 0 then x else 0
  }

  /** `Math.min(100, Math.max(0, x))`. */
  function Percent(x: int): (r: int)
    ensures 0 <= r <= 100
    ensures 0 <= x <= 100 ==> r == x
    ensures x < 0 ==> r == 0
    ensures x > 100 ==> r == 100
  {
    var low := AtLeastZero(x);
    if low <= 100 then low else 100
  }

  /**
   * `updateStats`: add each impact field (absent is 0) to its own gauge, then
   * clamp savings below at 0 and the two percentages to [0, 100].
   */
  function UpdateStats(prev: UserStats, impact: Impact): (r: UserStats)
    ensures InBounds(r)
    ensures var x := prev.savings + Amount(impact.savings);
      (x >= 0 ==> r.savings == x) && (x < 0 ==> r.savings == 0)
    ensures var x := prev.happiness + Amount(impact.happiness);
      (0 <= x <= 100 ==> r.happiness == x) && (x < 0 ==> r.happiness == 0) && (x > 100 ==> r.happiness == 100)
    ensures var x := prev.knowledge + Amount(impact.knowledge);
      (0 <= x <= 100 ==> r.knowledge == x) && (x < 0 ==> r.knowledge == 0) && (x > 100 ==> r.knowledge == 100)
  {
    UserStats(
      AtLeastZero(prev.savings + Amount(impact.savings)),
      Percent(prev.happiness + Amount(impact.happiness)),
      Percent(prev.knowledge + Amount(impact.knowledge)))
  }

  /** The initial stats are within bounds, and a loss of 2000 savings stops at 0. */
  lemma InitialStatsExample()
    ensures InBounds(InitialStats)
    ensures UpdateStats(InitialStats, Impact(Some(-2000), None, None)) == UserStats(0, 50, 20)
  {
  }

  /** An impact with every field absent or zero leaves an in-bounds state unchanged. */
  lemma NeutralImpact(s: UserStats, impact: Impact)
    requires InBounds(s)
    requires Amount(impact.savings) == 0 && Amount(impact.happiness) == 0 && Amount(impact.knowledge) == 0
    ensures UpdateStats(s, impact) == s
  {
  }

  /** So applying an empty impact after any update changes nothing more. */
  lemma UpdateSettles(s: UserStats, impact: Impact)
    ensures UpdateStats(UpdateStats(s, impact), Impact(None, None, None)) == UpdateStats(s, impact)
  {
    NeutralImpact(UpdateStats(s, impact), Impact(None, None, None));
  }

  /** Each gauge depends only on its own old value and its own impact field. */
  lemma FieldsIndependent(s: UserStats, i: Impact, t: UserStats, j: Impact)
    ensures s.savings == t.savings && Amount(i.savings) == Amount(j.savings)
      ==> UpdateStats(s, i).savings == UpdateStats(t, j).savings
    ensures s.happiness == t.happiness && Amount(i.happiness) == Amount(j.happiness)
      ==> UpdateStats(s, i).happiness == UpdateStats(t, j).happiness
    ensures s.knowledge == t.knowledge && Amount(i.knowledge) == Amount(j.knowledge)
      ==> UpdateStats(s, i).knowledge == UpdateStats(t, j).knowledge
  {
  }

  /** Savings have no upper bound: any non-negative balance is reachable in one update. */
  lemma SavingsUnbounded(s: UserStats, target: int)
    requires target >= 0
    ensures UpdateStats(s, Impact(Some(target - s.savings), None, None)).savings == target
  {
  }

  /** The five tabs, in the order their buttons appear. */
  datatype Tab = Play | Mentor | Plan | Vision | ScamCheck

  const TabOrder: seq<Tab> := [Play, Mentor, Plan, Vision, ScamCheck]

  /** Each tab's id. */
  function TabId(t: Tab): string {
    match t
    case Play => "play"
    case Mentor => "mentor"
    case Plan => "plan"
    case Vision => "vision"
    case ScamCheck => "scam"
  }

  /** A tab button's label. */
  function TabLabel(t: Tab): string {
    match t
    case Play => "Play"
    case Mentor => "Mentor"
    case Plan => "Planner"
    case Vision => "Vision"
    case ScamCheck => "Scam Check"
  }

  /** Tab ids are distinct, so comparing ids is comparing tabs. */
  lemma TabIdInjective(a: Tab, b: Tab)
    ensures TabId(a) == TabId(b) <==> a == b
  {
  }

  /** The panels rendered, in page order: those whose id equals the active tab's id. */
  function RenderedPanels(active: Tab): (r: seq<Tab>)
    ensures forall p :: p in r ==> TabId(p) == TabId(active)
  {
    var keep := (p: Tab) => TabId(p) == TabId(active);
    (if keep(Play) then [Play] else [])
    + (if keep(Mentor) then [Mentor] else [])
    + (if keep(Plan) then [Plan] else [])
    + (if keep(Vision) then [Vision] else [])
    + (if keep(ScamCheck) then [ScamCheck] else [])
  }

  /** Exactly one panel is rendered: the active tab's. */
  lemma ExactlyOnePanel(active: Tab)
    ensures RenderedPanels(active) == [active]
  {
    forall p: Tab
      ensures TabId(p) == TabId(active) <==> p == active
    {
      TabIdInjective(p, active);
    }
  }

  /** The button that is highlighted is the active tab's, and only that one. */
  function Highlighted(active: Tab): (r: seq<bool>)
    ensures |r| == |TabOrder|
    ensures forall k :: 0 <= k < |TabOrder| ==> (r[k] <==> TabOrder[k] == active)
  {
    seq(|TabOrder|, k requires 0 <= k < |TabOrder| => TabId(TabOrder[k]) == TabId(active))
  }
}
