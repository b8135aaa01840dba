/** The shared data model: the learner's track, the three stat gauges, scenarios and chat messages. */
module Types {
  import opened Wrappers

  /** JavaScript truthiness of an optional string: present and not empty. */
  predicate Truthy(s: Option<string>) {
    s.Some? && s.value != ""
  }

  /** The two learner tracks. */
  datatype UserTrack = Student | YoungAdult

  /** The enum's string values. */
  function TrackName(t: UserTrack): string {
    match t
    case Student => "Student"
    case YoungAdult => "Young Adult"
  }

  /** The track a string value names, if any. */
  function TrackOf(name: string): (r: Option<UserTrack>)
    ensures r.Some? ==> TrackName(r.value) == name
  {
    if name == "Student" then Some(Student)
    else if name == "Young Adult" then Some(YoungAdult)
    else None
  }

  /** Each track round-trips through its string value, and the two values differ. */
  lemma TrackNameRoundTrip(t: UserTrack)
    ensures TrackOf(TrackName(t)) == Some(t)
    ensures TrackName(Student) != TrackName(YoungAdult)
  {
  }

  /** The three gauges. Values are whole numbers in this model. */
  datatype UserStats = UserStats(savings: int, happiness: int, knowledge: int)

  /** `Partial<UserStats>`: each field may be absent. */
  datatype Impact = Impact(savings: Option<int>, happiness: Option<int>, knowledge: Option<int>)

  /** A number's truthiness: `undefined` and `0` are falsy. */
  predicate NumberTruthy(x: Option<int>) {
    x.Some? && x.value != 0
  }

  /**
   * `impact.x || 0`: `||` yields its left operand when that is truthy and `0`
   * otherwise, so the field contributes nothing exactly when it is falsy.
   */
  function Amount(field: Option<int>): (r: int)
    ensures field.None? ==> r == 0
    ensures field.Some? ==> r == field.value
    ensures r == (if NumberTruthy(field) then field.value else 0)
    ensures r == 0 <==> !NumberTruthy(field)
  {
    match field
    case None => 0
    case Some(v) => v
  }

  /** One choice of a scenario. */
  datatype ScenarioOption = ScenarioOption(text: string, impact: Impact, feedback: string)

  /** The five declared scenario themes. */
  datatype Theme = Savings | Budgeting | Scam | Investment | Digital

  function ThemeName(t: Theme): string {
    match t
    case Savings => "Savings"
    case Budgeting => "Budgeting"
    case Scam => "Scam"
    case Investment => "Investment"
    case Digital => "Digital"
  }

  /** The theme a string names, if it is one of the five literals. */
  function ThemeOf(name: string): (r: Option<Theme>)
    ensures r.Some? ==> ThemeName(r.value) == name
  {
    if name == "Savings" then Some(Savings)
    else if name == "Budgeting" then Some(Budgeting)
    else if name == "Scam" then Some(Scam)
    else if name == "Investment" then Some(Investment)
    else if name == "Digital" then Some(Digital)
    else None
  }

  /** Every theme round-trips through its literal, so the five literals are distinct. */
  lemma ThemeNameRoundTrip(t: Theme)
    ensures ThemeOf(ThemeName(t)) == Some(t)
  {
  }

  /** A scenario as declared: options form an ordered list. */
  datatype GameScenario = GameScenario(id: string, situation: string, options: seq<ScenarioOption>, theme: Theme)

  datatype Role = User | Model

  function RoleName(r: Role): string {
    match r
    case User => "user"
    case Model => "model"
  }

  /** A chat message; `isThinking` may be absent. */
  datatype ChatMessage = ChatMessage(role: Role, text: string, isThinking: Option<bool>)

  /** Every role round-trips through its literal. */
  lemma RoleNameDistinct()
    ensures RoleName(User) != RoleName(Model)
    ensures RoleName(User) == "user" && RoleName(Model) == "model"
  {
  }
}
