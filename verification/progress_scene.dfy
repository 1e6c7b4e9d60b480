/** What a sequence of calls alone makes of the heading and the steps under it. */
module ProgressScene {
  import opened Common
  import opened Screen
  import opened ProgressSteps
  import opened ProgressPresenter

  datatype Call =
    | Report(event: Event, ctx: nat, live: set<nat>, now: int, overview: seq<Row>)
    | Heartbeat(live: set<nat>, now: int, overview: seq<Row>)
    | Field(title: Row, value: Row)

  // ----- the reference: what the calls alone make of heading and steps

  /** How a presenter was set up. */
  datatype Setting = Setting(columns: nat, wording: Wording, silent: bool)

  /** The heading and the steps under it. */
  datatype Scene = Scene(heading: string, steps: seq<Step>)

  predicate HeardIn(setting: Setting, call: Call)
    requires call.Report?
  {
    Heard(setting.silent, call.event, call.ctx, call.live)
  }

  /** The steps under the report's heading with its own step found or placed. */
  function EnteredBy(scene: Scene, call: Call): (r: seq<Step>)
    requires call.Report?
    ensures EntryBy(scene, call) < |r|
  {
    var base := StepsUnder(scene.heading, call.event.heading, scene.steps);
    Enter(base, call.event, call.ctx, call.now, EntryOf(base, call.event))
  }

  function EntryBy(scene: Scene, call: Call): nat
    requires call.Report?
  {
    EntryOf(StepsUnder(scene.heading, call.event.heading, scene.steps), call.event)
  }

  predicate AnyActive(steps: seq<Step>, live: set<nat>) {
    exists s | s in steps :: Active(s, live)
  }

  function After(setting: Setting, scene: Scene, call: Call): Scene {
    match call
    case Report(e, ctx, live, now, _) =>
      if !HeardIn(setting, call) then scene
      else Scene(HeadingAfter(scene.heading, e.heading),
                 StepsAfter(setting.columns, setting.wording, EnteredBy(scene, call), EntryBy(scene, call), e, live,
                   now))
    case Heartbeat(live, now, _) =>
      if setting.columns == 0 then scene.(steps := Repeated(scene.steps, live, now))
      else if AnyActive(scene.steps, live) then scene.(steps :=
        Stamped(Noted(setting.wording, scene.steps, live, now), now))
      else scene
    case Field(_, _) => scene.(steps := [])
  }

  /** The outcome a call settles, if it does. */
  function SettledBy(setting: Setting, scene: Scene, call: Call): multiset<Row> {
    if call.Report? && HeardIn(setting, call) && !Silent(call.event) && !Runs(call.event) then
      var i, e := EntryBy(scene, call), call.event;
      OutcomeOf(setting.wording, setting.columns,
        SettledStep(setting.wording, EnteredBy(scene, call)[i], e.status, e.detail, call.now))
    else multiset{}
  }

  /** How many lines a call draws the block on, if it draws it. */
  function DrawnBy(setting: Setting, scene: Scene, call: Call): Option<nat> {
    match call
    case Report(e, _, _, _, overview) =>
      if !HeardIn(setting, call) || Silent(e) then None
      else
        var next := After(setting, scene, call);
        Some(|Above(next.heading, overview)| + |next.steps|)
    case Heartbeat(live, _, overview) =>
      if AnyActive(scene.steps, live) then Some(|Above(scene.heading, overview)| + |scene.steps|) else None
    case Field(_, _) => None
  }

  function SceneOf(setting: Setting, scene: Scene, calls: seq<Call>): Scene {
    if calls == [] then scene
    else After(setting, SceneOf(setting, scene, calls[..|calls| - 1]), calls[|calls| - 1])
  }

  /** The outcome rows of all the steps that the calls settle. */
  function Expected(setting: Setting, scene: Scene, calls: seq<Call>): multiset<Row> {
    if calls == [] then multiset{}
    else
      var front := calls[..|calls| - 1];
      Expected(setting, scene, front) + SettledBy(setting, SceneOf(setting, scene, front), calls[|calls| - 1])
  }

  predicate FitsBy(setting: Setting, height: nat, scene: Scene, call: Call) {
    var lines := DrawnBy(setting, scene, call);
    lines.Some? ==> lines.value <= height
  }

  /** The terminal is tall enough for every block that is drawn. */
  predicate Tall(setting: Setting, height: nat, scene: Scene, calls: seq<Call>) {
    calls != [] ==>
      var front := calls[..|calls| - 1];
      Tall(setting, height, scene, front) && FitsBy(setting, height, SceneOf(setting, scene, front), calls[|calls| - 1])
  }
}
