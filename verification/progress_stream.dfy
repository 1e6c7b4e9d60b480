/** Whole progress streams: any calls in any order, then the finish. */
module ProgressStream {
  import opened Common
  import opened Screen
  import opened ProgressSteps
  import opened Progress
  import opened ProgressPicture
  import opened ProgressPresenter
  import opened ProgressScene
  import ProgressLife

  // ----- one call

  /** The call did what the reference says, and only added to what was written. */
  predicate Upheld(setting: Setting, height: nat, call: Call, scene: Scene, was: Picture, next: Scene, now: Picture) {
    && next == After(setting, scene, call)
    && now.settlements == was.settlements + SettledBy(setting, scene, call)
    && (setting.columns == 0 ==> was.journal <= now.journal)
    && (setting.columns > 0 ==> was.log <= now.log && now.fits == (was.fits && FitsBy(setting, height, scene, call)))
  }

  lemma NothingSettled<T>(a: multiset<T>)
    ensures a + multiset{} == a
  {
  }

  lemma HeadedUpholds(columns: nat, w: Wording, heading: string, h: string, steps: seq<Step>, was: Picture,
      now: Picture)
    requires Headed(columns, w, heading, h, steps, was, now)
    ensures now.settlements == was.settlements && now.fits == was.fits
    ensures columns == 0 ==> was.journal <= now.journal
    ensures columns > 0 ==> was.log <= now.log
  {
  }

  lemma ToldUpholds(setting: Setting, height: nat, scene: Scene, call: Call, was: Picture, after: Picture)
    requires call.Report? && HeardIn(setting, call)
    requires Told(setting.columns, setting.wording, height, HeadingAfter(scene.heading, call.event.heading),
      call.overview,
                  EnteredBy(scene, call), EntryBy(scene, call), call.event, call.live, call.now, was, after)
    ensures after.settlements == was.settlements + SettledBy(setting, scene, call)
    ensures setting.columns == 0 ==> was.journal <= after.journal
    ensures setting.columns > 0 ==>
      was.log <= after.log && after.fits == (was.fits && FitsBy(setting, height, scene, call))
  {
    NothingSettled(was.settlements);
  }

  lemma ReportUpheld(setting: Setting, height: nat, call: Call, scene: Scene, was: Picture, at: nat, under: Picture,
      next: Scene, now: Picture)
    requires call.Report? && HeardIn(setting, call)
    requires Headed(setting.columns, setting.wording, scene.heading, call.event.heading, scene.steps, was, under)
    requires next.heading == HeadingAfter(scene.heading, call.event.heading)
    requires Reported(setting.columns, setting.wording, height, next.heading, call.overview,
                      StepsUnder(scene.heading, call.event.heading,
                        scene.steps), at, call.event, call.ctx, call.live, call.now,
                      under, next.steps, now)
    ensures Upheld(setting, height, call, scene, was, next, now)
  {
    EntryIsUnique(StepsUnder(scene.heading, call.event.heading, scene.steps), call.event, at, EntryBy(scene, call));
    HeadedUpholds(setting.columns, setting.wording, scene.heading, call.event.heading, scene.steps, was, under);
    ToldUpholds(setting, height, scene, call, under, now);
  }

  lemma BeatUpheld(setting: Setting, height: nat, call: Call, scene: Scene, was: Picture, next: Scene, now: Picture)
    requires call.Heartbeat? && next.heading == scene.heading
    requires setting.columns == 0 ==>
      && next.steps == Repeated(scene.steps, call.live, call.now)
      && now == was.(journal := was.journal + QuietEntries(setting.wording, scene.steps, call.live, call.now))
    requires setting.columns > 0 && AnyActive(scene.steps, call.live) ==>
      var noted := Noted(setting.wording, scene.steps, call.live, call.now);
      && next.steps == Stamped(noted, call.now)
      && Redrawn(was, now, BlockRows(setting.wording, setting.columns, scene.heading, call.overview, noted), height)
    requires setting.columns > 0 && !AnyActive(scene.steps, call.live) ==> next.steps == scene.steps && now == was
    ensures Upheld(setting, height, call, scene, was, next, now)
  {
    NothingSettled(was.settlements);
  }

  // ----- one call on the presenter

  function SettingOf(p: Presenter): Setting {
    Setting(p.columns, p.wording, p.silent)
  }

  function SceneNow(p: Presenter): Scene
    reads p
  {
    Scene(p.heading, p.steps)
  }

  method AnswerReport(p: Presenter, call: Call)
    requires p.Valid() && call.Report?
    modifies p
    ensures p.Valid()
    ensures Upheld(SettingOf(p), p.world.height, call, old(SceneNow(p)), old(p.picture), SceneNow(p), p.picture)
  {
    ghost var was, scene := p.picture, SceneNow(p);
    ghost var at, under := p.Report(call.event, call.ctx, call.live, call.now, call.overview);
    if HeardIn(SettingOf(p), call) {
      ReportUpheld(SettingOf(p), p.world.height, call, scene, was, at, under, SceneNow(p), p.picture);
    } else {
      NothingSettled(was.settlements);
    }
  }

  method AnswerBeat(p: Presenter, call: Call)
    requires p.Valid() && call.Heartbeat?
    modifies p
    ensures p.Valid()
    ensures Upheld(SettingOf(p), p.world.height, call, old(SceneNow(p)), old(p.picture), SceneNow(p), p.picture)
  {
    ghost var was, scene := p.picture, SceneNow(p);
    p.Beat(call.live, call.now, call.overview);
    BeatUpheld(SettingOf(p), p.world.height, call, scene, was, SceneNow(p), p.picture);
  }

  method AnswerField(p: Presenter, call: Call)
    requires p.Valid() && call.Field?
    modifies p
    ensures p.Valid()
    ensures Upheld(SettingOf(p), p.world.height, call, old(SceneNow(p)), old(p.picture), SceneNow(p), p.picture)
  {
    NothingSettled(p.picture.settlements);
    p.Field(call.title, call.value);
  }

  method Answer(p: Presenter, call: Call)
    requires p.Valid()
    modifies p
    ensures p.Valid()
    ensures Upheld(SettingOf(p), p.world.height, call, old(SceneNow(p)), old(p.picture), SceneNow(p), p.picture)
  {
    match call
    case Report(_, _, _, _, _) =>
      AnswerReport(p, call);
    case Heartbeat(_, _, _) =>
      AnswerBeat(p, call);
    case Field(_, _) =>
      AnswerField(p, call);
  }

  // ----- the whole stream

  /** What the calls so far have come to. */
  predicate Progressed(setting: Setting, height: nat, calls: seq<Call>, scene: Scene, was: Picture, next: Scene,
      now: Picture) {
    && next == SceneOf(setting, scene, calls)
    && now.settlements == was.settlements + Expected(setting, scene, calls)
    && (setting.columns == 0 ==> was.journal <= now.journal)
    && (setting.columns > 0 ==> was.log <= now.log && now.fits == (was.fits && Tall(setting, height, scene, calls)))
  }

  lemma ProgressedNext(setting: Setting, height: nat, calls: seq<Call>, i: nat, scene: Scene, was: Picture,
                       mid: Scene, now: Picture, next: Scene, after: Picture)
    requires i < |calls| && Progressed(setting, height, calls[..i], scene, was, mid, now)
    requires Upheld(setting, height, calls[i], mid, now, next, after)
    ensures Progressed(setting, height, calls[..i + 1], scene, was, next, after)
  {
    assert calls[..i + 1][..i] == calls[..i];
    Regroup(was.settlements, Expected(setting, scene, calls[..i]), SettledBy(setting, mid, calls[i]));
  }

  method AnswerNext(p: Presenter, calls: seq<Call>, i: nat, ghost scene: Scene, ghost was: Picture)
    requires p.Valid() && i < |calls|
    requires Progressed(SettingOf(p), p.world.height, calls[..i], scene, was, SceneNow(p), p.picture)
    modifies p
    ensures p.Valid()
    ensures Progressed(SettingOf(p), p.world.height, calls[..i + 1], scene, was, SceneNow(p), p.picture)
  {
    ghost var mid, now := SceneNow(p), p.picture;
    Answer(p, calls[i]);
    ProgressedNext(SettingOf(p), p.world.height, calls, i, scene, was, mid, now, SceneNow(p), p.picture);
  }

  method Replay(p: Presenter, calls: seq<Call>)
    requires p.Valid()
    modifies p
    ensures p.Valid()
    ensures Progressed(SettingOf(p), p.world.height, calls, old(SceneNow(p)), old(p.picture), SceneNow(p), p.picture)
  {
    ghost var was, scene := p.picture, SceneNow(p);
    NothingSettled(was.settlements);
    assert calls[..0] == [];
    for i := 0 to |calls|
      invariant p.Valid()
      invariant Progressed(SettingOf(p), p.world.height, calls[..i], scene, was, SceneNow(p), p.picture)
    {
      AnswerNext(p, calls, i, scene, was);
    }
    assert calls[..|calls|] == calls;
  }

  /** The screen, or what has scrolled off it, shows the text that was there before and then the log, unchanged. */
  predicate ShowsLog(world: World, out: seq<Cmd>, log: seq<Row>) {
    world.before + log <= Run(world.width, world.height, Start(world.before), out).lines
  }

  lemma StandingShowsLog(world: World, out: seq<Cmd>, g: Picture)
    requires Standing(world, out, g)
    ensures ShowsLog(world, out, g.log)
  {
    var t := Run(world.width, world.height, Start(world.before), out);
    var log := world.before + g.log;
    if g.block == [] {
      assert t.lines == log + ([[]] + Blanks(g.below));
    } else {
      var n := |g.block| - 1;
      assert t.lines == log + (g.block[..n] + [g.block[n]] + Blanks(g.below));
    }
  }

  lemma NothingWaits(columns: nat, w: Wording, world: World, drawn: nat, out: seq<Cmd>, g: Picture)
    requires Whole(columns, w, world, [], drawn, out, g)
    ensures columns == 0 ==> out == Flatten(g.journal) && Written(g.journal) == g.settlements
    ensures columns > 0 ==> g.settlements <= multiset(g.log) && (g.fits ==> ShowsLog(world, out, g.log))
  {
    assert Outcomes(w, columns, []) == multiset{};
    if columns > 0 && g.fits {
      StandingShowsLog(world, out, g);
    }
  }

  /** A finish leaves nothing waiting. */
  method Conclude(p: Presenter)
    requires p.Valid()
    modifies p
    ensures p.Valid() && p.steps == [] && p.drawn == 0
    ensures p.picture.settlements == old(p.picture).settlements && p.picture.fits == old(p.picture).fits
    ensures p.columns == 0 ==>
      && old(p.picture).journal <= p.picture.journal
      && p.out == Flatten(p.picture.journal)
      && Written(p.picture.journal) == p.picture.settlements
    ensures p.columns > 0 ==>
      && old(p.picture).log <= p.picture.log
      && p.picture.settlements <= multiset(p.picture.log)
      && (p.picture.fits ==> ShowsLog(p.world, p.out, p.picture.log))
  {
    p.Finish();
    NothingWaits(p.columns, p.wording, p.world, p.drawn, p.out, p.picture);
  }

  /**
   Every sequence of reports, heartbeats and fields, and then the finish. In
   appended output the outcome rows written are those of the steps the calls
   settled, each exactly once. On a terminal tall enough for every block that is
   drawn, the text above the block is shown unchanged to the end; no line of it is
   ever taken back, and every outcome ends among its lines.
   */
  method Stream(p: Presenter, calls: seq<Call>)
    requires p.Valid()
    modifies p
    ensures p.Valid() && p.steps == [] && p.drawn == 0
    ensures p.picture.settlements == old(p.picture).settlements + Expected(SettingOf(p), old(SceneNow(p)), calls)
    ensures p.columns == 0 ==>
      && old(p.picture).journal <= p.picture.journal
      && p.out == Flatten(p.picture.journal)
      && Written(p.picture.journal) == old(p.picture).settlements + Expected(SettingOf(p), old(SceneNow(p)), calls)
    ensures p.columns > 0 ==>
      && old(p.picture).log <= p.picture.log
      && p.picture.settlements <= multiset(p.picture.log)
      && p.picture.fits == (old(p.picture).fits && Tall(SettingOf(p), p.world.height, old(SceneNow(p)), calls))
      && (p.picture.fits ==> ShowsLog(p.world, p.out, p.picture.log))
    ensures old(p.steps) == [] ==>
      Expected(SettingOf(p), old(SceneNow(p)), calls) == ProgressLife.OutcomesOf(SettingOf(p), old(p.heading), calls)
  {
    ProgressLife.ExpectedFromCalls(SettingOf(p), p.heading, calls);
    Replay(p, calls);
    Conclude(p);
  }
}
