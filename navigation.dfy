/**
 * The `App` component of src/App.jsx as a state machine: its six pieces of
 * React state, the effect that looks the current scene up, the choice click
 * handler with its two chained timers, and the render priority. Time is a
 * virtual clock, and the pending `setTimeout` callbacks are a queue ordered
 * by due time.
 */
module Navigation {
  import opened JsRuntime
  import opened ChoiceParsing
  import opened StoryLoader
  import Styles
  import SceneMedia

  /** Milliseconds from a click to the scene swap. */
  const SwapDelay: int := 300
  /** Milliseconds from the swap to the end of the fade. */
  const FadeInDelay: int := 50

  /** What the `error` state can hold. */
  datatype AppError =
    | LoadFailed(cause: LoadError)   // the payload did not yield a story
    | FetchFailed                    // the request or the decoding of its body failed
    | SceneNotFound(id: int)         // the lookup effect found no scene
    | UnknownTarget(target: JsValue) // a choice pointed at no scene

  datatype TimerAction = ShowScene(target: int) | EndTransition

  datatype Timer = Timer(due: int, action: TimerAction)

  datatype AppState = AppState(
    storyData: seq<Scene>,
    currentSceneId: int,
    currentScene: Option<Scene>,
    isLoading: bool,
    error: Option<AppError>,
    isTransitioning: bool,
    now: int,            // the virtual clock, in milliseconds
    timers: seq<Timer>)  // pending callbacks, in the order they will run

  /** What the component renders, in its order of priority. */
  datatype Screen =
    | LoadingScreen
    | ErrorScreen(error: AppError)
    | NoSceneScreen
    | SceneScreen(scene: Scene, faded: bool)
    | CrashedScreen  // the render or the effect after it threw: the root unmounts and the page is blank

  /** The state at mount. The start of `fetchData` sets `isLoading` and
      clears `error`, which leaves this state as it is. */
  const Initial := AppState([], InitialSceneId, None, true, None, false, 0, [])

  // ---------------------------------------------------------------------
  // The timer queue

  predicate TimersSorted(ts: seq<Timer>) {
    forall i, j :: 0 <= i < j < |ts| ==> ts[i].due <= ts[j].due
  }

  /** How many pending timers run no later than `due`: a new timer with
      that due time goes right after them. */
  function InsertionPoint(ts: seq<Timer>, due: int): (k: nat)
    ensures k <= |ts|
    ensures forall i :: 0 <= i < k ==> ts[i].due <= due
    ensures TimersSorted(ts) ==> forall i :: k <= i < |ts| ==> ts[i].due > due
  {
    if ts == [] || ts[0].due > due then 0 else 1 + InsertionPoint(ts[1..], due)
  }

  /** `setTimeout`: the callback runs after every pending one due no later
      (first in, first out among equal due times) and before the rest. */
  function Schedule(ts: seq<Timer>, t: Timer): (r: seq<Timer>)
    ensures |r| == |ts| + 1
    ensures Weight(r) == Weight(ts) + TimerWeight(t)
  {
    if ts == [] || ts[0].due > t.due then [t] + ts
    else
      assert ts == [ts[0]] + ts[1..];
      [ts[0]] + Schedule(ts[1..], t)
  }

  /** Scheduling adds the new timer and loses none. */
  lemma {:induction false} ScheduleIsPermutation(ts: seq<Timer>, t: Timer)
    ensures multiset(Schedule(ts, t)) == multiset(ts) + multiset{t}
  {
    if ts != [] && ts[0].due <= t.due {
      ScheduleIsPermutation(ts[1..], t);
      assert ts == [ts[0]] + ts[1..];
    }
  }

  lemma ScheduleMembers(ts: seq<Timer>, t: Timer)
    ensures forall x :: x in Schedule(ts, t) <==> x in ts || x == t
  {
    var r := Schedule(ts, t);
    ScheduleIsPermutation(ts, t);
    forall x ensures x in r <==> x in ts || x == t {
      assert x in r <==> x in multiset(r);
      assert x in ts <==> x in multiset(ts);
    }
  }

  lemma {:induction false} ScheduleSorted(ts: seq<Timer>, t: Timer)
    requires TimersSorted(ts)
    ensures TimersSorted(Schedule(ts, t))
  {
    if ts != [] && ts[0].due <= t.due {
      ScheduleSorted(ts[1..], t);
      var rest := Schedule(ts[1..], t);
      ScheduleMembers(ts[1..], t);
      forall k | 0 <= k < |rest| ensures ts[0].due <= rest[k].due {
        assert rest[k] in rest;
      }
    }
  }

  /** The new timer lands right after the timers due no later than it, and
      the others keep their order around it. */
  lemma {:induction false} ScheduleFifo(ts: seq<Timer>, t: Timer)
    ensures InsertionPoint(ts, t.due) < |Schedule(ts, t)|
    ensures Schedule(ts, t)[InsertionPoint(ts, t.due)] == t
    ensures forall i :: 0 <= i < InsertionPoint(ts, t.due) ==> Schedule(ts, t)[i] == ts[i]
    ensures forall i :: InsertionPoint(ts, t.due) < i <= |ts| ==> Schedule(ts, t)[i] == ts[i - 1]
  {
    if ts != [] && ts[0].due <= t.due {
      ScheduleFifo(ts[1..], t);
      var rest := Schedule(ts[1..], t);
      assert Schedule(ts, t) == [ts[0]] + rest;
      assert InsertionPoint(ts, t.due) == 1 + InsertionPoint(ts[1..], t.due);
    }
  }

  lemma {:induction false} ScheduleDueWithin(ts: seq<Timer>, t: Timer, lo: int, hi: int)
    requires DueWithin(ts, lo, hi) && lo <= t.due <= hi
    ensures DueWithin(Schedule(ts, t), lo, hi)
  {
    if ts != [] && ts[0].due <= t.due {
      ScheduleDueWithin(ts[1..], t, lo, hi);
    }
  }

  lemma {:induction false} ScheduleSwapsKnown(ts: seq<Timer>, t: Timer, scenes: seq<Scene>)
    requires SwapsKnown(ts, scenes)
    requires t.action.ShowScene? ==> HasScene(scenes, t.action.target)
    ensures SwapsKnown(Schedule(ts, t), scenes)
  {
    if ts != [] && ts[0].due <= t.due {
      ScheduleSwapsKnown(ts[1..], t, scenes);
    }
  }

  /** A timer due no earlier than every pending one goes last. */
  lemma {:induction false} ScheduleLast(ts: seq<Timer>, t: Timer)
    requires forall i :: 0 <= i < |ts| ==> ts[i].due <= t.due
    ensures Schedule(ts, t) == ts + [t]
  {
    if ts != [] {
      ScheduleLast(ts[1..], t);
      assert ts == [ts[0]] + ts[1..];
    }
  }

  /** A measure that every fired timer lowers: a swap may schedule one
      fade end, which weighs less than the swap. */
  function TimerWeight(t: Timer): nat {
    if t.action.ShowScene? then 2 else 1
  }

  function Weight(ts: seq<Timer>): nat {
    if ts == [] then 0 else TimerWeight(ts[0]) + Weight(ts[1..])
  }

  // ---------------------------------------------------------------------
  // Events

  /** The lookup effect, run when `storyData` or `currentSceneId` has
      changed: show the first scene with the current id, or report it. */
  function SyncScene(st: AppState): (r: AppState)
    ensures r.(currentScene := st.currentScene, error := st.error) == st
    ensures st.storyData == [] ==> r == st
    ensures st.storyData != [] && HasScene(st.storyData, st.currentSceneId) ==>
      r.error == st.error && r.currentScene == FindScene(st.storyData, st.currentSceneId)
      && r.currentScene.Some? && r.currentScene.value.sceneId == st.currentSceneId
    ensures st.storyData != [] && !HasScene(st.storyData, st.currentSceneId) ==>
      r.currentScene == st.currentScene && r.error == Some(SceneNotFound(st.currentSceneId))
  {
    if st.storyData == [] then st
    else match FindScene(st.storyData, st.currentSceneId)
      case Some(scene) => st.(currentScene := Some(scene))
      case None => st.(error := Some(SceneNotFound(st.currentSceneId)))
  }

  /** The rest of `fetchData` once the body has been decoded: the story and
      its initial id are set together (one batched update), the lookup
      effect runs, and loading ends whatever happened. */
  function AfterLoad(st: AppState, payload: JsValue, parse: JsonParser): AppState {
    match Load(payload, parse)
    case Ok(story) =>
      SyncScene(st.(storyData := story.scenes, currentSceneId := story.initialSceneId, isLoading := false))
    case Err(e) => st.(error := Some(LoadFailed(e)), isLoading := false)
  }

  /** The request failed, or its body could not be decoded. */
  function AfterFetchFailure(st: AppState): AppState {
    st.(error := Some(FetchFailed), isLoading := false)
  }

  /** `storyData.some(scene => scene.sceneId === target)`: strict equality,
      so only a number can match. */
  predicate IsKnownTarget(storyData: seq<Scene>, target: JsValue) {
    target.Num? && HasScene(storyData, target.n)
  }

  /** `handleChoiceClick`. Nothing stops a second click while a transition
      is under way; each click queues its own swap. */
  function OnClick(st: AppState, target: JsValue): AppState {
    if IsNullish(target) then st
    else if !IsKnownTarget(st.storyData, target) then st.(error := Some(UnknownTarget(target)))
    else st.(error := None, isTransitioning := true,
             timers := Schedule(st.timers, Timer(st.now + SwapDelay, ShowScene(target.n))))
  }

  /** The 300 ms callback: set the id and queue the end of the fade. The
      lookup effect re-runs only when the id really changes (React skips an
      update to an equal value); when it does not, the scene shown is
      already the one with that id. */
  function Swap(st: AppState, target: int): (r: AppState)
    ensures r.storyData == st.storyData && r.isLoading == st.isLoading
    ensures r.isTransitioning == st.isTransitioning && r.now == st.now
    ensures r.currentSceneId == target
    ensures r.timers == Schedule(st.timers, Timer(st.now + FadeInDelay, EndTransition))
    ensures (&& HasScene(st.storyData, target)
             && (st.storyData != [] ==> st.currentScene == FindScene(st.storyData, st.currentSceneId))) ==>
      r.error == st.error && r.currentScene == FindScene(st.storyData, target)
  {
    if target != st.currentSceneId then SyncScene(Retarget(st, target)) else Retarget(st, target)
  }

  /** The two batched updates of the callback: the new id, and the fade end
      queued 50 ms on. */
  function Retarget(st: AppState, target: int): AppState {
    st.(currentSceneId := target,
        timers := Schedule(st.timers, Timer(st.now + FadeInDelay, EndTransition)))
  }

  /** A timer callback. */
  function Fire(st: AppState, action: TimerAction): (r: AppState)
    ensures Weight(r.timers) == Weight(st.timers) + (if action.ShowScene? then 1 else 0)
  {
    match action
    case ShowScene(target) => Swap(st, target)
    case EndTransition => st.(isTransitioning := false)
  }

  /** Take the first timer off the queue and move the clock to its time. */
  function Pop(st: AppState): AppState
    requires st.timers != []
  {
    st.(now := st.timers[0].due, timers := st.timers[1..])
  }

  /** Let time pass up to `until`, running every callback that falls due on
      the way, including those scheduled by earlier callbacks. */
  function Settle(st: AppState, until: int): AppState
    decreases Weight(st.timers)
  {
    if st.timers != [] && st.timers[0].due <= until then
      Settle(Fire(Pop(st), st.timers[0].action), until)
    else st.(now := until)
  }

  function Advance(st: AppState, ms: nat): AppState {
    Settle(st, st.now + ms)
  }

  /** `currentScene.key`: the scene keeps the row's own cells. */
  function Cell(scene: Scene, key: string): JsValue {
    Property(Obj(scene.fields), key)
  }

  /** Putting a scene on screen throws, and nothing catches it, when one of
      its cells cannot be read: a position cell without `includes` (read
      during the render), a question colour whose conversion to a string
      throws (in `Question`), or a truthy background image or music cell
      that is not a string (in the effect that runs once the markup, which
      holds `game-body` and `bgm-player`, is on the page). */
  predicate SceneThrows(scene: Scene) {
    || Styles.PositionFor(Cell(scene, "questionPosition")).None?
    || Styles.PositionFor(Cell(scene, "choicesPosition")).None?
    || Styles.QuestionColour(Cell(scene, "questionColor")).None?
    || SceneMedia.BackgroundFor(Cell(scene, "backgroundImage")).None?
    || SceneMedia.CorrectedMusic(Cell(scene, "backgroundMusic")).None?
  }

  /** What showing a scene comes to: the scene, or the crash. */
  function SceneOnScreen(scene: Scene, faded: bool): Screen {
    if SceneThrows(scene) then CrashedScreen else SceneScreen(scene, faded)
  }

  /** The early returns of the render, in order, then the scene. */
  function Render(st: AppState): Screen {
    if st.isLoading then LoadingScreen
    else if st.error.Some? then ErrorScreen(st.error.value)
    else if st.currentScene.None? then NoSceneScreen
    else SceneOnScreen(st.currentScene.value, st.isTransitioning)
  }

  // ---------------------------------------------------------------------
  // The invariant

  predicate TimersPending(st: AppState) {
    && TimersSorted(st.timers)
    && DueWithin(st.timers, st.now, st.now + SwapDelay)
    && SwapsKnown(st.timers, st.storyData)
  }

  predicate DueWithin(ts: seq<Timer>, lo: int, hi: int) {
    forall i :: 0 <= i < |ts| ==> lo <= ts[i].due <= hi
  }

  /** Every queued swap names a scene of the story. */
  predicate SwapsKnown(ts: seq<Timer>, scenes: seq<Scene>) {
    forall i :: 0 <= i < |ts| && ts[i].action.ShowScene? ==> HasScene(scenes, ts[i].action.target)
  }


  /** What holds of every reachable state: while loading nothing else has
      happened; once a story is loaded the current id names a scene and
      that scene is the one shown; every queued timer falls due within one
      swap delay, and every queued swap names a scene; the
      lookup never fails; and a transition in progress always has a
      callback left to end it. */
  predicate Inv(st: AppState) {
    && TimersPending(st)
    && (st.isLoading ==>
          st.storyData == [] && st.timers == [] && st.currentScene.None?
          && st.error.None? && !st.isTransitioning)
    && (st.storyData != [] ==>
          HasScene(st.storyData, st.currentSceneId)
          && st.currentScene == FindScene(st.storyData, st.currentSceneId))
    && (st.storyData == [] ==> st.currentScene.None? && st.timers == [])
    && (st.error.Some? ==> !st.error.value.SceneNotFound?)
    && (st.isTransitioning ==> st.timers != [])
  }

  lemma InitialInv()
    ensures Inv(Initial) && Render(Initial) == LoadingScreen
  {
  }

  /** The fetch resolves once, while loading. */
  lemma AfterLoadInv(st: AppState, payload: JsValue, parse: JsonParser)
    requires Inv(st) && st.isLoading
    ensures Inv(AfterLoad(st, payload, parse))
    ensures Inv(AfterFetchFailure(st))
  {
  }

  /** Queueing a timer due no earlier than the clock and no later than a
      swap delay from it, and whose swap (if it is one) names a scene,
      keeps the queue pending. */
  lemma SchedulePending(st: AppState, t: Timer)
    requires TimersPending(st) && st.now <= t.due <= st.now + SwapDelay
    requires t.action.ShowScene? ==> HasScene(st.storyData, t.action.target)
    ensures TimersPending(st.(timers := Schedule(st.timers, t)))
  {
    ScheduleSorted(st.timers, t);
    ScheduleDueWithin(st.timers, t, st.now, st.now + SwapDelay);
    ScheduleSwapsKnown(st.timers, t, st.storyData);
  }



  /** Choices are only on screen once loading is over. */
  lemma OnClickInv(st: AppState, target: JsValue)
    requires Inv(st) && !st.isLoading
    ensures Inv(OnClick(st, target))
  {
    if IsNullish(target) {
      assert OnClick(st, target) == st;
    } else if !IsKnownTarget(st.storyData, target) {
      assert OnClick(st, target) == st.(error := Some(UnknownTarget(target)));
    } else {
      var t := Timer(st.now + SwapDelay, ShowScene(target.n));
      SchedulePending(st, t);
      assert OnClick(st, target) == st.(error := None, isTransitioning := true, timers := Schedule(st.timers, t));
    }
  }


  /** Taking the first timer keeps the rest pending: they are due no
      earlier than it. */
  lemma PopPending(st: AppState)
    requires TimersPending(st) && st.timers != []
    ensures TimersPending(Pop(st))
  {
    var p := Pop(st);
    assert forall i :: 0 <= i < |p.timers| ==> p.timers[i] == st.timers[i + 1];
  }

  /** A swap to a known scene, from a state that shows its current id,
      changes exactly the id, the scene shown and the queue. */
  lemma SwapKnown(p: AppState, n: int)
    requires HasScene(p.storyData, n)
    requires p.storyData != [] ==> p.currentScene == FindScene(p.storyData, p.currentSceneId)
    ensures Swap(p, n) == p.(currentSceneId := n, currentScene := FindScene(p.storyData, n),
                             timers := Schedule(p.timers, Timer(p.now + FadeInDelay, EndTransition)))
  {
  }

  /** The swap keeps the invariant: its target names a scene, which the
      lookup finds. */
  lemma SwapInv(st: AppState)
    requires Inv(st) && st.timers != [] && st.timers[0].action.ShowScene?
    ensures Inv(Swap(Pop(st), st.timers[0].action.target))
  {
    var p := Pop(st);
    var target := st.timers[0].action.target;
    assert st.timers[0] in st.timers;
    SwapKnown(p, target);
    PopPending(st);
    SchedulePending(p, Timer(p.now + FadeInDelay, EndTransition));
  }

  lemma FireInv(st: AppState)
    requires Inv(st) && st.timers != []
    ensures Inv(Fire(Pop(st), st.timers[0].action))
  {
    PopPending(st);
    if st.timers[0].action.ShowScene? {
      SwapInv(st);
    }
  }

  lemma {:induction false} SettleInv(st: AppState, until: int)
    requires Inv(st) && st.now <= until
    ensures Inv(Settle(st, until))
    decreases Weight(st.timers)
  {
    if st.timers != [] && st.timers[0].due <= until {
      FireInv(st);
      SettleInv(Fire(Pop(st), st.timers[0].action), until);
    }
  }

  lemma AdvanceInv(st: AppState, ms: nat)
    requires Inv(st)
    ensures Inv(Advance(st, ms))
  {
    SettleInv(st, st.now + ms);
  }

  // ---------------------------------------------------------------------
  // Properties of the component

  /** A loaded story shows its initial scene, not faded, unless that scene
      throws; a failed load shows the reason. */
  lemma LoadShowsInitialScene(payload: JsValue, parse: JsonParser)
    ensures var st := AfterLoad(Initial, payload, parse);
      match Load(payload, parse)
      case Ok(story) =>
        Render(st) == SceneOnScreen(FindScene(story.scenes, story.initialSceneId).value, false)
        && st.currentSceneId == story.initialSceneId
      case Err(e) => Render(st) == ErrorScreen(LoadFailed(e))
  {
  }

  /** Once loaded, with no error, the screen shows the scene the current id
      names, faded exactly while a transition runs, or the crash exactly
      when that scene throws. */
  lemma RenderShowsCurrentScene(st: AppState)
    requires Inv(st) && !st.isLoading && st.error.None? && st.storyData != []
    ensures Render(st) == SceneOnScreen(FindScene(st.storyData, st.currentSceneId).value, st.isTransitioning)
    ensures Render(st) == CrashedScreen <==> SceneThrows(FindScene(st.storyData, st.currentSceneId).value)
    ensures Render(st).SceneScreen? ==> Render(st).scene.sceneId == st.currentSceneId
  {
  }

  /** A scene whose position cell is null crashes the page instead of
      being shown. */
  lemma NullPositionCrashes(st: AppState)
    requires !st.isLoading && st.error.None? && st.currentScene.Some?
    requires Cell(st.currentScene.value, "questionPosition") == Null
    ensures Render(st) == CrashedScreen
  {
  }

  /** A scene whose position, colour and media cells are strings or absent
      is shown. */
  lemma StringCellsAreShown(scene: Scene, faded: bool)
    requires var q, c := Cell(scene, "questionPosition"), Cell(scene, "choicesPosition");
      (q.Undefined? || q.Str?) && (c.Undefined? || c.Str?)
    requires var col := Cell(scene, "questionColor"); col.Undefined? || col.Str?
    requires var bg, m := Cell(scene, "backgroundImage"), Cell(scene, "backgroundMusic");
      (bg.Undefined? || bg.Str?) && (m.Undefined? || m.Str?)
    ensures SceneOnScreen(scene, faded) == SceneScreen(scene, faded)
  {
  }

  /** Timers never touch the error, the story or the loading flag, so an
      error screen stays up while time passes. */
  lemma {:induction false} SettleKeepsError(st: AppState, until: int)
    requires Inv(st)
    ensures var r := Settle(st, until);
      r.error == st.error && r.storyData == st.storyData && r.isLoading == st.isLoading
    decreases Weight(st.timers)
  {
    if st.timers != [] && st.timers[0].due <= until {
      FireInv(st);
      SettleKeepsError(Fire(Pop(st), st.timers[0].action), until);
    }
  }

  /** A click on a null or undefined target does nothing. */
  lemma NullishClickIgnored(st: AppState, target: JsValue)
    requires IsNullish(target)
    ensures OnClick(st, target) == st
  {
  }

  /** A click on a target that names no scene (a number with no scene, or
      any other value, such as the string "2") shows the error and changes
      nothing else. */
  lemma UnknownClickShowsError(st: AppState, target: JsValue)
    requires !st.isLoading && !IsNullish(target)
    requires !target.Num? || !HasScene(st.storyData, target.n)
    ensures Render(OnClick(st, target)) == ErrorScreen(UnknownTarget(target))
    ensures OnClick(st, target).(error := st.error) == st
  {
  }

  /** One step of `Settle`: the first timer is due, so it runs. */
  lemma SettleRuns(st: AppState, until: int)
    requires st.timers != [] && st.timers[0].due <= until
    ensures Settle(st, until) == Settle(Fire(Pop(st), st.timers[0].action), until)
  {
  }

  /** The last step of `Settle`: nothing is due, so only the clock moves. */
  lemma SettleStops(st: AppState, until: int)
    requires st.timers == [] || st.timers[0].due > until
    ensures Settle(st, until) == st.(now := until)
  {
  }

  /** One due swap to a known scene, with everything queued behind it due
      before its fade ends: the swap runs and its fade end goes last. */
  lemma SwapStep(q: AppState, d: int, n: int, rest: seq<Timer>, until: int)
    requires q.timers == [Timer(d, ShowScene(n))] + rest
    requires d <= until && HasScene(q.storyData, n)
    requires q.storyData != [] ==> q.currentScene == FindScene(q.storyData, q.currentSceneId)
    requires forall i :: 0 <= i < |rest| ==> rest[i].due <= d + FadeInDelay
    ensures Settle(q, until) == Settle(q.(now := d, currentSceneId := n, currentScene := FindScene(q.storyData, n),
                                          timers := rest + [Timer(d + FadeInDelay, EndTransition)]), until)
  {
    var p := Pop(q);
    var r := q.(now := d, currentSceneId := n, currentScene := FindScene(q.storyData, n),
                timers := rest + [Timer(d + FadeInDelay, EndTransition)]);
    assert Fire(p, q.timers[0].action) == r by {
      assert p.timers == rest && p.now == d;
      SwapKnown(p, n);
      ScheduleLast(rest, Timer(d + FadeInDelay, EndTransition));
    }
    SettleRuns(q, until);
  }

  /** A click on a known scene, with nothing else pending: the current scene
      fades out and stays for 299 ms. */
  lemma ClickFadesOut(st: AppState, n: int)
    requires Inv(st) && !st.isLoading && st.timers == [] && HasScene(st.storyData, n)
    ensures var s := OnClick(st, Num(n));
      && Render(s) == SceneOnScreen(st.currentScene.value, true)
      && Advance(s, 299).currentSceneId == st.currentSceneId
      && Render(Advance(s, 299)) == SceneOnScreen(st.currentScene.value, true)
  {
    var s := OnClick(st, Num(n));
    assert s.timers == [Timer(st.now + SwapDelay, ShowScene(n))];
    SettleStops(s, st.now + 299);
  }

  /** At 300 ms the new scene is swapped in, still faded. */
  lemma ClickSwapsAt300(st: AppState, n: int)
    requires Inv(st) && !st.isLoading && st.timers == [] && HasScene(st.storyData, n)
    ensures var s := Advance(OnClick(st, Num(n)), 300);
      && s.currentSceneId == n
      && Render(s) == SceneOnScreen(FindScene(st.storyData, n).value, true)
  {
    var s := OnClick(st, Num(n));
    var swap := st.now + SwapDelay;
    assert s.timers == [Timer(swap, ShowScene(n))] + [];
    SwapStep(s, swap, n, [], swap);
    var swapped := s.(now := swap, currentSceneId := n, currentScene := FindScene(s.storyData, n),
                      timers := [Timer(swap + FadeInDelay, EndTransition)]);
    SettleStops(swapped, swap);
  }

  /** Every timer, and the fade end a swap will schedule, is due by `until`. */
  predicate DueBy(ts: seq<Timer>, until: int) {
    forall i :: 0 <= i < |ts| ==>
      ts[i].due + (if ts[i].action.ShowScene? then FadeInDelay else 0) <= until
  }

  lemma {:induction false} ScheduleDueBy(ts: seq<Timer>, t: Timer, until: int)
    requires DueBy(ts, until) && DueBy([t], until)
    ensures DueBy(Schedule(ts, t), until)
  {
    if ts != [] && ts[0].due <= t.due {
      ScheduleDueBy(ts[1..], t, until);
      assert DueBy([ts[0]], until);
    }
  }

  lemma FireDueBy(st: AppState, until: int)
    requires Inv(st) && st.timers != [] && DueBy(st.timers, until)
    ensures DueBy(Fire(Pop(st), st.timers[0].action).timers, until)
  {
    var t := st.timers[0];
    var p := Pop(st);
    assert DueBy(p.timers, until);
    if t.action.ShowScene? {
      ScheduleDueBy(p.timers, Timer(p.now + FadeInDelay, EndTransition), until);
    }
  }


  /** However many clicks are queued, once time reaches the last swap plus
      the fade delay the queue is empty and nothing is faded. */
  lemma {:induction false} EveryTransitionEnds(st: AppState, until: int)
    requires Inv(st) && DueBy(st.timers, until)
    ensures Settle(st, until).timers == [] && !Settle(st, until).isTransitioning
    decreases Weight(st.timers)
  {
    if st.timers != [] {
      var r := Fire(Pop(st), st.timers[0].action);
      FireInv(st);
      FireDueBy(st, until);
      SettleRuns(st, until);
      EveryTransitionEnds(r, until);
    }
  }

  /** The target of the last swap in the queue, if any. */
  function LastSwap(ts: seq<Timer>): (r: Option<int>)
    ensures r.None? <==> forall i :: 0 <= i < |ts| ==> !ts[i].action.ShowScene?
  {
    if ts == [] then None
    else match LastSwap(ts[1..])
      case Some(n) => Some(n)
      case None => if ts[0].action.ShowScene? then Some(ts[0].action.target) else None
  }

  /** Queueing a fade end does not change which swap is last. */
  lemma {:induction false} LastSwapSkipsFadeEnd(ts: seq<Timer>, due: int)
    ensures LastSwap(Schedule(ts, Timer(due, EndTransition))) == LastSwap(ts)
  {
    var e := Timer(due, EndTransition);
    if ts == [] || ts[0].due > due {
      assert ([e] + ts)[1..] == ts;
    } else {
      LastSwapSkipsFadeEnd(ts[1..], due);
      assert ([ts[0]] + Schedule(ts[1..], e))[1..] == Schedule(ts[1..], e);
    }
  }

  /** With no swap queued, time passing leaves the scene alone. */
  lemma {:induction false} SettleWithoutSwap(st: AppState, until: int)
    requires LastSwap(st.timers).None?
    ensures var r := Settle(st, until);
      r.currentSceneId == st.currentSceneId && r.currentScene == st.currentScene
      && r.error == st.error && r.storyData == st.storyData
    decreases |st.timers|
  {
    if st.timers != [] && st.timers[0].due <= until {
      assert st.timers[0].action == EndTransition;
      SettleRuns(st, until);
      SettleWithoutSwap(Fire(Pop(st), EndTransition), until);
    }
  }

  /** Running the last queued swap shows its scene and leaves no swap. */
  lemma FinalSwapShown(st: AppState, n: int)
    requires Inv(st) && st.timers != [] && st.timers[0].action == ShowScene(n)
    requires LastSwap(st.timers[1..]).None?
    ensures var r := Fire(Pop(st), ShowScene(n));
      r.currentSceneId == n && r.currentScene == FindScene(st.storyData, n)
      && r.storyData == st.storyData && LastSwap(r.timers).None?
  {
    var p := Pop(st);
    assert st.timers[0] in st.timers;
    SwapKnown(p, n);
    LastSwapSkipsFadeEnd(p.timers, p.now + FadeInDelay);
  }

  /** Running any other timer leaves the last swap where it was. */
  lemma LaterSwapStays(st: AppState, n: int)
    requires st.timers != [] && LastSwap(st.timers) == Some(n)
    requires LastSwap(st.timers[1..]).Some?
    ensures LastSwap(Fire(Pop(st), st.timers[0].action).timers) == Some(n)
  {
    var p := Pop(st);
    assert p.timers == st.timers[1..];
    if st.timers[0].action.ShowScene? {
      LastSwapSkipsFadeEnd(p.timers, p.now + FadeInDelay);
    }
  }


  /** However many clicks are queued, once every swap has had time to run
      the scene shown is the one the last click named. */
  lemma {:induction false} LastSwapWins(st: AppState, until: int, n: int)
    requires Inv(st) && DueBy(st.timers, until) && LastSwap(st.timers) == Some(n)
    ensures Settle(st, until).currentSceneId == n
    ensures Settle(st, until).currentScene == FindScene(st.storyData, n)
    ensures HasScene(st.storyData, n)
    decreases Weight(st.timers)
  {
    var t := st.timers[0];
    var r := Fire(Pop(st), t.action);
    assert t.due <= until;
    SettleRuns(st, until);
    if LastSwap(st.timers[1..]).None? {
      assert t.action == ShowScene(n);
      FinalSwapShown(st, n);
      SettleWithoutSwap(r, until);
    } else {
      LaterSwapStays(st, n);
      FireInv(st);
      FireDueBy(st, until);
      LastSwapWins(r, until, n);
    }
  }

  /** A swap queued behind everything else is the last swap. */
  lemma {:induction false} LastSwapAppend(ts: seq<Timer>, due: int, n: int)
    ensures LastSwap(ts + [Timer(due, ShowScene(n))]) == Some(n)
  {
    var t := Timer(due, ShowScene(n));
    if ts == [] {
      assert ([t])[1..] == [];
    } else {
      LastSwapAppend(ts[1..], due, n);
      assert (ts + [t])[1..] == ts[1..] + [t];
    }
  }

  /** Every pending timer, and a swap queued now, has run and faded in
      350 ms from now. */
  lemma PendingDueBy(st: AppState, n: int)
    requires TimersPending(st)
    ensures DueBy(st.timers + [Timer(st.now + SwapDelay, ShowScene(n))], st.now + 350)
  {
    var ts := st.timers + [Timer(st.now + SwapDelay, ShowScene(n))];
    forall i | 0 <= i < |ts|
      ensures ts[i].due + (if ts[i].action.ShowScene? then FadeInDelay else 0) <= st.now + 350
    {
      if i < |st.timers| {
        assert ts[i] == st.timers[i];
      }
    }
  }

  /** A click queues its swap behind every pending timer, so it is the
      last swap, and every timer has run and faded in 350 ms later. */
  lemma ClickQueuesLast(st: AppState, n: int)
    requires Inv(st) && !st.isLoading && HasScene(st.storyData, n)
    ensures var c := OnClick(st, Num(n));
      && Inv(c) && !c.isLoading && c.error.None? && c.storyData == st.storyData
      && LastSwap(c.timers) == Some(n) && DueBy(c.timers, c.now + 350)
  {
    var t := Timer(st.now + SwapDelay, ShowScene(n));
    var c := OnClick(st, Num(n));
    assert Inv(c) by { OnClickInv(st, Num(n)); }
    assert c == st.(error := None, isTransitioning := true, timers := st.timers + [t]) by {
      assert IsKnownTarget(st.storyData, Num(n));
      ScheduleLast(st.timers, t);
    }
    assert LastSwap(c.timers) == Some(n) by { LastSwapAppend(st.timers, t.due, n); }
    assert DueBy(c.timers, c.now + 350) by { PendingDueBy(st, n); }
  }


  /** Once every queued swap has run and faded in, the last one's scene is
      shown, not faded, with no timer left. */
  lemma QueueSettles(c: AppState, until: int, n: int)
    requires Inv(c) && !c.isLoading && c.error.None?
    requires DueBy(c.timers, until) && LastSwap(c.timers) == Some(n) && HasScene(c.storyData, n)
    ensures var s := Settle(c, until);
      && s.currentSceneId == n && s.timers == [] && !s.isTransitioning
      && s.currentScene == FindScene(c.storyData, n)
      && Render(s) == SceneOnScreen(FindScene(c.storyData, n).value, false)
  {
    EveryTransitionEnds(c, until);
    LastSwapWins(c, until, n);
    SettleKeepsError(c, until);
  }



  /** A state settled on a scene, with no error and no fade, renders it. */
  lemma SettledRender(s: AppState, scene: Scene)
    requires !s.isLoading && s.error.None? && s.currentScene == Some(scene) && !s.isTransitioning
    ensures Render(s) == SceneOnScreen(scene, false)
  {
  }

  lemma AdvanceSettles(st: AppState, ms: nat)
    ensures Advance(st, ms) == Settle(st, st.now + ms)
  {
  }

  /** Once the clicked swap has run and faded in, the scene clicked is
      shown, whatever clicks came before it. */
  lemma ClickLastWins(st: AppState, n: int)
    requires Inv(st) && !st.isLoading && HasScene(st.storyData, n)
    ensures var s := Advance(OnClick(st, Num(n)), 350);
      && s.currentSceneId == n && s.timers == [] && !s.isTransitioning
      && s.currentScene == FindScene(st.storyData, n)
      && Render(s) == SceneOnScreen(FindScene(st.storyData, n).value, false)
  {
    var c := OnClick(st, Num(n));
    var s := Settle(c, c.now + 350);
    var scene := FindScene(st.storyData, n).value;
    assert && s.currentSceneId == n && s.timers == [] && !s.isTransitioning
           && s.currentScene == Some(scene) && !s.isLoading && s.error.None? by {
      ClickQueuesLast(st, n);
      SettleKeepsError(c, c.now + 350);
      EveryTransitionEnds(c, c.now + 350);
      LastSwapWins(c, c.now + 350, n);
    }
    assert Advance(OnClick(st, Num(n)), 350) == s by { AdvanceSettles(c, 350); }
    SettledRender(s, scene);
  }



  /** Two clicks before the first swap: both swaps run, in click order, so
      the second target wins, and the fade still ends. */
  lemma DoubleClickLastWins(st: AppState, a: int, b: int)
    requires Inv(st) && !st.isLoading
    requires HasScene(st.storyData, a) && HasScene(st.storyData, b)
    ensures var s := Advance(OnClick(OnClick(st, Num(a)), Num(b)), 350);
      s.currentSceneId == b && !s.isTransitioning && s.timers == []
      && s.currentScene == FindScene(st.storyData, b)
  {
    OnClickInv(st, Num(a));
    ClickLastWins(OnClick(st, Num(a)), b);
  }

  // ---------------------------------------------------------------------
  // The component as an object

  /** The component's state hooks as fields, with one method per event. */
  class App {
    var storyData: seq<Scene>
    var currentSceneId: int
    var currentScene: Option<Scene>
    var isLoading: bool
    var error: Option<AppError>
    var isTransitioning: bool
    var now: int
    var timers: seq<Timer>

    function State(): AppState
      reads this
    {
      AppState(storyData, currentSceneId, currentScene, isLoading, error, isTransitioning, now, timers)
    }

    constructor()
      ensures State() == Initial
    {
      storyData := [];
      currentSceneId := InitialSceneId;
      currentScene := None;
      isLoading := true;
      error := None;
      isTransitioning := false;
      now := 0;
      timers := [];
    }

    /** The lookup effect. */
    method SyncCurrentScene()
      modifies this
      ensures State() == SyncScene(old(State()))
    {
      if |storyData| > 0 {
        var scene := FindScene(storyData, currentSceneId);
        if scene.Some? {
          currentScene := scene;
        } else {
          error := Some(SceneNotFound(currentSceneId));
        }
      }
    }

    /** `fetchData` after the body has been decoded. */
    method ReceivePayload(payload: JsValue, parse: JsonParser)
      modifies this
      ensures State() == AfterLoad(old(State()), payload, parse)
    {
      var result := FormatStory(payload, parse);
      match result
      case Ok(story) =>
        InstallStory(story);
      case Err(e) =>
        error := Some(LoadFailed(e));
        isLoading := false;
    }

    /** The success path: store the scenes and the initial id, end loading
        and let the lookup effect run. */
    method InstallStory(story: Story)
      modifies this
      ensures State() == SyncScene(old(State()).(storyData := story.scenes,
                                                 currentSceneId := story.initialSceneId, isLoading := false))
    {
      storyData := story.scenes;
      currentSceneId := story.initialSceneId;
      isLoading := false;
      SyncCurrentScene();
    }

    method FailFetch()
      modifies this
      ensures State() == AfterFetchFailure(old(State()))
    {
      error := Some(FetchFailed);
      isLoading := false;
    }

    /** `handleChoiceClick`. */
    method HandleChoiceClick(target: JsValue)
      modifies this
      ensures State() == OnClick(old(State()), target)
    {
      if IsNullish(target) {
        return;
      }
      if !IsKnownTarget(storyData, target) {
        error := Some(UnknownTarget(target));
      } else {
        QueueSwap(target.n);
      }
    }

    /** Clear the error, start the fade-out and queue the swap. */
    method QueueSwap(target: int)
      modifies this
      ensures State() == old(State()).(error := None, isTransitioning := true,
                                       timers := Schedule(old(timers), Timer(old(now) + SwapDelay, ShowScene(target))))
    {
      var queued := Schedule(timers, Timer(now + SwapDelay, ShowScene(target)));
      error := None;
      isTransitioning := true;
      timers := queued;
    }

    method RunTimer(action: TimerAction)
      modifies this
      ensures State() == Fire(old(State()), action)
    {
      match action
      case ShowScene(target) => SwapScene(target);
      case EndTransition => isTransitioning := false;
    }

    /** The 300 ms callback. */
    method SwapScene(target: int)
      modifies this
      ensures State() == Swap(old(State()), target)
    {
      var changed := target != currentSceneId;
      SetTargetAndQueueFadeEnd(target);
      if changed {
        SyncCurrentScene();
      }
    }

    method SetTargetAndQueueFadeEnd(target: int)
      modifies this
      ensures State() == Retarget(old(State()), target)
    {
      var queued := Schedule(timers, Timer(now + FadeInDelay, EndTransition));
      currentSceneId := target;
      timers := queued;
    }

    /** Let `ms` milliseconds pass, running the callbacks that fall due. */
    method AdvanceClock(ms: nat)
      modifies this
      ensures State() == Advance(old(State()), ms)
    {
      var until := now + ms;
      while timers != [] && timers[0].due <= until
        invariant Settle(State(), until) == Settle(old(State()), old(now) + ms)
        decreases Weight(timers)
      {
        var t := timers[0];
        now := t.due;
        timers := timers[1..];
        RunTimer(t.action);
      }
      now := until;
    }
  }
}
