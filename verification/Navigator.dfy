/** The Navigator's controller stack: E-stop state machine, run controller, road controller. */
module Navigator {
  import opened NavTimers
  import opened Road
  import opened RoadSafety
  import opened RoadController
  import WayPoints
  import Orders

  const NO_WAYPOINT := Orders.WayPoint(WayPoints.NULL_ID, false, false, false)

  /** The way-points of an order. */
  type Entries = s: seq<Orders.WayPoint> | |s| == Orders.N_WAYPTS
    witness [NO_WAYPOINT, NO_WAYPOINT, NO_WAYPOINT, NO_WAYPOINT, NO_WAYPOINT]

  datatype Behavior = AbortOrder | QuitOrder | PauseOrder | RunOrder | SuspendOrder | Initialize | Go | NoOrder

  datatype EstopState = Paused | Running | Done | Suspended

  datatype EstopEvent = Abort | Pause | Quit | Start | Suspend | NoEvent

  /** Escape is an unused value of the run controller's state. */
  datatype GoState = Continue | Escape | Replan

  /** What one Navigator cycle can observe: the order, the last way-point, the map, and the road environment. */
  datatype NavEnv = NavEnv(
    behavior: Behavior,
    havePolygons: bool,
    maxSpeed: real,
    order: Entries,
    last: WayPoints.ElementId,
    startFound: bool,
    reverse: bool,
    replanNum: int,
    road: Env)

  datatype Nav = Nav(
    estop: EstopState,
    pending: EstopEvent,
    go: GoState,
    lastReplan: int,
    road: Fields,
    flasher: bool,
    alarm: bool)

  datatype NavStep = NavStep(nav: Nav, cmd: Command, result: Result)

  datatype EstopAction =
    | EstopError | InDone | InPause | InRun | InSuspend | ToAbort | ToDone | ToPause | ToRun | ToSuspend

  /** The E-stop table as its Add calls fill it in; an entry not added would be the error action. */
  function EstopTable(event: EstopEvent, state: EstopState): (EstopAction, EstopState) {
    match (event, state)
    case (Abort, Paused) => (ToAbort, Done)
    case (Abort, Running) => (ToAbort, Done)
    case (Abort, Suspended) => (ToAbort, Done)
    case (Abort, Done) => (InDone, Done)
    case (NoEvent, Paused) => (InPause, Paused)
    case (NoEvent, Running) => (InRun, Running)
    case (NoEvent, Suspended) => (InSuspend, Suspended)
    case (NoEvent, Done) => (InDone, Done)
    case (Pause, Paused) => (InPause, Paused)
    case (Pause, Running) => (ToPause, Paused)
    case (Pause, Suspended) => (ToPause, Paused)
    case (Pause, Done) => (InDone, Done)
    case (Quit, Paused) => (ToDone, Done)
    case (Quit, Running) => (ToDone, Done)
    case (Quit, Suspended) => (ToDone, Done)
    case (Quit, Done) => (InDone, Done)
    case (Start, Paused) => (ToRun, Running)
    case (Start, Running) => (InRun, Running)
    case (Start, Suspended) => (ToRun, Running)
    case (Start, Done) => (InDone, Done)
    case (Suspend, Paused) => (ToSuspend, Suspended)
    case (Suspend, Running) => (ToSuspend, Suspended)
    case (Suspend, Suspended) => (InSuspend, Suspended)
    case (Suspend, Done) => (ToSuspend, Suspended)
  }

  function OrderEvent(b: Behavior): EstopEvent {
    match b
    case AbortOrder => Abort
    case PauseOrder => Pause
    case QuitOrder => Quit
    case RunOrder => Start
    case SuspendOrder => Suspend
    case Initialize | Go | NoOrder => NoEvent
  }

  /** An event pending from the previous cycle goes before the order. */
  function CurrentEvent(n: Nav, env: NavEnv): EstopEvent {
    if n.pending == NoEvent then OrderEvent(env.behavior) else n.pending
  }

  // ---------------------------------------------------------------- run controller

  /** The order as the run controller shifts it at the beginning of its cycle. */
  function Shifted(env: NavEnv): Entries { Orders.Advanced(env.order, env.last, Orders.N_WAYPTS) }

  /** Nothing is left of the order: its first two way-points are the same. */
  predicate OrderDone(env: NavEnv) { Shifted(env)[0].id == Shifted(env)[1].id }

  /** The run controller initialises the command to the speed limit, straight ahead. */
  function RoadEnv(env: NavEnv): Env {
    env.road.(cmd := Command(env.maxSpeed, 0.0), at1 := Shifted(env)[1].id == env.last)
  }

  /** What the road controller would do this cycle: carrying on, or after a reset. */
  datatype Drive = Drive(carryOn: Step, afresh: Step)

  function DriveOf(n: Nav, env: NavEnv, cfg: Config): Drive {
    Drive(Control(n.road, RoadEnv(env), cfg), Control(Reset(n.road), RoadEnv(env), cfg))
  }

  function GoControl(n: Nav, env: NavEnv, d: Drive): NavStep {
    if OrderDone(env) then NavStep(n, HALT, OK)
    else
      match n.go
      case Continue => NavStep(n.(road := d.carryOn.road), d.carryOn.cmd, d.carryOn.result)
      case Replan =>
        if env.replanNum == n.lastReplan then NavStep(n, HALT, OK)
        else NavStep(n.(road := d.afresh.road, go := Continue), d.afresh.cmd, d.afresh.result)
      case Escape => NavStep(n, Command(env.maxSpeed, 0.0), NotImplemented)
  }

  function Reversed(cmd: Command, reverse: bool): Command {
    if reverse then Command(-cmd.velocity, cmd.yawRate) else cmd
  }

  function RunControl(n: Nav, env: NavEnv, d: Drive): NavStep {
    if env.behavior == RunOrder || !env.havePolygons then NavStep(n, HALT, OK)
    else
      var t := match env.behavior
        case Go => GoControl(n, env, d)
        case Initialize => NavStep(n, HALT, if env.startFound then OK else NotApplicable)
        case _ => NavStep(n, HALT, NotImplemented);
      t.(cmd := Reversed(t.cmd, env.reverse))
  }

  // ---------------------------------------------------------------- E-stop controller

  predicate Fatal(r: Result) { r == NotApplicable || r == NotImplemented }

  function RunAction(n: Nav, env: NavEnv, d: Drive): NavStep {
    var t := RunControl(n.(flasher := true, alarm := true), env, d);
    if Fatal(t.result) then t.(nav := t.nav.(pending := Abort)) else t
  }

  function HaltAction(n: Nav, flasher: bool): NavStep {
    NavStep(n.(flasher := flasher, alarm := false), HALT, OK)
  }

  function EstopAct(action: EstopAction, n: Nav, env: NavEnv, d: Drive): NavStep {
    match action
    case EstopError => NavStep(n.(pending := Abort), HALT, NotImplemented)
    case InRun | ToRun => RunAction(n, env, d)
    case InPause | ToPause | InSuspend | ToSuspend => HaltAction(n, true)
    case InDone | ToAbort | ToDone => HaltAction(n, false)
  }

  function EstopControl(n: Nav, env: NavEnv, d: Drive): NavStep {
    var (action, next) := EstopTable(CurrentEvent(n, env), n.estop);
    EstopAct(action, n.(estop := next, pending := NoEvent), env, d)
  }

  /** One Navigator cycle. */
  function NavCycle(n: Nav, env: NavEnv, cfg: Config): NavStep { EstopControl(n, env, DriveOf(n, env, cfg)) }

  ghost predicate IsNavRun(states: seq<Nav>, outs: seq<NavStep>, envs: seq<NavEnv>, cfg: Config) {
    && |states| == |envs| + 1 && |outs| == |envs|
    && forall i :: 0 <= i < |envs| ==> outs[i] == NavCycle(states[i], envs[i], cfg) && states[i + 1] == outs[i].nav
  }

  // ---------------------------------------------------------------- E-stop properties

  /** The table is total and leads to Running only for Start, or for no event while running. */
  lemma EstopTableTotal(event: EstopEvent, state: EstopState)
    ensures var (a, next) := EstopTable(event, state);
      && a != EstopError
      && ((a == InRun || a == ToRun) <==> next == Running)
      && (next == Running ==> event == Start || (event == NoEvent && state == Running))
      && (event == Abort ==> next == Done)
      && (state == Done ==> next == Done || event == Suspend)
  {
    match event
    case Abort => case Pause => case Quit => case Start => case Suspend => case NoEvent =>
  }

  /** Outside Running every cycle commands a halt; Done is left only for a suspend order. */
  lemma EstopCycle(n: Nav, env: NavEnv, d: Drive)
    ensures var t := EstopControl(n, env, d);
      && (t.nav.estop != Running ==> t.cmd == HALT && t.result == OK && t.nav.pending == NoEvent)
      && (n.pending == Abort ==> t.nav.estop == Done)
      && (n.estop == Done && n.pending == NoEvent && env.behavior != SuspendOrder ==> t.nav.estop == Done)
      && (t.nav.estop == Running ==> (t.nav.pending == Abort <==> Fatal(t.result)))
      && (t.nav.pending == Abort || t.nav.pending == NoEvent)
  {
    EstopTableTotal(CurrentEvent(n, env), n.estop);
    RunKeepsEstop(n.(estop := Running, pending := NoEvent, flasher := true, alarm := true), env, d);
  }

  lemma RunKeepsEstop(n: Nav, env: NavEnv, d: Drive)
    ensures RunControl(n, env, d).nav.estop == n.estop && RunControl(n, env, d).nav.pending == n.pending
  {}

  /** What EstopCycle says of one cycle. */
  ghost predicate Estopped(n: Nav, env: NavEnv, t: NavStep) {
    && (t.nav.estop != Running ==> t.cmd == HALT && t.nav.pending == NoEvent)
    && (n.pending == Abort ==> t.nav.estop == Done)
    && (n.estop == Done && n.pending == NoEvent && env.behavior != SuspendOrder ==> t.nav.estop == Done)
    && (t.nav.estop == Running && Fatal(t.result) ==> t.nav.pending == Abort)
    && (t.nav.pending == Abort || t.nav.pending == NoEvent)
  }

  ghost predicate EstoppedRun(states: seq<Nav>, outs: seq<NavStep>, envs: seq<NavEnv>) {
    && |states| == |envs| + 1 && |outs| == |envs|
    && forall i :: 0 <= i < |envs| ==> Estopped(states[i], envs[i], outs[i]) && states[i + 1] == outs[i].nav
  }

  lemma NavRunEstopped(states: seq<Nav>, outs: seq<NavStep>, envs: seq<NavEnv>, cfg: Config)
    requires IsNavRun(states, outs, envs, cfg)
    ensures EstoppedRun(states, outs, envs)
  {
    forall i | 0 <= i < |envs| ensures Estopped(states[i], envs[i], outs[i]) && states[i + 1] == outs[i].nav {
      EstopCycle(states[i], envs[i], DriveOf(states[i], envs[i], cfg));
    }
  }

  lemma {:induction false} DoneLasts(states: seq<Nav>, outs: seq<NavStep>, envs: seq<NavEnv>, a: nat, b: nat)
    requires EstoppedRun(states, outs, envs) && a + 1 < b <= |envs|
    requires states[a + 1].estop == Running && Fatal(outs[a].result)
    requires forall i :: a + 1 < i < b ==> envs[i].behavior != SuspendOrder
    ensures states[b].estop == Done && states[b].pending == NoEvent && outs[b - 1].cmd == HALT
    decreases b
  {
    assert Estopped(states[a], envs[a], outs[a]);
    assert Estopped(states[b - 1], envs[b - 1], outs[b - 1]) && states[b - 1 + 1] == outs[b - 1].nav;
    if b > a + 2 { DoneLasts(states, outs, envs, a, b - 1); }
  }

  /**
   * A fatal result in cycle a forces Done in the next one, whatever order arrives, and the vehicle
   * is halted there until a suspend order comes.
   */
  lemma FatalForcesDone(states: seq<Nav>, outs: seq<NavStep>, envs: seq<NavEnv>, cfg: Config, a: nat, b: nat)
    requires IsNavRun(states, outs, envs, cfg) && a + 1 < b <= |envs|
    requires states[a + 1].estop == Running && Fatal(outs[a].result)
    requires forall i :: a + 1 < i < b ==> envs[i].behavior != SuspendOrder
    ensures states[b].estop == Done && states[b].pending == NoEvent && outs[b - 1].cmd == HALT
  {
    NavRunEstopped(states, outs, envs, cfg);
    DoneLasts(states, outs, envs, a, b);
  }

  // ---------------------------------------------------------------- who may move the vehicle

  /** The state that an event asks for. */
  function Asked(event: EstopEvent, state: EstopState): EstopState {
    match event
    case Abort | Quit => Done
    case Pause => Paused
    case Start => Running
    case Suspend => Suspended
    case NoEvent => state
  }

  /**
   * Every event leads to the state that it asks for, except that Done is left for Suspended only.
   * The flasher is on until the run is done, the alarm while it is running.
   */
  lemma EstopLaw(n: Nav, env: NavEnv, d: Drive)
    ensures var t, event := EstopControl(n, env, d).nav, CurrentEvent(n, env);
      && t.estop == (if n.estop == Done && event != Suspend then Done else Asked(event, n.estop))
      && (t.flasher <==> t.estop != Done) && (t.alarm <==> t.estop == Running)
  {
    var event := CurrentEvent(n, env);
    EstopTableTotal(event, n.estop);
    TableAsks(event, n.estop);
    var (action, next) := EstopTable(event, n.estop);
    SignsOf(action, n.(estop := next, pending := NoEvent), env, d);
  }

  lemma TableAsks(event: EstopEvent, state: EstopState)
    ensures var (action, next) := EstopTable(event, state);
      && next == (if state == Done && event != Suspend then Done else Asked(event, state))
      && (next == Done <==> action in {InDone, ToAbort, ToDone})
      && (next == Running <==> action in {InRun, ToRun})
  {
    match event
    case Abort => case Pause => case Quit => case Start => case Suspend => case NoEvent =>
  }

  lemma SignsOf(action: EstopAction, n: Nav, env: NavEnv, d: Drive)
    requires action != EstopError
    ensures var t := EstopAct(action, n, env, d).nav;
      && t.estop == n.estop && (t.flasher <==> action !in {InDone, ToAbort, ToDone}) && (t.alarm <==> action in {InRun, ToRun})
  {
    if action == InRun || action == ToRun {
      var m := n.(flasher := true, alarm := true);
      RunKeepsEstop(m, env, d);
      RunKeepsSigns(m, env, d);
    }
  }

  lemma RunKeepsSigns(n: Nav, env: NavEnv, d: Drive)
    ensures RunControl(n, env, d).nav.flasher == n.flasher && RunControl(n, env, d).nav.alarm == n.alarm
  {}

  /** The event of cycle i. */
  ghost function EventAt(states: seq<Nav>, envs: seq<NavEnv>, i: nat): EstopEvent
    requires i < |envs| < |states|
  {
    CurrentEvent(states[i], envs[i])
  }

  /** Cycle i moves the E-stop state as the law says. */
  ghost predicate Lawful(states: seq<Nav>, envs: seq<NavEnv>, i: nat)
    requires i < |envs| < |states|
  {
    var was, event := states[i].estop, EventAt(states, envs, i);
    states[i + 1].estop == if was == Done && event != Suspend then Done else Asked(event, was)
  }

  lemma RunIsLawful(states: seq<Nav>, outs: seq<NavStep>, envs: seq<NavEnv>, cfg: Config, i: nat)
    requires IsNavRun(states, outs, envs, cfg) && i < |envs|
    ensures Lawful(states, envs, i)
  {
    assert outs[i] == NavCycle(states[i], envs[i], cfg) && states[i + 1] == outs[i].nav;
    EstopLaw(states[i], envs[i], DriveOf(states[i], envs[i], cfg));
  }

  ghost predicate LawfulRun(states: seq<Nav>, envs: seq<NavEnv>) {
    |states| == |envs| + 1 && forall i: nat :: i < |envs| ==> Lawful(states, envs, i)
  }

  lemma NavRunLawful(states: seq<Nav>, outs: seq<NavStep>, envs: seq<NavEnv>, cfg: Config)
    requires IsNavRun(states, outs, envs, cfg)
    ensures LawfulRun(states, envs)
  {
    forall i: nat | i < |envs| ensures Lawful(states, envs, i) { RunIsLawful(states, outs, envs, cfg, i); }
  }

  /** The run was started in cycle a, and up to cycle b nothing has ended it. */
  ghost predicate StartedAt(states: seq<Nav>, envs: seq<NavEnv>, a: nat, b: nat)
    requires a < b <= |envs| < |states|
  {
    && EventAt(states, envs, a) == Start && states[a].estop != Done
    && forall i: nat :: a < i < b ==> EventAt(states, envs, i) == Start || EventAt(states, envs, i) == NoEvent
  }

  ghost predicate Started(states: seq<Nav>, envs: seq<NavEnv>, b: nat)
    requires b <= |envs| < |states|
  {
    exists a: nat :: a < b && StartedAt(states, envs, a, b)
  }

  lemma {:induction false} LawfulRunning(states: seq<Nav>, envs: seq<NavEnv>, b: nat)
    requires LawfulRun(states, envs) && b <= |envs| && states[0].estop != Running
    ensures states[b].estop == Running <==> Started(states, envs, b)
    decreases b
  {
    if b > 0 {
      LawfulRunning(states, envs, b - 1);
      assert Lawful(states, envs, b - 1);
      var event := EventAt(states, envs, b - 1);
      if states[b].estop == Running {
        if event == Start {
          assert StartedAt(states, envs, b - 1, b);
        } else {
          var a: nat :| a < b - 1 && StartedAt(states, envs, a, b - 1);
          assert StartedAt(states, envs, a, b);
        }
      }
      if Started(states, envs, b) {
        var a: nat :| a < b && StartedAt(states, envs, a, b);
        if a < b - 1 {
          assert StartedAt(states, envs, a, b - 1);
          assert event == Start || event == NoEvent;
        }
      }
    }
  }

  /**
   * Over whole runs: the E-stop state is Running if and only if a run order arrived in a cycle that
   * was not Done, and since then no pause, quit, suspend or abort.
   */
  lemma RunningExactly(states: seq<Nav>, outs: seq<NavStep>, envs: seq<NavEnv>, cfg: Config, b: nat)
    requires IsNavRun(states, outs, envs, cfg) && b <= |envs| && states[0].estop != Running
    ensures states[b].estop == Running <==> Started(states, envs, b)
  {
    NavRunLawful(states, outs, envs, cfg);
    LawfulRunning(states, envs, b);
  }

  lemma NoFailureSince(states: seq<Nav>, outs: seq<NavStep>, envs: seq<NavEnv>, a: nat, b: nat, i: nat)
    requires EstoppedRun(states, outs, envs) && a <= i < b < |envs| && StartedAt(states, envs, a, b + 1)
    requires states[i + 1].estop == Running
    ensures !Fatal(outs[i].result)
  {
    assert Estopped(states[i], envs[i], outs[i]) && states[i + 1] == outs[i].nav;
    assert EventAt(states, envs, i + 1) == Start || EventAt(states, envs, i + 1) == NoEvent;
  }

  lemma RunningSince(states: seq<Nav>, envs: seq<NavEnv>, a: nat, b: nat, i: nat)
    requires LawfulRun(states, envs) && a <= i < b < |envs| && StartedAt(states, envs, a, b + 1)
    requires states[0].estop != Running
    ensures states[i + 1].estop == Running
  {
    assert StartedAt(states, envs, a, i + 1);
    LawfulRunning(states, envs, i + 1);
  }

  /** Outside Running the vehicle is halted. */
  lemma MovingIsRunning(states: seq<Nav>, outs: seq<NavStep>, envs: seq<NavEnv>, b: nat)
    requires EstoppedRun(states, outs, envs) && b < |envs| && outs[b].cmd != HALT
    ensures states[b + 1].estop == Running
  {
    assert Estopped(states[b], envs[b], outs[b]) && states[b + 1] == outs[b].nav;
  }

  ghost predicate NoFailure(outs: seq<NavStep>, a: nat, b: nat)
    requires b <= |outs|
  {
    forall i: nat :: a <= i < b ==> !Fatal(outs[i].result)
  }

  /** Cycle a had a run order, and up to cycle b no pause, quit, suspend or abort order came. */
  ghost predicate OrderedAt(envs: seq<NavEnv>, a: nat, b: nat)
    requires a < b <= |envs|
  {
    && envs[a].behavior == RunOrder
    && forall i: nat :: a < i < b ==> envs[i].behavior !in {AbortOrder, QuitOrder, PauseOrder, SuspendOrder}
  }

  lemma StartedByOrder(states: seq<Nav>, outs: seq<NavStep>, envs: seq<NavEnv>, a: nat, b: nat)
    requires EstoppedRun(states, outs, envs) && a < b <= |envs| && StartedAt(states, envs, a, b)
    requires states[0].pending == NoEvent
    ensures OrderedAt(envs, a, b)
  {
    PendingAt(states, outs, envs, a);
    forall i: nat | a < i < b ensures envs[i].behavior !in {AbortOrder, QuitOrder, PauseOrder, SuspendOrder} {
      PendingAt(states, outs, envs, i);
      assert EventAt(states, envs, i) == Start || EventAt(states, envs, i) == NoEvent;
    }
  }

  lemma PendingAt(states: seq<Nav>, outs: seq<NavStep>, envs: seq<NavEnv>, i: nat)
    requires EstoppedRun(states, outs, envs) && states[0].pending == NoEvent && i < |states|
    ensures states[i].pending == Abort || states[i].pending == NoEvent
  {
    if i > 0 {
      var j := i - 1;
      assert Estopped(states[j], envs[j], outs[j]) && states[j + 1] == outs[j].nav;
    }
  }

  /**
   * The vehicle is moved only in a run that a run order started, that no later order has paused,
   * suspended or ended, and in which no cycle failed.
   */
  lemma MovesOnlyWhenStarted(states: seq<Nav>, outs: seq<NavStep>, envs: seq<NavEnv>, cfg: Config, b: nat)
    returns (a: nat)
    requires IsNavRun(states, outs, envs, cfg) && b < |envs| && states[0].estop != Running && states[0].pending == NoEvent
    requires outs[b].cmd != HALT
    ensures a <= b && OrderedAt(envs, a, b + 1) && states[a].estop != Done && NoFailure(outs, a, b)
  {
    NavRunEstopped(states, outs, envs, cfg);
    NavRunLawful(states, outs, envs, cfg);
    a := MovingWasStarted(states, outs, envs, b);
    StartedByOrder(states, outs, envs, a, b + 1);
  }

  lemma MovingWasStarted(states: seq<Nav>, outs: seq<NavStep>, envs: seq<NavEnv>, b: nat) returns (a: nat)
    requires EstoppedRun(states, outs, envs) && LawfulRun(states, envs) && b < |envs| && states[0].estop != Running
    requires outs[b].cmd != HALT
    ensures a <= b && StartedAt(states, envs, a, b + 1) && NoFailure(outs, a, b)
  {
    MovingIsRunning(states, outs, envs, b);
    LawfulRunning(states, envs, b + 1);
    a :| a < b + 1 && StartedAt(states, envs, a, b + 1);
    forall i: nat | a <= i < b ensures !Fatal(outs[i].result) {
      RunningSince(states, envs, a, b, i);
      NoFailureSince(states, outs, envs, a, b, i);
    }
  }

  // ---------------------------------------------------------------- road properties, seen from the top

  /** The cycle calls the road controller. */
  predicate RunsRoad(n: Nav, env: NavEnv) {
    && EstopTable(CurrentEvent(n, env), n.estop).1 == Running
    && env.behavior == Go && env.havePolygons && !OrderDone(env) && n.go == Continue
  }

  /**
   * The run controller never leaves Continue, and then a cycle either leaves the road alone and
   * halts, or is a road cycle.
   */
  lemma RoadOrHalt(n: Nav, env: NavEnv, d: Drive)
    requires n.go == Continue
    ensures var t := EstopControl(n, env, d);
      && t.nav.go == Continue
      && (if RunsRoad(n, env) then
            t.nav.road == d.carryOn.road && t.cmd == Reversed(d.carryOn.cmd, env.reverse) && t.result == d.carryOn.result
            && t.nav.estop == Running
          else t.nav.road == n.road && t.cmd == HALT)
  {
    var event := CurrentEvent(n, env);
    EstopTableTotal(event, n.estop);
    var (action, next) := EstopTable(event, n.estop);
    var m := n.(estop := next, pending := NoEvent);
    if next == Running { RunningAct(action, m, env, d); } else { HaltingAct(action, m, env, d); }
  }

  lemma RunningAct(action: EstopAction, n: Nav, env: NavEnv, d: Drive)
    requires n.go == Continue && (action == InRun || action == ToRun)
    ensures var t := EstopAct(action, n, env, d);
      && t.nav.go == Continue && t.nav.estop == n.estop
      && (if env.behavior == Go && env.havePolygons && !OrderDone(env) then
            t.nav.road == d.carryOn.road && t.cmd == Reversed(d.carryOn.cmd, env.reverse) && t.result == d.carryOn.result
          else t.nav.road == n.road && t.cmd == HALT)
  {
    RunRoadOrHalt(n.(flasher := true, alarm := true), env, d);
  }

  lemma HaltingAct(action: EstopAction, n: Nav, env: NavEnv, d: Drive)
    requires action != InRun && action != ToRun
    ensures var t := EstopAct(action, n, env, d); t.nav.go == n.go && t.nav.road == n.road && t.cmd == HALT
  {}

  lemma RunRoadOrHalt(n: Nav, env: NavEnv, d: Drive)
    requires n.go == Continue
    ensures var t := RunControl(n, env, d);
      && t.nav.go == Continue && t.nav.estop == n.estop
      && (if env.behavior == Go && env.havePolygons && !OrderDone(env) then
            t.nav.road == d.carryOn.road && t.cmd == Reversed(d.carryOn.cmd, env.reverse) && t.result == d.carryOn.result
          else t.nav.road == n.road && t.cmd == HALT)
  {}

  /** A road error aborts the run: Done in the next cycle. */
  lemma RoadErrorForcesDone(
      states: seq<Nav>, outs: seq<NavStep>, envs: seq<NavEnv>, cfg: Config, a: nat, b: nat)
    requires IsNavRun(states, outs, envs, cfg) && a + 1 < b <= |envs|
    requires states[a].go == Continue && RunsRoad(states[a], envs[a]) && NextAction(states[a].road) == Error
    requires forall i :: a + 1 < i < b ==> envs[i].behavior != SuspendOrder
    ensures outs[a].cmd == HALT && states[b].estop == Done && outs[b - 1].cmd == HALT
  {
    ErrorCycle(states[a], envs[a], cfg);
    FatalForcesDone(states, outs, envs, cfg, a, b);
  }

  lemma ErrorCycle(n: Nav, env: NavEnv, cfg: Config)
    requires n.go == Continue && RunsRoad(n, env) && NextAction(n.road) == Error
    ensures var t := NavCycle(n, env, cfg); t.cmd == HALT && t.result == NotApplicable && t.nav.estop == Running
  {
    RoadOrHalt(n, env, DriveOf(n, env, cfg));
  }

  // ---------------------------------------------------------------- fatal road results

  /**
   * What makes a road cycle fail for good: the error action, a perimeter way-point reached in a
   * zone, or a fatal result of a subordinate controller that the action passes on.
   */
  predicate FatalCause(a: Action, env: Env) {
    match a
    case Error => true
    case InZone | ToZone => env.at1 && env.waypt.perimeter1
    case InBlock | ToBlock | PassToBlock => !env.newWaypts && Fatal(env.followLane.result)
    case InPass => Fatal(env.passing.result)
    case ToPass => env.switchLanes && Fatal(env.passing.result)
    case InUturn | ToUturn => Fatal(env.uturn.result)
    case InWaitPass => Fatal(env.followSafely.result)
    case ToWaitPass => env.findPassingLane && Fatal(env.followSafely.result)
    case _ => false
  }

  lemma FatalAct(a: Action, r: Fields, env: Env, cfg: Config)
    ensures Fatal(Act(a, r, env, cfg).result) <==> FatalCause(a, env)
  {
    match a
    case Error | InEvade | InInit | PassToEvade | ToEvade =>
    case InBlock | ToBlock | PassToBlock =>
    case InFollow | EvadeToFollow | PassToFollow | ToFollow | WaitPassToFollow =>
    case InPass | ToPass | InUturn | ToUturn | InZone | ToZone =>
    case InWaitCross | ToWaitCross | ZoneToWaitCross | InWaitLane | ToWaitLane | InWaitStop | ToWaitStop =>
    case InWaitPass | ToWaitPass =>
  }

  /** A road cycle, from any state: its result is fatal exactly for one of the causes. */
  lemma FatalExactly(r: Fields, env: Env, cfg: Config)
    ensures Fatal(Control(r, env, cfg).result) <==> FatalCause(NextAction(r), env)
  {
    var (action, next) := Table(r.pending, r.state);
    FatalAct(action, r.(state := next, pending := None), env, cfg);
  }

  /** Whenever the road controller runs, it is on its way to a way-point not reached yet. */
  lemma NotThereYet(n: Nav, env: NavEnv)
    requires RunsRoad(n, env)
    ensures Shifted(env)[0].id == env.last && !RoadEnv(env).at1
  {
    Orders.AdvancedFront(env.order, env.last);
  }

  /** The causes that are left under the run controller: a zone is none. */
  predicate AbortCause(a: Action, env: Env) { a != InZone && a != ToZone && FatalCause(a, env) }

  /** A cycle that calls the road leaves an abort pending exactly for one of the causes. */
  lemma AbortExactly(n: Nav, env: NavEnv, cfg: Config)
    requires n.go == Continue && RunsRoad(n, env)
    ensures var t := NavCycle(n, env, cfg);
      && t.nav.estop == Running
      && (Fatal(t.result) <==> AbortCause(NextAction(n.road), RoadEnv(env)))
      && (t.nav.pending == Abort <==> AbortCause(NextAction(n.road), RoadEnv(env)))
  {
    var d := DriveOf(n, env, cfg);
    NotThereYet(n, env);
    RoadOrHalt(n, env, d);
    EstopCycle(n, env, d);
    FatalExactly(n.road, RoadEnv(env), cfg);
  }

  /** Any of the causes forces Done in the next cycle, whatever order arrives, until a suspend order. */
  lemma FatalRoadForcesDone(
      states: seq<Nav>, outs: seq<NavStep>, envs: seq<NavEnv>, cfg: Config, a: nat, b: nat)
    requires IsNavRun(states, outs, envs, cfg) && a + 1 < b <= |envs|
    requires states[a].go == Continue && RunsRoad(states[a], envs[a])
    requires AbortCause(NextAction(states[a].road), RoadEnv(envs[a]))
    requires forall i :: a + 1 < i < b ==> envs[i].behavior != SuspendOrder
    ensures states[b].estop == Done && outs[b - 1].cmd == HALT
  {
    AbortExactly(states[a], envs[a], cfg);
    FatalForcesDone(states, outs, envs, cfg, a, b);
  }

  /**
   * A cycle in a zone is never fatal: it passes on the speed limit, straight ahead, and the next
   * road cycle waits to cross out of the zone, whatever that finds.
   */
  lemma ZoneIsHarmless(n: Nav, env: NavEnv, later: NavEnv, cfg: Config)
    requires n.go == Continue && RunsRoad(n, env) && (NextAction(n.road) == InZone || NextAction(n.road) == ToZone)
    ensures var t := NavCycle(n, env, cfg); var u := NavCycle(t.nav, later, cfg);
      && t.result == OK && t.nav.pending == NoEvent && t.nav.estop == Running && t.nav.road.state == Zone
      && t.cmd == Reversed(Command(env.maxSpeed, 0.0), env.reverse)
      && (RunsRoad(t.nav, later) ==> u.nav.road.state == WaitCross && u.cmd == Reversed(HALT, later.reverse))
  {
    var t := NavCycle(n, env, cfg);
    ZoneEntered(n, env, cfg);
    if RunsRoad(t.nav, later) { ZoneLeft(t.nav, later, cfg); }
  }

  lemma ZoneLeft(n: Nav, env: NavEnv, cfg: Config)
    requires n.go == Continue && RunsRoad(n, env) && n.road.state == Zone && n.road.pending == Perimeter
    ensures var t := NavCycle(n, env, cfg); t.nav.road.state == WaitCross && t.cmd == Reversed(HALT, env.reverse)
  {
    ZoneLeftControl(n.road, RoadEnv(env), cfg);
    RoadOrHalt(n, env, DriveOf(n, env, cfg));
  }

  lemma ZoneLeftControl(r: Fields, env: Env, cfg: Config)
    requires r.state == Zone && r.pending == Perimeter
    ensures Control(r, env, cfg).road.state == WaitCross && Control(r, env, cfg).cmd == HALT
  {}

  lemma ZoneEntered(n: Nav, env: NavEnv, cfg: Config)
    requires n.go == Continue && RunsRoad(n, env) && (NextAction(n.road) == InZone || NextAction(n.road) == ToZone)
    ensures var t := NavCycle(n, env, cfg);
      && t.result == OK && t.nav.pending == NoEvent && t.nav.estop == Running && t.nav.go == Continue
      && t.nav.road.state == Zone && t.nav.road.pending == Perimeter
      && t.cmd == Reversed(Command(env.maxSpeed, 0.0), env.reverse)
  {
    NotThereYet(n, env);
    ZoneControl(n.road, RoadEnv(env), cfg);
    RoadOrHalt(n, env, DriveOf(n, env, cfg));
    EstopCycle(n, env, DriveOf(n, env, cfg));
  }

  lemma ZoneControl(r: Fields, env: Env, cfg: Config)
    requires !env.at1 && (NextAction(r) == InZone || NextAction(r) == ToZone)
    ensures var t := Control(r, env, cfg);
      t.result == OK && t.cmd == env.cmd && t.road.state == Zone && t.road.pending == Perimeter
  {
    TableTarget(r.pending, r.state);
  }

  /** A cycle as the stop-line argument needs it. */
  ghost predicate NavSummary(n: Nav, env: NavEnv, t: NavStep, cfg: Config) {
    n.go == Continue ==>
      && t.nav.go == Continue
      && (|| (t.nav.road == n.road && t.cmd == HALT)
          || exists s :: Summary(n.road, RoadEnv(env), s, cfg) && t.nav.road == s.road && (s.cmd == HALT ==> t.cmd == HALT))
  }

  lemma NavCycleSummary(n: Nav, env: NavEnv, cfg: Config)
    ensures NavSummary(n, env, NavCycle(n, env, cfg), cfg)
  {
    if n.go == Continue {
      RoadOrHalt(n, env, DriveOf(n, env, cfg));
      if RunsRoad(n, env) { CycleSummary(n.road, RoadEnv(env), cfg); }
    }
  }

  ghost predicate NavSummarised(states: seq<Nav>, outs: seq<NavStep>, envs: seq<NavEnv>, cfg: Config) {
    && |states| == |envs| + 1 && |outs| == |envs|
    && forall i :: 0 <= i < |envs| ==> NavSummary(states[i], envs[i], outs[i], cfg) && states[i + 1] == outs[i].nav
  }

  lemma NavRunSummarised(states: seq<Nav>, outs: seq<NavStep>, envs: seq<NavEnv>, cfg: Config)
    requires IsNavRun(states, outs, envs, cfg)
    ensures NavSummarised(states, outs, envs, cfg)
  {
    forall i | 0 <= i < |envs| ensures NavSummary(states[i], envs[i], outs[i], cfg) && states[i + 1] == outs[i].nav {
      NavCycleSummary(states[i], envs[i], cfg);
    }
  }

  /** At the stop line, or crossing after a stop of n road cycles that was long enough. */
  ghost predicate Waiting(r: Fields, cfg: Config, n: nat) {
    StopInv(r, cfg, n) || (n as real * TICK >= LeastDelay(cfg) && exists env :: CrossInv(r, env))
  }

  ghost predicate StoppedNavRun(states: seq<Nav>, a: nat, b: nat)
    requires a < b < |states|
  {
    && states[a].go == Continue
    && states[a].road.state != WaitStop && states[a + 1].road.state == WaitStop
    && forall i :: a < i <= b ==> states[i].road.state != Follow
  }

  lemma {:induction false} NavWaits(
      states: seq<Nav>, outs: seq<NavStep>, envs: seq<NavEnv>, cfg: Config, a: nat, b: nat) returns (n: nat)
    requires NavSummarised(states, outs, envs, cfg) && a < b <= |envs| && StoppedNavRun(states, a, b)
    ensures n <= b - a && Waiting(states[b].road, cfg, n) && states[b].go == Continue && outs[b - 1].cmd == HALT
    decreases b
  {
    assert NavSummary(states[b - 1], envs[b - 1], outs[b - 1], cfg) && states[b - 1 + 1] == outs[b - 1].nav;
    if b == a + 1 {
      n := 1;
    } else {
      n := NavWaits(states, outs, envs, cfg, a, b - 1);
      n := WaitStep(states[b - 1], envs[b - 1], outs[b - 1], cfg, n);
    }
  }

  lemma WaitStep(s: Nav, env: NavEnv, t: NavStep, cfg: Config, n: nat) returns (k: nat)
    requires NavSummary(s, env, t, cfg) && s.go == Continue
    requires Waiting(s.road, cfg, n) && t.nav.road.state != Follow
    ensures k <= n + 1 && Waiting(t.nav.road, cfg, k) && t.cmd == HALT
  {
    if t.nav.road == s.road && t.cmd == HALT {
      k := n;
    } else {
      var u :| Summary(s.road, RoadEnv(env), u, cfg) && t.nav.road == u.road && (u.cmd == HALT ==> t.cmd == HALT);
      if StopInv(s.road, cfg, n) {
        if s.road.pending == Merge { k := n; } else { k := n + 1; }
      } else {
        var seen :| CrossInv(s.road, seen);
        k := n;
      }
    }
  }

  /**
   * Whatever orders arrive and however long the run is paused, from the cycle that reaches the
   * stop line every Navigator cycle commands a halt until the road controller follows a lane.
   */
  lemma StopLineHoldsTheVehicle(
      states: seq<Nav>, outs: seq<NavStep>, envs: seq<NavEnv>, cfg: Config, a: nat, b: nat, i: nat)
    requires IsNavRun(states, outs, envs, cfg) && a < b <= |envs| && StoppedNavRun(states, a, b)
    requires a <= i < b
    ensures outs[i].cmd == HALT
  {
    NavRunSummarised(states, outs, envs, cfg);
    SummarisedHalts(states, outs, envs, cfg, a, b, i);
  }

  lemma SummarisedHalts(
      states: seq<Nav>, outs: seq<NavStep>, envs: seq<NavEnv>, cfg: Config, a: nat, b: nat, i: nat)
    requires NavSummarised(states, outs, envs, cfg) && a < b <= |envs| && StoppedNavRun(states, a, b)
    requires a <= i < b
    ensures outs[i].cmd == HALT
  {
    var c := i + 1;
    assert StoppedNavRun(states, a, c);
    var n := NavWaits(states, outs, envs, cfg, a, c);
    assert outs[c - 1] == outs[i];
  }

  /** It follows a lane only after at least the shorter delay has passed in Navigator cycles. */
  lemma StopLineTakesTime(
      states: seq<Nav>, outs: seq<NavStep>, envs: seq<NavEnv>, cfg: Config, a: nat, b: nat)
    requires IsNavRun(states, outs, envs, cfg) && a + 1 < b <= |envs|
    requires StoppedNavRun(states, a, b - 1) && states[b].road.state == Follow
    ensures (b - 1 - a) as real * TICK >= LeastDelay(cfg)
  {
    NavRunSummarised(states, outs, envs, cfg);
    var n := NavWaits(states, outs, envs, cfg, a, b - 1);
    LeavesByCrossingOnly(states[b - 1], envs[b - 1], outs[b - 1], cfg, n);
    assert n as real <= (b - 1 - a) as real;
  }

  lemma LeavesByCrossingOnly(s: Nav, env: NavEnv, t: NavStep, cfg: Config, n: nat)
    requires NavSummary(s, env, t, cfg) && s.go == Continue && Waiting(s.road, cfg, n) && t.nav.road.state == Follow
    ensures n as real * TICK >= LeastDelay(cfg)
  {
  }

  // ---------------------------------------------------------------- the controller objects

  class Estop {
    var state: EstopState
    var pending: EstopEvent
    var go: GoState
    var lastReplan: int
    var flasher: bool
    var alarm: bool
    const road: Controller

    constructor (cfg: Config)
      ensures Valid() && state == Paused && pending == NoEvent && go == Continue && road.cfg == cfg
    {
      road := new Controller(cfg);
      state, pending, go, lastReplan, flasher, alarm := Paused, NoEvent, Continue, 0, false, false;
    }

    ghost predicate Valid() { road.Valid() }

    ghost function Snapshot(): Nav
      reads this, road, road.Timers()
    {
      Nav(state, pending, go, lastReplan, road.Snapshot(), flasher, alarm)
    }

    /** One Navigator cycle: E-stop transition, then the action of the new state. */
    method Navigate(env: NavEnv) returns (cmd: Command, result: Result)
      requires Valid()
      modifies this, road, road.Timers()
      ensures NavStep(Snapshot(), cmd, result) == NavCycle(old(Snapshot()), env, road.cfg)
    {
      var event := pending;
      if event == NoEvent {
        event := OrderEvent(env.behavior);
      } else {
        pending := NoEvent;
      }
      var (action, next) := EstopTable(event, state);
      state := next;
      cmd, result := Perform(action, env);
    }

    method Perform(action: EstopAction, env: NavEnv) returns (cmd: Command, result: Result)
      requires Valid()
      modifies this, road, road.Timers()
      ensures NavStep(Snapshot(), cmd, result)
           == EstopAct(action, old(Snapshot()), env, DriveOf(old(Snapshot()), env, road.cfg))
    {
      cmd, result := HALT, OK;
      match action
      case EstopError =>
        pending := Abort;
        result := NotImplemented;
      case InRun | ToRun => cmd, result := KeepRunning(env);
      case InPause | ToPause | InSuspend | ToSuspend => flasher, alarm := true, false;
      case InDone | ToAbort | ToDone => flasher, alarm := false, false;
    }

    method KeepRunning(env: NavEnv) returns (cmd: Command, result: Result)
      requires Valid()
      modifies this, road, road.Timers()
      ensures NavStep(Snapshot(), cmd, result) == RunAction(old(Snapshot()), env, DriveOf(old(Snapshot()), env, road.cfg))
    {
      flasher, alarm := true, true;
      cmd, result := RunCycle(env);
      if Fatal(result) { pending := Abort; }
    }

    method RunCycle(env: NavEnv) returns (cmd: Command, result: Result)
      requires Valid()
      modifies this`go, road, road.Timers()
      ensures NavStep(Snapshot(), cmd, result) == RunControl(old(Snapshot()), env, DriveOf(old(Snapshot()), env, road.cfg))
    {
      if env.behavior == RunOrder || !env.havePolygons { return HALT, OK; }
      match env.behavior {
        case Go => cmd, result := GoCycle(env);
        case Initialize => cmd, result := HALT, if env.startFound then OK else NotApplicable;
        case _ => cmd, result := HALT, NotImplemented;
      }
      if env.reverse { cmd := cmd.(velocity := -cmd.velocity); }
    }

    method GoCycle(env: NavEnv) returns (cmd: Command, result: Result)
      requires Valid()
      modifies this`go, road, road.Timers()
      ensures NavStep(Snapshot(), cmd, result) == GoControl(old(Snapshot()), env, DriveOf(old(Snapshot()), env, road.cfg))
    {
      if OrderDone(env) { return HALT, OK; }
      if go == Escape { return Command(env.maxSpeed, 0.0), NotImplemented; }
      if go == Replan {
        if env.replanNum == lastReplan { return HALT, OK; }
        road.ResetMe();
        go := Continue;
      }
      cmd, result := road.Run(RoadEnv(env));
    }
  }
}
