/** The Navigator's road state machine. */
module Road {
  import opened NavTimers

  datatype State = Init | Block | Evade | Follow | Pass | Uturn | WaitCross | WaitLane | WaitPass | WaitStop | Zone

  datatype Event =
    | BlockEvent | ChangeLane | CollisionEvent | FollowLane | Merge | None
    | PassEvent | Perimeter | StopLine | UturnEvent | WaitPassEvent

  datatype Result =
    | OK | Caution | Beware | Unsafe | Blocked | Collision | Finished | NotApplicable | NotImplemented

  datatype Command = Command(velocity: real, yawRate: real)

  const HALT := Command(0.0, 0.0)

  datatype Observer =
    | NearestForward | NearestBackward | AdjacentLeft | AdjacentRight | AllLeft | AllRight
    | MergeIntoNearest | MergeAcrossAll | Intersection

  datatype Observation = Observation(applicable: bool, clear: bool, nobjects: int)

  datatype Direction = Straight | Left | Right

  datatype Config = Config(stopLineDelay: real, precedenceDelay: real, passingDelay: real, roadblockDelay: real)

  /** What a subordinate controller returned and the command it left. */
  datatype Controlled = Controlled(result: Result, cmd: Command)

  /** The way-point flags of an order that the road controller looks at. */
  datatype WayPointFlags = WayPointFlags(
    perimeter0: bool, spot0: bool, uturn0: bool,
    perimeter1: bool, stop1: bool, uturn1: bool, laneChange1: bool,
    exit1: bool, sameLane12: bool, noMerge: bool)

  /**
   * Everything one road cycle can observe. Controllers and observers may answer anything; way-point
   * 1 is the last one reached when the cycle begins (at1) or after a lane controller ran (reached1).
   */
  datatype Env = Env(
    cmd: Command,
    stopped: bool,
    at1: bool,
    reached1: bool,
    waypt: WayPointFlags,
    newWaypts: bool,
    followLane: Controlled,
    followSafely: Controlled,
    passing: Controlled,
    uturn: Controlled,
    findPassingLane: bool,
    passingLeft: bool,
    switchLanes: bool,
    laneDirection: Direction,
    obs: Observer -> Observation)

  /** The fields of the controller that survive a cycle, and the road_blocked flag it reports. */
  datatype Fields = Fields(
    state: State,
    pending: Event,
    crossing: Observer,
    laneDirection: Direction,
    prevNobjects: int,
    passingFirst: bool,
    passing: Timer,
    precedence: Timer,
    roadblock: Timer,
    stopLine: Timer,
    roadBlocked: bool)

  datatype Step = Step(road: Fields, cmd: Command, result: Result)

  datatype Action =
    | Error
    | InBlock | InEvade | InFollow | InInit | InPass | InUturn | InWaitCross | InWaitLane | InWaitPass | InWaitStop | InZone
    | EvadeToFollow | PassToBlock | PassToEvade | PassToFollow | ToBlock | ToEvade | ToFollow | ToPass | ToUturn
    | ToWaitCross | ToWaitLane | ToWaitPass | ToWaitStop | ToZone | WaitPassToFollow | ZoneToWaitCross

  /** The transition table: unused entries run the error action and keep the state. */
  function Table(event: Event, state: State): (Action, State) {
    match (state, event)
    case (Block, CollisionEvent) => (ToEvade, Evade)
    case (Block, FollowLane) => (ToFollow, Follow)
    case (Block, None) => (InBlock, Block)
    case (Block, UturnEvent) => (ToUturn, Uturn)
    case (Evade, FollowLane) => (EvadeToFollow, Follow)
    case (Evade, None) => (InEvade, Evade)
    case (Evade, PassEvent) => (ToPass, Pass)
    case (Evade, WaitPassEvent) => (InEvade, Evade)
    case (Follow, BlockEvent) => (ToBlock, Block)
    case (Follow, ChangeLane) => (ToWaitLane, WaitLane)
    case (Follow, CollisionEvent) => (ToEvade, Evade)
    case (Follow, FollowLane) => (InFollow, Follow)
    case (Follow, Merge) => (ToWaitCross, WaitCross)
    case (Follow, None) => (InFollow, Follow)
    case (Follow, Perimeter) => (ToZone, Zone)
    case (Follow, StopLine) => (ToWaitStop, WaitStop)
    case (Follow, UturnEvent) => (ToUturn, Uturn)
    case (Follow, WaitPassEvent) => (ToWaitPass, WaitPass)
    case (Init, FollowLane) => (ToFollow, Follow)
    case (Init, Merge) => (ToWaitCross, WaitCross)
    case (Init, None) => (InInit, Init)
    case (Init, Perimeter) => (ToZone, Zone)
    case (Pass, BlockEvent) => (PassToBlock, Block)
    case (Pass, CollisionEvent) => (PassToEvade, Evade)
    case (Pass, FollowLane) => (PassToFollow, Follow)
    case (Pass, None) => (InPass, Pass)
    case (Pass, PassEvent) => (InPass, Pass)
    case (Uturn, FollowLane) => (ToFollow, Follow)
    case (Uturn, None) => (InUturn, Uturn)
    case (WaitCross, FollowLane) => (ToFollow, Follow)
    case (WaitCross, None) => (InWaitCross, WaitCross)
    case (WaitCross, Merge) => (InWaitCross, WaitCross)
    case (WaitLane, FollowLane) => (ToFollow, Follow)
    case (WaitLane, None) => (InWaitLane, WaitLane)
    case (WaitLane, ChangeLane) => (InWaitLane, WaitLane)
    case (WaitPass, BlockEvent) => (ToBlock, Block)
    case (WaitPass, CollisionEvent) => (ToEvade, Evade)
    case (WaitPass, FollowLane) => (WaitPassToFollow, Follow)
    case (WaitPass, None) => (InWaitPass, WaitPass)
    case (WaitPass, PassEvent) => (ToPass, Pass)
    case (WaitPass, WaitPassEvent) => (InWaitPass, WaitPass)
    case (WaitStop, Merge) => (ToWaitCross, WaitCross)
    case (WaitStop, None) => (InWaitStop, WaitStop)
    case (WaitStop, StopLine) => (InWaitStop, WaitStop)
    case (Zone, None) => (InZone, Zone)
    case (Zone, Perimeter) => (ZoneToWaitCross, WaitCross)
    case (_, _) => (Error, state)
  }

  predicate Clear(o: Observation) { o.clear && o.applicable }

  predicate PassingLaneClear(env: Env) {
    Clear(env.obs(if env.passingLeft then AdjacentLeft else AdjacentRight))
  }

  /** The event of the way-point just reached; order of the tests matters. */
  function WayPointEvent(env: Env, otherwise: Event): Event {
    var w := env.waypt;
    if !env.reached1 then otherwise
    else if w.perimeter1 then Perimeter
    else if w.stop1 then StopLine
    else if w.uturn1 then UturnEvent
    else if w.laneChange1 then ChangeLane
    else if w.exit1 && !w.sameLane12 && !w.noMerge then Merge
    else otherwise
  }

  // ---------------------------------------------------------------- steady-state actions

  function ActInBlock(r: Fields, env: Env): Step {
    if env.newWaypts then
      Step(r.(pending := if env.waypt.uturn0 then UturnEvent else FollowLane, roadBlocked := false), HALT, Blocked)
    else if env.followLane.result == Collision then
      Step(r.(pending := CollisionEvent), env.followLane.cmd, Collision)
    else if env.followLane.result == Blocked then
      Step(r, env.followLane.cmd, Blocked)
    else
      Step(r.(pending := WayPointEvent(env, FollowLane), roadBlocked := false), env.followLane.cmd, env.followLane.result)
  }

  function ActInFollow(r: Fields, env: Env): Step {
    var r1 := if env.stopped then r else r.(passing := r.passing.Cancelled());
    match env.followLane.result
    case Blocked => Step(r1.(pending := WaitPassEvent), env.followLane.cmd, OK)
    case Collision => Step(r1.(pending := CollisionEvent), env.followLane.cmd, Collision)
    case _ => Step(r1.(pending := WayPointEvent(env, r1.pending)), env.followLane.cmd, OK)
  }

  function ActInInit(r: Fields, env: Env): Step {
    Step(r.(pending := if env.waypt.perimeter0 || env.waypt.spot0 then Perimeter else FollowLane), HALT, OK)
  }

  function ActInPass(r: Fields, env: Env, cfg: Config): Step {
    var cmd := env.passing.cmd;
    match env.passing.result
    case Finished => Step(r.(pending := FollowLane, roadblock := r.roadblock.Cancelled()), cmd, OK)
    case Blocked =>
      var timer := r.roadblock.Ticked();
      if timer.Expired() then Step(r.(pending := BlockEvent, roadblock := timer.Cancelled()), cmd, Blocked)
      else if r.passingFirst then
        Step(r.(passingFirst := false, roadblock := timer.Restarted(cfg.roadblockDelay)), cmd, Unsafe)
      else Step(r.(roadblock := timer), cmd, Blocked)
    case Collision => Step(r.(pending := CollisionEvent, roadblock := r.roadblock.Cancelled()), cmd, Collision)
    case other => Step(r, cmd, other)
  }

  function ActInUturn(r: Fields, env: Env): Step {
    if env.uturn.result == Finished then Step(r.(pending := FollowLane), env.uturn.cmd, OK)
    else Step(r, env.uturn.cmd, env.uturn.result)
  }

  function ActInWaitCross(r: Fields, env: Env): Step {
    Step(if Clear(env.obs(r.crossing)) then r.(pending := FollowLane) else r, HALT, OK)
  }

  function ActInWaitLane(r: Fields, env: Env): Step {
    var go := r.laneDirection == Straight
              || Clear(env.obs(if r.laneDirection == Left then AdjacentLeft else AdjacentRight));
    Step(if go then r.(pending := FollowLane) else r, HALT, OK)
  }

  function ActInWaitPass(r: Fields, env: Env): Step {
    var r1 := r.(passing := r.passing.Ticked());
    var r2 := if r1.passing.Expired() && PassingLaneClear(env) then r1.(pending := PassEvent) else r1;
    var r3 := if env.followSafely.result == OK then r2.(pending := FollowLane)
              else if env.followSafely.result == Collision then r2.(pending := CollisionEvent) else r2;
    Step(r3, HALT, env.followSafely.result)
  }

  /** The stop timer counts; once it has expired and the intersection is clear, go on. */
  function StopTimerStep(r: Fields, obs: Observation): Fields {
    var r1 := r.(stopLine := r.stopLine.Ticked());
    if r1.stopLine.Expired() && Clear(obs) then GoOn(r1) else r1
  }

  /** The precedence timer counts, afresh whenever the number of cars changes; its expiry goes on. */
  function PrecedenceStep(r: Fields, obs: Observation, cfg: Config): Fields {
    var r1 := if obs.applicable && obs.nobjects != r.prevNobjects
              then r.(prevNobjects := obs.nobjects, precedence := Timer(true, cfg.precedenceDelay))
              else r;
    var r2 := r1.(precedence := r1.precedence.Ticked());
    if r2.precedence.Expired() then GoOn(r2) else r2
  }

  function GoOn(r: Fields): Fields {
    r.(stopLine := r.stopLine.Cancelled(), precedence := r.precedence.Cancelled(), pending := Merge)
  }

  /** Stop line: wait for the stop timer and a clear intersection, or for the precedence timeout. */
  function ActInWaitStop(r: Fields, env: Env, cfg: Config): Step {
    var obs := env.obs(Intersection);
    Step(PrecedenceStep(StopTimerStep(r, obs), obs, cfg), HALT, OK)
  }

  /** The zone controller is not connected: the incoming command is passed on unchanged. */
  function ActInZone(r: Fields, env: Env): Step {
    Step(r.(pending := Perimeter), env.cmd, if env.at1 && env.waypt.perimeter1 then NotApplicable else OK)
  }

  // ---------------------------------------------------------------- entry actions

  function ActToBlock(r: Fields, env: Env): Step { ActInBlock(r.(roadBlocked := true), env) }

  /** The evade controller is not connected: halt, unless passing is possible at once. */
  function ActToEvade(r: Fields, env: Env): Step {
    Step(if env.findPassingLane && PassingLaneClear(env) then r.(pending := PassEvent) else r, HALT, OK)
  }

  function ActToPass(r: Fields, env: Env, cfg: Config): Step {
    if env.switchLanes then ActInPass(r.(passing := r.passing.Cancelled()), env, cfg)
    else Step(r.(pending := BlockEvent), HALT, OK)
  }

  function ActToWaitCross(r: Fields, env: Env): Step { ActInWaitCross(r.(crossing := MergeAcrossAll), env) }

  function ActToWaitLane(r: Fields, env: Env): Step { ActInWaitLane(r.(laneDirection := env.laneDirection), env) }

  function ActToWaitPass(r: Fields, env: Env, cfg: Config): Step {
    var r1 := r.(passingFirst := true);
    if env.findPassingLane then ActInWaitPass(r1.(passing := r1.passing.Restarted(cfg.passingDelay)), env)
    else Step(r1.(pending := BlockEvent), HALT, Blocked)
  }

  function ActToWaitStop(r: Fields, env: Env, cfg: Config): Step {
    ActInWaitStop(
      r.(stopLine := Timer(true, cfg.stopLineDelay), precedence := Timer(true, cfg.precedenceDelay), prevNobjects := -1),
      env, cfg)
  }

  function Act(a: Action, r: Fields, env: Env, cfg: Config): Step {
    match a
    case Error => Step(r, HALT, NotApplicable)
    case InBlock => ActInBlock(r, env)
    case InEvade => Step(r, HALT, OK)
    case InFollow => ActInFollow(r, env)
    case InInit => ActInInit(r, env)
    case InPass => ActInPass(r, env, cfg)
    case InUturn => ActInUturn(r, env)
    case InWaitCross => ActInWaitCross(r, env)
    case InWaitLane => ActInWaitLane(r, env)
    case InWaitPass => ActInWaitPass(r, env)
    case InWaitStop => ActInWaitStop(r, env, cfg)
    case InZone => ActInZone(r, env)
    case EvadeToFollow => ActInFollow(r, env)
    case PassToBlock => ActToBlock(r, env)
    case PassToEvade => ActToEvade(r, env)
    case PassToFollow => ActInFollow(r, env)
    case ToBlock => ActToBlock(r, env)
    case ToEvade => ActToEvade(r, env)
    case ToFollow => ActInFollow(r, env)
    case ToPass => ActToPass(r, env, cfg)
    case ToUturn => ActInUturn(r, env)
    case ToWaitCross => ActToWaitCross(r, env)
    case ToWaitLane => ActToWaitLane(r, env)
    case ToWaitPass => ActToWaitPass(r, env, cfg)
    case ToWaitStop => ActToWaitStop(r, env, cfg)
    case ToZone => ActInZone(r, env)
    case WaitPassToFollow => ActInFollow(r, env)
    case ZoneToWaitCross => ActToWaitCross(r, env)
  }

  function NextAction(r: Fields): Action { Table(r.pending, r.state).0 }

  /** One call of the road controller. */
  function Control(r: Fields, env: Env, cfg: Config): Step {
    var (action, next) := Table(r.pending, r.state);
    Act(action, r.(state := next, pending := None), env, cfg)
  }

  /** A freshly reset controller; the fields that reset leaves alone are arbitrary. */
  predicate IsReset(r: Fields) {
    r.state == Init && r.pending == None
    && !r.passing.running && !r.precedence.running && !r.roadblock.running && !r.stopLine.running
  }

  /** Reset goes back to the initial state and cancels all timers; the other fields stay. */
  function Reset(r: Fields): (t: Fields)
    ensures IsReset(t)
  {
    r.(state := Init, pending := None, passing := r.passing.Cancelled(), precedence := r.precedence.Cancelled(),
       roadblock := r.roadblock.Cancelled(), stopLine := r.stopLine.Cancelled())
  }

  // ---------------------------------------------------------------- runs

  /**
   * A whole run: cycle i takes states[i] and envs[i] to outs[i] and states[i + 1].
   */
  ghost predicate IsRun(states: seq<Fields>, outs: seq<Step>, envs: seq<Env>, cfg: Config) {
    && |states| == |envs| + 1 && |outs| == |envs|
    && forall i :: 0 <= i < |envs| ==> outs[i] == Control(states[i], envs[i], cfg) && states[i + 1] == outs[i].road
  }

  // ---------------------------------------------------------------- error reachability

  /** Way-point events that no entry of the Block row handles. */
  predicate Unhandled(e: Event) { e == Perimeter || e == StopLine || e == ChangeLane || e == Merge }

  /** The cycle runs one of the block actions, finds the lane free again and a way-point reached. */
  predicate ClearsBlockAtWayPoint(r: Fields, env: Env) {
    && IsBlockAction(NextAction(r))
    && !env.newWaypts
    && env.followLane.result != Collision && env.followLane.result != Blocked
    && Unhandled(WayPointEvent(env, FollowLane))
  }

  predicate IsBlockAction(a: Action) { a == InBlock || a == ToBlock || a == PassToBlock }

  /** The state that an action other than the error action leaves the controller in. */
  function Target(a: Action): State
    requires a != Error
  {
    match a
    case InBlock | ToBlock | PassToBlock => Block
    case InEvade | ToEvade | PassToEvade => Evade
    case InFollow | EvadeToFollow | PassToFollow | ToFollow | WaitPassToFollow => Follow
    case InInit => Init
    case InPass | ToPass => Pass
    case InUturn | ToUturn => Uturn
    case InWaitCross | ToWaitCross | ZoneToWaitCross => WaitCross
    case InWaitLane | ToWaitLane => WaitLane
    case InWaitPass | ToWaitPass => WaitPass
    case InWaitStop | ToWaitStop => WaitStop
    case InZone | ToZone => Zone
  }

  lemma TableTarget(event: Event, state: State)
    ensures var (a, next) := Table(event, state); next == if a == Error then state else Target(a)
  {
    match state
    case Block | Evade | Follow => TableTargetDriving(event, state);
    case Init | Pass | Uturn | Zone => TableTargetManoeuvre(event, state);
    case WaitCross | WaitLane | WaitPass | WaitStop => TableTargetWaiting(event, state);
  }

  lemma TableTargetDriving(event: Event, state: State)
    requires state == Block || state == Evade || state == Follow
    ensures var (a, next) := Table(event, state); next == if a == Error then state else Target(a)
  {}

  lemma TableTargetManoeuvre(event: Event, state: State)
    requires state == Init || state == Pass || state == Uturn || state == Zone
    ensures var (a, next) := Table(event, state); next == if a == Error then state else Target(a)
  {}

  lemma TableTargetWaiting(event: Event, state: State)
    requires state == WaitCross || state == WaitLane || state == WaitPass || state == WaitStop
    ensures var (a, next) := Table(event, state); next == if a == Error then state else Target(a)
  {}

  /** The events that may be pending when a cycle leaves the controller in a state. */
  predicate MayRaise(s: State, e: Event) {
    e == None ||
    match s
    case Block => e == UturnEvent || e == FollowLane || e == CollisionEvent || Unhandled(e)
    case Evade => e == PassEvent
    case Follow => e == WaitPassEvent || e == CollisionEvent || e == UturnEvent || Unhandled(e)
    case Init => e == Perimeter || e == FollowLane
    case Pass => e == FollowLane || e == BlockEvent || e == CollisionEvent
    case Uturn | WaitCross | WaitLane => e == FollowLane
    case WaitPass => e == PassEvent || e == FollowLane || e == CollisionEvent || e == BlockEvent
    case WaitStop => e == Merge
    case Zone => e == Perimeter
  }

  lemma ActRaisesDriving(a: Action, r: Fields, env: Env, cfg: Config)
    requires r.pending == None && a != Error && r.state == Target(a)
    requires r.state == Block || r.state == Evade || r.state == Follow
    ensures Act(a, r, env, cfg).road.state == r.state
    ensures MayRaise(r.state, Act(a, r, env, cfg).road.pending)
  {
    match a
    case InBlock => case ToBlock => case PassToBlock => case InEvade => case ToEvade => case PassToEvade => case InFollow => case EvadeToFollow => case PassToFollow => case ToFollow => case WaitPassToFollow =>
  }

  lemma ActRaisesManoeuvre(a: Action, r: Fields, env: Env, cfg: Config)
    requires r.pending == None && a != Error && r.state == Target(a)
    requires r.state == Init || r.state == Pass || r.state == Uturn || r.state == Zone
    ensures Act(a, r, env, cfg).road.state == r.state
    ensures MayRaise(r.state, Act(a, r, env, cfg).road.pending)
  {
    match a
    case InInit => case InPass => case ToPass => case InUturn => case ToUturn => case InZone => case ToZone =>
  }

  lemma ActRaisesWaiting(a: Action, r: Fields, env: Env, cfg: Config)
    requires r.pending == None && a != Error && r.state == Target(a)
    requires r.state == WaitCross || r.state == WaitLane || r.state == WaitPass || r.state == WaitStop
    ensures Act(a, r, env, cfg).road.state == r.state
    ensures MayRaise(r.state, Act(a, r, env, cfg).road.pending)
  {
    match a
    case InWaitCross => case ToWaitCross => case ZoneToWaitCross => case InWaitLane => case ToWaitLane => case InWaitPass => case ToWaitPass => case InWaitStop => case ToWaitStop =>
  }

  lemma ActRaises(a: Action, r: Fields, env: Env, cfg: Config)
    requires r.pending == None && a != Error && r.state == Target(a)
    ensures Act(a, r, env, cfg).road.state == r.state
    ensures MayRaise(r.state, Act(a, r, env, cfg).road.pending)
  {
    match r.state
    case Block | Evade | Follow => ActRaisesDriving(a, r, env, cfg);
    case Init | Pass | Uturn | Zone => ActRaisesManoeuvre(a, r, env, cfg);
    case WaitCross | WaitLane | WaitPass | WaitStop => ActRaisesWaiting(a, r, env, cfg);
  }

  lemma RaisedEventsAreHandled(s: State, e: Event)
    requires MayRaise(s, e)
    ensures Table(e, s).0 == Error <==> s == Block && Unhandled(e)
  {
    match e
    case None => match s { case Init => case Block => case Evade => case Follow => case Pass => case Uturn =>
        case WaitCross => case WaitLane => case WaitPass => case WaitStop => case Zone => }
    case _ =>
  }

  /** Every state a cycle can end in; the error action keeps its state and clears the event. */
  lemma ControlRaises(r: Fields, env: Env, cfg: Config)
    ensures var t := Control(r, env, cfg).road; MayRaise(t.state, t.pending) && t.state == Table(r.pending, r.state).1
  {
    TableTarget(r.pending, r.state);
    var (a, next) := Table(r.pending, r.state);
    if a != Error { ActRaises(a, r.(state := next, pending := None), env, cfg); }
  }

  lemma BlockRaises(a: Action, r: Fields, env: Env, cfg: Config)
    requires IsBlockAction(a) && r.pending == None
    ensures var t := Act(a, r, env, cfg).road;
      Unhandled(t.pending) <==>
        !env.newWaypts && env.followLane.result != Collision && env.followLane.result != Blocked
        && Unhandled(WayPointEvent(env, FollowLane))
  {}

  /** After any cycle the error action is next exactly when that cycle cleared a blockage at a way-point. */
  lemma ErrorFollowsExactly(r: Fields, env: Env, cfg: Config)
    ensures var t := Control(r, env, cfg).road;
      && (NextAction(t) == Error <==> ClearsBlockAtWayPoint(r, env))
      && (NextAction(t) == Error ==> t.state == Block && Unhandled(t.pending))
  {
    var t := Control(r, env, cfg).road;
    ControlRaises(r, env, cfg);
    RaisedEventsAreHandled(t.state, t.pending);
    TableTarget(r.pending, r.state);
    var (a, next) := Table(r.pending, r.state);
    if IsBlockAction(a) { BlockRaises(a, r.(state := next, pending := None), env, cfg); }
  }

  /**
   * In every reachable state the pending event has a table entry, except way-point events raised
   * in Block by the cycle that cleared the blockage.
   */
  lemma ReachableErrors(states: seq<Fields>, outs: seq<Step>, envs: seq<Env>, cfg: Config, i: nat)
    requires IsRun(states, outs, envs, cfg) && IsReset(states[0]) && i < |states|
    ensures NextAction(states[i]) == Error <==> i > 0 && ClearsBlockAtWayPoint(states[i - 1], envs[i - 1])
    ensures NextAction(states[i]) == Error ==> states[i].state == Block && Unhandled(states[i].pending)
  {
    if i > 0 {
      assert states[i] == outs[i - 1].road;
      ErrorFollowsExactly(states[i - 1], envs[i - 1], cfg);
    }
  }

  // ---------------------------------------------------------------- a run into the error action

  /** The lane ahead is blocked and there is no lane to pass in. */
  predicate BlockedAhead(env: Env) {
    env.followLane.result == Blocked && !env.findPassingLane && !env.waypt.perimeter0 && !env.waypt.spot0
  }

  /** The lane is free again at a stop way-point, where following the lane is finished. */
  predicate ClearedAtStop(env: Env) {
    && env.followLane.result == Finished && !env.newWaypts
    && env.reached1 && env.waypt.stop1 && !env.waypt.perimeter1
  }

  lemma BlockedFollowing(r: Fields, env: Env, cfg: Config)
    requires r.state == Init && r.pending == FollowLane && BlockedAhead(env)
    ensures var t := Control(r, env, cfg).road; t.state == Follow && t.pending == WaitPassEvent
  {}

  lemma NoLaneToPass(r: Fields, env: Env, cfg: Config)
    requires r.state == Follow && r.pending == WaitPassEvent && BlockedAhead(env)
    ensures var t := Control(r, env, cfg).road; t.state == WaitPass && t.pending == BlockEvent
  {}

  lemma StopRaisedInBlock(r: Fields, env: Env, cfg: Config)
    requires r.state == WaitPass && r.pending == BlockEvent && ClearedAtStop(env)
    ensures var t := Control(r, env, cfg).road; t.state == Block && t.pending == StopLine
  {}

  lemma FourCycles(r: Fields, outs: seq<Step>, envs: seq<Env>, cfg: Config)
    requires |outs| == |envs| == 4
    requires outs[0] == Control(r, envs[0], cfg) && outs[1] == Control(outs[0].road, envs[1], cfg)
    requires outs[2] == Control(outs[1].road, envs[2], cfg) && outs[3] == Control(outs[2].road, envs[3], cfg)
    ensures IsRun([r, outs[0].road, outs[1].road, outs[2].road, outs[3].road], outs, envs, cfg)
  {}

  /** The error is reached from reset: blocked without a lane to pass in, then cleared at a stop. */
  lemma ErrorIsReached(r: Fields, blocked: Env, cleared: Env, cfg: Config)
    returns (states: seq<Fields>, outs: seq<Step>, envs: seq<Env>)
    requires IsReset(r) && BlockedAhead(blocked) && ClearedAtStop(cleared)
    ensures IsRun(states, outs, envs, cfg) && |envs| == 4 && states[0] == r && NextAction(states[4]) == Error
  {
    var a := Control(r, blocked, cfg);
    assert a.road.state == Init && a.road.pending == FollowLane;
    var b := Control(a.road, blocked, cfg);
    BlockedFollowing(a.road, blocked, cfg);
    var c := Control(b.road, blocked, cfg);
    NoLaneToPass(b.road, blocked, cfg);
    var d := Control(c.road, cleared, cfg);
    StopRaisedInBlock(c.road, cleared, cfg);
    states, outs, envs := [r, a.road, b.road, c.road, d.road], [a, b, c, d], [blocked, blocked, blocked, cleared];
    FourCycles(r, outs, envs, cfg);
  }
}
