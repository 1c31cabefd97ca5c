/** Why the road controller changes state: for every pair of states, exactly what the cycle before must have seen. */
module RoadCauses {
  import opened NavTimers
  import opened Road

  // ---------------------------------------------------------------- what a cycle can see

  /** The lane on the side is clear; there is nothing to wait for straight ahead. */
  predicate SideClear(env: Env, side: Direction) {
    match side
    case Left => Clear(env.obs(AdjacentLeft))
    case Right => Clear(env.obs(AdjacentRight))
    case Straight => true
  }

  function PassingSide(env: Env): Direction { if env.passingLeft then Left else Right }

  /** Following the lane went on: it was neither blocked nor about to hit something. */
  predicate LaneFree(env: Env) { env.followLane.result != Blocked && env.followLane.result != Collision }

  predicate AtPerimeter(env: Env) { env.reached1 && env.waypt.perimeter1 }
  predicate AtStop(env: Env) { env.reached1 && !env.waypt.perimeter1 && env.waypt.stop1 }
  predicate AtUturn(env: Env) { env.reached1 && !env.waypt.perimeter1 && !env.waypt.stop1 && env.waypt.uturn1 }

  predicate AtLaneChange(env: Env) {
    env.reached1 && !env.waypt.perimeter1 && !env.waypt.stop1 && !env.waypt.uturn1 && env.waypt.laneChange1
  }

  predicate AtMerge(env: Env) {
    && env.reached1 && !env.waypt.perimeter1 && !env.waypt.stop1 && !env.waypt.uturn1 && !env.waypt.laneChange1
    && env.waypt.exit1 && !env.waypt.sameLane12 && !env.waypt.noMerge
  }

  predicate AtNothing(env: Env) {
    !AtPerimeter(env) && !AtStop(env) && !AtUturn(env) && !AtLaneChange(env) && !AtMerge(env)
  }

  /** The cycle came to its state from another one. */
  predicate Entered(r: Fields, t: Fields) { r.state != t.state }

  /** The stop line is left: the stop delay is over and the intersection clear, or the precedence delay is over. */
  predicate StopIsOver(r: Fields, t: Fields, env: Env, cfg: Config) {
    var stop := if Entered(r, t) then Timer(true, cfg.stopLineDelay) else r.stopLine;
    var seen := env.obs(Intersection);
    var recount := Entered(r, t) || (seen.applicable && seen.nobjects != r.prevNobjects);
    var precedence := if recount then Timer(true, cfg.precedenceDelay) else r.precedence;
    || (stop.running && stop.remaining <= TICK && Clear(seen))
    || (precedence.running && precedence.remaining <= TICK)
  }

  /** The passing delay is over. */
  predicate PassDelayOver(r: Fields, t: Fields, cfg: Config) {
    var timer := if Entered(r, t) && !(r.passing.running && r.passing.remaining > 0.0) then Timer(true, cfg.passingDelay) else r.passing;
    timer.running && timer.remaining <= TICK
  }

  /** The roadblock delay is over. */
  predicate BlockDelayOver(r: Fields) { r.roadblock.running && r.roadblock.remaining <= TICK }

  /** Waiting to pass, with a lane to pass in. */
  predicate WaitsToPass(r: Fields, t: Fields, env: Env) { !Entered(r, t) || env.findPassingLane }

  /** Passing, with the lane switched to. */
  predicate Passes(r: Fields, t: Fields, env: Env) { !Entered(r, t) || env.switchLanes }

  /**
   * What a cycle that took r to t must have seen for the next one to leave t for another state.
   */
  predicate Cause(to: State, r: Fields, t: Fields, env: Env, cfg: Config) {
    match t.state
    case Init =>
      to == if env.waypt.perimeter0 || env.waypt.spot0 then Zone else Follow
    case Follow =>
      || (to == WaitPass && env.followLane.result == Blocked)
      || (to == Evade && env.followLane.result == Collision)
      || (LaneFree(env) && ((to == Zone && AtPerimeter(env)) || (to == WaitStop && AtStop(env)) || (to == Uturn && AtUturn(env))
                            || (to == WaitLane && AtLaneChange(env)) || (to == WaitCross && AtMerge(env))))
    case Block =>
      if env.newWaypts then to == if env.waypt.uturn0 then Uturn else Follow
      else
        || (to == Evade && env.followLane.result == Collision)
        || (LaneFree(env) && ((to == Uturn && AtUturn(env)) || (to == Follow && AtNothing(env))))
    case Evade =>
      to == Pass && Entered(r, t) && env.findPassingLane && SideClear(env, PassingSide(env))
    case Pass =>
      if Passes(r, t, env) then
        || (to == Follow && env.passing.result == Finished)
        || (to == Evade && env.passing.result == Collision)
        || (to == Block && env.passing.result == Blocked && BlockDelayOver(r))
      else to == Block
    case Uturn => to == Follow && env.uturn.result == Finished
    case WaitCross => to == Follow && Clear(env.obs(if Entered(r, t) then MergeAcrossAll else r.crossing))
    case WaitLane => to == Follow && SideClear(env, if Entered(r, t) then env.laneDirection else r.laneDirection)
    case WaitPass =>
      if WaitsToPass(r, t, env) then
        || (to == Follow && env.followSafely.result == OK)
        || (to == Evade && env.followSafely.result == Collision)
        || (to == Pass && env.followSafely.result != OK && env.followSafely.result != Collision
            && PassDelayOver(r, t, cfg) && SideClear(env, PassingSide(env)))
      else to == Block
    case WaitStop => to == WaitCross && StopIsOver(r, t, env, cfg)
    case Zone => to == WaitCross
  }

  /** The next cycle leaves for the state if and only if it has a cause. */
  ghost predicate Explained(r: Fields, env: Env, later: Env, cfg: Config) {
    var t := Control(r, env, cfg).road;
    forall to :: to != t.state ==> (Control(t, later, cfg).road.state == to <==> Cause(to, r, t, env, cfg))
  }

  /** The state that the next cycle goes to is that of the pending event. */
  lemma NextState(t: Fields, later: Env, cfg: Config)
    ensures Control(t, later, cfg).road.state == Table(t.pending, t.state).1
  {
    ControlRaises(t, later, cfg);
  }

  /** The pending event leads to another state if and only if that state has a cause. */
  ghost predicate CausesNext(r: Fields, t: Fields, env: Env, cfg: Config) {
    forall to :: to != t.state ==> (Table(t.pending, t.state).1 == to <==> Cause(to, r, t, env, cfg))
  }

  // ---------------------------------------------------------------- the event that a cycle leaves, state by state

  function WayPointReached(env: Env, otherwise: Event): Event {
    if AtPerimeter(env) then Perimeter else if AtStop(env) then StopLine else if AtUturn(env) then UturnEvent
    else if AtLaneChange(env) then ChangeLane else if AtMerge(env) then Merge else otherwise
  }

  function FollowEvent(env: Env): Event {
    if env.followLane.result == Blocked then WaitPassEvent
    else if env.followLane.result == Collision then CollisionEvent
    else WayPointReached(env, None)
  }

  function EventInBlock(env: Env): Event {
    if env.newWaypts then if env.waypt.uturn0 then UturnEvent else FollowLane
    else if env.followLane.result == Collision then CollisionEvent
    else if env.followLane.result == Blocked then None
    else WayPointReached(env, FollowLane)
  }

  function EventInPass(r: Fields, t: Fields, env: Env): Event {
    if !Passes(r, t, env) then BlockEvent
    else
      match env.passing.result
      case Finished => FollowLane
      case Collision => CollisionEvent
      case Blocked => if BlockDelayOver(r) then BlockEvent else None
      case _ => None
  }

  function EventInWaitPass(r: Fields, t: Fields, env: Env, cfg: Config): Event {
    if !WaitsToPass(r, t, env) then BlockEvent
    else if env.followSafely.result == OK then FollowLane
    else if env.followSafely.result == Collision then CollisionEvent
    else if PassDelayOver(r, t, cfg) && SideClear(env, PassingSide(env)) then PassEvent
    else None
  }

  lemma ExplainedInit(r: Fields, env: Env, later: Env, cfg: Config)
    requires NextAction(r) != Error && Control(r, env, cfg).road.state == Init
    ensures Explained(r, env, later, cfg)
  {
    var t := Control(r, env, cfg).road;
    NextState(t, later, cfg);
    PendingInit(r, env, cfg);
    LeavesInit(r, t, env, cfg);
  }

  lemma PendingInit(r: Fields, env: Env, cfg: Config)
    requires NextAction(r) != Error && Control(r, env, cfg).road.state == Init
    ensures var t := Control(r, env, cfg).road; t.pending == if env.waypt.perimeter0 || env.waypt.spot0 then Perimeter else FollowLane
  {
    TableTarget(r.pending, r.state);
    ControlRaises(r, env, cfg);
  }

  lemma LeavesInit(r: Fields, t: Fields, env: Env, cfg: Config)
    requires t.state == Init && t.pending == if env.waypt.perimeter0 || env.waypt.spot0 then Perimeter else FollowLane
    ensures CausesNext(r, t, env, cfg)
  {}

  lemma ExplainedFollow(r: Fields, env: Env, later: Env, cfg: Config)
    requires NextAction(r) != Error && Control(r, env, cfg).road.state == Follow
    ensures Explained(r, env, later, cfg)
  {
    var t := Control(r, env, cfg).road;
    NextState(t, later, cfg);
    PendingFollow(r, env, cfg);
    LeavesFollow(r, t, env, cfg);
  }

  lemma PendingFollow(r: Fields, env: Env, cfg: Config)
    requires NextAction(r) != Error && Control(r, env, cfg).road.state == Follow
    ensures var t := Control(r, env, cfg).road; t.pending == FollowEvent(env)
  {
    TableTarget(r.pending, r.state);
    ControlRaises(r, env, cfg);
    var (a, next) := Table(r.pending, r.state);
    FollowActs(a, r.(state := next, pending := None), env, cfg);
  }

  lemma FollowActs(a: Action, r: Fields, env: Env, cfg: Config)
    requires a != Error && Target(a) == Follow && r.pending == None
    ensures Act(a, r, env, cfg).road.pending == FollowEvent(env)
  {
    assert Act(a, r, env, cfg) == ActInFollow(r, env);
    WayPointEvents(env, None);
  }

  /** The order of the tests for a way-point reached: each event exactly for its own kind. */
  lemma WayPointEvents(env: Env, otherwise: Event)
    ensures WayPointEvent(env, otherwise) == WayPointReached(env, otherwise)
  {}

  lemma LeavesFollow(r: Fields, t: Fields, env: Env, cfg: Config)
    requires t.state == Follow && t.pending == FollowEvent(env)
    ensures CausesNext(r, t, env, cfg)
  {}

  lemma ExplainedBlock(r: Fields, env: Env, later: Env, cfg: Config)
    requires NextAction(r) != Error && Control(r, env, cfg).road.state == Block
    ensures Explained(r, env, later, cfg)
  {
    var t := Control(r, env, cfg).road;
    NextState(t, later, cfg);
    PendingBlock(r, env, cfg);
    LeavesBlock(r, t, env, cfg);
  }

  lemma PendingBlock(r: Fields, env: Env, cfg: Config)
    requires NextAction(r) != Error && Control(r, env, cfg).road.state == Block
    ensures var t := Control(r, env, cfg).road; t.pending == EventInBlock(env)
  {
    TableTarget(r.pending, r.state);
    ControlRaises(r, env, cfg);
  }

  lemma LeavesBlock(r: Fields, t: Fields, env: Env, cfg: Config)
    requires t.state == Block && t.pending == EventInBlock(env)
    ensures CausesNext(r, t, env, cfg)
  {}

  lemma ExplainedEvade(r: Fields, env: Env, later: Env, cfg: Config)
    requires NextAction(r) != Error && Control(r, env, cfg).road.state == Evade
    ensures Explained(r, env, later, cfg)
  {
    var t := Control(r, env, cfg).road;
    NextState(t, later, cfg);
    PendingEvade(r, env, cfg);
    LeavesEvade(r, t, env, cfg);
  }

  lemma PendingEvade(r: Fields, env: Env, cfg: Config)
    requires NextAction(r) != Error && Control(r, env, cfg).road.state == Evade
    ensures var t := Control(r, env, cfg).road; t.pending == if Entered(r, t) && env.findPassingLane && SideClear(env, PassingSide(env)) then PassEvent else None
  {
    TableTarget(r.pending, r.state);
    ControlRaises(r, env, cfg);
  }

  lemma LeavesEvade(r: Fields, t: Fields, env: Env, cfg: Config)
    requires t.state == Evade && t.pending == if Entered(r, t) && env.findPassingLane && SideClear(env, PassingSide(env)) then PassEvent else None
    ensures CausesNext(r, t, env, cfg)
  {}

  lemma ExplainedPass(r: Fields, env: Env, later: Env, cfg: Config)
    requires NextAction(r) != Error && Control(r, env, cfg).road.state == Pass
    ensures Explained(r, env, later, cfg)
  {
    var t := Control(r, env, cfg).road;
    NextState(t, later, cfg);
    PendingPass(r, env, cfg);
    LeavesPass(r, t, env, cfg);
  }

  lemma PendingPass(r: Fields, env: Env, cfg: Config)
    requires NextAction(r) != Error && Control(r, env, cfg).road.state == Pass
    ensures var t := Control(r, env, cfg).road; t.pending == EventInPass(r, t, env)
  {
    TableTarget(r.pending, r.state);
    ControlRaises(r, env, cfg);
  }

  lemma LeavesPass(r: Fields, t: Fields, env: Env, cfg: Config)
    requires t.state == Pass && t.pending == EventInPass(r, t, env)
    ensures CausesNext(r, t, env, cfg)
  {}

  lemma ExplainedUturn(r: Fields, env: Env, later: Env, cfg: Config)
    requires NextAction(r) != Error && Control(r, env, cfg).road.state == Uturn
    ensures Explained(r, env, later, cfg)
  {
    var t := Control(r, env, cfg).road;
    NextState(t, later, cfg);
    PendingUturn(r, env, cfg);
    LeavesUturn(r, t, env, cfg);
  }

  lemma PendingUturn(r: Fields, env: Env, cfg: Config)
    requires NextAction(r) != Error && Control(r, env, cfg).road.state == Uturn
    ensures var t := Control(r, env, cfg).road; t.pending == if env.uturn.result == Finished then FollowLane else None
  {
    TableTarget(r.pending, r.state);
    ControlRaises(r, env, cfg);
  }

  lemma LeavesUturn(r: Fields, t: Fields, env: Env, cfg: Config)
    requires t.state == Uturn && t.pending == if env.uturn.result == Finished then FollowLane else None
    ensures CausesNext(r, t, env, cfg)
  {}

  lemma ExplainedWaitCross(r: Fields, env: Env, later: Env, cfg: Config)
    requires NextAction(r) != Error && Control(r, env, cfg).road.state == WaitCross
    ensures Explained(r, env, later, cfg)
  {
    var t := Control(r, env, cfg).road;
    NextState(t, later, cfg);
    PendingWaitCross(r, env, cfg);
    LeavesWaitCross(r, t, env, cfg);
  }

  lemma PendingWaitCross(r: Fields, env: Env, cfg: Config)
    requires NextAction(r) != Error && Control(r, env, cfg).road.state == WaitCross
    ensures var t := Control(r, env, cfg).road; t.pending == if Clear(env.obs(if Entered(r, t) then MergeAcrossAll else r.crossing)) then FollowLane else None
  {
    TableTarget(r.pending, r.state);
    ControlRaises(r, env, cfg);
  }

  lemma LeavesWaitCross(r: Fields, t: Fields, env: Env, cfg: Config)
    requires t.state == WaitCross && t.pending == if Clear(env.obs(if Entered(r, t) then MergeAcrossAll else r.crossing)) then FollowLane else None
    ensures CausesNext(r, t, env, cfg)
  {}

  lemma ExplainedWaitLane(r: Fields, env: Env, later: Env, cfg: Config)
    requires NextAction(r) != Error && Control(r, env, cfg).road.state == WaitLane
    ensures Explained(r, env, later, cfg)
  {
    var t := Control(r, env, cfg).road;
    NextState(t, later, cfg);
    PendingWaitLane(r, env, cfg);
    LeavesWaitLane(r, t, env, cfg);
  }

  lemma PendingWaitLane(r: Fields, env: Env, cfg: Config)
    requires NextAction(r) != Error && Control(r, env, cfg).road.state == WaitLane
    ensures var t := Control(r, env, cfg).road; t.pending == if SideClear(env, if Entered(r, t) then env.laneDirection else r.laneDirection) then FollowLane else None
  {
    TableTarget(r.pending, r.state);
    ControlRaises(r, env, cfg);
  }

  lemma LeavesWaitLane(r: Fields, t: Fields, env: Env, cfg: Config)
    requires t.state == WaitLane && t.pending == if SideClear(env, if Entered(r, t) then env.laneDirection else r.laneDirection) then FollowLane else None
    ensures CausesNext(r, t, env, cfg)
  {}

  lemma ExplainedWaitPass(r: Fields, env: Env, later: Env, cfg: Config)
    requires NextAction(r) != Error && Control(r, env, cfg).road.state == WaitPass
    ensures Explained(r, env, later, cfg)
  {
    var t := Control(r, env, cfg).road;
    NextState(t, later, cfg);
    PendingWaitPass(r, env, cfg);
    LeavesWaitPass(r, t, env, cfg);
  }

  lemma PendingWaitPass(r: Fields, env: Env, cfg: Config)
    requires NextAction(r) != Error && Control(r, env, cfg).road.state == WaitPass
    ensures var t := Control(r, env, cfg).road; t.pending == EventInWaitPass(r, t, env, cfg)
  {
    TableTarget(r.pending, r.state);
    ControlRaises(r, env, cfg);
  }

  lemma LeavesWaitPass(r: Fields, t: Fields, env: Env, cfg: Config)
    requires t.state == WaitPass && t.pending == EventInWaitPass(r, t, env, cfg)
    ensures CausesNext(r, t, env, cfg)
  {}

  lemma ExplainedWaitStop(r: Fields, env: Env, later: Env, cfg: Config)
    requires NextAction(r) != Error && Control(r, env, cfg).road.state == WaitStop
    ensures Explained(r, env, later, cfg)
  {
    var t := Control(r, env, cfg).road;
    NextState(t, later, cfg);
    PendingWaitStop(r, env, cfg);
    LeavesWaitStop(r, t, env, cfg);
  }

  lemma PendingWaitStop(r: Fields, env: Env, cfg: Config)
    requires NextAction(r) != Error && Control(r, env, cfg).road.state == WaitStop
    ensures var t := Control(r, env, cfg).road; t.pending == if StopIsOver(r, t, env, cfg) then Merge else None
  {
    TableTarget(r.pending, r.state);
    ControlRaises(r, env, cfg);
  }

  lemma LeavesWaitStop(r: Fields, t: Fields, env: Env, cfg: Config)
    requires t.state == WaitStop && t.pending == if StopIsOver(r, t, env, cfg) then Merge else None
    ensures CausesNext(r, t, env, cfg)
  {}

  lemma ExplainedZone(r: Fields, env: Env, later: Env, cfg: Config)
    requires NextAction(r) != Error && Control(r, env, cfg).road.state == Zone
    ensures Explained(r, env, later, cfg)
  {
    var t := Control(r, env, cfg).road;
    NextState(t, later, cfg);
    PendingZone(r, env, cfg);
    LeavesZone(r, t, env, cfg);
  }

  lemma PendingZone(r: Fields, env: Env, cfg: Config)
    requires NextAction(r) != Error && Control(r, env, cfg).road.state == Zone
    ensures var t := Control(r, env, cfg).road; t.pending == Perimeter
  {
    TableTarget(r.pending, r.state);
    ControlRaises(r, env, cfg);
  }

  lemma LeavesZone(r: Fields, t: Fields, env: Env, cfg: Config)
    requires t.state == Zone && t.pending == Perimeter
    ensures CausesNext(r, t, env, cfg)
  {}

  /**
   * Every cycle but an error, from any state: the next one changes to another state if and only if
   * this one saw the cause for it.
   */
  lemma ChangesExplained(r: Fields, env: Env, later: Env, cfg: Config)
    requires NextAction(r) != Error
    ensures Explained(r, env, later, cfg)
  {
    match Control(r, env, cfg).road.state
    case Init => ExplainedInit(r, env, later, cfg);
    case Follow => ExplainedFollow(r, env, later, cfg);
    case Block => ExplainedBlock(r, env, later, cfg);
    case Evade => ExplainedEvade(r, env, later, cfg);
    case Pass => ExplainedPass(r, env, later, cfg);
    case Uturn => ExplainedUturn(r, env, later, cfg);
    case WaitCross => ExplainedWaitCross(r, env, later, cfg);
    case WaitLane => ExplainedWaitLane(r, env, later, cfg);
    case WaitPass => ExplainedWaitPass(r, env, later, cfg);
    case WaitStop => ExplainedWaitStop(r, env, later, cfg);
    case Zone => ExplainedZone(r, env, later, cfg);
  }

  /** In a run: the state after cycle i is another one exactly if cycle i - 1 saw the cause for it. */
  lemma RunExplained(states: seq<Fields>, outs: seq<Step>, envs: seq<Env>, cfg: Config, i: nat, to: State)
    requires IsRun(states, outs, envs, cfg) && 0 < i < |envs| && NextAction(states[i - 1]) != Error && to != states[i].state
    ensures states[i + 1].state == to <==> Cause(to, states[i - 1], states[i], envs[i - 1], cfg)
  {
    assert outs[i - 1] == Control(states[i - 1], envs[i - 1], cfg) && states[i - 1 + 1] == outs[i - 1].road;
    assert outs[i] == Control(states[i], envs[i], cfg) && states[i + 1] == outs[i].road;
    ChangesExplained(states[i - 1], envs[i - 1], envs[i], cfg);
  }

  // ---------------------------------------------------------------- commands

  /** The command of a cycle, by the state it ends in: only driving states pass on what a controller asks for. */
  function CommandIn(r: Fields, t: Fields, env: Env): Command {
    match t.state
    case Init | Evade | WaitCross | WaitLane | WaitPass | WaitStop => HALT
    case Follow => env.followLane.cmd
    case Block => if env.newWaypts then HALT else env.followLane.cmd
    case Pass => if Passes(r, t, env) then env.passing.cmd else HALT
    case Uturn => env.uturn.cmd
    case Zone => env.cmd
  }

  lemma CommandLaw(r: Fields, env: Env, cfg: Config)
    ensures var t := Control(r, env, cfg);
      t.cmd == if NextAction(r) == Error then HALT else CommandIn(r, t.road, env)
  {
    TableTarget(r.pending, r.state);
    ControlRaises(r, env, cfg);
    var (a, next) := Table(r.pending, r.state);
    PassWays(r.pending, r.state);
    if a != Error { ActCommand(a, r, r.(state := next, pending := None), env, cfg); }
  }

  lemma PassWays(event: Event, state: State)
    ensures Table(event, state).0 == ToPass ==> state != Pass
    ensures Table(event, state).0 == InPass ==> state == Pass
  {}

  lemma ActCommand(a: Action, was: Fields, r: Fields, env: Env, cfg: Config)
    requires a != Error && r.state == Target(a) && (a == ToPass ==> was.state != Pass) && (a == InPass ==> was.state == Pass)
    ensures Act(a, r, env, cfg).cmd == CommandIn(was, Act(a, r, env, cfg).road, env)
  {
    match r.state
    case Block | Evade | Follow => DrivingCommand(a, was, r, env, cfg);
    case Init | Pass | Uturn | Zone => ManoeuvreCommand(a, was, r, env, cfg);
    case WaitCross | WaitLane | WaitPass | WaitStop => WaitingCommand(a, was, r, env, cfg);
  }

  lemma DrivingCommand(a: Action, was: Fields, r: Fields, env: Env, cfg: Config)
    requires a != Error && r.state == Target(a) && (r.state == Block || r.state == Evade || r.state == Follow)
    ensures Act(a, r, env, cfg).cmd == CommandIn(was, Act(a, r, env, cfg).road, env)
  {}

  lemma ManoeuvreCommand(a: Action, was: Fields, r: Fields, env: Env, cfg: Config)
    requires a != Error && r.state == Target(a) && (r.state == Init || r.state == Pass || r.state == Uturn || r.state == Zone)
    requires (a == ToPass ==> was.state != Pass) && (a == InPass ==> was.state == Pass)
    ensures Act(a, r, env, cfg).cmd == CommandIn(was, Act(a, r, env, cfg).road, env)
  {}

  lemma WaitingCommand(a: Action, was: Fields, r: Fields, env: Env, cfg: Config)
    requires a != Error && r.state == Target(a)
    requires r.state == WaitCross || r.state == WaitLane || r.state == WaitPass || r.state == WaitStop
    ensures Act(a, r, env, cfg).cmd == CommandIn(was, Act(a, r, env, cfg).road, env)
  {}

  // ---------------------------------------------------------------- changing lanes

  /** The run comes to wait for a lane in cycle a and waits until cycle b takes it elsewhere. */
  ghost predicate WaitsForLane(states: seq<Fields>, a: nat, b: nat)
    requires a + 1 < b < |states|
  {
    && states[a].state != WaitLane && states[b].state != WaitLane
    && forall i :: a < i < b ==> states[i].state == WaitLane
  }

  /** In WaitLane nothing is pending but to follow the lane. */
  predicate LaneReady(r: Fields) { r.pending == None || r.pending == FollowLane }

  /** What a cycle does on the way into WaitLane, within it and out of it. */
  ghost predicate LaneCycle(r: Fields, env: Env, out: Step) {
    && (out.road.state == WaitLane && (r.state == WaitLane ==> LaneReady(r)) ==>
          && out.cmd == HALT && LaneReady(out.road)
          && out.road.laneDirection == (if r.state == WaitLane then r.laneDirection else env.laneDirection)
          && (out.road.pending == FollowLane ==> SideClear(env, out.road.laneDirection)))
    && (r.state == WaitLane && LaneReady(r) ==> out.road.state == if r.pending == FollowLane then Follow else WaitLane)
  }

  lemma LaneCycles(r: Fields, env: Env, cfg: Config)
    ensures LaneCycle(r, env, Control(r, env, cfg))
  {
    TableTarget(r.pending, r.state);
    ControlRaises(r, env, cfg);
  }

  /** A run, as the law of lane changes needs it. */
  ghost predicate LaneRun(states: seq<Fields>, outs: seq<Step>, envs: seq<Env>) {
    && |states| == |envs| + 1 && |outs| == |envs|
    && forall i :: 0 <= i < |envs| ==> LaneCycle(states[i], envs[i], outs[i]) && states[i + 1] == outs[i].road
  }

  lemma RunChangesLanes(states: seq<Fields>, outs: seq<Step>, envs: seq<Env>, cfg: Config)
    requires IsRun(states, outs, envs, cfg)
    ensures LaneRun(states, outs, envs)
  {
    forall i | 0 <= i < |envs| ensures LaneCycle(states[i], envs[i], outs[i]) && states[i + 1] == outs[i].road {
      LaneCycles(states[i], envs[i], cfg);
    }
  }

  lemma {:induction false} LaneNoted(states: seq<Fields>, outs: seq<Step>, envs: seq<Env>, a: nat, b: nat, i: nat)
    requires LaneRun(states, outs, envs) && a + 1 < b < |states| && WaitsForLane(states, a, b) && a < i < b
    ensures states[i].laneDirection == envs[a].laneDirection && outs[i - 1].cmd == HALT && LaneReady(states[i])
    ensures states[i].pending == FollowLane ==> SideClear(envs[i - 1], envs[a].laneDirection)
    decreases i
  {
    assert LaneCycle(states[i - 1], envs[i - 1], outs[i - 1]) && states[i - 1 + 1] == outs[i - 1].road;
    if i > a + 1 { LaneNoted(states, outs, envs, a, b, i - 1); }
  }

  /**
   * From the cycle that comes to wait for a lane until the lane is followed, every cycle commands a
   * halt; the wait ends in Follow only, after a cycle that saw the lane clear on the side noted on
   * entry, if there is one.
   */
  lemma LaneChangeSafety(states: seq<Fields>, outs: seq<Step>, envs: seq<Env>, cfg: Config, a: nat, b: nat)
    requires IsRun(states, outs, envs, cfg) && a + 1 < b < |states| && WaitsForLane(states, a, b)
    ensures states[b].state == Follow && SideClear(envs[b - 2], envs[a].laneDirection)
    ensures forall i :: a <= i < b - 1 ==> outs[i].cmd == HALT
  {
    RunChangesLanes(states, outs, envs, cfg);
    LaneChanged(states, outs, envs, a, b);
  }

  lemma LaneChanged(states: seq<Fields>, outs: seq<Step>, envs: seq<Env>, a: nat, b: nat)
    requires LaneRun(states, outs, envs) && a + 1 < b < |states| && WaitsForLane(states, a, b)
    ensures states[b].state == Follow && SideClear(envs[b - 2], envs[a].laneDirection)
    ensures forall i :: a <= i < b - 1 ==> outs[i].cmd == HALT
  {
    forall i | a <= i < b - 1 ensures outs[i].cmd == HALT { LaneNoted(states, outs, envs, a, b, i + 1); }
    LaneNoted(states, outs, envs, a, b, b - 1);
    assert LaneCycle(states[b - 1], envs[b - 1], outs[b - 1]) && states[b - 1 + 1] == outs[b - 1].road;
  }

  // ---------------------------------------------------------------- passing

  /** A lane to pass in is entered from waiting only with the delay over and that lane clear in the cycle before, which halted. */
  lemma PassingSafety(states: seq<Fields>, outs: seq<Step>, envs: seq<Env>, cfg: Config, i: nat)
    requires IsRun(states, outs, envs, cfg) && 0 < i < |envs| && NextAction(states[i - 1]) != Error
    requires states[i].state == WaitPass && states[i + 1].state == Pass
    ensures outs[i - 1].cmd == HALT && SideClear(envs[i - 1], PassingSide(envs[i - 1]))
    ensures PassDelayOver(states[i - 1], states[i], cfg)
  {
    RunExplained(states, outs, envs, cfg, i, Pass);
    assert outs[i - 1] == Control(states[i - 1], envs[i - 1], cfg) && states[i - 1 + 1] == outs[i - 1].road;
    CommandLaw(states[i - 1], envs[i - 1], cfg);
  }

  /** In WaitPass one of its own events is pending, or none. */
  predicate PassReady(r: Fields) {
    r.pending == None || r.pending == PassEvent || r.pending == FollowLane || r.pending == CollisionEvent || r.pending == BlockEvent
  }

  /** What a cycle does on the way into WaitPass, within it and on to passing. */
  ghost predicate PassCycle(r: Fields, env: Env, out: Step, cfg: Config) {
    && (out.road.state == WaitPass && (r.state == WaitPass ==> PassReady(r)) ==>
          && PassReady(out.road)
          && (r.state == WaitPass ==> out.road.passing == r.passing.Ticked())
          && (r.state != WaitPass && env.findPassingLane ==> out.road.passing == r.passing.Restarted(cfg.passingDelay).Ticked())
          && (r.state != WaitPass && !env.findPassingLane ==> out.road.pending == BlockEvent)
          && (out.road.pending == PassEvent ==> out.road.passing.Expired()))
    && (r.state == WaitPass && PassReady(r) ==> (out.road.state == Pass <==> r.pending == PassEvent))
    && (r.state == WaitPass && r.pending == BlockEvent ==> out.road.state == Block)
  }

  lemma PassCycles(r: Fields, env: Env, cfg: Config)
    ensures PassCycle(r, env, Control(r, env, cfg), cfg)
  {
    TableTarget(r.pending, r.state);
    ControlRaises(r, env, cfg);
  }

  ghost predicate PassRun(states: seq<Fields>, outs: seq<Step>, envs: seq<Env>, cfg: Config) {
    && |states| == |envs| + 1 && |outs| == |envs|
    && forall i :: 0 <= i < |envs| ==> PassCycle(states[i], envs[i], outs[i], cfg) && states[i + 1] == outs[i].road
  }

  lemma RunPasses(states: seq<Fields>, outs: seq<Step>, envs: seq<Env>, cfg: Config)
    requires IsRun(states, outs, envs, cfg)
    ensures PassRun(states, outs, envs, cfg)
  {
    forall i | 0 <= i < |envs| ensures PassCycle(states[i], envs[i], outs[i], cfg) && states[i + 1] == outs[i].road {
      PassCycles(states[i], envs[i], cfg);
    }
  }

  /** The run comes to wait for passing in cycle a, with the timer off, and waits up to cycle i. */
  ghost predicate WaitsForPass(states: seq<Fields>, a: nat, i: nat)
    requires a < i < |states|
  {
    && states[a].state != WaitPass && !states[a].passing.running
    && forall k :: a < k <= i ==> states[k].state == WaitPass
  }

  /** After n cycles the timer has counted them, or there is no lane to pass in. */
  ghost predicate Delayed(r: Fields, cfg: Config, n: nat) {
    && PassReady(r)
    && (r.passing == Timer(true, cfg.passingDelay - n as real * TICK) || r.pending == BlockEvent)
    && (r.pending == PassEvent ==> r.passing.Expired())
  }

  lemma {:induction false} DelayCounts(states: seq<Fields>, outs: seq<Step>, envs: seq<Env>, cfg: Config, a: nat, i: nat)
    requires PassRun(states, outs, envs, cfg) && a < i < |states| && WaitsForPass(states, a, i)
    ensures Delayed(states[i], cfg, i - a)
    decreases i
  {
    assert PassCycle(states[i - 1], envs[i - 1], outs[i - 1], cfg) && states[i - 1 + 1] == outs[i - 1].road;
    if i > a + 1 {
      DelayCounts(states, outs, envs, cfg, a, i - 1);
      assert (i - a) as real * TICK == (i - 1 - a) as real * TICK + TICK;
    }
  }

  /** From a cancelled timer, passing begins only after the passing delay has gone by in cycles. */
  lemma PassingTakesTime(states: seq<Fields>, outs: seq<Step>, envs: seq<Env>, cfg: Config, a: nat, i: nat)
    requires IsRun(states, outs, envs, cfg) && a < i < |envs| && WaitsForPass(states, a, i) && states[i + 1].state == Pass
    ensures (i - a) as real * TICK >= cfg.passingDelay
  {
    RunPasses(states, outs, envs, cfg);
    DelayIsOver(states, outs, envs, cfg, a, i);
  }

  lemma DelayIsOver(states: seq<Fields>, outs: seq<Step>, envs: seq<Env>, cfg: Config, a: nat, i: nat)
    requires PassRun(states, outs, envs, cfg) && a < i < |envs| && WaitsForPass(states, a, i) && states[i + 1].state == Pass
    ensures (i - a) as real * TICK >= cfg.passingDelay
  {
    DelayCounts(states, outs, envs, cfg, a, i);
    assert PassCycle(states[i], envs[i], outs[i], cfg) && states[i + 1] == outs[i].road;
  }

  // ---------------------------------------------------------------- the report of a road block

  /** The road is reported blocked from the cycle that enters Block until new way-points come or the lane is free. */
  lemma BlockedLaw(r: Fields, env: Env, cfg: Config)
    requires NextAction(r) != Error
    ensures var t := Control(r, env, cfg).road;
      t.roadBlocked ==
        if t.state != Block then r.roadBlocked
        else if env.newWaypts || LaneFree(env) then false
        else Entered(r, t) || r.roadBlocked
  {
    TableTarget(r.pending, r.state);
    ControlRaises(r, env, cfg);
    var (a, next) := Table(r.pending, r.state);
    BlockWays(r.pending, r.state);
    ActBlocked(a, r.(state := next, pending := None), env, cfg);
  }

  lemma BlockWays(event: Event, state: State)
    ensures Table(event, state).0 == InBlock ==> state == Block
    ensures Table(event, state).0 == ToBlock || Table(event, state).0 == PassToBlock ==> state != Block
  {}

  lemma ActBlocked(a: Action, r: Fields, env: Env, cfg: Config)
    requires a != Error && r.state == Target(a)
    ensures Act(a, r, env, cfg).road.roadBlocked ==
      if r.state != Block then r.roadBlocked
      else if env.newWaypts || LaneFree(env) then false
      else a != InBlock || r.roadBlocked
  {
    match r.state
    case Block | Evade | Follow => DrivingBlocked(a, r, env, cfg);
    case _ => OtherBlocked(a, r, env, cfg);
  }

  lemma DrivingBlocked(a: Action, r: Fields, env: Env, cfg: Config)
    requires a != Error && r.state == Target(a) && (r.state == Block || r.state == Evade || r.state == Follow)
    ensures Act(a, r, env, cfg).road.roadBlocked ==
      if r.state != Block then r.roadBlocked
      else if env.newWaypts || LaneFree(env) then false
      else a != InBlock || r.roadBlocked
  {}

  lemma OtherBlocked(a: Action, r: Fields, env: Env, cfg: Config)
    requires a != Error && r.state == Target(a) && r.state != Block && r.state != Evade && r.state != Follow
    ensures Act(a, r, env, cfg).road.roadBlocked == r.roadBlocked
  {}
}
