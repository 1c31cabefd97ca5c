/** The road controller as the Navigator runs it: fields and timers updated in every cycle. */
module RoadController {
  import opened NavTimers
  import opened Road

  class Controller {
    var state: State
    var pending: Event
    var crossing: Observer
    var laneDirection: Direction
    var prevNobjects: int
    var passingFirst: bool
    var roadBlocked: bool
    const cfg: Config
    const passingTimer: NavTimer
    const precedenceTimer: NavTimer
    const roadblockTimer: NavTimer
    const stopLineTimer: NavTimer

    constructor (cfg: Config)
      ensures Valid() && IsReset(Snapshot()) && this.cfg == cfg
    {
      this.cfg := cfg;
      passingTimer := new NavTimer();
      precedenceTimer := new NavTimer();
      roadblockTimer := new NavTimer();
      stopLineTimer := new NavTimer();
      state, pending, crossing, laneDirection := Init, None, MergeAcrossAll, Straight;
      prevNobjects, passingFirst, roadBlocked := -1, true, false;
    }

    ghost predicate Valid() {
      && passingTimer != precedenceTimer && passingTimer != roadblockTimer && passingTimer != stopLineTimer
      && precedenceTimer != roadblockTimer && precedenceTimer != stopLineTimer && roadblockTimer != stopLineTimer
    }

    ghost function Timers(): set<object> { {passingTimer, precedenceTimer, roadblockTimer, stopLineTimer} }

    ghost function Snapshot(): Fields
      reads this, Timers()
    {
      Fields(state, pending, crossing, laneDirection, prevNobjects, passingFirst,
             passingTimer.Value(), precedenceTimer.Value(), roadblockTimer.Value(), stopLineTimer.Value(), roadBlocked)
    }

    /** Back to the initial state, all timers cancelled. */
    method ResetMe()
      requires Valid()
      modifies this, Timers()
      ensures Snapshot() == Reset(old(Snapshot()))
    {
      state, pending := Init, None;
      passingTimer.Cancel();
      precedenceTimer.Cancel();
      roadblockTimer.Cancel();
      stopLineTimer.Cancel();
    }

    /** One cycle: take the pending event, change state, perform the transition's action. */
    method Run(env: Env) returns (cmd: Command, result: Result)
      requires Valid()
      modifies this, Timers()
      ensures Step(Snapshot(), cmd, result) == Control(old(Snapshot()), env, cfg)
    {
      var event := pending;
      pending := None;
      var (action, next) := Table(event, state);
      state := next;
      cmd, result := Perform(action, env);
    }

    method Perform(action: Action, env: Env) returns (cmd: Command, result: Result)
      requires Valid()
      modifies this, Timers()
      ensures Step(Snapshot(), cmd, result) == Act(action, old(Snapshot()), env, cfg)
    {
      match action
      case Error => cmd, result := HALT, NotApplicable;
      case InBlock => cmd, result := DoInBlock(env);
      case InEvade => cmd, result := HALT, OK;
      case InFollow | EvadeToFollow | PassToFollow | ToFollow | WaitPassToFollow => cmd, result := DoInFollow(env);
      case InInit =>
        pending := if env.waypt.perimeter0 || env.waypt.spot0 then Perimeter else FollowLane;
        cmd, result := HALT, OK;
      case InPass => cmd, result := DoInPass(env);
      case InUturn | ToUturn => cmd, result := DoInUturn(env);
      case InWaitCross => cmd, result := DoInWaitCross(env);
      case InWaitLane => cmd, result := DoInWaitLane(env);
      case InWaitPass => cmd, result := DoInWaitPass(env);
      case InWaitStop => cmd, result := DoInWaitStop(env);
      case InZone | ToZone =>
        pending := Perimeter;
        cmd, result := env.cmd, if env.at1 && env.waypt.perimeter1 then NotApplicable else OK;
      case PassToBlock | ToBlock =>
        roadBlocked := true;
        cmd, result := DoInBlock(env);
      case PassToEvade | ToEvade =>
        if env.findPassingLane && PassingLaneClear(env) { pending := PassEvent; }
        cmd, result := HALT, OK;
      case ToPass =>
        if env.switchLanes {
          passingTimer.Cancel();
          cmd, result := DoInPass(env);
        } else {
          pending := BlockEvent;
          cmd, result := HALT, OK;
        }
      case ToWaitCross | ZoneToWaitCross =>
        crossing := MergeAcrossAll;
        cmd, result := DoInWaitCross(env);
      case ToWaitLane =>
        laneDirection := env.laneDirection;
        cmd, result := DoInWaitLane(env);
      case ToWaitPass =>
        passingFirst := true;
        if env.findPassingLane {
          passingTimer.Restart(cfg.passingDelay);
          cmd, result := DoInWaitPass(env);
        } else {
          pending := BlockEvent;
          cmd, result := HALT, Blocked;
        }
      case ToWaitStop =>
        stopLineTimer.Start(cfg.stopLineDelay);
        precedenceTimer.Start(cfg.precedenceDelay);
        prevNobjects := -1;
        cmd, result := DoInWaitStop(env);
    }

    method DoInBlock(env: Env) returns (cmd: Command, result: Result)
      requires Valid()
      modifies this
      ensures Step(Snapshot(), cmd, result) == ActInBlock(old(Snapshot()), env)
    {
      if env.newWaypts {
        pending := if env.waypt.uturn0 then UturnEvent else FollowLane;
        roadBlocked := false;
        return HALT, Blocked;
      }
      cmd, result := env.followLane.cmd, env.followLane.result;
      if result == Collision {
        pending := CollisionEvent;
      } else if result != Blocked {
        pending := FollowLane;
        pending := WayPointEvent(env, pending);
        roadBlocked := false;
      }
    }

    method DoInFollow(env: Env) returns (cmd: Command, result: Result)
      requires Valid()
      modifies this, passingTimer
      ensures Step(Snapshot(), cmd, result) == ActInFollow(old(Snapshot()), env)
    {
      if !env.stopped { passingTimer.Cancel(); }
      cmd, result := env.followLane.cmd, env.followLane.result;
      if result == Blocked {
        pending, result := WaitPassEvent, OK;
      } else if result == Collision {
        pending := CollisionEvent;
      } else {
        pending, result := WayPointEvent(env, pending), OK;
      }
    }

    method DoInPass(env: Env) returns (cmd: Command, result: Result)
      requires Valid()
      modifies this, roadblockTimer
      ensures Step(Snapshot(), cmd, result) == ActInPass(old(Snapshot()), env, cfg)
    {
      cmd, result := env.passing.cmd, env.passing.result;
      if result == Finished {
        pending, result := FollowLane, OK;
        roadblockTimer.Cancel();
      } else if result == Blocked {
        var expired := roadblockTimer.Check();
        if expired {
          pending := BlockEvent;
          roadblockTimer.Cancel();
        } else if passingFirst {
          passingFirst := false;
          roadblockTimer.Restart(cfg.roadblockDelay);
          result := Unsafe;
        }
      } else if result == Collision {
        pending := CollisionEvent;
        roadblockTimer.Cancel();
      }
    }

    method DoInUturn(env: Env) returns (cmd: Command, result: Result)
      modifies this
      ensures Step(Snapshot(), cmd, result) == ActInUturn(old(Snapshot()), env)
    {
      cmd, result := env.uturn.cmd, env.uturn.result;
      if result == Finished { pending, result := FollowLane, OK; }
    }

    method DoInWaitCross(env: Env) returns (cmd: Command, result: Result)
      modifies this
      ensures Step(Snapshot(), cmd, result) == ActInWaitCross(old(Snapshot()), env)
    {
      if Clear(env.obs(crossing)) { pending := FollowLane; }
      return HALT, OK;
    }

    method DoInWaitLane(env: Env) returns (cmd: Command, result: Result)
      modifies this
      ensures Step(Snapshot(), cmd, result) == ActInWaitLane(old(Snapshot()), env)
    {
      if laneDirection == Straight {
        pending := FollowLane;
      } else {
        var observer := if laneDirection == Left then AdjacentLeft else AdjacentRight;
        if Clear(env.obs(observer)) { pending := FollowLane; }
      }
      return HALT, OK;
    }

    method DoInWaitPass(env: Env) returns (cmd: Command, result: Result)
      requires Valid()
      modifies this, passingTimer
      ensures Step(Snapshot(), cmd, result) == ActInWaitPass(old(Snapshot()), env)
    {
      var expired := passingTimer.Check();
      if expired && PassingLaneClear(env) { pending := PassEvent; }
      result := env.followSafely.result;
      if result == OK {
        pending := FollowLane;
      } else if result == Collision {
        pending := CollisionEvent;
      }
      cmd := HALT;
    }

    method DoInWaitStop(env: Env) returns (cmd: Command, result: Result)
      requires Valid()
      modifies this, stopLineTimer, precedenceTimer
      ensures Step(Snapshot(), cmd, result) == ActInWaitStop(old(Snapshot()), env, cfg)
    {
      CheckStopTimer(env.obs(Intersection));
      CheckPrecedence(env.obs(Intersection));
      return HALT, OK;
    }

    method CheckStopTimer(obs: Observation)
      requires Valid()
      modifies this, stopLineTimer, precedenceTimer
      ensures Snapshot() == StopTimerStep(old(Snapshot()), obs)
    {
      var expired := stopLineTimer.Check();
      if expired && Clear(obs) { LeaveStop(); }
    }

    method CheckPrecedence(obs: Observation)
      requires Valid()
      modifies this, stopLineTimer, precedenceTimer
      ensures Snapshot() == PrecedenceStep(old(Snapshot()), obs, cfg)
    {
      if obs.applicable && obs.nobjects != prevNobjects {
        prevNobjects := obs.nobjects;
        precedenceTimer.Start(cfg.precedenceDelay);
      }
      var expired := precedenceTimer.Check();
      if expired { LeaveStop(); }
    }

    method LeaveStop()
      requires Valid()
      modifies this, stopLineTimer, precedenceTimer
      ensures Snapshot() == GoOn(old(Snapshot()))
    {
      stopLineTimer.Cancel();
      precedenceTimer.Cancel();
      pending := Merge;
    }
  }
}
