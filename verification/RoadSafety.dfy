/** Safety of the road state machine over whole runs. */
module RoadSafety {
  import opened NavTimers
  import opened Road

  function LeastDelay(cfg: Config): real {
    if cfg.stopLineDelay < cfg.precedenceDelay then cfg.stopLineDelay else cfg.precedenceDelay
  }

  // ---------------------------------------------------------------- stop lines

  /** Waiting at the stop line for n cycles: neither timer is ahead of the time spent here. */
  ghost predicate StopInv(r: Fields, cfg: Config, n: nat) {
    var spent := n as real * TICK;
    && r.state == WaitStop
    && (r.pending == None || r.pending == Merge)
    && (r.pending == Merge ==> spent >= LeastDelay(cfg))
    && (r.stopLine.running ==> r.stopLine.remaining >= cfg.stopLineDelay - spent)
    && (r.precedence.running ==> r.precedence.remaining >= cfg.precedenceDelay - spent)
  }

  /** Waiting to cross: the only way on is a clear answer of the observer of all crossing lanes. */
  ghost predicate CrossInv(r: Fields, env: Env) {
    && r.state == WaitCross && r.crossing == MergeAcrossAll
    && (r.pending == None || r.pending == FollowLane)
    && (r.pending == FollowLane ==> Clear(env.obs(MergeAcrossAll)))
  }

  lemma WaitStopCycle(r: Fields, env: Env, cfg: Config, n: nat)
    requires r.pending == None && r.state == WaitStop
    requires r.stopLine.running ==> r.stopLine.remaining >= cfg.stopLineDelay - n as real * TICK
    requires r.precedence.running ==> r.precedence.remaining >= cfg.precedenceDelay - n as real * TICK
    ensures var t := ActInWaitStop(r, env, cfg); StopInv(t.road, cfg, n + 1) && t.cmd == HALT
  {
    assert (n + 1) as real * TICK == n as real * TICK + TICK;
    assert n as real * TICK >= 0.0;
  }

  /** The way into WaitStop restarts both timers, whatever they were. */
  lemma EnterStop(r: Fields, env: Env, cfg: Config)
    requires r.state != WaitStop && Control(r, env, cfg).road.state == WaitStop
    ensures StopInv(Control(r, env, cfg).road, cfg, 1) && Control(r, env, cfg).cmd == HALT
  {
    ControlRaises(r, env, cfg);
    TableTarget(r.pending, r.state);
    assert Table(r.pending, r.state) == (ToWaitStop, WaitStop);
    var r1 := r.(state := WaitStop, pending := None);
    WaitStopCycle(
      r1.(stopLine := Timer(true, cfg.stopLineDelay), precedence := Timer(true, cfg.precedenceDelay), prevNobjects := -1),
      env, cfg, 0);
  }

  lemma StopStep(r: Fields, env: Env, cfg: Config, n: nat)
    requires StopInv(r, cfg, n)
    ensures var t := Control(r, env, cfg);
      t.cmd == HALT && if r.pending == Merge then CrossInv(t.road, env) else StopInv(t.road, cfg, n + 1)
  {
    if r.pending == None { WaitStopCycle(r, env, cfg, n); }
  }

  lemma CrossStep(r: Fields, seen: Env, env: Env, cfg: Config)
    requires CrossInv(r, seen)
    ensures var t := Control(r, env, cfg);
      if r.pending == FollowLane then t.road.state == Follow else CrossInv(t.road, env) && t.cmd == HALT
  {
    if r.pending == FollowLane {
      ControlRaises(r, env, cfg);
    }
  }

  /** What the step lemmas say of one cycle, without the transition table. */
  ghost predicate Summary(r: Fields, env: Env, t: Step, cfg: Config) {
    && (r.state != WaitStop && t.road.state == WaitStop ==> StopInv(t.road, cfg, 1) && t.cmd == HALT)
    && (forall n: nat :: StopInv(r, cfg, n) ==>
          t.cmd == HALT && if r.pending == Merge then CrossInv(t.road, env) else StopInv(t.road, cfg, n + 1))
    && (forall seen :: CrossInv(r, seen) ==>
          if r.pending == FollowLane then t.road.state == Follow else CrossInv(t.road, env) && t.cmd == HALT)
  }

  lemma CycleSummary(r: Fields, env: Env, cfg: Config)
    ensures Summary(r, env, Control(r, env, cfg), cfg)
  {
    var t := Control(r, env, cfg);
    if r.state != WaitStop && t.road.state == WaitStop { EnterStop(r, env, cfg); }
    forall n: nat | StopInv(r, cfg, n)
      ensures t.cmd == HALT && if r.pending == Merge then CrossInv(t.road, env) else StopInv(t.road, cfg, n + 1)
    {
      StopStep(r, env, cfg, n);
    }
    forall seen | CrossInv(r, seen)
      ensures if r.pending == FollowLane then t.road.state == Follow else CrossInv(t.road, env) && t.cmd == HALT
    {
      CrossStep(r, seen, env, cfg);
    }
  }

  ghost predicate Summarised(states: seq<Fields>, outs: seq<Step>, envs: seq<Env>, cfg: Config) {
    && |states| == |envs| + 1 && |outs| == |envs|
    && forall i :: 0 <= i < |envs| ==> Summary(states[i], envs[i], outs[i], cfg) && states[i + 1] == outs[i].road
  }

  lemma RunSummarised(states: seq<Fields>, outs: seq<Step>, envs: seq<Env>, cfg: Config)
    requires IsRun(states, outs, envs, cfg)
    ensures Summarised(states, outs, envs, cfg)
  {
    forall i | 0 <= i < |envs| ensures Summary(states[i], envs[i], outs[i], cfg) && states[i + 1] == outs[i].road {
      CycleSummary(states[i], envs[i], cfg);
    }
  }

  ghost predicate InState(states: seq<Fields>, s: State, from: nat, to: nat)
    requires to < |states|
  {
    forall i :: from < i <= to ==> states[i].state == s
  }

  /** The run stays at the stop line through cycle m, then waits to cross through cycle c. */
  ghost predicate Phases(states: seq<Fields>, envs: seq<Env>, cfg: Config, a: nat, m: nat, c: nat)
    requires a < m <= c <= |envs| && |states| == |envs| + 1
  {
    && InState(states, WaitStop, a, m) && InState(states, WaitCross, m, c)
    && (if m == c then StopInv(states[c], cfg, m - a)
        else CrossInv(states[c], envs[c - 1]) && (m - a) as real * TICK >= LeastDelay(cfg))
  }

  /** The vehicle came to the stop line in cycle a and has not followed a lane before cycle b ended. */
  ghost predicate StoppedRun(states: seq<Fields>, a: nat, b: nat)
    requires a < b < |states|
  {
    && states[a].state != WaitStop && states[a + 1].state == WaitStop
    && forall i :: a < i <= b ==> states[i].state != Follow
  }

  ghost predicate HaltedThrough(outs: seq<Step>, a: nat, b: nat)
    requires b <= |outs|
  {
    forall i :: a <= i < b ==> outs[i].cmd == HALT
  }

  lemma {:induction false} StoppedRunPhases(
      states: seq<Fields>, outs: seq<Step>, envs: seq<Env>, cfg: Config, a: nat, b: nat) returns (m: nat)
    requires Summarised(states, outs, envs, cfg)
    requires a < b <= |envs| && StoppedRun(states, a, b)
    ensures a < m <= b && Phases(states, envs, cfg, a, m, b) && HaltedThrough(outs, a, b)
    decreases b
  {
    assert Summary(states[b - 1], envs[b - 1], outs[b - 1], cfg) && states[b - 1 + 1] == outs[b - 1].road;
    if b == a + 1 {
      m := b;
    } else {
      m := StoppedRunPhases(states, outs, envs, cfg, a, b - 1);
      var s := states[b - 1];
      if m == b - 1 {
        assert StopInv(s, cfg, m - a);
        if s.pending != Merge { m := b; }
      } else {
        assert CrossInv(s, envs[b - 2]);
      }
    }
  }

  /** Until it follows a lane again the controller only waits, with a zero command in every cycle. */
  lemma StoppedRunHalts(
      states: seq<Fields>, outs: seq<Step>, envs: seq<Env>, cfg: Config, a: nat, b: nat) returns (m: nat)
    requires IsRun(states, outs, envs, cfg)
    requires a < b <= |envs| && StoppedRun(states, a, b)
    ensures HaltedThrough(outs, a, b)
    ensures a < m <= b && InState(states, WaitStop, a, m) && InState(states, WaitCross, m, b)
  {
    RunSummarised(states, outs, envs, cfg);
    m := StoppedRunPhases(states, outs, envs, cfg, a, b);
  }

  /** The stop between cycles a and b: halted, long enough, and left by crossing on a clear answer. */
  ghost predicate SafeStop(
      states: seq<Fields>, outs: seq<Step>, envs: seq<Env>, cfg: Config, a: nat, m: nat, b: nat)
    requires |states| == |envs| + 1 && |outs| == |envs| && b <= |envs|
  {
    && a < m < b - 1 && HaltedThrough(outs, a, b - 1)
    && InState(states, WaitStop, a, m) && InState(states, WaitCross, m, b - 1)
    && (m - a) as real * TICK >= LeastDelay(cfg)
    && Clear(envs[b - 2].obs(MergeAcrossAll))
  }

  lemma LeavesByCrossing(
      states: seq<Fields>, outs: seq<Step>, envs: seq<Env>, cfg: Config, a: nat, b: nat) returns (m: nat)
    requires Summarised(states, outs, envs, cfg)
    requires a + 1 < b <= |envs| && StoppedRun(states, a, b - 1) && states[b].state == Follow
    ensures SafeStop(states, outs, envs, cfg, a, m, b)
  {
    m := StoppedRunPhases(states, outs, envs, cfg, a, b - 1);
    var s := states[b - 1];
    var n: nat := m - a;
    assert m == b - 1 ==> StopInv(s, cfg, n);
    assert m < b - 1 ==> CrossInv(s, envs[b - 2]);
    assert Summary(s, envs[b - 1], outs[b - 1], cfg) && states[b - 1 + 1] == outs[b - 1].road;
  }

  /**
   * From the stop line to the next lane: every cycle before the one that follows the lane
   * commands a halt, the stop lasts at least the shorter delay, WaitCross comes between, and
   * the last cycle there saw all crossing lanes clear.
   */
  lemma StopLineSafety(states: seq<Fields>, outs: seq<Step>, envs: seq<Env>, cfg: Config, a: nat, b: nat)
    requires IsRun(states, outs, envs, cfg)
    requires a + 1 < b <= |envs| && StoppedRun(states, a, b - 1) && states[b].state == Follow
    ensures exists m :: SafeStop(states, outs, envs, cfg, a, m, b)
  {
    RunSummarised(states, outs, envs, cfg);
    var m := LeavesByCrossing(states, outs, envs, cfg, a, b);
  }

  /** Three cycles of the same surroundings. */
  function ThreeOuts(r: Fields, env: Env, cfg: Config): seq<Step> {
    var a := Control(r, env, cfg);
    var b := Control(a.road, env, cfg);
    [a, b, Control(b.road, env, cfg)]
  }

  lemma ReachStop(r: Fields, env: Env, cfg: Config)
    requires r.state == Follow && r.pending == StopLine && cfg.precedenceDelay <= TICK
    ensures var t := Control(r, env, cfg).road; t.state == WaitStop && t.pending == Merge
  {
  }

  lemma LeaveStop(r: Fields, env: Env, cfg: Config)
    requires r.state == WaitStop && r.pending == Merge && Clear(env.obs(MergeAcrossAll))
    ensures var t := Control(r, env, cfg).road; t.state == WaitCross && t.pending == FollowLane && t.crossing == MergeAcrossAll
  {
  }

  /** Such a stop does occur: with delays of one cycle and clear lanes it is over in three. */
  lemma StopIsPassed(r: Fields, env: Env, cfg: Config)
    requires r.state == Follow && r.pending == StopLine && cfg.precedenceDelay <= TICK && Clear(env.obs(MergeAcrossAll))
    ensures var outs := ThreeOuts(r, env, cfg);
      var states := [r, outs[0].road, outs[1].road, outs[2].road];
      IsRun(states, outs, [env, env, env], cfg) && StoppedRun(states, 0, 2) && states[3].state == Follow
  {
    var outs := ThreeOuts(r, env, cfg);
    ReachStop(r, env, cfg);
    LeaveStop(outs[0].road, env, cfg);
    CrossStep(outs[1].road, env, env, cfg);
  }

  // ---------------------------------------------------------------- precedence timeout

  /** The number of cars having precedence is the one counted last, or is not known. */
  predicate SameCars(n: int, env: Env) {
    env.obs(Intersection).applicable ==> env.obs(Intersection).nobjects == n
  }

  /** Waiting with the precedence timer running, n cycles after it had the given time remaining. */
  ghost predicate Patient(r: Fields, cars: int, remaining: real, n: nat) {
    && r.state == WaitStop && r.pending == None && r.prevNobjects == cars
    && r.precedence == Timer(true, remaining - n as real * TICK)
  }

  lemma PatientStep(r: Fields, env: Env, cfg: Config, cars: int, remaining: real, n: nat)
    requires Patient(r, cars, remaining, n) && SameCars(cars, env)
    ensures var t := Control(r, env, cfg).road;
      || (t.state == WaitStop && t.pending == Merge)
      || (Patient(t, cars, remaining, n + 1) && remaining > (n + 1) as real * TICK)
  {
    assert (n + 1) as real * TICK == n as real * TICK + TICK;
  }

  /** Some state of the run is about to leave the stop line. */
  ghost predicate Releases(states: seq<Fields>) {
    exists i :: 0 <= i < |states| && states[i].state == WaitStop && states[i].pending == Merge
  }

  lemma {:induction false} PatientRun(
      states: seq<Fields>, outs: seq<Step>, envs: seq<Env>, cfg: Config, cars: int, remaining: real, n: nat)
    requires IsRun(states, outs, envs, cfg) && n <= |envs|
    requires Patient(states[0], cars, remaining, 0) && forall i :: 0 <= i < |envs| ==> SameCars(cars, envs[i])
    requires !Releases(states)
    ensures Patient(states[n], cars, remaining, n) && (n > 0 ==> remaining > n as real * TICK)
  {
    if n > 0 {
      PatientRun(states, outs, envs, cfg, cars, remaining, n - 1);
      PatientStep(states[n - 1], envs[n - 1], cfg, cars, remaining, n - 1);
      assert states[n - 1 + 1] == outs[n - 1].road;
    }
  }

  /**
   * The precedence timer bounds the wait: if the number of cars stays the same, then by the time
   * the cycles cover what the timer has left the controller is released from the stop line.
   */
  lemma PrecedenceTimeout(
      states: seq<Fields>, outs: seq<Step>, envs: seq<Env>, cfg: Config, cars: int, remaining: real)
    requires IsRun(states, outs, envs, cfg) && envs != []
    requires Patient(states[0], cars, remaining, 0) && forall i :: 0 <= i < |envs| ==> SameCars(cars, envs[i])
    requires remaining <= |envs| as real * TICK
    ensures Releases(states)
  {
    if !Releases(states) {
      PatientRun(states, outs, envs, cfg, cars, remaining, |envs|);
    }
  }

  // ---------------------------------------------------------------- the evade trap

  lemma EvadeStep(r: Fields, env: Env, cfg: Config)
    requires r.state == Evade && r.pending == None
    ensures Control(r, env, cfg) == Step(r, HALT, OK)
  {}

  /** Every cycle of the run that is in Evade without an event leaves everything as it is. */
  ghost predicate EvadeStays(states: seq<Fields>, outs: seq<Step>) {
    && |states| == |outs| + 1
    && forall i :: 0 <= i < |outs| && states[i].state == Evade && states[i].pending == None ==>
      outs[i].cmd == HALT && states[i + 1] == states[i]
  }

  lemma RunEvades(states: seq<Fields>, outs: seq<Step>, envs: seq<Env>, cfg: Config)
    requires IsRun(states, outs, envs, cfg)
    ensures EvadeStays(states, outs)
  {
    forall i | 0 <= i < |outs| && states[i].state == Evade && states[i].pending == None
      ensures outs[i].cmd == HALT && states[i + 1] == states[i]
    {
      EvadeStep(states[i], envs[i], cfg);
    }
  }

  lemma {:induction false} EvadeLasts(states: seq<Fields>, outs: seq<Step>, a: nat, n: nat)
    requires EvadeStays(states, outs) && a <= n <= |outs|
    requires states[a].state == Evade && states[a].pending == None
    ensures states[n] == states[a] && (n > a ==> outs[n - 1].cmd == HALT)
    decreases n
  {
    if n > a {
      EvadeLasts(states, outs, a, n - 1);
      assert states[n - 1 + 1] == states[n - 1];
    }
  }

  /** Without an event the controller halts in Evade for ever. */
  lemma EvadeKeeps(states: seq<Fields>, outs: seq<Step>, envs: seq<Env>, cfg: Config, a: nat, n: nat)
    requires IsRun(states, outs, envs, cfg) && a <= n <= |envs|
    requires states[a].state == Evade && states[a].pending == None
    ensures states[n] == states[a] && (n > a ==> outs[n - 1].cmd == HALT)
  {
    RunEvades(states, outs, envs, cfg);
    EvadeLasts(states, outs, a, n);
  }

  /** The vehicle can pass what it is about to hit. */
  predicate CanPass(env: Env) { env.findPassingLane && PassingLaneClear(env) }

  lemma EvadeEntered(r: Fields, env: Env, cfg: Config)
    requires r.state != Evade && Control(r, env, cfg).road.state == Evade
    ensures var t := Control(r, env, cfg); t.cmd == HALT && t.road.pending == if CanPass(env) then PassEvent else None
  {
    TableTarget(r.pending, r.state);
    ControlRaises(r, env, cfg);
  }

  lemma EvadeLeft(r: Fields, env: Env, cfg: Config)
    requires r.state == Evade && r.pending == PassEvent
    ensures Control(r, env, cfg).road.state == Pass
  {
    ControlRaises(r, env, cfg);
  }

  /**
   * A run that enters Evade in cycle a and goes on stays there for ever, halted, if and only if in
   * that one cycle no passing lane was found clear; otherwise it passes at once.
   */
  lemma EvadeIsFinal(states: seq<Fields>, outs: seq<Step>, envs: seq<Env>, cfg: Config, a: nat, n: nat)
    requires IsRun(states, outs, envs, cfg) && a + 1 < n <= |envs|
    requires states[a].state != Evade && states[a + 1].state == Evade
    ensures !CanPass(envs[a]) <==> forall i :: a < i <= n ==> states[i].state == Evade
    ensures !CanPass(envs[a]) ==> outs[n - 1].cmd == HALT && states[n] == states[a + 1]
    ensures CanPass(envs[a]) ==> states[a + 2].state == Pass
  {
    assert states[a + 1] == outs[a].road && outs[a] == Control(states[a], envs[a], cfg);
    EvadeEntered(states[a], envs[a], cfg);
    if CanPass(envs[a]) {
      assert states[a + 1 + 1] == outs[a + 1].road && outs[a + 1] == Control(states[a + 1], envs[a + 1], cfg);
      EvadeLeft(states[a + 1], envs[a + 1], cfg);
    } else {
      forall i | a < i <= n ensures states[i].state == Evade { EvadeKeeps(states, outs, envs, cfg, a + 1, i); }
      EvadeKeeps(states, outs, envs, cfg, a + 1, n);
    }
  }

  /** A collision ahead while following the lane, with no passing lane clear. */
  predicate Trapped(env: Env) {
    env.followLane.result == Collision && !CanPass(env) && !env.waypt.perimeter0 && !env.waypt.spot0
  }

  lemma TrapCycle(r: Fields, env: Env, cfg: Config)
    requires Trapped(env)
    ensures var t := Control(r, env, cfg).road;
      && (r.state == Init && r.pending == None ==> t.state == Init && t.pending == FollowLane)
      && (r.state == Init && r.pending == FollowLane ==> t.state == Follow && t.pending == CollisionEvent)
      && (r.state == Follow && r.pending == CollisionEvent ==> t.state == Evade && t.pending == None)
  {}

  /** The trap is reached from reset in three cycles: Init, Follow, Evade. */
  lemma EvadeIsReached(r: Fields, env: Env, cfg: Config)
    requires IsReset(r) && Trapped(env)
    ensures var outs := ThreeOuts(r, env, cfg);
      var states := [r, outs[0].road, outs[1].road, outs[2].road];
      IsRun(states, outs, [env, env, env], cfg) && states[2].state == Follow && states[3].state == Evade && !CanPass(env)
  {
    var outs := ThreeOuts(r, env, cfg);
    TrapCycle(r, env, cfg);
    TrapCycle(outs[0].road, env, cfg);
    TrapCycle(outs[1].road, env, cfg);
  }
}
