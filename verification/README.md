# ART vehicle stack: a verified model

This project models the decision-making cores of the Austin Robot Technology urban vehicle in Dafny
4.11 and proves what they promise. `dafny verify dfyconfig.toml` checks everything.

The cores, one after the other:

- **Route planning.** A way-point graph (`WayPoints`, `RoadGraph`), A* with its non-admissible 10 s
  penalty (`GraphSearch`, `SearchSlack`, `SearchZones`), blockages that edit the shared edge list and what their
  removal leaves behind (`Blockage`, `Restoration`),
  planning that drops blockages until a route is found (`Commanding`), and the orders that Commander
  and Navigator advance independently (`Orders`, `OrderMarks`).
- **Control.** Cycle-counting timers (`NavTimers`), the Road state machine as a function of one
  cycle and as the controller object (`Road`, `RoadController`), its timed safety over whole runs
  and the cause of every change of state (`RoadSafety`, `RoadCauses`), and E-stop and Run around it (`Navigator`).
- **RNDF.** A character-level scanner and printer (`Scanning`), the line-driven parser (`Rndf`,
  `RndfLines`), the writer and its round trip (`RndfWriter`), the round trip of the whole format
  (`RndfFormat`), the indexed graph (`RndfGraph`, `GraphBuilding`), which pairs it joins, how often and
  which as exits (`EdgePairs`, `DistinctPairs`, `ExitMarks`), later edits of
  it (`GraphEdits`, `RestoredGraph`), and the way from recorded points to a graph (`RndfPipeline`, `RecordedEdges`).
  The format is the DARPA RNDF specification of 14 March 2007.
- **Estimation and mapping.** The two-state Kalman update (`Covariance`, `KalmanFilter`), the
  recursive tiling of lanes, the length of its tiles and whole maps of them (`MapLanes`, `TileLengths`, `LaneBuild`), the line tracer of the visual-lane grid (`LineTrace`).
- **Drivers and speed.** Stream framing of the Applanix driver (`Applanix`), the curve speed limiter
  (`SlowForCurves`).

Code that works in place is a class or a method with loops, proved against a specification function;
what the system promises is then proved about that function, over all inputs and whole runs.

Modelling conventions: floating-point numbers are exact reals and integers are unbounded, except
that way-point indices and the parts of an identifier keep their 16 bits. Euclidean distance is any metric, square root any
function that squares back, and curves, observers, sensors, clocks and the socket are parameters or
arbitrary inputs. An iteration over the id map takes the order as an argument, so what is proved
holds for the map's own order. A coordinate is kept as the text that was written.

What the proofs brought to light, where the code does not do what its comments or a reader expect:

- The heuristic adds 10 s to every node but the goal's lane predecessor, even at the goal, where it
  is 10. The search is still exact unless that predecessor can be entered without a penalty; then the
  bound is 10 s (`GraphSearch.AStar`), and any error below 10 s is forced on some network
  (`SearchSlack.DearerPathForced`).
- A way-point of a zone is closed with one predecessor, and the turn-around rule looks at it, so the
  search can miss a legal walk through a zone (`SearchZones.SearchMisses`).
- The start of the search passes -1 as previous node, which becomes index 65535.
- Orders agree exactly until the last way-point is the end of the route, since a route never drops
  its last edge (`Orders.OrdersAgree`, `Orders.WalkToEnd`). The last entry's lane-change flag is never set.
- The Navigator's shift leaves the U-turn mark of an order behind (`OrderMarks.UturnMarkAgrees`).
- Orders do not carry the stop lines of the map: only the last goal is a stop
  (`OrderMarks.StopLineExactly`).
- A way-point event raised by the cycle that clears a blockage has no table entry in Block and aborts
  the run (`Road.ReachableErrors`, `Road.ErrorIsReached`, `Navigator.RoadErrorForcesDone`).
- Evade never ends unless a passing lane was clear in the cycle that entered it, because halting never
  reports Finished (`RoadSafety.EvadeIsFinal`, `RoadSafety.EvadeIsReached`). The run controller never leaves Continue, so its replan and escape
  states are unreachable (`Navigator.RoadOrHalt`).
- In a zone the speed limit passes on unchanged, and the next cycle leaves the zone again; the branch
  that would fail there is never taken (`Navigator.ZoneIsHarmless`).
- A refused measurement leaves `Xchange` lowered by the whole state (`KalmanFilter.XchangeTracksIff`).
  The dead-zone promises hold exactly when the inverse-noise clamp is not hit or the noise alone
  suffices (`KalmanFilter.InsideZoneBound`, `KalmanFilter.OutsideZoneBound`).
- A file is accepted without its end line, and an empty file is accepted (`RndfWriter.EndLineIsOptional`,
  `Rndf.EmptyFileIsAccepted`); with an end line it is accepted only if its counts are right
  (`RndfLines.EndedFileIsValid`). A zone needs no perimeter (`RndfLines.BareZoneIsAccepted`).
- A lane, perimeter, spot, way-point, checkpoint, stop or exit line that is indented is recognised by
  its first word but rejected by the format that reads its numbers (`RndfLines.IndentedExactly`).
- A repeated way-point id leaves a node whose index is past the node array (`RndfGraph.FitsIffDistinct`).
- Removing a blockage does not give the edge list back if a detour has the ends of an edge, as when a
  lane change is blocked, or if two blocked edges have the same ends (`Restoration.UndoneExactly`,
  `Restoration.LaneChangeIsLost`); then one of them is blocked for ever (`Restoration.StuckForEver`).
  Two spots of a zone make such edges (`DistinctPairs.SpotsJoinedTwice`,
  `RestoredGraph.SpotEdgeStaysBlocked`).
- Way-points too close for a transition are joined by moving the front of the first polygon, away from
  whatever followed it in its lane (`LaneBuild.LaneStaysWhole`, `LaneBuild.TransitionBreaksChain`).
- The right-hand neighbour of an implicit edge is often not the nearest (`GraphEdits.RightIsNearestExactly`), and
  a node without a left neighbour is never considered on the right.
- A group 1 packet that was read together with an earlier packet gets a stale time stamp, and a packet
  longer than the buffer stalls the driver for ever (`Applanix.StaleTimeStamp`, `Applanix.OversizeStalls`,
  with the exact conditions in `Applanix.Device.GetPacket` and `Applanix.Device.Drain`).
- With a plan of one polygon, or a look-ahead within the first one, the curve limiter falls back to
  its minimum speed (`SlowForCurves.Control`).

## Model

| member | source | states |
|---|---|---|
| `GraphSearch.AStar` | stacks/art_vehicle/art_nav/src/lib/GraphSearch.cc:207-263 | On every graph: a non-empty result is a start-to-goal walk of unblocked graph edges without a lane-zone-lane turn-around, and it reaches the node closed first only by the entry that closed it; an empty one, unless start is the goal, means that the search is trapped: some set of nodes around the start, without the goal, is left by no edge that the search may follow from it. If edges join nodes, no walk of always-followed edges then leads to the goal, among them every edge out of a lane way-point; on realistic edges a result costs no more than any such walk, or 10 s more if the goal's lane predecessor can be entered without penalty |
| `GraphSearch.OrdinaryIsSure` | stacks/art_vehicle/art_nav/src/lib/GraphSearch.cc:167-186 | An edge out of a lane way-point, into a zone or to a spot is followed whatever came before it |
| `GraphSearch.AddToQueue` | stacks/art_vehicle/art_nav/src/lib/GraphSearch.cc:148-205 | The queue grows by exactly one extension, with its accumulated cost and estimate, for each unblocked edge out of the node that makes no turn-around, in list order; an unknown node adds nothing |
| `GraphSearch.PopLeast` | stacks/art_vehicle/art_nav/src/lib/GraphSearch.cc:54-62 | An entry with the least estimate is taken and the others are kept, whatever the order among equals |
| `GraphSearch.BaseConsistent` | stacks/art_vehicle/art_nav/src/lib/GraphSearch.cc:64-138 | Without its +10 the heuristic drops along an edge by no more than the edge costs beyond its own +10 |
| `GraphSearch.PredecessorUnique` | stacks/art_vehicle/art_nav/src/lib/GraphSearch.cc:76-80 | With unique ids only one node escapes the +10 of the estimate: the goal's lane predecessor |
| `GraphSearch.ExactWithoutOtherPredecessor` | stacks/art_vehicle/art_nav/src/lib/GraphSearch.cc:76-80 | The search is exact when the goal has no lane predecessor or that predecessor is the start |
| `GraphSearch.CheapCrossing` | stacks/art_vehicle/art_nav/src/lib/GraphSearch.cc:238-260 | Every walk of always-followed edges that leaves the closed nodes is crossed by an entry of the queue whose cost and unpenalised estimate together are at most those of the walk, plus the error of the closed nodes |
| `GraphSearch.PoppedIsNearOptimal` | stacks/art_vehicle/art_nav/src/lib/GraphSearch.cc:239-244 | A popped entry is within the current error of every walk of always-followed edges to its end node |
| `GraphSearch.ClosingKeepsRelaxed` | stacks/art_vehicle/art_nav/src/lib/GraphSearch.cc:258-259 | Closing a node and pushing its extensions keeps every always-followed edge out of the closed nodes represented in the queue |
| `GraphSearch.ClosingKeepsNearOptimal` | stacks/art_vehicle/art_nav/src/lib/GraphSearch.cc:258-259 | Closing the popped node keeps all closed nodes near-optimal; the error rises from 0 to 10 only when the goal's lane predecessor is closed |
| `GraphSearch.TrapHolds` | stacks/art_vehicle/art_nav/src/lib/GraphSearch.cc:239-262 | No walk of always-followed edges gets out of a trap |
| `SearchSlack.Ordinary` | stacks/art_vehicle/art_nav/src/lib/GraphSearch.cc:64-138 | That network meets everything under which the search is near-optimal: unique ids, joined nodes, no turn-around, a metric and realistic edges |
| `SearchSlack.DearerPathForced` | stacks/art_vehicle/art_nav/src/lib/GraphSearch.cc:64-138 | The penalty does harm: for every d between 0 and 10 there is a straight road, edges as long as their ends are apart, on which each result the search can give costs 13 + d although a walk of cost 13 exists, whatever the order of equal entries |
| `SearchZones.SearchMisses` | stacks/art_vehicle/art_nav/src/lib/GraphSearch.cc:148-263 | A zone way-point is closed with one predecessor: on a network with a spot the search returns nothing although a walk that obeys the turn-around rule leads to the goal |
| `SearchZones.NothingFound` | stacks/art_vehicle/art_nav/src/lib/GraphSearch.cc:148-263 | There, no result that the search can give, in any order among equals, leads to the goal |
| `Blockage.Blockages.AddBlock` | stacks/art_vehicle/art_nav/src/commander/Blockage.cc:90-182 | In place: edges into the reported way-point or equal to the first route edge are blocked and recorded, detour edges are appended and recorded; nothing happens when the way-point is unknown or there is no route |
| `Blockage.ReportBlocks` | stacks/art_vehicle/art_nav/src/commander/Blockage.cc:90-182 | A report has an effect if and only if its way-point is known and there is a route. With a way-point behind it in its lane, every edge into it and every edge between the ends of the first route edge is blocked and no other edge is changed; without one, none. The new edges are free detours of 100 m into it, and out of the one behind it exactly if an edge joins the two; the block carries the time of the report |
| `Blockage.Blockages.PopBlock` | stacks/art_vehicle/art_nav/src/commander/Blockage.cc:49-88 | In place: exactly the recorded flags are cleared and the recorded edges erased (first match each), the edge count stays that of the list |
| `Blockage.Blockages.PopOldest` | stacks/art_vehicle/art_nav/src/commander/Blockage.cc:13-29 | If there is a block, one whose time stamp is no greater than any other is undone |
| `Blockage.Blockages.PopNewest` | stacks/art_vehicle/art_nav/src/commander/Blockage.cc:31-47 | If there is a block, one whose time stamp is no less than any other is undone |
| `Blockage.RunConserves` | stacks/art_vehicle/art_nav/src/commander/Blockage.cc:49-182 | Over any interleaving of reports and removals the endpoint pairs are conserved as a multiset: the original ones plus those of the recorded detours, hence the original ones once no block remains |
| `Blockage.RunRestores` | stacks/art_vehicle/art_nav/src/commander/Blockage.cc:49-182 | If original endpoint pairs are distinct, unblocked and never duplicated by a detour, the list is the original one, in order and unblocked, once no block remains |
| `Restoration.UndoneExactly` | stacks/art_vehicle/art_nav/src/commander/Blockage.cc:49-182 | Any list, any flags: one report and its removal give the list back if and only if no detour has the ends of an edge and, where the way-point has a lane behind it, of the edges it blocks the first with given ends was free and the others blocked |
| `Restoration.UndoneWhenFree` | stacks/art_vehicle/art_nav/src/commander/Blockage.cc:49-182 | For a list without blocked edges this says that no detour has the ends of an edge and no two edges blocked by a report with a lane behind it have the same ends |
| `Restoration.DuplicateStaysBlocked` | stacks/art_vehicle/art_nav/src/commander/Blockage.cc:49-182 | Two edges with the same ends: after a report on the first and its removal the second is blocked although no block remains |
| `Restoration.StuckForEver` | stacks/art_vehicle/art_nav/src/commander/Blockage.cc:49-182 | Such an edge stays blocked through every further run of reports and removals with new detours |
| `Restoration.LaneChangeIsLost` | stacks/art_vehicle/art_nav/src/commander/Blockage.cc:49-182 | A lane change to the first way-point of a lane, reported and removed: a detour of 100 m stands in its place |
| `Commanding.PlanLegs` | stacks/art_vehicle/art_nav/src/commander/command.cc:236-291 | The planned edges lead from the current way-point to the goal and on to the next goal, each leg as good as the search promises; no plan means, on every graph, that the search is trapped on one of the legs |
| `Commanding.NoRouteMeans` | stacks/art_vehicle/art_nav/src/commander/command.cc:236-291 | If edges join nodes, a trapped leg has no walk of always-followed edges |
| `Commanding.Commander.ReplanRoute` | stacks/art_vehicle/art_nav/src/commander/command.cc:215-301 | Terminates, and the replan number rises by exactly one. Every block dropped is one with the least time stamp at that moment, dropped while the search was trapped on the network of that moment; so none is dropped when the first plan succeeds, and every block kept is at least as recent as every one dropped. True: the goal is already reached and nothing changed, or the route leads current to goal to next goal. False: the way-point is unknown, or no blockage is left and the search is trapped |
| `Commanding.Commander.ReportBlockage` | stacks/art_vehicle/art_nav/src/commander/FSM.cc:351-360 | A reported blockage is added before planning again; the same holds of what is then dropped and kept, and the plan is judged on the edited network |
| `Commanding.FailureIsOnOriginalGraph` | stacks/art_vehicle/art_nav/src/commander/command.cc:241-287 | When planning fails after clean reports, the search is trapped on the original network: no blockage is to blame |
| `RoadGraph.Path.PopFront` | stacks/art_vehicle/art_nav/src/commander/Path.h:64-68 | A route never becomes empty and keeps its last edge; if it has more than one edge, every position, past the end included, reads what stood one further |
| `Orders.PrepareOrder` | stacks/art_vehicle/art_nav/src/commander/command.cc:124-206 | The order is filled exactly when every way-point and edge it needs exists: entry i names route node i with the last one repeated, its lane change flag is that of the edge behind it, it is a goal if a checkpoint or the next goal and a stop only as the last goal; the speeds are those of the first edge and of the last zone holding both first way-points, up to the limit; the U-turn mark is the first pair of way-points in two lanes of one segment that is no lane change |
| `Orders.WalkRoute` | stacks/art_vehicle/art_nav/src/commander/FSM.cc:181-235 | The route is walked in place to the last way-point, or to its last edge; a goal is noted exactly when the walk looks at it |
| `Orders.SeenIsRoute` | stacks/art_vehicle/art_nav/src/commander/FSM.cc:187-235 | The walk looks at the route nodes from the second to the last way-point, in order |
| `Orders.GoalsNoted` | stacks/art_vehicle/art_nav/src/commander/FSM.cc:204-209 | A goal is noted exactly when it lies between the old and the new position |
| `Orders.BeginRunCycle` | stacks/art_vehicle/art_nav/src/navigator/course.cc:93-102 | The in-place shift leaves the order advanced to its first entry naming the last way-point, its last entry repeated |
| `Orders.AdvancedShifts` | stacks/art_vehicle/art_nav/src/navigator/course.cc:93-102 | If entry k is the first to name the last way-point, the order is advanced by exactly k |
| `Orders.AdvancedFront` | stacks/art_vehicle/art_nav/src/navigator/course.cc:93-102 | After the shift the first two entries name one way-point, or the first is the last way-point reached and the second is not |
| `Orders.OrdersAgree` | stacks/art_vehicle/art_nav/src/navigator/course.cc:90-102 | For a contiguous route with distinct nodes: the shifted order agrees with the order built after walking the route, at every index up to N-1-k, if and only if the last way-point is not the end of the route |
| `Orders.WalkToEnd` | stacks/art_vehicle/art_nav/src/commander/FSM.cc:211-235 | At the end of the route one edge is kept, so the new order starts one way-point too early |
| `OrderMarks.UturnMarkAgrees` | stacks/art_vehicle/art_nav/src/navigator/course.cc:93-102 | The shift moves the way-points and not the U-turn mark: after a shift by k it is the mark of the order built after walking the route if and only if there was no mark and no U-turn comes into view, or the marked U-turn has been passed and the next one lies as far ahead as that was; a U-turn still ahead is really k entries nearer than the mark says |
| `OrderMarks.UturnMarkIsLeft` | stacks/art_vehicle/art_nav/src/navigator/course.cc:1175-1181 | A route on which the mark is one way-point too late after one way-point |
| `OrderMarks.StopLineExactly` | stacks/art_vehicle/art_nav/src/navigator/road.cc:257-265 | Reaching a way-point raises the stop line event if and only if it is no perimeter point and both next goals are that way-point: the stop lines of the map have no say |
| `OrderMarks.StopMarkIsLost` | stacks/art_vehicle/art_map/include/art_map/types.h:217-235 | A stop line of the map is the next way-point of an order and no stop there |
| `NavTimers.ExpiresAfter` | stacks/art_vehicle/art_nav/src/navigator/ntimer.h:47-74 | A started timer has expired after n checks exactly when n ticks cover its duration |
| `NavTimers.NavTimer.Check` | stacks/art_vehicle/art_nav/src/navigator/ntimer.h:47-55 | A running timer loses one cycle and reports whether it has expired; a stopped one never expires |
| `NavTimers.RestartingKeepsDeadline` | stacks/art_vehicle/art_nav/src/navigator/ntimer.h:61-67 | Restarting a timer in every cycle does not put off its expiry: it comes in round n exactly when n ticks cover the duration and n - 1 do not |
| `Road.ErrorFollowsExactly` | stacks/art_vehicle/art_nav/src/navigator/road.cc:203-348 | After any cycle from any state the error action is next if and only if that cycle cleared a blockage at a way-point; it then stands in Block with a way-point event |
| `Road.ReachableErrors` | stacks/art_vehicle/art_nav/src/navigator/road.cc:26-148 | In every state reachable from reset the pending event has a table entry, except way-point events raised in Block by the cycle that clears the blockage |
| `Road.ErrorIsReached` | stacks/art_vehicle/art_nav/src/navigator/road.cc:302-348 | The error does occur: a run of four cycles from reset, blocked without a passing lane and then cleared at a stop way-point, has the error action next |
| `Road.ControlRaises` | stacks/art_vehicle/art_nav/src/navigator/road.cc:302-758 | Which events a cycle can leave pending in each state |
| `Road.RaisedEventsAreHandled` | stacks/art_vehicle/art_nav/src/navigator/road.cc:26-148 | Each event that can be raised in a state, other than way-point events in Block, has a table entry there |
| `RoadController.Controller.Run` | stacks/art_vehicle/art_nav/src/navigator/road.cc:203-233 | One cycle on the controller's own fields and timers: the transition and its action, for every observation |
| `RoadSafety.StoppedRunHalts` | stacks/art_vehicle/art_nav/src/navigator/road.cc:449-458 | From WaitStop until Follow the controller only waits at the line or to cross and commands zero in every cycle |
| `RoadSafety.StopLineSafety` | stacks/art_vehicle/art_nav/src/navigator/road.cc:518-552 | From the stop line to the next lane: halted in every cycle before Follow, stopped for at least the shorter of the two delays in timer ticks, WaitCross in between, and its last cycle saw Merge_across_all applicable and clear |
| `RoadSafety.StopIsPassed` | stacks/art_vehicle/art_nav/src/navigator/road.cc:449-458 | Such stops do occur: with delays of one cycle and clear lanes a run goes from Follow through the stop to Follow in three cycles |
| `RoadSafety.PrecedenceTimeout` | stacks/art_vehicle/art_nav/src/navigator/road.cc:518-552 | If the number of cars with precedence does not change, the wait ends by the time the cycles cover what the precedence timer has left |
| `RoadSafety.EvadeIsFinal` | stacks/art_vehicle/art_nav/src/navigator/road.cc:621-642 | A run that enters Evade stays there for ever, halted, if and only if no passing lane was found clear in the cycle of entry; otherwise the next cycle passes |
| `RoadSafety.EvadeIsReached` | stacks/art_vehicle/art_nav/src/navigator/road.cc:350-361 | Three cycles from reset, a collision ahead and no clear passing lane lead into this trap |
| `RoadCauses.ChangesExplained` | stacks/art_vehicle/art_nav/src/navigator/road.cc:203-758 | After any cycle without an error, from any state and for whatever is observed later: the next cycle changes to another state if and only if this one saw the cause that a separate table gives for that pair of states |
| `RoadCauses.RunExplained` | stacks/art_vehicle/art_nav/src/navigator/road.cc:203-758 | The same of every cycle of a run: each change of state is traced to what the cycle before it observed |
| `RoadCauses.CommandLaw` | stacks/art_vehicle/art_nav/src/navigator/road.cc:203-758 | The command of a cycle by the state it ends in: a halt in every waiting state, the request of the lane, passing, U-turn or zone controller elsewhere |
| `RoadCauses.LaneChangeSafety` | stacks/art_vehicle/art_nav/src/navigator/road.cc:463-488 | From the cycle that comes to wait for a lane every cycle halts until Follow, the only way out; the cycle before saw the adjacent lane on the side noted at entry applicable and clear, or that side was straight ahead |
| `RoadCauses.PassingSafety` | stacks/art_vehicle/art_nav/src/navigator/road.cc:490-516 | Pass is entered from WaitPass only after a halted cycle that saw the passing lane on the side of that moment clear, with the passing timer expired |
| `RoadCauses.PassingTakesTime` | stacks/art_vehicle/art_nav/src/navigator/road.cc:490-516 | From a cancelled timer Pass begins only after at least the passing delay in cycles |
| `RoadCauses.BlockedLaw` | stacks/art_vehicle/art_nav/src/navigator/road.cc:302-348 | The road is reported blocked from the cycle that enters Block until new way-points come or the lane is free |
| `Navigator.EstopTableTotal` | stacks/art_vehicle/art_nav/src/navigator/estop.cc:18-102 | The E-stop table is total, so its error action is unreachable, and leads to Run only on a start event, or by staying there |
| `Navigator.EstopCycle` | stacks/art_vehicle/art_nav/src/navigator/estop.cc:113-182 | Every cycle ending outside Run commands zero velocity and yaw; Done is left only for a suspend order |
| `Navigator.EstopLaw` | stacks/art_vehicle/art_nav/src/navigator/estop.cc:113-279 | Every event leads to the state it asks for, but Done is left for Suspended only; the flasher is on in every state but Done, the alarm in Running only |
| `Navigator.RunningExactly` | stacks/art_vehicle/art_nav/src/navigator/estop.cc:18-182 | Over whole runs: the state is Running if and only if a start event came in a cycle that was not Done and no pause, quit, suspend or abort event since |
| `Navigator.MovesOnlyWhenStarted` | stacks/art_vehicle/art_nav/src/navigator/estop.cc:113-279 | A cycle that commands anything but a halt belongs to a run that a run order started, that no later order paused, suspended or ended, and in which no cycle failed |
| `Navigator.FatalForcesDone` | stacks/art_vehicle/art_nav/src/navigator/estop.cc:228-237 | A fatal Run result forces Done in the next cycle whatever order arrives, and the vehicle is halted there until a suspend order |
| `Navigator.FatalExactly` | stacks/art_vehicle/art_nav/src/navigator/road.cc:285-578 | From any state a road cycle is fatal if and only if it takes the error action, is in a zone with a perimeter way-point reached before it began, or passes on a fatal result of following, passing, the U-turn or following safely |
| `Navigator.AbortExactly` | stacks/art_vehicle/art_nav/src/navigator/estop.cc:228-237 | A cycle that calls the road, on an order shifted to the last way-point, leaves an abort pending if and only if one of these causes is there, and a zone is none |
| `Navigator.FatalRoadForcesDone` | stacks/art_vehicle/art_nav/src/navigator/estop.cc:228-237 | In any run each of these causes forces Done in the next cycle, and a halt there until a suspend order |
| `Navigator.NotThereYet` | stacks/art_vehicle/art_nav/src/navigator/run.cc:219-226 | Whenever the road controller runs, the order starts with the last way-point reached and its next one has not been reached |
| `Navigator.ZoneIsHarmless` | stacks/art_vehicle/art_nav/src/navigator/road.cc:554-578 | A cycle in a zone is never fatal: it passes on the speed limit straight ahead, and the next road cycle waits to cross, whatever it finds |
| `Navigator.RoadOrHalt` | stacks/art_vehicle/art_nav/src/navigator/run.cc:87-155 | The run controller never leaves Continue, and then a cycle either leaves the road untouched and halts or is a Road cycle |
| `Navigator.RoadErrorForcesDone` | stacks/art_vehicle/art_nav/src/navigator/road.cc:285-300 | A Road error halts at once and forces Done in the next cycle |
| `Navigator.StopLineHoldsTheVehicle` | stacks/art_vehicle/art_nav/src/navigator/run.cc:87-155 | Over whole Navigator runs with any orders and pauses: from the stop line until Follow every cycle commands a halt |
| `Navigator.StopLineTakesTime` | stacks/art_vehicle/art_nav/src/navigator/ntimer.h:47-74 | Over whole Navigator runs Follow comes only after at least the shorter delay in cycles |
| `Navigator.Estop.Navigate` | stacks/art_vehicle/art_nav/src/navigator/estop.cc:113-137 | One Navigator cycle on the fields of Estop, Run and Road is exactly the specified cycle |
| `Covariance.PosteriorPositiveDefinite` | stacks/art_vehicle/art_map/src/lib/KF.cc:183-201 | The covariance update keeps symmetry and positive definiteness for any measurement direction and positive noise |
| `Covariance.PosteriorAtMost` | stacks/art_vehicle/art_map/src/lib/KF.cc:183-201 | No variance in any direction grows |
| `Covariance.PosteriorPrediction` | stacks/art_vehicle/art_map/src/lib/KF.cc:183-201 | The variance of the predicted measurement shrinks by the factor R / (CPC + R) |
| `KalmanFilter.DeadzoneRaisesNoise` | stacks/art_vehicle/art_map/src/lib/KF.cc:260-298 | The dead zone never lowers the noise |
| `KalmanFilter.InsideZoneBound` | stacks/art_vehicle/art_map/src/lib/KF.cc:260-298 | For every noise: inside the zone the posterior predicted variance is at least 4 eps^2 if and only if the inverse-noise clamp is not hit or the noise alone suffices |
| `KalmanFilter.OutsideZoneBound` | stacks/art_vehicle/art_map/src/lib/KF.cc:260-298 | For every noise: outside the zone the residual left after the update is at least eps if and only if the inverse-noise clamp is not hit or the noise alone suffices |
| `KalmanFilter.ClampBreaksBounds` | stacks/art_vehicle/art_map/src/lib/KF.cc:260-298 | Measurements for which the clamp is hit and each bound fails, and one of huge noise for which it is hit and the bound holds |
| `KalmanFilter.NoNumericsError` | stacks/art_vehicle/art_map/src/lib/KF.cc:130-204 | From a positive definite covariance neither reset branch is taken |
| `KalmanFilter.RunIsGood` | stacks/art_vehicle/art_map/src/lib/KF.cc:130-204 | Over any sequence of measurements the covariance stays positive definite, no variance grows, and alpha stays in (0,1] |
| `KalmanFilter.RunNeverResets` | stacks/art_vehicle/art_map/src/lib/KF.cc:130-210 | No update of a run from a positive definite covariance resets |
| `KalmanFilter.StartedRun` | stacks/art_vehicle/art_map/src/lib/KF.cc:30-47 | From the initial diagonal covariance, over any sequence of measurements: positive definite, variances at most the initial ones, alpha in (0,1], and no reset |
| `KalmanFilter.XchangeTracksIff` | stacks/art_vehicle/art_map/src/lib/KF.cc:148-203 | Xchange changes by exactly the state change if and only if the measurement is not a long-range one to be ignored nor an outlier to be rejected, or the state is zero: a refused measurement leaves it lowered by the whole state |
| `KalmanFilter.OutlierLowersXchange` | stacks/art_vehicle/art_map/src/lib/KF.cc:163-181 | One outlier that leaves the state as it is and lowers Xchange by it |
| `KalmanFilter.UpdateMeetsPrediction` | stacks/art_vehicle/art_map/src/lib/KF.cc:156-202 | The dead-zone quantities are those of the update that the code performs |
| `KalmanFilter.StateMoves` | stacks/art_vehicle/art_map/src/lib/KF.cc:156-203 | An accepted measurement moves the new state by P C' times the innovation over C P C' + R; a refused one does not move it |
| `KalmanFilter.StateLeavesResidual` | stacks/art_vehicle/art_map/src/lib/KF.cc:156-203 | What the new state leaves of the innovation is the residual of the dead-zone argument |
| `KalmanFilter.ZoneAtNewState` | stacks/art_vehicle/art_map/src/lib/KF.cc:260-298 | At the new state: outside the zone at least eps of the innovation is left, inside it the state stays and the predicted variance is at least 4 eps^2, each if and only if the clamp is not hit or the noise alone suffices |
| `KalmanFilter.UpdateIsBestFit` | stacks/art_vehicle/art_map/src/lib/KF.cc:183-201 | No other move of the state is nearer to the old state and the measurement together, each weighed by its uncertainty |
| `KalmanFilter.AlphaMoves` | stacks/art_vehicle/art_map/src/lib/KF.cc:148-203 | How each update, accepted or refused, moves the model probability |
| `KalmanFilter.KF.MeasurementUpdate` | stacks/art_vehicle/art_map/src/lib/KF.cc:130-204 | The method on the fields X, P, Xchange and alpha computes exactly the specified update and terminates after at most one reset, from any covariance |
| `MapLanes.CutsPartition` | stacks/art_vehicle/art_map/src/lib/MapLanes.cc:556-649 | Recursive halving stops, and its pieces partition the interval without gap or overlap |
| `MapLanes.TiledHalves` | stacks/art_vehicle/art_map/src/lib/MapLanes.cc:622-647 | Tiling the two halves one after the other is tiling the whole with the joined cuts |
| `TileLengths.CutsFit` | stacks/art_vehicle/art_map/src/lib/MapLanes.cc:569-649 | Where no chord is longer than its stretch of the curve: every tile spans at most the maximum polygon size, or 0.00001, of the curve, or the ends of its piece coincide; and the piece that a tile is half of was longer than the rule allows |
| `TileLengths.EdgeTilesFit` | stacks/art_vehicle/art_map/src/lib/MapLanes.cc:399-649 | The same of the interior polygons of the list that a top-level edge makes, each between the points of both sides at its cuts |
| `TileLengths.StraightTiles` | stacks/art_vehicle/art_map/src/lib/MapLanes.cc:569-649 | On a straight road every tile is longer than half the maximum size and at most that size, unless it is half of the edge |
| `MapLanes.EdgeIsChain` | stacks/art_vehicle/art_map/src/lib/MapLanes.cc:399-649 | A top-level edge keeps the earlier polygons and appends an unbroken chain numbered by list position, whose interior polygons carry the edge's two way-point ids |
| `MapLanes.EdgeContinues` | stacks/art_vehicle/art_map/src/lib/MapLanes.cc:429-445 | An edge that starts where the last one ended continues its chain |
| `MapLanes.LaneIsChain` | stacks/art_vehicle/art_map/src/lib/MapLanes.cc:108-127 | A whole lane is one unbroken, numbered chain from the polygon of its first way-point to that of its last |
| `MapLanes.Builder.MakePiece` | stacks/art_vehicle/art_map/src/lib/MapLanes.cc:556-649 | The recursive method on the shared polygon list appends exactly the tiles of the specified cuts |
| `MapLanes.Builder.MakeLaneEdge` | stacks/art_vehicle/art_map/src/lib/MapLanes.cc:399-555 | A top-level call appends exactly the specified polygons |
| `MapLanes.Builder.MakeLane` | stacks/art_vehicle/art_map/src/lib/MapLanes.cc:108-127 | All edges of a lane in order |
| `MapLanes.Builder.FindWayPolys` | stacks/art_vehicle/art_map/src/lib/MapLanes.cc:660-678 | The search loop ends with the positions that PlacesFound describes |
| `MapLanes.PlacesFound` | stacks/art_vehicle/art_map/src/lib/MapLanes.cc:666-678 | Of two way-points that both have polygons, the search keeps the first polygon of the one seen later and the last polygon of the other before that; if only one has any, its last; a second way-point that is the first again is never found |
| `MapLanes.Builder.MakeTransition` | stacks/art_vehicle/art_map/src/lib/MapLanes.cc:652-791 | Uses the listed polygons of its way-points wherever there are any; far apart, it appends exactly the specified tiles; too close, it moves the front of the first polygon to the back of the second exactly when both are listed, and changes nothing otherwise |
| `MapLanes.TransitionBridges` | stacks/art_vehicle/art_map/src/lib/MapLanes.cc:713-784 | A transition leaves all earlier polygons alone and bridges the gap from the first way-point polygon to the second without a break, numbered and carrying both ids |
| `MapLanes.TransitionKeepsChain` | stacks/art_vehicle/art_map/src/lib/MapLanes.cc:706-791 | A chain anywhere in the list survives a transition if and only if the polygons are far apart, one of them is not listed, the first is outside the chain or its last polygon, or the fronts coincide already |
| `LaneBuild.WorkKeepsSegment` | stacks/art_vehicle/art_map/src/lib/MapLanes.cc:108-127 | A later lane never breaks a chain of the list; a transition does exactly if it moves the front of a polygon that is followed by another of the chain |
| `LaneBuild.LaneStaysWhole` | stacks/art_vehicle/art_map/src/lib/MapLanes.cc:108-127 | Through any sequence of lanes and transitions the polygons of a lane stay one unbroken chain after every later call if and only if none of these tears it |
| `LaneBuild.TransitionBreaksChain` | stacks/art_vehicle/art_map/src/lib/MapLanes.cc:785-791 | Two straight lanes and an exit between way-points 0.9 m apart: the polygons of the first lane are whole after both lanes and torn by the transition |
| `LineTrace.Line` | stacks/art_vehicle/art_map/src/lib/VisualLanes.cc:380-428 | For all endpoints and octants: the cells visited are the unique nearest cells of the segment, one per step of the longer axis, max(abs dx,abs dy)+1 of them unless a callback after the first cell stops the trace, and then up to exactly that cell |
| `LineTrace.LineCellUnique` | stacks/art_vehicle/art_map/src/lib/VisualLanes.cc:402-426 | Each step of the longer axis has exactly one cell within half a cell of the segment, ties decided one way |
| `LineTrace.LineEnds` | stacks/art_vehicle/art_map/src/lib/VisualLanes.cc:402-427 | The line ends exactly at (x1, y1) |
| `LineTrace.LineIsConnected` | stacks/art_vehicle/art_map/src/lib/VisualLanes.cc:404-425 | Successive cells are neighbours |
| `LineTrace.ErrorTermDecides` | stacks/art_vehicle/art_map/src/lib/VisualLanes.cc:405-422 | The integer error term decides exactly whether the minor coordinate moves |
| `Applanix.FramingIsUnique` | stacks/art_vehicle/applanix/src/applanix.cc:181-226 | Packets taken off one by one together with the framing of the rest are the framing of the whole stream |
| `Applanix.ChunkingDoesNotMatter` | stacks/art_vehicle/applanix/src/applanix.cc:140-226 | Two receivers of the same bytes that both wait for more have delivered the same packets and hold the same bytes |
| `Applanix.RecvRetry` | stacks/art_vehicle/applanix/src/applanix.cc:144-151 | The retried call loses and duplicates no byte and is never reported as interrupted |
| `Applanix.Device.ReadPacket` | stacks/art_vehicle/applanix/src/applanix.cc:140-171 | One read appends exactly what the retried call got and notes its time; no bytes or an error leave buffer and time as they are, and a full buffer answers EAGAIN |
| `Applanix.Device.GetPacket` | stacks/art_vehicle/applanix/src/applanix.cc:181-226 | Success delivers exactly the packet at the front of what was read; failure delivers nothing. A delivered group 1 packet carries the time of the last read if and only if this call had to read or the stamp was that time already; other packets leave the stamp. A full buffer without a packet fails for ever |
| `Applanix.Device.FillBuffer` | stacks/art_vehicle/applanix/src/applanix.cc:186-197 | The reading loop ends exactly as specified: with a whole packet at the front, or with the status of the first read that brought nothing; if it read, it notes the time of the last read |
| `Applanix.Device.TakePacket` | stacks/art_vehicle/applanix/src/applanix.cc:205-226 | The first packet leaves the buffer, the rest moves to the front unchanged |
| `Applanix.Device.Drain` | stacks/art_vehicle/applanix/src/applanix.cc:181-226 | For every split into reads, with faults in between: repeated calls deliver exactly the packets of the stream and keep exactly its unfinished end if and only if every packet, and what there is of the unfinished one, fits the buffer; otherwise the driver stalls |
| `Applanix.StaleTimeStamp` | stacks/art_vehicle/applanix/src/applanix.cc:181-226 | A group 1 packet read together with a packet of another group is delivered with the older time stamp |
| `Applanix.OversizeStalls` | stacks/art_vehicle/applanix/src/applanix.cc:181-197 | A packet longer than the buffer: nothing is delivered and every later call fails |
| `SlowForCurves.Normalize` | stacks/art_vehicle/art_map/include/art_map/coordinates.h:180-189 | The equivalent heading in (-pi, pi] |
| `SlowForCurves.RoundMeaning` | stacks/art_vehicle/art_nav/src/navigator/course.cc:1292-1341 | Although the running maximum is fed into both limits, one round leaves exactly the speeds that were left before and that this curve alone allows |
| `SlowForCurves.HeadingSpeedMeaning` | stacks/art_vehicle/art_nav/src/navigator/course.cc:1316-1341 | A curve's limit is never below the speed for sharp turns; above it, limit times turn is the yaw rate times the ratio, so a sharper turn never allows a higher speed |
| `SlowForCurves.BrakesInTime` | stacks/art_vehicle/art_nav/src/navigator/slow_for_curves.cc:91-134 | Braking at the maximum deceleration from a speed that is safe, such as the commanded one, reaches the place where any curve's limit is applied no faster than that limit or the curve minimum, by the laws of motion |
| `SlowForCurves.SpanBetweenMiddles` | stacks/art_vehicle/art_nav/src/navigator/slow_for_curves.cc:103-113 | The distances added up are those between the middles of polygons |
| `SlowForCurves.FindCurve` | stacks/art_vehicle/art_nav/src/navigator/slow_for_curves.cc:106-115 | The change of heading over the first stretch of at least the minimum curve length |
| `SlowForCurves.MaxSafeSpeed` | stacks/art_vehicle/art_nav/src/navigator/slow_for_curves.cc:62-153 | The greatest speed from which every curve ahead can be met by braking, capped by 100 and by the request; 0 if nearly 0; -1 for bogus indices |
| `SlowForCurves.IndexOfDownstreamPoly` | stacks/art_vehicle/art_map/src/lib/PolyOps.cc:881-900 | The first polygon whose far end lies the distance ahead, or the last; -1 for a bad start |
| `SlowForCurves.Control` | stacks/art_vehicle/art_nav/src/navigator/slow_for_curves.cc:21-60 | The result never exceeds the request; where the limiter acts it satisfies v^2 <= v_b^2 + 2 a d_b for every look-ahead polygon b with a real heading change, is not below the curve minimum, and no permitted speed from there up to the request and 100 is greater, unless it is nearly zero; bogus indices give the curve minimum |
| `Scanning.DecimalRoundTrip` | stacks/art_vehicle/art_map/src/node/pointsToRNDF.rb:78-81 | Reading the digits of a printed number gives the number |
| `Scanning.IntRead` | stacks/art_vehicle/art_map/src/lib/RNDF.cc:740-752 | Scanning a printed number gives it and leaves what follows |
| `Scanning.RealRead` | stacks/art_vehicle/art_map/src/lib/RNDF.cc:652-668 | Scanning a recorded coordinate consumes exactly its text |
| `Rndf.Parse` | stacks/art_vehicle/art_map/src/lib/RNDF.cc:34-441 | The line loop, which stops at the first invalid line, computes the specified parse of the lines |
| `Rndf.ParsedIsSound` | stacks/art_vehicle/art_map/include/art_map/RNDF.h:43-262 | Whatever text is read, an accepted file holds only valid segments, lanes, zones and spots whose own counts match and whose way-points, checkpoints, stops and exits are numbered from 1, and a zone's perimeter is valid where it has one |
| `RndfFormat.FormatRoundTrip` | stacks/art_vehicle/art_map/src/lib/RNDF.cc:34-441 | For everything the format can express, in every field of every element (names, counts, widths, boundaries, checkpoints, stops, exits, way-points, perimeters, spots): the printed lines are read back as exactly the same file if its counts are right and its numbers count from 1, and rejected otherwise |
| `RndfFormat.Reprinted` | stacks/art_vehicle/art_map/src/lib/RNDF.cc:34-441 | A normal form: whatever text an expressible file with the right counts was read from, its printed lines are read as the same file |
| `RndfFormat.LaneReaches` | stacks/art_vehicle/art_map/src/lib/RNDF.cc:199-289 | The lines of a lane add it to its segment with all its fields, or are rejected |
| `RndfFormat.PerimeterReaches` | stacks/art_vehicle/art_map/src/lib/RNDF.cc:328-378 | The lines of a perimeter set it with its exits and points, or are rejected; a zone may have none |
| `RndfFormat.ExitArgRead` | stacks/art_vehicle/art_map/src/lib/RNDF.cc:671-692 | A printed exit is read as the same two way-points, or refused if a number is too small |
| `Rndf.InsertionIsInvisible` | stacks/art_vehicle/art_map/src/lib/RNDF.cc:78-119 | Inserting blank lines anywhere, or a complete comment block outside of a comment, does not change the parse of any text |
| `Rndf.EmptyFileIsAccepted` | stacks/art_vehicle/art_map/src/lib/RNDF.cc:34-66 | The empty file is accepted although its counts are invalid |
| `RndfLines.EndedFileIsValid` | stacks/art_vehicle/art_map/src/lib/RNDF.cc:150-156 | A text that ends with the end line outside of a comment is accepted if and only if it was valid so far, no element is open and the file has the counts it announced; so an accepted file with an end line is valid |
| `RndfLines.BareZoneIsAccepted` | stacks/art_vehicle/art_map/src/lib/RNDF.cc:313-326 | From any state between elements a zone without a perimeter is accepted |
| `RndfLines.IndentedExactly` | stacks/art_vehicle/art_map/src/lib/RNDF.cc:66-438 | From every state that still reads: indenting a line leaves it accepted or rejected as it was if and only if its format does not begin with literal text (lane, perimeter, spot, way-point, checkpoint, stop and exit lines) or the line is rejected anyway; other lines are read the same |
| `RndfLines.IndentedLaneLine` | stacks/art_vehicle/art_map/src/lib/RNDF.cc:202-211 | A lane line that is accepted, and rejected once it is indented |
| `RndfWriter.RoundTrip` | stacks/art_vehicle/art_map/src/node/pointsToRNDF.rb:72-109 | For all recorded points the parser answers the written lines with exactly the same lanes, perimeters and spot pairs in order, odd spot counts included, if there is a lane, no lane is empty and every zone has a perimeter; otherwise it rejects them |
| `RndfWriter.NothingLost` | stacks/art_vehicle/art_map/src/node/pointsToRNDF.rb:72-109 | No two recordings are read back as the same file |
| `RndfWriter.EndLineIsOptional` | stacks/art_vehicle/art_map/src/lib/RNDF.cc:150-156 | Without its end line a written file is read as the same file |
| `RndfWriter.LaneRun` | stacks/art_vehicle/art_map/src/node/pointsToRNDF.rb:76-87 | The lines of a lane add its segment to any parser between elements, or fail if it has no points |
| `RndfWriter.AreaRun` | stacks/art_vehicle/art_map/src/node/pointsToRNDF.rb:88-107 | The lines of a zone add it with its perimeter and spots, or fail if the perimeter has no points |
| `RndfWriter.SpotsRun` | stacks/art_vehicle/art_map/src/node/pointsToRNDF.rb:98-104 | Spot points alternate between opening and closing a spot |
| `RndfWriter.RunParts` | stacks/art_vehicle/art_map/src/lib/RNDF.cc:66-438 | Parts that lead from state to state lead through all of them if all are good, and to rejection otherwise |
| `RndfGraph.DistinctNumbers` | stacks/art_vehicle/art_map/src/lib/RNDF.cc:937-995 | With distinct ids every way-point keeps its own number and the map has one node for each |
| `RndfGraph.RepeatedNumbers` | stacks/art_vehicle/art_map/src/lib/RNDF.cc:937-995 | A repeated id leaves fewer nodes than numbers |
| `RndfGraph.FitsIffDistinct` | stacks/art_vehicle/art_map/src/lib/RNDF.cc:1213-1220 | With at most 65536 way-points all indices lie within the node array if and only if the ids, cut to 16 bits a part, are distinct |
| `RndfGraph.Populate` | stacks/art_vehicle/art_map/src/lib/RNDF.cc:1213-1220 | Copying stays within the array exactly when every index fits, and puts each node at its index |
| `RndfGraph.PopulateNodes` | stacks/art_vehicle/art_map/src/lib/RNDF.cc:1213-1220 | With at most 65536 way-points populating succeeds if and only if ids are distinct, and then position i holds way-point i with index i; with more distinct ones the placement fails |
| `RndfGraph.LookupIsIndexing` | stacks/art_vehicle/art_map/src/lib/Graph.cc:31-36 | Where nodes stand at their index, searching for an index is plain indexing |
| `RndfGraph.WellFormedJoins` | stacks/art_vehicle/art_map/src/lib/Graph.cc:31-36 | A well-formed graph meets what the search needs of its edges |
| `GraphBuilding.Builder.NumberVertices` | stacks/art_vehicle/art_map/src/lib/RNDF.cc:937-995 | Lanes, then spots, then perimeters are numbered into the id map, a repeated id replacing the earlier node |
| `GraphBuilding.Builder.MarkReferences` | stacks/art_vehicle/art_map/src/lib/RNDF.cc:997-1055 | Succeeds exactly when every checkpoint, stop and exit names existing way-points; then a way-point is an exit, entry or stop exactly when the file says so, and numbers and kinds are unchanged |
| `GraphBuilding.Builder.AddExits` | stacks/art_vehicle/art_map/src/lib/RNDF.cc:1076-1111 | An exit to the next way-point of its lane marks the first such edge, any other adds an edge |
| `GraphBuilding.Builder.AddLinks` | stacks/art_vehicle/art_map/src/lib/RNDF.cc:1136-1205 | One pass over all ordered pairs of nodes adds the edges of its rule, in the order of the map |
| `GraphBuilding.Builder.PrepGraph` | stacks/art_vehicle/art_map/src/lib/RNDF.cc:922-1206 | Fails exactly for an unresolved reference; otherwise numbers, flags and the edge list, pass by pass in order, are as specified |
| `GraphBuilding.AllEdgesInRange` | stacks/art_vehicle/art_map/src/lib/RNDF.cc:1057-1205 | Every edge of every pass joins indices that the map uses |
| `EdgePairs.LinkedExactly` | stacks/art_vehicle/art_map/src/lib/RNDF.cc:1136-1205 | An edge is added by a pass if and only if its rule asks for it between some two nodes of the map |
| `EdgePairs.JoinedExactly` | stacks/art_vehicle/art_map/src/lib/RNDF.cc:1057-1205 | Two way-points are joined if and only if they follow each other in a lane, are the ends of a lane exit that leaves the order of its lane or of a zone exit, or are linked within a zone |
| `EdgePairs.EdgeExists` | stacks/art_vehicle/art_map/src/lib/RNDF.cc:1057-1205 | The edge list of a file has an edge between two indices if and only if they are those of a joined pair |
| `EdgePairs.EdgesMatch` | stacks/art_vehicle/art_map/src/lib/RNDF.cc:1057-1205 | The edges run through exactly the joined pairs, one for one and in order |
| `ExitMarks.ExitsExactly` | stacks/art_vehicle/art_map/src/lib/RNDF.cc:1057-1134 | Two nodes are joined by an edge marked as an exit if and only if an exit of a zone or of a lane joins them; an exit to the next way-point of its lane marks only an edge that the lanes have made |
| `DistinctPairs.SpotsJoinedTwice` | stacks/art_vehicle/art_map/src/lib/RNDF.cc:1191-1202 | Two spots of a zone are joined twice in the built list, so its endpoint pairs are not distinct |
| `DistinctPairs.DistinctExactly` | stacks/art_vehicle/art_map/src/lib/RNDF.cc:1057-1205 | The endpoint pairs of the built list are distinct if and only if exits are listed once, repeat no lane edge and no link of a zone, no zone has two spots, and no exit uses the second point of a spot |
| `RestoredGraph.FullDistinctExactly` | stacks/art_vehicle/art_nav/src/commander/ros_node.cc:199-210 | With the lane changes that the Commander adds, the pairs are distinct if and only if the built ones are and no exit and no link of a zone leads where a lane change leads |
| `RestoredGraph.BuiltGraphRestores` | stacks/art_vehicle/art_nav/src/commander/Blockage.cc:49-182 | That whole list, lengths and speeds filled in, is restored exactly by every run of blockages with new detours that leaves none |
| `RestoredGraph.SpotEdgeStaysBlocked` | stacks/art_vehicle/art_nav/src/commander/Blockage.cc:49-182 | With two spots in a zone the list has an edge that a report on its twin, at a way-point with a lane behind it and new detours, leaves blocked after its removal |
| `GraphBuilding.BuildGraph` | stacks/art_vehicle/art_map/src/lib/RNDF.cc:922-1223 | With at most 65536 way-points a graph can be built if and only if references resolve and ids, cut to 16 bits a part, are distinct; it is well formed, with unique ids, each node at its index and the edge count that of the list |
| `GraphEdits.NearestLeft` | stacks/art_vehicle/art_map/src/lib/Graph.cc:559-576 | The first of the nearest nodes in the lane before |
| `GraphEdits.RightChoice` | stacks/art_vehicle/art_map/src/lib/Graph.cc:601-618 | What the right-hand loop really picks: the first node of the lane after, unless a later one is at least 1 m away, then the first such |
| `GraphEdits.RightIsNearestExactly` | stacks/art_vehicle/art_map/src/lib/Graph.cc:601-618 | It is the nearest if and only if all later nodes are within 1 m and the first is nearest, or the second is at least 1 m away and nearest |
| `GraphEdits.RightIsNotNearest` | stacks/art_vehicle/art_map/src/lib/Graph.cc:601-618 | A first node 2 m away and a second 10 m away: the second is picked |
| `GraphEdits.AddLaneChanges` | stacks/art_vehicle/art_map/src/lib/Graph.cc:551-637 | Exactly the implicit edges of one node, to its nearest left and its right-hand choice; without a usable left neighbour there is none on the right either |
| `GraphEdits.FindImplicitEdges` | stacks/art_vehicle/art_map/src/lib/Graph.cc:551-637 | Exactly the lane changes of all nodes are appended in order, the count is kept, and a well-formed graph stays well formed |
| `GraphEdits.BlockagesKeepGraph` | stacks/art_vehicle/art_nav/src/commander/Blockage.cc:49-182 | Through any run of blockages a well-formed graph stays well formed |
| `RndfPipeline.RecordedPointsBuild` | stacks/art_vehicle/art_map/src/node/pointsToRNDF.rb:72-109 | End to end: acceptable recorded points are read back with resolved references, and with distinct 16-bit ids if there are at most 65536 of them, so their graph can be built |
| `RecordedEdges.RecordedDistinctExactly` | stacks/art_vehicle/art_map/src/lib/RNDF.cc:1057-1205 | The built list of a recorded file has distinct endpoint pairs if and only if no zone was recorded with more than two spot points |

## Left out

- GraphSearch.AStar: which walks an empty answer rules out, and near-optimality, are stated for walks of edges that are followed whatever came before them, because others can be missed (`SearchZones.SearchMisses`).
- Commanding.Commander.ReplanRoute: a speed limit above zero is required, as for every configured vehicle.
- KalmanFilter.KF.MeasurementUpdate: the matrix dimensions are fixed to two states, so the dimension check is not modelled.
- Restoration.UndoneExactly: stated for reports whose own detour edges are not in the list already.
- Navigator.AbortExactly: the way-point flags of an order are arbitrary inputs; only which way-points it names is tied to the shift.
- Orders.PrepareOrder: the two checkpoints, the replan number and the flags that are only copied from a node are not modelled.
- Orders.OrdersAgree: compares way-point ids and lane-change flags; goal and stop marks follow the goals that each side knew.
- TileLengths.EdgeTilesFit: the curve is taken to be parametrised by its length, and half-way points to halve distances; edges too short for interior polygons have none.
- RndfFormat.FormatRoundTrip: numbers without a sign, coordinates without an exponent and exits below the element they leave; the order of lines within an element is the one printed.
- MapLanes.LaneIsChain: starts from a lane whose curve has been fitted; the grouping of graph edges into lanes is not modelled.
- MapLanes.Builder.MakeTransition: needs a polygon in the list, since lane edges come first; the transition mark of a polygon is not modelled.
- Rndf.Parse: reading stops at the text of lines; hexadecimal, infinite and not-a-number reals, integers beyond 32 bits, buffer sizes and lines of only vertical tabs or form feeds are not modelled, and a rejected file has no contents.
- RndfWriter.RoundTrip: coordinates are compared as text; their conversion to doubles is not modelled, and the reader half of the script is represented by the form of coordinates that it accepts.
- GraphBuilding.Builder.PrepGraph: lane width, checkpoint numbers and lane markings of nodes and edges are not modelled.
- GraphEdits.FindImplicitEdges: lane direction and passing rules are one arbitrary predicate.
- Applanix.Device.GetPacket: the contents of group 1 and group 4 records are not unpacked.
- SlowForCurves.Control: lengths, deceleration and the minimum speed must not be negative; the closest polygon is a parameter.
- MDF parsing, mission state and the rest of the Commander transition table would only add easier members of the kind shown for the RNDF.
- ReplanInRoad assigns the last way-point of its own copy of the Navigator state; that assignment is not modelled.
- Observers, stop-line, U-turn, follow and zone controllers enter as arbitrary results.
- ROS topics, message publishing, sockets, files, parameter servers, transforms, simulation and user interfaces.
- Transcendental geometry: map projection, smooth curves, headings, the yaw spring law and pose estimation.
- Unported and disabled code, grid clearing and goal search of the visual lanes, graph save and load, PID, steering and unit conversions.
