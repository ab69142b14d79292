/**
 * The mock robot of pkg/robot/mock.go: a position on the inclusive 0..10 grid,
 * a registry of tasks (a map from task id to the commands still to run, plus
 * the FIFO order of ids) and a scheduler loop that, one tick at a time, either
 * services a pending cancellation or advances the head task by one command.
 *
 * The scheduler is given twice: as pure functions over a snapshot value
 * (`Scheduler`, the `After...` functions), about which the lemmas below are
 * proved, and as the class `MockRobot`, whose methods update their fields in
 * place as the Go methods do and are proved to produce exactly those snapshots.
 */
module Robot {
  import opened Wrappers
  import Text

  type TaskId = string

  /** Both axes run over 0..GridMax inclusive. */
  const GridMax: int := 10

  datatype RobotState = RobotState(x: int, y: int, hasCrate: bool)

  predicate OnGrid(s: RobotState)
  {
    0 <= s.x <= GridMax && 0 <= s.y <= GridMax
  }

  predicate IsDirection(c: string)
  {
    c == "N" || c == "S" || c == "E" || c == "W"
  }

  /** The two errors `move` reports. */
  datatype MoveError = OutOfBounds(command: string) | InvalidCommand(command: string)

  /** The error `CancelTask` returns for an id that is not registered. */
  datatype CancelError = TaskNotFound(id: TaskId)

  /** Manhattan distance between two positions. */
  function Distance(a: RobotState, b: RobotState): nat
  {
    (if a.x <= b.x then b.x - a.x else a.x - b.x) + (if a.y <= b.y then b.y - a.y else a.y - b.y)
  }

  /**
   * `move` as a function of the state before it: one unit step, refused at
   * the edge of the grid and for any token that is not a direction.
   */
  function Step(s: RobotState, c: string): (r: Result<RobotState, MoveError>)
    ensures !IsDirection(c) ==> r == Failure(InvalidCommand(c))
    ensures IsDirection(c) && r.Failure? ==> r.error == OutOfBounds(c)
    ensures r.Success? ==> Distance(s, r.value) == 1 && r.value.hasCrate == s.hasCrate
    ensures r.Success? && OnGrid(s) ==> OnGrid(r.value)
    // the direction of each step
    ensures c == "N" && s.y != GridMax ==> r == Success(s.(y := s.y + 1))
    ensures c == "S" && s.y != 0 ==> r == Success(s.(y := s.y - 1))
    ensures c == "E" && s.x != GridMax ==> r == Success(s.(x := s.x + 1))
    ensures c == "W" && s.x != 0 ==> r == Success(s.(x := s.x - 1))
    // the edge of the grid refuses the step that would cross it
    ensures c == "N" && s.y == GridMax ==> r == Failure(OutOfBounds(c))
    ensures c == "S" && s.y == 0 ==> r == Failure(OutOfBounds(c))
    ensures c == "E" && s.x == GridMax ==> r == Failure(OutOfBounds(c))
    ensures c == "W" && s.x == 0 ==> r == Failure(OutOfBounds(c))
    // on the grid, a direction is refused exactly when it points off the grid
    ensures OnGrid(s) && IsDirection(c) ==>
      (r.Failure? <==>
        ((c == "N" && s.y == GridMax) || (c == "S" && s.y == 0) ||
         (c == "E" && s.x == GridMax) || (c == "W" && s.x == 0)))
  {
    match c
    case "N" => if s.y == 10 then Failure(OutOfBounds(c)) else Success(s.(y := s.y + 1))
    case "S" => if s.y == 0 then Failure(OutOfBounds(c)) else Success(s.(y := s.y - 1))
    case "E" => if s.x == 10 then Failure(OutOfBounds(c)) else Success(s.(x := s.x + 1))
    case "W" => if s.x == 0 then Failure(OutOfBounds(c)) else Success(s.(x := s.x - 1))
    case _ => Failure(InvalidCommand(c))
  }

  /** The state after `move(c)`: the new state on success, the old one on failure. */
  function StateAfterMove(s: RobotState, c: string): RobotState
  {
    match Step(s, c)
    case Success(t) => t
    case Failure(_) => s
  }

  /**
   * Whatever the command, `move` keeps the crate flag and keeps an on-grid
   * robot on the grid; a refused command leaves the state as it was.
   */
  lemma MoveKeepsInvariant(s: RobotState, c: string)
    ensures StateAfterMove(s, c).hasCrate == s.hasCrate
    ensures OnGrid(s) ==> OnGrid(StateAfterMove(s, c))
    ensures Step(s, c).Failure? ==> StateAfterMove(s, c) == s
  {
  }

  /** The robot state after the scheduler has run `cmds`, failed ones skipped. */
  function Exec(s: RobotState, cmds: seq<string>): RobotState
    decreases |cmds|
  {
    if cmds == [] then s else Exec(StateAfterMove(s, cmds[0]), cmds[1..])
  }

  /** Every command of `cmds`, run in order from `s`, is accepted by `move`. */
  predicate AllAccepted(s: RobotState, cmds: seq<string>)
    decreases |cmds|
  {
    cmds == [] || (Step(s, cmds[0]).Success? && AllAccepted(Step(s, cmds[0]).value, cmds[1..]))
  }

  /** Running one more command extends the run by one `move`. */
  lemma {:induction false} ExecSnoc(s: RobotState, cmds: seq<string>, c: string)
    ensures Exec(s, cmds + [c]) == StateAfterMove(Exec(s, cmds), c)
    decreases |cmds|
  {
    if cmds == [] {
      assert [c][1..] == [];
    } else {
      assert (cmds + [c])[1..] == cmds[1..] + [c];
      ExecSnoc(StateAfterMove(s, cmds[0]), cmds[1..], c);
    }
  }

  /** An on-grid robot stays on the grid through any run of commands. */
  lemma {:induction false} ExecStaysOnGrid(s: RobotState, cmds: seq<string>)
    requires OnGrid(s)
    ensures OnGrid(Exec(s, cmds)) && Exec(s, cmds).hasCrate == s.hasCrate
    decreases |cmds|
  {
    if cmds != [] {
      MoveKeepsInvariant(s, cmds[0]);
      ExecStaysOnGrid(StateAfterMove(s, cmds[0]), cmds[1..]);
    }
  }

  // ---------------------------------------------------------------------
  // The registry and the scheduler, on values
  // ---------------------------------------------------------------------

  /**
   * What a task's two channels observe: a state or an error delivered to a
   * waiting receiver, and the closing of both channels.
   */
  datatype Event =
    | StateSent(task: TaskId, state: RobotState)
    | ErrorSent(task: TaskId, error: MoveError)
    | Closed(task: TaskId)

  /** The fields of a MockRobot, with the channel traffic as a log. */
  datatype Scheduler = Scheduler(
    state: RobotState,
    taskList: map<TaskId, seq<string>>,
    taskOrder: seq<TaskId>,
    events: seq<Event>)

  predicate Distinct(ids: seq<TaskId>)
  {
    forall i, j :: 0 <= i < j < |ids| ==> ids[i] != ids[j]
  }

  /** The ids in the order are distinct and are exactly the registered ids. */
  ghost predicate RegistryValid(taskList: map<TaskId, seq<string>>, taskOrder: seq<TaskId>)
  {
    Distinct(taskOrder) && forall id :: id in taskList <==> id in taskOrder
  }

  ghost predicate Consistent(s: Scheduler)
  {
    RegistryValid(s.taskList, s.taskOrder) && OnGrid(s.state)
  }

  /** `NewMockRobot`. */
  function Initial(): (s: Scheduler)
    ensures Consistent(s)
    ensures s.state == RobotState(0, 0, false) && s.taskOrder == [] && s.events == []
  {
    Scheduler(RobotState(0, 0, false), map[], [], [])
  }

  /** `EnqueueTask` with the freshly generated id `id`. */
  function AfterEnqueue(s: Scheduler, id: TaskId, commands: string): Scheduler
  {
    s.(taskList := s.taskList[id := Text.Split(commands)], taskOrder := s.taskOrder + [id])
  }

  /** The order with the first occurrence of `id` spliced out (the loop of `cancelTask`). */
  function Without(order: seq<TaskId>, id: TaskId): seq<TaskId>
  {
    if order == [] then []
    else if order[0] == id then order[1..]
    else [order[0]] + Without(order[1..], id)
  }

  /** `cancelTask`, as the loop runs it when it receives `id`. */
  function AfterCancel(s: Scheduler, id: TaskId): Scheduler
  {
    if id !in s.taskList then s
    else s.(taskList := s.taskList - {id}, taskOrder := Without(s.taskOrder, id))
  }

  /**
   * `completeTask(id, err)`: best-effort sends (a send happens only when a
   * receiver is ready), then removal of the map entry and of the FIRST id of
   * the order, then both channels closed.
   */
  function AfterComplete(s: Scheduler, id: TaskId, err: Option<MoveError>, errReady: bool, stateReady: bool): Scheduler
    requires id in s.taskList ==> |s.taskOrder| > 0
  {
    if id !in s.taskList then s
    else
      var errSent := if err.Some? && errReady then [ErrorSent(id, err.value)] else [];
      var stateSent := if stateReady then [StateSent(id, s.state)] else [];
      s.(taskList := s.taskList - {id},
         taskOrder := s.taskOrder[1..],
         events := s.events + errSent + stateSent + [Closed(id)])
  }

  /**
   * `runNextCommand`: nothing on an empty queue; completion of a head task
   * with no commands left; otherwise pop the head's first command, then move.
   */
  function AfterRunNext(s: Scheduler, stateReady: bool): Scheduler
    requires RegistryValid(s.taskList, s.taskOrder)
  {
    if |s.taskOrder| == 0 then s
    else
      var id := s.taskOrder[0];
      var cmds := s.taskList[id];
      if |cmds| == 0 then AfterComplete(s, id, None, false, stateReady)
      else s.(taskList := s.taskList[id := cmds[1..]], state := StateAfterMove(s.state, cmds[0]))
  }

  /** One iteration of `Run`: a pending cancellation wins over execution. */
  function AfterTick(s: Scheduler, pendingCancel: Option<TaskId>, stateReady: bool): Scheduler
    requires RegistryValid(s.taskList, s.taskOrder)
  {
    match pendingCancel
    case Some(id) => AfterCancel(s, id)
    case None => AfterRunNext(s, stateReady)
  }

  // ---------------------------------------------------------------------
  // Lemmas about the registry
  // ---------------------------------------------------------------------

  /** Splicing out `id` keeps the order distinct and removes exactly `id`. */
  lemma {:induction false} WithoutMembers(order: seq<TaskId>, id: TaskId)
    requires Distinct(order)
    ensures Distinct(Without(order, id))
    ensures forall x :: x in Without(order, id) <==> x in order && x != id
  {
    if order != [] {
      WithoutMembers(order[1..], id);
      if order[0] != id {
        var w := Without(order[1..], id);
        assert Without(order, id) == [order[0]] + w;
        assert order[0] !in order[1..];
        forall i, j | 0 <= i < j < |[order[0]] + w| ensures ([order[0]] + w)[i] != ([order[0]] + w)[j] {
          if i == 0 {
            assert ([order[0]] + w)[j] == w[j - 1];
          }
        }
      } else {
        assert order[0] !in order[1..];
      }
    }
  }

  /** Splicing out `id` is `order[..i] + order[i+1..]` for its first position `i`. */
  lemma {:induction false} WithoutAt(order: seq<TaskId>, id: TaskId, i: nat)
    requires i < |order| && order[i] == id && id !in order[..i]
    ensures Without(order, id) == order[..i] + order[i + 1..]
  {
    if i > 0 {
      assert order[0] in order[..i];
      assert order[1..][..i - 1] == order[1..i];
      WithoutAt(order[1..], id, i - 1);
      assert order[..i] == [order[0]] + order[1..i];
    }
  }

  /** An id that does not occur is not spliced out of anything. */
  lemma {:induction false} WithoutAbsent(order: seq<TaskId>, id: TaskId)
    requires id !in order
    ensures Without(order, id) == order
  {
    if order != [] {
      WithoutAbsent(order[1..], id);
    }
  }

  /** Removing the first id of a consistent registry keeps it consistent. */
  lemma RemoveHeadKeepsRegistry(taskList: map<TaskId, seq<string>>, order: seq<TaskId>)
    requires RegistryValid(taskList, order) && |order| > 0
    ensures RegistryValid(taskList - {order[0]}, order[1..])
  {
  }

  /** `EnqueueTask` with a fresh id appends that id and keeps the registry consistent. */
  lemma EnqueueKeepsRegistry(s: Scheduler, id: TaskId, commands: string)
    requires Consistent(s) && id !in s.taskList
    ensures Consistent(AfterEnqueue(s, id, commands))
    ensures AfterEnqueue(s, id, commands).taskOrder[..|s.taskOrder|] == s.taskOrder
    ensures forall other :: other in s.taskList ==> AfterEnqueue(s, id, commands).taskList[other] == s.taskList[other]
  {
  }

  /**
   * `cancelTask` on an unknown id changes nothing; on a registered id it
   * removes that id from the map and its occurrence from the order (the
   * others keep their relative order), and changes nothing else: no
   * notification is sent and the channels are not closed.
   */
  lemma CancelSpec(s: Scheduler, id: TaskId)
    requires Consistent(s)
    ensures Consistent(AfterCancel(s, id))
    ensures id !in s.taskList ==> AfterCancel(s, id) == s
    ensures id in s.taskList ==>
      var t := AfterCancel(s, id);
      && t.taskList == s.taskList - {id}
      && id !in t.taskOrder
      && (exists i :: 0 <= i < |s.taskOrder| && s.taskOrder[i] == id && t.taskOrder == s.taskOrder[..i] + s.taskOrder[i + 1..])
      && t.state == s.state && t.events == s.events
  {
    if id in s.taskList {
      var t := AfterCancel(s, id);
      WithoutMembers(s.taskOrder, id);
      var i :| 0 <= i < |s.taskOrder| && s.taskOrder[i] == id;
      assert id !in s.taskOrder[..i] by {
        forall k | 0 <= k < i ensures s.taskOrder[..i][k] != id {
          assert s.taskOrder[k] != s.taskOrder[i];
        }
      }
      WithoutAt(s.taskOrder, id, i);
      forall x ensures x in t.taskList <==> x in t.taskOrder {
      }
    }
  }

  /**
   * Cancelling a task before any of its commands has run undoes its
   * enqueueing exactly: registry, order, state and channel log are all as
   * before, so a second cancellation of the id finds nothing.
   */
  lemma EnqueueThenCancel(s: Scheduler, id: TaskId, commands: string)
    requires Consistent(s) && id !in s.taskList
    ensures AfterCancel(AfterEnqueue(s, id, commands), id) == s
    ensures id !in AfterCancel(AfterEnqueue(s, id, commands), id).taskList
  {
    var t := AfterEnqueue(s, id, commands);
    assert t.taskOrder[..|s.taskOrder|] == s.taskOrder;
    WithoutAt(t.taskOrder, id, |s.taskOrder|);
    assert t.taskOrder[|s.taskOrder| + 1..] == [];
    assert t.taskList - {id} == s.taskList;
  }

  /**
   * `runNextCommand` touches only the head task: on an empty queue it does
   * nothing; a head with no commands left is removed from the map and the
   * front of the order and its channels are closed; otherwise the head loses
   * exactly its first command, whether or not `move` accepts it, and only the
   * robot state may change besides.
   */
  lemma RunNextSpec(s: Scheduler, stateReady: bool)
    requires Consistent(s)
    ensures Consistent(AfterRunNext(s, stateReady))
    ensures |s.taskOrder| == 0 ==> AfterRunNext(s, stateReady) == s
    ensures |s.taskOrder| > 0 && |s.taskList[s.taskOrder[0]]| == 0 ==>
      var id, t := s.taskOrder[0], AfterRunNext(s, stateReady);
      && t.taskList == s.taskList - {id}
      && t.taskOrder == s.taskOrder[1..]
      && t.state == s.state
      && t.events == s.events + (if stateReady then [StateSent(id, s.state)] else []) + [Closed(id)]
    ensures |s.taskOrder| > 0 && |s.taskList[s.taskOrder[0]]| > 0 ==>
      var id, t := s.taskOrder[0], AfterRunNext(s, stateReady);
      var cmds := s.taskList[id];
      && t.taskList == s.taskList[id := cmds[1..]]
      && t.taskOrder == s.taskOrder
      && t.state == StateAfterMove(s.state, cmds[0])
      && t.events == s.events
  {
  }

  /** Every tick, whether it cancels or executes, keeps the scheduler consistent. */
  lemma TickKeepsConsistent(s: Scheduler, pendingCancel: Option<TaskId>, stateReady: bool)
    requires Consistent(s)
    ensures Consistent(AfterTick(s, pendingCancel, stateReady))
  {
    match pendingCancel
    case Some(id) => CancelSpec(s, id);
    case None => RunNextSpec(s, stateReady);
  }

  // ---------------------------------------------------------------------
  // Draining the head task: FIFO and single flight
  // ---------------------------------------------------------------------

  /** `n` ticks of `Run` during which no cancellation is pending. */
  function RunTicks(s: Scheduler, n: nat, stateReady: bool): Scheduler
    requires Consistent(s)
    decreases n
  {
    if n == 0 then s
    else
      RunNextSpec(s, stateReady);
      RunTicks(AfterRunNext(s, stateReady), n - 1, stateReady)
  }

  /**
   * While the head task still has commands, k ticks pop exactly its first k
   * commands and run them; no other task is touched and the order is fixed.
   */
  lemma {:induction false} RunTicksPrefix(s: Scheduler, k: nat, stateReady: bool)
    requires Consistent(s) && |s.taskOrder| > 0
    requires k <= |s.taskList[s.taskOrder[0]]|
    ensures var id, cmds, t := s.taskOrder[0], s.taskList[s.taskOrder[0]], RunTicks(s, k, stateReady);
      && t.taskOrder == s.taskOrder
      && t.taskList == s.taskList[id := cmds[k..]]
      && t.state == Exec(s.state, cmds[..k])
      && t.events == s.events
  {
    var id, cmds := s.taskOrder[0], s.taskList[s.taskOrder[0]];
    if k == 0 {
      assert s.taskList[id := cmds[0..]] == s.taskList;
    } else {
      RunTicksPrefix(s, k - 1, stateReady);
      var u := RunTicks(s, k - 1, stateReady);
      RunTicksAppend(s, k - 1, stateReady);
      RunNextSpec(u, stateReady);
      assert u.taskList[id] == cmds[k - 1..];
      assert cmds[k - 1..][1..] == cmds[k..];
      assert cmds[..k] == cmds[..k - 1] + [cmds[k - 1]];
      ExecSnoc(s.state, cmds[..k - 1], cmds[k - 1]);
    }
  }

  /** One more tick after `n` ticks is `n + 1` ticks. */
  lemma {:induction false} RunTicksAppend(s: Scheduler, n: nat, stateReady: bool)
    requires Consistent(s)
    ensures Consistent(RunTicks(s, n, stateReady))
    ensures RunTicks(s, n + 1, stateReady) == AfterRunNext(RunTicks(s, n, stateReady), stateReady)
    decreases n
  {
    RunNextSpec(s, stateReady);
    if n > 0 {
      RunTicksAppend(AfterRunNext(s, stateReady), n - 1, stateReady);
    }
  }

  /**
   * A head task with m commands is finished after m + 1 ticks: the robot is
   * where running its commands in order puts it, the task is gone from the
   * map and the front of the order, its channels are closed (after the final
   * state, if a receiver was ready), and every other task is as it was.
   */
  lemma DrainHead(s: Scheduler, stateReady: bool)
    requires Consistent(s) && |s.taskOrder| > 0
    ensures var id, cmds := s.taskOrder[0], s.taskList[s.taskOrder[0]];
      var t := RunTicks(s, |cmds| + 1, stateReady);
      && t.state == Exec(s.state, cmds)
      && t.taskOrder == s.taskOrder[1..]
      && t.taskList == s.taskList - {id}
      && t.events == s.events + (if stateReady then [StateSent(id, t.state)] else []) + [Closed(id)]
  {
    var id, cmds := s.taskOrder[0], s.taskList[s.taskOrder[0]];
    RunTicksPrefix(s, |cmds|, stateReady);
    RunTicksAppend(s, |cmds|, stateReady);
    var u := RunTicks(s, |cmds|, stateReady);
    assert cmds[..|cmds|] == cmds;
    assert u.taskList[id] == [];
    RunNextSpec(u, stateReady);
    assert u.taskList[id := []] - {id} == s.taskList - {id};
  }

  // ---------------------------------------------------------------------
  // The robot object, updated in place
  // ---------------------------------------------------------------------

  /** `MockRobot`; `events` records what the tasks' channels observe. */
  class MockRobot {
    var state: RobotState
    var taskList: map<TaskId, seq<string>>
    var taskOrder: seq<TaskId>
    var events: seq<Event>

    ghost function Snapshot(): Scheduler
      reads this
    {
      Scheduler(state, taskList, taskOrder, events)
    }

    ghost predicate Valid()
      reads this
    {
      Consistent(Snapshot())
    }

    /** `NewMockRobot`. */
    constructor ()
      ensures Snapshot() == Initial() && Valid()
    {
      state := RobotState(0, 0, false);
      taskList := map[];
      taskOrder := [];
      events := [];
    }

    /** `CurrentState`. */
    function CurrentState(): (s: RobotState)
      reads this
      ensures s == Snapshot().state
      ensures Valid() ==> OnGrid(s)
    {
      state
    }

    /** `EnqueueTask`; the generated uuid is the parameter `id`. */
    method EnqueueTask(commands: string, id: TaskId) returns (taskId: TaskId)
      requires id !in taskList
      modifies this
      ensures taskId == id
      ensures Snapshot() == AfterEnqueue(old(Snapshot()), id, commands)
      ensures taskOrder == old(taskOrder) + [id] && taskList[id] == Text.Split(commands)
      ensures old(Valid()) ==> Valid()
    {
      var commandSplit := Text.Split(commands);
      taskList := taskList[id := commandSplit];
      taskOrder := taskOrder + [id];
      taskId := id;
      if old(Valid()) {
        EnqueueKeepsRegistry(old(Snapshot()), id, commands);
      }
    }

    /**
     * `CancelTask` up to the hand-off: an error exactly when the id is not
     * registered; a `None` result means the id is passed to the loop as the
     * pending cancellation of a later tick.
     */
    method CancelTask(id: TaskId) returns (err: Option<CancelError>)
      ensures err.None? <==> id in taskList
      ensures err.Some? ==> err.value == TaskNotFound(id)
    {
      if id !in taskList {
        return Some(TaskNotFound(id));
      }
      return None;
    }

    /** `cancelTask`, the loop's handling of a received cancellation. */
    method ServiceCancel(id: TaskId)
      modifies this
      ensures Snapshot() == AfterCancel(old(Snapshot()), id)
      ensures old(Valid()) ==> Valid()
    {
      if id !in taskList {
        return;
      }
      taskList := taskList - {id};
      var i := 0;
      while i < |taskOrder|
        invariant 0 <= i <= |taskOrder|
        invariant id !in taskOrder[..i]
        invariant taskOrder == old(taskOrder)
        decreases |taskOrder| - i
      {
        if taskOrder[i] == id {
          WithoutAt(taskOrder, id, i);
          taskOrder := taskOrder[..i] + taskOrder[i + 1..];
          break;
        }
        assert taskOrder[..i + 1] == taskOrder[..i] + [taskOrder[i]];
        i := i + 1;
      }
      if taskOrder == old(taskOrder) {
        assert taskOrder[..|taskOrder|] == taskOrder;
        WithoutAbsent(taskOrder, id);
      }
      if old(Valid()) {
        CancelSpec(old(Snapshot()), id);
      }
    }

    /** `completeTask`; `errReady`/`stateReady` say whether a receiver is waiting. */
    method CompleteTask(id: TaskId, err: Option<MoveError>, errReady: bool, stateReady: bool)
      requires id in taskList ==> |taskOrder| > 0
      modifies this
      ensures Snapshot() == AfterComplete(old(Snapshot()), id, err, errReady, stateReady)
    {
      if id !in taskList {
        return;
      }
      if err.Some? && errReady {
        events := events + [ErrorSent(id, err.value)];
      }
      if stateReady {
        events := events + [StateSent(id, state)];
      }
      taskList := taskList - {id};
      taskOrder := taskOrder[1..];
      events := events + [Closed(id)];
    }

    /** `runNextCommand`; a refused command is only logged, after it was popped. */
    method RunNextCommand(stateReady: bool)
      requires Valid()
      modifies this
      ensures Snapshot() == AfterRunNext(old(Snapshot()), stateReady)
      ensures Valid()
    {
      RunNextSpec(Snapshot(), stateReady);
      if |taskOrder| == 0 {
        return;
      }
      var id := taskOrder[0];
      var commands := taskList[id];
      if |commands| == 0 {
        CompleteTask(id, None, false, stateReady);
        return;
      }
      var c := commands[0];
      taskList := taskList[id := commands[1..]];
      var err := Move(c);
      if err.Some? {
        return;
      }
    }

    /** `move`: the state changes exactly as `Step` says, and only on success. */
    method Move(c: string) returns (err: Option<MoveError>)
      modifies this`state
      ensures Step(old(state), c).Success? ==> err == None && state == Step(old(state), c).value
      ensures Step(old(state), c).Failure? ==> err == Some(Step(old(state), c).error) && state == old(state)
    {
      match c {
        case "N" =>
          if state.y == 10 { return Some(OutOfBounds(c)); }
          state := state.(y := state.y + 1);
        case "S" =>
          if state.y == 0 { return Some(OutOfBounds(c)); }
          state := state.(y := state.y - 1);
        case "E" =>
          if state.x == 10 { return Some(OutOfBounds(c)); }
          state := state.(x := state.x + 1);
        case "W" =>
          if state.x == 0 { return Some(OutOfBounds(c)); }
          state := state.(x := state.x - 1);
        case _ =>
          return Some(InvalidCommand(c));
      }
      return None;
    }

    /** One iteration of `Run`, with the cancellation it may have received. */
    method Tick(pendingCancel: Option<TaskId>, stateReady: bool)
      requires Valid()
      modifies this
      ensures Snapshot() == AfterTick(old(Snapshot()), pendingCancel, stateReady)
      ensures Valid()
    {
      match pendingCancel {
        case Some(id) => ServiceCancel(id);
        case None => RunNextCommand(stateReady);
      }
    }
  }
}
