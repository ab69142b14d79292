/**
 * The command gating of pkg/api/api.go: `enqueuTask` refuses an empty command
 * string and, when asked to validate, dry-runs the command from the robot's
 * current position with `simulateMove`/`withinBounds` before handing it to
 * the robot. The lemmas at the end tie the dry run to the robot's own `move`.
 */
module Api {
  import opened Wrappers
  import Text
  import Robot

  /** Why a dry run rejects a command string. */
  datatype ValidationError = InvalidDirection(direction: string) | OutOfBoundsAt(x: int, y: int)

  /** Why `enqueuTask` refuses a request. */
  datatype EnqueueError = CommandsRequired | ValidationFailed(cause: ValidationError)

  /** `withinBounds`: the robot's grid, checked on plain integers. */
  function WithinBounds(x: int, y: int): (r: bool)
    ensures r <==> Robot.OnGrid(Robot.RobotState(x, y, false))
  {
    x >= 0 && x <= 10 && y >= 0 && y <= 10
  }

  /**
   * `simulateMove`: the position one step in `direction`, without any bounds
   * check; an unknown direction is an error and leaves the position as it was.
   */
  function SimulateMove(x: int, y: int, direction: string): (r: (int, int, Option<ValidationError>))
    ensures r.2.None? <==> Robot.IsDirection(direction)
    ensures r.2.Some? ==> r.0 == x && r.1 == y && r.2.value == InvalidDirection(direction)
    ensures r.2.None? ==>
      Robot.Distance(Robot.RobotState(x, y, false), Robot.RobotState(r.0, r.1, false)) == 1
    ensures direction == "N" ==> r == (x, y + 1, None)
    ensures direction == "S" ==> r == (x, y - 1, None)
    ensures direction == "E" ==> r == (x + 1, y, None)
    ensures direction == "W" ==> r == (x - 1, y, None)
  {
    match direction
    case "N" => (x, y + 1, None)
    case "S" => (x, y - 1, None)
    case "E" => (x + 1, y, None)
    case "W" => (x - 1, y, None)
    case _ => (x, y, Some(InvalidDirection(direction)))
  }

  /** What `isValidCommand` reports for `tokens` dry-run from (x, y): the first failure, if any. */
  function Validate(x: int, y: int, tokens: seq<string>): Option<ValidationError>
    decreases |tokens|
  {
    if tokens == [] then None
    else
      var (nx, ny, err) := SimulateMove(x, y, tokens[0]);
      if err.Some? then err
      else if !WithinBounds(nx, ny) then Some(OutOfBoundsAt(nx, ny))
      else Validate(nx, ny, tokens[1..])
  }

  /** Where the dry run of `tokens` from (x, y) ends, failures ignored. */
  function Walk(x: int, y: int, tokens: seq<string>): (int, int)
    decreases |tokens|
  {
    if tokens == [] then (x, y)
    else
      var (nx, ny, _) := SimulateMove(x, y, tokens[0]);
      Walk(nx, ny, tokens[1..])
  }

  /** The i-th token is a direction and the walk is on the grid right after it. */
  predicate StepOk(x: int, y: int, tokens: seq<string>, i: nat)
    requires i < |tokens|
  {
    var (wx, wy) := Walk(x, y, tokens[..i + 1]);
    Robot.IsDirection(tokens[i]) && WithinBounds(wx, wy)
  }

  /** Step i is the first that goes wrong: it fails, every earlier one is fine. */
  predicate FirstBadStep(x: int, y: int, tokens: seq<string>, i: nat)
    requires i < |tokens|
  {
    !StepOk(x, y, tokens, i) && forall j: nat :: j < i ==> StepOk(x, y, tokens, j)
  }

  /** The error for step i gone wrong: the unknown token, or where the walk left the grid. */
  function FailureAt(x: int, y: int, tokens: seq<string>, i: nat): ValidationError
    requires i < |tokens|
  {
    if !Robot.IsDirection(tokens[i]) then InvalidDirection(tokens[i])
    else OutOfBoundsAt(Walk(x, y, tokens[..i + 1]).0, Walk(x, y, tokens[..i + 1]).1)
  }

  /** Every token is a direction and every position the walk passes through is on the grid. */
  ghost predicate Feasible(x: int, y: int, tokens: seq<string>)
  {
    forall i: nat :: i < |tokens| ==> StepOk(x, y, tokens, i)
  }

  /** After a first step to (nx, ny), the later steps are judged from (nx, ny). */
  lemma StepOkShift(x: int, y: int, tokens: seq<string>, i: nat)
    requires 0 < i < |tokens|
    ensures var (nx, ny, _) := SimulateMove(x, y, tokens[0]);
      StepOk(x, y, tokens, i) == StepOk(nx, ny, tokens[1..], i - 1)
  {
    assert tokens[..i + 1][1..] == tokens[1..][..i];
  }

  /** The dry run succeeds exactly when the walk is feasible. */
  lemma {:induction false} ValidateIff(x: int, y: int, tokens: seq<string>)
    ensures Validate(x, y, tokens).None? <==> Feasible(x, y, tokens)
    decreases |tokens|
  {
    if tokens != [] {
      var (nx, ny, err) := SimulateMove(x, y, tokens[0]);
      assert StepOk(x, y, tokens, 0) <==> err.None? && WithinBounds(nx, ny) by {
        assert tokens[..1][1..] == [];
        assert Walk(x, y, tokens[..1]) == Walk(nx, ny, []);
      }
      if err.None? && WithinBounds(nx, ny) {
        ValidateIff(nx, ny, tokens[1..]);
        if Feasible(nx, ny, tokens[1..]) {
          forall i: nat | i < |tokens| ensures StepOk(x, y, tokens, i) {
            if i > 0 {
              StepOkShift(x, y, tokens, i);
            }
          }
        } else {
          var j: nat :| j < |tokens[1..]| && !StepOk(nx, ny, tokens[1..], j);
          StepOkShift(x, y, tokens, j + 1);
        }
      }
    }
  }

  /**
   * A failing dry run fails at a first bad step: some token is unknown or
   * leaves the grid, and every token before it was a direction that kept the
   * walk on the grid.
   */
  lemma {:induction false} ValidateFailsAtFirstBadStep(x: int, y: int, tokens: seq<string>)
    requires Validate(x, y, tokens).Some?
    ensures exists i: nat :: i < |tokens| && FirstBadStep(x, y, tokens, i)
    decreases |tokens|
  {
    var (nx, ny, err) := SimulateMove(x, y, tokens[0]);
    assert StepOk(x, y, tokens, 0) <==> err.None? && WithinBounds(nx, ny) by {
      assert tokens[..1][1..] == [];
      assert Walk(x, y, tokens[..1]) == Walk(nx, ny, []);
    }
    if err.None? && WithinBounds(nx, ny) {
      ValidateFailsAtFirstBadStep(nx, ny, tokens[1..]);
      var i: nat :| i < |tokens[1..]| && FirstBadStep(nx, ny, tokens[1..], i);
      StepOkShift(x, y, tokens, i + 1);
      forall j: nat | j < i + 1 ensures StepOk(x, y, tokens, j) {
        if j > 0 {
          StepOkShift(x, y, tokens, j);
        }
      }
      assert FirstBadStep(x, y, tokens, i + 1);
    } else {
      assert FirstBadStep(x, y, tokens, 0);
    }
  }

  /**
   * The error a dry run reports when step i is its first bad step: the unknown
   * token itself, or the position off the grid the walk reached at step i.
   */
  lemma {:induction false} ValidateReportsFirstBadStep(x: int, y: int, tokens: seq<string>, i: nat)
    requires i < |tokens| && FirstBadStep(x, y, tokens, i)
    ensures Validate(x, y, tokens) == Some(if !Robot.IsDirection(tokens[i]) then InvalidDirection(tokens[i])
                                           else OutOfBoundsAt(Walk(x, y, tokens[..i + 1]).0, Walk(x, y, tokens[..i + 1]).1))
    decreases |tokens|
  {
    var (nx, ny, err) := SimulateMove(x, y, tokens[0]);
    assert Walk(x, y, tokens[..1]) == (nx, ny) by {
      assert tokens[..1][1..] == [];
      assert Walk(x, y, tokens[..1]) == Walk(nx, ny, []);
    }
    if i > 0 {
      assert StepOk(x, y, tokens, 0);
      forall j: nat | j < i - 1 ensures StepOk(nx, ny, tokens[1..], j) {
        StepOkShift(x, y, tokens, j + 1);
      }
      StepOkShift(x, y, tokens, i);
      ValidateReportsFirstBadStep(nx, ny, tokens[1..], i - 1);
      assert tokens[..i + 1][1..] == tokens[1..][..i];
    }
  }

  /**
   * `isValidCommand`: dry-runs the space-split command from the robot's
   * current position and stops at the first unknown token or the first
   * position off the grid.
   */
  method IsValidCommand(command: string, robot: Robot.MockRobot) returns (err: Option<ValidationError>)
    ensures err == Validate(robot.state.x, robot.state.y, Text.Split(command))
    ensures err.None? <==> Feasible(robot.state.x, robot.state.y, Text.Split(command))
    ensures err.Some? ==>
      exists i: nat :: i < |Text.Split(command)| && FirstBadStep(robot.state.x, robot.state.y, Text.Split(command), i)
                       && err.value == FailureAt(robot.state.x, robot.state.y, Text.Split(command), i)
  {
    var state := robot.CurrentState();
    var x, y := state.x, state.y;
    var commandSplit := Text.Split(command);
    ValidateIff(x, y, commandSplit);
    if Validate(x, y, commandSplit).Some? {
      ValidateFailsAtFirstBadStep(x, y, commandSplit);
      var k: nat :| k < |commandSplit| && FirstBadStep(x, y, commandSplit, k);
      ValidateReportsFirstBadStep(x, y, commandSplit, k);
    }
    var i := 0;
    while i < |commandSplit|
      invariant 0 <= i <= |commandSplit|
      invariant Validate(state.x, state.y, commandSplit) == Validate(x, y, commandSplit[i..])
    {
      var c := commandSplit[i];
      assert commandSplit[i..][1..] == commandSplit[i + 1..];
      var (nx, ny, e) := SimulateMove(x, y, c);
      x, y := nx, ny;
      if e.Some? {
        return e;
      }
      if !WithinBounds(x, y) {
        return Some(OutOfBoundsAt(x, y));
      }
      i := i + 1;
    }
    return None;
  }

  /**
   * `enqueuTask`: an empty command string is refused; the dry run happens only
   * when `validate` is exactly "true" and a failed one refuses the request;
   * otherwise the command is enqueued once, under the id the robot generates
   * (the parameter `freshId`).
   */
  method EnqueueTask(robot: Robot.MockRobot, commands: string, validate: string, freshId: Robot.TaskId)
    returns (r: Result<Robot.TaskId, EnqueueError>)
    requires freshId !in robot.taskList
    modifies robot
    ensures commands == "" ==> r == Failure(CommandsRequired)
    ensures commands != "" && validate == "true" && Validate(old(robot.state.x), old(robot.state.y), Text.Split(commands)).Some? ==>
      r == Failure(ValidationFailed(Validate(old(robot.state.x), old(robot.state.y), Text.Split(commands)).value))
    ensures r.Success? <==>
      commands != "" && (validate == "true" ==> Validate(old(robot.state.x), old(robot.state.y), Text.Split(commands)).None?)
    ensures r.Failure? ==> robot.Snapshot() == old(robot.Snapshot())
    ensures r.Success? ==> r.value == freshId && robot.Snapshot() == Robot.AfterEnqueue(old(robot.Snapshot()), freshId, commands)
  {
    if commands == "" {
      return Failure(CommandsRequired);
    }
    if validate == "true" {
      var err := IsValidCommand(commands, robot);
      if err.Some? {
        return Failure(ValidationFailed(err.value));
      }
    }
    var taskId := robot.EnqueueTask(commands, freshId);
    return Success(taskId);
  }

  // ---------------------------------------------------------------------
  // The dry run against the robot's `move`
  // ---------------------------------------------------------------------

  /** From a position on the grid, one simulated step is accepted exactly when `move` accepts it, and lands in the same place. */
  lemma StepAgreesWithSimulation(s: Robot.RobotState, c: string)
    requires Robot.OnGrid(s)
    ensures var (x, y, err) := SimulateMove(s.x, s.y, c);
      && (Robot.Step(s, c).Success? <==> err.None? && WithinBounds(x, y))
      && (Robot.Step(s, c).Success? ==> Robot.Step(s, c).value == s.(x := x, y := y))
  {
  }

  /**
   * From a position on the grid, the dry run of `tokens` succeeds exactly when
   * `move` accepts every token in turn, and then the robot ends where the
   * dry run ended, with the crate flag unchanged.
   */
  lemma {:induction false} ValidateAgreesWithMove(s: Robot.RobotState, tokens: seq<string>)
    requires Robot.OnGrid(s)
    ensures Validate(s.x, s.y, tokens).None? <==> Robot.AllAccepted(s, tokens)
    ensures Validate(s.x, s.y, tokens).None? ==>
      Robot.Exec(s, tokens) == Robot.RobotState(Walk(s.x, s.y, tokens).0, Walk(s.x, s.y, tokens).1, s.hasCrate)
    decreases |tokens|
  {
    if tokens != [] {
      StepAgreesWithSimulation(s, tokens[0]);
      if Robot.Step(s, tokens[0]).Success? {
        ValidateAgreesWithMove(Robot.Step(s, tokens[0]).value, tokens[1..]);
      }
    }
  }

  /**
   * A command accepted by the dry run while the robot is idle runs to the end
   * without a refused move: after one tick per command plus the completing
   * tick, the robot stands where the dry run ended and the task is gone.
   */
  lemma ValidatedTaskDrains(s: Robot.Scheduler, id: Robot.TaskId, commands: string, stateReady: bool)
    requires Robot.Consistent(s) && s.taskOrder == [] && id !in s.taskList
    requires Validate(s.state.x, s.state.y, Text.Split(commands)).None?
    ensures var t := Robot.AfterEnqueue(s, id, commands);
      Robot.Consistent(t) &&
      var u := Robot.RunTicks(t, |Text.Split(commands)| + 1, stateReady);
      && Robot.AllAccepted(s.state, Text.Split(commands))
      && u.state.x == Walk(s.state.x, s.state.y, Text.Split(commands)).0
      && u.state.y == Walk(s.state.x, s.state.y, Text.Split(commands)).1
      && u.taskOrder == [] && u.taskList == s.taskList
  {
    var t := Robot.AfterEnqueue(s, id, commands);
    Robot.EnqueueKeepsRegistry(s, id, commands);
    assert t.taskOrder == [id];
    Robot.DrainHead(t, stateReady);
    ValidateAgreesWithMove(s.state, Text.Split(commands));
    assert t.taskList - {id} == s.taskList;
  }

  /**
   * The dry run starts from the position at request time, not from where the
   * robot will be once the tasks ahead have run: at (0, 1) with a queued "S",
   * a second "S" is accepted, and `move` refuses it when its turn comes.
   */
  lemma ValidationIgnoresQueuedTasks()
    ensures var s := Robot.Scheduler(Robot.RobotState(0, 1, false), map["a" := ["S"]], ["a"], []);
      && Robot.Consistent(s)
      && Validate(s.state.x, s.state.y, Text.Split("S")) == None
      && var t := Robot.AfterEnqueue(s, "b", "S");
      && Robot.Consistent(t)
      && Robot.RunTicks(t, 2, false).taskOrder == ["b"]
      && Robot.Step(Robot.RunTicks(t, 2, false).state, "S") == Failure(Robot.OutOfBounds("S"))
  {
  }

  /** "N N E E" from the origin is accepted and takes the robot to (2, 2). */
  lemma ExampleNorthNorthEastEast()
    ensures Text.Split("N N E E") == ["N", "N", "E", "E"]
    ensures Validate(0, 0, Text.Split("N N E E")) == None
    ensures Robot.Exec(Robot.RobotState(0, 0, false), Text.Split("N N E E")) == Robot.RobotState(2, 2, false)
  {
    Text.SplitJoin(["N", "N", "E", "E"]);
    assert Text.Join(["N", "N", "E", "E"]) == "N N E E";
  }

  /** Without spaces, "WWWWWWWWWWWWWW" is one token, refused as an unknown direction. */
  lemma ExampleSingleToken()
    ensures Text.Split("WWWWWWWWWWWWWW") == ["WWWWWWWWWWWWWW"]
    ensures Validate(0, 0, Text.Split("WWWWWWWWWWWWWW")) == Some(InvalidDirection("WWWWWWWWWWWWWW"))
  {
    Text.SplitWord("WWWWWWWWWWWWWW");
  }
}
