# Mock robot task scheduler, modelled in Dafny

This project models the core of a single-robot warehouse service. Two Go files make up the core:

- `pkg/robot/mock.go` holds the `MockRobot`. It has a position on an inclusive 0..10 grid and a task registry. The registry is a map from task id to the commands still to run (`taskList`) plus the FIFO order of ids (`taskOrder`). A `Run` loop either services a cancellation received on a channel, or advances the head task by one command.
- `pkg/api/api.go` holds the request gating. `enqueuTask` refuses an empty command string. When `validate` is `"true"`, it dry-runs the command from the robot's current position (`isValidCommand`, `simulateMove`, `withinBounds`) before enqueueing it.

Files:

- `wrappers.dfy`: `Option` and `Result`, for Go's `(value, error)` returns.
- `text.dfy`: Go's `strings.Split(s, " ")`, as `Text.Split`, with `Text.Join` as its inverse. Empty pieces are kept, so `"NESW"` is one token and `""` is `[""]`.
- `robot.dfy`: module `Robot`. It defines `move` as the pure function `Step` and the registry and scheduler as pure functions over a `Scheduler` snapshot (`AfterEnqueue`, `AfterCancel`, `AfterComplete`, `AfterRunNext`, `AfterTick`). The lemmas about the scheduler are proved on these functions. The class `MockRobot` has the Go struct's `state`, `taskList` and `taskOrder` fields and updates them in place, with one method per Go method. In place of `cancelChan` and each task's two channels it has the log `events` (see the channel lines under "## Left out"). Each method is proved to leave exactly the snapshot the matching function gives. `cancelTask`'s splice loop stays a `while` loop.
- `api.dfy`: module `Api`. It holds `SimulateMove`, `WithinBounds`, the loop `IsValidCommand` (proved against the recursive `Validate` and the quantified `Feasible`) and `EnqueueTask`. It also holds the lemmas that tie the dry run to the robot's `move`.

Channel traffic is a log, `events`, of `StateSent`, `ErrorSent` and `Closed` entries. A Go non-blocking send reaches a receiver only if one is waiting at that instant. The model turns that into a boolean parameter (`stateReady`, `errReady`) that says whether a receiver was ready.

The model follows the code as written:

- A refused `move` is only logged (mock.go:158-161). No error is sent. The command has already been popped (mock.go:157), so the task goes on with its next command on the next tick. The task is not retired, and it does not retry the command.
- A successful command sends no state notification. The only state send is the final one in `completeTask` (mock.go:113-117). `completeTask` is only ever called with a nil error (mock.go:152).
- `cancelTask` removes the task but does not close its channels (mock.go:125-138). api.go:123-124 warns that `streamState`'s goroutines leak if the channels are not closed.
- Tokens are split on single spaces. `"WWWWWWWWWWWWWW"` is one unknown token, not fourteen moves west.

## Model

| member | source | states |
|---|---|---|
| Text.Split | pkg/robot/mock.go:57 | `strings.Split(s, " ")` gives one more piece than there are spaces, and no piece contains a space |
| Text.JoinSplit | pkg/api/api.go:144 | joining the split pieces with single spaces gives back the original string |
| Text.SplitJoin | pkg/api/api.go:144 | splitting space-free pieces joined by spaces gives back the pieces |
| Robot.Step | pkg/robot/mock.go:169-195 | N adds 1 to Y unless Y is 10, S subtracts 1 from Y unless Y is 0, E adds 1 to X unless X is 10, W subtracts 1 from X unless X is 0; at the edge the step that would cross it is refused as out of bounds; an unknown token is refused as invalid and a refused direction as out of bounds; on the grid, a direction is refused exactly when it points off the grid; an accepted move changes the position by one unit, keeps `HasCrate` and keeps the robot on the grid |
| Robot.MoveKeepsInvariant | pkg/robot/mock.go:169-195 | whether or not `move` succeeds, `HasCrate` is unchanged and an on-grid robot stays on the grid; a refused move leaves the state unchanged |
| Robot.MockRobot.Move | pkg/robot/mock.go:169-195 | the in-place `move` changes only `state`, exactly as `Step` says on success, and returns that error and leaves the state alone on failure |
| Robot.ExecStaysOnGrid | pkg/robot/mock.go:156-161 | running any command list with failures skipped keeps an on-grid robot on the grid and keeps `HasCrate` |
| Robot.ExecSnoc | pkg/robot/mock.go:156-161 | running one more command extends the run by one `move` |
| Robot.Initial | pkg/robot/mock.go:42-53 | a new robot is at (0, 0) without a crate, with an empty, consistent registry and no channel traffic |
| Robot.MockRobot.constructor | pkg/robot/mock.go:42-53 | `NewMockRobot` yields the initial snapshot, which is valid |
| Robot.EnqueueKeepsRegistry | pkg/robot/mock.go:56-66 | enqueueing under a fresh id keeps the registry consistent, keeps the earlier order as a prefix and keeps every earlier task's commands |
| Robot.MockRobot.CurrentState | pkg/robot/mock.go:78-81 | returns the live robot state, reading and changing nothing else; on a valid robot that state is on the grid |
| Robot.MockRobot.EnqueueTask | pkg/robot/mock.go:56-66 | appends exactly the new id to `taskOrder`, maps it to the space-split commands, changes nothing else and keeps the object valid |
| Robot.MockRobot.CancelTask | pkg/robot/mock.go:70-76 | returns an error, `TaskNotFound(id)`, exactly when the id is not registered |
| Robot.WithoutMembers | pkg/robot/mock.go:131-136 | splicing an id out of a duplicate-free order keeps it duplicate-free and removes exactly that id |
| Robot.WithoutAt | pkg/robot/mock.go:131-136 | the splice at the first position `i` holding the id is `order[..i] + order[i+1..]`, so the other ids keep their relative order |
| Robot.WithoutAbsent | pkg/robot/mock.go:131-136 | an id that is not in the order leaves the order as it is |
| Robot.CancelSpec | pkg/robot/mock.go:125-138 | on an unknown id nothing changes; on a registered id that id leaves the map and its one occurrence leaves the order, the other ids keep their relative order, the robot state is unchanged and no channel is closed; the registry stays consistent |
| Robot.MockRobot.ServiceCancel | pkg/robot/mock.go:125-138 | the in-place `cancelTask`, including its search-and-splice loop, yields exactly the cancel snapshot and keeps the object valid |
| Robot.EnqueueThenCancel | pkg/robot/mock.go:56-138 | cancelling a task before any of its commands run restores the scheduler exactly, so a second cancellation of that id finds nothing |
| Robot.MockRobot.CompleteTask | pkg/robot/mock.go:100-122 | on an unknown id nothing changes; otherwise an error is sent only if there is one and a receiver is ready, the final state is sent only if a receiver is ready, the id leaves the map, the first id leaves the order, and both channels are closed |
| Robot.RemoveHeadKeepsRegistry | pkg/robot/mock.go:118-119 | removing the head id from both the map and the front of the order keeps the registry consistent |
| Robot.RunNextSpec | pkg/robot/mock.go:141-165 | only the head task is touched: an empty queue means no change; a head with no commands left leaves the map and the order front and is closed; otherwise the head loses exactly its first command whether or not `move` accepts it, and only the robot state may change besides; consistency is kept |
| Robot.MockRobot.RunNextCommand | pkg/robot/mock.go:141-165 | the in-place `runNextCommand` pops the command before moving and ignores a refused move; it yields exactly the snapshot `AfterRunNext` gives and keeps the object valid |
| Robot.TickKeepsConsistent | pkg/robot/mock.go:84-94 | every tick keeps the registry consistent and the robot on the grid, whether it services a cancellation or runs a command |
| Robot.MockRobot.Tick | pkg/robot/mock.go:84-94 | one `Run` iteration services a pending cancellation if there is one, and otherwise runs the next command |
| Robot.RunTicksPrefix | pkg/robot/mock.go:141-165 | while the head task has commands left, k ticks pop and run exactly its first k commands; no other task is touched and the order does not change (FIFO, one command in flight) |
| Robot.DrainHead | pkg/robot/mock.go:100-165 | a head task with m commands is gone after m + 1 ticks; the robot is where running its commands in order puts it; the channels are closed after the final state if a receiver was ready; every other task is as it was |
| Api.SimulateMove | pkg/api/api.go:157-172 | no error exactly for N, S, E or W, and then N goes to (x, y+1), S to (x, y-1), E to (x+1, y) and W to (x-1, y), one unit in each case; any other token is an `InvalidDirection` error with the position unchanged |
| Api.WithinBounds | pkg/api/api.go:177-179 | true exactly when (x, y) is on the robot's own 0..10 grid, the bounds `move` enforces |
| Api.ValidateIff | pkg/api/api.go:140-179 | the dry run succeeds exactly when every space-split token is a direction and every position the walk passes through is within the 0..10 bounds |
| Api.ValidateFailsAtFirstBadStep | pkg/api/api.go:145-153 | when the dry run fails, there is a token index at which the walk first goes wrong (an unknown token, or a position off the grid) and every earlier token was a direction with the walk still on the grid |
| Api.ValidateReportsFirstBadStep | pkg/api/api.go:145-153 | when token i is the first bad step, the dry run reports exactly that step's error: `InvalidDirection` of token i if it is not a direction, otherwise `OutOfBoundsAt` the position the walk reached at token i |
| Api.IsValidCommand | pkg/api/api.go:140-155 | the loop reports exactly the first failure of the dry run from the robot's current position: on failure some token is the first bad step, all earlier ones are fine, and the error returned is that step's (`InvalidDirection` of the unknown token, or `OutOfBoundsAt` the first position off the grid); it reports success exactly when the walk is feasible |
| Api.EnqueueTask | pkg/api/api.go:101-113 | an empty command string is refused without enqueueing; validation runs only when `validate` is exactly `"true"`, and a failed validation is refused without enqueueing; otherwise the command is enqueued exactly once under the fresh id and no error is returned |
| Api.StepAgreesWithSimulation | pkg/api/api.go:157-179 | from an on-grid position, one simulated step is error-free and within bounds exactly when `move` accepts it, and both land on the same position |
| Api.ValidateAgreesWithMove | pkg/api/api.go:140-155 | from an on-grid position, the dry run succeeds exactly when `move` accepts every token in turn, and then the robot ends where the dry run ended, with `HasCrate` unchanged |
| Api.ValidatedTaskDrains | pkg/api/api.go:101-113 | a command validated while the queue is empty runs to the end with no refused move and leaves the robot where the dry run ended |
| Api.ValidationIgnoresQueuedTasks | pkg/api/api.go:140-142 | the dry run starts from the position at request time: at (0, 1) with "S" queued, a second "S" passes validation and is then refused by `move` when its turn comes |
| Api.ExampleNorthNorthEastEast | pkg/api/api.go:144-146 | "N N E E" splits into four tokens, passes validation from the origin and takes the robot to (2, 2) without a crate |
| Api.ExampleSingleToken | pkg/api/api.go:144-146 | "WWWWWWWWWWWWWW" is a single token and is refused as an unknown direction |

## Left out

- The HTTP layer (handlers, router, JSON, server start and shutdown) and the `cancelCommand`/`currentState`/`getRobot` wrappers: transport, and one-line forwarding.
- Goroutines and channels:
  - The blocking hand-off of a cancellation on `cancelChan` is the `pendingCancel` argument of `Tick`.
  - The `select`/`default` in `Run` is the choice between that argument and running a command.
  - A non-blocking send is a readiness flag and an entry in `events`.
  - `streamState`, which only logs what it reads from the channels, is not part of this model.
- Concurrent access: `EnqueueTask` and `CurrentState` run on other goroutines while `Run` mutates the same map and state. The model is sequential.
- `Run` as an endless loop: the model has one iteration, `Tick`, and `RunTicks` for finitely many iterations with no cancellation pending.
- `time.Sleep`, `uuid.NewUUID` and all logging. The id is a parameter with a freshness precondition.
- Robot.MockRobot.EnqueueTask: requires a fresh id, which the source gets from `uuid.NewUUID`. Nothing is promised for an id that is already registered.
- The Go definition of `RobotState`, and so the width of its `X` and `Y` fields, is not among the modelled sources; the conversion at api.go:142 suggests unsigned fields. X and Y are unbounded integers, kept within 0..10 by the proved invariant, so no wrap-around arises.
- `MockWarehouse`: a wrapper that starts one robot.
