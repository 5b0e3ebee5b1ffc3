# House construction: a verified model

A crew builds a house part by part. The house has a basement, walls, a door,
four windows and a roof. Each part is a flag that goes from unbuilt to built
and never back. A worker's turn builds the highest-priority missing part:
basement, then walls, then door, then the lowest-index unbuilt window, then
roof. The team leader's turn is a status report that changes nothing. The
team's loop runs until the house is built. On each turn a die roll gives the
turn either to the leader or to the next worker in round-robin order.

The model is functional. The modules follow the classes of `Program.cs`:

- `Parts` (parts.dfy) covers the five part classes. They have identical
  `Build`/`IsBuilt` bodies, so one `Part` datatype models all of them.
- `Houses` (houses.dfy) covers the house. Its constructor, `IsBuilt`,
  building a named part, and the "priority order" invariant are here. The
  house is also viewed as its eight flags in build order (`Flags`). The
  view gives every contract one vocabulary: "this flag was set and no other
  changed" is `Flags(after) == Flags(before)[k := true]`.
- `Worker` (worker.dfy) covers `Worker.Work`. It is written as the source's
  if-chain and checked against an independent reference definition: the
  first unset entry of `Flags` (`FlagSeqs.FirstUnset`).
- `TeamLeader` (teamleader.dfy) covers the leader's report, as a value.
- `Team` (team.dfy) covers the `BuildHouse` loop. `Step` is one turn and
  `Run` is the loop as a recursive function. `BuildHouse` is the loop as a
  method, and it is proved equal to `Run`. The random roll is an oracle: a
  sequence of `LeaderTurn`/`WorkerTurn` values. So every result holds for
  every possible sequence of rolls.
- `FlagSeqs` (flagseqs.dfy) holds sequence facts: counting, the first unset
  flag, prefix-shaped flag sequences. `Wrappers` (wrappers.dfy) holds
  `Option`.

The house has eight flags: basement, walls, door, four windows and roof.

## Model

| member | source | states |
|---|---|---|
| Parts.Build | Program.cs:44-126 | Afterwards the part is built. It announces "now building" exactly when the part was unbuilt. A built part is returned unchanged. |
| Parts.BuildIdempotent | Program.cs:47-58 | Building twice has the effect of building once. The second call only announces "already built". |
| Houses.NewHouse | Program.cs:22-33 | A new house has exactly four windows and all eight flags unset, so it is not built. |
| Houses.IsBuiltIffAllFlags | Program.cs:34-37 | `IsBuilt` holds exactly when all eight flags are set, which is when no unbuilt part remains in build order. |
| Houses.Remaining | Program.cs:34-37 | The number of unbuilt parts is at most eight. It is zero exactly when the house is built. |
| Houses.BuildPart | Program.cs:136-161 | Building the named part sets that part's flag and leaves the other seven as they were. It announces "now building" exactly when the flag was unset. |
| Houses.PriorityOrderIffPrefixed | Program.cs:136-161 | The four ordering facts (walls need basement, door needs walls, window i needs door and windows below i, roof needs all windows) hold exactly when the built parts form a prefix of the build order. |
| Worker.NextPart | Program.cs:134-166 | The part chosen by the if-chain is the first unbuilt part in build order. Nothing is chosen exactly when the house is complete. |
| Worker.Work | Program.cs:134-167 | On an incomplete house, the worker sets exactly the first unset flag in build order and no other flag. On a complete house, nothing changes and the worker reports that the house is done. |
| Worker.WorkBuildsOnePart | Program.cs:134-166 | A worker's turn on an incomplete house lowers the number of unbuilt parts by exactly one. On a complete house it returns the same house. |
| Worker.WorkIsMonotone | Program.cs:134-167 | A worker's turn never unsets a flag. |
| Worker.WorkPreservesPriorityOrder | Program.cs:136-161 | A worker's turn keeps the built parts a priority prefix. |
| Worker.WorkOnOrderedHouse | Program.cs:136-161 | On a house in priority order, the part built is the one whose position equals the number of parts already built. |
| Worker.WorkAfterBasementBuildsWalls | Program.cs:136-143 | With only the basement built, the worker builds the walls. |
| Worker.WorkAfterFirstWindowBuildsSecond | Program.cs:148-157 | With basement, walls, door and window 0 built, the worker builds window 1. |
| TeamLeader.Work | Program.cs:176-184 | The report gives the basement, walls, door and roof status as they are. Its window count is the number of window indices whose window is built, so it is between 0 and 4, and 4 exactly when all windows are built. The report is all-built exactly when the house is built. |
| Team.Start | Program.cs:202-205 | The loop starts with all eight parts unbuilt, in priority order, and the worker index at 0. |
| Team.Step | Program.cs:209-217 | A leader turn changes neither the house nor the worker index. A worker turn advances the index by one modulo the crew size, keeping it in range. On an incomplete house a worker turn sets exactly the first unset flag in build order and no other flag, so one part fewer remains. On a complete house the house stays as it is. |
| Team.Run | Program.cs:207-218 | The loop stops only when the house is built or the oracle has no turns left. The worker index stays below the crew size. The loop takes at most as many turns as the oracle holds. |
| Team.RunCountsWorkerTurns | Program.cs:207-218 | A run takes the smaller of the oracle's worker-turn count and the number of unbuilt parts. Each worker turn builds one part. A run that completes the house ends on a worker turn. |
| Team.RunRotatesWorkers | Program.cs:205-216 | The worker index advances only on worker turns. After the run it is the start index plus the number of worker turns taken, modulo the crew size. |
| Team.RunPreservesPriorityOrder | Program.cs:207-218 | If the built parts start as a priority prefix, they are still one when the loop stops. |
| Team.EightWorkerTurnsBuildTheHouse | Program.cs:200-222 | From a fresh house the loop completes the house exactly when the oracle has at least eight worker turns, however many leader turns come between them. It stops on the eighth worker turn. With fewer worker turns the oracle is used up, and eight minus that many parts remain. |
| Team.FreshRunOrderAndRotation | Program.cs:202-218 | From a fresh house, the built parts stay a priority prefix. The final worker index is the number of worker turns taken, modulo the crew size. |
| Team.BuildHouse | Program.cs:200-222 | The imperative loop gives the same final house, worker index and turn count as `Run`. It returns one leader report per leader turn. It ends with a built house whenever the oracle holds eight worker turns. |

## Left out

- Console output is not modelled. This covers every `Console.WriteLine` message and the worker's and leader's names in them. A build's announcement is kept only as the `BuildEvent` value. A worker's "house already built" message is kept only as `AlreadyComplete`. The leader's report is kept only as a `Report` value.
- `House.Print`, `Program.Main` and `Console.ReadKey` are output and entry point only.
- `System.Random` and the 1-in-3 chance of a leader turn are not modelled. The roll is an arbitrary sequence of turns, and no probability is modelled.
- The `Team` constructor is not modelled. Worker names and the leader name carry no state, so the crew is modelled by its size alone.
- Team.Run: the source's loop draws from an endless random source. Here the oracle is finite, so the loop also stops when the oracle runs out. The house is proved complete whenever the oracle holds at least eight worker turns.
- Team.Step: an empty worker list is excluded by the precondition `0 < crew`. The source would fail on `Workers[0]` in that case; that failure is not modelled.
- LINQ `All` and `Count` are written as a quantifier (`AllWindowsBuilt`) and a recursive count (`FlagSeqs.Count`).
