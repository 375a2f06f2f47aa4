# A verified model of the entity layer of a hierarchical manufacturing simulator

The simulator moves orders through a tree of cells. Manufacturing cells hold machines. Distribution cells hold child cells. Each cell has an input and an output buffer, which are interface buffers, and a storage buffer. Agents carry orders between buffers and machines. This project models the entities of that simulator and proves properties of them in Dafny:

- **Processing steps** (`processing_step.dfy`, module `ProcessingSteps`). The registry of steps, with the hidden "Order finished" dummy step. A class with the registry as a `seq` field.
- **Orders** (`order.dfy`, `Orders`). An order's schedule, remaining tasks and flags, as class `Order`. The ranking criteria an order reports to agents.
- **Buffers** (`buffer.dfy`, `Buffers`). Capacity-bounded storage with reservations (`expected_orders`), a queue of waiting arrivals, and agents waiting for a slot. The order's `order_arrival` and `order_finished`, which change a buffer, are methods of class `Buffer`.
- **Machines** (`machine.dfy`, `Machines`). Three slots (input, internal, output), and the setup, manufacturing and failure state. Each SimPy generator is split into atomic transitions at the waits where another process can act (waiting for an item, a slot, a repair, the processing time); the short fixed handling waits are folded into the transition around them (see "## Left out").
- **Cells** (`cell.dfy`, `Cells`; `consecutive_performable_tasks.dfy`, `ConsecutiveTasks`). How many machines each cell has per step, combined bottom-up over the tree. The coverage test `all_tasks_included`. The best-path search `check_best_path` over subsets of children. The lists of announced orders and of orders in a cell.
- **Agents** (`routing.dfy`, `Routing`; `agent.dfy`, `Agents`). The routing rule `calculate_destination`, travel times, and the candidate filter and weighted ranking of `get_action`. As state changes of class `Agent`: locking and announcing an order, moving, picking up, storing, the cell change at an interface buffer, and unlocking.
- **Rulesets** (`ruleset.dfy`, `Rulesets`). The defaults of `RuleSet.__init__`, and the registry.
- **Reward layer** (`reward_layer.dfy`, `RewardLayer`). The penalty of a choice.
- **Configuration validator** (`check_config.dfy`, `ConfigCheck`, with concrete verdicts in `ConfigCheckExamples`). The table-driven check of a configuration dictionary, and the state-attribute check.
- **Helpers** (`wrappers.dfy`, `Wrappers`; `lists.dfy`, `Lists`; `sorting.dfy`, `Sorting`). Python's `list.remove`, `list.index` and list comprehensions, and a stable `sorted` with its properties.

The object graph of the source is cyclic: an order points to its buffer, the buffer to its cells, and the cells to their orders. Here, an order refers to the places it occupies by id (`Position = Nowhere | InBuffer(id) | InMachine(id)`, plus cell and agent ids). Buffers, machines and cells hold `Order` objects.

`check_best_path` (Cell.py:232-259) does not always return a number of cells or 0. Called with `include_all=False`, it returns `float('inf')` when no child covers the whole work schedule, the cell covers the remaining tasks, the cell does not have exactly two children, and no subset of two or more children covers the whole work schedule. A cell with a single child is one such case. The model keeps that value as `Count.Infinite`. The storage fallback for a leaving order (ManufacturingAgent.py:346-351) has no guard against the order being in the storage already, unlike the fallbacks at lines 377 and 413; see finding 4 below.

## Model

| member | source | states |
|---|---|---|
| ConsecutiveTasks.PerformableSteps | Utils/consecutive_performable_tasks.py:18 | a step is in the performable list exactly when some entry for it has a machine count above zero |
| ConsecutiveTasks.ConsecutivePerformableTasks | Utils/consecutive_performable_tasks.py:16-25 | the result r is at most the number of next tasks; every task before r is performable; the next task at index r (if any) is not, so an all-performable list gives its length and an empty list gives 0 |
| ConsecutiveTasks.ZeroCountsIgnored | Utils/consecutive_performable_tasks.py:18 | adding entries with count 0 never changes the result |
| ProcessingSteps.StepRegistry.constructor | ProcessingStep.py:20-21 | the registry is empty and there is no dummy step |
| ProcessingSteps.StepRegistry.NewStep | ProcessingStep.py:23-32 | the step is appended to the registry; a hidden step becomes the dummy, and any other step leaves the dummy unchanged |
| ProcessingSteps.StepRegistry.LoadProcessingSteps | ProcessingStep.py:35-43 | the hidden step with id -1, title "Order finished" and duration 0 is registered, and is the dummy, before every step of the file, which follow in file order |
| ProcessingSteps.LoadedSteps | ProcessingStep.py:35-43 | of the steps loading registers, the dummy is the first and the only hidden one, and each other step has the id, title and base duration of its file entry |
| Orders.Order.constructor | Order.py:30-68 | the remaining tasks are the whole work schedule, headed by the next task; the order is not started, not finished, not overdue, not processing, unlocked, not picked up and nowhere |
| Orders.Order.ProcessingStepFinished | Order.py:129-136 | exactly the head of the remaining tasks is dropped; after the last step the next task is the dummy and the order is finished, and otherwise the next task is the new head; the work schedule is outside the frame, and the suffix invariant is kept |
| Orders.Order.MachineFailure | Order.py:162-167 | the order waits for repair exactly when its machine is broken |
| Orders.Order.SetOrderOverdue | Order.py:155-160 | the order is overdue afterwards exactly when it was already overdue or it is not completed; a completed order never becomes overdue |
| Orders.Order.AdditionalRankingCriteria | Order.py:169-214 | the accessibility estimate is never negative: it equals the raw estimate when that is non-negative, and 0 otherwise; the performable-in-cell count is the consecutive performable steps, less one while processing; the relative duration exists exactly when the due time differs from the start |
| Buffers.LockedCount | Buffer.py:68-69 | the number of locked stored items is at most the number stored; it is 0 exactly when none is locked, and all of them exactly when all are locked |
| Buffers.LockedCountAppend | Buffer.py:68-69 | appending an order adds one to the locked count exactly when that order is locked |
| Buffers.Unlocked | Buffer.py:68-69 | the stored orders nobody has locked: each is stored and unlocked, every unlocked stored order is among them, and there are as many as stored minus locked |
| Buffers.SortedWaitingHeadEarliest | Buffer.py:75 | sorting the waiting arrivals by waiting time keeps their number, and its head is one of them with the least waiting time; on a tie it is the one queued first, since every entry queued before it has waited a strictly later time |
| Buffers.Buffer.constructor | Buffer.py:22-45 | a new buffer stores nothing, is not full, has no queue, reservations or waiting agents, and has no lower or upper cell |
| Buffers.Buffer.FreeSlots | Buffer.py:67-70 | a slot is free exactly when the unlocked stored orders plus the announced ones leave a place, that is, exactly when one more reservation keeps the buffer's commitment within its capacity |
| Buffers.Buffer.Occupancy | Buffer.py:117-118 | the slot list holds the stored items in order, then empty slots; its length is the capacity as long as the buffer is not over capacity |
| Buffers.Buffer.OrderArrival | Order.py:138-153 | with room, the order is appended to storage, stands in this buffer, is started and enters the main cell (consuming its announcement), and `full` is raised when the capacity is reached; without room, `(order, now)` is queued and nothing else changes; `full` never contradicts the count |
| Buffers.Buffer.AdmitEarliestWaiting | Buffer.py:74-77 | the earliest-waiting queued order (the first on a tie) arrives. With room it is stored and started, stands in this buffer, enters the main cell at `now` (one announcement consumed, appended to the cell's orders), and the queue is the rest of the sorted queue. Without room it is queued again at the end with time `now`, and neither the main cell nor any queued order changes. No other queued order changes in either case |
| Buffers.Buffer.ItemPickedUp | Buffer.py:72-82 | exactly one occurrence of the item leaves storage. With a queue, nobody is woken and the earliest arrival is admitted with room as `AdmitEarliestWaiting` states (stored, in the main cell at `now`, announcement consumed, `full` kept), or re-queued without room with the main cell unchanged; the other queued orders never change. With no queue, `full` is cleared, the main cell is unchanged, and the first waiting agent, if any, is woken |
| Buffers.Buffer.OrderFinishedAsWritten | Order.py:119-127 | a finished order standing in this buffer leaves storage and is completed at `now` with no position and no cell, and `full` is left as it was; any other order changes nothing |
| Buffers.Buffer.OrderFinished | Order.py:119-127 | as the as-written version, but `full` is cleared and the first waiting agent is woken, so `full` never contradicts the count |
| Agents.FinishedOrderLeavesOutputFull | Order.py:119-127 | discrepancy: an order arrives, is carried finished to a capacity-1 main output buffer and stored there, and leaves through `Agents.Agent.ChangeCellAsWritten`; the buffer is then empty, yet still full |
| Agents.ArrivedFinishedOrder | Order.py:138-153 | scenario step for the row above: an order arrives at an empty main input, is stored there and registered in the main cell, and finishes its only step |
| Agents.ReservedFinishedOrder | ManufacturingAgent.py:433-442 | scenario step: an agent at the main input takes the order as its task and reserves a place in an empty capacity-1 main output that has no cells above or below |
| Agents.PickedUpFinishedOrder | ManufacturingAgent.py:512-520 | scenario step: the agent picks the order up; the output is still empty, not full, and holds the one reservation |
| Cells.SumForPositive | Cell.py:269-275 | the summed count for a step is positive exactly when that step is performable in the list |
| Cells.FlattenPerformable | Cell.py:265-268 | a step is performable in the concatenated child lists exactly when it is performable in one of them |
| Cells.CombinedPerformable | Cell.py:262-276 | a step is performable in the combined list exactly when it is registered and performable in some input list |
| Cells.CellCountsSpec | Cell.py:181-191 | a step is performable in a cell's `PERFORMABLE_TASKS` exactly when it is registered and some manufacturing cell below has a machine for it |
| Cells.MinCombination | Cell.py:246-257 | when found, the size is the least size from the start size up whose child subsets cover the work schedule; when not found, no size in range covers |
| Cells.NonZero | Cell.py:239 | the kept results are exactly the non-zero ones; none are kept exactly when every result is 0 |
| Cells.MinCount | Cell.py:240-241 | the minimum is one of the results and is at most each of them |
| Cells.DistributionBestPathFromChildren | Cell.py:235-241 | when some child reports a non-zero count, the answer is the least non-zero child count |
| Cells.BestPathZero | Cell.py:194-259 | the answer is 0 exactly when the cell does not cover (a manufacturing cell), or when no child answers and the cell alone does not cover (a distribution cell) |
| Cells.ExistsCoverAll | Cell.py:248-256 | choosing every remaining child covers exactly when all the chosen lists combined cover |
| Cells.BestPathAtMostChildren | Cell.py:242-257 | with `include_all`, no answering child and coverage, the answer is 2 with two children and otherwise lies between 2 and the number of children |
| Cells.BestPathMinimal | Cell.py:242-257 | with no answering child and coverage (and not exactly two children), a finite answer is a size whose subsets cover, and no smaller size's do |
| Cells.AllTasksIncluded | Cell.py:59-77 | the loop returns 1 exactly when every step of the work schedule (or of the remaining tasks when `all_tasks` is false) has an entry with a positive count in the chosen list, and 0 otherwise |
| Cells.CombinePerformableTasks | Cell.py:262-276 | the accumulator loops compute the combined list: one entry per registered step, with counts summed over all lists |
| Cells.InitPerformableTasks | Cell.py:181-191 | both initialisations compute the cell's `PERFORMABLE_TASKS`: machines counted per registered step, and children initialised and combined |
| Cells.CheckBestPath | Cell.py:232-259 | the loops over children and child subsets compute the best path of the cell tree for the schedule |
| Cells.OrdersOf | Cell.py:48-57 | the orders of the announcements, position by position |
| Cells.CancelFirst | Cell.py:51-57 | without an announcement for the order the list is unchanged; otherwise exactly the first announcement for it is removed |
| Cells.CancelFirstOrders | Cell.py:51-57 | at the level of orders, cancelling is `list.remove` of the order |
| Cells.AnnounceThenCancel | Cell.py:48-57 | announcing and then cancelling an order restores the announced orders as a multiset |
| Cells.AnnounceThenCancelFresh | Cell.py:48-57 | when the order had no earlier announcement, announcing then cancelling restores the list itself |
| Cells.HolderCode | Cell.py:290-302 | the lock code is 0 exactly when nobody holds the order and 1 exactly when the requester holds it, and is otherwise 2 |
| Cells.NextTaskCode | Cell.py:306-311 | -1 when no tasks remain, and otherwise the id of the next step |
| Cells.Cell.constructor | Cell.py:38-40 | a new cell has no orders and no announcements |
| Cells.Cell.InformIncomingOrder | Cell.py:48-49 | exactly one announcement is appended |
| Cells.Cell.CancelIncomingOrder | Cell.py:51-57 | the loop removes the first announcement for the order, or nothing when there is none |
| Cells.Cell.NewOrderInCell | Cell.py:151-155 | the order's cell is this cell, entered at `now`; its announcement is consumed and it is appended to the cell's orders |
| Cells.Cell.RemoveOrderInCell | Cell.py:157-159 | exactly one occurrence of the order leaves the cell, and its entry time is cleared |
| Machines.EarliestIndex | Machine.py:190-193 | the scan with `min_time` lowered settles on a reservation of least time, the first of several equally early |
| Machines.LastReservationNotEarliest | Machine.py:190-193 | discrepancy: with `min_time` never lowered, of the reservations at 1.0 and at 2.0 the later is chosen |
| Machines.Machine.constructor | Machine.py:25-85 | a new machine has empty slots and no setup; it is idle and not set up, manufacturing or broken, with all timers reset |
| Machines.Machine.CalculateSetupTime | Machine.py:301-307 | `(0, None)` when the machine is set up for the type, and otherwise `(BASE_SETUP_TIME, type)` |
| Machines.Machine.RemainingTime | Machine.py:354-355 | the time left plus the time since the run started is the time that was left when it started |
| Machines.Machine.BeginCycleAsWritten | Machine.py:186-195 | a cycle starts exactly when there are reservations or an input item; an input item is the next expected order, and otherwise the last reservation is |
| Machines.Machine.BeginCycle | Machine.py:186-195 | as above, but without an input item the next expected order is the earliest reservation, the first on a tie |
| Machines.Machine.EndCycle | Machine.py:199-200 | no expected order and no wait for setup and load remain |
| Machines.Machine.CancelExpectedOrder | Machine.py:451-459 | only the current next expected order of a running cycle is cancelled; during a setup the cancellation waits; otherwise the cycle drops the expected order, and an interrupted loading stops and leaves the machine idle |
| Machines.Machine.StartSetup | Machine.py:270-285 | nothing happens while manufacturing or broken, or when no setup is needed; otherwise the setup for the item's type starts at `now` and lasts `BASE_SETUP_TIME` |
| Machines.Machine.FinishSetup | Machine.py:288-295 | the setup is over and its timers are cleared; the machine is set up for the new type and then needs no setup for it |
| Machines.Machine.GetItem | Machine.py:236-260 | with no input item the machine waits; the input item moves inside only when the machine is empty and the item's next step is the machine's, and otherwise the source raises; after a load the first agent at the machine that has a waiting task is woken, and nobody otherwise |
| Machines.Machine.StartManufacturing | Machine.py:364-403 | refused while in setup, without a matching item or when set up for another type; a new item takes its full processing time and a resumed one keeps its frozen remaining time; work already done plus time left is the item's processing time |
| Machines.Machine.CompleteManufacturing | Machine.py:414-425 | manufacturing ends with no time left; the item is no longer processing, has exactly its head step done, and is blocked by an occupied output |
| Machines.Machine.FailureEventAsWritten | Machine.py:429-441 | the machine breaks at `now` and is repaired after `repair`; the time left is the full processing time minus the length of the current run |
| Machines.Machine.FailureEvent | Machine.py:429-441 | as above, but the time left is what remained when the current run started, less its length, so work done plus time left stays the processing time |
| Machines.Machine.FailureEnd | Machine.py:444-448 | the failure flags and timers are cleared and the item stops waiting for repair |
| Machines.Machine.ReleaseItemToOutput | Machine.py:309-332 | nothing happens while manufacturing or empty; an occupied output blocks the item, which waits; otherwise the item moves to the output slot, the internal slot empties, and exactly the agents waiting for the item at this machine are woken |
| Machines.Machine.ResumeRelease | Machine.py:316-328 | once the output is free, the block is lifted, the item moves out and the agents waiting for it at this machine are woken |
| Machines.Machine.MoveToOutput | Machine.py:319-330 | the item moves to the free output slot, the machine is idle unless it is being set up or loaded, and the agents waiting for the item at this machine are woken |
| Machines.LoadedMachine | Machine.py:369-378 | the scenario machine meets every condition for manufacturing |
| Machines.FailOnce | Machine.py:429-438 | a step of 10 that fails after 3 leaves 7 |
| Machines.FailOnceAndResume | Machine.py:391-395 | resumed at 5, the run keeps the 7 that were left |
| Machines.SecondFailureAsWritten | Machine.py:437 | discrepancy: a second failure 2 later leaves 8, so work done plus time left exceeds the processing time |
| Machines.SecondFailure | Machine.py:437 | corrected: the second failure leaves 5 and the work adds up to 10 |
| Routing.Decide | ManufacturingAgent.py:338-339 | the answer is "not in cell" exactly when the order is in another cell; it is "already there" exactly when the destination is the order's position, which is where the source exits (lines 416-418); otherwise there is no destination, or it is the destination |
| Routing.FinishedOrderInStorageExits | ManufacturingAgent.py:346-351 | discrepancy: a finished order in the storage, with no free output slot and a free storage slot, is sent to where it stands |
| Routing.StoredOrderNotSentBack | ManufacturingAgent.py:346-351 | corrected: an order standing in the storage is never routed to the storage again, so the exit is not reached for it |
| Routing.LeaveCellOrder | ManufacturingAgent.py:346-351 | a finished or unworkable order goes to a free output, else to a free storage it is not in, and otherwise has no destination |
| Routing.MachineChoiceFirst | ManufacturingAgent.py:356-378 | in a manufacturing cell: the first free machine for the next step that is set up for the type, else the first free one, else the storage fallback |
| Routing.FreeIfOptimal | ManufacturingAgent.py:361-371 | a set-up free machine is a free machine, so no free machine means no optimal one |
| Routing.PickChildIsChildOrFallback | ManufacturingAgent.py:387-414 | a distribution choice is the input of a candidate child, or the fallback |
| Routing.PickFewestCells | ManufacturingAgent.py:387-396 | among the non-zero best-path children with a free input, the chosen one needs the fewest cells, and is the first on a tie |
| Routing.PickMostConsecutive | ManufacturingAgent.py:398-414 | when no such child has a free input, the child performing most consecutive steps whose input is not full is chosen (the first on a tie), and otherwise the fallback |
| Routing.CountLePreorder | ManufacturingAgent.py:389-391 | the best-path sort key is a total preorder, so the stable sort is well defined |
| Routing.AmountPreorder | ManufacturingAgent.py:402-403 | the consecutive-step sort key is a total preorder |
| Routing.BestCandidatesSpec | ManufacturingAgent.py:387-391 | each best-path candidate is a child with its non-zero best-path count, and every child whose count is not zero is a candidate |
| Routing.ConsecutiveCandidatesSpec | ManufacturingAgent.py:400-403 | each consecutive candidate is a child with its positive consecutive-step count, and every child with a positive count is a candidate |
| Routing.RouteLength | ManufacturingAgent.py:674-679 | a length is found exactly when some entry connects the two positions, and it is the first such entry's |
| Routing.TimeForDistance | ManufacturingAgent.py:668-687 | no destination raises; staying put takes 0; otherwise the route's length over the speed, or none without an entry |
| Routing.AddDestination | ManufacturingAgent.py:421-431 | a destination is attached exactly to a free order outside machines that has one; `AlreadyThere` is passed on as the marker of `exit()`, which `Routing.GetAction` turns into `Exit` |
| Routing.Candidates | ManufacturingAgent.py:216-226 | the candidates are exactly the usable rows with a destination |
| Routing.MinOf | ManufacturingAgent.py:247 | the minimum is in the column and at most each value |
| Routing.MaxOf | ManufacturingAgent.py:246 | the maximum is in the column and at least each value |
| Routing.Scores | ManufacturingAgent.py:241-257 | one weighted score per candidate, in candidate order |
| Routing.BestIndex | ManufacturingAgent.py:258-260 | the index has a least score |
| Routing.GetActionCandidate | ManufacturingAgent.py:214-267 | the program ends (`Exit`) exactly when some row's destination is `AlreadyThere` (the `exit()` of ManufacturingAgent.py:416-418, reached while the column is filled); otherwise there is no action exactly when no usable order has a destination, and a chosen order is usable and takes its row's destination, never `AlreadyThere` |
| Routing.GetActionRanking | ManufacturingAgent.py:228-260 | unless the program has ended, a lone candidate is taken; with ranking, the chosen order has a least weighted score |
| Agents.FirstReservationFor | ManufacturingAgent.py:550-552 | the index of the first reservation for the order |
| Agents.ConsumeReservation | ManufacturingAgent.py:550-552 | exactly one reservation, the first for the order, is removed |
| Agents.AnnounceThenConsume | ManufacturingAgent.py:433-435 | announcing an order and then storing it restores the reservations, when the order had none before |
| Agents.ArrivalTime | ManufacturingAgent.py:433-434 | the arrival is now, plus the travel to the order and from there to the destination, plus the pick-up and store times; with no position or destination there is none |
| Agents.ArrivalNotBeforeHandling | ManufacturingAgent.py:433-434 | with a positive speed and non-negative distances, no arrival comes before now plus the handling times |
| Agents.TravelNonNegative | ManufacturingAgent.py:668-687 | with a positive speed and non-negative distances, travel time is never negative |
| Agents.ArriveAtBuffer | ManufacturingAgent.py:482 | the agent is appended to the buffer's agents |
| Agents.LeaveBuffer | ManufacturingAgent.py:457 | exactly one occurrence of the agent leaves the buffer's agents |
| Agents.ArriveAtMachine | ManufacturingAgent.py:482 | the agent is appended to the machine's agents |
| Agents.LeaveMachine | ManufacturingAgent.py:457 | exactly one occurrence of the agent leaves the machine's agents |
| Agents.Agent.constructor | ManufacturingAgent.py:50-67 | a new agent stands at its position, does not move, holds and locks nothing, and has no task |
| Agents.Agent.CommitTask | ManufacturingAgent.py:193-201 | the agent has a task and one more started task; the order is locked by the agent and is its locked item |
| Agents.Agent.AnnounceAtBuffer | ManufacturingAgent.py:433-442 | the reservation is appended; at an interface buffer the cell on the other side gets the announcement; the buffer's commitment grows by one, and it stays within the capacity exactly when `free_slots` held |
| Agents.Agent.AnnounceAtMachine | ManufacturingAgent.py:433-435 | the reservation is appended to the machine's |
| Agents.Agent.BeginMove | ManufacturingAgent.py:455-469 | an agent elsewhere sets off with the travel time and its item goes nowhere; an agent already there or moving stays; a move under way goes on |
| Agents.Agent.FinishMove | ManufacturingAgent.py:475-484 | the agent and its item are at the destination, and the move's timers are cleared |
| Agents.Agent.PickUpFromMachine | ManufacturingAgent.py:493-507 | with empty hands the item is taken from the output slot when it is there, and otherwise the agent waits for it |
| Agents.Agent.PickUpFromBuffer | ManufacturingAgent.py:512-520 | with empty hands a stored item is taken and nowhere, and the buffer releases its slot with every effect `ItemPickedUp` states: the queued arrival that is admitted or re-queued, its entry into the main cell, the other queued orders unchanged, or with no queue `full` cleared and the first waiting agent woken; an item that is not there is not taken, and nothing changes |
| Agents.Agent.EndWaitForProcessing | ManufacturingAgent.py:616-619 | exactly one waiting entry of the agent leaves the order |
| Agents.Agent.EndWaitForSlotAtBuffer | ManufacturingAgent.py:633-636 | exactly one occurrence of the agent leaves the buffer's waiting agents |
| Agents.Agent.EndWaitForSlotAtMachine | ManufacturingAgent.py:633-636 | exactly one occurrence of the agent leaves the machine's waiting agents |
| Agents.Agent.StoreInMachine | ManufacturingAgent.py:531-561 | an occupied or locked input makes the agent wait; a wrong machine raises; otherwise the reservation is consumed, the item is in the input, the hands are empty, and exactly the agents waiting for the item at its position are woken |
| Agents.Agent.StoreInBuffer | ManufacturingAgent.py:562-573 | a full buffer makes the agent wait; otherwise the reservation is consumed, the item is appended, `full` is raised exactly at capacity and the hands are empty; the stored order takes its reservation's place, so the commitment drops by one for a locked order and stays for an unlocked one, and a buffer within its capacity stays within it |
| Agents.Agent.ChangeCell | ManufacturingAgent.py:574-588 | corrected version (with `Buffers.Buffer.OrderFinished`): the item leaves the agent's cell and enters the lower or upper cell, consuming its announcement there; at the main output it is finished and the buffer is not full |
| Agents.Agent.ChangeCellAsWritten | ManufacturingAgent.py:574-588 | as written (with `order_finished`): the same cell changes, but at the main output the finished order leaves and `full` keeps its old value |
| Agents.Agent.EndTask | ManufacturingAgent.py:660-663 | the order is unlocked, and the agent holds no lock and has no task |
| Rulesets.RandomAndSeed | Ruleset.py:28-34 | random exactly when both keys are present and random is true; a missing key gives not random with no seed |
| Rulesets.NumericalCriteria | Ruleset.py:36-40 | the criteria given, or none when `criteria` or `numerical` is missing |
| Rulesets.Dynamic | Ruleset.py:42-47 | dynamic exactly when `dynamic` is present and true |
| Rulesets.MakeRuleSet | Ruleset.py:23-47 | the ruleset copies id, name and description, and takes each rule field with its default |
| Rulesets.NoRulesDefaults | Ruleset.py:28-47 | a description without `rules` gives a ruleset that is not random, has no seed and no criteria, and is not dynamic |
| Rulesets.RuleSetRegistry.constructor | Ruleset.py:20-21 | the registry is empty |
| Rulesets.RuleSetRegistry.NewRuleSet | Ruleset.py:23-25 | the new ruleset is appended |
| Rulesets.RuleSetRegistry.LoadRulesets | Ruleset.py:50-54 | one ruleset per description, in file order, after those already registered |
| RewardLayer.Violations | RewardLayer.py:21-30 | eight conditions |
| RewardLayer.CountTrue | RewardLayer.py:32 | the count is at most the length; it is 0 exactly when no condition holds, and full exactly when all hold |
| RewardLayer.EvaluateChoice | RewardLayer.py:18-34 | the penalty lies in [-8000, 0] and is a multiple of 1000 |
| RewardLayer.NoPenaltyIffAllowed | RewardLayer.py:21-32 | the penalty is 0 exactly when none of the eight conditions holds |
| RewardLayer.FullPenaltyIffAllViolated | RewardLayer.py:21-32 | the penalty is -8000 exactly when all eight hold |
| RewardLayer.Penalty | RewardLayer.py:32 | -1000 per violation: the result lies in [-8000, 0] and is a multiple of 1000; it is 0 exactly for none and -8000 exactly for eight |
| RewardLayer.DestinationWorth1000 | RewardLayer.py:30-32 | giving a choice a destination gains exactly 1000 |
| ConfigCheck.LookupSpec | Utils/check_config.py:161 | a key is found exactly when some entry has it, and then the first such entry's value |
| ConfigCheck.Find | Utils/check_config.py:145-148 | a top-level key is found exactly when an entry has it, and then with that entry's value |
| ConfigCheck.TypeMatches | Utils/check_config.py:132-136 | `float` also admits `int`, and every other type must match exactly |
| ConfigCheck.Rule | Utils/check_config.py:138-148 | minimum and maximum are inclusive; lower and greater are strict against another top-level key, whose absence raises `KeyError` |
| ConfigCheck.CheckLimitsSpec | Utils/check_config.py:162-166 | a leaf passes exactly when every limit holds; a `ValueError` names the key and the first limit that does not hold |
| ConfigCheck.LeafOutcomeSpec | Utils/check_config.py:161-166 | a leaf passes exactly when its key is in the table and every limit holds; a key missing from the table raises `KeyError` |
| ConfigCheck.CheckLeavesSpec | Utils/check_config.py:156-166 | checking leaves in order passes exactly when each leaf passes, and otherwise reports the first failure |
| ConfigCheck.CheckLeavesAppend | Utils/check_config.py:157 | checking two runs of leaves is checking the first, then, if it passed, the second |
| ConfigCheck.CheckValuesIsCheckLeaves | Utils/check_config.py:156-159 | the recursive walk checks exactly the leaves, depth first, in order |
| ConfigCheck.CheckValuesSpec | Utils/check_config.py:156-168 | a configuration passes exactly when every leaf's key is in the table and all its limits hold; a `ValueError` names a leaf and a limit it violates |
| ConfigCheck.LookupFirst | Utils/check_config.py:161 | the lookup returns the first entry with the key |
| ConfigCheck.SingleLeaf | Utils/check_config.py:160-166 | a one-leaf configuration is decided by that leaf's limits |
| ConfigCheck.NestedLeaf | Utils/check_config.py:157-159 | a leaf inside a dict is checked against the same table |
| ConfigCheck.SingleLeafIn | Utils/check_config.py:160-166 | a one-leaf dictionary is decided by its leaf's limits against any top level |
| ConfigCheck.CheckStateAttributesSpec | Utils/check_config.py:182-187 | the check passes exactly when every essential list is within both state lists of its kind |
| ConfigCheck.ShippedStateAttributesPass | state_attributes.py:1-15 | the shipped normal and smart states contain the essential attributes |
| ConfigCheckExamples.FailureRateLimits | Utils/check_config.py:33-37 | the failure rate is an `int` between 0 and 100 |
| ConfigCheckExamples.AgentSpeedLimits | Utils/check_config.py:72-75 | the agent speed is a `float` of at least 1 |
| ConfigCheckExamples.FailureRateAtMaximum | Utils/check_config.py:141-142 | a failure rate of 100 passes |
| ConfigCheckExamples.FailureRateAboveMaximum | Utils/check_config.py:141-142 | a failure rate of 101 violates the maximum |
| ConfigCheckExamples.BoolIsNoInteger | Utils/check_config.py:132-136 | a bool failure rate violates the type |
| ConfigCheckExamples.IntegerSpeedAccepted | Utils/check_config.py:132-136 | an integer speed passes the `float` type |
| ConfigCheckExamples.NestedLeafChecked | Utils/check_config.py:157-159 | a speed of 0.5 inside a nested dict violates the minimum |
| Lists.RemoveFirst | Cell.py:157-159 | `list.remove`: the list is unchanged without the element; otherwise exactly its first occurrence is spliced out, and the multiset loses one copy |
| Lists.FirstIn | Machine.py:255-257 | no element exactly when none of the list lies in the set; otherwise an element in the set, preceded only by elements outside it |
| Orders.AgentsWaitingAt | Machine.py:326-328 | an agent is in the result exactly when the waiting list pairs it with that position, and the result is no longer than the list |
| Sorting.SortByMultiset | ManufacturingAgent.py:389-391 | `sorted` is a permutation |
| Sorting.SortBySorted | ManufacturingAgent.py:389-391 | `sorted` orders by a total preorder key |
| Sorting.FirstWhereSorted | ManufacturingAgent.py:389-396 | the first eligible element of the stable sort is the first minimal eligible element of the input |
| Sorting.FirstMinimalProperties | ManufacturingAgent.py:389-396 | none exactly when nothing is eligible; otherwise an eligible element of least key, with every earlier eligible one strictly greater |

## Left out

- SimPy scheduling, processes, timeouts and interrupts. Each generator is split into atomic transitions at the waits where another process can act, and such a wait is "no change until woken"; the folded handling waits are listed below. Where the source interrupts a waiting agent, the model returns who is woken (`woken`): the buffer's first waiting agent (`ItemPickedUp`, `OrderFinished`), the first agent at a machine with a waiting task (`GetItem`, which takes the set of agents that have one as a parameter, since that is the agents' state), and the agents waiting for an item at a position (`MoveToOutput`, `StoreInMachine`). Interrupts of a machine's own processes (`wait_for_item_proc`, `wait_for_output_proc`) are the scheduler's.
- The `threading.Lock` around agent decisions, its purpose being concurrency.
- Four fixed handling waits are folded into a single transition, so no other process acts during them:
  - Machines.Machine.GetItem: the 0.1 s load (Machine.py:245-250). `loadItem` is therefore never true between operations. `Machines.Machine.CancelExpectedOrder`'s interrupted-load branch (Machine.py:263-264) and the `load_item` tests at Machine.py:290 and 329 are never reached through the model's operations.
  - Machines.Machine.ReleaseItemToOutput and `Machines.Machine.MoveToOutput`: the 0.1 s release (Machine.py:321). In the source an agent that arrives during it finds the item still inside and waits. The model has only the states before and after.
  - Agents.Agent.PickUpFromMachine and `Agents.Agent.PickUpFromBuffer`: `TIME_FOR_ITEM_PICK_UP` (ManufacturingAgent.py:501, 516). In the source the item still occupies its slot during it, and other agents decide with that slot taken. The model has only the states before and after.
  - Agents.Agent.StoreInMachine: `TIME_FOR_ITEM_STORE` (ManufacturingAgent.py:546-548). `inputLock` is therefore never true between operations, and no other agent can find the input locked.
  - Agents.Agent.StoreInBuffer: `TIME_FOR_ITEM_STORE` (ManufacturingAgent.py:565). The `full` test before the wait and the append after it happen with no other agent acting in between. `FullConsistent` and `WithinCapacity` are proved for this folded step only.
- Agents.Agent.ChangeCell: the corrected version. At the main output it calls the corrected `Buffers.Buffer.OrderFinished`, so `full` is cleared and a waiting agent is woken. The source calls `order_finished` as written (ManufacturingAgent.py:586-587), and `Agents.Agent.ChangeCellAsWritten` models that call, with `full` left as it was.
- Some `requires` exclude inputs on which the source raises; the raise paths are not modelled. They are: the `Orders.Order.constructor` with an empty work schedule (`remaining_tasks[0]`, Order.py:54); `Orders.Order.ProcessingStepFinished` with no remaining task (`del`, Order.py:135); `Buffers.Buffer.ItemPickedUp` for an item not stored (`list.remove`, Buffer.py:73); `Cells.Cell.RemoveOrderInCell` for an order not in the cell (Cell.py:158); and `Agents.Agent.StoreInMachine` and `Agents.Agent.StoreInBuffer` without a reservation for the item (`[...][0]`, ManufacturingAgent.py:550-552 and 567-569). Every caller in the source meets these conditions.
- RewardLayer.RewardAction: `reward_action` (RewardLayer.py:37-38) returns the constant 0, so there is no property of it to state; it has no row in the table.
- All `save_event` calls and the database, log, measure, plot, export and setup-wizard utilities: they are I/O.
- `get_smart_action` and `state_to_numeric`: a random placeholder for a learned policy, and pandas encoding.
- Randomness and file reads. The processing time (`calculate_processing_time`, read from `Materials.json`) and the repair length are parameters. The failure draw decides whether `FailureEventAsWritten`/`FailureEvent` or `CompleteManufacturing` follows `StartManufacturing`: the caller chooses. Random order generation (`get_orders_from_seed`, `order_arrivals`) is not modelled.
- Routing.GetAction: the seeded shuffle of a random ruleset is the parameter `shuffleFirst`. `div_possible_zero` is not part of this model, so it is the parameter `div`.
- Routing.GetActionRanking: claims only that a minimal-score order is chosen, because pandas' `sort_values` is not stable and the tie order is unspecified.
- The pandas plumbing of `get_cell_state`, `add_order_attributes` and `add_position_attributes`, and the attribute-dict half of `occupancy`. Only the slot list (`Buffers.Buffer.Occupancy`) and the lock and next-task codes are modelled. An agent's view of a cell is a list of records (`Routing.Row`, `Routing.CellView`).
- The `DISTANCES` table is given as a list of triples. How it is built is setup code.
- Processing steps are compared by value. The source compares `ProcessingStep` objects by identity, and ids are unique within one registry.
- Titles are strings. The source stores `.encode()` bytes.
- Rulesets.RandomAndSeed: the file's `random` entry is given by its truth value, the value `bool()` computes at Ruleset.py:29. JSON values other than booleans are not modelled.
- Rulesets.Dynamic: `dynamic` is a boolean here. The source stores the raw JSON value (Ruleset.py:43), so a non-boolean entry stays as given and is tested for truthiness only where it is used.
- Orders.Order.AdditionalRankingCriteria: `relative_order_duration` divides by zero when the due time equals the start, and the source then raises. The model returns `None` for that case.
- Machines.Machine.CancelExpectedOrder: the wait for a running setup is returned as `AfterSetup`, and the cancellation after it is a second call.
- `Agents.Agent.ChangeCell` follows `Agents.Agent.StoreInBuffer` at an interface buffer. `item_from_to` is the sequence `BeginMove`/`FinishMove`, `PickUpFromMachine` or `PickUpFromBuffer`, `BeginMove`/`FinishMove`, `StoreIn…`, `EndTask`. It has no method of its own.
- Updates to `agents_at_position` are the separate methods `Agents.ArriveAtBuffer`, `Agents.ArriveAtMachine`, `Agents.LeaveBuffer` and `Agents.LeaveMachine`. That covers the updates inside `moving_proc` and the one the agent's constructor makes at its start position.
- `inform_agents`, `state_change_in_cell` and `recalculate` only wake agent processes. They belong to the scheduler.
- `expected_orders_to_left` and the ingoing/outgoing interface attributes of buffers feed only the left-out attribute dict.
- ConfigCheck.Rule: no claim is made about the shipped table's `lower_than`/`greater_than` entries under concrete values.
- Machines.Machine.StartManufacturing and Machines.Machine.ReleaseItemToOutput keep `Valid` only while the machine is not broken. A broken machine's invariant is restored by `FailureEnd`.

## Findings

| source | as written | input that shows it | evidently intended | confidence | as-written member | corrected member |
|---|---|---|---|---|---|---|
| Machine.py:437-438 | the remaining time after a failure is the full processing time minus the length of the current run only | a step of 10 that fails at 3, resumes at 5 and fails again at 7 leaves 8, so 13 units of work in all | what remained when the current run started, less its length, leaving 5 | not executed | Machines.SecondFailureAsWritten | Machines.SecondFailure |
| Machine.py:190-193 | `min_time` is never lowered inside the scan, so every reservation passes `time < min_time` and the last one becomes the next expected order | reservations at 1.0 and then at 2.0: the machine expects the order arriving at 2.0 | the earliest reservation, the first on a tie | not executed | Machines.LastReservationNotEarliest | Machines.Machine.BeginCycle |
| Order.py:119-127 | `order_finished` removes the order from the main output buffer without clearing `full` | a capacity-1 main output buffer receives a finished order: it is empty afterwards but still full, and the next agent waits for a slot forever | clear `full` and wake the first waiting agent, as `item_picked_up` does | not executed | Agents.FinishedOrderLeavesOutputFull | Buffers.Buffer.OrderFinished |
| ManufacturingAgent.py:346-351 | the storage fallback for a leaving order lacks the "order is not in the storage already" guard the other branches have | a finished order in the storage, with no free output slot and a free storage slot: the destination is its own position and the program exits at lines 416-418 | no destination, so the order waits in the storage | not executed | Routing.FinishedOrderInStorageExits | Routing.StoredOrderNotSentBack |
