# Migration-job ordering scheduler (SFDX Data Move Utility)

This project models how `RunCommand.createMigrationJobAsync` turns the script
objects declared in a data-move script into the ordered task list of a
migration job, and proves what that order guarantees.

The scheduler makes one pass over the script objects in declaration order and
turns each object into a task:

- a read-only object is put at the front of the list, and `startIndex` counts
  how many read-only tasks there are;
- the first object goes into an empty list by a push;
- any other object triggers a backward scan from the last task down to
  `startIndex`. The object is spliced in before the smallest-index task that
  lists it among its `parentObjects`, unless that task is one of the object's
  `parentMasterDetailObjects`. If no task qualifies, the object is appended.

The model has five modules:

- `ScriptObjects`: a script object reduced to its name, its read-only flag and
  the names of its parent and master-detail parent objects. The scheduler
  compares objects only by name. No relation between the two name lists is
  assumed, and names need not be unique.
- `JobBuilder`: the scheduler as pure functions. `InsertionIndex` is a
  recursive forward search for the smallest qualifying index. `Step` is one
  iteration of the `forEach`. `BuildState`/`Build` fold `Step` over the
  declaration list.
- `JobProperties`: what one step does and what the whole pass guarantees.
  Every object yields exactly one task. Read-only tasks form a prefix, in
  reverse declaration order. Tasks already placed are never reordered. A new
  object goes before every non-read-only task already present that lists it
  as a parent, unless that task is one of its master-detail parents. The scan
  never looks at the read-only prefix.
- `RunCommand`: the loop and the backward scan written imperatively as the
  source writes them, each proved equal to the functional model.
- `Scenarios`: small declaration lists and the exact order the code gives them.

The model keeps the source's quirks. Read-only objects end up in reverse
declaration order, because each one is inserted at index 0. This looks
accidental, but it is modelled as written. There is no cycle detection. The
order is guaranteed only against tasks already present when an object is
processed; nothing transitive is promised. The empty-list branch is kept
separate in `Step`, and `JobProperties.EmptyBranchIsSplice` proves it behaves
like the splice branch.

For the five-object example (Account; Contact→Account; RecordType read-only;
OpportunityLineItem→Opportunity; Opportunity→Account), the code gives
RecordType, Account, Contact, Opportunity, OpportunityLineItem. Contact is
appended while only Account is present, and nothing later moves it.
`Scenarios.SalesScenario` proves that order.

Because the builder is a pure function of the declaration list, building the
same list twice yields the same order.

## Model

| member | source | states |
|---|---|---|
| ScriptObjects.PullsBefore | src/modules/commands_processors/runCommand.ts:149-152 | an existing task pulls the new object in front of it exactly when the task lists the new object's name among its parent objects and the task's name is not among the new object's master-detail parents |
| JobBuilder.InsertionIndex | src/modules/commands_processors/runCommand.ts:145-157 | the insertion point lies in [startIndex, length]; if it is below the length, the task there lists the new object as a parent and is not its master-detail parent; no task between startIndex and the point qualifies; so the point is the smallest qualifying index, and it is the length (append) when none qualifies |
| JobBuilder.SpliceIn | src/modules/commands_processors/runCommand.ts:145-159 | splicing in a non-read-only object adds exactly one task and leaves the read-only count alone |
| JobBuilder.Step | src/modules/commands_processors/runCommand.ts:136-160 | each object adds exactly one task; the read-only count grows by one exactly for a read-only object and never exceeds the number of tasks |
| JobBuilder.BuildState | src/modules/commands_processors/runCommand.ts:127-161 | after any number of objects, the job holds one task per object, and startIndex equals the number of read-only objects among them |
| JobBuilder.Build | src/modules/commands_processors/runCommand.ts:127-161 | the finished task list has one task per declared object |
| JobProperties.EmptyBranchIsSplice | src/modules/commands_processors/runCommand.ts:140-159 | for a non-read-only object, the push into an empty list gives the same job as the general scan-and-splice branch |
| JobProperties.StepOnlyInserts | src/modules/commands_processors/runCommand.ts:136-159 | a step puts the new task at one index; tasks before it are unchanged and tasks after it shift by one; read-only objects go to index 0; other objects are never placed below startIndex |
| JobProperties.StepPermutes | src/modules/commands_processors/runCommand.ts:129-160 | a step adds the new object to the multiset of tasks and removes nothing |
| JobProperties.StepPreservesOrder | src/modules/commands_processors/runCommand.ts:138-159 | the previous task list embeds in the new one in the same relative order: tasks before the insertion point keep their index, and tasks after it move up by one |
| JobProperties.StepKeepsReadonlyPrefix | src/modules/commands_processors/runCommand.ts:136-159 | if the read-only tasks are exactly the first startIndex tasks before a step, the same holds after it |
| JobProperties.NewTaskPrecedesDependents | src/modules/commands_processors/runCommand.ts:149-159 | right after insertion, the new object comes before every task at or after startIndex that lists it as a parent and is not its master-detail parent; the task directly after it, if any, is such a task |
| JobProperties.MasterDetailParentNeverPulls | src/modules/commands_processors/runCommand.ts:151-155 | the task the new object is placed before is never one of its master-detail parents; if every task that lists the new object as a parent is a master-detail parent of it, the object is appended |
| JobProperties.ScanIgnoresPrefix | src/modules/commands_processors/runCommand.ts:146-157 | two task lists that agree from startIndex on give the same insertion point, so the scan never reads the read-only prefix |
| JobProperties.InsertionIndexIsLeast | src/modules/commands_processors/runCommand.ts:145-155 | any index that qualifies and has no qualifying index before it (or the length, when none qualifies) is the insertion point |
| JobProperties.ReadonlyStepExtendsPrefix | src/modules/commands_processors/runCommand.ts:136-139 | a read-only object becomes the first element of the read-only prefix, ahead of the previous prefix |
| JobProperties.OtherStepKeepsPrefix | src/modules/commands_processors/runCommand.ts:143-159 | a non-read-only object leaves the read-only prefix exactly as it was |
| JobProperties.BuildIsPermutation | src/modules/commands_processors/runCommand.ts:129-161 | the finished task list is a permutation of the declared objects |
| JobProperties.BuildHasReadonlyPrefix | src/modules/commands_processors/runCommand.ts:127-161 | in the finished job, a task is read-only exactly when its index is below startIndex |
| JobProperties.ReadonlyPrefixIsReversed | src/modules/commands_processors/runCommand.ts:136-139 | the read-only prefix is the read-only objects in reverse declaration order |
| JobProperties.BuildPreservesOrder | src/modules/commands_processors/runCommand.ts:129-161 | the task list after the first n objects is a subsequence of the finished task list, in the same relative order |
| RunCommand.ScanForInsertIndex | src/modules/commands_processors/runCommand.ts:145-157 | the backward scan from the last task down to startIndex returns the smallest qualifying index, or the length when none qualifies; this equals InsertionIndex |
| RunCommand.CreateMigrationJob | src/modules/commands_processors/runCommand.ts:127-161 | the loop of unshift, push and splice produces Build of the objects; the result is a permutation of them; the read-only tasks are exactly the first startIndex tasks, in reverse declaration order |
| Scenarios.SalesScenario | src/modules/commands_processors/runCommand.ts:127-161 | Account, Contact, RecordType, OpportunityLineItem, Opportunity (as declared) are ordered RecordType, Account, Contact, Opportunity, OpportunityLineItem |
| Scenarios.ParentDeclaredLate | src/modules/commands_processors/runCommand.ts:149-159 | a parent declared after its child is placed directly before it |
| Scenarios.MasterDetailOverride | src/modules/commands_processors/runCommand.ts:151-152 | an object is not pulled before a task that lists it as a parent when that task is its master-detail parent |
| Scenarios.ReadonlyDependentStaysAhead | src/modules/commands_processors/runCommand.ts:136-159 | a read-only task that lists a later non-read-only object as a parent stays ahead of it, because the scan stops at startIndex |
| Scenarios.ReadonlyReversed | src/modules/commands_processors/runCommand.ts:136-139 | read-only objects R1, R2, R3 come out as R3, R2, R1 |

## Left out

- The `RunCommand` constructor (runCommand.ts:53-64) is not modelled. It only normalises the base path with the host's path library and working directory.
- `setupAsync` (runCommand.ts:74-105) is not modelled. It does file-system checks, JSON parsing, object mapping and remote org setup and metadata describe, all of which is I/O.
- Logging calls and the `Job`/`Task` object construction (runCommand.ts:119-134) are not modelled. A task is modelled as the script object it wraps, without the back-reference to its job.
- The build is modelled as a synchronous function. The `async` wrapper and its promise have no effect on the order.
- Script objects are reduced to the four fields the scheduler reads. Parent objects are compared by name only, as the source does.
