/** The migration-job scheduler of `RunCommand.createMigrationJobAsync`, as pure functions.

    The job is built in one pass over the script objects in declaration order.
    Every object becomes one task, and a task is modelled as the script object
    it wraps. The state between two objects is the ordered task list together
    with `startIndex`, the number of read-only tasks placed so far.
 */
module JobBuilder {
  import opened ScriptObjects

  datatype JobState = JobState(tasks: seq<ScriptObject>, startIndex: nat)

  /** The job before the first script object is processed. */
  const EmptyJob := JobState([], 0)

  /** The insertion point the backward scan computes for a non-read-only object:
      the smallest index at or after `lo` whose task the new object must precede,
      or `|tasks|` (append) when there is none. */
  function InsertionIndex(tasks: seq<ScriptObject>, lo: nat, newObject: ScriptObject): (r: nat)
    requires lo <= |tasks|
    ensures lo <= r <= |tasks|
    ensures r < |tasks| ==> PullsBefore(tasks[r], newObject)
    ensures forall j :: lo <= j < r ==> !PullsBefore(tasks[j], newObject)
    decreases |tasks| - lo
  {
    if lo == |tasks| then |tasks|
    else if PullsBefore(tasks[lo], newObject) then lo
    else InsertionIndex(tasks, lo + 1, newObject)
  }

  /** The general branch for a non-read-only object: splice it in at the scan's insertion point. */
  function SpliceIn(job: JobState, newObject: ScriptObject): (r: JobState)
    requires job.startIndex <= |job.tasks|
    ensures |r.tasks| == |job.tasks| + 1
    ensures r.startIndex == job.startIndex
  {
    var i := InsertionIndex(job.tasks, job.startIndex, newObject);
    JobState(job.tasks[..i] + [newObject] + job.tasks[i..], job.startIndex)
  }

  /** One iteration of the `forEach` over the script objects. */
  function Step(job: JobState, newObject: ScriptObject): (r: JobState)
    requires job.startIndex <= |job.tasks|
    ensures |r.tasks| == |job.tasks| + 1
    ensures r.startIndex <= |r.tasks|
    ensures r.startIndex == job.startIndex + (if newObject.isReadonlyObject then 1 else 0)
  {
    if newObject.isReadonlyObject then
      // read-only objects always go to the front
      JobState([newObject] + job.tasks, job.startIndex + 1)
    else if |job.tasks| == 0 then
      // the first object
      JobState(job.tasks + [newObject], job.startIndex)
    else
      SpliceIn(job, newObject)
  }

  /** The index at which `Step` places the new task. */
  function InsertedAt(job: JobState, newObject: ScriptObject): (k: nat)
    requires job.startIndex <= |job.tasks|
    ensures k <= |job.tasks|
  {
    if newObject.isReadonlyObject || |job.tasks| == 0 then 0
    else InsertionIndex(job.tasks, job.startIndex, newObject)
  }

  /** The read-only objects of `objects`, in declaration order. */
  function ReadonlyOf(objects: seq<ScriptObject>): (r: seq<ScriptObject>)
    ensures |r| <= |objects|
    ensures forall i :: 0 <= i < |r| ==> r[i].isReadonlyObject && r[i] in objects
  {
    if |objects| == 0 then []
    else
      var last := objects[|objects| - 1];
      ReadonlyOf(objects[..|objects| - 1]) + (if last.isReadonlyObject then [last] else [])
  }

  function Reverse<T>(s: seq<T>): (r: seq<T>)
    ensures |r| == |s|
    ensures forall i :: 0 <= i < |s| ==> r[i] == s[|s| - 1 - i]
  {
    if |s| == 0 then [] else [s[|s| - 1]] + Reverse(s[..|s| - 1])
  }

  /** The job after the first `|objects|` script objects, as a left fold of `Step`. */
  function BuildState(objects: seq<ScriptObject>): (r: JobState)
    ensures |r.tasks| == |objects|
    ensures r.startIndex == |ReadonlyOf(objects)|
  {
    if |objects| == 0 then EmptyJob
    else Step(BuildState(objects[..|objects| - 1]), objects[|objects| - 1])
  }

  /** The ordered task list of the migration job built from `objects`. */
  function Build(objects: seq<ScriptObject>): (tasks: seq<ScriptObject>)
    ensures |tasks| == |objects|
  {
    BuildState(objects).tasks
  }
}
