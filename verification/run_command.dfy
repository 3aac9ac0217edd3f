/** `RunCommand.createMigrationJobAsync` written as the source writes it: a loop
    over the script objects that unshifts, pushes or splices, with the backward
    scan for the insertion point. Both methods are proved to compute the
    functional model of the scheduler. */
module RunCommand {
  import opened ScriptObjects
  import opened JobBuilder
  import opened JobProperties

  /** The backward scan from the last task down to `startIndex`; the last
      qualifying task met, which is the one with the smallest index, wins. */
  method ScanForInsertIndex(tasks: seq<ScriptObject>, startIndex: nat, newObject: ScriptObject)
    returns (indexToInsert: nat)
    requires startIndex <= |tasks|
    ensures startIndex <= indexToInsert <= |tasks|
    ensures indexToInsert < |tasks| ==> PullsBefore(tasks[indexToInsert], newObject)
    ensures forall j :: startIndex <= j < indexToInsert ==> !PullsBefore(tasks[j], newObject)
    ensures indexToInsert == InsertionIndex(tasks, startIndex, newObject)
  {
    indexToInsert := |tasks|;
    var taskIndex: int := |tasks| - 1;
    while taskIndex >= startIndex
      invariant startIndex - 1 <= taskIndex < |tasks|
      invariant indexToInsert == InsertionIndex(tasks, taskIndex + 1, newObject)
      decreases taskIndex
    {
      var existedTask := tasks[taskIndex];
      var isNewObjectParent := newObject.name in existedTask.parentObjects;
      var isExistedTaskParentMasterDetail := existedTask.name in newObject.parentMasterDetailObjects;
      if isNewObjectParent && !isExistedTaskParentMasterDetail {
        indexToInsert := taskIndex;
      }
      taskIndex := taskIndex - 1;
    }
  }

  /** The whole pass over the script objects, returning the job's task list
      and the number of read-only tasks at its front. */
  method CreateMigrationJob(objects: seq<ScriptObject>) returns (tasks: seq<ScriptObject>, startIndex: nat)
    ensures tasks == Build(objects)
    ensures multiset(tasks) == multiset(objects)
    ensures HasReadonlyPrefix(JobState(tasks, startIndex))
    ensures tasks[..startIndex] == Reverse(ReadonlyOf(objects))
  {
    tasks := [];
    startIndex := 0;
    var n := 0;
    while n < |objects|
      invariant n <= |objects|
      invariant JobState(tasks, startIndex) == BuildState(objects[..n])
    {
      var newObject := objects[n];
      ghost var before := JobState(tasks, startIndex);
      if newObject.isReadonlyObject {
        // read-only objects are always at the beginning
        tasks := [newObject] + tasks;
        startIndex := startIndex + 1;
      } else if |tasks| == 0 {
        tasks := tasks + [newObject];
      } else {
        var indexToInsert := ScanForInsertIndex(tasks, startIndex, newObject);
        tasks := tasks[..indexToInsert] + [newObject] + tasks[indexToInsert..];
      }
      assert JobState(tasks, startIndex) == Step(before, newObject);
      BuildPrefixStep(objects, n);
      n := n + 1;
    }
    assert objects[..n] == objects;
    BuildIsPermutation(objects);
    BuildHasReadonlyPrefix(objects);
    ReadonlyPrefixIsReversed(objects);
  }
}
