/** Properties of the migration-job scheduler: what one insertion does to the
    task list, and what the whole pass guarantees about the finished job. */
module JobProperties {
  import opened ScriptObjects
  import opened JobBuilder

  /** `f` maps each position of `a` to a position of `b` holding the same
      element, and keeps positions in increasing order: `a` is a subsequence of
      `b` in the same relative order. */
  ghost predicate IsEmbedding<T>(f: seq<nat>, a: seq<T>, b: seq<T>)
  {
    && |f| == |a|
    && (forall i :: 0 <= i < |f| ==> f[i] < |b| && b[f[i]] == a[i])
    && (forall i, j :: 0 <= i < j < |f| ==> f[i] < f[j])
  }

  /** The read-only tasks are exactly the first `startIndex` tasks. */
  predicate HasReadonlyPrefix(job: JobState)
  {
    && job.startIndex <= |job.tasks|
    && forall i :: 0 <= i < |job.tasks| ==> (job.tasks[i].isReadonlyObject <==> i < job.startIndex)
  }

  /** Every task of the non-read-only region that lists `newObject` as a
      parent is a master-detail parent of `newObject`. */
  predicate OnlyMasterDetailDependents(job: JobState, newObject: ScriptObject)
  {
    forall j :: job.startIndex <= j < |job.tasks| && IsParentOf(newObject, job.tasks[j]) ==>
      IsMasterDetailParentOf(job.tasks[j], newObject)
  }

  // ---------------------------------------------------------------- one step

  /** The empty-list branch of the source behaves exactly as the general splice branch. */
  lemma EmptyBranchIsSplice(job: JobState, newObject: ScriptObject)
    requires job.startIndex <= |job.tasks|
    requires !newObject.isReadonlyObject
    ensures Step(job, newObject) == SpliceIn(job, newObject)
  {
    if |job.tasks| == 0 {
      assert InsertionIndex(job.tasks, job.startIndex, newObject) == 0;
      assert job.tasks[..0] + [newObject] + job.tasks[0..] == job.tasks + [newObject];
    }
  }

  /** A step inserts the new task at `InsertedAt` and leaves every other task
      where it was relative to the others: the tasks before the point are
      untouched and the ones after it shift by one. Read-only tasks go to the
      front; other tasks never land inside the read-only prefix. */
  lemma StepOnlyInserts(job: JobState, newObject: ScriptObject)
    requires job.startIndex <= |job.tasks|
    ensures var k := InsertedAt(job, newObject);
      var t := Step(job, newObject).tasks;
      && t[k] == newObject
      && t[..k] == job.tasks[..k]
      && t[k + 1..] == job.tasks[k..]
    ensures newObject.isReadonlyObject ==> InsertedAt(job, newObject) == 0
    ensures !newObject.isReadonlyObject ==> job.startIndex <= InsertedAt(job, newObject)
  {
    var k := InsertedAt(job, newObject);
    var t := Step(job, newObject).tasks;
    if !newObject.isReadonlyObject {
      EmptyBranchIsSplice(job, newObject);
      assert t == job.tasks[..k] + [newObject] + job.tasks[k..];
    }
  }

  lemma InsertKeepsOthers<T>(s: seq<T>, t: seq<T>, k: nat, x: T)
    requires k < |t| == |s| + 1
    requires t[k] == x && t[..k] == s[..k] && t[k + 1..] == s[k..]
    ensures multiset(t) == multiset(s) + multiset{x}
  {
    assert t == t[..k] + [x] + t[k + 1..];
    assert s == s[..k] + s[k..];
  }

  /** A step adds exactly one task, the new object, and removes none. */
  lemma StepPermutes(job: JobState, newObject: ScriptObject)
    requires job.startIndex <= |job.tasks|
    ensures multiset(Step(job, newObject).tasks) == multiset(job.tasks) + multiset{newObject}
  {
    StepOnlyInserts(job, newObject);
    InsertKeepsOthers(job.tasks, Step(job, newObject).tasks, InsertedAt(job, newObject), newObject);
  }

  /** The positions the old tasks move to when one task is inserted at `k`. */
  function ShiftAt(n: nat, k: nat): (f: seq<nat>)
    ensures |f| == n
    ensures forall i :: 0 <= i < n ==> f[i] == (if i < k then i else i + 1)
  {
    seq(n, i => if i < k then i else i + 1)
  }

  /** The tasks before the step keep their relative order after it. */
  lemma StepPreservesOrder(job: JobState, newObject: ScriptObject)
    requires job.startIndex <= |job.tasks|
    ensures IsEmbedding(ShiftAt(|job.tasks|, InsertedAt(job, newObject)), job.tasks, Step(job, newObject).tasks)
  {
    var k := InsertedAt(job, newObject);
    var t := Step(job, newObject).tasks;
    var f := ShiftAt(|job.tasks|, k);
    StepOnlyInserts(job, newObject);
    forall i | 0 <= i < |f|
      ensures f[i] < |t| && t[f[i]] == job.tasks[i]
    {
      if i < k {
        assert t[..k][i] == job.tasks[..k][i];
      } else {
        assert t[k + 1..][i - k] == job.tasks[k..][i - k];
      }
    }
  }

  /** The read-only prefix is kept by every step. */
  lemma StepKeepsReadonlyPrefix(job: JobState, newObject: ScriptObject)
    requires HasReadonlyPrefix(job)
    ensures HasReadonlyPrefix(Step(job, newObject))
  {
    var k := InsertedAt(job, newObject);
    var r := Step(job, newObject);
    StepOnlyInserts(job, newObject);
    forall i | 0 <= i < |r.tasks|
      ensures r.tasks[i].isReadonlyObject <==> i < r.startIndex
    {
      if i < k {
        assert r.tasks[..k][i] == job.tasks[..k][i];
      } else if i > k {
        assert r.tasks[k + 1..][i - k - 1] == job.tasks[k..][i - k - 1];
      }
    }
  }

  /** Right after a non-read-only object is inserted, it precedes every task of
      the non-read-only region that lists it as a parent, unless that task is
      one of its master-detail parents; and the first such task, if any, is
      the one it was placed directly before. */
  lemma NewTaskPrecedesDependents(job: JobState, newObject: ScriptObject)
    requires job.startIndex <= |job.tasks|
    requires !newObject.isReadonlyObject
    ensures var k := InsertedAt(job, newObject);
      var t := Step(job, newObject).tasks;
      && (forall j :: job.startIndex <= j < |t| && j != k && PullsBefore(t[j], newObject) ==> k < j)
      && (k + 1 < |t| ==> PullsBefore(t[k + 1], newObject))
  {
    var k := InsertedAt(job, newObject);
    var t := Step(job, newObject).tasks;
    StepOnlyInserts(job, newObject);
    forall j | job.startIndex <= j < k
      ensures !PullsBefore(t[j], newObject)
    {
      assert t[j] == t[..k][j] == job.tasks[..k][j];
    }
    if k + 1 < |t| {
      assert t[k + 1..][0] == job.tasks[k..][0];
      if |job.tasks| == 0 {
        assert false;
      }
    }
  }

  /** A master-detail parent of the new object never decides where it goes:
      the task the new object is placed before is never one of its
      master-detail parents, and when every task that lists the new object as
      a parent is such a master-detail parent, the new object is appended. */
  lemma MasterDetailParentNeverPulls(job: JobState, newObject: ScriptObject)
    requires job.startIndex <= |job.tasks|
    requires !newObject.isReadonlyObject
    ensures var k := InsertedAt(job, newObject);
      k < |job.tasks| ==> !IsMasterDetailParentOf(job.tasks[k], newObject)
    ensures OnlyMasterDetailDependents(job, newObject) ==> Step(job, newObject).tasks == job.tasks + [newObject]
  {
    var k := InsertedAt(job, newObject);
    StepOnlyInserts(job, newObject);
    if OnlyMasterDetailDependents(job, newObject) {
      assert k == |job.tasks|;
      var t := Step(job, newObject).tasks;
      assert t == t[..k] + [t[k]] + t[k + 1..];
    }
  }

  /** The backward scan reads nothing below `lo`: two task lists that agree
      from `lo` on yield the same insertion point. */
  lemma {:induction false} ScanIgnoresPrefix(a: seq<ScriptObject>, b: seq<ScriptObject>, lo: nat, newObject: ScriptObject)
    requires lo <= |a| == |b|
    requires a[lo..] == b[lo..]
    ensures InsertionIndex(a, lo, newObject) == InsertionIndex(b, lo, newObject)
    decreases |a| - lo
  {
    if lo < |a| {
      assert a[lo] == a[lo..][0] == b[lo..][0] == b[lo];
      assert a[lo + 1..] == a[lo..][1..];
      assert b[lo + 1..] == b[lo..][1..];
      ScanIgnoresPrefix(a, b, lo + 1, newObject);
    }
  }

  /** The insertion point is the smallest qualifying index at or after `lo`,
      and it is the end of the list exactly when no task there qualifies. */
  lemma InsertionIndexIsLeast(tasks: seq<ScriptObject>, lo: nat, newObject: ScriptObject, i: nat)
    requires lo <= i <= |tasks|
    requires i < |tasks| ==> PullsBefore(tasks[i], newObject)
    requires forall j :: lo <= j < i ==> !PullsBefore(tasks[j], newObject)
    ensures InsertionIndex(tasks, lo, newObject) == i
  {
  }

  // ---------------------------------------------------------- the whole pass

  /** The job after `n + 1` objects is one step on from the job after `n`. */
  lemma BuildPrefixStep(objects: seq<ScriptObject>, n: nat)
    requires n < |objects|
    ensures BuildState(objects[..n + 1]) == Step(BuildState(objects[..n]), objects[n])
  {
    assert objects[..n + 1][..n] == objects[..n];
  }

  lemma {:induction false} BuildIsPermutation(objects: seq<ScriptObject>)
    ensures multiset(Build(objects)) == multiset(objects)
  {
    if |objects| > 0 {
      var init := objects[..|objects| - 1];
      BuildIsPermutation(init);
      StepPermutes(BuildState(init), objects[|objects| - 1]);
      assert objects == init + [objects[|objects| - 1]];
    }
  }

  lemma {:induction false} BuildHasReadonlyPrefix(objects: seq<ScriptObject>)
    ensures HasReadonlyPrefix(BuildState(objects))
  {
    if |objects| > 0 {
      var init := objects[..|objects| - 1];
      BuildHasReadonlyPrefix(init);
      StepKeepsReadonlyPrefix(BuildState(init), objects[|objects| - 1]);
    }
  }

  lemma ReadonlyStepExtendsPrefix(job: JobState, newObject: ScriptObject)
    requires job.startIndex <= |job.tasks|
    requires newObject.isReadonlyObject
    ensures var r := Step(job, newObject);
      r.tasks[..r.startIndex] == [newObject] + job.tasks[..job.startIndex]
  {
  }

  lemma OtherStepKeepsPrefix(job: JobState, newObject: ScriptObject)
    requires job.startIndex <= |job.tasks|
    requires !newObject.isReadonlyObject
    ensures var r := Step(job, newObject);
      r.tasks[..r.startIndex] == job.tasks[..job.startIndex]
  {
    var k := InsertedAt(job, newObject);
    var t := Step(job, newObject).tasks;
    StepOnlyInserts(job, newObject);
    assert t[..job.startIndex] == t[..k][..job.startIndex];
    assert job.tasks[..job.startIndex] == job.tasks[..k][..job.startIndex];
  }

  /** The read-only prefix holds the read-only objects in reverse declaration order. */
  lemma {:induction false} ReadonlyPrefixIsReversed(objects: seq<ScriptObject>)
    ensures var job := BuildState(objects);
      job.tasks[..job.startIndex] == Reverse(ReadonlyOf(objects))
  {
    if |objects| > 0 {
      var init := objects[..|objects| - 1];
      var last := objects[|objects| - 1];
      ReadonlyPrefixIsReversed(init);
      if last.isReadonlyObject {
        ReadonlyStepExtendsPrefix(BuildState(init), last);
        var ro := ReadonlyOf(objects);
        assert ro == ReadonlyOf(init) + [last];
        assert ro[..|ro| - 1] == ReadonlyOf(init);
      } else {
        OtherStepKeepsPrefix(BuildState(init), last);
        assert ReadonlyOf(objects) == ReadonlyOf(init) + [];
      }
    }
  }

  lemma IdentityEmbeds<T>(s: seq<T>)
    ensures IsEmbedding(ShiftAt(|s|, |s|), s, s)
  {
  }

  lemma ComposeEmbeddings<T>(f: seq<nat>, g: seq<nat>, a: seq<T>, b: seq<T>, c: seq<T>) returns (h: seq<nat>)
    requires IsEmbedding(f, a, b)
    requires IsEmbedding(g, b, c)
    ensures IsEmbedding(h, a, c)
  {
    h := seq(|f|, i requires 0 <= i < |f| => g[f[i]]);
  }

  /** Later objects never reorder the tasks placed for earlier ones: the job
      after the first `n` objects is a subsequence of the finished job. */
  lemma {:induction false} BuildPreservesOrder(objects: seq<ScriptObject>, n: nat)
    requires n <= |objects|
    ensures exists f :: IsEmbedding(f, Build(objects[..n]), Build(objects))
    decreases |objects| - n
  {
    if n == |objects| {
      assert objects[..n] == objects;
      IdentityEmbeds(Build(objects));
    } else {
      BuildPreservesOrder(objects, n + 1);
      var g :| IsEmbedding(g, Build(objects[..n + 1]), Build(objects));
      BuildPrefixStep(objects, n);
      var job := BuildState(objects[..n]);
      StepPreservesOrder(job, objects[n]);
      assert job.tasks == Build(objects[..n]);
      var f := ComposeEmbeddings(ShiftAt(|job.tasks|, InsertedAt(job, objects[n])), g,
                                 Build(objects[..n]), Build(objects[..n + 1]), Build(objects));
      assert IsEmbedding(f, Build(objects[..n]), Build(objects));
    }
  }
}
