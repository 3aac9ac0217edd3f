/** The part of a script object that the migration-job scheduler looks at.

    A script object is one sObject declared in the job's script. The scheduler
    only ever compares objects by name, so the relationship lists are kept as
    the names of the related objects. No relation between the two lists is
    assumed: a master-detail parent need not also be listed as a parent, and
    names need not be unique within one script.
 */
module ScriptObjects {

  datatype ScriptObject = ScriptObject(
    name: string,
    isReadonlyObject: bool,
    /** names of the objects this object looks up (any relationship) */
    parentObjects: seq<string>,
    /** names of the objects this object is a detail of */
    parentMasterDetailObjects: seq<string>)

  /** `existing` lists `newObject` among its parents: the new object is a parent of the existing task. */
  predicate IsParentOf(newObject: ScriptObject, existing: ScriptObject)
  {
    newObject.name in existing.parentObjects
  }

  /** `existing` is one of the master-detail parents of `newObject`. */
  predicate IsMasterDetailParentOf(existing: ScriptObject, newObject: ScriptObject)
  {
    existing.name in newObject.parentMasterDetailObjects
  }

  /** The test the backward scan applies to an existing task: the new object goes
      before `existing` when it is a parent of it and `existing` is not a
      master-detail parent of the new object. */
  predicate PullsBefore(existing: ScriptObject, newObject: ScriptObject)
  {
    IsParentOf(newObject, existing) && !IsMasterDetailParentOf(existing, newObject)
  }
}
