/** Small declaration lists worked through the scheduler, with the order the
    code produces for each. */
module Scenarios {
  import opened ScriptObjects
  import opened JobBuilder
  import opened JobProperties

  lemma BuildSnoc(objects: seq<ScriptObject>, o: ScriptObject)
    ensures BuildState(objects + [o]) == Step(BuildState(objects), o)
  {
    assert (objects + [o])[..|objects|] == objects;
  }

  const AccountObject := ScriptObject("Account", false, [], [])
  const ContactObject := ScriptObject("Contact", false, ["Account"], [])
  const RecordTypeObject := ScriptObject("RecordType", true, [], [])
  const LineItemObject := ScriptObject("OpportunityLineItem", false, ["Opportunity"], [])
  const OpportunityObject := ScriptObject("Opportunity", false, ["Account"], [])

  lemma SalesStepContact()
    ensures Step(JobState([AccountObject], 0), ContactObject) == JobState([AccountObject, ContactObject], 0)
  {
    InsertionIndexIsLeast([AccountObject], 0, ContactObject, 1);
    assert [AccountObject][..1] + [ContactObject] + [AccountObject][1..] == [AccountObject, ContactObject];
  }

  lemma SalesStepLineItem()
    ensures Step(JobState([RecordTypeObject, AccountObject, ContactObject], 1), LineItemObject)
         == JobState([RecordTypeObject, AccountObject, ContactObject, LineItemObject], 1)
  {
    var s3 := [RecordTypeObject, AccountObject, ContactObject];
    assert !PullsBefore(s3[1], LineItemObject) && !PullsBefore(s3[2], LineItemObject);
    InsertionIndexIsLeast(s3, 1, LineItemObject, 3);
    assert s3[..3] + [LineItemObject] + s3[3..] == s3 + [LineItemObject];
  }

  lemma SalesStepOpportunity()
    ensures Step(JobState([RecordTypeObject, AccountObject, ContactObject, LineItemObject], 1), OpportunityObject)
         == JobState([RecordTypeObject, AccountObject, ContactObject, OpportunityObject, LineItemObject], 1)
  {
    var s4 := [RecordTypeObject, AccountObject, ContactObject, LineItemObject];
    assert !PullsBefore(s4[1], OpportunityObject) && !PullsBefore(s4[2], OpportunityObject);
    assert PullsBefore(s4[3], OpportunityObject);
    InsertionIndexIsLeast(s4, 1, OpportunityObject, 3);
    assert s4[..3] + [OpportunityObject] + s4[3..]
        == [RecordTypeObject, AccountObject, ContactObject, OpportunityObject, LineItemObject];
  }

  lemma SalesAfterTwo()
    ensures BuildState([AccountObject, ContactObject]) == JobState([AccountObject, ContactObject], 0)
  {
    BuildSnoc([], AccountObject);
    assert [] + [AccountObject] == [AccountObject];
    BuildSnoc([AccountObject], ContactObject);
    assert [AccountObject] + [ContactObject] == [AccountObject, ContactObject];
    SalesStepContact();
  }

  lemma SalesAfterThree()
    ensures BuildState([AccountObject, ContactObject, RecordTypeObject])
         == JobState([RecordTypeObject, AccountObject, ContactObject], 1)
  {
    SalesAfterTwo();
    BuildSnoc([AccountObject, ContactObject], RecordTypeObject);
    assert [AccountObject, ContactObject] + [RecordTypeObject] == [AccountObject, ContactObject, RecordTypeObject];
    assert [RecordTypeObject] + [AccountObject, ContactObject] == [RecordTypeObject, AccountObject, ContactObject];
  }

  lemma SalesAfterFour()
    ensures BuildState([AccountObject, ContactObject, RecordTypeObject, LineItemObject])
         == JobState([RecordTypeObject, AccountObject, ContactObject, LineItemObject], 1)
  {
    SalesAfterThree();
    BuildSnoc([AccountObject, ContactObject, RecordTypeObject], LineItemObject);
    assert [AccountObject, ContactObject, RecordTypeObject] + [LineItemObject]
        == [AccountObject, ContactObject, RecordTypeObject, LineItemObject];
    SalesStepLineItem();
  }

  /** Account, Contact(->Account), RecordType (read-only),
      OpportunityLineItem(->Opportunity), Opportunity(->Account). Opportunity
      is spliced in directly before OpportunityLineItem, and Contact keeps the
      place it was appended to. */
  lemma SalesScenario()
    ensures Build([AccountObject, ContactObject, RecordTypeObject, LineItemObject, OpportunityObject])
         == [RecordTypeObject, AccountObject, ContactObject, OpportunityObject, LineItemObject]
  {
    SalesAfterFour();
    BuildSnoc([AccountObject, ContactObject, RecordTypeObject, LineItemObject], OpportunityObject);
    assert [AccountObject, ContactObject, RecordTypeObject, LineItemObject] + [OpportunityObject]
        == [AccountObject, ContactObject, RecordTypeObject, LineItemObject, OpportunityObject];
    SalesStepOpportunity();
  }

  /** A parent declared after its child is placed directly before it. */
  lemma ParentDeclaredLate()
    ensures
      var child := ScriptObject("Child", false, ["Parent"], []);
      var parent := ScriptObject("Parent", false, [], []);
      Build([child, parent]) == [parent, child]
  {
  }

  /** B lists A as a parent, but B is a master-detail parent of A, so A is
      not pulled in front of B. */
  lemma MasterDetailOverride()
    ensures
      var b := ScriptObject("B", false, ["A"], []);
      var a := ScriptObject("A", false, ["B"], ["B"]);
      Build([b, a]) == [b, a]
  {
  }

  /** Read-only objects R1, R2, R3 end up as R3, R2, R1. */
  lemma ReadonlyReversed()
    ensures
      var r1 := ScriptObject("R1", true, [], []);
      var r2 := ScriptObject("R2", true, [], []);
      var r3 := ScriptObject("R3", true, [], []);
      Build([r1, r2, r3]) == [r3, r2, r1]
  {
    var r1 := ScriptObject("R1", true, [], []);
    var r2 := ScriptObject("R2", true, [], []);
    var r3 := ScriptObject("R3", true, [], []);
    BuildSnoc([], r1);
    assert [] + [r1] == [r1];
    BuildSnoc([r1], r2);
    assert [r1] + [r2] == [r1, r2];
    assert BuildState([r1, r2]) == JobState([r2, r1], 2);
    BuildSnoc([r1, r2], r3);
    assert [r1, r2] + [r3] == [r1, r2, r3];
    assert [r3] + [r2, r1] == [r3, r2, r1];
  }

  /** A read-only task that lists a later object as a parent stays ahead of
      it: the scan stops at `startIndex`, so the read-only prefix is never
      considered. */
  lemma ReadonlyDependentStaysAhead()
    ensures
      var r := ScriptObject("R", true, ["X"], []);
      var x := ScriptObject("X", false, [], []);
      Build([r, x]) == [r, x]
  {
    var r := ScriptObject("R", true, ["X"], []);
    var x := ScriptObject("X", false, [], []);
    BuildSnoc([], r);
    assert [] + [r] == [r];
    BuildSnoc([r], x);
    assert [r] + [x] == [r, x];
    InsertionIndexIsLeast([r], 1, x, 1);
    assert [r][..1] + [x] + [r][1..] == [r, x];
  }
}
