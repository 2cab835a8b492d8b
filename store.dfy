/**
 * The relational store behind a session: the four tables the services read
 * and write, and the autoincrement counter of each table that gets inserts.
 */
module Store {
  import opened Models

  /** Activity keys are distinct primary keys below the table's counter. */
  ghost predicate ActivitiesKeyed(activities: seq<Activity>, next: int) {
    && WellKeyed(activities)
    && (forall i :: 0 <= i < |activities| ==> activities[i].id < next)
    && next >= 1
  }

  /** Phone keys are distinct and below the counter, and no two rows share a number. */
  ghost predicate PhonesKeyed(phones: seq<Phone>, next: int) {
    && (forall i :: 0 <= i < |phones| ==> 1 <= phones[i].id < next)
    && (forall i, j :: 0 <= i < j < |phones| ==> phones[i].id != phones[j].id)
    && (forall i, j :: 0 <= i < j < |phones| ==> phones[i].number != phones[j].number)
    && next >= 1
  }

  /** Organisation keys are distinct and below the counter. */
  ghost predicate OrganizationsKeyed(organizations: seq<Organization>, next: int) {
    && (forall i :: 0 <= i < |organizations| ==> 1 <= organizations[i].id < next)
    && (forall i, j :: 0 <= i < j < |organizations| ==> organizations[i].id != organizations[j].id)
    && next >= 1
  }

  /** Every phone and activity an organisation is linked to is a stored row. */
  ghost predicate Linked(organizations: seq<Organization>, phones: seq<Phone>, activities: seq<Activity>) {
    && (forall i, j :: 0 <= i < |organizations| && 0 <= j < |organizations[i].phones| ==>
          organizations[i].phones[j] in phones)
    && (forall i, j :: 0 <= i < |organizations| && 0 <= j < |organizations[i].activities| ==>
          organizations[i].activities[j] in activities)
  }

  /** Inserting a row under the next key keeps the activity keys distinct. */
  lemma ActivitiesKeyedAppend(activities: seq<Activity>, next: int, a: Activity)
    requires ActivitiesKeyed(activities, next) && a.id == next
    ensures ActivitiesKeyed(activities + [a], next + 1)
  {
    var after := activities + [a];
    assert forall i :: 0 <= i < |activities| ==> after[i] == activities[i];
  }

  /** Inserting a row with a new number under the next key keeps the phone table keyed. */
  lemma PhonesKeyedAppend(phones: seq<Phone>, next: int, p: Phone)
    requires PhonesKeyed(phones, next) && p.id == next
    requires forall i :: 0 <= i < |phones| ==> phones[i].number != p.number
    ensures PhonesKeyed(phones + [p], next + 1)
  {
    var after := phones + [p];
    assert forall i :: 0 <= i < |phones| ==> after[i] == phones[i];
  }

  /** Inserting an organisation under the next key keeps the organisation keys distinct. */
  lemma OrganizationsKeyedAppend(organizations: seq<Organization>, next: int, o: Organization)
    requires OrganizationsKeyed(organizations, next) && o.id == next
    ensures OrganizationsKeyed(organizations + [o], next + 1)
  {
    var after := organizations + [o];
    assert forall i :: 0 <= i < |organizations| ==> after[i] == organizations[i];
  }

  /** Links stay valid when the phone or activity table grows at the end. */
  lemma LinkedGrow(organizations: seq<Organization>, phones: seq<Phone>, morePhones: seq<Phone>,
                   activities: seq<Activity>, moreActivities: seq<Activity>)
    requires Linked(organizations, phones, activities)
    ensures Linked(organizations, phones + morePhones, activities + moreActivities)
  {
  }

  /** Appending an organisation whose links are stored rows keeps every link valid. */
  lemma LinkedAppend(organizations: seq<Organization>, phones: seq<Phone>, activities: seq<Activity>, o: Organization)
    requires Linked(organizations, phones, activities)
    requires forall j :: 0 <= j < |o.phones| ==> o.phones[j] in phones
    requires forall j :: 0 <= j < |o.activities| ==> o.activities[j] in activities
    ensures Linked(organizations + [o], phones, activities)
  {
    var after := organizations + [o];
    assert forall i :: 0 <= i < |organizations| ==> after[i] == organizations[i];
  }

  class Database {
    var activities: seq<Activity>
    var buildings: seq<Building>
    var phones: seq<Phone>
    var organizations: seq<Organization>
    var nextActivityId: int
    var nextPhoneId: int
    var nextOrganizationId: int

    /**
     * Keys are distinct and below their counter, phone numbers are unique,
     * and the relations of every organization point at stored rows.
     */
    ghost predicate Valid()
      reads this
    {
      && ActivitiesKeyed(activities, nextActivityId)
      && PhonesKeyed(phones, nextPhoneId)
      && OrganizationsKeyed(organizations, nextOrganizationId)
      && Linked(organizations, phones, activities)
    }

    /** An empty store whose counters all start at 1. */
    constructor ()
      ensures Valid()
      ensures activities == [] && buildings == [] && phones == [] && organizations == []
      ensures nextActivityId == 1 && nextPhoneId == 1 && nextOrganizationId == 1
    {
      activities, buildings, phones, organizations := [], [], [], [];
      nextActivityId, nextPhoneId, nextOrganizationId := 1, 1, 1;
    }
  }
}
