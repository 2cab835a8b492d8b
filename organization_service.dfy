/**
 * The organisation queries and organisation creation of the service layer
 * (app/services.py, class OrganizationService). Queries are filters over the
 * organisation table in store order; creation upserts phone rows by number,
 * resolves activity ids against the store and inserts one organisation row.
 */
module OrganizationService {
  import opened Wrappers
  import opened Models
  import opened Store
  import opened ActivityService

  // ---------------------------------------------------------------------------
  // By building
  // ---------------------------------------------------------------------------

  /** The organisations whose building key equals `buildingId`, in store order. */
  function GetOrganizationsByBuilding(orgs: seq<Organization>, buildingId: int): (r: seq<Organization>)
    ensures |r| <= |orgs|
    ensures forall o :: o in r <==> o in orgs && o.buildingId == buildingId
  {
    var keep := (o: Organization) => o.buildingId == buildingId;
    FilterKeeps(orgs, keep);
    Filter(orgs, keep)
  }

  /**
   * The per-building listings partition the table: every organisation is listed
   * under its own building and under no other one.
   */
  lemma ByBuildingPartition(orgs: seq<Organization>, o: Organization, buildingId: int)
    requires o in orgs
    ensures o in GetOrganizationsByBuilding(orgs, o.buildingId)
    ensures buildingId != o.buildingId ==> o !in GetOrganizationsByBuilding(orgs, buildingId)
  {
  }

  /** Appending an organisation row extends exactly the listing of its own building. */
  lemma ByBuildingAfterInsert(orgs: seq<Organization>, o: Organization, buildingId: int)
    ensures GetOrganizationsByBuilding(orgs + [o], buildingId) ==
            GetOrganizationsByBuilding(orgs, buildingId) + (if o.buildingId == buildingId then [o] else [])
  {
    var keep := (x: Organization) => x.buildingId == buildingId;
    FilterAppend(orgs, [o], keep);
    assert Filter([o], keep) == (if keep(o) then [o] else []) + Filter([], keep);
  }

  // ---------------------------------------------------------------------------
  // By activity, including the activities below it
  // ---------------------------------------------------------------------------

  /** The activity ids a query for `activityId` accepts: itself, then its expansion. */
  function ActivityScope(acts: seq<Activity>, activityId: int): (ids: seq<int>)
    ensures |ids| == 1 + |Expand(acts, activityId, 1, MaxLevel)|
    ensures ids[0] == activityId
  {
    [activityId] + ActivityIds(Expand(acts, activityId, 1, MaxLevel))
  }

  /** `x` is the queried activity or the id of a row at most MaxLevel generations below it. */
  ghost predicate InScope(acts: seq<Activity>, activityId: int, x: int) {
    x == activityId || exists d :: WithinGenerations(acts, d, activityId, MaxLevel) && d.id == x
  }

  lemma ScopeMembers(acts: seq<Activity>, activityId: int, x: int)
    ensures x in ActivityScope(acts, activityId) <==> InScope(acts, activityId, x)
  {
    var e := Expand(acts, activityId, 1, MaxLevel);
    var ids := ActivityScope(acts, activityId);
    if x in ids && x != activityId {
      var i :| 0 <= i < |ids| && ids[i] == x;
      assert i >= 1;
      assert e[i - 1].id == x;
      ExpandMembers(acts, activityId, 1, MaxLevel, e[i - 1]);
      assert WithinGenerations(acts, e[i - 1], activityId, MaxLevel);
    }
    if InScope(acts, activityId, x) && x != activityId {
      var d :| WithinGenerations(acts, d, activityId, MaxLevel) && d.id == x;
      ExpandMembers(acts, activityId, 1, MaxLevel, d);
      var i :| 0 <= i < |e| && e[i] == d;
      assert ids[i + 1] == x;
    }
  }

  /** Some activity of `o` has its id in `ids`. */
  predicate ServesAny(o: Organization, ids: seq<int>) {
    exists a :: a in o.activities && a.id in ids
  }

  /** Organisations linked to `activityId` or to an activity in its expansion, in store order. */
  function GetOrganizationsByActivity(acts: seq<Activity>, orgs: seq<Organization>, activityId: int): (r: seq<Organization>)
    ensures |r| <= |orgs|
  {
    var ids := ActivityScope(acts, activityId);
    Filter(orgs, (o: Organization) => ServesAny(o, ids))
  }

  /**
   * An organisation is returned iff it is stored and one of its activities is
   * the queried one or lies at most MaxLevel generations below it.
   */
  lemma ByActivityMembers(acts: seq<Activity>, orgs: seq<Organization>, activityId: int, o: Organization)
    ensures o in GetOrganizationsByActivity(acts, orgs, activityId) <==>
            o in orgs && exists a :: a in o.activities && InScope(acts, activityId, a.id)
  {
    var ids := ActivityScope(acts, activityId);
    FilterMembers(orgs, (x: Organization) => ServesAny(x, ids), o);
    if ServesAny(o, ids) {
      var a :| a in o.activities && a.id in ids;
      ScopeMembers(acts, activityId, a.id);
    }
    if exists a :: a in o.activities && InScope(acts, activityId, a.id) {
      var a :| a in o.activities && InScope(acts, activityId, a.id);
      ScopeMembers(acts, activityId, a.id);
    }
  }

  /** Under the depth cap no stored row has anything three generations below it. */
  lemma NoThirdGeneration(acts: seq<Activity>, c: Activity, a: Activity)
    requires WellKeyed(acts)
    requires DepthCapped(acts)
    requires c in acts
    ensures !Descendant(acts, a, c.id, MaxLevel)
  {
    if Descendant(acts, a, c.id, MaxLevel) {
      GetActivityByIdStored(acts, c);
      CappedRow(acts, c);
      DescendantLevel(acts, a, c.id, MaxLevel, MaxLevel - 1);
      DescendantStored(acts, a, c.id, MaxLevel);
      CappedRow(acts, a);
      WalkMonotone(acts, Some(a), MaxLevel - 1, 2 * MaxLevel - 1);
      assert false;
    }
  }

  /** Under the depth cap, everything a child's query accepts its parent's query accepts. */
  lemma ScopeNarrows(acts: seq<Activity>, c: Activity, p: int, x: int)
    requires WellKeyed(acts)
    requires DepthCapped(acts)
    requires IsChild(acts, c, p)
    requires InScope(acts, c.id, x)
    ensures InScope(acts, p, x)
  {
    if x == c.id {
      assert Descendant(acts, c, p, 1);
      assert WithinGenerations(acts, c, p, MaxLevel);
    } else {
      var d :| WithinGenerations(acts, d, c.id, MaxLevel) && d.id == x;
      var k: nat :| 1 <= k <= MaxLevel && Descendant(acts, d, c.id, k);
      NoThirdGeneration(acts, c, d);
      assert k < MaxLevel;
      assert Descendant(acts, d, p, k + 1);
      assert WithinGenerations(acts, d, p, MaxLevel);
    }
  }

  /** Under the depth cap, the result for a child activity is contained in the result for its parent. */
  lemma ByActivityNarrows(acts: seq<Activity>, orgs: seq<Organization>, c: Activity, p: int, o: Organization)
    requires WellKeyed(acts)
    requires DepthCapped(acts)
    requires IsChild(acts, c, p)
    requires o in GetOrganizationsByActivity(acts, orgs, c.id)
    ensures o in GetOrganizationsByActivity(acts, orgs, p)
  {
    ByActivityMembers(acts, orgs, c.id, o);
    var a :| a in o.activities && InScope(acts, c.id, a.id);
    ScopeNarrows(acts, c, p, a.id);
    ByActivityMembers(acts, orgs, p, o);
  }

  // ---------------------------------------------------------------------------
  // Bounding rectangle
  // ---------------------------------------------------------------------------

  /** Both coordinates of `b` lie in the closed rectangle. */
  predicate InRectangle(b: Building, minLat: real, maxLat: real, minLon: real, maxLon: real) {
    minLat <= b.latitude <= maxLat && minLon <= b.longitude <= maxLon
  }

  /**
   * The organisations whose building (joined by key) lies in the closed
   * rectangle; an organisation whose building row is missing drops out of the join.
   */
  function GetOrganizationsInRectangle(orgs: seq<Organization>, buildings: seq<Building>,
                                       minLat: real, maxLat: real, minLon: real, maxLon: real): (r: seq<Organization>)
    ensures |r| <= |orgs|
    ensures forall o :: o in r <==> o in orgs && exists b ::
              && b in buildings && b.id == o.buildingId
              && minLat <= b.latitude && b.latitude <= maxLat && minLon <= b.longitude && b.longitude <= maxLon
  {
    var keep := (o: Organization) =>
      exists b :: b in buildings && b.id == o.buildingId && InRectangle(b, minLat, maxLat, minLon, maxLon);
    FilterKeeps(orgs, keep);
    Filter(orgs, keep)
  }

  /** An inverted bound on either axis selects nothing. */
  lemma RectangleInvertedIsEmpty(orgs: seq<Organization>, buildings: seq<Building>,
                                 minLat: real, maxLat: real, minLon: real, maxLon: real)
    requires minLat > maxLat || minLon > maxLon
    ensures GetOrganizationsInRectangle(orgs, buildings, minLat, maxLat, minLon, maxLon) == []
  {
    var keep := (o: Organization) =>
      exists b :: b in buildings && b.id == o.buildingId && InRectangle(b, minLat, maxLat, minLon, maxLon);
    FilterNothing(orgs, keep);
  }

  /** Widening the rectangle never loses an organisation. */
  lemma RectangleWidens(orgs: seq<Organization>, buildings: seq<Building>,
                         minLat: real, maxLat: real, minLon: real, maxLon: real,
                         minLat': real, maxLat': real, minLon': real, maxLon': real, o: Organization)
    requires minLat' <= minLat && maxLat <= maxLat' && minLon' <= minLon && maxLon <= maxLon'
    requires o in GetOrganizationsInRectangle(orgs, buildings, minLat, maxLat, minLon, maxLon)
    ensures o in GetOrganizationsInRectangle(orgs, buildings, minLat', maxLat', minLon', maxLon')
  {
  }

  /** The rectangle result is the union of the building listings of the buildings inside it. */
  lemma RectangleByBuildings(orgs: seq<Organization>, buildings: seq<Building>,
                             minLat: real, maxLat: real, minLon: real, maxLon: real, o: Organization)
    ensures o in GetOrganizationsInRectangle(orgs, buildings, minLat, maxLat, minLon, maxLon) <==>
            exists b :: b in buildings && InRectangle(b, minLat, maxLat, minLon, maxLon) &&
                        o in GetOrganizationsByBuilding(orgs, b.id)
  {
  }

  // ---------------------------------------------------------------------------
  // Creation
  // ---------------------------------------------------------------------------

  /** The lookup of a phone by number: the first stored row carrying it. */
  function GetPhoneByNumber(phones: seq<Phone>, number: string): (r: Option<Phone>)
    ensures r.Some? ==> r.value in phones && r.value.number == number
    ensures r.None? ==> forall i :: 0 <= i < |phones| ==> phones[i].number != number
  {
    if phones == [] then None
    else if phones[0].number == number then Some(phones[0])
    else GetPhoneByNumber(phones[1..], number)
  }

  /** The lookup fails exactly when no stored row carries the number. */
  lemma GetPhoneByNumberMissing(phones: seq<Phone>, number: string)
    ensures GetPhoneByNumber(phones, number).None? <==> forall i :: 0 <= i < |phones| ==> phones[i].number != number
  {
    var r := GetPhoneByNumber(phones, number);
    if r.Some? {
      var j :| 0 <= j < |phones| && phones[j] == r.value;
      assert phones[j].number == number;
    }
  }

  /** A lookup in a longer table answers from the prefix whenever the prefix has the number. */
  lemma {:induction false} GetPhoneByNumberAppend(phones: seq<Phone>, extra: seq<Phone>, number: string)
    ensures GetPhoneByNumber(phones + extra, number) ==
            if GetPhoneByNumber(phones, number).Some? then GetPhoneByNumber(phones, number)
            else GetPhoneByNumber(extra, number)
  {
    if phones != [] {
      assert (phones + extra)[0] == phones[0];
      assert (phones + extra)[1..] == phones[1..] + extra;
      GetPhoneByNumberAppend(phones[1..], extra, number);
    } else {
      assert phones + extra == extra;
    }
  }

  /** The activity rows whose id is requested, in store order; unknown ids contribute nothing. */
  function ResolveActivities(acts: seq<Activity>, activityIds: seq<int>): (r: seq<Activity>)
    ensures |r| <= |acts|
    ensures forall a :: a in r ==> a in acts
  {
    var keep := (a: Activity) => a.id in activityIds;
    FilterKeeps(acts, keep);
    Filter(acts, keep)
  }

  /** Like the `IN` query, the resolution attaches each stored row at most once. */
  lemma ResolveActivitiesDistinct(acts: seq<Activity>, activityIds: seq<int>)
    requires WellKeyed(acts)
    ensures Distinct(ResolveActivities(acts, activityIds))
  {
    WellKeyedDistinct(acts);
    FilterDistinct(acts, (a: Activity) => a.id in activityIds);
  }

  /** The resolved ids are exactly the requested ids that name a stored activity. */
  lemma ResolveActivitiesIds(acts: seq<Activity>, activityIds: seq<int>, x: int)
    ensures x in ActivityIds(ResolveActivities(acts, activityIds)) <==>
            x in activityIds && GetActivityById(acts, x).Some?
  {
    var keep := (a: Activity) => a.id in activityIds;
    var r := ResolveActivities(acts, activityIds);
    var ids := ActivityIds(r);
    if x in ids {
      var i :| 0 <= i < |ids| && ids[i] == x;
      FilterMembers(acts, keep, r[i]);
      var j :| 0 <= j < |acts| && acts[j] == r[i];
    }
    if x in activityIds && GetActivityById(acts, x).Some? {
      var a := GetActivityById(acts, x).value;
      FilterMembers(acts, keep, a);
      var i :| 0 <= i < |r| && r[i] == a;
      assert ids[i] == x;
    }
  }

  /**
   * One step of the phone upsert: reuses the stored row with `number`, or
   * inserts a fresh row under the next phone key.
   */
  method UpsertPhone(db: Database, number: string) returns (phone: Phone)
    requires db.Valid()
    modifies db
    ensures db.Valid()
    ensures GetPhoneByNumber(db.phones, number) == Some(phone)
    ensures GetPhoneByNumber(old(db.phones), number).Some? ==>
              phone == GetPhoneByNumber(old(db.phones), number).value &&
              db.phones == old(db.phones) && db.nextPhoneId == old(db.nextPhoneId)
    ensures GetPhoneByNumber(old(db.phones), number).None? ==>
              phone == Phone(old(db.nextPhoneId), number) &&
              db.phones == old(db.phones) + [phone] && db.nextPhoneId == old(db.nextPhoneId) + 1
    ensures KeepsLookups(old(db.phones), db.phones)
    ensures db.activities == old(db.activities) && db.buildings == old(db.buildings)
    ensures db.organizations == old(db.organizations)
    ensures db.nextActivityId == old(db.nextActivityId) && db.nextOrganizationId == old(db.nextOrganizationId)
  {
    var existing := GetPhoneByNumber(db.phones, number);
    if existing.Some? {
      phone := existing.value;
    } else {
      phone := Phone(db.nextPhoneId, number);
      var before := db.phones;
      forall x
        ensures GetPhoneByNumber(before + [phone], x) ==
                if GetPhoneByNumber(before, x).Some? then GetPhoneByNumber(before, x) else GetPhoneByNumber([phone], x)
      {
        GetPhoneByNumberAppend(before, [phone], x);
      }
      PhonesKeyedAppend(before, db.nextPhoneId, phone);
      LinkedGrow(db.organizations, before, [phone], db.activities, []);
      assert db.activities + [] == db.activities;
      db.phones := before + [phone];
      db.nextPhoneId := db.nextPhoneId + 1;
    }
  }

  /** Every number `before` knows is looked up to the same row in `after`. */
  ghost predicate KeepsLookups(before: seq<Phone>, after: seq<Phone>) {
    forall x :: GetPhoneByNumber(before, x).Some? ==> GetPhoneByNumber(after, x) == GetPhoneByNumber(before, x)
  }

  /**
   * `after` is `before` followed by rows with consecutive keys from `firstId`,
   * each carrying a number from `numbers` that `before` does not hold.
   */
  ghost predicate AppendsNew(before: seq<Phone>, after: seq<Phone>, firstId: int, numbers: seq<string>) {
    && |before| <= |after|
    && after[..|before|] == before
    && forall j :: |before| <= j < |after| ==>
         && after[j].id == firstId + (j - |before|)
         && after[j].number in numbers
         && GetPhoneByNumber(before, after[j].number).None?
  }

  /** Chaining: lookups kept twice in a row are kept once. */
  lemma KeepsLookupsTrans(start: seq<Phone>, before: seq<Phone>, after: seq<Phone>)
    requires KeepsLookups(start, before) && KeepsLookups(before, after)
    ensures KeepsLookups(start, after)
  {
  }

  /** Appending one row for a number the table lacks extends AppendsNew by that row. */
  lemma AppendsNewStep(start: seq<Phone>, before: seq<Phone>, p: Phone, firstId: int, numbers: seq<string>)
    requires KeepsLookups(start, before) && AppendsNew(start, before, firstId, numbers)
    requires p.id == firstId + (|before| - |start|) && p.number in numbers
    requires GetPhoneByNumber(before, p.number).None?
    ensures AppendsNew(start, before + [p], firstId, numbers)
  {
    var after := before + [p];
    assert after[..|start|] == before[..|start|];
    assert GetPhoneByNumber(start, p.number).None?;
    forall j | |start| <= j < |after|
      ensures after[j].id == firstId + (j - |start|)
      ensures after[j].number in numbers
      ensures GetPhoneByNumber(start, after[j].number).None?
    {
      if j < |before| {
        assert after[j] == before[j];
      }
    }
  }

  /**
   * The phone table and counter went from `start`/`startNext` to
   * `after`/`afterNext` by upserting numbers from `numbers`.
   */
  ghost predicate PhonesGrown(start: seq<Phone>, startNext: int, numbers: seq<string>, after: seq<Phone>, afterNext: int) {
    && KeepsLookups(start, after)
    && AppendsNew(start, after, startNext, numbers)
    && afterNext == startNext + (|after| - |start|)
  }

  /** One upsert of a number from `numbers` extends PhonesGrown. */
  lemma PhonesGrownStep(start: seq<Phone>, startNext: int, numbers: seq<string>,
                        before: seq<Phone>, beforeNext: int, after: seq<Phone>, afterNext: int,
                        number: string, phone: Phone)
    requires PhonesGrown(start, startNext, numbers, before, beforeNext)
    requires number in numbers && KeepsLookups(before, after)
    requires GetPhoneByNumber(before, number).Some? ==> after == before && afterNext == beforeNext
    requires GetPhoneByNumber(before, number).None? ==>
               phone == Phone(beforeNext, number) && after == before + [phone] && afterNext == beforeNext + 1
    ensures PhonesGrown(start, startNext, numbers, after, afterNext)
  {
    KeepsLookupsTrans(start, before, after);
    if GetPhoneByNumber(before, number).None? {
      AppendsNewStep(start, before, phone, startNext, numbers);
    }
  }

  /** `phones[j]` is the row `table` stores for `numbers[j]`, for every j. */
  ghost predicate LooksUp(table: seq<Phone>, numbers: seq<string>, phones: seq<Phone>) {
    && |phones| == |numbers|
    && forall j :: 0 <= j < |numbers| ==> GetPhoneByNumber(table, numbers[j]) == Some(phones[j])
  }

  /** A step of the phone loop: kept lookups stay valid, and the new number's row is added. */
  lemma LooksUpStep(before: seq<Phone>, after: seq<Phone>, numbers: seq<string>, phones: seq<Phone>,
                    number: string, phone: Phone)
    requires LooksUp(before, numbers, phones) && KeepsLookups(before, after)
    requires GetPhoneByNumber(after, number) == Some(phone)
    ensures LooksUp(after, numbers + [number], phones + [phone])
  {
    var ns, ps := numbers + [number], phones + [phone];
    forall j | 0 <= j < |ns|
      ensures GetPhoneByNumber(after, ns[j]) == Some(ps[j])
    {
      if j < |numbers| {
        assert ns[j] == numbers[j] && ps[j] == phones[j];
        assert GetPhoneByNumber(before, numbers[j]).Some?;
      }
    }
  }

  /**
   * The phone loop of organisation creation: the i-th returned row is the row
   * stored for the i-th number, rows already stored are reused, and only
   * unknown numbers get new rows, appended in order under consecutive keys.
   */
  method UpsertPhones(db: Database, phoneNumbers: seq<string>) returns (phones: seq<Phone>)
    requires db.Valid()
    modifies db
    ensures db.Valid()
    ensures |phones| == |phoneNumbers|
    ensures forall i :: 0 <= i < |phoneNumbers| ==> GetPhoneByNumber(db.phones, phoneNumbers[i]) == Some(phones[i])
    ensures KeepsLookups(old(db.phones), db.phones)
    ensures AppendsNew(old(db.phones), db.phones, old(db.nextPhoneId), phoneNumbers)
    ensures db.nextPhoneId == old(db.nextPhoneId) + (|db.phones| - |old(db.phones)|)
    ensures db.activities == old(db.activities) && db.buildings == old(db.buildings)
    ensures db.organizations == old(db.organizations)
    ensures db.nextActivityId == old(db.nextActivityId) && db.nextOrganizationId == old(db.nextOrganizationId)
  {
    phones := [];
    for i := 0 to |phoneNumbers|
      invariant db.Valid()
      invariant db.activities == old(db.activities) && db.buildings == old(db.buildings)
      invariant db.organizations == old(db.organizations)
      invariant db.nextActivityId == old(db.nextActivityId) && db.nextOrganizationId == old(db.nextOrganizationId)
      invariant LooksUp(db.phones, phoneNumbers[..i], phones)
      invariant PhonesGrown(old(db.phones), old(db.nextPhoneId), phoneNumbers, db.phones, db.nextPhoneId)
    {
      ghost var before, beforeNext := db.phones, db.nextPhoneId;
      assert phoneNumbers[..i + 1] == phoneNumbers[..i] + [phoneNumbers[i]];
      var phone := UpsertPhone(db, phoneNumbers[i]);
      PhonesGrownStep(old(db.phones), old(db.nextPhoneId), phoneNumbers, before, beforeNext,
                      db.phones, db.nextPhoneId, phoneNumbers[i], phone);
      LooksUpStep(before, db.phones, phoneNumbers[..i], phones, phoneNumbers[i], phone);
      phones := phones + [phone];
    }
    assert phoneNumbers[..|phoneNumbers|] == phoneNumbers;
  }

  /**
   * Creates an organisation: each phone number reuses the stored row with that
   * number or gets a fresh row, the requested activity ids are resolved against
   * the store, and the building key is stored as given.
   */
  method CreateOrganization(db: Database, name: string, buildingId: int,
                            phoneNumbers: seq<string>, activityIds: seq<int>) returns (org: Organization)
    requires db.Valid()
    modifies db
    ensures db.Valid()
    ensures org.id == old(db.nextOrganizationId) && org.name == name && org.buildingId == buildingId
    ensures |org.phones| == |phoneNumbers|
    ensures forall i :: 0 <= i < |phoneNumbers| ==> org.phones[i].number == phoneNumbers[i]
    ensures forall i :: 0 <= i < |phoneNumbers| ==> GetPhoneByNumber(db.phones, phoneNumbers[i]) == Some(org.phones[i])
    ensures KeepsLookups(old(db.phones), db.phones)
    ensures AppendsNew(old(db.phones), db.phones, old(db.nextPhoneId), phoneNumbers)
    ensures org.activities == ResolveActivities(old(db.activities), activityIds)
    ensures db.organizations == old(db.organizations) + [org]
    ensures db.nextOrganizationId == old(db.nextOrganizationId) + 1
    ensures db.nextPhoneId == old(db.nextPhoneId) + (|db.phones| - |old(db.phones)|)
    ensures db.activities == old(db.activities) && db.buildings == old(db.buildings)
    ensures db.nextActivityId == old(db.nextActivityId)
  {
    var phones := UpsertPhones(db, phoneNumbers);
    var activities := ResolveActivities(db.activities, activityIds);
    org := Organization(db.nextOrganizationId, name, buildingId, phones, activities);
    OrganizationsKeyedAppend(db.organizations, db.nextOrganizationId, org);
    LinkedAppend(db.organizations, db.phones, db.activities, org);
    db.organizations := db.organizations + [org];
    db.nextOrganizationId := db.nextOrganizationId + 1;
  }
}
