/**
 * Concrete stores: the seed taxonomy and seed organisations of
 * app/seed_data.py (keys in creation order), and two small stores showing what
 * the nesting check does not rule out when a parent key names no stored row.
 */
module Scenarios {
  import opened Wrappers
  import opened Models
  import opened ActivityService
  import opened Store
  import opened OrganizationService

  const Food := Activity(1, "Еда", None)
  const Transport := Activity(2, "Транспорт", None)
  const Services := Activity(3, "Услуги", None)
  const Meat := Activity(4, "Мясная продукция", Some(1))
  const Dairy := Activity(5, "Молочная продукция", Some(1))
  const Bakery := Activity(6, "Хлебобулочные изделия", Some(1))
  const Cars := Activity(7, "Автомобили", Some(2))
  const Trucks := Activity(8, "Грузовые", Some(7))
  const Passenger := Activity(9, "Легковые", Some(7))
  const Repair := Activity(10, "Ремонт", Some(3))
  const Consulting := Activity(11, "Консультации", Some(3))

  /** The seed activity table in insertion order. */
  const Seed: seq<Activity> :=
    [Food, Transport, Services, Meat, Dairy, Bakery, Cars, Trucks, Passenger, Repair, Consulting]

  const HornsAndHooves := Organization(1, "ООО Рога и Копыта", 1,
    [Phone(1, "8-495-123-45-67"), Phone(2, "8-495-234-56-78")], [Meat, Dairy])
  const AutoWorld := Organization(3, "ЗАО АвтоМир", 3,
    [Phone(4, "8-495-456-78-90"), Phone(5, "8-495-567-89-01")], [Cars, Trucks])
  const Sidorov := Organization(7, "ИП Сидоров С.С.", 2,
    [Phone(2, "8-495-234-56-78")], [Passenger])

  const SeedOrganizations: seq<Organization> := [HornsAndHooves, AutoWorld, Sidorov]

  /** When exactly the rows at keys [i, j) of the table point at `p`, those rows are its children. */
  lemma ChildrenBlock(acts: seq<Activity>, p: int, i: int, j: int)
    requires 0 <= i <= j <= |acts|
    requires forall k :: 0 <= k < |acts| ==> (acts[k].parent == Some(p) <==> i <= k < j)
    ensures Children(acts, p) == acts[i..j]
  {
    FilterBlock(acts, (c: Activity) => c.parent == Some(p), i, j);
  }

  /** The seed rows that point at Еда, Транспорт and Автомобили. */
  lemma SeedChildren()
    ensures Children(Seed, Food.id) == [Meat, Dairy, Bakery]
    ensures Children(Seed, Transport.id) == [Cars]
    ensures Children(Seed, Cars.id) == [Trucks, Passenger]
  {
    ChildrenBlock(Seed, Food.id, 3, 6);
    ChildrenBlock(Seed, Transport.id, 6, 7);
    ChildrenBlock(Seed, Cars.id, 7, 9);
  }

  /** No seed row points at a child of a root other than Автомобили. */
  lemma SeedLeaves()
    ensures forall k :: 3 <= k < 6 || 7 <= k < |Seed| ==> Children(Seed, Seed[k].id) == []
  {
    forall k | 3 <= k < 6 || 7 <= k < |Seed|
      ensures Children(Seed, Seed[k].id) == []
    {
      ChildrenBlock(Seed, Seed[k].id, 0, 0);
    }
  }

  /** Транспорт expands to its child Автомобили, then Автомобили's children in store order. */
  lemma SeedTransportExpansion()
    ensures Expand(Seed, Transport.id, 1, MaxLevel) == [Cars, Trucks, Passenger]
  {
    SeedChildren();
    SeedLeaves();
    assert Seed[7] == Trucks && Seed[8] == Passenger;
    assert Expand(Seed, Trucks.id, 3, MaxLevel) == [];
    assert Expand(Seed, Passenger.id, 3, MaxLevel) == [];
    assert ExpandAll(Seed, [Trucks, Passenger], 3, MaxLevel) == [] by {
      assert [Trucks, Passenger][..1] == [Trucks];
      assert ExpandAll(Seed, [Trucks], 3, MaxLevel) == [] by {
        assert [Trucks][..0] == [];
      }
    }
    assert Expand(Seed, Cars.id, 2, MaxLevel) == [Trucks, Passenger];
    assert ExpandAll(Seed, [Cars], 2, MaxLevel) == [Trucks, Passenger] by {
      assert [Cars][..0] == [];
    }
  }

  /** Seed keys follow insertion order, so they are distinct primary keys. */
  lemma SeedKeys()
    ensures forall k :: 0 <= k < |Seed| ==> Seed[k].id == k + 1
    ensures WellKeyed(Seed)
  {
  }

  /** Roots are level 1, and the chain Транспорт, Автомобили, Грузовые reaches level 3. */
  lemma SeedLevels()
    ensures LevelWithin(Seed, Transport.id, 0) == Some(1)
    ensures LevelWithin(Seed, Cars.id, 1) == Some(2)
    ensures LevelWithin(Seed, Trucks.id, 2) == Some(3)
  {
    SeedFinds();
    TransportChainLevels(Seed);
  }

  /** The seed rows the level and nesting scenarios look up by key. */
  lemma SeedFinds()
    ensures GetActivityById(Seed, Transport.id) == Some(Transport)
    ensures GetActivityById(Seed, Cars.id) == Some(Cars)
    ensures GetActivityById(Seed, Trucks.id) == Some(Trucks)
  {
    SeedLookup(1);
    SeedLookup(6);
    SeedLookup(7);
  }

  /** The row at position `k` of the seed table is the one stored under key `k + 1`. */
  lemma SeedLookup(k: int)
    requires 0 <= k < |Seed|
    ensures GetActivityById(Seed, k + 1) == Some(Seed[k])
  {
    SeedKeys();
    GetActivityByIdFinds(Seed, k);
  }

  /** In any table storing the chain Транспорт, Автомобили, Грузовые under their keys, its levels are 1, 2, 3. */
  lemma TransportChainLevels(acts: seq<Activity>)
    requires GetActivityById(acts, Transport.id) == Some(Transport)
    requires GetActivityById(acts, Cars.id) == Some(Cars)
    requires GetActivityById(acts, Trucks.id) == Some(Trucks)
    ensures LevelWithin(acts, Transport.id, 0) == Some(1)
    ensures LevelWithin(acts, Cars.id, 1) == Some(2)
    ensures LevelWithin(acts, Trucks.id, 2) == Some(3)
  {
    LevelOfRoot(acts, Transport.id, Transport, 0);
    LevelOfParent(acts, Cars.id, Cars, 0);
    LevelOfParent(acts, Trucks.id, Trucks, 1);
  }

  /** A row whose parent is a stored root is at level 2. */
  lemma ChildOfRootLevel(acts: seq<Activity>, a: Activity, r: Activity)
    requires a.parent == Some(r.id) && r.id != 0
    requires GetActivityById(acts, r.id) == Some(r) && r.parent.None?
    ensures Walk(acts, Some(a), MaxLevel - 1) == Some(2)
  {
  }

  /** A row whose parent is at level 2 is at level 3. */
  lemma GrandchildLevel(acts: seq<Activity>, a: Activity, p: Activity, r: Activity)
    requires a.parent == Some(p.id) && p.id != 0
    requires GetActivityById(acts, p.id) == Some(p)
    requires p.parent == Some(r.id) && r.id != 0
    requires GetActivityById(acts, r.id) == Some(r) && r.parent.None?
    ensures Walk(acts, Some(a), MaxLevel - 1) == Some(3)
  {
  }

  /** Every seed row reaches a root within two parent steps. */
  lemma SeedRowCapped(i: int)
    requires 0 <= i < |Seed|
    ensures Walk(Seed, Some(Seed[i]), MaxLevel - 1).Some?
  {
    SeedKeys();
    GetActivityByIdFinds(Seed, 0);
    GetActivityByIdFinds(Seed, 1);
    GetActivityByIdFinds(Seed, 2);
    GetActivityByIdFinds(Seed, 6);
    if i == 3 { ChildOfRootLevel(Seed, Meat, Food); }
    else if i == 4 { ChildOfRootLevel(Seed, Dairy, Food); }
    else if i == 5 { ChildOfRootLevel(Seed, Bakery, Food); }
    else if i == 6 { ChildOfRootLevel(Seed, Cars, Transport); }
    else if i == 7 { GrandchildLevel(Seed, Trucks, Cars, Transport); }
    else if i == 8 { GrandchildLevel(Seed, Passenger, Cars, Transport); }
    else if i == 9 { ChildOfRootLevel(Seed, Repair, Services); }
    else if i == 10 { ChildOfRootLevel(Seed, Consulting, Services); }
  }

  /** The seed taxonomy satisfies the depth cap. */
  lemma SeedDepthCapped()
    ensures DepthCapped(Seed)
  {
    forall i | 0 <= i < |Seed|
      ensures Walk(Seed, Some(Seed[i]), MaxLevel - 1).Some?
    {
      SeedRowCapped(i);
    }
  }

  /** A child of Грузовые (level 3) is refused; a child of Автомобили (level 2) is not. */
  lemma SeedNestingCheck()
    ensures LevelWithin(Seed, Trucks.id, 2).Some? && RejectsParent(Seed, Some(Trucks.id), 2)
    ensures LevelWithin(Seed, Cars.id, 1).Some? && !RejectsParent(Seed, Some(Cars.id), 1)
  {
    SeedLevels();
    SeedFinds();
  }

  /** A query for Транспорт accepts Транспорт and the three activities below it. */
  lemma SeedTransportScope()
    ensures ActivityScope(Seed, Transport.id) == [2, 7, 8, 9]
  {
    SeedTransportExpansion();
    TransportScopeOf(Seed);
  }

  /** Whenever Транспорт expands to Автомобили, Грузовые, Легковые, the ids accepted for it are 2, 7, 8, 9. */
  lemma TransportScopeOf(acts: seq<Activity>)
    requires Expand(acts, Transport.id, 1, MaxLevel) == [Cars, Trucks, Passenger]
    ensures ActivityScope(acts, Transport.id) == [2, 7, 8, 9]
  {
    var ids := ActivityIds([Cars, Trucks, Passenger]);
    assert ids[0] == 7 && ids[1] == 8 && ids[2] == 9;
    assert [Transport.id] + ids == [2, 7, 8, 9];
  }

  /** Of the seed organisations, АвтоМир and Сидоров serve one of the ids 2, 7, 8, 9. */
  lemma SeedTransportServed(ids: seq<int>)
    requires ids == [2, 7, 8, 9]
    ensures Filter(SeedOrganizations, (o: Organization) => ServesAny(o, ids)) == [AutoWorld, Sidorov]
  {
    var keep := (o: Organization) => ServesAny(o, ids);
    assert !keep(HornsAndHooves);
    assert keep(AutoWorld) by { assert Cars in AutoWorld.activities; }
    assert keep(Sidorov) by { assert Passenger in Sidorov.activities; }
    assert SeedOrganizations == [HornsAndHooves] + [AutoWorld, Sidorov];
    FilterAppend([HornsAndHooves], [AutoWorld, Sidorov], keep);
    FilterNothing([HornsAndHooves], keep);
    FilterEverything([AutoWorld, Sidorov], keep);
  }

  /** A query for Транспорт finds the organisations linked to its descendants, in store order. */
  lemma SeedTransportOrganizations()
    ensures GetOrganizationsByActivity(Seed, SeedOrganizations, Transport.id) == [AutoWorld, Sidorov]
  {
    SeedTransportScope();
    SeedTransportServed(ActivityScope(Seed, Transport.id));
  }

  /**
   * Two seed organisations sharing a phone number, created on an empty store:
   * the second reuses the first one's row, and activity ids naming no stored
   * row are dropped.
   */
  method SeedSharedPhone() returns (first: Organization, second: Organization)
    ensures |first.phones| == 2 && |second.phones| == 1
    ensures second.phones[0] == first.phones[0] && first.phones[0] != first.phones[1]
    ensures first.activities == [] && second.activities == []
  {
    var db := new Database();
    first := CreateOrganization(db, HornsAndHooves.name, 1, ["8-495-123-45-67", "8-495-234-56-78"], [Meat.id, Dairy.id]);
    second := CreateOrganization(db, "ООО Молочные продукты", 1, ["8-495-123-45-67"], [Dairy.id]);
  }

  /** A row whose parent key is its own key. */
  const Looped := Activity(1, "X", Some(1))

  /** On the loop the level walk never ends: no fuel suffices. */
  lemma {:induction false} LoopedLevelDiverges(fuel: nat)
    ensures LevelWithin([Looped], Looped.id, fuel).None?
  {
    assert GetActivityById([Looped], Looped.id) == Some(Looped);
    if fuel > 0 {
      LoopedLevelDiverges(fuel - 1);
    }
  }

  /**
   * On an empty table the parent key 1, the next free key, passes the check,
   * and the row it inserts (key 1, parent 1) is its own parent and breaks the
   * depth cap; the expansion of the loop still stops, after MaxLevel rounds.
   */
  lemma SelfParentedOnEmptyTable()
    ensures !RejectsParent([], Some(1), 0)
    ensures !DepthCapped([Looped])
    ensures Expand([Looped], Looped.id, 1, MaxLevel) == [Looped, Looped, Looped]
  {
    LoopedLevelDiverges(MaxLevel - 1);
    assert GetActivityById([Looped], Looped.id) == Some(Looped);
    ChildrenBlock([Looped], Looped.id, 0, 1);
    assert [Looped][0..1] == [Looped];
    assert [Looped][..0] == [];
    assert Expand([Looped], Looped.id, 3, MaxLevel) == [Looped];
    assert Expand([Looped], Looped.id, 2, MaxLevel) == [Looped, Looped];
  }

  /** A depth-capped table whose row 1 names the absent key 3 as its parent, and row 2 hangs below row 1. */
  const DanglingTable := [Activity(1, "A", Some(3)), Activity(2, "B", Some(1))]

  /** The next row, key 3, with the dangling parent key 4. */
  const Orphan := Activity(3, "C", Some(4))

  /**
   * A dangling parent key breaks the cap even when the new row is not its own
   * parent: row 1 already names key 3, so inserting `Orphan` under key 3 puts
   * row 2 four levels deep (2, 1, 3, then the missing 4).
   */
  lemma DanglingParentBreaksCap()
    ensures DepthCapped(DanglingTable)
    ensures !RejectsParent(DanglingTable, Orphan.parent, 0)
    ensures Orphan.parent.value != Orphan.id
    ensures !Unreferenced(DanglingTable, Orphan.id)
    ensures !DepthCapped(DanglingTable + [Orphan])
  {
    var a, b := DanglingTable[0], DanglingTable[1];
    assert GetActivityById(DanglingTable, 1) == Some(a);
    assert DanglingTable[1..] == [b];
    assert GetActivityById([b], 3).None? && GetActivityById([b], 4).None?;
    assert GetActivityById(DanglingTable, 3).None?;
    assert GetActivityById(DanglingTable, 4).None?;
    var t := DanglingTable + [Orphan];
    assert t[1..] == [b, Orphan] && [b, Orphan][1..] == [Orphan];
    assert GetActivityById(t, 1) == Some(a);
    assert GetActivityById([Orphan], 3) == Some(Orphan);
    assert GetActivityById([b, Orphan], 3) == Some(Orphan);
    assert GetActivityById(t, 3) == Some(Orphan);
    assert Walk(t, Some(Orphan), 0).None?;
    assert Walk(t, Some(a), 1).None?;
    assert t[1] == b && Walk(t, Some(b), 2).None?;
  }

  /**
   * On any table without key `k`, a new row whose parent key is `k` itself
   * passes the nesting check and is inserted under `k`. Its parent key then
   * names a stored row, so a parent foreign key is satisfied, yet the row is
   * its own parent and breaks the depth cap.
   */
  lemma SelfParentedInsert(acts: seq<Activity>, k: int, name: string)
    requires k != 0 && GetActivityById(acts, k).None?
    ensures !RejectsParent(acts, Some(k), 0)
    ensures GetActivityById(acts + [Activity(k, name, Some(k))], k) == Some(Activity(k, name, Some(k)))
    ensures !DepthCapped(acts + [Activity(k, name, Some(k))])
  {
    var n := Activity(k, name, Some(k));
    GetActivityByIdAppend(acts, n, k);
    SelfParentedDiverges(acts + [n], n, MaxLevel - 1);
    assert (acts + [n])[|acts|] == n;
  }

  /** The level walk from a stored row that is its own parent never ends. */
  lemma {:induction false} SelfParentedDiverges(t: seq<Activity>, n: Activity, fuel: nat)
    requires n.id != 0 && n.parent == Some(n.id) && GetActivityById(t, n.id) == Some(n)
    ensures Walk(t, Some(n), fuel).None?
  {
    if fuel > 0 {
      SelfParentedDiverges(t, n, fuel - 1);
    }
  }
}
