# OrgAtlas service layer, modelled and verified in Dafny

OrgAtlas is a directory of organisations. Each organisation sits in one
building, has phone numbers and is linked to activities. The activities form a
taxonomy: each activity has an optional parent, and nesting is capped at three
levels. This project models the service layer of the repository
(`app/services.py`) over an in-memory relational store and proves properties
of that model:

- the activity taxonomy: lookup by key, the depth-bounded descendant
  expansion, the level walk up the parent chain, and creation with its nesting
  check;
- the organisation queries: by building, by activity (together with the
  activities below it) and by bounding rectangle;
- organisation creation: phone numbers are upserted, activity ids are resolved
  against the store, and the building key is stored unchecked.

## Layout

| file | module | contents |
|---|---|---|
| `wrappers.dfy` | `Wrappers` | `Option` and `Result` |
| `models.dfy` | `Models` | the rows (`Activity`, `Building`, `Phone`, `Organization`), parent-key truthiness, a generic filter with its lemmas, the primary-key predicate |
| `store.dfy` | `Store` | `class Database`: the four tables as `seq` fields, one autoincrement counter per inserting table, and the invariant `Valid()`, built from one predicate per table and the lemmas that keep each across an insertion |
| `activity_service.dfy` | `ActivityService` | `get_activity_by_id`, `get_all_child_activities`, `get_activity_level`, `create_activity` |
| `organization_service.dfy` | `OrganizationService` | `get_organizations_by_building`, `get_organizations_by_activity`, `get_organizations_in_rectangle`, `create_organization` |
| `scenarios.dfy` | `Scenarios` | the seed taxonomy of `app/seed_data.py` as concrete lemmas, and the insertions the nesting check lets through although they break the depth cap: a self-parented row and a dangling parent key |

## Modelling choices

- A query result is a filter over a table in store (insertion) order. The
  source gives no `ORDER BY`, so this is the order the model fixes.
- Read-only services are functions over the table sequences. Services that
  insert rows are methods on a `Database` with `modifies db`. Every method
  keeps `Valid()`: keys are distinct and below their counter, phone numbers
  are unique (`app/models.py:27`), and an organisation's phones and activities
  are stored rows.
- A parent key is `Option<int>`. Like Python, `create_activity` and
  `get_activity_level` treat `Some(0)` as "no parent" (`Truthy`). The
  children query compares keys with SQL equality, so it does match parent key 0.
- `get_activity_level` has no bound and never ends on a cyclic parent chain.
  Its spec function `Walk` takes a fuel argument and answers `None` when the
  fuel runs out. `GetActivityLevel` and `CreateActivity` take a ghost `fuel`
  and require that the walk ends within it. Only the proof uses the fuel: the
  loop itself is the source's unbounded loop.
- The `ValueError` of `create_activity` is `Failure(MaxNestingExceeded)`.
- Coordinates are `real`, and the rectangle bounds are inclusive.
- The services never check that a parent key names a stored row, and nothing
  in the model enforces foreign keys. A dangling parent key can break the
  depth cap when a stored row already names the new key as its parent
  (`Scenarios.DanglingParentBreaksCap`). A parent key equal to the next free
  key breaks it too (`Scenarios.SelfParentedOnEmptyTable`). An enforced
  self-referencing foreign key would not stop that: the key is checked once
  the row exists, so the row names itself (`Scenarios.SelfParentedInsert`).
  The lemma that creation keeps the cap therefore assumes two things: no
  stored row names the new key as its parent, and the new row is not its own
  parent.

## Model

| member | source | states |
|---|---|---|
| ActivityService.GetActivityById | app/services.py:128-130 | A found row is stored and has the requested key; `None` means no stored row has that key |
| ActivityService.GetActivityByIdMissing | app/services.py:128-130 | The lookup gives `None` exactly when no stored row has that key |
| ActivityService.GetActivityByIdAppend | app/services.py:128-130 | After a row is appended, a lookup answers from the old table when the key was there, and otherwise finds the new row exactly when its key matches |
| ActivityService.GetActivityByIdFinds | app/services.py:128-130 | With distinct keys, looking up a stored row's key returns that row |
| ActivityService.Children | app/services.py:139 | The direct children are never more than the stored rows; which rows they are is stated by `ChildrenMembers` |
| ActivityService.ChildrenMembers | app/services.py:139 | A row is among the children of `p` exactly when it is stored and its parent key equals `p` |
| ActivityService.Expand | app/services.py:135-145 | Definition of one call of the recursive helper with its level counter; no contract of its own, its meaning is stated by `ExpandMembers` and `ExpandLevels` |
| ActivityService.ExpandMembers | app/services.py:135-145 | A row is in the expansion started at counter `currentLevel` exactly when it lies 1 to `maxLevel - currentLevel + 1` generations below the start |
| ActivityService.ExpandAll | app/services.py:142-143 | Definition of the loop over the children, concatenating their expansions in order; no contract of its own, its meaning is stated by `ExpandAllMembers` |
| ActivityService.ExpandAllMembers | app/services.py:142-143 | A row is in the expansion of a child list exactly when it lies within the remaining generations below one of the children |
| ActivityService.ExpandEmpty | app/services.py:136-139 | The expansion is empty exactly when the counter is above `max_level` or the start has no children |
| ActivityService.ExpandAllAppend | app/services.py:142-143 | Expanding a concatenated child list gives the two expansions concatenated, so the order is each child's expansion in child order |
| ActivityService.UnknownIdHasNoDescendants | app/services.py:135-145 | When every parent key resolves, an unknown start key has an empty expansion |
| ActivityService.GetChildrenRecursive | app/services.py:135-145 | The loop-and-recursion result is exactly the expansion: children in store order, then each child's own expansion in that order; it terminates on any graph, cycles included |
| ActivityService.GetAllChildActivities | app/services.py:133-147 | Starts at counter 1; a row is returned exactly when it lies 1 to `max_level` generations below `parent_id`; `max_level < 1` gives `[]` |
| ActivityService.DescendantStored | app/services.py:139 | A descendant at any generation is a stored row |
| ActivityService.Walk | app/services.py:169-176 | A walk that ends reports a level between 1 and fuel + 1 |
| ActivityService.LevelWithin | app/services.py:167-176 | A level the walk reports lies between 1 and fuel + 1; an unknown key gives level 1 |
| ActivityService.WalkMonotone | app/services.py:172-174 | More fuel never changes the level of a walk that has ended |
| ActivityService.WalkUnique | app/services.py:172-174 | Any two fuels that both suffice give the same level |
| ActivityService.WalkSteps | app/services.py:172-174 | A walk reporting level `l` ends with exactly `l - 1` fuel and needs no less, so the loop runs once per ancestor |
| ActivityService.LevelOfChild | app/services.py:172-174 | A row with a truthy parent key is one level below its parent's level; a dangling parent key still counts one step (level 2) |
| ActivityService.LevelOfRoot | app/services.py:169-171 | A stored row without a truthy parent key (none, or 0) is at level 1, whatever the fuel |
| ActivityService.LevelOfParent | app/services.py:172-174 | A stored row with a truthy parent key is exactly one level below that parent key's level |
| ActivityService.GetActivityLevel | app/services.py:167-176 | The loop returns the walk's level; it is at least 1, and an unknown key gives 1 |
| ActivityService.DepthCapped | app/services.py:153-158 | Definition of the depth cap the nesting check maintains: every stored row's walk ends within two parent steps; no contract of its own, its consequence is stated by `LevelAtMostCap` |
| ActivityService.LevelAtMostCap | app/services.py:153-158 | Under the depth cap every level is at most 3 |
| ActivityService.DescendantLevel | app/services.py:167-176 | A row `k` generations below a start at level `L` is at level `L + k` |
| ActivityService.ExpandLevels | app/services.py:133-147 | Every row of the expansion of a start at level `L` is at level `L + 1` to `L + max_level`, so on acyclic data the start is never in its own expansion |
| ActivityService.GenerationLevels | app/services.py:133-147 | The same level bounds stated over the generations below the start |
| ActivityService.DescendantNotStart | app/services.py:133-147 | A descendant of a start whose level walk ends never has the start's key |
| ActivityService.AncestorLevel | app/services.py:169-176 | An ancestor `k` parent links up is exactly `k` levels above, and its walk ends with `k` less fuel |
| ActivityService.AncestorNotInExpansion | app/services.py:133-147 | On a finite chain the expansion of a stored row never contains any of its ancestors |
| ActivityService.RejectsParent | app/services.py:153-158 | Definition of the nesting check: the parent key is truthy, names a stored row, and that row's level is at least 3; no contract of its own, `CreateActivity` states that it fails exactly then |
| ActivityService.CreateActivity | app/services.py:150-164 | Fails exactly when the parent key is truthy, names a stored row and that row is at level 3 or more, and then inserts nothing; otherwise appends exactly one row under the next key and changes nothing else; `Valid()` is kept |
| ActivityService.WalkAfterInsert | app/services.py:160-164 | Appending a row that no stored row names as parent leaves every stored row's level unchanged |
| ActivityService.CreatedLevel | app/services.py:153-164 | If no stored row names the new key as its parent, the new row is not its own parent, and its parent's walk ends within the fuel, then the inserted row is one level below its parent, or at level 1 without a truthy parent |
| ActivityService.CreateActivityKeepsDepthCap | app/services.py:153-164 | An insertion the nesting check accepts keeps every row at level at most 3, provided no stored row names the new key as its parent and the new row is not its own parent |
| OrganizationService.GetOrganizationsByBuilding | app/services.py:11-13 | An organisation is returned exactly when it is stored and its building key equals the requested one |
| OrganizationService.ByBuildingPartition | app/services.py:11-13 | Every organisation is listed under its own building and under no other |
| OrganizationService.ByBuildingAfterInsert | app/services.py:11-13 | Inserting an organisation extends only its own building's listing, at the end |
| OrganizationService.ActivityScope | app/services.py:19-20 | The accepted ids begin with the queried id and have one more entry than the expansion |
| OrganizationService.ScopeMembers | app/services.py:19-20 | An id is accepted exactly when it is the queried id or the key of a row at most 3 generations below it |
| OrganizationService.GetOrganizationsByActivity | app/services.py:16-24 | The result is never longer than the stored organisations; which ones it holds is stated by `ByActivityMembers` |
| OrganizationService.ByActivityMembers | app/services.py:16-24 | An organisation is returned exactly when it is stored and one of its activities is the queried one or lies at most 3 generations below it |
| OrganizationService.NoThirdGeneration | app/services.py:153-158 | Under the depth cap no stored row has a row three generations below it |
| OrganizationService.ScopeNarrows | app/services.py:16-24 | Under the depth cap every id a child's query accepts is accepted by its parent's query |
| OrganizationService.ByActivityNarrows | app/services.py:16-24 | Under the depth cap the result for a child activity is contained in the result for its parent |
| OrganizationService.GetOrganizationsInRectangle | app/services.py:44-54 | An organisation is returned exactly when it is stored and its building row satisfies `min_lat <= lat <= max_lat` and `min_lon <= lon <= max_lon`; one without a building row is not returned |
| OrganizationService.RectangleInvertedIsEmpty | app/services.py:44-54 | `min > max` on either axis gives an empty result |
| OrganizationService.RectangleWidens | app/services.py:44-54 | A larger rectangle never loses an organisation |
| OrganizationService.RectangleByBuildings | app/services.py:44-54 | The rectangle result is the union of the building listings of the buildings inside the rectangle |
| OrganizationService.GetPhoneByNumber | app/services.py:74 | A found row is stored and has the number; `None` means no stored row has the number |
| OrganizationService.GetPhoneByNumberMissing | app/services.py:74 | The lookup gives `None` exactly when no stored row has the number |
| OrganizationService.GetPhoneByNumberAppend | app/services.py:74 | After rows are appended, a lookup answers from the old table whenever the old table has the number |
| OrganizationService.ResolveActivities | app/services.py:84 | The attached activities are stored rows, and there are no more of them than stored rows |
| OrganizationService.ResolveActivitiesDistinct | app/services.py:84 | When stored keys are distinct, no row is attached twice, even if an id is requested twice |
| OrganizationService.ResolveActivitiesIds | app/services.py:84 | The attached ids are exactly the requested ids that name a stored activity; unknown ids are dropped |
| OrganizationService.UpsertPhone | app/services.py:74-81 | A number already stored reuses its row and changes nothing; an unknown number gets one new row under the next key; either way the number now looks up to the returned row, and every other lookup is unchanged |
| OrganizationService.UpsertPhones | app/services.py:72-81 | The i-th returned row is the stored row for the i-th number; stored rows are reused, so numbers stay unique; new rows are appended only for numbers that were unknown, under consecutive keys |
| OrganizationService.CreateOrganization | app/services.py:69-97 | The new organisation gets the next key, the given name and the given building key unchecked; its i-th phone has the i-th number and is the one stored row for it; its activities are the resolved rows; it is appended; the phone key counter advances by the number of new phone rows; activities and buildings are unchanged |
| Scenarios.SeedChildren | app/seed_data.py:77-144 | The children of Еда, Транспорт and Автомобили in the seed taxonomy, in creation order |
| Scenarios.SeedLeaves | app/seed_data.py:77-144 | No seed row is a child of a non-root other than Автомобили |
| Scenarios.SeedTransportExpansion | app/seed_data.py:83-131 | Транспорт expands to Автомобили, Грузовые, Легковые in that order |
| Scenarios.SeedKeys | app/seed_data.py:77-144 | Seed keys follow creation order and are distinct |
| Scenarios.SeedLevels | app/seed_data.py:83-131 | Транспорт, Автомобили and Грузовые are at levels 1, 2 and 3 |
| Scenarios.SeedDepthCapped | app/seed_data.py:77-144 | The seed taxonomy satisfies the depth cap |
| Scenarios.SeedNestingCheck | app/services.py:153-158 | A new child of Грузовые is refused and a new child of Автомобили is accepted |
| Scenarios.SeedTransportScope | app/services.py:19-20 | A query for Транспорт accepts the ids 2, 7, 8, 9 |
| Scenarios.SeedTransportOrganizations | app/seed_data.py:173-215 | A query for Транспорт returns ЗАО АвтоМир and ИП Сидоров С.С. but not ООО Рога и Копыта |
| Scenarios.SeedSharedPhone | app/seed_data.py:204-208 | Two organisations sharing a number share one phone row; ids naming no stored activity are dropped |
| Scenarios.LoopedLevelDiverges | app/services.py:172-174 | On a row that is its own parent no fuel ends the level walk |
| Scenarios.SelfParentedInsert | app/services.py:153-164 | On any table without key `k`, a new row with parent key `k` passes the nesting check, is stored under `k` so its parent key names a stored row, and breaks the depth cap |
| Scenarios.SelfParentedDiverges | app/services.py:172-174 | The level walk from a stored row that is its own parent never ends, whatever the fuel |
| Scenarios.SelfParentedOnEmptyTable | app/services.py:153-164 | On an empty store the parent key 1 passes the nesting check, and the row it inserts is its own parent and breaks the depth cap; the expansion of that loop still stops after 3 rounds |
| Scenarios.DanglingParentBreaksCap | app/services.py:153-164 | On a depth-capped table whose row 1 names the absent key 3 as parent, a new row under key 3 with the dangling parent key 4 passes the nesting check and is not its own parent, yet it breaks the depth cap, so the first hypothesis of `CreateActivityKeepsDepthCap` is needed |

## Left out

- `get_organizations_in_radius` (`app/services.py:27-41`) is floating-point trigonometry evaluated in SQL, with no clamping of the `acos` argument. Real arithmetic cannot state it faithfully.
- `search_organizations_by_name` (`app/services.py:62-66`) and the activity name lookup with its "first match wins, else `[]`" rule (`app/api.py:104-110`) use SQL `ILIKE`. Its case folding depends on the database collation, and `%` and `_` in the input act as wildcards.
- `get_organization_by_id`, `get_all_buildings`, `get_building_by_id`, `create_building` and `get_all_activities` (`app/services.py:57-59`, `100-125`) are plain key lookups or table dumps outside the modelled operations. `GetActivityById` models the same lookup shape where the modelled operations need it.
- Persistence is not modelled: `add`, `flush`, `commit`, `refresh`, transactions and rollback. Each method is one atomic change of the store.
- Foreign-key enforcement is not modelled, for `building_id` and for `parent_id`. An organisation row holds its phone and activity rows as sequences instead of the join tables of `app/models.py:6-19`.
- GetOrganizationsByActivity: returns each matching organisation once, in store order. The join over all of an organisation's activity links, the separate `EXISTS` filter of `any(...)` and the ORM's de-duplication of a single-entity query are not modelled step by step, and SQL row order is fixed to store order.
- GetActivityLevel: requires that the parent walk ends within the ghost fuel. The source loops forever on a cyclic chain, and the model does not describe that divergence beyond `Scenarios.LoopedLevelDiverges`.
- CreateActivity: requires the same bound on the new parent's walk, because the source's level check would not return otherwise.
- CreateActivityKeepsDepthCap: proved only when no stored row names the new key as its parent and the new row is not its own parent. A dangling parent key that a stored row already names can break the cap (`Scenarios.DanglingParentBreaksCap`), and so can a parent key equal to the new key, which even an enforced foreign key would accept (`Scenarios.SelfParentedInsert`, `Scenarios.SelfParentedOnEmptyTable`).
- UpsertPhones: states that new rows get consecutive keys and are only made for unknown numbers, but not that they come in the order in which the numbers first occur.
- Coordinates are exact reals, so float rounding and NaN comparisons are not modelled.
- Keys are unbounded integers. The storage integer width is not modelled.
- HTTP routing, the API-key check and the error mapping (`app/api.py`), application wiring (`app/main.py`) and request validation (`app/schemas.py`) are not part of this model.
- The scenarios use the whole seed taxonomy but only three of the seven seed organisations. The seeding script itself, with its printing and session handling, is not modelled.
