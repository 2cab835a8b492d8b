/**
 * ActivityService (app/services.py:121-176): the activity taxonomy.
 *
 * An activity names its parent by the nullable `parent_id` column. The level
 * of an activity is found by walking parent links with Python truthiness, so a
 * parent id of 0 ends the walk; children are found by SQL equality on
 * `parent_id`, so the children of 0 are the rows that store 0 as parent.
 */
module ActivityService {
  import opened Wrappers
  import opened Models
  import opened Store

  /** The nesting cap: the default expansion depth and the deepest allowed parent level. */
  const MaxLevel: int := 3

  /** The error `create_activity` raises when the parent is already at the cap. */
  datatype ValidationError = MaxNestingExceeded

  // ---------------------------------------------------------------- lookups

  /** The lookup by primary key: the first stored row with that id. */
  function GetActivityById(acts: seq<Activity>, id: int): (r: Option<Activity>)
    ensures r.Some? ==> r.value in acts && r.value.id == id
    ensures r.None? ==> forall i :: 0 <= i < |acts| ==> acts[i].id != id
  {
    if acts == [] then None
    else if acts[0].id == id then Some(acts[0])
    else GetActivityById(acts[1..], id)
  }

  /** The lookup fails exactly when no stored row carries the id. */
  lemma GetActivityByIdMissing(acts: seq<Activity>, id: int)
    ensures GetActivityById(acts, id).None? <==> forall i :: 0 <= i < |acts| ==> acts[i].id != id
  {
    var r := GetActivityById(acts, id);
    if r.Some? {
      var j :| 0 <= j < |acts| && acts[j] == r.value;
      assert acts[j].id == id;
    }
  }

  /** Appending a row changes a lookup only for an id no older row has. */
  lemma {:induction false} GetActivityByIdAppend(acts: seq<Activity>, n: Activity, id: int)
    ensures GetActivityById(acts + [n], id) ==
            if GetActivityById(acts, id).Some? then GetActivityById(acts, id)
            else if n.id == id then Some(n) else None
  {
    if acts == [] {
      assert acts + [n] == [n];
    } else {
      assert (acts + [n])[1..] == acts[1..] + [n];
      GetActivityByIdAppend(acts[1..], n, id);
    }
  }

  /** With distinct ids, looking up a stored row's id finds that row. */
  lemma {:induction false} GetActivityByIdFinds(acts: seq<Activity>, i: int)
    requires WellKeyed(acts)
    requires 0 <= i < |acts|
    ensures GetActivityById(acts, acts[i].id) == Some(acts[i])
  {
    var r := GetActivityById(acts, acts[i].id);
    var j :| 0 <= j < |acts| && acts[j] == r.value;
    assert j == i;
  }

  /** With distinct positive ids, looking up a stored row's id finds that row. */
  lemma GetActivityByIdStored(acts: seq<Activity>, c: Activity)
    requires WellKeyed(acts)
    requires c in acts
    ensures GetActivityById(acts, c.id) == Some(c) && c.id >= 1
  {
    var i :| 0 <= i < |acts| && acts[i] == c;
    GetActivityByIdFinds(acts, i);
  }

  // ------------------------------------------------------ descendant expansion

  /** The direct children of `parentId`: the rows whose parent key equals it, in table order. */
  function Children(acts: seq<Activity>, parentId: int): (r: seq<Activity>)
    ensures |r| <= |acts|
  {
    Filter(acts, (c: Activity) => c.parent == Some(parentId))
  }

  /**
   * `get_children_recursive(parentId, currentLevel)` of `get_all_child_activities`:
   * nothing once the counter passes `maxLevel`; otherwise the direct children
   * followed by each child's own expansion, in child order.
   */
  function Expand(acts: seq<Activity>, parentId: int, currentLevel: int, maxLevel: int): (r: seq<Activity>)
    decreases maxLevel - currentLevel + 1, 0
  {
    if currentLevel > maxLevel then []
    else
      var children := Children(acts, parentId);
      children + ExpandAll(acts, children, currentLevel + 1, maxLevel)
  }

  /** The expansions of the activities `cs`, concatenated in the order of `cs`. */
  function ExpandAll(acts: seq<Activity>, cs: seq<Activity>, currentLevel: int, maxLevel: int): (r: seq<Activity>)
    decreases maxLevel - currentLevel + 1, |cs|
  {
    if cs == [] then []
    else ExpandAll(acts, cs[..|cs| - 1], currentLevel, maxLevel) + Expand(acts, cs[|cs| - 1].id, currentLevel, maxLevel)
  }

  /** `c` is a stored row whose `parent_id` column equals `p`. */
  ghost predicate IsChild(acts: seq<Activity>, c: Activity, p: int) {
    c in acts && c.parent == Some(p)
  }

  /** The children query returns exactly the stored rows whose parent column is `p`. */
  lemma ChildrenMembers(acts: seq<Activity>, p: int, c: Activity)
    ensures c in Children(acts, p) <==> IsChild(acts, c, p)
  {
    FilterMembers(acts, (c: Activity) => c.parent == Some(p), c);
  }

  /** `a` lies exactly `k` child links below the id `p` (independent of the expansion). */
  ghost predicate Descendant(acts: seq<Activity>, a: Activity, p: int, k: nat)
    decreases k
  {
    if k == 0 then false
    else if k == 1 then IsChild(acts, a, p)
    else exists c :: IsChild(acts, c, p) && Descendant(acts, a, c.id, k - 1)
  }

  /** `a` lies between 1 and `n` generations below the id `p`. */
  ghost predicate WithinGenerations(acts: seq<Activity>, a: Activity, p: int, n: int) {
    exists k: nat :: 1 <= k <= n && Descendant(acts, a, p, k)
  }

  /** A descendant is a stored row. */
  lemma {:induction false} DescendantStored(acts: seq<Activity>, a: Activity, p: int, k: nat)
    requires Descendant(acts, a, p, k)
    ensures a in acts
    decreases k
  {
    if k > 1 {
      var c :| IsChild(acts, c, p) && Descendant(acts, a, c.id, k - 1);
      DescendantStored(acts, a, c.id, k - 1);
    }
  }

  /** One generation more: a direct child, or within `n` generations below a direct child. */
  lemma WithinStep(acts: seq<Activity>, a: Activity, p: int, n: int)
    requires n >= 0
    ensures WithinGenerations(acts, a, p, n + 1) <==>
            IsChild(acts, a, p) || exists c :: IsChild(acts, c, p) && WithinGenerations(acts, a, c.id, n)
  {
    if WithinGenerations(acts, a, p, n + 1) {
      var k: nat :| 1 <= k <= n + 1 && Descendant(acts, a, p, k);
      if k > 1 {
        var c :| IsChild(acts, c, p) && Descendant(acts, a, c.id, k - 1);
        assert WithinGenerations(acts, a, c.id, n);
      }
    }
    if IsChild(acts, a, p) {
      assert Descendant(acts, a, p, 1);
    } else if exists c :: IsChild(acts, c, p) && WithinGenerations(acts, a, c.id, n) {
      var c :| IsChild(acts, c, p) && WithinGenerations(acts, a, c.id, n);
      var k: nat :| 1 <= k <= n && Descendant(acts, a, c.id, k);
      assert Descendant(acts, a, p, k + 1);
    }
  }

  /**
   * On any parent graph, cyclic or not, the expansion started at counter
   * `currentLevel` holds exactly the rows 1 to `maxLevel - currentLevel + 1`
   * generations below `p`.
   */
  lemma {:induction false} ExpandMembers(acts: seq<Activity>, p: int, currentLevel: int, maxLevel: int, a: Activity)
    ensures a in Expand(acts, p, currentLevel, maxLevel) <==>
            WithinGenerations(acts, a, p, maxLevel - currentLevel + 1)
    decreases maxLevel - currentLevel + 1, 0
  {
    if currentLevel <= maxLevel {
      var n := maxLevel - currentLevel;
      var cs := Children(acts, p);
      var rest := ExpandAll(acts, cs, currentLevel + 1, maxLevel);
      assert Expand(acts, p, currentLevel, maxLevel) == cs + rest;
      ExpandAllMembers(acts, cs, currentLevel + 1, maxLevel, a);
      ChildrenMembers(acts, p, a);
      WithinStep(acts, a, p, n);
      if a in rest {
        var c :| c in cs && WithinGenerations(acts, a, c.id, n);
        ChildrenMembers(acts, p, c);
      }
      if exists c :: IsChild(acts, c, p) && WithinGenerations(acts, a, c.id, n) {
        var c :| IsChild(acts, c, p) && WithinGenerations(acts, a, c.id, n);
        ChildrenMembers(acts, p, c);
      }
    } else {
      NoGenerations(acts, a, p, maxLevel - currentLevel + 1);
    }
  }

  /** No row lies between 1 and `n` generations below anything when `n < 1`. */
  lemma NoGenerations(acts: seq<Activity>, a: Activity, p: int, n: int)
    requires n < 1
    ensures !WithinGenerations(acts, a, p, n)
  {
  }

  /** The expansions of `cs` hold exactly the rows that lie in range below one of `cs`. */
  lemma {:induction false} ExpandAllMembers(acts: seq<Activity>, cs: seq<Activity>, currentLevel: int, maxLevel: int, a: Activity)
    ensures a in ExpandAll(acts, cs, currentLevel, maxLevel) <==>
            exists c :: c in cs && WithinGenerations(acts, a, c.id, maxLevel - currentLevel + 1)
    decreases maxLevel - currentLevel + 1, |cs|
  {
    if cs != [] {
      var init, last := cs[..|cs| - 1], cs[|cs| - 1];
      assert cs == init + [last];
      ExpandAllMembers(acts, init, currentLevel, maxLevel, a);
      ExpandMembers(acts, last.id, currentLevel, maxLevel, a);
      if exists c :: c in cs && WithinGenerations(acts, a, c.id, maxLevel - currentLevel + 1) {
        var c :| c in cs && WithinGenerations(acts, a, c.id, maxLevel - currentLevel + 1);
        if c != last {
          assert c in init;
        }
      }
    }
  }

  /** The expansion is empty exactly when the counter is past the cap or `p` has no children. */
  lemma ExpandEmpty(acts: seq<Activity>, p: int, currentLevel: int, maxLevel: int)
    ensures Expand(acts, p, currentLevel, maxLevel) == [] <==>
            currentLevel > maxLevel || Children(acts, p) == []
  {
  }

  /** Order: the direct children come first, then their expansions in child order. */
  lemma {:induction false} ExpandAllAppend(acts: seq<Activity>, cs: seq<Activity>, ds: seq<Activity>, currentLevel: int, maxLevel: int)
    ensures ExpandAll(acts, cs + ds, currentLevel, maxLevel) ==
            ExpandAll(acts, cs, currentLevel, maxLevel) + ExpandAll(acts, ds, currentLevel, maxLevel)
    decreases |ds|
  {
    if ds == [] {
      assert cs + ds == cs;
    } else {
      var e, d := ds[..|ds| - 1], ds[|ds| - 1];
      assert (cs + ds)[..|cs + ds| - 1] == cs + e;
      assert (cs + ds)[|cs + ds| - 1] == d;
      calc {
        ExpandAll(acts, cs + ds, currentLevel, maxLevel);
        ExpandAll(acts, cs + e, currentLevel, maxLevel) + Expand(acts, d.id, currentLevel, maxLevel);
        { ExpandAllAppend(acts, cs, e, currentLevel, maxLevel); }
        (ExpandAll(acts, cs, currentLevel, maxLevel) + ExpandAll(acts, e, currentLevel, maxLevel))
          + Expand(acts, d.id, currentLevel, maxLevel);
        ExpandAll(acts, cs, currentLevel, maxLevel)
          + (ExpandAll(acts, e, currentLevel, maxLevel) + Expand(acts, d.id, currentLevel, maxLevel));
        ExpandAll(acts, cs, currentLevel, maxLevel) + ExpandAll(acts, ds, currentLevel, maxLevel);
      }
    }
  }

  /** In a store whose parent ids all resolve, an unknown id has an empty expansion. */
  lemma UnknownIdHasNoDescendants(acts: seq<Activity>, p: int, maxLevel: int)
    requires forall i :: 0 <= i < |acts| && acts[i].parent.Some? ==> GetActivityById(acts, acts[i].parent.value).Some?
    requires GetActivityById(acts, p).None?
    ensures Expand(acts, p, 1, maxLevel) == []
  {
    var cs := Children(acts, p);
    if cs != [] {
      ChildrenMembers(acts, p, cs[0]);
    }
  }

  /**
   * The recursion of `get_all_child_activities`: the query for the direct
   * children, then a loop that extends the result with each child's own
   * expansion. The counter bounds the recursion, so it ends on any data.
   */
  method GetChildrenRecursive(acts: seq<Activity>, parentId: int, currentLevel: int, maxLevel: int) returns (result: seq<Activity>)
    ensures result == Expand(acts, parentId, currentLevel, maxLevel)
    decreases maxLevel - currentLevel + 1
  {
    if currentLevel > maxLevel {
      return [];
    }
    var children := Children(acts, parentId);
    result := children;
    for i := 0 to |children|
      invariant result == children + ExpandAll(acts, children[..i], currentLevel + 1, maxLevel)
    {
      var sub := GetChildrenRecursive(acts, children[i].id, currentLevel + 1, maxLevel);
      ghost var prefix := children[..i + 1];
      assert prefix[..i] == children[..i] && prefix[i] == children[i];
      assert ExpandAll(acts, prefix, currentLevel + 1, maxLevel) ==
             ExpandAll(acts, children[..i], currentLevel + 1, maxLevel) + sub;
      result := result + sub;
    }
    assert children[..|children|] == children;
  }

  /**
   * `get_all_child_activities(parentId, maxLevel)`: every row 1 to `maxLevel`
   * generations below `parentId`; empty when `maxLevel` is below 1.
   */
  method GetAllChildActivities(acts: seq<Activity>, parentId: int, maxLevel: int := MaxLevel) returns (result: seq<Activity>)
    ensures result == Expand(acts, parentId, 1, maxLevel)
    ensures forall a :: a in result <==> WithinGenerations(acts, a, parentId, maxLevel)
    ensures maxLevel < 1 ==> result == []
  {
    result := GetChildrenRecursive(acts, parentId, 1, maxLevel);
    forall a
      ensures a in result <==> WithinGenerations(acts, a, parentId, maxLevel)
    {
      ExpandMembers(acts, parentId, 1, maxLevel, a);
    }
    ExpandEmpty(acts, parentId, 1, maxLevel);
  }

  // ------------------------------------------------------------------ levels

  /**
   * The loop of `get_activity_level` started at `cur` with level 1: the level
   * it returns if it stops within `fuel` iterations, None otherwise. A
   * dangling parent id still counts one step, since its lookup yields None.
   */
  function Walk(acts: seq<Activity>, cur: Option<Activity>, fuel: nat): (r: Option<nat>)
    ensures r.Some? ==> 1 <= r.value <= fuel + 1
    decreases fuel
  {
    if cur.None? || !Truthy(cur.value.parent) then Some(1)
    else if fuel == 0 then None
    else match Walk(acts, GetActivityById(acts, cur.value.parent.value), fuel - 1)
      case None => None
      case Some(l) => Some(l + 1)
  }

  /** The level `get_activity_level(id)` returns, if its loop ends within `fuel` iterations. */
  function LevelWithin(acts: seq<Activity>, id: int, fuel: nat): (r: Option<nat>)
    ensures r.Some? ==> 1 <= r.value <= fuel + 1
    ensures GetActivityById(acts, id).None? ==> r == Some(1)
  {
    Walk(acts, GetActivityById(acts, id), fuel)
  }

  /** More fuel never changes a walk that has already ended. */
  lemma {:induction false} WalkMonotone(acts: seq<Activity>, cur: Option<Activity>, fuel: nat, more: nat)
    requires Walk(acts, cur, fuel).Some?
    requires fuel <= more
    ensures Walk(acts, cur, more) == Walk(acts, cur, fuel)
    decreases fuel
  {
    if cur.Some? && Truthy(cur.value.parent) {
      WalkMonotone(acts, GetActivityById(acts, cur.value.parent.value), fuel - 1, more - 1);
    }
  }

  /** Two walks from the same start that both end agree on the level. */
  lemma WalkUnique(acts: seq<Activity>, cur: Option<Activity>, f: nat, g: nat)
    requires Walk(acts, cur, f).Some? && Walk(acts, cur, g).Some?
    ensures Walk(acts, cur, f) == Walk(acts, cur, g)
  {
    if f <= g { WalkMonotone(acts, cur, f, g); } else { WalkMonotone(acts, cur, g, f); }
  }

  /** A walk that ends at level `l` runs its loop exactly `l - 1` times, once per ancestor. */
  lemma {:induction false} WalkSteps(acts: seq<Activity>, cur: Option<Activity>, fuel: nat)
    requires Walk(acts, cur, fuel).Some?
    ensures Walk(acts, cur, Walk(acts, cur, fuel).value - 1) == Walk(acts, cur, fuel)
    ensures Walk(acts, cur, fuel).value >= 2 ==> Walk(acts, cur, Walk(acts, cur, fuel).value - 2).None?
    decreases fuel
  {
    if cur.Some? && Truthy(cur.value.parent) {
      WalkSteps(acts, GetActivityById(acts, cur.value.parent.value), fuel - 1);
    }
  }

  /**
   * The level of an activity with a truthy parent is one more than the parent
   * id's level; an unknown parent id has level 1, so a dangling link gives 2.
   */
  lemma LevelOfChild(acts: seq<Activity>, a: Activity, fuel: nat)
    requires Truthy(a.parent)
    requires Walk(acts, Some(a), fuel + 1).Some?
    ensures LevelWithin(acts, a.parent.value, fuel).Some?
    ensures Walk(acts, Some(a), fuel + 1).value == 1 + LevelWithin(acts, a.parent.value, fuel).value
    ensures GetActivityById(acts, a.parent.value).None? ==> Walk(acts, Some(a), fuel + 1) == Some(2)
  {
  }

  /** A stored row without a truthy parent key (none, or 0) is at level 1. */
  lemma LevelOfRoot(acts: seq<Activity>, id: int, r: Activity, fuel: nat)
    requires GetActivityById(acts, id) == Some(r) && !Truthy(r.parent)
    ensures LevelWithin(acts, id, fuel) == Some(1)
  {
  }

  /** A stored row with a truthy parent is one level below that parent. */
  lemma LevelOfParent(acts: seq<Activity>, id: int, a: Activity, fuel: nat)
    requires GetActivityById(acts, id) == Some(a) && Truthy(a.parent)
    requires LevelWithin(acts, a.parent.value, fuel).Some?
    ensures LevelWithin(acts, id, fuel + 1) == Some(LevelWithin(acts, a.parent.value, fuel).value + 1)
  {
  }

  /**
   * `get_activity_level`: start at level 1 on the row with that id and add
   * one per truthy parent link followed. The caller supplies a bound on the
   * chain's length as ghost `fuel`: the source has none and loops forever on
   * a cyclic chain. An unknown id, or a row without a parent, gives 1.
   */
  method GetActivityLevel(acts: seq<Activity>, activityId: int, ghost fuel: nat) returns (level: nat)
    requires LevelWithin(acts, activityId, fuel).Some?
    ensures Some(level) == LevelWithin(acts, activityId, fuel)
    ensures level >= 1
    ensures GetActivityById(acts, activityId).None? ==> level == 1
  {
    level := 1;
    var activity := GetActivityById(acts, activityId);
    ghost var left := fuel;
    while activity.Some? && Truthy(activity.value.parent)
      invariant level >= 1
      invariant Walk(acts, activity, left).Some?
      invariant LevelWithin(acts, activityId, fuel).value == level - 1 + Walk(acts, activity, left).value
      decreases left
    {
      level := level + 1;
      activity := GetActivityById(acts, activity.value.parent.value);
      left := left - 1;
    }
  }

  /** The depth cap: every stored activity's parent walk ends within two steps. */
  ghost predicate DepthCapped(acts: seq<Activity>) {
    forall i :: 0 <= i < |acts| ==> Walk(acts, Some(acts[i]), MaxLevel - 1).Some?
  }

  /** Under the depth cap the walk from any stored row ends within two steps. */
  lemma CappedRow(acts: seq<Activity>, a: Activity)
    requires DepthCapped(acts)
    requires a in acts
    ensures Walk(acts, Some(a), MaxLevel - 1).Some?
  {
    var i :| 0 <= i < |acts| && acts[i] == a;
  }

  /** Under the depth cap every level `get_activity_level` returns is at most 3. */
  lemma LevelAtMostCap(acts: seq<Activity>, id: int, fuel: nat)
    requires DepthCapped(acts)
    requires LevelWithin(acts, id, fuel).Some?
    ensures LevelWithin(acts, id, fuel).value <= MaxLevel
  {
    var cur := GetActivityById(acts, id);
    if cur.Some? {
      var i :| 0 <= i < |acts| && acts[i] == cur.value;
      WalkUnique(acts, cur, fuel, MaxLevel - 1);
    }
  }

  // --------------------------------------------------- levels of descendants

  /** A row whose parent key is a truthy `p` sits one level below `p`. */
  lemma ChildLevel(acts: seq<Activity>, c: Activity, p: int, fuel: nat)
    requires c.parent == Some(p) && p != 0
    requires LevelWithin(acts, p, fuel).Some?
    ensures Walk(acts, Some(c), fuel + 1) == Some(LevelWithin(acts, p, fuel).value + 1)
  {
  }

  /** A row `k` links below `p` has `p`'s level plus `k`, given nonzero, distinct ids. */
  lemma {:induction false} DescendantLevel(acts: seq<Activity>, a: Activity, p: int, k: nat, fuel: nat)
    requires WellKeyed(acts)
    requires p != 0
    requires Descendant(acts, a, p, k)
    requires LevelWithin(acts, p, fuel).Some?
    ensures Walk(acts, Some(a), fuel + k) == Some(LevelWithin(acts, p, fuel).value + k)
    decreases k
  {
    if k == 1 {
      ChildLevel(acts, a, p, fuel);
    } else {
      var c :| IsChild(acts, c, p) && Descendant(acts, a, c.id, k - 1);
      DescendantLevelStep(acts, a, c, p, k, fuel);
    }
  }

  /** The inductive step of DescendantLevel, through the direct child `c` of `p`. */
  lemma {:induction false} DescendantLevelStep(acts: seq<Activity>, a: Activity, c: Activity, p: int, k: nat, fuel: nat)
    requires WellKeyed(acts)
    requires p != 0 && k >= 2
    requires IsChild(acts, c, p) && Descendant(acts, a, c.id, k - 1)
    requires LevelWithin(acts, p, fuel).Some?
    ensures Walk(acts, Some(a), fuel + k) == Some(LevelWithin(acts, p, fuel).value + k)
    decreases k, 0
  {
      ChildLevel(acts, c, p, fuel);
      GetActivityByIdStored(acts, c);
      DescendantLevel(acts, a, c.id, k - 1, fuel + 1);
  }

  /**
   * For an activity `p` at level L on a finite chain, every row of its
   * expansion is at a level in (L, L + maxLevel]; in particular the
   * expansion never contains `p` itself.
   */
  lemma ExpandLevels(acts: seq<Activity>, p: int, maxLevel: int, fuel: nat, a: Activity)
    requires WellKeyed(acts)
    requires p != 0
    requires LevelWithin(acts, p, fuel).Some?
    requires a in Expand(acts, p, 1, maxLevel)
    ensures Walk(acts, Some(a), fuel + maxLevel).Some?
    ensures LevelWithin(acts, p, fuel).value < Walk(acts, Some(a), fuel + maxLevel).value <= LevelWithin(acts, p, fuel).value + maxLevel
    ensures a.id != p
  {
    ExpandMembers(acts, p, 1, maxLevel, a);
    GenerationLevels(acts, a, p, maxLevel, fuel);
  }

  /** The level bounds of ExpandLevels, stated for the generations themselves. */
  lemma GenerationLevels(acts: seq<Activity>, a: Activity, p: int, n: int, fuel: nat)
    requires WellKeyed(acts)
    requires p != 0
    requires LevelWithin(acts, p, fuel).Some?
    requires WithinGenerations(acts, a, p, n)
    ensures Walk(acts, Some(a), fuel + n).Some?
    ensures LevelWithin(acts, p, fuel).value < Walk(acts, Some(a), fuel + n).value <= LevelWithin(acts, p, fuel).value + n
    ensures a.id != p
  {
    var k: nat :| 1 <= k <= n && Descendant(acts, a, p, k);
    DescendantLevel(acts, a, p, k, fuel);
    WalkMonotone(acts, Some(a), fuel + k, fuel + n);
    DescendantNotStart(acts, a, p, k, fuel);
  }

  /** On a finite chain a row is never its own descendant. */
  lemma DescendantNotStart(acts: seq<Activity>, a: Activity, p: int, k: nat, fuel: nat)
    requires WellKeyed(acts)
    requires p != 0
    requires Descendant(acts, a, p, k)
    requires LevelWithin(acts, p, fuel).Some?
    ensures a.id != p
  {
    DescendantLevel(acts, a, p, k, fuel);
    DescendantStored(acts, a, p, k);
    if a.id == p {
      GetActivityByIdStored(acts, a);
      WalkUnique(acts, Some(a), fuel, fuel + k);
    }
  }

  /** `anc` is reached from `a` by following `k` truthy parent keys, each naming a stored row. */
  ghost predicate AncestorAt(acts: seq<Activity>, a: Activity, anc: Activity, k: nat)
    decreases k
  {
    if k == 0 then anc == a
    else
      && Truthy(a.parent)
      && GetActivityById(acts, a.parent.value).Some?
      && AncestorAt(acts, GetActivityById(acts, a.parent.value).value, anc, k - 1)
  }

  /** An ancestor `k` links up is `k` levels above, and its walk ends with `k` less fuel. */
  lemma {:induction false} AncestorLevel(acts: seq<Activity>, a: Activity, anc: Activity, k: nat, fuel: nat)
    requires AncestorAt(acts, a, anc, k)
    requires Walk(acts, Some(a), fuel).Some?
    ensures k <= fuel && Walk(acts, Some(anc), fuel - k).Some?
    ensures Walk(acts, Some(a), fuel).value == Walk(acts, Some(anc), fuel - k).value + k
    decreases k
  {
    if k > 0 {
      var b := GetActivityById(acts, a.parent.value).value;
      AncestorLevel(acts, b, anc, k - 1, fuel - 1);
    }
  }

  /**
   * On a finite chain the expansion of a stored row never contains one of its
   * ancestors: those are at lower levels, and the expansion only at higher ones.
   */
  lemma AncestorNotInExpansion(acts: seq<Activity>, p: Activity, anc: Activity, k: nat, maxLevel: int, fuel: nat)
    requires WellKeyed(acts)
    requires p in acts
    requires LevelWithin(acts, p.id, fuel).Some?
    requires k >= 1 && AncestorAt(acts, p, anc, k)
    ensures anc !in Expand(acts, p.id, 1, maxLevel)
  {
    GetActivityByIdStored(acts, p);
    AncestorLevel(acts, p, anc, k, fuel);
    if anc in Expand(acts, p.id, 1, maxLevel) {
      ExpandEmpty(acts, p.id, 1, maxLevel);
      ExpandLevels(acts, p.id, maxLevel, fuel, anc);
      WalkMonotone(acts, Some(anc), fuel - k, fuel + maxLevel);
      assert false;
    }
  }

  // ---------------------------------------------------------------- creation

  /** `create_activity` raises: the parent id is truthy, names a stored row, and that row is at level 3 or more. */
  predicate RejectsParent(acts: seq<Activity>, parentId: Option<int>, fuel: nat)
    requires Truthy(parentId) ==> LevelWithin(acts, parentId.value, fuel).Some?
  {
    && Truthy(parentId)
    && GetActivityById(acts, parentId.value).Some?
    && LevelWithin(acts, parentId.value, fuel).value >= MaxLevel
  }

  /**
   * `create_activity`: when the parent id is truthy and names a stored row,
   * compute that row's level and raise if it is at the cap; otherwise insert
   * one row with the next id. A missing, zero or unknown parent id skips the
   * check, and the parent id is stored as given.
   */
  method CreateActivity(db: Database, name: string, parentId: Option<int>, ghost fuel: nat) returns (r: Result<Activity, ValidationError>)
    requires db.Valid()
    requires Truthy(parentId) ==> LevelWithin(db.activities, parentId.value, fuel).Some?
    modifies db
    ensures db.Valid()
    ensures r.Failure? <==> RejectsParent(old(db.activities), parentId, fuel)
    ensures r.Failure? ==> r.error == MaxNestingExceeded
    ensures r.Failure? ==> db.activities == old(db.activities) && db.nextActivityId == old(db.nextActivityId)
    ensures r.Success? ==> r.value == Activity(old(db.nextActivityId), name, parentId)
    ensures r.Success? ==> db.activities == old(db.activities) + [r.value] && db.nextActivityId == old(db.nextActivityId) + 1
    ensures db.buildings == old(db.buildings) && db.phones == old(db.phones) && db.organizations == old(db.organizations)
    ensures db.nextPhoneId == old(db.nextPhoneId) && db.nextOrganizationId == old(db.nextOrganizationId)
  {
    if Truthy(parentId) {
      var parent := GetActivityById(db.activities, parentId.value);
      if parent.Some? {
        var level := GetActivityLevel(db.activities, parent.value.id, fuel);
        if level >= MaxLevel {
          return Failure(MaxNestingExceeded);
        }
      }
    }
    var activity := Activity(db.nextActivityId, name, parentId);
    ActivitiesKeyedAppend(db.activities, db.nextActivityId, activity);
    LinkedGrow(db.organizations, db.phones, [], db.activities, [activity]);
    assert db.phones + [] == db.phones;
    db.activities := db.activities + [activity];
    db.nextActivityId := db.nextActivityId + 1;
    r := Success(activity);
  }

  /** No stored row names `id` as its (truthy) parent. */
  ghost predicate Unreferenced(acts: seq<Activity>, id: int) {
    forall i :: 0 <= i < |acts| ==> !(Truthy(acts[i].parent) && acts[i].parent.value == id)
  }

  /** Appending a row nobody names as parent leaves every walk from an old row unchanged. */
  lemma {:induction false} WalkAfterInsert(acts: seq<Activity>, n: Activity, cur: Option<Activity>, fuel: nat)
    requires Unreferenced(acts, n.id)
    requires cur.Some? ==> cur.value in acts
    ensures Walk(acts + [n], cur, fuel) == Walk(acts, cur, fuel)
    decreases fuel
  {
    if cur.Some? && Truthy(cur.value.parent) && fuel > 0 {
      var pid := cur.value.parent.value;
      var i :| 0 <= i < |acts| && acts[i] == cur.value;
      GetActivityByIdAppend(acts, n, pid);
      WalkAfterInsert(acts, n, GetActivityById(acts, pid), fuel - 1);
    }
  }

  /**
   * When `create_activity` succeeds, the new row sits at its parent's level
   * plus one (level 2 under an unknown parent, 1 without a parent), provided
   * no stored row already names the new id as parent and the row does not
   * name itself. An enforced parent foreign key gives the first but not the
   * second: a row whose parent key is its own new key satisfies a
   * self-referencing key, since the key is checked once the row exists
   * (`Scenarios.SelfParentedInsert`).
   */
  lemma CreatedLevel(acts: seq<Activity>, n: Activity, fuel: nat)
    requires Unreferenced(acts, n.id)
    requires Truthy(n.parent) ==> n.parent.value != n.id && LevelWithin(acts, n.parent.value, fuel).Some?
    ensures Walk(acts + [n], Some(n), fuel + 1) ==
            if Truthy(n.parent) then Some(LevelWithin(acts, n.parent.value, fuel).value + 1) else Some(1)
  {
    if Truthy(n.parent) {
      var pid := n.parent.value;
      GetActivityByIdAppend(acts, n, pid);
      WalkAfterInsert(acts, n, GetActivityById(acts, pid), fuel);
    }
  }

  /**
   * The depth cap survives a successful `create_activity`, under the same
   * two conditions as CreatedLevel.
   */
  lemma {:induction false} CreateActivityKeepsDepthCap(acts: seq<Activity>, n: Activity, fuel: nat)
    requires DepthCapped(acts)
    requires Truthy(n.parent) ==> LevelWithin(acts, n.parent.value, fuel).Some?
    requires !RejectsParent(acts, n.parent, fuel)
    requires Unreferenced(acts, n.id)
    requires Truthy(n.parent) ==> n.parent.value != n.id
    ensures DepthCapped(acts + [n])
  {
    var acts' := acts + [n];
    forall i | 0 <= i < |acts'|
      ensures Walk(acts', Some(acts'[i]), MaxLevel - 1).Some?
    {
      if i < |acts| {
        assert acts'[i] == acts[i];
        WalkAfterInsert(acts, n, Some(acts[i]), MaxLevel - 1);
      } else if Truthy(n.parent) {
        var pid := n.parent.value;
        var parent := GetActivityById(acts, pid);
        GetActivityByIdAppend(acts, n, pid);
        WalkAfterInsert(acts, n, parent, MaxLevel - 2);
        if parent.Some? {
          WalkSteps(acts, parent, fuel);
          WalkMonotone(acts, parent, LevelWithin(acts, pid, fuel).value - 1, MaxLevel - 2);
        }
      }
    }
  }
}
