/**
 * The rows of the directory's tables (app/models.py), and the one query shape
 * every service uses: keep the rows of a table that satisfy a condition, in
 * the order the table stores them.
 */
module Models {
  import opened Wrappers

  /** A row of `activities`; `parent` is the nullable `parent_id` column. */
  datatype Activity = Activity(id: int, name: string, parent: Option<int>)

  /** A row of `buildings`; coordinates are degrees, modelled as reals. */
  datatype Building = Building(id: int, address: string, latitude: real, longitude: real)

  /** A row of `phones`; `number` is declared unique by the schema. */
  datatype Phone = Phone(id: int, number: string)

  /**
   * A row of `organizations` together with its two many-to-many relations,
   * as the ORM loads them: the linked phone rows and the linked activity rows.
   */
  datatype Organization = Organization(
    id: int,
    name: string,
    buildingId: int,
    phones: seq<Phone>,
    activities: seq<Activity>)

  /** Python truthiness of an optional id: None and 0 are both false. */
  predicate Truthy(id: Option<int>) {
    id.Some? && id.value != 0
  }

  /** The rows of `s` that satisfy `keep`, in table order (a filtered query). */
  function Filter<T>(s: seq<T>, keep: T -> bool): (r: seq<T>)
    ensures |r| <= |s|
  {
    if s == [] then []
    else (if keep(s[0]) then [s[0]] else []) + Filter(s[1..], keep)
  }

  /** A row is in the filtered query exactly when it is in the table and satisfies the condition. */
  lemma {:induction false} FilterMembers<T>(s: seq<T>, keep: T -> bool, x: T)
    ensures x in Filter(s, keep) <==> x in s && keep(x)
  {
    if s != [] {
      FilterMembers(s[1..], keep, x);
      assert s == [s[0]] + s[1..];
    }
  }

  /** FilterMembers for every row at once. */
  lemma FilterKeeps<T>(s: seq<T>, keep: T -> bool)
    ensures forall x :: x in Filter(s, keep) <==> x in s && keep(x)
  {
    forall x
      ensures x in Filter(s, keep) <==> x in s && keep(x)
    {
      FilterMembers(s, keep, x);
    }
  }

  /** A filter that keeps no element of `s` returns nothing. */
  lemma {:induction false} FilterNothing<T>(s: seq<T>, keep: T -> bool)
    requires forall i :: 0 <= i < |s| ==> !keep(s[i])
    ensures Filter(s, keep) == []
  {
    if s != [] {
      assert !keep(s[0]);
      FilterNothing(s[1..], keep);
    }
  }

  /** A filter that keeps every element of `s` returns `s`. */
  lemma {:induction false} FilterEverything<T>(s: seq<T>, keep: T -> bool)
    requires forall i :: 0 <= i < |s| ==> keep(s[i])
    ensures Filter(s, keep) == s
  {
    if s != [] {
      assert keep(s[0]);
      FilterEverything(s[1..], keep);
    }
  }

  /** Filtering commutes with concatenation, so a filter keeps table order. */
  lemma {:induction false} FilterAppend<T>(s: seq<T>, t: seq<T>, keep: T -> bool)
    ensures Filter(s + t, keep) == Filter(s, keep) + Filter(t, keep)
  {
    if s == [] {
      assert s + t == t;
    } else {
      var head := if keep(s[0]) then [s[0]] else [];
      assert (s + t)[0] == s[0];
      assert (s + t)[1..] == s[1..] + t;
      calc {
        Filter(s + t, keep);
        head + Filter(s[1..] + t, keep);
        { FilterAppend(s[1..], t, keep); }
        head + (Filter(s[1..], keep) + Filter(t, keep));
        (head + Filter(s[1..], keep)) + Filter(t, keep);
        Filter(s, keep) + Filter(t, keep);
      }
    }
  }

  /** A filter that keeps exactly the positions in [i, j) returns that block. */
  lemma {:induction false} FilterBlock<T>(s: seq<T>, keep: T -> bool, i: int, j: int)
    requires 0 <= i <= j <= |s|
    requires forall k :: 0 <= k < |s| ==> (keep(s[k]) <==> i <= k < j)
    ensures Filter(s, keep) == s[i..j]
    decreases |s|
  {
    if j == 0 {
      FilterNothing(s, keep);
    } else {
      var t := s[1..];
      assert forall k :: 0 <= k < |t| ==> t[k] == s[k + 1];
      if i > 0 {
        assert !keep(s[0]);
        FilterBlock(t, keep, i - 1, j - 1);
        assert t[i - 1..j - 1] == s[i..j];
      } else {
        assert keep(s[0]);
        FilterBlock(t, keep, 0, j - 1);
        assert [s[0]] + t[..j - 1] == s[..j];
      }
    }
  }

  /** No element occurs twice. */
  ghost predicate Distinct<T>(s: seq<T>) {
    forall i, j :: 0 <= i < j < |s| ==> s[i] != s[j]
  }

  /** Filtering a sequence without repetitions gives one without repetitions. */
  lemma {:induction false} FilterDistinct<T>(s: seq<T>, keep: T -> bool)
    requires Distinct(s)
    ensures Distinct(Filter(s, keep))
  {
    if s != [] {
      var t := s[1..];
      assert Distinct(t) by {
        forall i, j | 0 <= i < j < |t|
          ensures t[i] != t[j]
        {
          assert t[i] == s[i + 1] && t[j] == s[j + 1];
        }
      }
      FilterDistinct(t, keep);
      var r := Filter(t, keep);
      if keep(s[0]) {
        FilterMembers(t, keep, s[0]);
        assert forall m :: 0 <= m < |t| ==> t[m] == s[m + 1];
        var f := [s[0]] + r;
        forall i, j | 0 <= i < j < |f|
          ensures f[i] != f[j]
        {
          assert f[j] == r[j - 1];
          if i > 0 {
            assert f[i] == r[i - 1];
          }
        }
      }
    }
  }

  /** Activity ids are primary keys produced by autoincrement: distinct and at least 1. */
  ghost predicate WellKeyed(acts: seq<Activity>) {
    && (forall i :: 0 <= i < |acts| ==> acts[i].id >= 1)
    && (forall i, j :: 0 <= i < j < |acts| ==> acts[i].id != acts[j].id)
  }

  /** Rows with distinct primary keys are distinct rows. */
  lemma WellKeyedDistinct(acts: seq<Activity>)
    requires WellKeyed(acts)
    ensures Distinct(acts)
  {
  }

  /** The ids of a sequence of activity rows, in the same order. */
  function ActivityIds(acts: seq<Activity>): (ids: seq<int>)
    ensures |ids| == |acts|
    ensures forall i :: 0 <= i < |acts| ==> ids[i] == acts[i].id
  {
    if acts == [] then [] else [acts[0].id] + ActivityIds(acts[1..])
  }
}
