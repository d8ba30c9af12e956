/**
 * A database table keyed by an autoincrement id, as Prisma exposes it: the
 * rows as a map from id to record, and `findMany({ orderBy: { id: "asc" } })`
 * as the listing of the rows in ascending id order.
 */
module Tables {

  /** The keys of `keys` in `lo..hi`, ascending. */
  function IdsInOrder(keys: set<nat>, lo: nat, hi: nat): (s: seq<nat>)
    ensures forall i :: 0 <= i < |s| ==> s[i] in keys && lo <= s[i] < hi
    ensures forall k :: k in keys && lo <= k < hi ==> k in s
    ensures forall i, j :: 0 <= i < j < |s| ==> s[i] < s[j]
    decreases hi - lo
  {
    if lo >= hi then []
    else (if lo in keys then [lo] else []) + IdsInOrder(keys, lo + 1, hi)
  }

  /** Every row of a table whose ids are all below `bound`, in ascending id order. */
  function RowsInIdOrder<T(==)>(rows: map<nat, T>, bound: nat): (s: seq<T>)
    requires forall id :: id in rows ==> id < bound
    ensures |s| == |rows|
    ensures forall id :: id in rows ==> rows[id] in s
    ensures forall i :: 0 <= i < |s| ==> s[i] in rows.Values
    ensures var ids := IdsInOrder(rows.Keys, 0, bound);
      |ids| == |s| && forall i :: 0 <= i < |s| ==> s[i] == rows[ids[i]]
  {
    var ids := IdsInOrder(rows.Keys, 0, bound);
    var s := seq(|ids|, i requires 0 <= i < |ids| => rows[ids[i]]);
    RowsOfIds(rows, ids, s);
    s
  }

  /** The rows of a strictly increasing list holding exactly the keys are every row once. */
  lemma RowsOfIds<T>(rows: map<nat, T>, ids: seq<nat>, s: seq<T>)
    requires forall i :: 0 <= i < |ids| ==> ids[i] in rows
    requires forall k :: k in rows ==> k in ids
    requires forall i, j :: 0 <= i < j < |ids| ==> ids[i] < ids[j]
    requires |s| == |ids| && forall i :: 0 <= i < |s| ==> s[i] == rows[ids[i]]
    ensures |s| == |rows|
    ensures forall id :: id in rows ==> rows[id] in s
    ensures forall i :: 0 <= i < |s| ==> s[i] in rows.Values
  {
    IdsCoverKeys(rows.Keys, ids);
    forall id | id in rows ensures rows[id] in s {
      var i :| 0 <= i < |ids| && ids[i] == id;
      assert s[i] == rows[id];
    }
  }

  /** A strictly increasing list of ids that holds exactly `keys` is as long as `keys` is large. */
  lemma IdsCoverKeys(keys: set<nat>, ids: seq<nat>)
    requires forall i :: 0 <= i < |ids| ==> ids[i] in keys
    requires forall k :: k in keys ==> k in ids
    requires forall i, j :: 0 <= i < j < |ids| ==> ids[i] < ids[j]
    ensures |ids| == |keys|
  {
    var elems := set i | 0 <= i < |ids| :: ids[i];
    assert elems == keys;
    DistinctCardinality(ids);
  }

  lemma {:induction false} DistinctCardinality(ids: seq<nat>)
    requires forall i, j :: 0 <= i < j < |ids| ==> ids[i] < ids[j]
    ensures |set i | 0 <= i < |ids| :: ids[i]| == |ids|
  {
    if ids != [] {
      var tail := ids[1..];
      DistinctCardinality(tail);
      var s := set i | 0 <= i < |ids| :: ids[i];
      var t := set i | 0 <= i < |tail| :: tail[i];
      assert s == {ids[0]} + t;
      assert ids[0] !in t;
    }
  }
}
