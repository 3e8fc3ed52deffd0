/**
 * `groupby(column)[measure]` over enriched rows. Like pandas, the groups come
 * out in ascending key order, one per distinct key; each carries the sum of
 * the measure and the number of rows in the group.
 */
module Grouping {
  import opened Wrappers
  import opened Strings
  import opened Records

  /** The column a group-by is keyed on. */
  datatype GroupKey = ByDepartment | ByEmployee

  /** The numeric column a group-by aggregates. */
  datatype Measure = CostPerTask | ActualDuration

  function KeyOf(dim: GroupKey, t: EnrichedTask): string {
    match dim
    case ByDepartment => t.task.department
    case ByEmployee => t.task.assignedEmployee
  }

  /** The measure of one row; a missing duration adds nothing, as `sum` skips NaN. */
  function ValueOf(m: Measure, t: EnrichedTask): int {
    match m
    case CostPerTask => t.task.costPerTask
    case ActualDuration => t.task.actualDuration.GetOr(0)
  }

  /** One row of a group-by result. */
  datatype Group = Group(key: string, total: int, count: nat)

  /** Number of rows whose key is `k`. */
  function CountWhere(ts: seq<EnrichedTask>, dim: GroupKey, k: string): nat {
    if |ts| == 0 then 0
    else CountWhere(ts[..|ts| - 1], dim, k) + (if KeyOf(dim, ts[|ts| - 1]) == k then 1 else 0)
  }

  /** Sum of the measure over the rows whose key is `k`. */
  function SumWhere(ts: seq<EnrichedTask>, dim: GroupKey, m: Measure, k: string): int {
    if |ts| == 0 then 0
    else
      var last := ts[|ts| - 1];
      SumWhere(ts[..|ts| - 1], dim, m, k) + (if KeyOf(dim, last) == k then ValueOf(m, last) else 0)
  }

  /** Sum of the measure over all rows. */
  function SumAll(ts: seq<EnrichedTask>, m: Measure): int {
    if |ts| == 0 then 0 else SumAll(ts[..|ts| - 1], m) + ValueOf(m, ts[|ts| - 1])
  }

  predicate KeysAscending(gs: seq<Group>) {
    forall i, j :: 0 <= i < j < |gs| ==> Less(gs[i].key, gs[j].key)
  }

  function KeySet(gs: seq<Group>): set<string> {
    set i | 0 <= i < |gs| :: gs[i].key
  }

  /** The first group with key `k`, as `.loc[k]` would find it. */
  function Find(gs: seq<Group>, k: string): Option<Group> {
    if |gs| == 0 then None
    else if gs[0].key == k then Some(gs[0])
    else Find(gs[1..], k)
  }

  /** The group for `k` after one more row of value `v` joins it. */
  function Bump(g: Option<Group>, k: string, v: int): Group {
    match g
    case None => Group(k, v, 1)
    case Some(g0) => Group(k, g0.total + v, g0.count + 1)
  }

  /** Adds one row with key `k` and value `v` to a key-sorted group list. */
  function Insert(gs: seq<Group>, k: string, v: int): seq<Group> {
    if |gs| == 0 then [Group(k, v, 1)]
    else if gs[0].key == k then [Bump(Some(gs[0]), k, v)] + gs[1..]
    else if Less(k, gs[0].key) then [Group(k, v, 1)] + gs
    else [gs[0]] + Insert(gs[1..], k, v)
  }

  /** The group-by result, built by adding the rows one at a time. */
  function GroupBy(ts: seq<EnrichedTask>, dim: GroupKey, m: Measure): seq<Group> {
    if |ts| == 0 then []
    else
      var last := ts[|ts| - 1];
      Insert(GroupBy(ts[..|ts| - 1], dim, m), KeyOf(dim, last), ValueOf(m, last))
  }

  lemma {:induction false} FindSpec(gs: seq<Group>, k: string)
    ensures Find(gs, k).Some? <==> k in KeySet(gs)
    ensures Find(gs, k).Some? ==> Find(gs, k).value.key == k && Find(gs, k).value in gs
  {
    if |gs| > 0 {
      FindSpec(gs[1..], k);
      assert KeySet(gs) == {gs[0].key} + KeySet(gs[1..]) by {
        forall x | x in KeySet(gs) ensures x in {gs[0].key} + KeySet(gs[1..]) {
          var i :| 0 <= i < |gs| && gs[i].key == x;
          if i > 0 { assert gs[1..][i - 1].key == x; }
        }
        forall x | x in KeySet(gs[1..]) ensures x in KeySet(gs) {
          var i :| 0 <= i < |gs[1..]| && gs[1..][i].key == x;
          assert gs[i + 1].key == x;
        }
      }
    }
  }

  /** In a key-sorted list every group is the one found under its own key. */
  lemma {:induction false} FindAt(gs: seq<Group>, i: int)
    requires KeysAscending(gs)
    requires 0 <= i < |gs|
    ensures Find(gs, gs[i].key) == Some(gs[i])
  {
    if i > 0 {
      assert gs[0].key != gs[i].key by {
        LessIrreflexive(gs[i].key);
      }
      assert KeysAscending(gs[1..]);
      FindAt(gs[1..], i - 1);
    }
  }

  lemma KeySetCons(g: Group, gs: seq<Group>)
    ensures KeySet([g] + gs) == {g.key} + KeySet(gs)
  {
    var r := [g] + gs;
    forall x | x in KeySet(r) ensures x in {g.key} + KeySet(gs) {
      var i :| 0 <= i < |r| && r[i].key == x;
      if i > 0 { assert gs[i - 1].key == x; }
    }
    forall x | x in KeySet(gs) ensures x in KeySet(r) {
      var i :| 0 <= i < |gs| && gs[i].key == x;
      assert r[i + 1].key == x;
    }
    assert r[0].key == g.key;
  }

  lemma {:induction false} InsertKeys(gs: seq<Group>, k: string, v: int)
    ensures KeySet(Insert(gs, k, v)) == KeySet(gs) + {k}
  {
    if |gs| == 0 {
      KeySetCons(Group(k, v, 1), []);
    } else {
      KeySetCons(gs[0], gs[1..]);
      assert gs == [gs[0]] + gs[1..];
      if gs[0].key == k {
        KeySetCons(Bump(Some(gs[0]), k, v), gs[1..]);
      } else if Less(k, gs[0].key) {
        KeySetCons(Group(k, v, 1), gs);
      } else {
        InsertKeys(gs[1..], k, v);
        KeySetCons(gs[0], Insert(gs[1..], k, v));
      }
    }
  }

  lemma {:induction false} ConsAscending(g: Group, t: seq<Group>)
    requires KeysAscending(t)
    requires forall i :: 0 <= i < |t| ==> Less(g.key, t[i].key)
    ensures KeysAscending([g] + t)
  {
    var r := [g] + t;
    forall i, j | 0 <= i < j < |r| ensures Less(r[i].key, r[j].key) {
      assert r[j] == t[j - 1];
      if i > 0 {
        assert r[i] == t[i - 1];
      }
    }
  }

  /** Every key of a key-sorted list after its head is above the head's key. */
  lemma {:induction false} HeadBelowTail(gs: seq<Group>)
    requires |gs| > 0 && KeysAscending(gs)
    ensures KeysAscending(gs[1..])
    ensures forall i :: 0 <= i < |gs[1..]| ==> Less(gs[0].key, gs[1..][i].key)
  {
    forall i | 0 <= i < |gs[1..]| ensures Less(gs[0].key, gs[1..][i].key) {
      assert gs[1..][i] == gs[i + 1];
    }
  }

  lemma {:induction false} InsertAscending(gs: seq<Group>, k: string, v: int)
    requires KeysAscending(gs)
    ensures KeysAscending(Insert(gs, k, v))
  {
    if |gs| > 0 {
      HeadBelowTail(gs);
      if gs[0].key == k {
        ConsAscending(Bump(Some(gs[0]), k, v), gs[1..]);
      } else if Less(k, gs[0].key) {
        forall j | 0 <= j < |gs| ensures Less(k, gs[j].key) {
          if j > 0 {
            assert gs[1..][j - 1] == gs[j];
            LessTransitive(k, gs[0].key, gs[j].key);
          }
        }
        ConsAscending(Group(k, v, 1), gs);
      } else {
        LessTrichotomy(k, gs[0].key);
        var t := Insert(gs[1..], k, v);
        InsertAscending(gs[1..], k, v);
        InsertKeys(gs[1..], k, v);
        forall i | 0 <= i < |t| ensures Less(gs[0].key, t[i].key) {
          assert t[i].key in KeySet(gs[1..]) + {k};
        }
        ConsAscending(gs[0], t);
      }
    }
  }

  /** Inserting changes the group for `k` only, and changes it by one row of value `v`. */
  lemma {:induction false} InsertFind(gs: seq<Group>, k: string, v: int, j: string)
    requires KeysAscending(gs)
    ensures Find(Insert(gs, k, v), j) == if j == k then Some(Bump(Find(gs, k), k, v)) else Find(gs, j)
  {
    if |gs| == 0 {
    } else if gs[0].key == k {
    } else if Less(k, gs[0].key) {
      if j == k {
        FindSpec(gs, k);
        if k in KeySet(gs) {
          var i :| 0 <= i < |gs| && gs[i].key == k;
          if i == 0 {
          } else {
            LessTransitive(k, gs[0].key, gs[i].key);
            LessIrreflexive(k);
          }
        }
      }
    } else {
      assert KeysAscending(gs[1..]);
      InsertFind(gs[1..], k, v, j);
    }
  }

  lemma {:induction false} GroupByAscending(ts: seq<EnrichedTask>, dim: GroupKey, m: Measure)
    ensures KeysAscending(GroupBy(ts, dim, m))
  {
    if |ts| > 0 {
      var last := ts[|ts| - 1];
      GroupByAscending(ts[..|ts| - 1], dim, m);
      InsertAscending(GroupBy(ts[..|ts| - 1], dim, m), KeyOf(dim, last), ValueOf(m, last));
    }
  }

  /** The group a correct group-by holds for key `k`: None when no row has that key. */
  function ExpectedGroup(ts: seq<EnrichedTask>, dim: GroupKey, m: Measure, k: string): Option<Group> {
    if CountWhere(ts, dim, k) > 0 then Some(Group(k, SumWhere(ts, dim, m, k), CountWhere(ts, dim, k)))
    else None
  }

  /**
   * The group-by has a group for `k` exactly when some row has key `k`, and
   * that group holds the number of such rows and the sum of their measure.
   */
  lemma {:induction false} GroupByFind(ts: seq<EnrichedTask>, dim: GroupKey, m: Measure, k: string)
    ensures Find(GroupBy(ts, dim, m), k) == ExpectedGroup(ts, dim, m, k)
  {
    if |ts| > 0 {
      GroupByFind(ts[..|ts| - 1], dim, m, k);
      GroupByFindStep(ts, dim, m, k);
    }
  }

  /** One row more: the step of `GroupByFind`. */
  lemma {:induction false} GroupByFindStep(ts: seq<EnrichedTask>, dim: GroupKey, m: Measure, k: string)
    requires |ts| > 0
    requires Find(GroupBy(ts[..|ts| - 1], dim, m), k) == ExpectedGroup(ts[..|ts| - 1], dim, m, k)
    ensures Find(GroupBy(ts, dim, m), k) == ExpectedGroup(ts, dim, m, k)
  {
    var p := ts[..|ts| - 1];
    var last := ts[|ts| - 1];
    var g := GroupBy(p, dim, m);
    var key, v := KeyOf(dim, last), ValueOf(m, last);
    assert GroupBy(ts, dim, m) == Insert(g, key, v);
    GroupByAscending(p, dim, m);
    InsertFind(g, key, v, k);
    if key == k {
      assert CountWhere(ts, dim, k) == CountWhere(p, dim, k) + 1;
      assert SumWhere(ts, dim, m, k) == SumWhere(p, dim, m, k) + v;
      if CountWhere(p, dim, k) == 0 {
        SumWhereOfAbsentKey(p, dim, m, k);
      }
    } else {
      assert CountWhere(ts, dim, k) == CountWhere(p, dim, k);
      assert SumWhere(ts, dim, m, k) == SumWhere(p, dim, m, k);
    }
  }

  lemma {:induction false} SumWhereOfAbsentKey(ts: seq<EnrichedTask>, dim: GroupKey, m: Measure, k: string)
    requires CountWhere(ts, dim, k) == 0
    ensures SumWhere(ts, dim, m, k) == 0
  {
    if |ts| > 0 {
      SumWhereOfAbsentKey(ts[..|ts| - 1], dim, m, k);
    }
  }

  /** A key is counted at least once exactly when some row carries it. */
  lemma {:induction false} CountWhereSpec(ts: seq<EnrichedTask>, dim: GroupKey, k: string)
    ensures CountWhere(ts, dim, k) > 0 <==> exists i :: 0 <= i < |ts| && KeyOf(dim, ts[i]) == k
  {
    if |ts| > 0 {
      var p := ts[..|ts| - 1];
      CountWhereSpec(p, dim, k);
      if exists i :: 0 <= i < |ts| && KeyOf(dim, ts[i]) == k {
        var i :| 0 <= i < |ts| && KeyOf(dim, ts[i]) == k;
        if i < |p| { assert p[i] == ts[i]; }
      }
      if exists i :: 0 <= i < |p| && KeyOf(dim, p[i]) == k {
        var i :| 0 <= i < |p| && KeyOf(dim, p[i]) == k;
        assert ts[i] == p[i];
      }
    }
  }

  /**
   * Every group of the result is non-empty and aggregates exactly the rows
   * with its key; the groups' keys are the distinct keys of the rows.
   */
  lemma {:induction false} GroupBySpec(ts: seq<EnrichedTask>, dim: GroupKey, m: Measure)
    ensures var gs := GroupBy(ts, dim, m);
      && KeysAscending(gs)
      && (forall i :: 0 <= i < |gs| ==>
            gs[i].count == CountWhere(ts, dim, gs[i].key) > 0 &&
            gs[i].total == SumWhere(ts, dim, m, gs[i].key))
      && (forall i :: 0 <= i < |ts| ==> KeyOf(dim, ts[i]) in KeySet(gs))
      && (|gs| > 0 <==> |ts| > 0)
  {
    var gs := GroupBy(ts, dim, m);
    GroupByAscending(ts, dim, m);
    forall i | 0 <= i < |gs|
      ensures gs[i].count == CountWhere(ts, dim, gs[i].key) > 0
      ensures gs[i].total == SumWhere(ts, dim, m, gs[i].key)
    {
      FindAt(gs, i);
      GroupByFind(ts, dim, m, gs[i].key);
    }
    forall i | 0 <= i < |ts| ensures KeyOf(dim, ts[i]) in KeySet(gs) {
      CountWhereSpec(ts, dim, KeyOf(dim, ts[i]));
      GroupByFind(ts, dim, m, KeyOf(dim, ts[i]));
      FindSpec(gs, KeyOf(dim, ts[i]));
    }
    if |ts| > 0 {
      assert KeyOf(dim, ts[0]) in KeySet(gs);
    } else {
      assert gs == [];
    }
  }

  /** Where the group of a key that occurs in the rows sits in the group-by result. */
  lemma {:induction false} GroupPosition(ts: seq<EnrichedTask>, dim: GroupKey, m: Measure, k: string) returns (j: nat)
    requires CountWhere(ts, dim, k) > 0
    ensures var gs := GroupBy(ts, dim, m);
      j < |gs| && gs[j] == Group(k, SumWhere(ts, dim, m, k), CountWhere(ts, dim, k))
  {
    var gs := GroupBy(ts, dim, m);
    GroupByFind(ts, dim, m, k);
    FindSpec(gs, k);
    j :| j < |gs| && gs[j] == Find(gs, k).value;
  }

  function TotalOfGroups(gs: seq<Group>): int {
    if |gs| == 0 then 0 else gs[0].total + TotalOfGroups(gs[1..])
  }

  function CountOfGroups(gs: seq<Group>): int {
    if |gs| == 0 then 0 else gs[0].count + CountOfGroups(gs[1..])
  }

  /** Each row lands in exactly one group: the groups partition the rows and their measure. */
  lemma {:induction false} GroupsPartitionRows(ts: seq<EnrichedTask>, dim: GroupKey, m: Measure)
    ensures TotalOfGroups(GroupBy(ts, dim, m)) == SumAll(ts, m)
    ensures CountOfGroups(GroupBy(ts, dim, m)) == |ts|
  {
    if |ts| > 0 {
      var last := ts[|ts| - 1];
      GroupsPartitionRows(ts[..|ts| - 1], dim, m);
      InsertAddsOne(GroupBy(ts[..|ts| - 1], dim, m), KeyOf(dim, last), ValueOf(m, last));
    }
  }

  lemma {:induction false} InsertAddsOne(gs: seq<Group>, k: string, v: int)
    ensures TotalOfGroups(Insert(gs, k, v)) == TotalOfGroups(gs) + v
    ensures CountOfGroups(Insert(gs, k, v)) == CountOfGroups(gs) + 1
  {
    if |gs| > 0 && gs[0].key != k && !Less(k, gs[0].key) {
      InsertAddsOne(gs[1..], k, v);
      assert ([gs[0]] + Insert(gs[1..], k, v))[1..] == Insert(gs[1..], k, v);
    } else if |gs| > 0 {
      assert ([Bump(Some(gs[0]), k, v)] + gs[1..])[1..] == gs[1..];
      assert ([Group(k, v, 1)] + gs)[1..] == gs;
    }
  }
}
