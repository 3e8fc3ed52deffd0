/** `idxmax` and `sort_values(ascending=False).head(n)` over group-by results. */
module Ranking {
  import opened Grouping

  /** A group's mean, `total / count`, exactly. */
  function Mean(g: Group): real {
    if g.count == 0 then 0.0 else g.total as real / g.count as real
  }

  /** `idxmax` over group sums: the position of the first group with the largest total. */
  function ArgMaxTotal(gs: seq<Group>): (i: nat)
    requires |gs| > 0
    ensures i < |gs|
    ensures forall j :: 0 <= j < |gs| ==> gs[j].total <= gs[i].total
    ensures forall j :: 0 <= j < i ==> gs[j].total < gs[i].total
  {
    if |gs| == 1 then 0
    else
      var i := ArgMaxTotal(gs[..|gs| - 1]);
      if gs[|gs| - 1].total > gs[i].total then |gs| - 1 else i
  }

  /** `idxmax` over group means: the position of the first group with the largest mean. */
  function ArgMaxMean(gs: seq<Group>): (i: nat)
    requires |gs| > 0
    ensures i < |gs|
    ensures forall j :: 0 <= j < |gs| ==> Mean(gs[j]) <= Mean(gs[i])
    ensures forall j :: 0 <= j < i ==> Mean(gs[j]) < Mean(gs[i])
  {
    if |gs| == 1 then 0
    else
      var i := ArgMaxMean(gs[..|gs| - 1]);
      if Mean(gs[|gs| - 1]) > Mean(gs[i]) then |gs| - 1 else i
  }

  /** No group of `gs` has a larger total than the one `idxmax` picks. */
  lemma {:induction false} ArgMaxDominates(gs: seq<Group>, g: Group)
    requires g in gs
    ensures g.total <= gs[ArgMaxTotal(gs)].total
  {
  }

  predicate DistinctKeys(gs: seq<Group>) {
    forall i, j :: 0 <= i < j < |gs| ==> gs[i].key != gs[j].key
  }

  /** `gs` without its `i`-th group. */
  function RemoveAt(gs: seq<Group>, i: nat): seq<Group>
    requires i < |gs|
  {
    gs[..i] + gs[i + 1..]
  }

  lemma {:induction false} RemoveAtMembers(gs: seq<Group>, i: nat)
    requires i < |gs|
    ensures forall g :: g in RemoveAt(gs, i) ==> g in gs
    ensures forall j :: 0 <= j < |gs| && j != i ==> gs[j] in RemoveAt(gs, i)
  {
    var r := RemoveAt(gs, i);
    forall j | 0 <= j < |gs| && j != i ensures gs[j] in r {
      if j < i { assert gs[j] == r[j]; } else { assert gs[j] == r[j - 1]; }
    }
  }

  lemma {:induction false} RemoveAtDistinct(gs: seq<Group>, i: nat)
    requires i < |gs|
    requires DistinctKeys(gs)
    ensures DistinctKeys(RemoveAt(gs, i))
    ensures forall g :: g in RemoveAt(gs, i) ==> g.key != gs[i].key
  {
    var r := RemoveAt(gs, i);
    forall k | 0 <= k < |r| ensures r[k].key != gs[i].key {
      if k < i { assert r[k] == gs[k]; } else { assert r[k] == gs[k + 1]; }
    }
    forall k, l | 0 <= k < l < |r| ensures r[k].key != r[l].key {
      var k' := if k < i then k else k + 1;
      var l' := if l < i then l else l + 1;
      assert r[k] == gs[k'] && r[l] == gs[l'];
    }
  }

  /**
   * The first `n` groups in descending order of total. Groups with equal
   * totals keep their key order.
   */
  function Top(gs: seq<Group>, n: nat): seq<Group>
    decreases n
  {
    if n == 0 || |gs| == 0 then []
    else
      var i := ArgMaxTotal(gs);
      [gs[i]] + Top(RemoveAt(gs, i), n - 1)
  }

  lemma {:induction false} TopLength(gs: seq<Group>, n: nat)
    ensures |Top(gs, n)| == if n < |gs| then n else |gs|
    decreases n
  {
    if n > 0 && |gs| > 0 {
      TopLength(RemoveAt(gs, ArgMaxTotal(gs)), n - 1);
    }
  }

  lemma {:induction false} TopMembers(gs: seq<Group>, n: nat)
    ensures forall g :: g in Top(gs, n) ==> g in gs
    decreases n
  {
    if n > 0 && |gs| > 0 {
      var i := ArgMaxTotal(gs);
      RemoveAtMembers(gs, i);
      TopMembers(RemoveAt(gs, i), n - 1);
    }
  }

  /** Totals never increase along the sequence. */
  predicate NonIncreasing(r: seq<Group>) {
    forall k, l :: 0 <= k < l < |r| ==> r[l].total <= r[k].total
  }

  lemma {:induction false} TopDescending(gs: seq<Group>, n: nat)
    ensures NonIncreasing(Top(gs, n))
    decreases n
  {
    if n > 0 && |gs| > 0 {
      var i := ArgMaxTotal(gs);
      var rest := RemoveAt(gs, i);
      TopDescending(rest, n - 1);
      TopMembers(rest, n - 1);
      DescendingStep(gs, i, Top(rest, n - 1));
    }
  }

  lemma {:induction false} DescendingStep(gs: seq<Group>, i: nat, t: seq<Group>)
    requires |gs| > 0 && i == ArgMaxTotal(gs)
    requires NonIncreasing(t)
    requires forall g :: g in t ==> g in RemoveAt(gs, i)
    ensures NonIncreasing([gs[i]] + t)
  {
    RemoveAtMembers(gs, i);
    forall l | 0 <= l < |t| ensures t[l].total <= gs[i].total {
      assert t[l] in t;
      ArgMaxDominates(gs, t[l]);
    }
    ConsNonIncreasing(gs[i], t);
  }

  lemma {:induction false} ConsNonIncreasing(g: Group, t: seq<Group>)
    requires NonIncreasing(t)
    requires forall l :: 0 <= l < |t| ==> t[l].total <= g.total
    ensures NonIncreasing([g] + t)
  {
    var r := [g] + t;
    forall k, l | 0 <= k < l < |r| ensures r[l].total <= r[k].total {
      assert r[l] == t[l - 1];
      if k > 0 {
        assert r[k] == t[k - 1];
      }
    }
  }

  /** No group of `gs` left out of `r` has a larger total than the last one listed. */
  predicate OmittedNotAbove(gs: seq<Group>, r: seq<Group>) {
    |r| > 0 ==> forall g :: g in gs && g !in r ==> g.total <= r[|r| - 1].total
  }

  lemma {:induction false} TopOmittedNotLarger(gs: seq<Group>, n: nat)
    ensures OmittedNotAbove(gs, Top(gs, n))
    decreases n
  {
    if n > 0 && |gs| > 0 {
      var i := ArgMaxTotal(gs);
      var rest := RemoveAt(gs, i);
      var t := Top(rest, n - 1);
      var r := [gs[i]] + t;
      assert Top(gs, n) == r;
      if |t| == 0 {
        forall g | g in gs ensures g.total <= gs[i].total {
          ArgMaxDominates(gs, g);
        }
      } else {
        TopOmittedNotLarger(rest, n - 1);
        OmittedStep(gs, i, t);
      }
    }
  }

  lemma {:induction false} OmittedStep(gs: seq<Group>, i: nat, t: seq<Group>)
    requires i < |gs| && |t| > 0
    requires OmittedNotAbove(RemoveAt(gs, i), t)
    ensures OmittedNotAbove(gs, [gs[i]] + t)
  {
    var r := [gs[i]] + t;
    RemoveAtMembers(gs, i);
    assert r[|r| - 1] == t[|t| - 1];
    forall g | g in gs && g !in r ensures g.total <= t[|t| - 1].total {
      var j :| 0 <= j < |gs| && gs[j] == g;
      assert j != i;
      assert g in RemoveAt(gs, i) && g !in t;
    }
  }

  /** When `n` covers every group, the ranking leaves none out. */
  lemma {:induction false} TopKeepsAllWhenShort(gs: seq<Group>, n: nat)
    requires |gs| <= n
    ensures forall g :: g in gs ==> g in Top(gs, n)
    decreases n
  {
    if n > 0 && |gs| > 0 {
      var i := ArgMaxTotal(gs);
      var rest := RemoveAt(gs, i);
      TopKeepsAllWhenShort(rest, n - 1);
      RemoveAtMembers(gs, i);
      forall g | g in gs ensures g in Top(gs, n) {
        var j :| 0 <= j < |gs| && gs[j] == g;
        if j != i {
          assert g in rest;
        }
      }
    }
  }

  lemma {:induction false} TopDistinct(gs: seq<Group>, n: nat)
    requires DistinctKeys(gs)
    ensures DistinctKeys(Top(gs, n))
    decreases n
  {
    if n > 0 && |gs| > 0 {
      var i := ArgMaxTotal(gs);
      var rest := RemoveAt(gs, i);
      RemoveAtDistinct(gs, i);
      var t := Top(rest, n - 1);
      TopDistinct(rest, n - 1);
      TopMembers(rest, n - 1);
      var r := [gs[i]] + t;
      forall k, l | 0 <= k < l < |r| ensures r[k].key != r[l].key {
        assert r[l] == t[l - 1] && t[l - 1] in rest;
        if k > 0 {
          assert r[k] == t[k - 1];
        }
      }
    }
  }

  /**
   * The ranking holds `min(n, |gs|)` groups taken from `gs`, in non-increasing
   * order of total, and no group left out has a larger total than the last
   * one listed. Distinct keys stay distinct.
   */
  lemma {:induction false} TopSpec(gs: seq<Group>, n: nat)
    ensures var r := Top(gs, n);
      && |r| == (if n < |gs| then n else |gs|)
      && (forall k :: 0 <= k < |r| ==> r[k] in gs)
      && NonIncreasing(r)
      && OmittedNotAbove(gs, r)
      && (DistinctKeys(gs) ==> DistinctKeys(r))
  {
    TopLength(gs, n);
    TopMembers(gs, n);
    TopDescending(gs, n);
    TopOmittedNotLarger(gs, n);
    if DistinctKeys(gs) {
      TopDistinct(gs, n);
    }
  }
}
