/**
 * The sum of the values of a finite map, independent of any key order.
 * The ledger needs it twice: the robber handler totals a hand with
 * `Object.values(...).reduce`, and conservation sums one resource kind
 * over every player.
 */
module Sums {

  /** A non-empty set of keys has an element to pick. */
  lemma NonEmptyHasElement(s: set<int>)
    requires s != {}
    ensures exists x :: x in s
  {
    if forall x :: x !in s {
      assert false;
    }
  }

  ghost function SumValues(m: map<int, int>): int
    decreases m.Keys
  {
    if m.Keys == {} then 0
    else
      NonEmptyHasElement(m.Keys);
      var k :| k in m;
      m[k] + SumValues(m - {k})
  }

  /** Any key may be taken out first: the sum does not depend on the choice. */
  lemma {:induction false} SumValuesRemove(m: map<int, int>, k: int)
    requires k in m
    ensures SumValues(m) == m[k] + SumValues(m - {k})
    decreases m.Keys
  {
    var j :| j in m && SumValues(m) == m[j] + SumValues(m - {j});
    if j != k {
      SumValuesRemove(m - {j}, k);
      SumValuesRemove(m - {k}, j);
      assert m - {j} - {k} == m - {k} - {j};
    }
  }

  /** Writing one entry changes the sum by the difference at that entry. */
  lemma SumValuesUpdate(m: map<int, int>, k: int, v: int)
    ensures SumValues(m[k := v]) == SumValues(m) - (if k in m then m[k] else 0) + v
  {
    SumValuesRemove(m[k := v], k);
    if k in m {
      SumValuesRemove(m, k);
      assert m[k := v] - {k} == m - {k};
    } else {
      assert m[k := v] - {k} == m;
    }
  }

  lemma {:induction false} SumValuesNonNegative(m: map<int, int>)
    requires forall k :: k in m ==> m[k] >= 0
    ensures SumValues(m) >= 0
    decreases m.Keys
  {
    if m.Keys != {} {
      NonEmptyHasElement(m.Keys);
      var k :| k in m;
      SumValuesRemove(m, k);
      SumValuesNonNegative(m - {k});
    }
  }

  /** With no negative entry, one positive entry makes the sum positive. */
  lemma SumValuesPositive(m: map<int, int>, k: int)
    requires forall j :: j in m ==> m[j] >= 0
    requires k in m && m[k] > 0
    ensures SumValues(m) > 0
  {
    SumValuesRemove(m, k);
    SumValuesNonNegative(m - {k});
  }

  /** A map whose entries are all zero sums to zero. */
  lemma {:induction false} SumValuesZero(m: map<int, int>)
    requires forall k :: k in m ==> m[k] == 0
    ensures SumValues(m) == 0
    decreases m.Keys
  {
    if m.Keys != {} {
      NonEmptyHasElement(m.Keys);
      var k :| k in m;
      SumValuesRemove(m, k);
      SumValuesZero(m - {k});
    }
  }
}
