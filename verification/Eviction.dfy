/** Making a reservation fit a memory budget by evicting servers from the front of an order, as
    both modes of _make_room in src/services/joern_server_manager.py do. */
module Eviction {
  import opened Basics

  function Elements(s: seq<Hash>): set<Hash> {
    set h | h in s
  }

  // Without the first k servers of the order the reservation fits the budget.
  ghost predicate Fits(order: seq<Hash>, resv: map<Hash, nat>, k: nat, needed: nat, budget: int)
    requires k <= |order|
  {
    Total(resv - Elements(order[..k])) + needed <= budget
  }

  // The shortest such prefix, or the whole order if there is none.
  ghost predicate Shortest(order: seq<Hash>, resv: map<Hash, nat>, k: nat, needed: nat, budget: int) {
    && k <= |order|
    && (Fits(order, resv, k, needed, budget) || k == |order|)
    && forall j | 0 <= j < k :: !Fits(order, resv, j, needed, budget)
  }

  lemma FitsFromStart(order: seq<Hash>, resv: map<Hash, nat>, needed: nat, budget: int)
    ensures Fits(order, resv, 0, needed, budget) <==> Total(resv) + needed <= budget
  {
    assert order[..0] == [] && resv - Elements([]) == resv;
  }

  lemma NoneIsShortest(order: seq<Hash>, resv: map<Hash, nat>, needed: nat, budget: int)
    requires order == [] || Total(resv) + needed <= budget
    ensures Shortest(order, resv, 0, needed, budget)
  {
    FitsFromStart(order, resv, needed, budget);
  }

  lemma FitsWithoutFirst(order: seq<Hash>, resv: map<Hash, nat>, k: nat, needed: nat, budget: int)
    requires order != [] && k <= |order[1..]|
    ensures Fits(order, resv, k + 1, needed, budget) <==> Fits(order[1..], resv - {order[0]}, k, needed, budget)
  {
    assert order[..k + 1] == [order[0]] + order[1..][..k];
    assert Elements(order[..k + 1]) == {order[0]} + Elements(order[1..][..k]);
    assert resv - Elements(order[..k + 1]) == resv - {order[0]} - Elements(order[1..][..k]);
  }

  // If the first has to go, it and the shortest prefix of the rest are the shortest prefix.
  lemma ShortestWithFirst(order: seq<Hash>, resv: map<Hash, nat>, k: nat, needed: nat, budget: int)
    requires order != [] && Total(resv) + needed > budget
    requires Shortest(order[1..], resv - {order[0]}, k, needed, budget)
    ensures Shortest(order, resv, k + 1, needed, budget)
  {
    FitsFromStart(order, resv, needed, budget);
    FitsWithoutFirst(order, resv, k, needed, budget);
    forall j | 0 <= j < k + 1 ensures !Fits(order, resv, j, needed, budget) {
      if j > 0 {
        FitsWithoutFirst(order, resv, j - 1, needed, budget);
      }
    }
  }
}
