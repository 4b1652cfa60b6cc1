/**
 * Resource bundles: the counts of the five materials a hand holds or an offer
 * moves. The slot order is the one of the engine's Materials class.
 */
module Resources {

  /** A material id: 0 cereal, 1 mineral, 2 clay, 3 wood, 4 wool. */
  type MaterialId = i: int | 0 <= i < 5

  const Cereal: MaterialId := 0
  const Mineral: MaterialId := 1
  const Clay: MaterialId := 2
  const Wood: MaterialId := 3
  const Wool: MaterialId := 4

  datatype Materials = Materials(cereal: nat, mineral: nat, clay: nat, wood: nat, wool: nat) {

    /** `get_from_id`: the count held in one slot (its relation to `ToList` and `Total` is stated there). */
    function Get(id: MaterialId): (n: nat)
    {
      if id == Cereal then cereal
      else if id == Mineral then mineral
      else if id == Clay then clay
      else if id == Wood then wood
      else wool
    }

    /** The same bundle with one slot replaced. */
    function With(id: MaterialId, n: nat): (r: Materials)
      ensures r.Get(id) == n
      ensures forall other: MaterialId :: other != id ==> r.Get(other) == Get(other)
      ensures r.Total() + Get(id) == Total() + n
    {
      if id == Cereal then this.(cereal := n)
      else if id == Mineral then this.(mineral := n)
      else if id == Clay then this.(clay := n)
      else if id == Wood then this.(wood := n)
      else this.(wool := n)
    }

    /** `to_list`: the five counts in slot order. */
    function ToList(): (s: seq<nat>)
      ensures |s| == 5
      ensures forall id: MaterialId :: s[id] == Get(id)
    {
      [cereal, mineral, clay, wood, wool]
    }

    /** `sum(to_list())`, the hand's `get_total`: it bounds every slot, and a zero total means every slot is empty. */
    function Total(): (n: nat)
      ensures forall id: MaterialId :: Get(id) <= n
      ensures n == 0 ==> forall id: MaterialId :: Get(id) == 0
    {
      cereal + mineral + clay + wood + wool
    }

    /** Every slot holds at least what `need` asks for in it; then so does the total. */
    predicate Covers(need: Materials): (covers: bool)
      ensures covers ==> Total() >= need.Total()
    {
      var c := forall id: MaterialId :: Get(id) >= need.Get(id);
      assert c ==> (Get(Cereal) >= need.Get(Cereal) && Get(Mineral) >= need.Get(Mineral)
                    && Get(Clay) >= need.Get(Clay) && Get(Wood) >= need.Get(Wood) && Get(Wool) >= need.Get(Wool));
      c
    }
  }

  const Empty := Materials(0, 0, 0, 0, 0)

  /** Two bundles with the same count in every slot are the same bundle. */
  lemma SameSlots(a: Materials, b: Materials)
    requires forall id: MaterialId :: a.Get(id) == b.Get(id)
    ensures a == b
  {
    assert a.Get(Cereal) == b.Get(Cereal) && a.Get(Mineral) == b.Get(Mineral);
    assert a.Get(Clay) == b.Get(Clay) && a.Get(Wood) == b.Get(Wood) && a.Get(Wool) == b.Get(Wool);
  }

  /** Python's `max` of a non-empty list of counts. */
  function MaxOf(s: seq<int>): (r: int)
    requires |s| > 0
    ensures r in s
    ensures forall i :: 0 <= i < |s| ==> s[i] <= r
  {
    if |s| == 1 then s[0]
    else
      var m := MaxOf(s[..|s| - 1]);
      assert forall i :: 0 <= i < |s| - 1 ==> s[..|s| - 1][i] == s[i];
      if s[|s| - 1] > m then s[|s| - 1] else m
  }
}
