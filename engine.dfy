/**
 * The parts of the game engine the agent talks to: its hand, its development
 * cards, trade offers and the board's query results. Only the operations the
 * agent uses are given, with the contracts the agent relies on.
 */
module Engine {
  import opened Wrappers
  import opened Resources

  type NodeId = int
  type HexId = int

  datatype Effect =
    | KnightEffect
    | VictoryPointEffect
    | RoadBuildingEffect
    | YearOfPlentyEffect
    | MonopolyEffect

  datatype DevCard = DevCard(id: int, effect: Effect)

  /** The index of the first card carrying `e`, if any. */
  function FirstWithEffect(cards: seq<DevCard>, e: Effect): (r: Option<nat>)
    ensures r.None? <==> forall i :: 0 <= i < |cards| ==> cards[i].effect != e
    ensures r.Some? ==> r.value < |cards| && cards[r.value].effect == e
    ensures r.Some? ==> forall j :: 0 <= j < r.value ==> cards[j].effect != e
  {
    if |cards| == 0 then None
    else if cards[0].effect == e then Some(0)
    else
      match FirstWithEffect(cards[1..], e)
      case None => None
      case Some(k) => Some(k + 1)
  }

  /** `find_card_by_effect`: the cards carrying `e`, in hand order. */
  function FindCardByEffect(cards: seq<DevCard>, e: Effect): (r: seq<DevCard>)
    ensures forall c :: c in r ==> c in cards && c.effect == e
    ensures |r| == 0 <==> FirstWithEffect(cards, e).None?
    ensures |r| > 0 ==> r[0] == cards[FirstWithEffect(cards, e).value]
  {
    if |cards| == 0 then []
    else if cards[0].effect == e then [cards[0]] + FindCardByEffect(cards[1..], e)
    else FindCardByEffect(cards[1..], e)
  }

  /** A proposal: what the proposer gives and what it asks to receive. */
  datatype TradeOffer = TradeOffer(gives: Materials, receives: Materials)

  /** The same exchange seen from the other party. */
  function Mirror(o: TradeOffer): TradeOffer {
    TradeOffer(o.receives, o.gives)
  }

  datatype Building = Road | Town | City | OtherBuilding

  datatype BuildAction = BuildAction(building: Building, location: int)

  datatype NodeInfo = NodeInfo(adjacent: seq<NodeId>, contactingTerrain: seq<HexId>)

  /**
   * The board as the agent sees it: its node and terrain tables and the
   * answers of `valid_starting_nodes`, `valid_thief_moves`,
   * `count_pieces_on_hex` and `valid_build_actions` (per player id).
   */
  datatype Board = Board(
    nodes: map<NodeId, NodeInfo>,
    terrainProbability: map<HexId, int>,
    startingNodes: seq<NodeId>,
    thiefMoves: seq<HexId>,
    piecesOnHex: map<HexId, nat>,
    buildActions: map<int, seq<BuildAction>>)
  {
    /** Every id the queries return can be looked up. */
    predicate Valid() {
      && (forall i :: 0 <= i < |startingNodes| ==>
            startingNodes[i] in nodes
            && KnownTerrain(nodes[startingNodes[i]].contactingTerrain, terrainProbability))
      && (forall i :: 0 <= i < |thiefMoves| ==> thiefMoves[i] in piecesOnHex)
    }
  }

  /** Every terrain id in `tids` has a probability. */
  predicate KnownTerrain(tids: seq<HexId>, probability: map<HexId, int>) {
    forall t :: t in tids ==> t in probability
  }

  /** The player's hand of materials, which the agent changes during a discard. */
  class Hand {
    var resources: Materials

    constructor (m: Materials)
      ensures resources == m
    {
      resources := m;
    }

    /** `get_total`: the units held, zero exactly for an empty hand. */
    function GetTotal(): (n: nat)
      reads this
      ensures n == resources.Total()
      ensures forall id: MaterialId :: resources.Get(id) <= n
    {
      resources.Total()
    }

    /** `remove_material`: take `amount` units out of one slot. */
    method RemoveMaterial(id: MaterialId, amount: nat)
      requires amount <= resources.Get(id)
      modifies this
      ensures resources == old(resources).With(id, old(resources).Get(id) - amount)
    {
      resources := resources.With(id, resources.Get(id) - amount);
    }
  }
}
