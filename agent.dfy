/**
 * The agent object: the weights read from its chromosome, the small state it
 * keeps between calls, and one member per decision point the engine calls.
 * Each member runs the source's loops and is proved to agree with the rules
 * in module AgentRules.
 */
module Agent {
  import opened Wrappers
  import opened Resources
  import opened Engine
  import opened Selection
  import opened AgentRules

  /** The thief decision: a terrain (none when no move is valid) and the player to rob. */
  datatype ThiefMove = ThiefMove(terrain: Option<HexId>, player: int)

  datatype BuildChoice = PlayDevCard(card: DevCard) | Build(action: BuildAction) | NoBuild

  /** The request loop: every positive deficit entry is added to the request. */
  method RequestDeficit(deficit: seq<int>) returns (receives: Materials)
    requires |deficit| == 5
    ensures receives == ReceivesFor(deficit)
  {
    receives := Empty;
    for matId := 0 to 5
      invariant forall id: MaterialId :: receives.Get(id) == if id < matId then Pos(deficit[id]) else 0
    {
      var amount := deficit[matId];
      if amount > 0 {
        receives := receives.With(matId, receives.Get(matId) + amount);
      }
    }
    SameSlots(receives, ReceivesFor(deficit));
  }

  /** The surplus loop: whatever is held beyond the kept amount is added to the gift. */
  method OfferSurplus(have: Materials, kept: seq<int>) returns (gives: Materials)
    requires |kept| == 5
    ensures gives == GivesFor(have, kept)
  {
    gives := Empty;
    for matId := 0 to 5
      invariant forall id: MaterialId :: gives.Get(id) == if id < matId then Extra(have.Get(id), kept[id]) else 0
    {
      var held := have.Get(matId);
      var needed := kept[matId];
      if held > needed {
        var extra := held - needed;
        gives := gives.With(matId, gives.Get(matId) + extra);
      }
    }
    SameSlots(gives, GivesFor(have, kept));
  }

  /**
   * The offer of the commerce phase: the deficit (clamped for the town, the
   * plain differences for the city), then the request and surplus loops.
   */
  method BuildOffer(townNumber: int, have: Materials) returns (offer: TradeOffer)
    ensures offer == OfferAsWritten(townNumber, have)
  {
    var deficit: seq<int>;
    if townNumber >= 1 {
      deficit := [2 - have.cereal, 3 - have.mineral, 0, 0, 0];
    } else {
      deficit := Deficit(have, Needs(townNumber));
    }
    var receives := RequestDeficit(deficit);
    var gives := OfferSurplus(have, deficit);
    offer := TradeOffer(gives, receives);
  }

  /** The scan of the development-card hand for the first card carrying `e`. */
  method FindFirstCard(cards: seq<DevCard>, e: Effect) returns (idx: Option<nat>)
    ensures idx == FirstWithEffect(cards, e)
  {
    for i := 0 to |cards|
      invariant forall j :: 0 <= j < i ==> cards[j].effect != e
    {
      if cards[i].effect == e {
        var first := FirstWithEffect(cards, e);
        assert first.Some? && !(first.value < i) && !(i < first.value);
        return Some(i);
      }
    }
    return None;
  }

  /** The build phase's card loop: the first card whose random draw falls below `weight`. */
  method FirstCoinBelow(count: nat, coin: nat -> real, weight: real) returns (idx: Option<nat>)
    ensures idx.None? <==> forall i :: 0 <= i < count ==> coin(i) >= weight
    ensures idx.Some? ==> idx.value < count && coin(idx.value) < weight
    ensures idx.Some? ==> forall j :: 0 <= j < idx.value ==> coin(j) >= weight
  {
    for i := 0 to count
      invariant forall j :: 0 <= j < i ==> coin(j) >= weight
    {
      if coin(i) < weight {
        return Some(i);
      }
    }
    return None;
  }

  class MimiSantiRebolloAgent {
    const id: int

    var weightInitPos: real
    var weightBlock: real
    var weightDiscard: real
    var weightTrade: real
    var weightBuildRoad: real
    var weightBuildTown: real
    var weightBuildCity: real
    var weightDevCard: real
    var extraGenes: seq<real>

    /** Towns placed through the start of the game. */
    var townNumber: int
    /** Set by an offer to the largest requested count, cleared when no trade is needed. */
    var materialGivenMoreThanThree: Option<nat>
    var yearOfPlentyMaterialOne: MaterialId
    var yearOfPlentyMaterialTwo: MaterialId

    /** The board last handed to the agent, its hand and its development cards. */
    var board: Board
    var hand: Hand
    var devCards: seq<DevCard>

    ghost predicate Valid()
      reads this
    {
      townNumber >= 0 && RememberedInRange(materialGivenMoreThanThree)
    }

    /** The weights as a gene record. */
    function Weights(): Genes
      reads this
    {
      Genes(weightInitPos, weightBlock, weightDiscard, weightTrade,
            weightBuildRoad, weightBuildTown, weightBuildCity, weightDevCard, extraGenes)
    }

    constructor (agentId: int, chromosome: seq<real>)
      requires |chromosome| >= 8
      ensures Valid()
      ensures id == agentId && Weights() == DecodeChromosome(chromosome).value
      ensures townNumber == 0 && materialGivenMoreThanThree == None
      ensures yearOfPlentyMaterialOne == Cereal && yearOfPlentyMaterialTwo == Mineral
      ensures fresh(hand) && hand.resources == Empty && devCards == []
    {
      id := agentId;
      weightInitPos := chromosome[0];
      weightBlock := chromosome[1];
      weightDiscard := chromosome[2];
      weightTrade := chromosome[3];
      weightBuildRoad := chromosome[4];
      weightBuildTown := chromosome[5];
      weightBuildCity := chromosome[6];
      weightDevCard := chromosome[7];
      extraGenes := chromosome[8..];
      townNumber := 0;
      materialGivenMoreThanThree := None;
      yearOfPlentyMaterialOne := Cereal;
      yearOfPlentyMaterialTwo := Mineral;
      board := Board(map[], map[], [], [], map[], map[]);
      hand := new Hand(Empty);
      devCards := [];
    }

    /**
     * Setup placement: the start node with the first strict maximum of the
     * init-position score, a road towards one of its neighbours, and one
     * more town counted.
     */
    method OnGameStart(boardInstance: Board, roadChoice: nat) returns (node: NodeId, roadTo: NodeId)
      requires Valid()
      requires boardInstance.Valid() && |boardInstance.startingNodes| > 0
      requires forall k :: IsFirstMax(StartScores(weightInitPos, boardInstance), k) ==>
        |boardInstance.nodes[boardInstance.startingNodes[k]].adjacent| > 0
      modifies this`board, this`townNumber
      ensures Valid()
      ensures board == boardInstance && townNumber == old(townNumber) + 1
      ensures exists k :: IsFirstMax(StartScores(weightInitPos, boardInstance), k) && boardInstance.startingNodes[k] == node
      ensures node in boardInstance.nodes
      ensures var roads := boardInstance.nodes[node].adjacent; |roads| > 0 && roadTo == roads[roadChoice % |roads|]
    {
      board := boardInstance;
      var best := FirstBestIndex(StartScores(weightInitPos, board));
      var k := best.value;
      node := board.startingNodes[k];
      var roads := board.nodes[node].adjacent;
      roadTo := roads[roadChoice % |roads|];
      townNumber := townNumber + 1;
    }

    /** Trade acceptance: weighted gain against cost; the agent's state is not touched. */
    function OnTradeOffer(boardInstance: Board, offer: TradeOffer, playerId: int): (accept: bool)
      reads this
      ensures accept <==> AcceptsTrade(weightTrade, offer)
      ensures offer.gives.Total() == 0 ==> (accept <==> offer.receives.Total() == 0)
      ensures weightTrade >= 0.0 && offer.receives.Total() == 0 ==> accept
    {
      AcceptsTrade(weightTrade, offer)
    }

    /**
     * Discarding down to seven, in place on the hand. `draws` are the
     * random material draws, used one per pass once no cereal is left.
     */
    method OnHavingMoreThan7MaterialsWhenThiefIsCalled(draws: seq<MaterialId>) returns (result: Hand, exhausted: bool)
      modifies hand
      ensures result == hand
      ensures (hand.resources, exhausted) == Discard(old(hand.resources), draws)
    {
      var rest := draws;
      exhausted := false;
      while hand.GetTotal() > HandLimit
        invariant Discard(hand.resources, rest) == Discard(old(hand.resources), draws)
        decreases hand.resources.Total() + |rest|
      {
        if hand.resources.cereal > 0 {
          hand.RemoveMaterial(Cereal, 1);
        } else if |rest| == 0 {
          exhausted := true;
          break;
        } else {
          var mat := rest[0];
          rest := rest[1..];
          if hand.resources.Get(mat) > 0 {
            hand.RemoveMaterial(mat, 1);
          }
        }
      }
      result := hand;
    }

    /** The first knight card, if the agent holds one. */
    function OnTurnStart(): (r: Option<DevCard>)
      reads this
      ensures r.None? <==> forall i :: 0 <= i < |devCards| ==> devCards[i].effect != KnightEffect
      ensures r.Some? ==>
        exists i :: (0 <= i < |devCards| && devCards[i] == r.value && devCards[i].effect == KnightEffect
                     && forall j :: 0 <= j < i ==> devCards[j].effect != KnightEffect)
    {
      var knights := FindCardByEffect(devCards, KnightEffect);
      if |knights| > 0 then
        assert devCards[FirstWithEffect(devCards, KnightEffect).value] == knights[0];
        Some(knights[0])
      else None
    }

    /** The thief goes to the first hex with the largest weighted piece count; no player is named. */
    method OnMovingThief() returns (move: ThiefMove)
      requires board.Valid()
      ensures move.player == -1
      ensures move.terrain.None? <==> |board.thiefMoves| == 0
      ensures move.terrain.Some? ==>
        exists k :: IsFirstMax(ThiefScores(weightBlock, board), k) && board.thiefMoves[k] == move.terrain.value
    {
      var best := FirstBestIndex(ThiefScores(weightBlock, board));
      if best.Some? {
        move := ThiefMove(Some(board.thiefMoves[best.value]), -1);
      } else {
        move := ThiefMove(None, -1);
      }
    }

    /**
     * The commerce phase: play a monopoly card if a material is remembered,
     * skip when the hand covers the next build, otherwise propose a trade
     * when it is worth it.
     */
    method OnCommercePhase() returns (action: CommerceAction)
      requires Valid()
      modifies this`materialGivenMoreThanThree
      ensures Valid()
      ensures (action, materialGivenMoreThanThree)
        == CommerceDecision(weightTrade, townNumber, old(materialGivenMoreThanThree), hand.resources, devCards)
    {
      var given := materialGivenMoreThanThree;
      var have := hand.resources;
      ghost var decision := CommerceDecision(weightTrade, townNumber, given, have, devCards);
      if given.Some? {
        var i := FindFirstCard(devCards, MonopolyEffect);
        if i.Some? {
          CommercePlaysMonopolyFirst(weightTrade, townNumber, given, have, devCards, i.value);
          return PlayCard(devCards[i.value]);
        }
      }
      var needs := Needs(townNumber);
      if have.Covers(needs) {
        CommerceSkipsWhenCovered(weightTrade, townNumber, given, have, devCards);
        materialGivenMoreThanThree := None;
        return NoCommerce;
      }
      var offer := BuildOffer(townNumber, have);
      CommerceProposesIffWeighted(weightTrade, townNumber, given, have, devCards);
      if WorthProposing(weightTrade, offer) {
        materialGivenMoreThanThree := Some(MaxOf(offer.receives.ToList()));
        assert decision == (ProposeTrade(offer), materialGivenMoreThanThree);
        return ProposeTrade(offer);
      }
      assert decision == (NoCommerce, given);
      return NoCommerce;
    }

    /**
     * The build phase: play the first development card whose random draw
     * falls below the dev-card weight; otherwise build the first action with
     * the largest building weight, or nothing when no action is valid.
     */
    method OnBuildPhase(boardInstance: Board, coin: nat -> real) returns (choice: BuildChoice)
      requires id in boardInstance.buildActions
      modifies this`board
      ensures board == boardInstance
      ensures choice.PlayDevCard? <==> exists i :: 0 <= i < |devCards| && coin(i) < weightDevCard
      ensures choice.PlayDevCard? ==>
        exists i :: (0 <= i < |devCards| && devCards[i] == choice.card && coin(i) < weightDevCard
                     && forall j :: 0 <= j < i ==> coin(j) >= weightDevCard)
      ensures choice.NoBuild? <==>
        (forall i :: 0 <= i < |devCards| ==> coin(i) >= weightDevCard) && |boardInstance.buildActions[id]| == 0
      ensures choice.Build? ==>
        exists k :: (IsFirstMax(BuildScores(Weights(), boardInstance.buildActions[id]), k)
                     && boardInstance.buildActions[id][k] == choice.action)
    {
      board := boardInstance;
      var card := FirstCoinBelow(|devCards|, coin, weightDevCard);
      if card.Some? {
        return PlayDevCard(devCards[card.value]);
      }
      var actions := board.buildActions[id];
      var best := FirstBestIndex(BuildScores(Weights(), actions));
      if best.Some? {
        choice := Build(actions[best.value]);
      } else {
        choice := NoBuild;
      }
    }

    /** The material named for a monopoly: the remembered value, a count from one to three. */
    function OnMonopolyCardUse(): (r: Option<nat>)
      reads this
      requires Valid()
      ensures r == materialGivenMoreThanThree
      ensures r.Some? ==> 1 <= r.value <= 3
    {
      materialGivenMoreThanThree
    }
  }
}
