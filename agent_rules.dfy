/**
 * The decision rules of the genetically weighted agent, as functions of the
 * agent's weights and of what it holds. The agent class in module Agent runs
 * these rules step by step and is proved to agree with them.
 */
module AgentRules {
  import opened Wrappers
  import opened Resources
  import opened Engine
  import opened Selection

  // ---------------------------------------------------------------------------
  // Chromosome

  /** The eight named weights and the optional remaining genes. */
  datatype Genes = Genes(
    initPos: real, block: real, discard: real, trade: real,
    buildRoad: real, buildTown: real, buildCity: real, devCard: real,
    extra: seq<real>)

  /** The chromosome that carries `g`: the eight weights in order, then the extra genes. */
  function EncodeGenes(g: Genes): (c: seq<real>)
    ensures |c| == 8 + |g.extra|
  {
    [g.initPos, g.block, g.discard, g.trade, g.buildRoad, g.buildTown, g.buildCity, g.devCard] + g.extra
  }

  /**
   * Reading a chromosome: rejected when it has fewer than eight genes,
   * otherwise genes 0..7 are the named weights and genes 8.. the extra ones.
   */
  function DecodeChromosome(c: seq<real>): (r: Option<Genes>)
    ensures r.None? <==> |c| < 8
    ensures r.Some? ==> EncodeGenes(r.value) == c
  {
    if |c| < 8 then None
    else
      var g := Genes(c[0], c[1], c[2], c[3], c[4], c[5], c[6], c[7], c[8..]);
      assert EncodeGenes(g) == c[..8] + c[8..];
      Some(g)
  }

  /** Decoding an encoded chromosome gives back the same genes. */
  lemma DecodeEncode(g: Genes)
    ensures DecodeChromosome(EncodeGenes(g)) == Some(g)
  {
    var c := EncodeGenes(g);
    assert c[8..] == g.extra;
  }

  // ---------------------------------------------------------------------------
  // Trade acceptance

  /** A weight times a count of units or pieces. */
  function Scale(w: real, n: nat): real {
    w * (n as real)
  }

  /** Accept when the weighted number of units gained reaches the number of units paid. */
  predicate AcceptsTrade(weightTrade: real, offer: TradeOffer): (accept: bool)
    ensures offer.gives.Total() == 0 ==> (accept <==> offer.receives.Total() == 0)
    ensures weightTrade >= 0.0 && offer.receives.Total() == 0 ==> accept
  {
    ScaleZero(weightTrade);
    ScaleNonNegative(weightTrade, offer.gives.Total());
    Scale(weightTrade, offer.gives.Total()) >= offer.receives.Total() as real
  }

  /**
   * With a non-negative weight, an accepted offer stays accepted when the
   * proposer gives at least as many units in all and asks for at most as many.
   */
  lemma AcceptsTradeMonotone(weightTrade: real, o1: TradeOffer, o2: TradeOffer)
    requires weightTrade >= 0.0
    requires o2.gives.Total() >= o1.gives.Total() && o1.receives.Total() >= o2.receives.Total()
    ensures AcceptsTrade(weightTrade, o1) ==> AcceptsTrade(weightTrade, o2)
  {
    ScaleMonotone(weightTrade, o1.gives.Total(), o2.gives.Total());
  }

  lemma ScaleZero(w: real)
    ensures Scale(w, 0) == 0.0
  {
  }

  lemma ScaleNonNegative(w: real, n: nat)
    ensures w >= 0.0 ==> Scale(w, n) >= 0.0
  {
  }

  lemma ScaleMonotone(w: real, a: nat, b: nat)
    requires w >= 0.0 && a <= b
    ensures Scale(w, a) <= Scale(w, b)
  {
    assert w * (b as real) - w * (a as real) == w * ((b - a) as real);
  }

  // ---------------------------------------------------------------------------
  // Discarding down to seven

  const HandLimit: nat := 7

  /**
   * One pass of the discard loop. While cereal is held one cereal goes;
   * otherwise the next random draw names a material, which loses one unit
   * if it is held, and nothing happens if it is not.
   */
  function DiscardIteration(m: Materials, draws: seq<MaterialId>): (r: (Materials, seq<MaterialId>))
    requires m.cereal > 0 || |draws| > 0
    ensures r.0.Total() == m.Total() || r.0.Total() + 1 == m.Total()
    ensures forall id: MaterialId :: r.0.Get(id) <= m.Get(id)
    ensures forall id: MaterialId :: r.0.Get(id) < m.Get(id) ==> id == Cereal || m.cereal == 0
    ensures m.cereal > 0 ==> r == (m.With(Cereal, m.cereal - 1), draws)
    ensures m.cereal == 0 ==> r.1 == draws[1..]
    ensures r.0.Total() + |r.1| < m.Total() + |draws|
  {
    if m.cereal > 0 then (m.With(Cereal, m.cereal - 1), draws)
    else if m.Get(draws[0]) > 0 then (m.With(draws[0], m.Get(draws[0]) - 1), draws[1..])
    else (m, draws[1..])
  }

  /**
   * The whole discard loop: iterate until at most seven units are held.
   * With finitely many random draws supplied, the second component says
   * that the draws ran out while more than seven units were still held.
   */
  function Discard(m: Materials, draws: seq<MaterialId>): (r: (Materials, bool))
    ensures !r.1 ==> r.0.Total() <= HandLimit
    ensures r.1 ==> r.0.Total() > HandLimit && r.0.cereal == 0
    ensures m.Total() <= HandLimit ==> r == (m, false)
    ensures m.Total() > HandLimit && !r.1 ==> r.0.Total() == HandLimit
    ensures forall id: MaterialId :: r.0.Get(id) <= m.Get(id)
    ensures r.0.Get(Cereal) > 0 ==> forall id: MaterialId :: id != Cereal ==> r.0.Get(id) == m.Get(id)
    decreases m.Total() + |draws|
  {
    if m.Total() <= HandLimit then (m, false)
    else if m.cereal == 0 && |draws| == 0 then (m, true)
    else
      var next := DiscardIteration(m, draws);
      var r := Discard(next.0, next.1);
      assert r.0.Get(Cereal) > 0 ==> m.Get(Cereal) > 0;
      r
  }

  /**
   * When the cereal alone covers the excess, the discard takes exactly the
   * excess out of the cereal, touches nothing else and uses no random draw.
   */
  lemma {:induction false} DiscardOnlyCereal(m: Materials, draws: seq<MaterialId>)
    requires m.Total() > HandLimit
    requires m.cereal >= m.Total() - HandLimit
    ensures Discard(m, draws) == (m.With(Cereal, m.cereal - (m.Total() - HandLimit)), false)
    decreases m.Total()
  {
    var next := DiscardIteration(m, draws);
    assert next == (m.With(Cereal, m.cereal - 1), draws);
    if next.0.Total() > HandLimit {
      DiscardOnlyCereal(next.0, draws);
      SameSlots(next.0.With(Cereal, next.0.cereal - (next.0.Total() - HandLimit)),
                m.With(Cereal, m.cereal - (m.Total() - HandLimit)));
    } else {
      SameSlots(next.0, m.With(Cereal, m.cereal - (m.Total() - HandLimit)));
    }
  }

  // ---------------------------------------------------------------------------
  // Commerce phase

  const TownCost := Materials(1, 0, 1, 1, 1)
  const CityCost := Materials(2, 3, 0, 0, 0)

  /** The build the agent trades towards: a town before its first town, a city after. */
  function Needs(townNumber: int): (need: Materials)
    ensures need == TownCost <==> townNumber < 1
    ensures need == CityCost <==> townNumber >= 1
  {
    if townNumber >= 1 then CityCost else TownCost
  }

  function Pos(x: int): nat {
    if x > 0 then x else 0
  }

  /** What is missing of `need`: `max(0, need - have)` in every slot. */
  function Deficit(have: Materials, need: Materials): (d: seq<int>)
    ensures |d| == 5
    ensures forall id: MaterialId :: d[id] >= 0 && have.Get(id) + d[id] >= need.Get(id)
    ensures forall id: MaterialId :: d[id] > 0 ==> have.Get(id) + d[id] == need.Get(id)
  {
    [Pos(need.cereal - have.cereal), Pos(need.mineral - have.mineral), Pos(need.clay - have.clay),
     Pos(need.wood - have.wood), Pos(need.wool - have.wool)]
  }

  /**
   * The deficit as the source computes it: clamped for the town, but for the
   * city the plain differences `2 - cereal` and `3 - mineral`, which are
   * negative when more than the city needs is held.
   */
  function DeficitAsWritten(townNumber: int, have: Materials): (d: seq<int>)
    ensures |d| == 5
    ensures townNumber < 1 ==> d == Deficit(have, TownCost)
    ensures townNumber >= 1 ==> d[Cereal] + have.cereal == 2 && d[Mineral] + have.mineral == 3
    ensures townNumber >= 1 ==> d[Clay] == 0 && d[Wood] == 0 && d[Wool] == 0
  {
    if townNumber >= 1 then [2 - have.cereal, 3 - have.mineral, 0, 0, 0]
    else Deficit(have, TownCost)
  }

  /** The request built from a deficit: every positive entry is asked for. */
  function ReceivesFor(deficit: seq<int>): (r: Materials)
    requires |deficit| == 5
    ensures forall id: MaterialId :: r.Get(id) == Pos(deficit[id])
  {
    Materials(Pos(deficit[0]), Pos(deficit[1]), Pos(deficit[2]), Pos(deficit[3]), Pos(deficit[4]))
  }

  function Extra(have: nat, kept: int): nat {
    if have > kept then have - kept else 0
  }

  /** The gift built against a list of kept amounts: whatever is held beyond it. */
  function GivesFor(have: Materials, kept: seq<int>): (g: Materials)
    requires |kept| == 5
    ensures forall id: MaterialId :: g.Get(id) == Extra(have.Get(id), kept[id])
  {
    Materials(Extra(have.cereal, kept[0]), Extra(have.mineral, kept[1]), Extra(have.clay, kept[2]),
              Extra(have.wood, kept[3]), Extra(have.wool, kept[4]))
  }

  /** The offer as the source builds it: ask for the deficit, give what is held beyond the deficit. */
  function OfferAsWritten(townNumber: int, have: Materials): (o: TradeOffer)
    ensures forall id: MaterialId :: o.receives.Get(id) == Pos(DeficitAsWritten(townNumber, have)[id])
    ensures forall id: MaterialId :: have.Get(id) > DeficitAsWritten(townNumber, have)[id] ==>
      o.gives.Get(id) == have.Get(id) - DeficitAsWritten(townNumber, have)[id]
    ensures forall id: MaterialId :: have.Get(id) <= DeficitAsWritten(townNumber, have)[id] ==> o.gives.Get(id) == 0
  {
    var d := DeficitAsWritten(townNumber, have);
    TradeOffer(GivesFor(have, d), ReceivesFor(d))
  }

  /**
   * With a hand of five cereal and no mineral after the first town, the offer
   * as written gives eight cereal: more than the hand holds.
   */
  lemma CityOfferOverdraws()
    ensures !Materials(5, 0, 0, 0, 0).Covers(Needs(1))
    ensures OfferAsWritten(1, Materials(5, 0, 0, 0, 0)).gives.cereal == 8
    ensures !Materials(5, 0, 0, 0, 0).Covers(OfferAsWritten(1, Materials(5, 0, 0, 0, 0)).gives)
  {
    var have := Materials(5, 0, 0, 0, 0);
    assert have.Get(Mineral) < Needs(1).Get(Mineral);
    var o := OfferAsWritten(1, have);
    assert o.gives.Get(Cereal) == 8;
    assert have.Get(Cereal) < o.gives.Get(Cereal);
  }

  /**
   * With one cereal before the first town, the offer as written gives that
   * cereal away and asks for none, so the swap leaves no cereal for the town.
   */
  lemma TownOfferGivesAwayNeed()
    ensures !Materials(1, 0, 0, 0, 0).Covers(Needs(0))
    ensures OfferAsWritten(0, Materials(1, 0, 0, 0, 0)).gives.cereal == 1
    ensures OfferAsWritten(0, Materials(1, 0, 0, 0, 0)).receives.cereal == 0
    ensures var o := OfferAsWritten(0, Materials(1, 0, 0, 0, 0));
      Materials(1, 0, 0, 0, 0).cereal - o.gives.cereal + o.receives.cereal < TownCost.cereal
  {
    var have := Materials(1, 0, 0, 0, 0);
    assert have.Get(Clay) < Needs(0).Get(Clay);
    var o := OfferAsWritten(0, have);
    assert o.gives.Get(Cereal) == 1 && o.receives.Get(Cereal) == 0;
  }

  /**
   * The offer the agent makes: ask for the deficit, give what is held beyond
   * the build's needs.
   */
  function ProposedOffer(townNumber: int, have: Materials): (o: TradeOffer)
    ensures o.receives == ReceivesFor(Deficit(have, Needs(townNumber)))
    ensures o.gives == GivesFor(have, Needs(townNumber).ToList())
  {
    var need := Needs(townNumber);
    TradeOffer(GivesFor(have, need.ToList()), ReceivesFor(Deficit(have, need)))
  }

  /**
   * The proposed offer never gives more than is held, and after the swap
   * the hand holds exactly what the build needs.
   */
  lemma ProposedOfferSettlesNeeds(townNumber: int, have: Materials)
    ensures have.Covers(ProposedOffer(townNumber, have).gives)
    ensures forall id: MaterialId ::
      have.Get(id) - ProposedOffer(townNumber, have).gives.Get(id) + ProposedOffer(townNumber, have).receives.Get(id)
      == Needs(townNumber).Get(id)
  {
    var need := Needs(townNumber);
    var o := ProposedOffer(townNumber, have);
    forall id: MaterialId
      ensures have.Get(id) >= o.gives.Get(id)
      ensures have.Get(id) - o.gives.Get(id) + o.receives.Get(id) == need.Get(id)
    {
      assert need.ToList()[id] == need.Get(id);
      assert o.gives.Get(id) == Extra(have.Get(id), need.Get(id));
      assert o.receives.Get(id) == Pos(Deficit(have, need)[id]);
    }
  }

  /**
   * When the hand does not cover the build, the request is not empty, and
   * its largest entry lies between one and three.
   */
  lemma ProposedRequestBounds(townNumber: int, have: Materials)
    requires !have.Covers(Needs(townNumber))
    ensures 1 <= MaxOf(ProposedOffer(townNumber, have).receives.ToList()) <= 3
    ensures ProposedOffer(townNumber, have).receives.Total() >= 1
  {
    var need := Needs(townNumber);
    var r := ProposedOffer(townNumber, have).receives;
    var id: MaterialId :| have.Get(id) < need.Get(id);
    assert r.Get(id) >= 1;
    assert r.ToList()[id] == r.Get(id);
    var s := r.ToList();
    forall i | 0 <= i < |s| ensures s[i] <= 3 {
      assert s[i] == r.Get(i) && r.Get(i) <= need.Get(i);
    }
  }

  // ---------------------------------------------------------------------------
  // The commerce decision

  /** Both offers ask for the same thing: the positive part of what the build still lacks. */
  lemma RequestAsWrittenIsDeficit(townNumber: int, have: Materials)
    ensures OfferAsWritten(townNumber, have).receives == ProposedOffer(townNumber, have).receives
  {
    var d := DeficitAsWritten(townNumber, have);
    var c := Deficit(have, Needs(townNumber));
    forall id: MaterialId ensures Pos(d[id]) == Pos(c[id]) {
      assert Needs(townNumber).ToList()[id] == Needs(townNumber).Get(id);
    }
    SameSlots(OfferAsWritten(townNumber, have).receives, ProposedOffer(townNumber, have).receives);
  }

  /** Propose when the weighted units asked for reach the units given away. */
  predicate WorthProposing(weightTrade: real, offer: TradeOffer): (worth: bool)
    ensures worth <==> AcceptsTrade(weightTrade, Mirror(offer))
  {
    Scale(weightTrade, offer.receives.Total()) >= offer.gives.Total() as real
  }

  datatype CommerceAction = NoCommerce | PlayCard(card: DevCard) | ProposeTrade(offer: TradeOffer)

  /** The remembered material is always absent or a count between one and three. */
  predicate RememberedInRange(given: Option<nat>) {
    given.Some? ==> 1 <= given.value <= 3
  }

  /**
   * The commerce phase as the agent runs it, with the offer the source
   * builds. Result: the action and the new value of the agent's remembered
   * "material given more than three".
   */
  function CommerceDecision(weightTrade: real, townNumber: int, given: Option<nat>,
                            have: Materials, cards: seq<DevCard>): (r: (CommerceAction, Option<nat>))
    ensures r.0.PlayCard? ==> given.Some? && r.0.card in cards && r.0.card.effect == MonopolyEffect && r.1 == given
    ensures r.0.ProposeTrade? ==> r.0.offer == OfferAsWritten(townNumber, have) && WorthProposing(weightTrade, r.0.offer)
    ensures RememberedInRange(given) ==> RememberedInRange(r.1)
  {
    var monopoly := FirstWithEffect(cards, MonopolyEffect);
    if given.Some? && monopoly.Some? then (PlayCard(cards[monopoly.value]), given)
    else if have.Covers(Needs(townNumber)) then (NoCommerce, None)
    else
      var offer := OfferAsWritten(townNumber, have);
      RequestAsWrittenIsDeficit(townNumber, have);
      ProposedRequestBounds(townNumber, have);
      if WorthProposing(weightTrade, offer)
      then (ProposeTrade(offer), Some(MaxOf(offer.receives.ToList())))
      else (NoCommerce, given)
  }

  /** With a remembered material and a monopoly card in hand, the first monopoly card is played. */
  lemma CommercePlaysMonopolyFirst(weightTrade: real, townNumber: int, given: Option<nat>,
                                   have: Materials, cards: seq<DevCard>, i: nat)
    requires given.Some?
    requires i < |cards| && cards[i].effect == MonopolyEffect
    requires forall j :: 0 <= j < i ==> cards[j].effect != MonopolyEffect
    ensures CommerceDecision(weightTrade, townNumber, given, have, cards) == (PlayCard(cards[i]), given)
  {
    var k := FirstWithEffect(cards, MonopolyEffect);
    assert k.Some?;
    assert !(k.value < i) && !(i < k.value);
  }

  /**
   * Outside the monopoly branch: when the hand covers the build nothing is
   * traded and the remembered material is cleared.
   */
  lemma CommerceSkipsWhenCovered(weightTrade: real, townNumber: int, given: Option<nat>,
                                 have: Materials, cards: seq<DevCard>)
    requires given.None? || forall i :: 0 <= i < |cards| ==> cards[i].effect != MonopolyEffect
    requires have.Covers(Needs(townNumber))
    ensures CommerceDecision(weightTrade, townNumber, given, have, cards) == (NoCommerce, None)
  {
  }

  /**
   * Outside the monopoly branch and with the build not covered, the offer
   * the source builds is made exactly when the weighted units asked for
   * reach the units given; it then remembers the largest requested count
   * (a count, not a material id), and otherwise keeps what it remembered.
   */
  lemma CommerceProposesIffWeighted(weightTrade: real, townNumber: int, given: Option<nat>,
                                    have: Materials, cards: seq<DevCard>)
    requires given.None? || forall i :: 0 <= i < |cards| ==> cards[i].effect != MonopolyEffect
    requires !have.Covers(Needs(townNumber))
    ensures var (action, remembered) := CommerceDecision(weightTrade, townNumber, given, have, cards);
      var offer := OfferAsWritten(townNumber, have);
      && (action.ProposeTrade? <==> WorthProposing(weightTrade, offer))
      && (action.ProposeTrade? ==>
            (action.offer == offer && remembered.Some?
             && remembered.value == MaxOf(offer.receives.ToList()) && 1 <= remembered.value <= 3))
      && (!action.ProposeTrade? ==> action == NoCommerce && remembered == given)
  {
    RequestAsWrittenIsDeficit(townNumber, have);
    ProposedRequestBounds(townNumber, have);
  }

  /** An offer the agent proposes is one its own acceptance rule accepts with the roles swapped. */
  lemma CommerceOfferSelfAccepted(weightTrade: real, townNumber: int, given: Option<nat>,
                                  have: Materials, cards: seq<DevCard>)
    ensures var d := CommerceDecision(weightTrade, townNumber, given, have, cards);
      d.0.ProposeTrade? ==> AcceptsTrade(weightTrade, Mirror(d.0.offer))
  {
    var d := CommerceDecision(weightTrade, townNumber, given, have, cards);
    if d.0.ProposeTrade? {
      assert WorthProposing(weightTrade, d.0.offer);
    }
  }

  /**
   * The commerce phase with the corrected offer of `ProposedOffer`: the
   * same branches, but the gift keeps back what the build needs.
   */
  function CommerceDecisionCorrected(weightTrade: real, townNumber: int, given: Option<nat>,
                                     have: Materials, cards: seq<DevCard>): (r: (CommerceAction, Option<nat>))
    ensures r.0.ProposeTrade? ==> r.0.offer == ProposedOffer(townNumber, have) && !have.Covers(Needs(townNumber))
    ensures (given.Some? && FirstWithEffect(cards, MonopolyEffect).Some?) || have.Covers(Needs(townNumber)) ==>
      r == CommerceDecision(weightTrade, townNumber, given, have, cards)
    ensures RememberedInRange(given) ==> RememberedInRange(r.1)
  {
    var monopoly := FirstWithEffect(cards, MonopolyEffect);
    if given.Some? && monopoly.Some? then (PlayCard(cards[monopoly.value]), given)
    else if have.Covers(Needs(townNumber)) then (NoCommerce, None)
    else
      var offer := ProposedOffer(townNumber, have);
      ProposedRequestBounds(townNumber, have);
      if WorthProposing(weightTrade, offer)
      then (ProposeTrade(offer), Some(MaxOf(offer.receives.ToList())))
      else (NoCommerce, given)
  }

  /**
   * After the first town, with five cereal and a trade weight of 1.5, the
   * source's offer (three mineral for eight cereal) is not worth proposing,
   * while the corrected one (three for three) is.
   */
  lemma CityDecisionsDiffer(given: Option<nat>)
    ensures CommerceDecision(1.5, 1, given, Materials(5, 0, 0, 0, 0), []) == (NoCommerce, given)
    ensures CommerceDecisionCorrected(1.5, 1, given, Materials(5, 0, 0, 0, 0), []).0.ProposeTrade?
  {
    var have := Materials(5, 0, 0, 0, 0);
    assert have.Get(Mineral) < Needs(1).Get(Mineral);
    var o := OfferAsWritten(1, have);
    assert o.gives == Materials(8, 0, 0, 0, 0) by {
      SameSlots(o.gives, Materials(8, 0, 0, 0, 0));
    }
    assert o.receives == Materials(0, 3, 0, 0, 0) by {
      SameSlots(o.receives, Materials(0, 3, 0, 0, 0));
    }
    assert Scale(1.5, 3) == 4.5;
    var c := ProposedOffer(1, have);
    assert c.gives == Materials(3, 0, 0, 0, 0) by {
      assert CityCost.ToList()[Cereal] == 2;
      SameSlots(c.gives, Materials(3, 0, 0, 0, 0));
    }
    RequestAsWrittenIsDeficit(1, have);
  }

  // ---------------------------------------------------------------------------
  // Scores of the three selections

  /** How many of the terrain ids have probability 6 or 8 (counted with repetition). */
  function HotTerrainCount(tids: seq<HexId>, probability: map<HexId, int>): (n: nat)
    requires KnownTerrain(tids, probability)
    ensures n <= |tids|
    ensures n == 0 <==> forall t :: t in tids ==> probability[t] != 6 && probability[t] != 8
  {
    if |tids| == 0 then 0
    else
      var rest := HotTerrainCount(tids[1..], probability);
      assert tids[0] in tids;
      assert forall t :: t in tids <==> t == tids[0] || t in tids[1..];
      if probability[tids[0]] == 6 || probability[tids[0]] == 8 then rest + 1 else rest
  }

  /** The start-node scores: the init-position weight times the count of 6 and 8 terrains touched. */
  function StartScores(weightInitPos: real, board: Board): (s: seq<real>)
    requires board.Valid()
    ensures |s| == |board.startingNodes|
    ensures forall i :: 0 <= i < |s| ==>
      s[i] == Scale(weightInitPos, HotTerrainCount(board.nodes[board.startingNodes[i]].contactingTerrain,
                                                   board.terrainProbability))
    ensures weightInitPos >= 0.0 ==> forall i :: 0 <= i < |s| ==> s[i] >= 0.0
  {
    forall n: nat ensures weightInitPos >= 0.0 ==> Scale(weightInitPos, n) >= 0.0 {
      ScaleNonNegative(weightInitPos, n);
    }
    seq(|board.startingNodes|, i requires 0 <= i < |board.startingNodes| && board.Valid() =>
      Scale(weightInitPos, HotTerrainCount(board.nodes[board.startingNodes[i]].contactingTerrain,
                                           board.terrainProbability)))
  }

  /** The thief-move scores: the block weight times the pieces on the hex. */
  function ThiefScores(weightBlock: real, board: Board): (s: seq<real>)
    requires board.Valid()
    ensures |s| == |board.thiefMoves|
  {
    seq(|board.thiefMoves|, i requires 0 <= i < |board.thiefMoves| && board.Valid() =>
      Scale(weightBlock, board.piecesOnHex[board.thiefMoves[i]]))
  }

  /** The weight of a building kind: the road, town or city gene, and 0 for any other building. */
  function BuildScore(g: Genes, b: Building): (score: real)
    ensures b.Road? ==> score == g.buildRoad
    ensures b.Town? ==> score == g.buildTown
    ensures b.City? ==> score == g.buildCity
    ensures b.OtherBuilding? ==> score == 0.0
  {
    match b
    case Road => g.buildRoad
    case Town => g.buildTown
    case City => g.buildCity
    case OtherBuilding => 0.0
  }

  /** The build-action scores: the weight of the action's building kind. */
  function BuildScores(g: Genes, actions: seq<BuildAction>): (s: seq<real>)
    ensures |s| == |actions|
  {
    seq(|actions|, i requires 0 <= i < |actions| => BuildScore(g, actions[i].building))
  }

  /**
   * Among build actions, the chosen one has the largest weight of all kinds
   * offered; on equal weights the earliest offered action is taken.
   */
  lemma {:induction false} BuildChoicePrefersHeavierKind(g: Genes, actions: seq<BuildAction>, k: nat, j: nat)
    requires IsFirstMax(BuildScores(g, actions), k)
    requires j < |actions|
    ensures BuildScore(g, actions[j].building) <= BuildScore(g, actions[k].building)
    ensures j < k ==> BuildScore(g, actions[j].building) < BuildScore(g, actions[k].building)
  {
    var s := BuildScores(g, actions);
    assert s[j] == BuildScore(g, actions[j].building) && s[k] == BuildScore(g, actions[k].building);
  }
}
