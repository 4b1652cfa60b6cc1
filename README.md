# MimiSantiRebollo agent and the game-result analysis, in Dafny

This project models two parts of the PyCatan repository.

The first part is the decision logic of `MimiSantiRebolloAgent`. It is a Catan
agent whose choices are driven by a chromosome of real-valued weights, meant to
be tuned by a genetic algorithm. The model covers each engine call:

- the constructor reads eight named weights from the chromosome, plus any extra genes;
- setup placement takes the start node with the best weighted count of 6/8 terrain and a road next to it;
- trade acceptance accepts when the weighted units gained reach the units paid;
- discarding removes cereal first, then random materials, until at most seven units are held;
- on turn start it plays the first knight card held;
- the thief goes to the hex with the best weighted piece count;
- the commerce phase plays monopoly, skips the trade, or proposes one;
- the build phase plays a random development card, or takes the build action with the best weight;
- monopoly use returns the remembered count (1 to 3), which the engine reads as a material id.

The second part is the result analysis run after a game:

- take the last round and the last turn by the numbers in their labels;
- take the player with the most victory points;
- the fitness is 1 when that player's seat is the chosen agent's position in the agent list, and 0 otherwise.

The files, one module each:

- `wrappers.dfy`: `Option`.
- `resources.dfy`: the five-material bundle (`Materials`) and Python's `max` of a list.
- `selection.dfy`: the running-best scan the agent uses three times. It updates only on a strictly greater score and starts from minus infinity. It is proved to return the first index of a maximal score.
- `engine.dfy`: the engine objects the agent talks to, namely development cards, trade offers, board query results, and the `Hand` class that the discard changes in place.
- `agent_rules.dfy`: the decision rules as pure functions, with the lemmas about them.
- `agent.dfy`: the agent as a class. Its fields are the weights and the state kept between calls. Its methods follow the source's loops and are proved to agree with the rules.
- `trace_analysis.dfy`: label parsing (`split`, `lstrip`, `int`), Python's `max` with a key over an ordered mapping, and the fitness computation.

Randomness becomes caller-supplied input:

- the discard loop's material draws are a finite sequence;
- the build phase's `random.random()` values are a function from card position to a real;
- `random.choice` of the road is an index taken modulo the number of neighbours.

## Model

| member | source | states |
|---|---|---|
| AgentRules.DecodeChromosome | Agents/MimiSantiRebolloAgent.py:43-56 | A chromosome is rejected exactly when it has fewer than eight genes. Otherwise genes 0..7 are the eight named weights in order and the rest are the extra genes, so re-encoding gives back the chromosome. |
| AgentRules.DecodeEncode | Agents/MimiSantiRebolloAgent.py:46-56 | Decoding the chromosome built from a gene record gives back that record. |
| Agent.MimiSantiRebolloAgent.constructor | Agents/MimiSantiRebolloAgent.py:41-62 | The weights are the decoded chromosome. Town count 0, no remembered material, year-of-plenty choices cereal and mineral, an empty hand and no development cards. |
| Agent.MimiSantiRebolloAgent.OnGameStart | Agents/MimiSantiRebolloAgent.py:64-83 | Stores the board. Returns the start node at the first strict maximum of init weight × (number of touched terrains with probability 6 or 8), and a road to one of that node's neighbours. Adds one to the town count. |
| AgentRules.StartScores | Agents/MimiSantiRebolloAgent.py:70-74 | One score per valid start node: the init weight times that node's count of 6/8 terrains. With a non-negative weight no score is negative. |
| AgentRules.HotTerrainCount | Agents/MimiSantiRebolloAgent.py:71-74 | The count of 6/8 terrains is at most the number of terrains touched, and is zero exactly when none has probability 6 or 8. |
| Selection.FirstBestIndex | Agents/MimiSantiRebolloAgent.py:68-77 | The running-best scan that starts at minus infinity. It returns nothing exactly for an empty list. Otherwise it returns an index whose score is maximal, with every earlier score strictly smaller. |
| Selection.FirstMaxUnique | Agents/MimiSantiRebolloAgent.py:75-77 | The strict `>` update makes the choice unique: at most one index is a first strict maximum. |
| AgentRules.AcceptsTrade | Agents/MimiSantiRebolloAgent.py:87-89 | The acceptance rule, trade weight × units in `gives` ≥ units in `receives`. An offer giving nothing passes exactly when it asks for nothing. With a non-negative weight, an offer asking for nothing always passes. |
| Agent.MimiSantiRebolloAgent.OnTradeOffer | Agents/MimiSantiRebolloAgent.py:85-89 | Accepts exactly when trade weight × units in `gives` ≥ units in `receives`. An offer giving nothing is accepted exactly when it asks for nothing. With a non-negative weight, an offer asking for nothing is always accepted. |
| AgentRules.AcceptsTradeMonotone | Agents/MimiSantiRebolloAgent.py:87-89 | With a non-negative weight, an accepted offer stays accepted when the proposer gives at least as many units and asks for no more. |
| AgentRules.ScaleMonotone | Agents/MimiSantiRebolloAgent.py:89 | A non-negative weight times a count grows with the count. |
| Resources.Materials.ToList | Agents/MimiSantiRebolloAgent.py:155-156 | `to_list()` lists the five counts in slot order: entry `mid` is `get_from_id(mid)`, the pairing the deficit comprehension relies on. |
| Resources.Materials.Total | Agents/MimiSantiRebolloAgent.py:179-180 | `sum(to_list())`: no slot read by `get_from_id` exceeds it, and a zero total means every slot is empty. |
| Engine.Hand.GetTotal | Agents/MimiSantiRebolloAgent.py:93 | `get_total()`, the discard loop's test, is the total of the hand's bundle, so no slot of the hand holds more. |
| Resources.Materials.Covers | Agents/MimiSantiRebolloAgent.py:146 | `has_more`, slot-wise: every slot holds at least what the build needs. A covering hand then holds at least as many units in all as the build needs. |
| Resources.Materials.With | Agents/MimiSantiRebolloAgent.py:164-166 | Replacing one slot sets that slot, leaves the other four alone, and changes the total by the difference. |
| Engine.Hand.RemoveMaterial | Agents/MimiSantiRebolloAgent.py:97 | Removing units changes only the named slot of the hand, by the amount removed. |
| AgentRules.DiscardIteration | Agents/MimiSantiRebolloAgent.py:96-101 | One pass: while cereal is held, exactly one cereal goes and no draw is used. Otherwise one draw is used, and the drawn material loses one unit if it is held. No slot grows, and at most one unit goes. |
| AgentRules.Discard | Agents/MimiSantiRebolloAgent.py:93-102 | A hand of at most seven units is unchanged. A larger hand ends with exactly seven units unless the draws run out, and that can only happen once no cereal is left. No slot grows. While cereal remains, only cereal has been discarded. |
| AgentRules.DiscardOnlyCereal | Agents/MimiSantiRebolloAgent.py:93-97 | When the cereal covers the excess, exactly the excess is taken from the cereal and nothing else changes. |
| Agent.MimiSantiRebolloAgent.OnHavingMoreThan7MaterialsWhenThiefIsCalled | Agents/MimiSantiRebolloAgent.py:91-102 | The loop changes the agent's hand in place to what `Discard` gives, and returns that same hand object. |
| Engine.FirstWithEffect | Agents/MimiSantiRebolloAgent.py:132-135 | The first index of a card with the given effect, or none when no card has it. |
| Engine.FindCardByEffect | Agents/MimiSantiRebolloAgent.py:106 | `find_card_by_effect` returns only cards of that effect from the hand. It is empty exactly when no card has the effect, and its head is the first such card. |
| Agent.FindFirstCard | Agents/MimiSantiRebolloAgent.py:132-135 | The `enumerate` loop over the card hand stops at the first monopoly card, as `FirstWithEffect` says. |
| Agent.MimiSantiRebolloAgent.OnTurnStart | Agents/MimiSantiRebolloAgent.py:104-107 | Returns nothing exactly when no knight is held. Otherwise returns the first knight card in hand order. |
| AgentRules.ThiefScores | Agents/MimiSantiRebolloAgent.py:113-115 | One score per valid thief move: the block weight times the pieces on that hex. |
| Agent.MimiSantiRebolloAgent.OnMovingThief | Agents/MimiSantiRebolloAgent.py:109-119 | Player −1. The terrain is absent exactly when no move is valid. Otherwise it is the valid hex at the first strict maximum of block weight × pieces. |
| AgentRules.Needs | Agents/MimiSantiRebolloAgent.py:139-143 | The build to trade towards is the town (1, 0, 1, 1, 1) exactly before the first town, and the city (2, 3, 0, 0, 0) exactly from then on. |
| AgentRules.Deficit | Agents/MimiSantiRebolloAgent.py:155-156 | For each material, the missing amount is never negative. Adding it to the hand covers the need, and it is exactly the gap when positive. |
| AgentRules.DeficitAsWritten | Agents/MimiSantiRebolloAgent.py:154-159 | The deficit as the source computes it. It is clamped for the town, but for the city it is the plain `2 − cereal`, `3 − mineral`, which goes negative. |
| AgentRules.OfferAsWritten | Agents/MimiSantiRebolloAgent.py:161-176 | The offer as the source builds it: it asks for the positive deficit and gives everything held beyond the deficit. |
| AgentRules.CityOfferOverdraws | Agents/MimiSantiRebolloAgent.py:159 | Counterexample: after the first town, with five cereal and nothing else, the offer as written gives eight cereal, more than the hand holds. |
| AgentRules.TownOfferGivesAwayNeed | Agents/MimiSantiRebolloAgent.py:168-172 | Counterexample: before the first town, with one cereal, the offer as written gives that cereal away and asks for none back. After the swap the hand holds less cereal than the town needs. |
| AgentRules.ReceivesFor | Agents/MimiSantiRebolloAgent.py:161-166 | The request holds, in each slot, the positive part of the deficit. |
| Agent.RequestDeficit | Agents/MimiSantiRebolloAgent.py:161-166 | The request loop produces `ReceivesFor` of the deficit. |
| AgentRules.GivesFor | Agents/MimiSantiRebolloAgent.py:168-176 | The gift holds, in each slot, whatever is held beyond the kept amount. |
| Agent.OfferSurplus | Agents/MimiSantiRebolloAgent.py:168-176 | The surplus loop produces `GivesFor` of the hand and the kept amounts. |
| AgentRules.ProposedOffer | Agents/MimiSantiRebolloAgent.py:150-176 | The corrected offer asks for the clamped deficit and gives what is held beyond the build's needs. |
| AgentRules.RequestAsWrittenIsDeficit | Agents/MimiSantiRebolloAgent.py:154-166 | The source's request and the corrected one are the same bundle for every town count and hand: the positive part of what the build lacks. |
| AgentRules.ProposedOfferSettlesNeeds | Agents/MimiSantiRebolloAgent.py:150-176 | The corrected offer never gives more than is held. After the swap the hand holds exactly what the town or city needs. |
| AgentRules.ProposedRequestBounds | Agents/MimiSantiRebolloAgent.py:179-183 | When the hand does not cover the build, the request is not empty and its largest entry is between 1 and 3. |
| Resources.MaxOf | Agents/MimiSantiRebolloAgent.py:183 | `max` of a non-empty list is one of its entries and at least every entry. |
| AgentRules.CommerceDecision | Agents/MimiSantiRebolloAgent.py:124-187 | The commerce phase with the offer the source builds. It plays a card only when a material is remembered, and that card is a monopoly card from the hand, with the remembered value kept. The remembered value stays absent or between 1 and 3. |
| AgentRules.CommercePlaysMonopolyFirst | Agents/MimiSantiRebolloAgent.py:131-135 | With a remembered material, the first monopoly card in the hand is played, and the remembered value is kept. |
| AgentRules.CommerceSkipsWhenCovered | Agents/MimiSantiRebolloAgent.py:139-148 | When the monopoly branch does not fire and the hand covers the town (before the first town) or the city (after it), nothing is traded and the remembered value is cleared. |
| AgentRules.CommerceProposesIffWeighted | Agents/MimiSantiRebolloAgent.py:150-187 | Otherwise the source's own offer is proposed exactly when trade weight × units asked ≥ units given. It then remembers the largest requested count, which lies between 1 and 3. When nothing is proposed, nothing is done and the remembered value stays as it was. |
| AgentRules.WorthProposing | Agents/MimiSantiRebolloAgent.py:179-181 | The proposal rule is the acceptance rule applied to the offer with its two sides swapped. |
| AgentRules.CommerceOfferSelfAccepted | Agents/MimiSantiRebolloAgent.py:179-184 | Any offer the commerce phase proposes would pass this agent's own acceptance rule from the other side. |
| Agent.BuildOffer | Agents/MimiSantiRebolloAgent.py:150-176 | The deficit (clamped for the town, plain `2 − cereal`, `3 − mineral` for the city), the request loop and the surplus loop together produce exactly the source's offer, `OfferAsWritten`. |
| Agent.MimiSantiRebolloAgent.OnCommercePhase | Agents/MimiSantiRebolloAgent.py:124-187 | The source's steps: the monopoly scan, the cover test, the offer of `BuildOffer`, then the weighted test. The action and the new remembered value are those of `CommerceDecision` on the old state, and the range invariant is kept. |
| AgentRules.CommerceDecisionCorrected | Agents/MimiSantiRebolloAgent.py:150-187 | The same phase with the corrected offer. It proposes only `ProposedOffer` and only when the build is not covered. In the monopoly and covered branches it agrees with `CommerceDecision`. The range invariant is kept. |
| AgentRules.CityDecisionsDiffer | Agents/MimiSantiRebolloAgent.py:159-181 | After the first town, with five cereal and weight 1.5, the source's phase proposes nothing, since 1.5 × 3 < 8. The corrected phase proposes, since 1.5 × 3 ≥ 3. |
| Agent.FirstCoinBelow | Agents/MimiSantiRebolloAgent.py:192-194 | Returns the first card position whose random draw is below the weight. Returns none exactly when no draw is below it. |
| AgentRules.BuildScore | Agents/MimiSantiRebolloAgent.py:201-208 | The weight of a build action: the road, town or city weight by building kind, and 0.0 for any other building. |
| AgentRules.BuildScores | Agents/MimiSantiRebolloAgent.py:200-208 | One score per valid build action. |
| AgentRules.BuildChoicePrefersHeavierKind | Agents/MimiSantiRebolloAgent.py:200-212 | The chosen action's building weight is at least that of every other action, and strictly greater than that of every earlier action. |
| Agent.MimiSantiRebolloAgent.OnBuildPhase | Agents/MimiSantiRebolloAgent.py:189-212 | Stores the board. Plays the first card whose draw is below the dev-card weight, and does so exactly when such a card exists. Otherwise builds the action at the first strict maximum of road/town/city weight (0 for anything else). Builds nothing exactly when no draw fires and no action is valid. |
| Agent.MimiSantiRebolloAgent.OnMonopolyCardUse | Agents/MimiSantiRebolloAgent.py:214-216 | Returns the remembered value, which is absent or between 1 and 3. |
| TraceAnalysis.LastSegment | runExecution.py:29-30 | `split(sep)[-1]`: a suffix without `sep`, preceded by `sep` unless it is the whole string. |
| TraceAnalysis.LastSegmentAfterSeparator | runExecution.py:29-30 | The text after the last separator is found again whatever comes before it. |
| TraceAnalysis.StripLeading | runExecution.py:30 | `lstrip(c)` drops a leading run made only of `c`, and what remains does not start with `c`. |
| TraceAnalysis.ParseInt | runExecution.py:29-35 | `int()` succeeds exactly on an optional sign followed by at least one digit, and reads a digit run as its decimal value. |
| TraceAnalysis.ShowNat | runExecution.py:29-35 | A number's decimal text is a digit run worth that number. |
| TraceAnalysis.ParseShowNat | runExecution.py:29-35 | Parsing a printed number gives the number back. |
| TraceAnalysis.RoundNumber | runExecution.py:29 | The round key parses the text after the last `_`, which is then not empty. A label without `_` is parsed whole. |
| TraceAnalysis.TurnNumber | runExecution.py:30 | The turn key is the round key of the same label once the `P`s that open its last segment are dropped. When the segment does not start with `P`, the turn key is the round key. |
| TraceAnalysis.RoundLabelNumber | runExecution.py:29 | A round labelled `<anything>_<n>` has key n. |
| TraceAnalysis.TurnLabelNumber | runExecution.py:30 | A turn labelled `<anything>_P<n>` has key n. |
| TraceAnalysis.KeysAll | runExecution.py:29-30 | The keys of all entries exist exactly when every label parses, and each is its entry's key. |
| TraceAnalysis.FirstMaxIndex | runExecution.py:29-33 | Python's `max`: the first position holding a largest key. |
| TraceAnalysis.MaxByKey | runExecution.py:29-30 | `max(mapping, key=…)` is defined exactly when the mapping is not empty and every key parses. It is then the first entry with the largest key. |
| TraceAnalysis.LastRound | runExecution.py:29 | The last round is found exactly when there is a round and every round label has a number. It is then the first round with the largest number. |
| TraceAnalysis.LastTurn | runExecution.py:30 | The last turn of a round, by the same rule on the turn numbers. |
| TraceAnalysis.MaxOfTwo | runExecution.py:29-30 | Of two entries, the one with the strictly larger key wins, in either order. |
| TraceAnalysis.RoundNineAndTen | runExecution.py:29 | `round_9` and `round_10` have keys 9 and 10. |
| TraceAnalysis.LastRoundIsNumeric | runExecution.py:29 | `round_10` is the last of `round_9` and `round_10` in either mapping order, although it sorts first as a string. |
| TraceAnalysis.Points | runExecution.py:33 | The victory-point values in mapping order. |
| TraceAnalysis.Winner | runExecution.py:33 | The winner is absent exactly when no player is listed. Otherwise it is the first player with the most victory points. |
| TraceAnalysis.IndexOf | runExecution.py:35 | `list.index`: absent exactly when the value is missing, otherwise its first position. |
| TraceAnalysis.SeatOf | runExecution.py:35 | `int(winner.lstrip("J"))`: a label not starting with `J` is parsed as it is, and one leading `J` is dropped at a time. |
| TraceAnalysis.Fitness | runExecution.py:34-36 | Defined exactly when the chosen agent is listed and the winner label parses. It is at most 1, and it is 1 exactly when the parsed seat is the agent's position. |
| TraceAnalysis.FitnessOfSeatLabel | runExecution.py:35-36 | For a winner labelled `J<seat>`, the fitness is 1 when the seat is the chosen agent's position and 0 otherwise. |
| TraceAnalysis.FinalPoints | runExecution.py:29-31 | The final victory points exist exactly when the last round and, within it, the last turn can be found. |
| TraceAnalysis.AnalyzeResult | runExecution.py:29-36 | A verdict is 0 or 1. It needs a non-empty set of final points and the chosen agent in the list. |
| TraceAnalysis.WinnerFitness | runExecution.py:33-36 | With seats labelled `J0`, `J1`, … in order, the fitness is 1 exactly when the chosen agent's seat is the first to hold the most points. |
| TraceAnalysis.AnalyzeResultRewardsFirstLeader | runExecution.py:29-36 | Over a whole trace with seat-labelled final points, the analysis always gives a verdict. The verdict is 1 exactly when the chosen agent's seat leads, ties broken towards the earlier seat. |

## Left out

- Randomness. `random.choice` and `random.random()` are replaced by inputs: a finite sequence of material draws, a function from card position to a draw, and a road index taken modulo the number of neighbours.
- Agent.MimiSantiRebolloAgent.OnHavingMoreThan7MaterialsWhenThiefIsCalled: with a finite sequence of draws, the loop can stop early with more than seven units, flagged by its second result. The source has no bound on its draws: it keeps drawing until it holds seven.
- Agent.MimiSantiRebolloAgent.OnGameStart: requires a non-empty list of start nodes, and a non-empty neighbour list for the node the scan picks. Otherwise the source raises, at `self.board.nodes[None]` or at `roads[0]`.
- Agent.MimiSantiRebolloAgent.OnMovingThief and OnBuildPhase: `OnMovingThief` requires a board whose thief moves all have a piece count, and `OnBuildPhase` requires the build-action list of its board to be present (`id in boardInstance.buildActions`). The board's own queries (`valid_starting_nodes`, `valid_thief_moves`, `count_pieces_on_hex`, `valid_build_actions`) are given as fields of the `Board` value and are not computed.
- Agent.MimiSantiRebolloAgent.constructor: the hand and the development-card hand come from the base constructor (`super().__init__(agent_id)`, line 42), which is not part of this model. They are taken to start as an empty hand and no cards.
- Agent.MimiSantiRebolloAgent.OnCommercePhase and OnBuildPhase: `select_card(i)` is modelled as handing back card `i`. That it also removes the card from the hand is engine behaviour and is not part of this model.
- Agent.MimiSantiRebolloAgent.OnCommercePhase: `has_more` is modelled as slot-wise ≥ (`Covers`), both on the town's `Materials(1,0,1,1,1)` and on `BuildConstants.CITY`, which is taken as the city cost (2 cereal, 3 mineral). The engine's `has_more` is not part of this model.
- `on_turn_end`, `on_road_building_card_use` and `on_year_of_plenty_card_use` only delegate to the base class, which is not part of this model.
- `weight_discard` is read from the chromosome but not used by any decision, in the source or here.
- Weights are exact reals. Floating-point rounding and `float('-inf')` are not modelled: minus infinity is the initial "no best yet", which every finite score beats.
- TraceAnalysis.ParseInt: accepts ASCII digits with an optional sign. Python's `int()` also accepts surrounding whitespace, underscores and non-ASCII digits.
- TraceAnalysis.AnalyzeResult: victory points are modelled as integers, so the `int()` applied to them is the identity. Mappings are sequences of (label, value) pairs in insertion order, with unique labels assumed but not required.
- The game run itself (`GameDirector.game_start`), the agent list set-up and the `try`/`except` around the game are not part of this model. Any failure of the analysis is the `None` result.

## Findings

| source | as written | input that shows it | evidently intended | confidence | as-written member | corrected member |
|---|---|---|---|---|---|---|
| Agents/MimiSantiRebolloAgent.py:159 | The city deficit is `2 - cereal`, `3 - mineral`, without the `max(0, …)` the town branch uses. A negative deficit makes the surplus loop give `have - deficit`, which is more than is held. | After the first town, hand (5 cereal, 0, 0, 0, 0): the deficit is [−3, 3, 0, 0, 0] and the offer gives 8 cereal. | Clamp the deficit at 0, as for the town. | not executed | AgentRules.CityOfferOverdraws | AgentRules.ProposedOfferSettlesNeeds |
| Agents/MimiSantiRebolloAgent.py:168-172 | The surplus keeps back only `deficit[mat]`, the amount still missing, rather than the amount the build needs. Materials the build needs and the hand already holds are given away. | Before the first town, hand (1 cereal, 0, 0, 0, 0): the deficit is [0, 0, 1, 1, 1] and the offer gives the one cereal the town needs. | Keep back the build's need: give `max(0, have - need)`. | not executed | AgentRules.TownOfferGivesAwayNeed | AgentRules.ProposedOfferSettlesNeeds |

The agent's commerce phase (`CommerceDecision`, `OnCommercePhase`) follows the source as written. `CommerceDecisionCorrected` is the same phase built on the corrected `ProposedOffer`. `CityDecisionsDiffer` gives an input on which the two decide differently.
