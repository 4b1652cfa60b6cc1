/**
 * The result analysis run after a game: find the last round and the last
 * turn of the trace by the numbers in their labels, take the player with the
 * most victory points at the end of that turn, and score the chosen agent's
 * seat as fitness 1 when it won and 0 otherwise. Python's exceptions (an
 * empty mapping, a label without a number, an agent not in the list) are the
 * `None` results.
 */
module TraceAnalysis {
  import opened Wrappers

  // ---------------------------------------------------------------------------
  // String handling

  /** `s.split(sep)[-1]`: the text after the last `sep`, or all of `s` when there is none. */
  function LastSegment(s: string, sep: char): (r: string)
    ensures sep !in r
    ensures |r| <= |s| && r == s[|s| - |r|..]
    ensures |r| < |s| ==> s[|s| - |r| - 1] == sep
  {
    if |s| == 0 then ""
    else if s[|s| - 1] == sep then ""
    else
      var init := LastSegment(s[..|s| - 1], sep);
      assert s[..|s| - 1][|s| - 1 - |init|..] + [s[|s| - 1]] == s[|s| - 1 - |init|..];
      init + [s[|s| - 1]]
  }

  /** The segment after a separator is found again whatever stands before the separator. */
  lemma {:induction false} LastSegmentAfterSeparator(prefix: string, sep: char, tail: string)
    requires sep !in tail
    ensures LastSegment(prefix + [sep] + tail, sep) == tail
  {
    var s := prefix + [sep] + tail;
    if |tail| > 0 {
      var init := tail[..|tail| - 1];
      assert s[..|s| - 1] == prefix + [sep] + init;
      assert sep !in init by {
        forall c | c in init ensures c != sep {
          var k :| 0 <= k < |init| && init[k] == c;
          assert tail[k] == c;
        }
      }
      LastSegmentAfterSeparator(prefix, sep, init);
      assert s[|s| - 1] == tail[|tail| - 1] != sep;
      assert init + [tail[|tail| - 1]] == tail;
    }
  }

  /** `s.lstrip(c)`: `s` without its leading run of `c`. */
  function StripLeading(s: string, c: char): (r: string)
    ensures |r| <= |s| && r == s[|s| - |r|..]
    ensures r == [] || r[0] != c
    ensures forall i :: 0 <= i < |s| - |r| ==> s[i] == c
  {
    if |s| > 0 && s[0] == c then StripLeading(s[1..], c) else s
  }

  predicate IsDigit(ch: char) {
    '0' <= ch <= '9'
  }

  /** A non-empty run of decimal digits. */
  predicate IsDigits(s: string) {
    |s| > 0 && forall i :: 0 <= i < |s| ==> IsDigit(s[i])
  }

  /** The value of a run of decimal digits. */
  function DigitsValue(s: string): nat
    requires forall i :: 0 <= i < |s| ==> IsDigit(s[i])
  {
    if |s| == 0 then 0
    else
      assert IsDigit(s[|s| - 1]);
      DigitsValue(s[..|s| - 1]) * 10 + (s[|s| - 1] as int - '0' as int)
  }

  /**
   * `int(s)` on a decimal literal: an optional sign and at least one digit.
   * Anything else is Python's ValueError.
   */
  function ParseInt(s: string): (r: Option<int>)
    ensures r.Some? <==> IsDigits(s) || (|s| > 1 && (s[0] == '-' || s[0] == '+') && IsDigits(s[1..]))
    ensures IsDigits(s) ==> r == Some(DigitsValue(s))
  {
    if |s| > 0 && (s[0] == '-' || s[0] == '+') then
      if IsDigits(s[1..]) then
        var v: int := DigitsValue(s[1..]);
        Some(if s[0] == '-' then -v else v)
      else None
    else if IsDigits(s) then Some(DigitsValue(s))
    else None
  }

  /** The decimal text of a natural number, without sign or leading zeros. */
  function ShowNat(n: nat): (s: string)
    ensures IsDigits(s) && DigitsValue(s) == n
    ensures n >= 10 ==> s[0] != '0'
  {
    var d := ('0' as int + n % 10) as char;
    if n < 10 then [d]
    else
      var init := ShowNat(n / 10);
      assert (init + [d])[..|init|] == init;
      init + [d]
  }

  /** Reading back a printed number gives the number. */
  lemma ParseShowNat(n: nat)
    ensures ParseInt(ShowNat(n)) == Some(n)
  {
    var s := ShowNat(n);
    assert IsDigit(s[0]);
  }

  // ---------------------------------------------------------------------------
  // Label keys

  /** The round key `int(r.split("_")[-1])`; a label without `_` is read whole. */
  function RoundNumber(name: string): (r: Option<int>)
    ensures r.Some? ==> |LastSegment(name, '_')| > 0
    ensures '_' !in name ==> r == ParseInt(name)
  {
    var tail := LastSegment(name, '_');
    assert '_' !in name ==> tail == name;
    ParseInt(tail)
  }

  /**
   * The turn key `int(t.split("_")[-1].lstrip("P"))`: the round key of the
   * same label once the `P`s that open its last segment are dropped.
   */
  function TurnNumber(name: string): (r: Option<int>)
    ensures var tail := LastSegment(name, '_'); (tail == [] || tail[0] != 'P') ==> r == RoundNumber(name)
    ensures '_' !in name ==> r == ParseInt(StripLeading(name, 'P'))
  {
    var tail := LastSegment(name, '_');
    assert '_' !in name ==> tail == name;
    ParseInt(StripLeading(tail, 'P'))
  }

  /** A label `<prefix>_<n>` has round number n, whatever the prefix holds. */
  lemma RoundLabelNumber(prefix: string, n: nat)
    ensures RoundNumber(prefix + "_" + ShowNat(n)) == Some(n)
  {
    var digits := ShowNat(n);
    assert forall i :: 0 <= i < |digits| ==> digits[i] != '_';
    assert prefix + "_" + digits == prefix + ['_'] + digits;
    LastSegmentAfterSeparator(prefix, '_', digits);
    ParseShowNat(n);
  }

  /** A label `<prefix>_P<n>` has turn number n. */
  lemma TurnLabelNumber(prefix: string, n: nat)
    ensures TurnNumber(prefix + "_P" + ShowNat(n)) == Some(n)
  {
    var digits := ShowNat(n);
    assert forall i :: 0 <= i < |digits| ==> digits[i] != '_' && digits[i] != 'P';
    var tail := ['P'] + digits;
    assert '_' !in tail;
    assert prefix + "_P" + digits == prefix + ['_'] + tail;
    LastSegmentAfterSeparator(prefix, '_', tail);
    assert LastSegment(prefix + ['_'] + tail, '_') == tail;
    assert tail[1..] == digits;
    assert StripLeading(digits, 'P') == digits;
    assert StripLeading(tail, 'P') == digits;
    ParseShowNat(n);
  }

  // ---------------------------------------------------------------------------
  // Python's max with a key

  /** The keys of all entries, or None when some key cannot be computed. */
  function KeysAll<V>(entries: seq<(string, V)>, key: string -> Option<int>): (r: Option<seq<int>>)
    ensures r.Some? <==> forall i :: 0 <= i < |entries| ==> key(entries[i].0).Some?
    ensures r.Some? ==> |r.value| == |entries|
    ensures r.Some? ==> forall i :: 0 <= i < |entries| ==> r.value[i] == key(entries[i].0).value
  {
    if |entries| == 0 then Some([])
    else
      var init := entries[..|entries| - 1];
      assert forall i :: 0 <= i < |init| ==> init[i] == entries[i];
      match KeysAll(init, key)
      case None => None
      case Some(ks) =>
        match key(entries[|entries| - 1].0)
        case None => None
        case Some(k) => Some(ks + [k])
  }

  /** Python's `max` scan: the first position holding the largest key. */
  function FirstMaxIndex(ks: seq<int>): (r: nat)
    requires |ks| > 0
    ensures r < |ks|
    ensures forall i :: 0 <= i < |ks| ==> ks[i] <= ks[r]
    ensures forall i :: 0 <= i < r ==> ks[i] < ks[r]
  {
    if |ks| == 1 then 0
    else
      var j := FirstMaxIndex(ks[..|ks| - 1]);
      assert forall i :: 0 <= i < |ks| - 1 ==> ks[..|ks| - 1][i] == ks[i];
      if ks[|ks| - 1] > ks[j] then |ks| - 1 else j
  }

  /**
   * `max(mapping, key=...)` over an ordered mapping: the position of the
   * first entry with the largest key; None for an empty mapping or a key
   * that cannot be computed.
   */
  function MaxByKey<V>(entries: seq<(string, V)>, key: string -> Option<int>): (r: Option<nat>)
    ensures r.Some? <==> |entries| > 0 && forall i :: 0 <= i < |entries| ==> key(entries[i].0).Some?
    ensures r.Some? ==> r.value < |entries|
    ensures r.Some? ==> forall i :: 0 <= i < |entries| ==> key(entries[i].0).value <= key(entries[r.value].0).value
    ensures r.Some? ==> forall i :: 0 <= i < r.value ==> key(entries[i].0).value < key(entries[r.value].0).value
  {
    if |entries| == 0 then None
    else
      match KeysAll(entries, key)
      case None => None
      case Some(ks) => Some(FirstMaxIndex(ks))
  }

  // ---------------------------------------------------------------------------
  // The trace

  /** What a turn records at its end: victory points per player label, in mapping order. */
  datatype TurnRecord = TurnRecord(victoryPoints: seq<(string, int)>)

  type Round = seq<(string, TurnRecord)>

  /** `game_trace["game"]`: rounds by label, each holding turns by label. */
  datatype GameTrace = GameTrace(game: seq<(string, Round)>)

  /**
   * The last round: found exactly when there is a round and every round
   * label has a number; then the first round with the largest number.
   */
  function LastRound(trace: GameTrace): (r: Option<nat>)
    ensures r.Some? <==> |trace.game| > 0 && forall i :: 0 <= i < |trace.game| ==> RoundNumber(trace.game[i].0).Some?
    ensures r.Some? ==> r.value < |trace.game|
    ensures r.Some? ==>
      forall i :: 0 <= i < |trace.game| ==> RoundNumber(trace.game[i].0).value <= RoundNumber(trace.game[r.value].0).value
    ensures r.Some? ==>
      forall i :: 0 <= i < r.value ==> RoundNumber(trace.game[i].0).value < RoundNumber(trace.game[r.value].0).value
  {
    MaxByKey(trace.game, RoundNumber)
  }

  /** The last turn of a round, by the same rule on the turn numbers. */
  function LastTurn(round: Round): (r: Option<nat>)
    ensures r.Some? <==> |round| > 0 && forall i :: 0 <= i < |round| ==> TurnNumber(round[i].0).Some?
    ensures r.Some? ==> r.value < |round|
    ensures r.Some? ==>
      forall i :: 0 <= i < |round| ==> TurnNumber(round[i].0).value <= TurnNumber(round[r.value].0).value
    ensures r.Some? ==>
      forall i :: 0 <= i < r.value ==> TurnNumber(round[i].0).value < TurnNumber(round[r.value].0).value
  {
    MaxByKey(round, TurnNumber)
  }

  function Points(vp: seq<(string, int)>): (ps: seq<int>)
    ensures |ps| == |vp| && forall i :: 0 <= i < |vp| ==> ps[i] == vp[i].1
  {
    seq(|vp|, i requires 0 <= i < |vp| => vp[i].1)
  }

  /** The winner: the first player label with the most victory points. */
  function Winner(vp: seq<(string, int)>): (r: Option<nat>)
    ensures r.None? <==> |vp| == 0
    ensures r.Some? ==> r.value < |vp|
    ensures r.Some? ==> forall i :: 0 <= i < |vp| ==> vp[i].1 <= vp[r.value].1
    ensures r.Some? ==> forall i :: 0 <= i < r.value ==> vp[i].1 < vp[r.value].1
  {
    if |vp| == 0 then None else Some(FirstMaxIndex(Points(vp)))
  }

  /** `list.index`: the first position of `x`, or None (ValueError) when absent. */
  function IndexOf<T(==)>(xs: seq<T>, x: T): (r: Option<nat>)
    ensures r.None? <==> x !in xs
    ensures r.Some? ==> r.value < |xs| && xs[r.value] == x && x !in xs[..r.value]
  {
    if |xs| == 0 then None
    else if xs[0] == x then Some(0)
    else
      match IndexOf(xs[1..], x)
      case None => None
      case Some(k) =>
        assert xs[..k + 1] == [xs[0]] + xs[1..][..k];
        Some(k + 1)
  }

  /** The seat a winner label names: `int(winner.lstrip("J"))`. */
  function SeatOf(winner: string): (seat: Option<int>)
    ensures (winner == [] || winner[0] != 'J') ==> seat == ParseInt(winner)
    ensures |winner| > 0 && winner[0] == 'J' ==> seat == SeatOf(winner[1..])
  {
    ParseInt(StripLeading(winner, 'J'))
  }

  /** Fitness: 1 when the chosen agent's position is the winner's seat, 0 when it is not. */
  function Fitness<A(==)>(allAgents: seq<A>, chosen: A, winner: string): (r: Option<nat>)
    ensures r.Some? <==> chosen in allAgents && SeatOf(winner).Some?
    ensures r.Some? ==> r.value <= 1
    ensures r == Some(1) <==> chosen in allAgents && SeatOf(winner) == Some(IndexOf(allAgents, chosen).value as int)
  {
    match IndexOf(allAgents, chosen)
    case None => None
    case Some(i) =>
      match SeatOf(winner)
      case None => None
      case Some(seat) => Some(if i == seat then 1 else 0)
  }

  /** The points read at the end of the last turn of the last round. */
  function FinalPoints(trace: GameTrace): (vp: Option<seq<(string, int)>>)
    ensures vp.Some? <==> LastRound(trace).Some? && LastTurn(trace.game[LastRound(trace).value].1).Some?
  {
    match LastRound(trace)
    case None => None
    case Some(ri) =>
      match LastTurn(trace.game[ri].1)
      case None => None
      case Some(ti) => Some(trace.game[ri].1[ti].1.victoryPoints)
  }

  /** The whole analysis: final points, winner, fitness. */
  function AnalyzeResult<A(==)>(trace: GameTrace, allAgents: seq<A>, chosen: A): (r: Option<nat>)
    ensures r.Some? ==> r.value <= 1
    ensures r.Some? ==> FinalPoints(trace).Some? && |FinalPoints(trace).value| > 0 && chosen in allAgents
  {
    match FinalPoints(trace)
    case None => None
    case Some(vp) =>
      match Winner(vp)
      case None => None
      case Some(wi) => Fitness(allAgents, chosen, vp[wi].0)
  }

  // ---------------------------------------------------------------------------
  // Properties

  lemma RoundNineAndTen()
    ensures RoundNumber("round_9") == Some(9) && RoundNumber("round_10") == Some(10)
  {
    assert ShowNat(9) == "9";
    assert ShowNat(1) == "1";
    assert ShowNat(10) == ShowNat(1) + "0";
    RoundLabelNumber("round", 9);
    RoundLabelNumber("round", 10);
    assert "round" + "_" + "9" == "round_9";
    assert "round" + "_" + "10" == "round_10";
  }

  /** Of two entries, the one with the strictly larger key is the maximum, in either order. */
  lemma MaxOfTwo<V>(first: (string, V), second: (string, V), key: string -> Option<int>)
    requires key(first.0).Some? && key(second.0).Some?
    ensures key(first.0).value < key(second.0).value ==> MaxByKey([first, second], key) == Some(1)
    ensures key(second.0).value < key(first.0).value ==> MaxByKey([first, second], key) == Some(0)
  {
    var entries := [first, second];
    assert entries[0] == first && entries[1] == second;
  }

  /**
   * Round 10 is the last of rounds 9 and 10 in either mapping order, although
   * "round_10" sorts before "round_9" as a string.
   */
  lemma LastRoundIsNumeric(r9: Round, r10: Round)
    ensures LastRound(GameTrace([("round_9", r9), ("round_10", r10)])) == Some(1)
    ensures LastRound(GameTrace([("round_10", r10), ("round_9", r9)])) == Some(0)
    // As strings, "round_10" < "round_9": they first differ at '1' < '9'.
  {
    RoundNineAndTen();
    MaxOfTwo(("round_9", r9), ("round_10", r10), RoundNumber);
    MaxOfTwo(("round_10", r10), ("round_9", r9), RoundNumber);
  }

  /** A label `J<i>` for the chosen agent's own position scores 1; any other seat scores 0. */
  lemma FitnessOfSeatLabel<A>(allAgents: seq<A>, chosen: A, seat: nat)
    requires chosen in allAgents
    ensures Fitness(allAgents, chosen, "J" + ShowNat(seat)) ==
      Some(if IndexOf(allAgents, chosen) == Some(seat) then 1 else 0)
  {
    var digits := ShowNat(seat);
    assert IsDigit(digits[0]);
    assert StripLeading("J" + digits, 'J') == StripLeading(digits, 'J') == digits;
    ParseShowNat(seat);
  }

  /** Seat labels `J0`, `J1`, ... in seat order. */
  predicate SeatLabelled(vp: seq<(string, int)>) {
    forall k :: 0 <= k < |vp| ==> vp[k].0 == "J" + ShowNat(k)
  }

  /** Seat `i` leads: it has the most points and no earlier seat ties it. */
  predicate FirstLeader(vp: seq<(string, int)>, i: nat) {
    i < |vp| && (forall k :: 0 <= k < |vp| ==> vp[k].1 <= vp[i].1) && (forall k :: 0 <= k < i ==> vp[k].1 < vp[i].1)
  }

  /** On seat-labelled points, fitness is 1 exactly for the chosen agent's seat leading. */
  lemma WinnerFitness<A>(vp: seq<(string, int)>, allAgents: seq<A>, chosen: A)
    requires |vp| > 0 && SeatLabelled(vp) && chosen in allAgents
    ensures Fitness(allAgents, chosen, vp[Winner(vp).value].0).Some?
    ensures Fitness(allAgents, chosen, vp[Winner(vp).value].0) == Some(1) <==>
      FirstLeader(vp, IndexOf(allAgents, chosen).value)
  {
    var i := IndexOf(allAgents, chosen).value;
    var w := Winner(vp).value;
    FitnessOfSeatLabel(allAgents, chosen, w);
    assert vp[w].0 == "J" + ShowNat(w);
    if FirstLeader(vp, i) {
      assert vp[i].1 <= vp[w].1 && vp[w].1 <= vp[i].1;
    }
  }

  /**
   * With the final victory points keyed `J0`, `J1`, ... in seat order, the
   * analysis always reaches a verdict, and it is 1 exactly when the chosen
   * agent's seat has the most points and no earlier seat ties it.
   */
  lemma AnalyzeResultRewardsFirstLeader<A>(trace: GameTrace, allAgents: seq<A>, chosen: A)
    requires FinalPoints(trace).Some?
    requires |FinalPoints(trace).value| > 0 && SeatLabelled(FinalPoints(trace).value)
    requires chosen in allAgents
    ensures AnalyzeResult(trace, allAgents, chosen).Some?
    ensures AnalyzeResult(trace, allAgents, chosen) == Some(1) <==>
      FirstLeader(FinalPoints(trace).value, IndexOf(allAgents, chosen).value)
  {
    var vp := FinalPoints(trace).value;
    WinnerFitness(vp, allAgents, chosen);
    assert AnalyzeResult(trace, allAgents, chosen) == Fitness(allAgents, chosen, vp[Winner(vp).value].0);
  }
}
