/**
  Properties of the scoring engine in module Tennis: the state invariant
  every reachable state keeps, the deuce and tie-break transitions, set and
  match completion, the frozen state after the match, and the scoreboard.
 */
module TennisProofs {
  import opened Display
  import opened Tennis

  // ---------------------------------------------------------------------
  // The state invariant
  // ---------------------------------------------------------------------

  /** Some side has already decided the tie-break (7 or more, lead of 2). */
  predicate TieBreakDecided(tb: Pair) {
    (tb.first >= 7 && tb.first >= tb.second + 2)
    || (tb.second >= 7 && tb.second >= tb.first + 2)
  }

  /** What holds of the counters inside the game in progress. */
  predicate GameInv(cfg: Config, s: State) {
    && s.points.first <= 3 && s.points.second <= 3
    && (s.advantage.Some? ==> s.points == Pair(3, 3))
    && (TieBreakActive(cfg, s) ==> s.points == Zero && s.advantage == None && !TieBreakDecided(s.tieBreak))
    && (!TieBreakActive(cfg, s) ==> s.tieBreak == Zero)
    && (s.matchOver ==> s.points == Zero && s.tieBreak == Zero && s.advantage == None)
  }

  /** What holds of the set and match counters. */
  predicate MatchInv(cfg: Config, s: State) {
    && s.currentSet == 1 + s.setsWon.first + s.setsWon.second
    && (cfg.totalSets == 1 ==>
          && s.setsWon == Zero
          && (s.matchOver ==> HasWonSet(cfg, s.games, 0) || HasWonSet(cfg, s.games, 1)))
    && (cfg.totalSets != 1 ==>
          && (s.matchOver <==>
                (SetsNeeded(cfg) >= 1
                 && (s.setsWon.first == SetsNeeded(cfg) || s.setsWon.second == SetsNeeded(cfg))))
          && (SetsNeeded(cfg) >= 1 ==> s.setsWon.first <= SetsNeeded(cfg) && s.setsWon.second <= SetsNeeded(cfg))
          && (s.matchOver ==> s.games == Zero))
  }

  predicate Inv(cfg: Config, s: State) {
    GameInv(cfg, s) && MatchInv(cfg, s)
  }

  /** A fresh game satisfies the invariant, whatever the configuration. */
  lemma StartInv(cfg: Config)
    ensures Inv(cfg, Start())
  {
  }

  /** Completing a game from any live state with consistent set counters
      yields a state satisfying the whole invariant. */
  lemma WinGameInv(cfg: Config, s: State, i: Side)
    requires MatchInv(cfg, s) && !s.matchOver
    ensures Inv(cfg, WinGame(cfg, s, i))
  {
    var r := WinGame(cfg, s, i);
    if cfg.totalSets != 1 && HasWonSet(cfg, s.games.Inc(i), i) {
      assert s.setsWon.Get(i) < SetsNeeded(cfg) || SetsNeeded(cfg) < 1;
    }
  }

  /** A tie-break point keeps the invariant. */
  lemma TieBreakPointInv(cfg: Config, s: State, i: Side)
    requires Inv(cfg, s) && !s.matchOver && TieBreakActive(cfg, s)
    ensures var tb := s.tieBreak.Inc(i);
      Inv(cfg, if tb.Get(i) >= 7 && tb.Get(i) - tb.Get(Other(i)) >= 2 then WinGame(cfg, s.(tieBreak := tb), i)
               else s.(tieBreak := tb))
  {
    var tb := s.tieBreak.Inc(i);
    if tb.Get(i) >= 7 && tb.Get(i) - tb.Get(Other(i)) >= 2 {
      WinGameInv(cfg, s.(tieBreak := tb), i);
    } else {
      assert !TieBreakDecided(tb);
    }
  }

  /** An ordinary point under the no-advantage rule keeps the invariant. */
  lemma NoAdvPointInv(cfg: Config, s: State, i: Side)
    requires Inv(cfg, s) && !s.matchOver && !TieBreakActive(cfg, s)
    ensures Inv(cfg, AddPointNoAdv(cfg, s, i))
  {
    if s.points.Get(i) >= 3 && s.points.Get(Other(i)) >= 3 {
      WinGameInv(cfg, s, i);
    } else if s.points.Get(i) + 1 == 4 {
      WinGameInv(cfg, s.(points := s.points.Inc(i)), i);
    }
  }

  /** An ordinary point under the advantage rule keeps the invariant. */
  lemma TraditionalPointInv(cfg: Config, s: State, i: Side)
    requires Inv(cfg, s) && !s.matchOver && !TieBreakActive(cfg, s)
    ensures Inv(cfg, AddPointTraditional(cfg, s, i))
  {
    if s.points.Get(i) < 3 {
    } else if s.points.Get(Other(i)) < 3 {
      WinGameInv(cfg, s.(points := s.points.Inc(i)), i);
    } else if s.advantage == Some(i) {
      WinGameInv(cfg, s, i);
    }
  }

  /** Every point keeps the invariant. */
  lemma AddPointInv(cfg: Config, s: State, player: int)
    requires IsPlayer(player) && Inv(cfg, s)
    ensures Inv(cfg, AddPoint(cfg, s, player))
  {
    var i: Side := player - 1;
    if s.matchOver {
    } else if TieBreakActive(cfg, s) {
      TieBreakPointInv(cfg, s, i);
    } else if cfg.mode == NoAdvantage {
      NoAdvPointInv(cfg, s, i);
    } else if cfg.mode == Traditional {
      TraditionalPointInv(cfg, s, i);
    } else {
      TraditionalPointInv(cfg, s, i);
    }
  }

  /** Ordinary point counts stay within 0..3 between events, and an
      advantage exists only at 40-40. */
  lemma PointsBounded(cfg: Config, s: State, player: int)
    requires IsPlayer(player) && Inv(cfg, s)
    ensures var r := AddPoint(cfg, s, player);
      && r.points.first <= 3 && r.points.second <= 3
      && (r.advantage.Some? ==> r.points.first == 3 && r.points.second == 3)
  {
    AddPointInv(cfg, s, player);
  }

  // ---------------------------------------------------------------------
  // Sequences of points
  // ---------------------------------------------------------------------

  predicate AllPlayers(ps: seq<int>) {
    forall k :: 0 <= k < |ps| ==> IsPlayer(ps[k])
  }

  /** The state after the points `ps` are scored in order. */
  function Play(cfg: Config, s: State, ps: seq<int>): State
    requires AllPlayers(ps)
    decreases |ps|
  {
    if |ps| == 0 then s else Play(cfg, AddPoint(cfg, s, ps[0]), ps[1..])
  }

  /** Every state reached from a fresh game satisfies the invariant. */
  lemma {:induction false} PlayInv(cfg: Config, s: State, ps: seq<int>)
    requires AllPlayers(ps) && Inv(cfg, s)
    ensures Inv(cfg, Play(cfg, s, ps))
    decreases |ps|
  {
    if |ps| > 0 {
      AddPointInv(cfg, s, ps[0]);
      PlayInv(cfg, AddPoint(cfg, s, ps[0]), ps[1..]);
    }
  }

  lemma ReachableInv(cfg: Config, ps: seq<int>)
    requires AllPlayers(ps)
    ensures Inv(cfg, Play(cfg, Start(), ps))
  {
    StartInv(cfg);
    PlayInv(cfg, Start(), ps);
  }

  /** Once the match is over, any number of further points change nothing. */
  lemma {:induction false} PlayAfterMatchOver(cfg: Config, s: State, ps: seq<int>)
    requires AllPlayers(ps) && s.matchOver
    ensures Play(cfg, s, ps) == s
    decreases |ps|
  {
    if |ps| > 0 {
      PlayAfterMatchOver(cfg, AddPoint(cfg, s, ps[0]), ps[1..]);
    }
  }

  /** Sets won never decrease, and the match never reopens. */
  lemma {:induction false} PlayMonotone(cfg: Config, s: State, ps: seq<int>)
    requires AllPlayers(ps)
    ensures var r := Play(cfg, s, ps);
      && r.setsWon.first >= s.setsWon.first
      && r.setsWon.second >= s.setsWon.second
      && r.currentSet >= s.currentSet
      && (s.matchOver ==> r.matchOver)
    decreases |ps|
  {
    if |ps| > 0 {
      PlayMonotone(cfg, AddPoint(cfg, s, ps[0]), ps[1..]);
    }
  }

  // ---------------------------------------------------------------------
  // Scoring modes
  // ---------------------------------------------------------------------

  /** Game completion does not consult the scoring mode. */
  lemma WinGameIgnoresMode(cfg: Config, s: State, i: Side, m: ScoringMode)
    ensures WinGame(cfg.(mode := m), s, i) == WinGame(cfg, s, i)
  {
  }

  /** A point scored under either advantage mode leads to the same state. */
  lemma SemiAdvantagePointIsTraditional(cfg: Config, s: State, player: int)
    requires IsPlayer(player)
    ensures AddPoint(cfg.(mode := SemiAdvantage), s, player) == AddPoint(cfg.(mode := Traditional), s, player)
  {
    var semi := cfg.(mode := SemiAdvantage);
    var trad := cfg.(mode := Traditional);
    var i: Side := player - 1;
    if s.matchOver {
    } else if TieBreakActive(cfg, s) {
      WinGameIgnoresMode(trad, s.(tieBreak := s.tieBreak.Inc(i)), i, SemiAdvantage);
    } else {
      WinGameIgnoresMode(trad, s, i, SemiAdvantage);
      WinGameIgnoresMode(trad, s.(points := s.points.Inc(i)), i, SemiAdvantage);
      assert AddPointTraditional(semi, s, i) == AddPointTraditional(trad, s, i);
    }
  }

  /** Consequently a match configured with either mode evolves identically
      under every sequence of points. */
  lemma {:induction false} SemiAdvantageMatchesTraditional(cfg: Config, s: State, ps: seq<int>)
    requires AllPlayers(ps)
    ensures Play(cfg.(mode := SemiAdvantage), s, ps) == Play(cfg.(mode := Traditional), s, ps)
    decreases |ps|
  {
    if |ps| > 0 {
      var semi := cfg.(mode := SemiAdvantage);
      SemiAdvantagePointIsTraditional(cfg, s, ps[0]);
      SemiAdvantageMatchesTraditional(cfg, AddPoint(semi, s, ps[0]), ps[1..]);
    }
  }

  /** An ordinary game in progress under an advantage mode. */
  predicate AdvantageGame(cfg: Config, s: State) {
    cfg.mode != NoAdvantage && !s.matchOver && !TieBreakActive(cfg, s)
  }

  /** Below 40 a point only raises the scorer's count: the game-win test the
      source makes right after that increment can never succeed. */
  lemma PointBelowFortyNeverWins(cfg: Config, s: State, player: int)
    requires IsPlayer(player) && AdvantageGame(cfg, s) && s.points.Get(player - 1) < 3
    ensures var r := AddPoint(cfg, s, player);
      && r.points.Get(player - 1) == s.points.Get(player - 1) + 1
      && r.points.Get(2 - player) == s.points.Get(2 - player)
      && r.games == s.games && r.setsWon == s.setsWon && r.advantage == s.advantage
      && r.matchOver == s.matchOver
  {
  }

  /** At 40 against an opponent below 40 the point takes the game. */
  lemma FortyWins(cfg: Config, s: State, player: int)
    requires IsPlayer(player) && AdvantageGame(cfg, s)
    requires s.points.Get(player - 1) == 3 && s.points.Get(2 - player) < 3
    ensures AddPoint(cfg, s, player) == WinGame(cfg, s.(points := s.points.Inc(player - 1)), player - 1)
    ensures AddPoint(cfg, s, player).points == Zero
  {
  }

  /** Deuce: with no advantage held, the point gives the scorer advantage
      and changes nothing else. */
  lemma DeuceGivesAdvantage(cfg: Config, s: State, player: int)
    requires IsPlayer(player) && AdvantageGame(cfg, s)
    requires s.points == Pair(3, 3) && s.advantage == None
    ensures AddPoint(cfg, s, player) == s.(advantage := Some(player - 1))
  {
  }

  /** A point by the other player takes the advantage away (back to deuce). */
  lemma AdvantageLost(cfg: Config, s: State, player: int)
    requires IsPlayer(player) && AdvantageGame(cfg, s)
    requires s.points == Pair(3, 3) && s.advantage == Some(2 - player)
    ensures AddPoint(cfg, s, player) == s.(advantage := None)
  {
  }

  /** A point by the advantage holder wins the game. */
  lemma AdvantageConverted(cfg: Config, s: State, player: int)
    requires IsPlayer(player) && AdvantageGame(cfg, s)
    requires s.points == Pair(3, 3) && s.advantage == Some(player - 1)
    ensures AddPoint(cfg, s, player) == WinGame(cfg, s, player - 1)
    ensures AddPoint(cfg, s, player).advantage == None
  {
  }

  /** The deuce cycle: from deuce, advantage followed by a point for the
      other player returns exactly to deuce, while two points in a row for
      one player win the game. */
  lemma DeuceCycle(cfg: Config, s: State, player: int)
    requires IsPlayer(player) && AdvantageGame(cfg, s)
    requires s.points == Pair(3, 3) && s.advantage == None
    ensures AddPoint(cfg, AddPoint(cfg, s, player), 3 - player) == s
    ensures AddPoint(cfg, AddPoint(cfg, s, player), player) == WinGame(cfg, s, player - 1)
  {
    DeuceGivesAdvantage(cfg, s, player);
    var adv := s.(advantage := Some(player - 1));
    AdvantageLost(cfg, adv, 3 - player);
    AdvantageConverted(cfg, adv, player);
    assert WinGame(cfg, adv, player - 1) == WinGame(cfg, s, player - 1);
  }

  /** No-advantage: at 40-40 (or beyond) the next point decides the game. */
  lemma NoAdDecidingPoint(cfg: Config, s: State, player: int)
    requires IsPlayer(player) && cfg.mode == NoAdvantage && !s.matchOver && !TieBreakActive(cfg, s)
    requires s.points.first >= 3 && s.points.second >= 3
    ensures AddPoint(cfg, s, player) == WinGame(cfg, s, player - 1)
    ensures AddPoint(cfg, s, player).points == Zero
  {
  }

  /** No-advantage: at 40 against an opponent below 40 the point takes the
      game, exactly as under the advantage rule. */
  lemma NoAdFortyWins(cfg: Config, s: State, player: int)
    requires IsPlayer(player) && cfg.mode == NoAdvantage && !s.matchOver && !TieBreakActive(cfg, s)
    requires s.points.Get(player - 1) == 3 && s.points.Get(2 - player) < 3
    ensures AddPoint(cfg, s, player) == WinGame(cfg, s.(points := s.points.Inc(player - 1)), player - 1)
    ensures AddPoint(cfg, s, player).points == Zero
  {
  }

  /** No-advantage mode never creates an advantage. */
  lemma NoAdNeverAdvantage(cfg: Config, s: State, player: int)
    requires IsPlayer(player) && cfg.mode == NoAdvantage && s.advantage == None
    ensures AddPoint(cfg, s, player).advantage == None
  {
  }

  lemma {:induction false} NoAdPlayNeverAdvantage(cfg: Config, s: State, ps: seq<int>)
    requires AllPlayers(ps) && cfg.mode == NoAdvantage && s.advantage == None
    ensures Play(cfg, s, ps).advantage == None
    decreases |ps|
  {
    if |ps| > 0 {
      NoAdNeverAdvantage(cfg, s, ps[0]);
      NoAdPlayNeverAdvantage(cfg, AddPoint(cfg, s, ps[0]), ps[1..]);
    }
  }

  // ---------------------------------------------------------------------
  // Tie-breaks
  // ---------------------------------------------------------------------

  /** During a tie-break a point goes to the tie-break count only; the game
      ends exactly when the scorer reaches 7 or more with a lead of 2. */
  lemma TieBreakPoint(cfg: Config, s: State, player: int)
    requires IsPlayer(player) && !s.matchOver && TieBreakActive(cfg, s)
    ensures var i: Side := player - 1;
      var tb := s.tieBreak.Get(i) + 1;
      var r := AddPoint(cfg, s, player);
      && (tb >= 7 && tb >= s.tieBreak.Get(Other(i)) + 2 ==>
            r == WinGame(cfg, s.(tieBreak := s.tieBreak.Inc(i)), i)
            && r.tieBreak == Zero && r.points == Zero
            && (r.games.Get(i) == s.games.Get(i) + 1 || r.setsWon.Get(i) == s.setsWon.Get(i) + 1))
      && (!(tb >= 7 && tb >= s.tieBreak.Get(Other(i)) + 2) ==>
            r.tieBreak.Get(i) == tb && r.tieBreak.Get(Other(i)) == s.tieBreak.Get(Other(i))
            && r.points == s.points && r.games == s.games && r.setsWon == s.setsWon
            && r.advantage == s.advantage && !r.matchOver)
  {
  }

  /** When the tie-break is played at or above the set target, winning it
      wins the set (the 7-6 case): a single-set match ends with the score
      on display, a longer one moves to the next set. */
  lemma TieBreakDecidesSet(cfg: Config, s: State, player: int)
    requires IsPlayer(player) && !s.matchOver && TieBreakActive(cfg, s)
    requires cfg.gamesPerSet <= cfg.tieBreakAtGame + 1
    requires s.tieBreak.Get(player - 1) + 1 >= 7
    requires s.tieBreak.Get(player - 1) + 1 >= s.tieBreak.Get(2 - player) + 2
    ensures var r := AddPoint(cfg, s, player);
      && (cfg.totalSets == 1 ==>
            r.matchOver && GameScore(r, player) == cfg.tieBreakAtGame + 1
            && GameScore(r, 3 - player) == cfg.tieBreakAtGame)
      && (cfg.totalSets != 1 ==>
            SetScore(r, player) == SetScore(s, player) + 1 && r.games == Zero)
  {
    var i: Side := player - 1;
    assert HasWonSet(cfg, s.games.Inc(i), i);
  }

  /** With the tie-break enabled at game 0 the first game of a set is
      already a tie-break (the source does not treat 0 as "no tie-break"). */
  lemma TieBreakAtZeroStartsInTieBreak(cfg: Config, player: int)
    requires IsPlayer(player) && cfg.tieBreakEnabled && cfg.tieBreakAtGame == 0
    ensures TieBreakActive(cfg, Start())
    ensures PointScore(cfg, Start(), player) == Count(0)
    ensures AddPoint(cfg, Start(), player).tieBreak.Get(player - 1) == 1
    ensures AddPoint(cfg, Start(), player).points == Zero
  {
  }

  // ---------------------------------------------------------------------
  // Set and match completion
  // ---------------------------------------------------------------------

  /** In a single-set match the sets counters never move, and once the set
      is won the final game score stays on display. */
  lemma SingleSetKeepsScore(cfg: Config, s: State, player: int)
    requires IsPlayer(player) && cfg.totalSets == 1 && Inv(cfg, s)
    ensures var r := AddPoint(cfg, s, player);
      && r.setsWon == Zero && r.currentSet == 1
      && (r.matchOver && !s.matchOver ==>
            HasWonSet(cfg, r.games, player - 1)
            && GameScore(r, player) == GameScore(s, player) + 1
            && GameScore(r, 3 - player) == GameScore(s, 3 - player))
  {
    AddPointInv(cfg, s, player);
  }

  /** In a multi-set match the match ends on a point exactly when the
      scorer's set count reaches a majority of `totalSets`; a set win
      starts the next set at 0-0. */
  lemma MultiSetMatchEnd(cfg: Config, s: State, player: int)
    requires IsPlayer(player) && cfg.totalSets != 1 && Inv(cfg, s) && !s.matchOver
    ensures var r := AddPoint(cfg, s, player);
      && (r.matchOver <==> SetsNeeded(cfg) >= 1 && SetScore(r, player) == SetsNeeded(cfg))
      && SetScore(r, 3 - player) == SetScore(s, 3 - player)
      && (SetScore(r, player) != SetScore(s, player) ==>
            SetScore(r, player) == SetScore(s, player) + 1
            && r.games == Zero && r.currentSet == s.currentSet + 1)
  {
    var i: Side := player - 1;
    AddPointInv(cfg, s, player);
    var r := AddPoint(cfg, s, player);
    assert s.setsWon.Get(Other(i)) != SetsNeeded(cfg) || SetsNeeded(cfg) < 1;
  }

  /** A single-set match to six games ending 6-4 is over and still shows
      6 and 4 games. */
  lemma SingleSetSixFour(mode: ScoringMode)
    ensures var cfg := Config(1, 6, true, 6, mode);
      var r := WinGame(cfg, State(Zero, Pair(5, 4), Zero, Zero, None, 1, false), 0);
      r.matchOver && GameScore(r, 1) == 6 && GameScore(r, 2) == 4 && SetScore(r, 1) == 0
  {
  }

  /** The set test applies the 2 * tieBreakAtGame + 1 total even when the
      tie-break is switched off: with tieBreakAtGame = 6, an ordinary game
      taking the score from 6-6 to 7-6 wins the set without a two-game lead. */
  lemma DisabledTieBreakStillEndsSetAtSevenSix(mode: ScoringMode)
    ensures var cfg := Config(3, 6, false, 6, mode);
      var s := State(Zero, Pair(6, 6), Zero, Zero, None, 1, false);
      !TieBreakActive(cfg, s) && WinGame(cfg, s, 0).setsWon == Pair(1, 0)
  {
  }

  /** In a best-of-N match (N at least 1) no player ever holds more than the
      N/2 + 1 sets that decide it. */
  lemma SetsBounded(cfg: Config, ps: seq<int>)
    requires AllPlayers(ps) && cfg.totalSets >= 1
    ensures var r := Play(cfg, Start(), ps);
      && r.setsWon.first <= SetsNeeded(cfg)
      && r.setsWon.second <= SetsNeeded(cfg)
  {
    ReachableInv(cfg, ps);
  }

  // ---------------------------------------------------------------------
  // Scoreboard
  // ---------------------------------------------------------------------

  /** Outside a tie-break the raw-count fallback of the display is never
      reached: every displayed ordinary score is a tennis call. */
  lemma PointScoreIsTennisCall(cfg: Config, s: State, player: int)
    requires IsPlayer(player) && Inv(cfg, s) && !TieBreakActive(cfg, s)
    ensures !PointScore(cfg, s, player).Count?
    ensures PointValue(PointScore(cfg, s, player)) == s.points.Get(player - 1)
  {
  }

  /** On every reachable state outside a tie-break and below 40-40 the
      scoreboard shows the tennis call of the player's point count. */
  lemma OrdinaryScoreText(cfg: Config, s: State, player: int)
    requires IsPlayer(player) && Inv(cfg, s) && !TieBreakActive(cfg, s)
    requires !(s.points.first >= 3 && s.points.second >= 3)
    ensures PointScoreText(cfg, s, player) == Calls[s.points.Get(player - 1)]
    ensures PointScore(cfg, s, player) == PointName(s.points.Get(player - 1))
  {
  }

  /** At most one player is shown "Ad", and then the other is shown "40". */
  lemma AdExclusive(cfg: Config, s: State, player: int)
    requires IsPlayer(player) && PointScore(cfg, s, player) == Ad
    ensures PointScore(cfg, s, 3 - player) == Forty
    ensures PointScoreText(cfg, s, player) == "Ad" && PointScoreText(cfg, s, 3 - player) == "40"
  {
  }

  /** The tie-break score is shown as its decimal count. */
  lemma TieBreakScoreText(cfg: Config, s: State, player: int)
    requires IsPlayer(player) && TieBreakActive(cfg, s)
    ensures ParseNat(PointScoreText(cfg, s, player)) == s.tieBreak.Get(player - 1)
    ensures |PointScoreText(cfg, s, player)| == 1 || PointScoreText(cfg, s, player)[0] != '0'
  {
  }

  // ---------------------------------------------------------------------
  // Reset
  // ---------------------------------------------------------------------

  /** Reset returns any state to the one a fresh game starts in: it
      satisfies the invariant, shows 0 sets, 0 games and a point score of
      "0" for both players (a tie-break count of 0 when the tie-break is
      set at game 0), and accepts points again. */
  lemma ResetIsFreshGame(cfg: Config, s: State, player: int)
    requires IsPlayer(player)
    ensures Reset(s) == Start()
    ensures Inv(cfg, Reset(s))
    ensures SetScore(Reset(s), player) == 0 && GameScore(Reset(s), player) == 0
    ensures PointScore(cfg, Reset(s), player) == (if TieBreakActive(cfg, Start()) then Count(0) else Love)
    ensures PointScoreText(cfg, Reset(s), player) == "0"
    ensures AddPoint(cfg, Reset(s), player) != Reset(s)
  {
  }
}
