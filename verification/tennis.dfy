/**
  The tennis scoring engine of TennisPoint/Game.swift as pure functions.

  The Swift `Game` class holds an immutable configuration and a mutable
  state; here the configuration is a `Config` value, the state a `State`
  value, and every mutating method a function from the old state to the
  new one.  Players are numbered 1 and 2 at the interface and indexed 0
  and 1 (`Side`) inside, exactly as the source does with `player - 1`.
 */
module Tennis {
  import opened Display

  /** How a game is scored once both players reach 40. */
  datatype ScoringMode = Traditional | SemiAdvantage | NoAdvantage

  /** The construction-time rules.  The source does not validate them, so
      every field takes any value of its Swift type. */
  datatype Config = Config(
    totalSets: int,
    gamesPerSet: int,
    tieBreakEnabled: bool,
    tieBreakAtGame: int,
    mode: ScoringMode)

  /** A player's array index: 0 for player 1, 1 for player 2. */
  type Side = i: int | 0 <= i < 2

  function Other(i: Side): Side {
    1 - i
  }

  /** A two-element counter array indexed by `Side`. */
  datatype Pair = Pair(first: nat, second: nat) {
    function Get(i: Side): nat {
      if i == 0 then first else second
    }

    /** The pair with side `i` raised by one and the other side kept. */
    function Inc(i: Side): (r: Pair)
      ensures r.Get(i) == Get(i) + 1
      ensures r.Get(Other(i)) == Get(Other(i))
    {
      if i == 0 then Pair(first + 1, second) else Pair(first, second + 1)
    }
  }

  const Zero := Pair(0, 0)

  datatype Option<T> = None | Some(value: T)

  /** The mutable part of a Swift `Game`.  The source's cached `isTieBreak`
      flag is not a field: it is always recomputed from the game counts
      before it is read, so `TieBreakActive` derives it instead. */
  datatype State = State(
    setsWon: Pair,
    games: Pair,
    points: Pair,
    tieBreak: Pair,
    advantage: Option<Side>,
    currentSet: nat,
    matchOver: bool)

  /** The state a freshly constructed game starts in. */
  function Start(): (s: State)
    ensures s.setsWon == Zero && s.games == Zero && s.points == Zero && s.tieBreak == Zero
    ensures s.advantage == None && s.currentSet == 1 && !s.matchOver
  {
    State(Zero, Zero, Zero, Zero, None, 1, false)
  }

  predicate IsPlayer(player: int) {
    player == 1 || player == 2
  }

  /** Swift's `n / 2` on `Int`, which truncates toward zero. */
  function SwiftHalf(n: int): (r: int)
    ensures n - 2 * r in {-1, 0, 1}
    ensures n >= 0 ==> r >= 0 && n - 2 * r >= 0
    ensures n <= 0 ==> r <= 0 && n - 2 * r <= 0
  {
    if n >= 0 then n / 2 else -((-n) / 2)
  }

  /** Sets a player must win to take a multi-set match. */
  function SetsNeeded(cfg: Config): int {
    SwiftHalf(cfg.totalSets) + 1
  }

  /** A tie-break is played exactly when it is enabled and both players
      stand at the configured game count. */
  predicate TieBreakActive(cfg: Config, s: State)
    ensures TieBreakActive(cfg, s) ==> cfg.tieBreakEnabled && s.games.first == s.games.second
    ensures TieBreakActive(cfg, s) ==> cfg.tieBreakAtGame >= 0
    ensures !cfg.tieBreakEnabled ==> !TieBreakActive(cfg, s)
  {
    cfg.tieBreakEnabled && s.games.first == cfg.tieBreakAtGame && s.games.second == cfg.tieBreakAtGame
  }

  /** A player with game count `games.Get(i)` has taken the set: enough
      games, and either a two-game lead or the odd total a decided
      tie-break leaves behind. */
  predicate HasWonSet(cfg: Config, games: Pair, i: Side)
    ensures HasWonSet(cfg, games, i) ==> games.Get(i) >= cfg.gamesPerSet
    ensures games.Get(i) >= cfg.gamesPerSet && games.Get(i) >= games.Get(Other(i)) + 2 ==> HasWonSet(cfg, games, i)
    ensures (games.Get(i) >= cfg.gamesPerSet && games.Get(i) == cfg.tieBreakAtGame + 1
             && games.Get(Other(i)) == cfg.tieBreakAtGame) ==> HasWonSet(cfg, games, i)
    ensures HasWonSet(cfg, games, i) && games.Get(i) < games.Get(Other(i)) + 2 ==>
            games.Get(i) + games.Get(Other(i)) == 2 * cfg.tieBreakAtGame + 1
  {
    games.Get(i) >= cfg.gamesPerSet
    && (games.Get(i) - games.Get(Other(i)) >= 2
        || games.Get(i) + games.Get(Other(i)) == cfg.tieBreakAtGame * 2 + 1)
  }

  /** The match is won on reaching a strict majority of `totalSets`: the
      smallest count more than half of it. */
  predicate HasWonMatch(cfg: Config, setsWon: Pair, i: Side)
    ensures cfg.totalSets >= 0 ==>
      (HasWonMatch(cfg, setsWon, i) <==>
         2 * setsWon.Get(i) > cfg.totalSets && 2 * (setsWon.Get(i) - 1) <= cfg.totalSets)
  {
    setsWon.Get(i) == SetsNeeded(cfg)
  }

  /** Game completion for player index `i`: the winner's game count goes up,
      the game-level counters are cleared, and set and match completion are
      decided.  A single-set match keeps the final game score on display; a
      longer match moves the set count on and starts the next set at 0-0. */
  function WinGame(cfg: Config, s: State, i: Side): (r: State)
    ensures r.points == Zero && r.tieBreak == Zero && r.advantage == None
    ensures s.matchOver ==> r.matchOver
    ensures r.setsWon.Get(Other(i)) == s.setsWon.Get(Other(i))
    ensures r.setsWon.Get(i) == s.setsWon.Get(i) || r.setsWon.Get(i) == s.setsWon.Get(i) + 1
    // single-set match: the set counters never move, the final score stays
    ensures cfg.totalSets == 1 ==>
      && r.games.Get(i) == s.games.Get(i) + 1
      && r.games.Get(Other(i)) == s.games.Get(Other(i))
      && r.setsWon == s.setsWon
      && r.currentSet == s.currentSet
      && (r.matchOver <==> s.matchOver || HasWonSet(cfg, r.games, i))
    // multi-set match, set not yet decided: only the game count moves
    ensures cfg.totalSets != 1 && !HasWonSet(cfg, s.games.Inc(i), i) ==>
      && r.games.Get(i) == s.games.Get(i) + 1
      && r.games.Get(Other(i)) == s.games.Get(Other(i))
      && r.setsWon == s.setsWon
      && r.currentSet == s.currentSet
      && r.matchOver == s.matchOver
    // multi-set match, set decided: next set begins, match may end
    ensures cfg.totalSets != 1 && HasWonSet(cfg, s.games.Inc(i), i) ==>
      && r.games == Zero
      && r.setsWon.Get(i) == s.setsWon.Get(i) + 1
      && r.currentSet == s.currentSet + 1
      && (r.matchOver <==> s.matchOver || r.setsWon.Get(i) == SetsNeeded(cfg))
  {
    var games := s.games.Inc(i);
    var cleared := s.(games := games, points := Zero, advantage := None, tieBreak := Zero);
    if cfg.totalSets == 1 then
      if HasWonSet(cfg, games, i) then cleared.(matchOver := true) else cleared
    else if HasWonSet(cfg, games, i) then
      var sets := s.setsWon.Inc(i);
      var next := cleared.(setsWon := sets, games := Zero, currentSet := s.currentSet + 1);
      if HasWonMatch(cfg, sets, i) then next.(matchOver := true) else next
    else
      cleared
  }

  /** Point won by index `i` in an ordinary game under the advantage rule
      (the `traditional` mode). */
  function AddPointTraditional(cfg: Config, s: State, i: Side): (r: State)
    // below 40 the point only raises the count: the win test after it never fires
    ensures s.points.Get(i) < 3 ==> r == s.(points := s.points.Inc(i))
    // at 40 against less than 40 the point takes the game
    ensures s.points.Get(i) == 3 && s.points.Get(Other(i)) < 3 ==> r.points == Zero && r.advantage == None
    // ordinary counts stay within 0..3
    ensures s.points.first <= 3 && s.points.second <= 3 ==> r.points.first <= 3 && r.points.second <= 3
    // an advantage is only ever gained by the scorer at 40-40 or beyond
    ensures s.points.first <= 3 && s.points.second <= 3 && r.advantage.Some? && r.advantage != s.advantage ==>
      r.advantage == Some(i) && s.points == Pair(3, 3) && s.advantage == None
  {
    var o := Other(i);
    if s.points.Get(i) < 3 then
      var pts := s.points.Inc(i);
      if pts.Get(i) == 4 && pts.Get(o) <= 2 then WinGame(cfg, s.(points := pts), i)
      else s.(points := pts)
    else if s.points.Get(i) == 3 && s.points.Get(o) < 3 then
      WinGame(cfg, s.(points := s.points.Inc(i)), i)
    else
      match s.advantage
      case Some(adv) =>
        if adv == i then WinGame(cfg, s, i) else s.(advantage := None)
      case None =>
        s.(advantage := Some(i))
  }

  /** Point won by index `i` in an ordinary game under the no-advantage rule:
      at 40-40 the next point decides the game. */
  function AddPointNoAdv(cfg: Config, s: State, i: Side): (r: State)
    ensures s.points.Get(i) < 3 ==> r == s.(points := s.points.Inc(i))
    // 40 against less: the point takes the game
    ensures s.points.Get(i) == 3 && s.points.Get(Other(i)) < 3 ==>
      r == WinGame(cfg, s.(points := s.points.Inc(i)), i)
    // from 40 the next point always takes the game
    ensures s.points.Get(i) == 3 ==> r.points == Zero && r.tieBreak == Zero
    ensures s.points.first <= 3 && s.points.second <= 3 ==> r.points.first <= 3 && r.points.second <= 3
    // no advantage is ever created
    ensures s.advantage == None ==> r.advantage == None
  {
    var o := Other(i);
    if s.points.Get(i) >= 3 && s.points.Get(o) >= 3 then
      WinGame(cfg, s, i)
    else
      var pts := s.points.Inc(i);
      if pts.Get(i) == 4 then WinGame(cfg, s.(points := pts), i) else s.(points := pts)
  }

  /** Point won by index `i` in an ordinary game under the `semiAdvantage`
      mode.  The source gives this mode its own method whose body is the
      traditional one line for line; it is kept separate here so that the
      equivalence is a proved fact rather than an assumption. */
  function AddPointSemiAdvantage(cfg: Config, s: State, i: Side): (r: State)
    ensures r == AddPointTraditional(cfg, s, i)
  {
    var o := Other(i);
    if s.points.Get(i) < 3 then
      var pts := s.points.Inc(i);
      if pts.Get(i) == 4 && pts.Get(o) <= 2 then WinGame(cfg, s.(points := pts), i)
      else s.(points := pts)
    else if s.points.Get(i) == 3 && s.points.Get(o) < 3 then
      WinGame(cfg, s.(points := s.points.Inc(i)), i)
    else
      match s.advantage
      case Some(adv) =>
        if adv == i then WinGame(cfg, s, i) else s.(advantage := None)
      case None =>
        s.(advantage := Some(i))
  }

  /** One "player won a point" event.  After the match is over nothing
      changes; otherwise the point goes to the tie-break count (deciding the
      game at 7 or more with a lead of 2) or to the configured ordinary rule. */
  function AddPoint(cfg: Config, s: State, player: int): (r: State)
    requires s.matchOver || IsPlayer(player)
    ensures s.matchOver ==> r == s
    ensures IsPlayer(player) ==>
      && (r.setsWon.Get(player - 1) == s.setsWon.Get(player - 1)
          || r.setsWon.Get(player - 1) == s.setsWon.Get(player - 1) + 1)
      && r.setsWon.Get(2 - player) == s.setsWon.Get(2 - player)
    ensures r.currentSet >= s.currentSet
  {
    if s.matchOver then s
    else
      var i: Side := player - 1;
      if TieBreakActive(cfg, s) then
        var tb := s.tieBreak.Inc(i);
        var scored := s.(tieBreak := tb);
        if tb.Get(i) >= 7 && tb.Get(i) - tb.Get(Other(i)) >= 2 then WinGame(cfg, scored, i)
        else scored
      else
        match cfg.mode
        case Traditional => AddPointTraditional(cfg, s, i)
        case NoAdvantage => AddPointNoAdv(cfg, s, i)
        case SemiAdvantage => AddPointSemiAdvantage(cfg, s, i)
  }

  /** Completed sets of a player. */
  function SetScore(s: State, player: int): (n: nat)
    requires IsPlayer(player)
    ensures n == if player == 1 then s.setsWon.first else s.setsWon.second
  {
    s.setsWon.Get(player - 1)
  }

  /** Games of a player in the current set (the final set's games once a
      single-set match is over). */
  function GameScore(s: State, player: int): (n: nat)
    requires IsPlayer(player)
    ensures n == if player == 1 then s.games.first else s.games.second
  {
    s.games.Get(player - 1)
  }

  /** A player's point score for the scoreboard. */
  function PointScore(cfg: Config, s: State, player: int): (d: PointDisplay)
    requires IsPlayer(player)
    ensures TieBreakActive(cfg, s) ==> d == Count(s.tieBreak.Get(player - 1))
    ensures !TieBreakActive(cfg, s) && s.points.first >= 3 && s.points.second >= 3 ==>
      (d == Ad <==> s.advantage == Some(player - 1)) && (d == Ad || d == Forty)
    ensures !TieBreakActive(cfg, s) && !(s.points.first >= 3 && s.points.second >= 3) ==>
      d != Ad && PointValue(d) == s.points.Get(player - 1)
    ensures (!TieBreakActive(cfg, s) && !(s.points.first >= 3 && s.points.second >= 3)
             && s.points.Get(player - 1) < 4) ==> !d.Count?
  {
    var i: Side := player - 1;
    if TieBreakActive(cfg, s) then Count(s.tieBreak.Get(i))
    else if s.points.first >= 3 && s.points.second >= 3 then
      if s.advantage == Some(i) then Ad else Forty
    else PointName(s.points.Get(i))
  }

  /** Scoreboard text of a player's point score. */
  function PointScoreText(cfg: Config, s: State, player: int): (text: string)
    requires IsPlayer(player)
    ensures |text| >= 1
    ensures TieBreakActive(cfg, s) ==>
      && (forall k :: 0 <= k < |text| ==> IsDigit(text[k]))
      && ParseNat(text) == s.tieBreak.Get(player - 1)
      && (|text| == 1 || text[0] != '0')
    ensures !TieBreakActive(cfg, s) && s.points.first >= 3 && s.points.second >= 3 ==>
      text == (if s.advantage == Some(player - 1) then "Ad" else "40")
    ensures (!TieBreakActive(cfg, s) && !(s.points.first >= 3 && s.points.second >= 3)
             && s.points.Get(player - 1) < 4) ==> text == Calls[s.points.Get(player - 1)]
  {
    Render(PointScore(cfg, s, player))
  }

  /** Returns every state field to its initial value.  The configuration is
      a separate value, so it is untouched by construction. */
  function Reset(s: State): (r: State)
    ensures r.setsWon == Zero && r.games == Zero && r.points == Zero && r.tieBreak == Zero
    ensures r.advantage == None && r.currentSet == 1 && !r.matchOver
  {
    Start()
  }
}
