# TennisPoint scoring engine in Dafny

This project models the scoring engine of the TennisPoint app, the `Game` class in
`TennisPoint/Game.swift`. The engine turns a stream of "player 1/2 won a point" events
into point, game, set and match state. The rules are configurable:

- the number of sets (`totalSets`) and the games needed per set (`gamesPerSet`);
- whether a tie-break is played, and at which tied game count (`tieBreakAtGame`);
- one of three deuce policies: `traditional`, `semiAdvantage` or `noAdvantage`.

The engine also renders a player's point score for the scoreboard.

The Swift class mutates its fields. The model is functional instead:

- `Tennis.Config` holds the construction-time rules.
- `Tennis.State` holds the mutable fields.
- Each mutating method becomes a function from the old state to the new one: `AddPoint`,
  `WinGame`, `Reset`.
- The query methods become pure functions: `SetScore`, `GameScore`, `PointScore` and
  `PointScoreText`.
- `Display` holds the scoreboard value (`Love`, `Fifteen`, `Thirty`, `Forty`, `Ad`,
  `Count(n)`) and its decimal rendering.
- `TennisProofs` states the state invariant and proves the transition properties.

Modelling choices:

- Players are 1 and 2 at the interface, as in the source. Inside they are array indices
  0 and 1 (`Side`). The queries require `player == 1 || player == 2`, because the Swift code
  indexes an array with `player - 1`. `AddPoint` requires it only while the match is in
  progress: once the match is over the source returns before any indexing, so any player
  number is a no-op there.
- The Swift `isTieBreak` field is a cache. `isTieBreakActive` rewrites it before every
  read, so the model derives it as `TieBreakActive(cfg, s)`. The `isTieBreak` argument of
  `winGame` has no effect in the source: the method always clears the cache.
- Configuration fields are unbounded `int`s and are not validated, as in the source. The
  source's `totalSets / 2` truncates toward zero. `SwiftHalf` models that truncation,
  because Dafny's `/` is Euclidean and gives a different value for `totalSets = -1`.
- The `semiAdvantage` method repeats the `traditional` body line for line. The model
  keeps both functions, and the contract of `AddPointSemiAdvantage` states that they are equal.

Where the code and a plain reading of the rules differ, the model follows the code:

- With the tie-break enabled and `tieBreakAtGame = 0`, the code treats the first game of
  every set (at 0-0) as a tie-break. It does not treat 0 as "no tie-break"
  (`TieBreakAtZeroStartsInTieBreak`).
- The set-win test accepts a total of `2 * tieBreakAtGame + 1` games even when the
  tie-break is disabled. So a set can end 7-6 after an ordinary game
  (`DisabledTieBreakStillEndsSetAtSevenSix`). The app's settings screen always passes 0
  in that case, so the app never shows this.

## Model

| member | source | states |
|---|---|---|
| Display.PointName | TennisPoint/Game.swift:251-264 | counts 0..3 render as "0", "15", "30", "40" and every larger count is shown raw; never "Ad"; the call maps back to the count |
| Display.NatToString | TennisPoint/Game.swift:248 | decimal text of a count: non-empty, all digits, a single digit below 10 and no leading zero from 10 on |
| Display.ParseNatToString | TennisPoint/Game.swift:248 | decimal rendering loses nothing: parsing the text gives back the number |
| Display.Render | TennisPoint/Game.swift:243-266 | scoreboard text: Love/Fifteen/Thirty/Forty render as "0"/"15"/"30"/"40", a raw count as digits without a leading zero that parse back to it, and "Ad" exactly for the advantage value |
| Tennis.Start | TennisPoint/Game.swift:36-50 | a new game starts with all counters 0, no advantage, set number 1 and the match open |
| Tennis.TieBreakActive | TennisPoint/Game.swift:101-108 | a tie-break is only ever active when enabled, at equal game counts, with tieBreakAtGame not negative |
| Tennis.HasWonSet | TennisPoint/Game.swift:211-214 | a set win needs at least gamesPerSet games; a two-game lead or tieBreakAtGame+1 to tieBreakAtGame suffices; a set won without a two-game lead has the odd total 2*tieBreakAtGame+1 |
| Tennis.HasWonMatch | TennisPoint/Game.swift:217-220 | for totalSets at least 0, the match is won exactly on reaching the smallest set count that is more than half of totalSets |
| Tennis.AddPointTraditional | TennisPoint/Game.swift:113-135 | below 40 the point only raises the count; at 40 against less the game is won; counts stay within 0..3; an advantage is only ever gained by the scorer from 40-40 with none held |
| Tennis.AddPointNoAdv | TennisPoint/Game.swift:138-148 | below 40 the point only raises the count; at 40 against less the point takes the game with the count raised; from 40 the point always takes the game; counts stay within 0..3; no advantage is ever created |
| Tennis.AddPointSemiAdvantage | TennisPoint/Game.swift:151-173 | gives the same state as the traditional rule for every state and player |
| Tennis.SetScore | TennisPoint/Game.swift:227-230 | player 1's or player 2's completed sets |
| Tennis.GameScore | TennisPoint/Game.swift:235-238 | player 1's or player 2's games in the current set |
| Tennis.PointScoreText | TennisPoint/Game.swift:243-266 | always non-empty; tie-break: decimal digits of the tie-break count, without a leading zero; both at 40 or more: "Ad" for the advantage holder, else "40"; otherwise the tennis call of the point count |
| Tennis.SwiftHalf | TennisPoint/Game.swift:218 | Swift's truncating halving: the remainder is -1, 0 or 1 and has the sign of the operand |
| Tennis.WinGame | TennisPoint/Game.swift:178-208 | game completion: winner's games +1 and opponent's unchanged, points/tie-break/advantage cleared; single-set keeps the games and ends the match iff the set is won; multi-set on a set win raises the winner's sets by one, zeroes the games, advances the set number, and ends the match iff the winner reaches a majority |
| Tennis.AddPoint | TennisPoint/Game.swift:73-98 | no change once the match is over, whatever the player number; the scorer's set count rises by at most one, the opponent's never changes; the set number never goes back |
| Tennis.PointScore | TennisPoint/Game.swift:243-266 | tie-break: raw count; both at 40 or more: "Ad" iff the player holds the advantage, else "40"; otherwise a display standing for the player's point count, and a tennis call (never raw) for counts below 4 |
| Tennis.Reset | TennisPoint/Game.swift:271-280 | every state field back to its initial value |
| TennisProofs.StartInv | TennisPoint/Game.swift:36-50 | a fresh game satisfies the state invariant under any configuration |
| TennisProofs.WinGameInv | TennisPoint/Game.swift:178-208 | completing a game from a live state establishes the whole invariant |
| TennisProofs.TieBreakPointInv | TennisPoint/Game.swift:81-86 | a tie-break point keeps the invariant, including that an undecided tie-break stays undecided |
| TennisProofs.NoAdvPointInv | TennisPoint/Game.swift:138-148 | a no-advantage point keeps the invariant |
| TennisProofs.TraditionalPointInv | TennisPoint/Game.swift:113-135 | an advantage-rule point keeps the invariant |
| TennisProofs.AddPointInv | TennisPoint/Game.swift:73-98 | every point keeps the invariant (points at most 3, advantage only at 40-40, tie-break and ordinary counters exclusive, set and match counters consistent) |
| TennisProofs.PointsBounded | TennisPoint/Game.swift:113-147 | after every point both ordinary counts are at most 3 and an advantage exists only at 3-3 |
| TennisProofs.PlayInv | TennisPoint/Game.swift:73-98 | the invariant holds after any sequence of points |
| TennisProofs.ReachableInv | TennisPoint/Game.swift:36-50 | every state reachable from a fresh game satisfies the invariant |
| TennisProofs.PlayAfterMatchOver | TennisPoint/Game.swift:77-78 | once the match is over, any number of further points leaves the state unchanged |
| TennisProofs.PlayMonotone | TennisPoint/Game.swift:197-201 | over any sequence of points the sets won and the set number never decrease and the match never reopens |
| TennisProofs.SemiAdvantagePointIsTraditional | TennisPoint/Game.swift:89-96 | a point under either advantage mode leads to the same state |
| TennisProofs.SemiAdvantageMatchesTraditional | TennisPoint/Game.swift:89-96 | matches in the two modes evolve identically under every point sequence |
| TennisProofs.PointBelowFortyNeverWins | TennisPoint/Game.swift:116-120 | below 40 a point only raises the scorer's count; the game-win test after that increment never fires |
| TennisProofs.FortyWins | TennisPoint/Game.swift:121-123 | at 40 against an opponent below 40 the point wins the game |
| TennisProofs.DeuceGivesAdvantage | TennisPoint/Game.swift:131-132 | at deuce with no advantage, a point gives the scorer the advantage and changes nothing else |
| TennisProofs.AdvantageLost | TennisPoint/Game.swift:128-129 | a point against the advantage holder returns to deuce |
| TennisProofs.AdvantageConverted | TennisPoint/Game.swift:125-127 | a point by the advantage holder wins the game |
| TennisProofs.DeuceCycle | TennisPoint/Game.swift:124-134 | from deuce, advantage then a point for the other player restores the exact deuce state; two points in a row for one player win the game |
| TennisProofs.NoAdFortyWins | TennisPoint/Game.swift:142-146 | in no-advantage mode at 40 against an opponent below 40 the point wins the game for the scorer |
| TennisProofs.NoAdDecidingPoint | TennisPoint/Game.swift:140-141 | in no-advantage mode at 40-40 the next point wins the game for the scorer |
| TennisProofs.NoAdNeverAdvantage | TennisPoint/Game.swift:138-148 | in no-advantage mode a point never creates an advantage |
| TennisProofs.NoAdPlayNeverAdvantage | TennisPoint/Game.swift:138-148 | in no-advantage mode no sequence of points ever creates an advantage |
| TennisProofs.TieBreakPoint | TennisPoint/Game.swift:81-86 | in a tie-break a point raises only the scorer's tie-break count; the game is won iff the scorer reaches 7 with a lead of 2, and then the result is game completion of the scored state |
| TennisProofs.TieBreakDecidesSet | TennisPoint/Game.swift:178-214 | with the tie-break at or above the set target, winning it wins the set: single-set ends at tieBreakAtGame+1 to tieBreakAtGame, multi-set adds a set and starts 0-0 |
| TennisProofs.TieBreakAtZeroStartsInTieBreak | TennisPoint/Game.swift:101-108 | with the tie-break enabled at 0, a fresh game is already in a tie-break |
| TennisProofs.SingleSetKeepsScore | TennisPoint/Game.swift:189-194 | single-set: sets stay 0-0 and the set number 1; the point that ends the match leaves the final game score on display |
| TennisProofs.MultiSetMatchEnd | TennisPoint/Game.swift:195-220 | multi-set: the match ends on a point iff the scorer's sets reach totalSets/2+1; a set win adds one set and starts the next set at 0-0 |
| TennisProofs.SingleSetSixFour | TennisPoint/Game.swift:189-194 | a single-set match to six ending 6-4 is over and shows games 6 and 4 |
| TennisProofs.DisabledTieBreakStillEndsSetAtSevenSix | TennisPoint/Game.swift:211-214 | with the tie-break off and tieBreakAtGame 6, 7-6 still wins the set |
| TennisProofs.SetsBounded | TennisPoint/Game.swift:217-220 | in a best-of-N match (N at least 1) no player ever holds more than the `SetsNeeded` (N/2+1) sets that decide the match |
| TennisProofs.PointScoreIsTennisCall | TennisPoint/Game.swift:258-264 | on reachable states outside a tie-break the raw-count display fallback is never used, and the display stands for the point count |
| TennisProofs.OrdinaryScoreText | TennisPoint/Game.swift:251-261 | on reachable states outside a tie-break and below 40-40, the text is "0", "15", "30" or "40" for 0, 1, 2 or 3 points |
| TennisProofs.AdExclusive | TennisPoint/Game.swift:252-257 | when one player is shown "Ad" the other is shown "40" |
| TennisProofs.TieBreakScoreText | TennisPoint/Game.swift:247-249 | during a tie-break the scoreboard text is the decimal tie-break count, without a leading zero |
| TennisProofs.ResetIsFreshGame | TennisPoint/Game.swift:271-280 | for every configuration, after reset the state is a fresh game: invariant holds, 0 sets, 0 games, point text "0" (a tie-break count when the tie-break is set at game 0), and points are accepted again |

## Left out

- The SwiftUI screens (`GameView.swift`, `ContentView.swift`) are presentation only. They forward taps to `addPoint` and copy the query results into a table.
- The settings screen's mapping of its picker choices to `tieBreakAtGame` is left out. The model takes any configuration as input instead.
- Player numbers other than 1 and 2 are excluded by a precondition while the match is in progress. In the source they fault on array indexing there.
- PointScore: requires player 1 or 2 even though, outside a tie-break with both players at 40 or more, the source indexes nothing and returns "40" for any other number.
- HasWonSet: does not model the overflow trap of `tieBreakAtGame * 2 + 1` (Game.swift:213). The `&&` and `||` there short-circuit, so Swift evaluates that product only when the winner of a game has at least `gamesPerSet` games and leads by less than 2 (at 6-5, say). The trap then fires only if `tieBreakAtGame` lies above `Int.max / 2` or below `Int.min / 2`; the `+ 1` cannot overflow after the doubling succeeds. The model returns a value instead.
- Other Swift `Int` overflow traps are not modelled; the counters are unbounded. The point, game and set counters would need more than 2^63 increments to trap.
- The engine is single-threaded, so the object identity and in-place mutation of the Swift class are modelled as passing state values along.
