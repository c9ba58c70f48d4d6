# Protocols playground: Snakes and Ladders, Counter and friends, in Dafny

This project models the behaviour in the Swift playground `Protocols.playground/Contents.swift`. The playground is mostly a tour of Swift protocols, but a few pieces of it compute something:

- **Snakes and Ladders** (`SnakesAndLadders`, `DiceGameTracker`). This is a 25-square board with four ladders and four snakes. `play()` runs a turn loop driven by die rolls and notifies a delegate when the game starts, on every turn, and when the game ends. `DiceGameTracker` is a delegate that counts turns. The extension `PrettyTextRepresentable` draws the board as a line of markers.
- **Counter** (`Counter.incremetn`, `ThreeSource`, `TowardsZeroSource`). A counter asks an optional data source for an increment. The data source's two members are both optional (`@objc optional`): `incrementForCount(count:)` and `fixedIncrement`.
- **Small helpers**:
  - the two-state `OnOffSwith.toggle()`;
  - `Starship.fullyName`;
  - the bracketed, comma-joined `textualDescription` of a collection of `TextRepresentable` values.

Modules follow the source's types:

| file | module | source |
|---|---|---|
| `snakes_and_ladders.dfy` | `SnakesAndLadders` | the board, one turn (`Step`), the game loop (`GameLoop`), `play()` as a fold (`Play`) and as the source's `while` loop (`PlayGame`) |
| `dice_game_tracker.dfy` | `DiceGameTracker` | the turn-counting delegate |
| `pretty_text.dfy` | `PrettyText` | `textualDescription` and `prettyTextRepresentable` of the game |
| `counter.dfy` | `Counter` | `Counter`, `CounterDataSource`, `ThreeSource`, `TowardsZeroSource` |
| `on_off_switch.dfy` | `OnOffSwitch` | `OnOffSwith` and `toggle()` |
| `starship.dfy` | `Starship` | `Starship.fullyName` |
| `text_representable.dfy` | `TextRepresentable` | `Collection.textualDescription` |
| `decimal.dfy` | `Decimal` | decimal rendering of an `Int`, as string interpolation writes it |
| `wrappers.dfy` | `Wrappers` | `Option`, standing in for Swift optionals |

Modelling decisions:

- **The die is an input.** Every roll is an integer in `1...6`, which is the range `Dice(sides: 6).roll()` returns. `play()` runs over a finite sequence of rolls. If the rolls run out before the game is won, the model stops and reports the game as unfinished; the real loop would keep rolling.
- **The board is a parameter.** The turn and the loop take the board as an argument. `ValidBoard` requires that every square a move can land on sends the piece to a square in `0 ..< 25`. `InitialBoardIsValid` proves that the board built by the initialiser meets this.
- **The win quirk is kept.** On the winning roll the code executes `break gameLoop` before `square` is advanced. So after a won game `square` still holds the square the winning roll was made from, and it never equals `finalSquare`. The model follows the code: the square stays in `0 ..< finalSquare` throughout, and the `while square != finalSquare` condition never ends the loop.
- **The board is not validated.** The initialiser sets its eight entries and checks nothing. No out-of-range error exists in the code, so none is modelled.
- **Swift's `Int` is 64 bits, and `+=` traps on overflow.** `Counter.Increment` returns `OverflowTrap` when `count + amount` leaves `Int`.
- **A data source is a pair of optional members.** `incrementForCount` is an `Option` of an `Int64 -> Int64` function; `fixedIncrement` is an `Option<Int64>`. A source that implements neither is `DataSource(None, None)`; a counter with no source has `dataSource == None`.

## Model

| member | source | states |
|---|---|---|
| SnakesAndLadders.InitialBoard | Protocols.playground/Contents.swift:324-334 | the board has `finalSquare + 1` entries; squares 3, 6, 9, 10, 14, 19, 22, 24 hold +8, +11, +9, +2, −10, −11, −2, −8; every other entry is 0 |
| SnakesAndLadders.InitialBoardIsValid | Protocols.playground/Contents.swift:326-333 | on the initialiser's board, every square a move can land on sends the piece to a square in `0 ..< finalSquare`, so play never leaves the board |
| SnakesAndLadders.InitialBoardJumpsEndOnPlainSquares | Protocols.playground/Contents.swift:326-333 | every snake and ladder ends on a square whose entry is 0, so no jump leads to another jump |
| SnakesAndLadders.NewGame | Protocols.playground/Contents.swift:318-334 | a new game stands on square 0 of exactly the initialiser's board, and that board keeps play on the board |
| SnakesAndLadders.Step | Protocols.playground/Contents.swift:344-352 | a roll wins exactly when `square + roll == finalSquare` and overshoots exactly when the sum is larger; otherwise it moves to `square + roll` plus that square's one jump, and the result is still in `0 ..< finalSquare` |
| SnakesAndLadders.StepLandsOnPlainSquare | Protocols.playground/Contents.swift:349-351 | on the initialiser's board, a move applies exactly one jump and lands on a square with no snake or ladder |
| SnakesAndLadders.GameLoop | Protocols.playground/Contents.swift:341-353 | entered on a square in play, the loop never ends through its `while` condition and keeps the square in `0 ..< finalSquare`; it never takes more rolls than it is given; when it breaks on a win, the final square plus the last roll taken equals `finalSquare`, so the square was not advanced; running out of rolls means every roll was taken |
| SnakesAndLadders.Play | Protocols.playground/Contents.swift:338-355 | the delegate hears exactly one start first, then one turn per roll taken, in order and including overshooting and winning rolls, then an end exactly when the game finished; the game finishes if and only if some roll, taken from the square `SquareBefore` reaches by moving and jumping from 0, lands exactly on `finalSquare`; it then stops at the first such roll, having announced every roll up to it, and is left on the square that roll was made from; an unfinished game took every roll and stands where they lead; the board is unchanged and the square stays in play |
| SnakesAndLadders.GameLoopOutcome | Protocols.playground/Contents.swift:341-353 | the loop entered at square 0 breaks if and only if some roll wins from the square the earlier rolls lead to, and then on the first winning roll with the square unchanged by it; otherwise it takes every roll and ends on the square they lead to |
| SnakesAndLadders.ResumesUntil | Protocols.playground/Contents.swift:341-351 | until a roll wins, the loop reaches roll `i` on the square found by taking the earlier rolls one by one (an overshoot stays put, a move adds the roll and one jump) |
| SnakesAndLadders.PlayGame | Protocols.playground/Contents.swift:338-355 | the source's `while` loop, with its labelled `break` and `continue`, computes exactly the square, notifications and outcome that the fold `Play` describes |
| SnakesAndLadders.ResumeAfterWin | Protocols.playground/Contents.swift:345-346 | the winning roll ends the loop with the square the roll was made from, having taken one more roll |
| SnakesAndLadders.ResumeAfterOvershoot | Protocols.playground/Contents.swift:347-348 | an overshooting roll uses up a turn and leaves the square unchanged |
| SnakesAndLadders.ResumeAfterMove | Protocols.playground/Contents.swift:349-351 | after a move and its single jump, the loop continues from a square that is still in play |
| SnakesAndLadders.ReplayIsIdentical | Protocols.playground/Contents.swift:338-340 | because `play()` resets the square to 0, replaying the same rolls gives the same notifications and the same final state |
| SnakesAndLadders.TurnRollsAppend | Protocols.playground/Contents.swift:343 | the rolls announced by a concatenation of notification sequences are the rolls announced by each part, in order |
| SnakesAndLadders.TurnRollsOfTurnEvents | Protocols.playground/Contents.swift:342-343 | the turn notifications for a run of rolls announce exactly those rolls, in order |
| DiceGameTracker.Notify | Protocols.playground/Contents.swift:364-379 | a start notification resets the turn count to 0, a turn notification adds one, and an end notification changes nothing |
| DiceGameTracker.ObserveCountsTurns | Protocols.playground/Contents.swift:372-375 | with no start notification in between, the count grows by exactly the number of turn notifications |
| DiceGameTracker.TrackerCountsRollsOfGame | Protocols.playground/Contents.swift:361-379 | whatever the tracker had counted before, after a game `numberOfTurns` equals the number of rolls that game took (all of them if it was not won) |
| PrettyText.TextualDescription | Protocols.playground/Contents.swift:457-459 | the description is the opening "A game of Snakes and Ladders with ", then a run of decimal digits that reads back as `finalSquare`, then " squares" |
| PrettyText.TextualDescriptionText | Protocols.playground/Contents.swift:457-459 | the game describes itself as "A game of Snakes and Ladders with 25 squares" |
| PrettyText.MarkersRoundTrip | Protocols.playground/Contents.swift:463-472 | the markers "▲ ", "▼ " and "○" form a prefix-free code: reading a picture back gives exactly one square kind per board entry (ladder for a positive entry, snake for a negative one, plain for 0), in order |
| PrettyText.ReadOneMarker | Protocols.playground/Contents.swift:464-471 | each marker is read back as the kind of the entry it was drawn for, and nothing more is consumed |
| PrettyText.DrawSquares | Protocols.playground/Contents.swift:463-472 | whatever text the loop starts from is kept, and what it appends reads back as one square kind per board entry `1...finalSquare`, in order |
| PrettyText.PrettyTextRepresentable | Protocols.playground/Contents.swift:461-474 | the picture is the description followed by ":\n", then exactly `finalSquare` markers, one for each index `1...finalSquare`, each showing the kind of that board entry |
| PrettyText.InitialBoardPicture | Protocols.playground/Contents.swift:461-474 | the initialiser's board is drawn as ladders at 3, 6, 9 and 10, snakes at 14, 19, 22 and 24, and plain squares elsewhere |
| Decimal.NatToDecimal | Protocols.playground/Contents.swift:458 | an interpolated non-negative `Int` is a non-empty string of digits with no leading zero |
| Decimal.DecimalRoundTrip | Protocols.playground/Contents.swift:458 | reading the interpolated numeral back gives the number that was interpolated |
| Counter.Amount | Protocols.playground/Contents.swift:629-632 | with no data source there is no increment; `incrementForCount(count)` is used whenever the source implements it; `fixedIncrement` is used only when it does not |
| Counter.TowardsZeroIncrement | Protocols.playground/Contents.swift:653-661 | the increment is 0 exactly when the count is 0; otherwise it is 1 or −1, positive exactly when the count is negative |
| Counter.Increment | Protocols.playground/Contents.swift:628-634 | the data source is kept; with no chosen amount the count is unchanged; otherwise the count grows by the amount, and the call traps exactly when the sum leaves the 64-bit `Int` range |
| Counter.IncrementTimes | Protocols.playground/Contents.swift:643-645 | repeated increments never change the data source, and do nothing when no amount is chosen |
| Counter.EmptySourceKeepsCount | Protocols.playground/Contents.swift:628-634 | a data source that implements neither member leaves the counter unchanged |
| Counter.IncrementForCountTakesPrecedence | Protocols.playground/Contents.swift:629-632 | when a source implements both members, `incrementForCount` decides the increment and `fixedIncrement` is ignored, also when the sum leaves `Int`: the call then traps rather than falling back |
| Counter.ThreeSourceAddsThree | Protocols.playground/Contents.swift:637-646 | with `ThreeSource`, `n` increments add exactly `3 * n`, and the run traps exactly when that would pass `Int.max` |
| Counter.TowardsZeroStep | Protocols.playground/Contents.swift:651-662 | with `TowardsZeroSource`, one increment never traps, moves the count one step toward 0 (staying at 0 once there), and never crosses 0 |
| Counter.TowardsZeroConverges | Protocols.playground/Contents.swift:665-670 | with `TowardsZeroSource`, `n` increments reduce the distance to 0 by `n`, stopping at 0, without changing the count's sign |
| Counter.PlaygroundRuns | Protocols.playground/Contents.swift:641-670 | the playground's runs end at 15 (five increments from 0 with `ThreeSource`) and at 0 (five increments from −4 with `TowardsZeroSource`) |
| OnOffSwitch.Toggle | Protocols.playground/Contents.swift:190-197 | toggling always changes the switch |
| OnOffSwitch.ToggleTwice | Protocols.playground/Contents.swift:190-197 | toggling twice restores the switch |
| OnOffSwitch.ToggleTimesParity | Protocols.playground/Contents.swift:187-201 | after `n` toggles the switch is back where it started if and only if `n` is even, and otherwise it is toggled |
| Starship.FullyName | Protocols.playground/Contents.swift:121-123 | the full name ends with the name; it equals the name if and only if there is no prefix; with a prefix it is the prefix, one space, then the name |
| Starship.FullyNameRoundTrip | Protocols.playground/Contents.swift:113-123 | a prefix with no space can be recovered from the full name by splitting at the first space, and a space-free name with no prefix is recovered unchanged |
| TextRepresentable.CollectionDescription | Protocols.playground/Contents.swift:720-725 | the description starts with "[" and ends with "]", and between them are the elements' descriptions joined by commas |
| TextRepresentable.DescriptionRoundTrip | Protocols.playground/Contents.swift:720-725 | for a non-empty collection in which no element's description contains a comma, cutting the bracketed text at its commas gives back exactly the elements' descriptions, in order |
| TextRepresentable.JoinSplit | Protocols.playground/Contents.swift:724 | for a non-empty list of parts, none of which contains the separator, joining with the separator and then splitting at that separator gives back the parts |

## Left out

- `LinearCongruentialGenerator`, `Dice.roll()` and `randomBool()` use floating-point arithmetic (`truncatingRemainder`, `Int(Double * Double)`). Rolls are inputs in `1...6` instead.
- `Circle.area` uses floating-point arithmetic.
- `play()` termination: it depends on the random roll stream. `play()` is modelled over a finite roll sequence, and a game whose rolls run out is reported as unfinished.
- The optional delegate: with `delegate == nil` every notification is a no-op. `Play` returns the notifications that an attached delegate would receive; it does not model a game with no delegate separately.
- `DiceGameTracker.Notify`: does not model overflow of `numberOfTurns`, which would take more than `Int.max` turns in one game.
- `SnakesAndLadders.Step`, `SnakesAndLadders.GameLoop`, `SnakesAndLadders.Play` and `SnakesAndLadders.PlayGame`: they require `ValidBoard`. The source only ever plays on the initialiser's board, and `InitialBoardIsValid` proves that board meets the requirement.
- Printing: the tracker's messages, `print` calls and the `import UIKit` line.
- `Dice.textualDescription`, `Hamster.textualDescription` and the `prettyTextualDescription` default only interpolate or forward a string. Each element of a collection is represented by its description.
- TextRepresentable.DescriptionRoundTrip: the round trip is stated for non-empty collections only, because the empty collection is drawn as `[]` and cutting its inside at commas gives one empty piece, not none.
- Language-feature demonstrations with no behaviour of their own:
  - static and class properties (`FullyNameType` and its conformers);
  - `required override init`;
  - protocol composition (`wishHappyBirthday`);
  - `is` and `as?` checks (`HasArea`, `Country`, `Animal`);
  - the `@objc optional` mechanism itself (its effect is modelled through `Option` members).
