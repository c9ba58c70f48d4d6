/**
 The Snakes and Ladders dice game: the board the initialiser builds, one turn
 of the game loop, and `play()` run over a finite stream of die rolls, with
 the notifications it sends to its delegate.

 The die is not modelled: every roll is an input in `1...DiceSides`, which is
 what a six-sided `Dice.roll()` returns.
 */
module SnakesAndLadders {

  const FinalSquare: int := 25
  const DiceSides: int := 6

  /** The squares the initialiser puts a ladder (positive) or a snake (negative) on. */
  const JumpSquares: set<int> := {3, 6, 9, 10, 14, 19, 22, 24}

  /**
   The board as the initialiser builds it: `FinalSquare + 1` zeros, then the
   ladders and snakes written over them one by one.
   */
  function InitialBoard(): (board: seq<int>)
    ensures |board| == FinalSquare + 1
    ensures board[3] == 8 && board[6] == 11 && board[9] == 9 && board[10] == 2
    ensures board[14] == -10 && board[19] == -11 && board[22] == -2 && board[24] == -8
    ensures forall i :: 0 <= i < |board| && i !in JumpSquares ==> board[i] == 0
  {
    seq(FinalSquare + 1, _ => 0)
      [3 := 8][6 := 11][9 := 9][10 := 2]
      [14 := -10][19 := -11][22 := -2][24 := -8]
  }

  /** A square the game can be on between turns. */
  predicate InPlay(square: int) {
    0 <= square < FinalSquare
  }

  /** A value `Dice(sides: 6, ...).roll()` can return. */
  predicate ValidRoll(roll: int) {
    1 <= roll <= DiceSides
  }

  predicate ValidRolls(rolls: seq<int>) {
    forall i :: 0 <= i < |rolls| ==> ValidRoll(rolls[i])
  }

  /**
   A board on which play stays on the board: one entry per square, and every
   square a move can land on (1 up to `FinalSquare - 1`) sends the piece to a
   square that is still in play.
   */
  predicate ValidBoard(board: seq<int>) {
    && |board| == FinalSquare + 1
    && forall t :: 1 <= t < FinalSquare ==> InPlay(t + board[t])
  }

  /** The initialiser's board keeps every move on the board. */
  lemma InitialBoardIsValid()
    ensures ValidBoard(InitialBoard())
  {
  }

  /**
   On the initialiser's board every snake and ladder ends on a plain square,
   so applying one jump per move, as the game does, never leaves a pending jump.
   */
  lemma InitialBoardJumpsEndOnPlainSquares(t: int)
    requires 1 <= t < FinalSquare
    ensures var board := InitialBoard(); board[t + board[t]] == 0
  {
  }

  /** What one roll does: the winning roll, an overshoot, or a move (plus one jump). */
  datatype Turn = Win | Overshoot | Move(square: int)

  /** The `switch square + diceRoll` in the body of the game loop. */
  function Step(board: seq<int>, square: int, roll: int): (t: Turn)
    requires ValidBoard(board) && InPlay(square) && ValidRoll(roll)
    ensures t == Win <==> square + roll == FinalSquare
    ensures t == Overshoot <==> square + roll > FinalSquare
    ensures t.Move? <==> square + roll < FinalSquare
    ensures t.Move? ==> InPlay(t.square)
    ensures t.Move? ==> t.square - board[square + roll] == square + roll
  {
    var target := square + roll;
    if target == FinalSquare then Win
    else if target > FinalSquare then Overshoot
    else Move(target + board[target])
  }

  /**
   Every move on the initialiser's board applies exactly one jump and lands on
   a square with no snake or ladder.
   */
  lemma StepLandsOnPlainSquare(square: int, roll: int)
    requires InPlay(square) && ValidRoll(roll) && square + roll < FinalSquare
    ensures ValidBoard(InitialBoard()) &&
      var t := Step(InitialBoard(), square, roll);
      t.Move? && InitialBoard()[t.square] == 0
  {
  }

  /**
   How the game loop ended: `break gameLoop` on the winning roll, the `while`
   condition `square != finalSquare` turning false, or the finite roll stream
   of this model running out before the game was won.
   */
  datatype Exit = Break | ConditionFalse | RollsExhausted

  /** The loop's final square and how many rolls it consumed. */
  datatype LoopResult = LoopResult(square: int, turns: nat, exit: Exit)

  /** The loop's result when entered one roll earlier: one more turn. */
  function Later(r: LoopResult): LoopResult {
    r.(turns := r.turns + 1)
  }

  /**
   The `gameLoop` of `play()`, entered with `square` and the rolls still to
   come. Each roll is one iteration; an overshooting roll leaves the square
   alone, and the winning roll breaks out of the loop before `square` is
   advanced.
   */
  function GameLoop(board: seq<int>, square: int, rolls: seq<int>): (r: LoopResult)
    requires ValidBoard(board) && 0 <= square <= FinalSquare && ValidRolls(rolls)
    ensures r.turns <= |rolls|
    ensures InPlay(square) ==> r.exit != ConditionFalse && InPlay(r.square)
    ensures square == FinalSquare ==> r.exit == ConditionFalse && r.turns == 0
    ensures r.exit == RollsExhausted ==> r.turns == |rolls|
    ensures r.exit == Break ==> 1 <= r.turns && r.square + rolls[r.turns - 1] == FinalSquare
    decreases |rolls|
  {
    if square == FinalSquare then LoopResult(square, 0, ConditionFalse)
    else if |rolls| == 0 then LoopResult(square, 0, RollsExhausted)
    else match Step(board, square, rolls[0])
      case Win => LoopResult(square, 1, Break)
      case Overshoot => Later(GameLoop(board, square, rolls[1..]))
      case Move(next) => Later(GameLoop(board, next, rolls[1..]))
  }

  /**
   Entering the loop at `square` with the rolls from index `i` on ends the way
   the whole game, entered at square 0 with every roll, ends.
   */
  ghost predicate Resumes(board: seq<int>, rolls: seq<int>, square: int, i: int)
    requires ValidBoard(board) && ValidRolls(rolls) && InPlay(square) && 0 <= i <= |rolls|
  {
    var r := GameLoop(board, square, rolls[i..]);
    GameLoop(board, 0, rolls) == r.(turns := r.turns + i)
  }

  /** The winning roll ends the game loop with the square it was rolled from. */
  lemma ResumeAfterWin(board: seq<int>, rolls: seq<int>, square: int, i: int)
    requires ValidBoard(board) && ValidRolls(rolls) && InPlay(square) && 0 <= i < |rolls|
    requires Resumes(board, rolls, square, i) && square + rolls[i] == FinalSquare
    ensures GameLoop(board, 0, rolls) == LoopResult(square, i + 1, Break)
  {
    var rest := rolls[i..];
    assert rest[0] == rolls[i];
    assert GameLoop(board, square, rest) == LoopResult(square, 1, Break);
  }

  /** An overshooting roll is one more turn on the same square. */
  lemma ResumeAfterOvershoot(board: seq<int>, rolls: seq<int>, square: int, i: int)
    requires ValidBoard(board) && ValidRolls(rolls) && InPlay(square) && 1 <= i <= |rolls|
    requires Resumes(board, rolls, square, i - 1) && square + rolls[i - 1] > FinalSquare
    ensures Resumes(board, rolls, square, i)
  {
    var rest := rolls[i - 1..];
    assert rest[0] == rolls[i - 1] && rest[1..] == rolls[i..];
    var r' := GameLoop(board, square, rolls[i..]);
    assert GameLoop(board, square, rest) == Later(r');
    assert GameLoop(board, 0, rolls) == r'.(turns := r'.turns + i);
  }

  /** A move takes the loop on from the square reached after the move and its one jump. */
  lemma ResumeAfterMove(board: seq<int>, rolls: seq<int>, square: int, i: int, next: int)
    requires ValidBoard(board) && ValidRolls(rolls) && InPlay(square) && 1 <= i <= |rolls|
    requires Resumes(board, rolls, square, i - 1) && square + rolls[i - 1] < FinalSquare
    requires next == square + rolls[i - 1] + board[square + rolls[i - 1]]
    ensures InPlay(next) && Resumes(board, rolls, next, i)
  {
    var rest := rolls[i - 1..];
    assert rest[0] == rolls[i - 1] && rest[1..] == rolls[i..];
    assert Step(board, square, rolls[i - 1]) == Move(next);
    var r' := GameLoop(board, next, rolls[i..]);
    assert GameLoop(board, square, rest) == Later(r');
    assert GameLoop(board, 0, rolls) == r'.(turns := r'.turns + i);
  }

  /**
   The square the piece is on before roll `i`, found by taking the rolls one
   after another from square 0: a move goes to its square after the jump, and
   an overshoot stays put. A winning roll is also taken to stay put; only the
   squares up to the first winning roll are ever reached in play.
   */
  function SquareBefore(board: seq<int>, rolls: seq<int>, i: int): (square: int)
    requires ValidBoard(board) && ValidRolls(rolls) && 0 <= i <= |rolls|
    ensures InPlay(square)
    decreases i
  {
    if i == 0 then 0
    else
      var from := SquareBefore(board, rolls, i - 1);
      match Step(board, from, rolls[i - 1])
      case Move(next) => next
      case _ => from
  }

  /** Roll `i` is a winning roll: it reaches the final square exactly. */
  predicate WinsAt(board: seq<int>, rolls: seq<int>, i: int)
    requires ValidBoard(board) && ValidRolls(rolls) && 0 <= i < |rolls|
  {
    SquareBefore(board, rolls, i) + rolls[i] == FinalSquare
  }

  /**
   As long as no earlier roll won, the game loop reaches roll `i` on the
   square `SquareBefore` gives.
   */
  lemma {:induction false} ResumesUntil(board: seq<int>, rolls: seq<int>, i: int)
    requires ValidBoard(board) && ValidRolls(rolls) && 0 <= i <= |rolls|
    requires forall j :: 0 <= j < i ==> !WinsAt(board, rolls, j)
    ensures Resumes(board, rolls, SquareBefore(board, rolls, i), i)
    decreases i
  {
    if i == 0 {
      assert rolls[0..] == rolls;
    } else {
      ResumesUntil(board, rolls, i - 1);
      var from := SquareBefore(board, rolls, i - 1);
      assert !WinsAt(board, rolls, i - 1);
      if from + rolls[i - 1] > FinalSquare {
        ResumeAfterOvershoot(board, rolls, from, i);
      } else {
        ResumeAfterMove(board, rolls, from, i, from + rolls[i - 1] + board[from + rolls[i - 1]]);
      }
    }
  }

  /** The game loop, searched for its first winning roll from index `i` on. */
  lemma {:induction false} OutcomeFrom(board: seq<int>, rolls: seq<int>, i: int)
    requires ValidBoard(board) && ValidRolls(rolls) && 0 <= i <= |rolls|
    requires forall j :: 0 <= j < i ==> !WinsAt(board, rolls, j)
    ensures var r := GameLoop(board, 0, rolls);
      && (r.exit == Break <==> exists w :: i <= w < |rolls| && WinsAt(board, rolls, w))
      && (r.exit == Break ==>
            && 1 <= r.turns <= |rolls|
            && WinsAt(board, rolls, r.turns - 1)
            && (forall j :: 0 <= j < r.turns - 1 ==> !WinsAt(board, rolls, j))
            && r.square == SquareBefore(board, rolls, r.turns - 1))
      && (r.exit != Break ==> r.turns == |rolls| && r.square == SquareBefore(board, rolls, |rolls|))
    decreases |rolls| - i
  {
    ResumesUntil(board, rolls, i);
    if i == |rolls| {
      assert rolls[i..] == [];
    } else if WinsAt(board, rolls, i) {
      ResumeAfterWin(board, rolls, SquareBefore(board, rolls, i), i);
    } else {
      OutcomeFrom(board, rolls, i + 1);
    }
  }

  /**
   The game loop entered at square 0 breaks exactly when some roll wins, and
   then on the first such roll, from the square `SquareBefore` gives; otherwise
   it takes every roll and ends where they lead.
   */
  lemma GameLoopOutcome(board: seq<int>, rolls: seq<int>)
    requires ValidBoard(board) && ValidRolls(rolls)
    ensures var r := GameLoop(board, 0, rolls);
      && (r.exit == Break <==> exists w :: 0 <= w < |rolls| && WinsAt(board, rolls, w))
      && (r.exit == Break ==>
            && 1 <= r.turns <= |rolls|
            && WinsAt(board, rolls, r.turns - 1)
            && (forall j :: 0 <= j < r.turns - 1 ==> !WinsAt(board, rolls, j))
            && r.square == SquareBefore(board, rolls, r.turns - 1))
      && (r.exit != Break ==> r.turns == |rolls| && r.square == SquareBefore(board, rolls, |rolls|))
  {
    OutcomeFrom(board, rolls, 0);
  }

  /** A call `play()` makes on its delegate. */
  datatype Event = GameDidStart | DidStartNewTurn(roll: int) | GameDidEnd

  /** A `SnakesAndLadders` object: the square the piece is on and its board. */
  datatype Game = Game(square: int, board: seq<int>)

  /** `SnakesAndLadders()`: the piece on square 0 of the initialiser's board. */
  function NewGame(): (g: Game)
    ensures g.square == 0 && g.board == InitialBoard() && ValidBoard(g.board)
  {
    InitialBoardIsValid();
    Game(0, InitialBoard())
  }

  /** One turn notification per roll, in order. */
  function TurnEvents(rolls: seq<int>): (events: seq<Event>)
    ensures |events| == |rolls|
    ensures forall i :: 0 <= i < |rolls| ==> events[i] == DidStartNewTurn(rolls[i])
  {
    seq(|rolls|, i requires 0 <= i < |rolls| => DidStartNewTurn(rolls[i]))
  }

  /** The rolls announced by the turn notifications of a trace, in order. */
  function TurnRolls(events: seq<Event>): seq<int> {
    if |events| == 0 then []
    else (if events[0].DidStartNewTurn? then [events[0].roll] else []) + TurnRolls(events[1..])
  }

  lemma {:induction false} TurnRollsAppend(a: seq<Event>, b: seq<Event>)
    ensures TurnRolls(a + b) == TurnRolls(a) + TurnRolls(b)
  {
    if |a| == 0 {
      assert a + b == b;
    } else {
      assert (a + b)[0] == a[0];
      assert (a + b)[1..] == a[1..] + b;
      TurnRollsAppend(a[1..], b);
    }
  }

  lemma TurnEventsSnoc(rolls: seq<int>, i: int)
    requires 0 <= i < |rolls|
    ensures [GameDidStart] + TurnEvents(rolls[..i + 1])
      == ([GameDidStart] + TurnEvents(rolls[..i])) + [DidStartNewTurn(rolls[i])]
  {
    assert TurnEvents(rolls[..i + 1]) == TurnEvents(rolls[..i]) + [DidStartNewTurn(rolls[i])];
  }

  lemma {:induction false} TurnRollsOfTurnEvents(rolls: seq<int>)
    ensures TurnRolls(TurnEvents(rolls)) == rolls
  {
    if |rolls| > 0 {
      assert TurnEvents(rolls)[1..] == TurnEvents(rolls[1..]);
      TurnRollsOfTurnEvents(rolls[1..]);
    }
  }

  /**
   The notifications of one game: one start, one turn per roll taken, and one
   end if the game was won.
   */
  function Trace(rolls: seq<int>, ended: bool): (events: seq<Event>)
    ensures |events| == 1 + |rolls| + (if ended then 1 else 0)
    ensures TurnRolls(events) == rolls
  {
    var events := [GameDidStart] + TurnEvents(rolls) + (if ended then [GameDidEnd] else []);
    TurnRollsAppend([GameDidStart], TurnEvents(rolls));
    TurnRollsAppend([GameDidStart] + TurnEvents(rolls), if ended then [GameDidEnd] else []);
    TurnRollsOfTurnEvents(rolls);
    events
  }

  /** What `play()` leaves behind: the game, the delegate calls made, and whether it was won. */
  datatype PlayResult = PlayResult(game: Game, events: seq<Event>, finished: bool)

  /**
   `play()` over a finite roll stream: the square is reset to 0, the game loop
   runs, and the delegate hears one start, one turn per roll taken (the
   overshooting and winning rolls included) and, once the game is won, one end.
   If the rolls run out first the game is left unfinished.
   */
  function Play(g: Game, rolls: seq<int>): (p: PlayResult)
    requires ValidBoard(g.board) && ValidRolls(rolls)
    ensures p.game.board == g.board && InPlay(p.game.square)
    ensures |p.events| >= 1 && p.events[0] == GameDidStart
    ensures forall k :: 1 <= k < |p.events| ==> p.events[k] != GameDidStart
    ensures p.finished <==> p.events[|p.events| - 1] == GameDidEnd
    ensures forall k :: 0 <= k < |p.events| - 1 ==> p.events[k] != GameDidEnd
    ensures |p.events| == 1 + |TurnRolls(p.events)| + (if p.finished then 1 else 0)
    ensures TurnRolls(p.events) <= rolls
    ensures !p.finished ==> TurnRolls(p.events) == rolls
    ensures p.finished ==>
      var n := |TurnRolls(p.events)|; 1 <= n && p.game.square + rolls[n - 1] == FinalSquare
    ensures p.finished <==> exists i :: 0 <= i < |rolls| && WinsAt(g.board, rolls, i)
    ensures p.finished ==>
      var n := |TurnRolls(p.events)|;
      && 1 <= n <= |rolls|
      && WinsAt(g.board, rolls, n - 1)
      && (forall j :: 0 <= j < n - 1 ==> !WinsAt(g.board, rolls, j))
      && p.game.square == SquareBefore(g.board, rolls, n - 1)
    ensures !p.finished ==> p.game.square == SquareBefore(g.board, rolls, |rolls|)
  {
    var r := GameLoop(g.board, 0, rolls);
    var ended := r.exit == Break;
    var events := Trace(rolls[..r.turns], ended);
    TraceOutcome(g.board, rolls, r, events);
    PlayResult(g.(square := r.square), events, ended)
  }

  /** The outcome of the game loop, read off the notifications `play()` sends. */
  lemma TraceOutcome(board: seq<int>, rolls: seq<int>, r: LoopResult, events: seq<Event>)
    requires ValidBoard(board) && ValidRolls(rolls)
    requires r == GameLoop(board, 0, rolls) && events == Trace(rolls[..r.turns], r.exit == Break)
    ensures r.exit == Break <==> exists i :: 0 <= i < |rolls| && WinsAt(board, rolls, i)
    ensures r.exit == Break ==>
      var n := |TurnRolls(events)|;
      && 1 <= n <= |rolls|
      && WinsAt(board, rolls, n - 1)
      && (forall j :: 0 <= j < n - 1 ==> !WinsAt(board, rolls, j))
      && r.square == SquareBefore(board, rolls, n - 1)
    ensures r.exit != Break ==> r.square == SquareBefore(board, rolls, |rolls|)
  {
    GameLoopOutcome(board, rolls);
    assert |TurnRolls(events)| == r.turns;
  }

  /** `Play` in terms of the game loop's result. */
  lemma PlayUnfold(g: Game, rolls: seq<int>)
    requires ValidBoard(g.board) && ValidRolls(rolls)
    ensures var r := GameLoop(g.board, 0, rolls);
      var ended := r.exit == Break;
      Play(g, rolls) == PlayResult(g.(square := r.square),
        [GameDidStart] + TurnEvents(rolls[..r.turns]) + (if ended then [GameDidEnd] else []), ended)
  {
  }

  /**
   The body of `play()` written as the source writes it: a `while` loop with a
   labelled `break` on the winning roll and a `continue` on an overshoot.
   It computes exactly what `Play` describes.
   */
  method PlayGame(g: Game, rolls: seq<int>) returns (p: PlayResult)
    requires ValidBoard(g.board) && ValidRolls(rolls)
    ensures p == Play(g, rolls)
  {
    var board := g.board;
    var square := 0;
    var events := [GameDidStart];
    var won := false;
    var i := 0;
    while square != FinalSquare && i < |rolls|
      invariant 0 <= i <= |rolls|
      invariant InPlay(square)
      invariant events == [GameDidStart] + TurnEvents(rolls[..i])
      invariant Resumes(board, rolls, square, i)
      decreases |rolls| - i
    {
      var diceRoll := rolls[i];
      ghost var from := square;
      TurnEventsSnoc(rolls, i);
      i := i + 1;
      events := events + [DidStartNewTurn(diceRoll)];
      if square + diceRoll == FinalSquare {
        ResumeAfterWin(board, rolls, square, i - 1);
        won := true;
        break;
      } else if square + diceRoll > FinalSquare {
        ResumeAfterOvershoot(board, rolls, square, i);
        continue;
      } else {
        square := square + diceRoll;
        square := square + board[square];
        ResumeAfterMove(board, rolls, from, i, square);
      }
    }
    if won {
      events := events + [GameDidEnd];
    } else {
      assert rolls[i..] == [] && rolls[..i] == rolls;
    }
    p := PlayResult(g.(square := square), events, won);
    PlayUnfold(g, rolls);
  }

  /**
   `play()` starts from square 0 whatever square the game was left on, so
   playing again with the same rolls gives the same notifications and the
   same final square.
   */
  lemma ReplayIsIdentical(g: Game, rolls: seq<int>)
    requires ValidBoard(g.board) && ValidRolls(rolls)
    ensures Play(Play(g, rolls).game, rolls) == Play(g, rolls)
  {
  }
}
