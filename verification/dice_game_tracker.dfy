/**
 `DiceGameTracker`, the delegate that counts the turns of a game. Its printing
 is not modelled; what remains is the turn counter it keeps.
 */
module DiceGameTracker {

  import opened SnakesAndLadders

  datatype Tracker = Tracker(numberOfTurns: int)

  /** The tracker's reaction to one delegate call. */
  function Notify(t: Tracker, e: Event): (u: Tracker)
    ensures e == GameDidStart ==> u.numberOfTurns == 0
    ensures e.DidStartNewTurn? ==> u.numberOfTurns == t.numberOfTurns + 1
    ensures e == GameDidEnd ==> u == t
  {
    match e
    case GameDidStart => Tracker(0)
    case DidStartNewTurn(_) => Tracker(t.numberOfTurns + 1)
    case GameDidEnd => t
  }

  /** The tracker after it has received a sequence of delegate calls, first to last. */
  function Observe(t: Tracker, events: seq<Event>): Tracker
    decreases |events|
  {
    if |events| == 0 then t else Observe(Notify(t, events[0]), events[1..])
  }

  /** Without a new start, every turn notification adds one to the count. */
  lemma {:induction false} ObserveCountsTurns(t: Tracker, events: seq<Event>)
    requires forall k :: 0 <= k < |events| ==> events[k] != GameDidStart
    ensures Observe(t, events).numberOfTurns == t.numberOfTurns + |TurnRolls(events)|
    decreases |events|
  {
    if |events| > 0 {
      ObserveCountsTurns(Notify(t, events[0]), events[1..]);
    }
  }

  /**
   However many turns a tracker counted before, after a game it holds the
   number of rolls that game took, because the start notification resets it.
   */
  lemma {:induction false} TrackerCountsRollsOfGame(t: Tracker, g: Game, rolls: seq<int>)
    requires ValidBoard(g.board) && ValidRolls(rolls)
    ensures var p := Play(g, rolls);
      Observe(t, p.events).numberOfTurns == |TurnRolls(p.events)|
    ensures !Play(g, rolls).finished ==> Observe(t, Play(g, rolls).events).numberOfTurns == |rolls|
  {
    var p := Play(g, rolls);
    var rest := p.events[1..];
    assert p.events == [p.events[0]] + rest;
    ObserveCountsTurns(Tracker(0), rest);
    TurnRollsAppend([GameDidStart], rest);
  }
}
