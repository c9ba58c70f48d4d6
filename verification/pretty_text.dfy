/**
 The `PrettyTextRepresentable` conformance of Snakes and Ladders: the one-line
 `textualDescription`, and a picture of the board with one marker per square
 from 1 to the final square.
 */
module PrettyText {

  import opened Wrappers
  import opened SnakesAndLadders
  import Decimal

  /** The fixed text around the interpolated square count. */
  const Opening: string := "A game of Snakes and Ladders with "
  const Closing: string := " squares"

  /**
   The game's `textualDescription`, with the final square interpolated in
   decimal: the opening text, a numeral that reads back as `FinalSquare`, and
   the closing text.
   */
  function TextualDescription(): (d: string)
    ensures |Opening| + |Closing| < |d|
    ensures d[..|Opening|] == Opening && d[|d| - |Closing|..] == Closing
    ensures forall i :: |Opening| <= i < |d| - |Closing| ==> Decimal.IsDigit(d[i])
    ensures d[|Opening|] != '0' || |d| == |Opening| + 1 + |Closing|
    ensures Decimal.DecimalValue(d[|Opening|..|d| - |Closing|]) == FinalSquare
  {
    var numeral := Decimal.NatToDecimal(FinalSquare);
    Decimal.DecimalRoundTrip(FinalSquare);
    var d := Opening + numeral + Closing;
    assert d[|Opening|..|d| - |Closing|] == numeral;
    d
  }

  /** The description names the board's 25 squares. */
  lemma TextualDescriptionText()
    ensures TextualDescription() == "A game of Snakes and Ladders with 25 squares"
  {
  }

  /** The line `prettyTextRepresentable` starts with, before the markers. */
  function Header(): string {
    TextualDescription() + ":\n"
  }

  /** What a square holds, as the picture shows it. */
  datatype SquareKind = Ladder | Snake | Plain

  function Kind(jump: int): SquareKind {
    if jump > 0 then Ladder else if jump < 0 then Snake else Plain
  }

  function Kinds(jumps: seq<int>): (ks: seq<SquareKind>)
    ensures |ks| == |jumps|
    ensures forall i :: 0 <= i < |jumps| ==> ks[i] == Kind(jumps[i])
  {
    seq(|jumps|, i requires 0 <= i < |jumps| => Kind(jumps[i]))
  }

  /** The marker for one board entry: a ladder, a snake, or a plain square (which has no trailing space). */
  function Marker(jump: int): string {
    match Kind(jump)
    case Ladder => "▲ "
    case Snake => "▼ "
    case Plain => "○"
  }

  /** The markers of a run of board entries, appended left to right. */
  function Markers(jumps: seq<int>): string
    decreases |jumps|
  {
    if |jumps| == 0 then "" else Markers(jumps[..|jumps| - 1]) + Marker(jumps[|jumps| - 1])
  }

  lemma {:induction false} MarkersCons(jump: int, jumps: seq<int>)
    ensures Markers([jump] + jumps) == Marker(jump) + Markers(jumps)
    decreases |jumps|
  {
    if |jumps| == 0 {
      assert [jump] + jumps == [jump];
      assert Markers([jump]) == Markers([]) + Marker(jump);
    } else {
      var front := jumps[..|jumps| - 1];
      var last := jumps[|jumps| - 1];
      assert ([jump] + jumps)[..|jumps|] == [jump] + front;
      MarkersCons(jump, front);
    }
  }

  /** Reads a picture back into square kinds; `None` if it is not a run of markers. */
  function ReadMarkers(s: string): Option<seq<SquareKind>>
    decreases |s|
  {
    if |s| == 0 then Some([])
    else if s[0] == '○' then Prepend(Plain, ReadMarkers(s[1..]))
    else if |s| >= 2 && s[0] == '▲' && s[1] == ' ' then Prepend(Ladder, ReadMarkers(s[2..]))
    else if |s| >= 2 && s[0] == '▼' && s[1] == ' ' then Prepend(Snake, ReadMarkers(s[2..]))
    else None
  }

  function Prepend(k: SquareKind, rest: Option<seq<SquareKind>>): Option<seq<SquareKind>> {
    match rest
    case None => None
    case Some(ks) => Some([k] + ks)
  }

  lemma KindsCons(jumps: seq<int>)
    requires |jumps| > 0
    ensures Kinds(jumps) == [Kind(jumps[0])] + Kinds(jumps[1..])
  {
  }

  /** Reading one marker off the front of a picture. */
  lemma ReadOneMarker(jump: int, rest: string)
    ensures ReadMarkers(Marker(jump) + rest) == Prepend(Kind(jump), ReadMarkers(rest))
  {
  }

  /**
   The markers are a prefix-free code: reading a picture back gives exactly
   one square kind per board entry, in order.
   */
  lemma {:induction false} MarkersRoundTrip(jumps: seq<int>)
    ensures ReadMarkers(Markers(jumps)) == Some(Kinds(jumps))
    decreases |jumps|
  {
    if |jumps| > 0 {
      var rest := jumps[1..];
      assert jumps == [jumps[0]] + rest;
      MarkersCons(jumps[0], rest);
      ReadOneMarker(jumps[0], Markers(rest));
      MarkersRoundTrip(rest);
      KindsCons(jumps);
    }
  }

  lemma MarkersSnoc(board: seq<int>, index: int)
    requires 1 <= index < |board|
    ensures Markers(board[1..index + 1]) == Markers(board[1..index]) + Marker(board[index])
  {
    assert board[1..index + 1][..index - 1] == board[1..index];
  }

  /** A header followed by the markers of a board reads back as the board's square kinds. */
  lemma PictureReadsBack(header: string, board: seq<int>)
    requires |board| >= 1
    ensures var out := header + Markers(board[1..]);
      out[..|header|] == header && ReadMarkers(out[|header|..]) == Some(Kinds(board[1..]))
  {
    var out := header + Markers(board[1..]);
    assert out[|header|..] == Markers(board[1..]);
    MarkersRoundTrip(board[1..]);
  }

  /**
   The loop of `prettyTextRepresentable`: after `header`, for each index from
   1 to the final square, the marker of that board entry.
   */
  method DrawSquares(header: string, board: seq<int>) returns (output: string)
    requires |board| == FinalSquare + 1
    ensures |header| <= |output| && output[..|header|] == header
    ensures ReadMarkers(output[|header|..]) == Some(Kinds(board[1..]))
  {
    output := header;
    for index := 1 to FinalSquare + 1
      invariant output == header + Markers(board[1..index])
    {
      MarkersSnoc(board, index);
      output := output + Marker(board[index]);
    }
    assert board[1..FinalSquare + 1] == board[1..];
    PictureReadsBack(header, board);
  }

  /**
   `prettyTextRepresentable`: the description and ":\n", then one marker per
   square from 1 to the final square.
   */
  method PrettyTextRepresentable(board: seq<int>) returns (output: string)
    requires |board| == FinalSquare + 1
    ensures |Header()| <= |output| && output[..|Header()|] == Header()
    ensures ReadMarkers(output[|Header()|..]) == Some(Kinds(board[1..]))
    ensures |Kinds(board[1..])| == FinalSquare
  {
    output := DrawSquares(Header(), board);
  }

  /** The picture of the initialiser's board. */
  lemma InitialBoardPicture()
    ensures Kinds(InitialBoard()[1..]) == [
      Plain, Plain, Ladder, Plain, Plain, Ladder, Plain, Plain, Ladder, Ladder,
      Plain, Plain, Plain, Snake, Plain, Plain, Plain, Plain, Snake, Plain,
      Plain, Snake, Plain, Snake, Plain]
  {
  }
}
