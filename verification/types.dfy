/**
 * The value types the board works with: pieces, squares of the 8x8 board,
 * the eight line directions, and moves.
 */
module Types {

  datatype Option<T> = None | Some(value: T)

  /** The contents of one cell: a white piece, a black piece, or nothing. */
  datatype Piece = WP | BP | EMP

  /** The other side.  Only the two real pieces have an opposite. */
  function Opposite(p: Piece): (q: Piece)
    requires p != EMP
    ensures q != EMP && q != p
  {
    if p == WP then BP else WP
  }

  const BOARD_SIZE: int := 8

  /** A square is identified by its index, row * 8 + column. */
  type Square = s: int | 0 <= s < 64

  function Col(s: Square): int { s % 8 }

  function Row(s: Square): int { s / 8 }

  predicate OnBoard(c: int, r: int) { 0 <= c < 8 && 0 <= r < 8 }

  /** The square at column c and row r. */
  function Sq(c: int, r: int): (s: Square)
    requires OnBoard(c, r)
    ensures Col(s) == c && Row(s) == r
  {
    r * 8 + c
  }

  /** A square is determined by its column and row. */
  lemma SquareOfCoords(s: Square, t: Square)
    requires Col(s) == Col(t) && Row(s) == Row(t)
    ensures s == t
  {
  }

  /** Direction indices 0..7 stand for N, NE, E, SE, S, SW, W, NW. */
  type Dir = d: int | 0 <= d < 8

  const DC: seq<int> := [0, 1, 1, 1, 0, -1, -1, -1]
  const DR: seq<int> := [1, 1, 0, -1, -1, -1, 0, 1]

  /** The direction pointing the other way. */
  function OppositeDir(d: Dir): (e: Dir)
    ensures DC[e] == -DC[d] && DR[e] == -DR[d]
  {
    (d + 4) % 8
  }

  /** delta * steps, for a unit step delta in {-1, 0, 1}. */
  function Offset(delta: int, steps: int): int
  {
    if delta == 1 then steps else if delta == -1 then -steps else 0
  }

  /** The square steps squares away from s in direction dir, or None when
   *  that is off the board. */
  function MoveDest(s: Square, dir: Dir, steps: int): (r: Option<Square>)
    ensures r.Some? <==> OnBoard(Col(s) + Offset(DC[dir], steps), Row(s) + Offset(DR[dir], steps))
    ensures r.Some? ==>
      Col(r.value) == Col(s) + Offset(DC[dir], steps) && Row(r.value) == Row(s) + Offset(DR[dir], steps)
  {
    var c := Col(s) + Offset(DC[dir], steps);
    var r := Row(s) + Offset(DR[dir], steps);
    if OnBoard(c, r) then Some(Sq(c, r)) else None
  }

  function Abs(x: int): nat { if x < 0 then -x else x }

  function Sign(x: int): int { if x > 0 then 1 else if x < 0 then -1 else 0 }

  /** True iff a queen move leads from one square to the other: the two are
   *  distinct and share a row, a column or a diagonal. */
  predicate IsValidMove(from: Square, to: Square)
  {
    from != to &&
    (Row(from) == Row(to) || Col(from) == Col(to) ||
     Row(from) + Col(from) == Row(to) + Col(to) ||
     Row(from) - Col(from) == Row(to) - Col(to))
  }

  /** The number of king steps between two squares. */
  function Distance(from: Square, to: Square): nat
  {
    var dc := Abs(Col(to) - Col(from));
    var dr := Abs(Row(to) - Row(from));
    if dc > dr then dc else dr
  }

  /** The index of the direction whose unit step has the given signs. */
  function DirOfSigns(dc: int, dr: int): Dir
  {
    if dc == 0 && dr == 1 then 0
    else if dc == 1 && dr == 1 then 1
    else if dc == 1 && dr == 0 then 2
    else if dc == 1 && dr == -1 then 3
    else if dc == 0 && dr == -1 then 4
    else if dc == -1 && dr == -1 then 5
    else if dc == -1 && dr == 0 then 6
    else 7
  }

  /** The direction of the line from one square to another. */
  function Direction(from: Square, to: Square): Dir
  {
    DirOfSigns(Sign(Col(to) - Col(from)), Sign(Row(to) - Row(from)))
  }

  /** A queen move arrives at its target by going Distance squares in its
   *  Direction. */
  lemma DestOfDirection(from: Square, to: Square)
    requires IsValidMove(from, to)
    ensures Distance(from, to) >= 1
    ensures MoveDest(from, Direction(from, to), Distance(from, to)) == Some(to)
  {
    var dir, k := Direction(from, to), Distance(from, to);
    var dest := MoveDest(from, dir, k);
    assert dest.Some?;
    SquareOfCoords(dest.value, to);
  }

  /** Conversely, stepping k >= 1 squares in a direction is a queen move with
   *  that direction and distance. */
  lemma DirectionOfDest(from: Square, dir: Dir, k: int)
    requires k >= 1 && MoveDest(from, dir, k).Some?
    ensures var to := MoveDest(from, dir, k).value;
      IsValidMove(from, to) && Direction(from, to) == dir && Distance(from, to) == k
  {
  }

  /** Two squares are adjacent when they touch by an edge or a corner. */
  predicate Adjacent(x: int, y: int)
  {
    0 <= x < 64 && 0 <= y < 64 && x != y &&
    Abs(Col(x) - Col(y)) <= 1 && Abs(Row(x) - Row(y)) <= 1
  }

  /** Adjacent squares are one step apart in the direction between them. */
  lemma AdjacentDir(x: Square, y: Square)
    requires Adjacent(x, y)
    ensures MoveDest(x, Direction(x, y), 1) == Some(y)
  {
    DestOfDirection(x, y);
  }

  /** A move from one square to another, with the flag saying whether it
   *  took an opposing piece. */
  datatype Move = Move(from: Square, to: Square, capture: bool) {
    /** The capturing variant of this move. */
    function CaptureMove(): Move { Move(from, to, true) }
  }

  /** The non-capturing move from one square to another. */
  function Mv(from: Square, to: Square): Move { Move(from, to, false) }
}
