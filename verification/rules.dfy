/**
 * The rules of Lines of Action as pure functions of a position: how many
 * pieces lie on a line, when a move is legal, the list of legal moves in the
 * order the board produces it, the effect of making and retracting a move,
 * and who has won.
 */
module Rules {
  import opened Types
  import opened Regions

  /** The default number of moves, by both sides counted together, after
   *  which a game nobody has won is a draw. */
  const DEFAULT_MOVE_LIMIT: int := 60

  /** What the board holds apart from its caches: the cells, the side to
   *  move, the unretracted moves in order, and the move limit. */
  datatype Position = Position(cells: Cells, turn: Piece, moves: seq<Move>, limit: int)

  // ---------------------------------------------------------------------
  // Counting the pieces on a line

  /** How many free steps a coordinate x has in the unit direction delta. */
  function Room(x: int, delta: int): int
  {
    if delta == 1 then 7 - x else if delta == -1 then x else 7
  }

  /** The largest number of steps from sq in direction dir that stays on
   *  the board. */
  function Reach(sq: Square, dir: Dir): (n: int)
    ensures 0 <= n <= 7
  {
    var a := Room(Col(sq), DC[dir]);
    var b := Room(Row(sq), DR[dir]);
    if a < b then a else b
  }

  /** A step of k >= 0 squares stays on the board exactly up to Reach. */
  lemma ReachBound(sq: Square, dir: Dir, k: int)
    requires 0 <= k
    ensures MoveDest(sq, dir, k).Some? <==> k <= Reach(sq, dir)
  {
  }

  /** A line through a square has at most 7 other squares. */
  lemma ReachBothWays(sq: Square, dir: Dir)
    ensures Reach(sq, dir) + Reach(sq, OppositeDir(dir)) <= 7
  {
    var e := OppositeDir(dir);
    if DC[dir] != 0 {
      assert Room(Col(sq), DC[dir]) + Room(Col(sq), DC[e]) == 7;
    } else {
      assert Room(Row(sq), DR[dir]) + Room(Row(sq), DR[e]) == 7;
    }
  }

  /** The occupied squares at steps i..7 from sq in direction dir, counted
   *  until the line leaves the board. */
  function RayCount(cells: Cells, sq: Square, dir: Dir, i: int): nat
    requires 1 <= i <= 8
    decreases 8 - i
  {
    if i == 8 then 0
    else match MoveDest(sq, dir, i)
      case None => 0
      case Some(other) => (if cells[other] != EMP then 1 else 0) + RayCount(cells, sq, dir, i + 1)
  }

  /** The steps i..7 from sq in direction dir that land on an occupied
   *  square. */
  function OccupiedSteps(cells: Cells, sq: Square, dir: Dir, i: int): set<int>
  {
    set k | i <= k < 8 && MoveDest(sq, dir, k).Some? && cells[MoveDest(sq, dir, k).value] != EMP
  }

  /** The counting loop counts every occupied square on the ray, no more. */
  lemma {:induction false} RayCountIsOccupied(cells: Cells, sq: Square, dir: Dir, i: int)
    requires 1 <= i <= 8
    ensures RayCount(cells, sq, dir, i) == |OccupiedSteps(cells, sq, dir, i)|
    ensures RayCount(cells, sq, dir, i) <= if Reach(sq, dir) < i then 0 else Reach(sq, dir) - i + 1
    decreases 8 - i
  {
    var S := OccupiedSteps(cells, sq, dir, i);
    if i == 8 {
      assert S == {};
    } else if MoveDest(sq, dir, i).None? {
      ReachBound(sq, dir, i);
      forall k | i <= k < 8 ensures MoveDest(sq, dir, k).None? {
        ReachBound(sq, dir, k);
      }
      assert S == {};
    } else {
      ReachBound(sq, dir, i);
      RayCountIsOccupied(cells, sq, dir, i + 1);
      var T := OccupiedSteps(cells, sq, dir, i + 1);
      if cells[MoveDest(sq, dir, i).value] != EMP {
        assert S == T + {i};
      } else {
        assert S == T;
      }
    }
  }

  /** The pieces on the whole line through sq in direction dir: sq itself
   *  plus the occupied squares both ways. */
  function CountPieces(cells: Cells, sq: Square, dir: Dir): int
  {
    1 + RayCount(cells, sq, dir, 1) + RayCount(cells, sq, OppositeDir(dir), 1)
  }

  /** The pieces on the line through sq in direction dir, as a count of
   *  sets: sq itself, and the occupied squares both ways. */
  function LinePieces(cells: Cells, sq: Square, dir: Dir): int
  {
    1 + |OccupiedSteps(cells, sq, dir, 1)| + |OccupiedSteps(cells, sq, OppositeDir(dir), 1)|
  }

  /** The counting loops count the pieces on the line, which are between 1
   *  and 8. */
  lemma CountPiecesBounds(cells: Cells, sq: Square, dir: Dir)
    ensures CountPieces(cells, sq, dir) == LinePieces(cells, sq, dir)
    ensures 1 <= LinePieces(cells, sq, dir) <= 8
  {
    RayCountIsOccupied(cells, sq, dir, 1);
    RayCountIsOccupied(cells, sq, OppositeDir(dir), 1);
    ReachBothWays(sq, dir);
  }

  // ---------------------------------------------------------------------
  // Legality

  /** The squares of a queen move from `from` towards `to` stay on the
   *  board up to the target. */
  lemma PathOnBoard(from: Square, to: Square, k: int)
    requires IsValidMove(from, to) && 0 <= k <= Distance(from, to)
    ensures MoveDest(from, Direction(from, to), k).Some?
  {
    DestOfDirection(from, to);
    ReachBound(from, Direction(from, to), k);
    ReachBound(from, Direction(from, to), Distance(from, to));
  }

  /** The square k steps along the move from `from` to `to`. */
  function PathSquare(from: Square, to: Square, k: int): (s: Square)
    requires IsValidMove(from, to) && 0 <= k <= Distance(from, to)
    ensures MoveDest(from, Direction(from, to), k) == Some(s)
  {
    PathOnBoard(from, to, k);
    MoveDest(from, Direction(from, to), k).value
  }

  /** The path reaches the target after Distance steps. */
  lemma PathEndsAtTarget(from: Square, to: Square)
    requires IsValidMove(from, to)
    ensures PathSquare(from, to, Distance(from, to)) == to
  {
    DestOfDirection(from, to);
  }

  /** One more step along the path. */
  lemma PathNext(from: Square, to: Square, k: int)
    requires IsValidMove(from, to) && 0 <= k < Distance(from, to)
    ensures MoveDest(PathSquare(from, to, k), Direction(from, to), 1) == Some(PathSquare(from, to, k + 1))
  {
    StepFurther(from, Direction(from, to), k);
  }

  /** The path starts one step from `from`. */
  lemma PathStart(from: Square, to: Square)
    requires IsValidMove(from, to)
    ensures MoveDest(from, Direction(from, to), 1) == Some(PathSquare(from, to, 1))
  {
  }

  /** Short of the target, the path goes on one more step. */
  lemma PathAdvance(from: Square, to: Square, k: int)
    requires IsValidMove(from, to) && 1 <= k <= Distance(from, to) && PathSquare(from, to, k) != to
    ensures k < Distance(from, to)
    ensures MoveDest(PathSquare(from, to, k), Direction(from, to), 1) == Some(PathSquare(from, to, k + 1))
  {
    PathEndsAtTarget(from, to);
    PathNext(from, to, k);
  }

  /** The path does not reach the target earlier. */
  lemma PathBeforeTarget(from: Square, to: Square, k: int)
    requires IsValidMove(from, to) && 0 <= k <= Distance(from, to)
    requires PathSquare(from, to, k) == to
    ensures k == Distance(from, to)
  {
    DestOfDirection(from, to);
  }

  /** Some piece p stands strictly between `from` and `to`. */
  predicate Jumps(cells: Cells, from: Square, to: Square, p: Piece)
    requires IsValidMove(from, to)
  {
    exists k | 1 <= k < Distance(from, to) :: cells[PathSquare(from, to, k)] == p
  }

  /** The pieces on the path from `from` towards `to`, step by step:
   *  entry j is the square j steps along, so entry 0 is `from` itself and
   *  `to` is just past the end. */
  function PathPieces(cells: Cells, from: Square, to: Square): (s: seq<Piece>)
    requires IsValidMove(from, to)
    ensures |s| == Distance(from, to)
    ensures forall j | 0 <= j < |s| :: s[j] == cells[PathSquare(from, to, j)]
  {
    seq(Distance(from, to), j requires 0 <= j < Distance(from, to) => cells[PathSquare(from, to, j)])
  }

  /** Whether p occurs in s at index k or later, looking one entry at a
   *  time. */
  function FindFrom(s: seq<Piece>, p: Piece, k: nat): bool
    decreases |s| - k
  {
    k < |s| && (s[k] == p || FindFrom(s, p, k + 1))
  }

  lemma {:induction false} FindFromExists(s: seq<Piece>, p: Piece, k: nat)
    ensures FindFrom(s, p, k) <==> exists j | k <= j < |s| :: s[j] == p
    decreases |s| - k
  {
    if k < |s| {
      FindFromExists(s, p, k + 1);
      if s[k] != p && exists j | k <= j < |s| :: s[j] == p {
        var j :| k <= j < |s| && s[j] == p;
        assert k + 1 <= j;
      }
    }
  }

  /** A jump over p is found by walking the path from step 1. */
  lemma JumpsAlongPath(cells: Cells, from: Square, to: Square, p: Piece)
    requires IsValidMove(from, to)
    ensures Jumps(cells, from, to, p) == FindFrom(PathPieces(cells, from, to), p, 1)
  {
    FindFromExists(PathPieces(cells, from, to), p, 1);
  }

  /** Some piece p stands on one of the steps k .. Distance - 1 of the
   *  path from `from` to `to`. */
  function JumpsFrom(cells: Cells, from: Square, to: Square, p: Piece, k: int): bool
    requires IsValidMove(from, to) && 1 <= k <= Distance(from, to)
    decreases Distance(from, to) - k
  {
    k < Distance(from, to) && (cells[PathSquare(from, to, k)] == p || JumpsFrom(cells, from, to, p, k + 1))
  }

  /** The walk along the path agrees with the walk along its pieces. */
  lemma {:induction false} JumpsFromFind(cells: Cells, from: Square, to: Square, p: Piece, k: int)
    requires IsValidMove(from, to) && 1 <= k <= Distance(from, to)
    ensures JumpsFrom(cells, from, to, p, k) == FindFrom(PathPieces(cells, from, to), p, k)
    decreases Distance(from, to) - k
  {
    if k < Distance(from, to) {
      JumpsFromFind(cells, from, to, p, k + 1);
    }
  }

  /** Walking the path from step 1 finds p exactly when p is jumped. */
  lemma JumpsFromStart(cells: Cells, from: Square, to: Square, p: Piece)
    requires IsValidMove(from, to)
    ensures Distance(from, to) >= 1
    ensures JumpsFrom(cells, from, to, p, 1) == Jumps(cells, from, to, p)
  {
    DestOfDirection(from, to);
    JumpsFromFind(cells, from, to, p, 1);
    JumpsAlongPath(cells, from, to, p);
  }

  /** The move lands on a friend or jumps over an enemy of the side to
   *  move. */
  predicate Blocked(pos: Position, from: Square, to: Square)
    requires IsValidMove(from, to) && pos.turn != EMP
  {
    pos.cells[to] == pos.turn || Jumps(pos.cells, from, to, Opposite(pos.turn))
  }

  /** The Lines of Action rule: the side to move moves one of its pieces
   *  along a line, exactly as many squares as there are pieces on that
   *  line, without jumping an enemy and without landing on a friend. */
  predicate Legal(pos: Position, from: Square, to: Square)
    requires pos.turn != EMP
  {
    pos.cells[from] == pos.turn &&
    IsValidMove(from, to) &&
    pos.cells[to] != pos.turn &&
    !Jumps(pos.cells, from, to, Opposite(pos.turn)) &&
    LinePieces(pos.cells, from, Direction(from, to)) == Distance(from, to)
  }

  /** A legal move goes 1 to 7 squares, onto an empty or enemy square. */
  lemma LegalFacts(pos: Position, from: Square, to: Square)
    requires pos.turn != EMP && Legal(pos, from, to)
    ensures 1 <= Distance(from, to) <= 7
    ensures pos.cells[to] == EMP || pos.cells[to] == Opposite(pos.turn)
    ensures MoveDest(from, Direction(from, to), Distance(from, to)) == Some(to)
  {
    CountPiecesBounds(pos.cells, from, Direction(from, to));
    DestOfDirection(from, to);
  }

  // ---------------------------------------------------------------------
  // The list of legal moves

  /** One more step along a line is one step from the square reached. */
  lemma StepFurther(from: Square, dir: Dir, k: int)
    requires MoveDest(from, dir, k).Some?
    ensures MoveDest(MoveDest(from, dir, k).value, dir, 1) == MoveDest(from, dir, k + 1)
  {
    var a, b := MoveDest(MoveDest(from, dir, k).value, dir, 1), MoveDest(from, dir, k + 1);
    if a.Some? && b.Some? {
      SquareOfCoords(a.value, b.value);
    }
  }

  /** The legal moves from `from` in direction dir at steps 1 .. k-1, in
   *  increasing distance. */
  function RayMoves(pos: Position, from: Square, dir: Dir, k: int): seq<Move>
    requires pos.turn != EMP && 1 <= k <= 8
  {
    if k == 1 then [] else RayMoves(pos, from, dir, k - 1) + RayStep(pos, from, dir, k - 1)
  }

  /** The move at step k from `from` in direction dir, when it is on the
   *  board and legal. */
  function RayStep(pos: Position, from: Square, dir: Dir, k: int): seq<Move>
    requires pos.turn != EMP
  {
    match MoveDest(from, dir, k)
      case None => []
      case Some(to) => if Legal(pos, from, to) then [Mv(from, to)] else []
  }

  /** Extending a ray by one on-board step appends that step's move when it
   *  is legal. */
  lemma RayMovesNext(pos: Position, from: Square, dir: Dir, k: int, to: Square)
    requires pos.turn != EMP && 1 <= k < 8 && MoveDest(from, dir, k) == Some(to)
    ensures RayMoves(pos, from, dir, k + 1) == RayMoves(pos, from, dir, k) + (if Legal(pos, from, to) then [Mv(from, to)] else [])
  {
  }

  /** Extending the directions by one appends that direction's ray. */
  lemma DirMovesNext(pos: Position, from: Square, d: int)
    requires pos.turn != EMP && 0 <= d < 8
    ensures DirMoves(pos, from, d + 1) == DirMoves(pos, from, d) + RayMoves(pos, from, d, 8)
  {
  }

  /** Extending the squares by one appends that square's moves when it
   *  holds the side to move. */
  lemma SquareMovesNext(pos: Position, n: int)
    requires pos.turn != EMP && 0 <= n < 64
    ensures SquareMoves(pos, n + 1) == SquareMoves(pos, n) + (if pos.cells[n] == pos.turn then DirMoves(pos, n, 8) else [])
  {
  }

  /** The legal moves from `from` in directions 0 .. d-1. */
  function DirMoves(pos: Position, from: Square, d: int): seq<Move>
    requires pos.turn != EMP && 0 <= d <= 8
  {
    if d == 0 then [] else DirMoves(pos, from, d - 1) + RayMoves(pos, from, d - 1, 8)
  }

  /** The legal moves from squares 0 .. n-1; squares not holding the side to
   *  move are skipped. */
  function SquareMoves(pos: Position, n: int): seq<Move>
    requires pos.turn != EMP && 0 <= n <= 64
  {
    if n == 0 then []
    else SquareMoves(pos, n - 1) + (if pos.cells[n - 1] == pos.turn then DirMoves(pos, n - 1, 8) else [])
  }

  /** All legal moves of the position, in the order the board lists them. */
  function LegalMoves(pos: Position): seq<Move>
    requires pos.turn != EMP
  {
    SquareMoves(pos, 64)
  }

  /** Once a line has left the board it yields no more moves. */
  lemma RayMovesOffBoard(pos: Position, from: Square, dir: Dir, k: int, j: int)
    requires pos.turn != EMP && 1 <= k <= j <= 8 && MoveDest(from, dir, k).None?
    ensures RayMoves(pos, from, dir, j) == RayMoves(pos, from, dir, k)
  {
    var rays := seq(9, i requires 0 <= i < 9 => if i == 0 then [] else RayMoves(pos, from, dir, i));
    forall i | k < i <= j
      ensures rays[i] == rays[i - 1]
    {
      OffBoardFurther(from, dir, k, i - 1);
      RayMovesEmptyStep(pos, from, dir, i);
    }
    SameAlong(rays, k, j);
  }

  /** Entries that each equal the one before are all equal. */
  lemma {:induction false} SameAlong(s: seq<seq<Move>>, k: int, j: int)
    requires 0 <= k <= j < |s| && forall i | k < i <= j :: s[i] == s[i - 1]
    ensures s[j] == s[k]
    decreases j - k
  {
    if j > k {
      SameAlong(s, k, j - 1);
    }
  }

  /** A line that has left the board stays off it. */
  lemma OffBoardFurther(from: Square, dir: Dir, k: int, i: int)
    requires 0 <= k <= i && MoveDest(from, dir, k).None?
    ensures MoveDest(from, dir, i).None?
  {
    ReachBound(from, dir, k);
    ReachBound(from, dir, i);
  }

  /** A step off the board leaves the ray as it was. */
  lemma RayMovesEmptyStep(pos: Position, from: Square, dir: Dir, j: int)
    requires pos.turn != EMP && 1 < j <= 8 && MoveDest(from, dir, j - 1).None?
    ensures RayMoves(pos, from, dir, j) == RayMoves(pos, from, dir, j - 1)
  {
    var prefix := RayMoves(pos, from, dir, j - 1);
    assert RayStep(pos, from, dir, j - 1) == [];
    assert RayMoves(pos, from, dir, j) == prefix + [];
  }

  /** Move a is listed before move b: by origin square, then direction,
   *  then distance. */
  predicate Before(a: Move, b: Move)
  {
    a.from < b.from ||
    (a.from == b.from &&
     (Direction(a.from, a.to) < Direction(b.from, b.to) ||
      (Direction(a.from, a.to) == Direction(b.from, b.to) && Distance(a.from, a.to) < Distance(b.from, b.to))))
  }

  predicate InScanOrder(L: seq<Move>)
  {
    forall i, j | 0 <= i < j < |L| :: Before(L[i], L[j])
  }

  lemma OrderedConcat(A: seq<Move>, B: seq<Move>)
    requires InScanOrder(A) && InScanOrder(B)
    requires forall a, b | a in A && b in B :: Before(a, b)
    ensures InScanOrder(A + B)
  {
    forall i, j | 0 <= i < j < |A + B| ensures Before((A + B)[i], (A + B)[j]) {
      if j < |A| {
      } else if i >= |A| {
        assert (A + B)[i] == B[i - |A|] && (A + B)[j] == B[j - |A|];
      } else {
        assert (A + B)[i] in A && (A + B)[j] in B;
      }
    }
  }

  /** What the moves along one line are, and that they come in order. */
  lemma RayMovesFacts(pos: Position, from: Square, dir: Dir, k: int)
    requires pos.turn != EMP && 1 <= k <= 8
    ensures forall m: Move :: m in RayMoves(pos, from, dir, k) <==>
      m.from == from && !m.capture && Legal(pos, from, m.to) &&
      Direction(from, m.to) == dir && Distance(from, m.to) < k
    ensures InScanOrder(RayMoves(pos, from, dir, k))
  {
    RayMovesMembers(pos, from, dir, k);
    RayMovesOrdered(pos, from, dir, k);
  }

  /** The moves along one line are the legal ones closer than k. */
  lemma {:induction false} RayMovesMembers(pos: Position, from: Square, dir: Dir, k: int)
    requires pos.turn != EMP && 1 <= k <= 8
    ensures forall m: Move :: m in RayMoves(pos, from, dir, k) <==>
      m.from == from && !m.capture && Legal(pos, from, m.to) &&
      Direction(from, m.to) == dir && Distance(from, m.to) < k
  {
    if k > 1 {
      RayMovesMembers(pos, from, dir, k - 1);
      RayStepFacts(pos, from, dir, k - 1);
      var A := RayMoves(pos, from, dir, k - 1);
      var B := RayStep(pos, from, dir, k - 1);
      assert RayMoves(pos, from, dir, k) == A + B;
      forall m: Move ensures m in A + B <==>
        m.from == from && !m.capture && Legal(pos, from, m.to) &&
        Direction(from, m.to) == dir && Distance(from, m.to) < k
      {
        assert m in A + B <==> m in A || m in B;
      }
    }
  }

  /** The moves along one line come nearest first. */
  lemma {:induction false} RayMovesOrdered(pos: Position, from: Square, dir: Dir, k: int)
    requires pos.turn != EMP && 1 <= k <= 8
    ensures InScanOrder(RayMoves(pos, from, dir, k))
  {
    if k > 1 {
      RayMovesOrdered(pos, from, dir, k - 1);
      RayMovesMembers(pos, from, dir, k - 1);
      RayStepFacts(pos, from, dir, k - 1);
      var A := RayMoves(pos, from, dir, k - 1);
      var B := RayStep(pos, from, dir, k - 1);
      assert RayMoves(pos, from, dir, k) == A + B;
      OrderedConcat(A, B);
    }
  }

  /** The move at one step is the legal move at exactly that distance. */
  lemma RayStepFacts(pos: Position, from: Square, dir: Dir, k: int)
    requires pos.turn != EMP && 1 <= k
    ensures |RayStep(pos, from, dir, k)| <= 1
    ensures forall m: Move :: m in RayStep(pos, from, dir, k) <==>
      m.from == from && !m.capture && Legal(pos, from, m.to) &&
      Direction(from, m.to) == dir && Distance(from, m.to) == k
  {
    if MoveDest(from, dir, k).Some? {
      DirectionOfDest(from, dir, k);
    }
    forall m: Move | m.from == from && !m.capture && Legal(pos, from, m.to) &&
      Direction(from, m.to) == dir && Distance(from, m.to) == k
      ensures m in RayStep(pos, from, dir, k)
    {
      DestOfDirection(from, m.to);
    }
  }

  /** What the moves from one square are, and that they come in order. */
  lemma {:induction false} DirMovesFacts(pos: Position, from: Square, d: int)
    requires pos.turn != EMP && 0 <= d <= 8
    ensures forall m: Move :: m in DirMoves(pos, from, d) <==>
      m.from == from && !m.capture && Legal(pos, from, m.to) && Direction(from, m.to) < d
    ensures InScanOrder(DirMoves(pos, from, d))
  {
    if d > 0 {
      DirMovesFacts(pos, from, d - 1);
      RayMovesFacts(pos, from, d - 1, 8);
      forall m: Move | m.from == from && !m.capture && Legal(pos, from, m.to) && Direction(from, m.to) == d - 1
        ensures Distance(from, m.to) < 8
      {
        CountPiecesBounds(pos.cells, from, d - 1);
        DestOfDirection(from, m.to);
        ReachBound(from, d - 1, Distance(from, m.to));
      }
      OrderedConcat(DirMoves(pos, from, d - 1), RayMoves(pos, from, d - 1, 8));
    }
  }

  /** What the moves from squares below n are, and that they come in
   *  order. */
  lemma {:induction false} SquareMovesFacts(pos: Position, n: int)
    requires pos.turn != EMP && 0 <= n <= 64
    ensures forall m: Move :: m in SquareMoves(pos, n) <==> !m.capture && Legal(pos, m.from, m.to) && m.from < n
    ensures InScanOrder(SquareMoves(pos, n))
  {
    if n > 0 {
      SquareMovesFacts(pos, n - 1);
      var A := SquareMoves(pos, n - 1);
      var B := if pos.cells[n - 1] == pos.turn then DirMoves(pos, n - 1, 8) else [];
      assert SquareMoves(pos, n) == A + B;
      SquareBlockFacts(pos, n - 1);
      forall m: Move ensures m in A + B <==> !m.capture && Legal(pos, m.from, m.to) && m.from < n {
        assert m in A + B <==> m in A || m in B;
      }
      OrderedConcat(A, B);
    }
  }

  /** The moves the scan adds for one square: those of its piece when the
   *  side to move has one there, else none. */
  lemma SquareBlockFacts(pos: Position, from: Square)
    requires pos.turn != EMP
    ensures var B := if pos.cells[from] == pos.turn then DirMoves(pos, from, 8) else [];
      (forall m: Move :: m in B <==> !m.capture && Legal(pos, m.from, m.to) && m.from == from) &&
      InScanOrder(B)
  {
    DirMovesFacts(pos, from, 8);
  }

  /** The list holds exactly the legal non-capture moves (a move's capture
   *  flag is set only when it is made). */
  lemma LegalMovesExact(pos: Position, m: Move)
    requires pos.turn != EMP
    ensures m in LegalMoves(pos) <==> !m.capture && Legal(pos, m.from, m.to)
  {
    SquareMovesFacts(pos, 64);
  }

  /** The list is in scan order, so it has no duplicates. */
  lemma LegalMovesOrdered(pos: Position)
    requires pos.turn != EMP
    ensures InScanOrder(LegalMoves(pos))
    ensures forall i, j | 0 <= i < j < |LegalMoves(pos)| :: LegalMoves(pos)[i] != LegalMoves(pos)[j]
  {
    SquareMovesFacts(pos, 64);
  }

  // ---------------------------------------------------------------------
  // Making and retracting moves

  /** Whether moving to `to` takes an enemy piece. */
  predicate Captures(pos: Position, m: Move)
    requires pos.turn != EMP
  {
    pos.cells[m.to] == Opposite(pos.turn)
  }

  /** The position after making move m: the piece moves from `from` to
   *  `to`, the turn passes, and the move is recorded, flagged as a capture
   *  when an enemy stood on `to`. */
  function Apply(pos: Position, m: Move): Position
    requires pos.turn != EMP
  {
    var stored := if Captures(pos, m) then m.CaptureMove() else m;
    Position(pos.cells[m.to := pos.cells[m.from]][m.from := EMP], Opposite(pos.turn),
             pos.moves + [stored], pos.limit)
  }

  /** What retracting needs: a move to take back, and a piece on its target
   *  when it was a capture (the captured piece is the opposite of it). */
  predicate CanUnmake(pos: Position)
  {
    pos.turn != EMP && |pos.moves| > 0 &&
    (pos.moves[|pos.moves| - 1].capture ==> pos.cells[pos.moves[|pos.moves| - 1].to] != EMP)
  }

  /** The position after retracting the last move: the piece goes back, the
   *  target gets the captured enemy or becomes empty, and the turn passes
   *  back. */
  function Unmake(pos: Position): Position
    requires CanUnmake(pos)
  {
    var lm := pos.moves[|pos.moves| - 1];
    var cells1 := pos.cells[lm.from := pos.cells[lm.to]];
    var cells2 := if lm.capture then cells1[lm.to := Opposite(cells1[lm.from])] else cells1[lm.to := EMP];
    Position(cells2, Opposite(pos.turn), pos.moves[..|pos.moves| - 1], pos.limit)
  }

  /** Making a legal move changes just its two squares, passes the turn and
   *  records one more move. */
  lemma ApplyEffect(pos: Position, m: Move)
    requires pos.turn != EMP && !m.capture && Legal(pos, m.from, m.to)
    ensures var after := Apply(pos, m);
      after.cells[m.to] == pos.turn && after.cells[m.from] == EMP &&
      (forall s | 0 <= s < 64 && s != m.from && s != m.to :: after.cells[s] == pos.cells[s]) &&
      after.turn == Opposite(pos.turn) && after.turn != pos.turn &&
      |after.moves| == |pos.moves| + 1 && after.moves[..|pos.moves|] == pos.moves &&
      after.moves[|pos.moves|] == Move(m.from, m.to, pos.cells[m.to] != EMP) &&
      after.limit == pos.limit
  {
    LegalFacts(pos, m.from, m.to);
  }

  /** Retracting right after a legal move restores the position exactly,
   *  including a captured piece. */
  lemma RoundTrip(pos: Position, m: Move)
    requires pos.turn != EMP && !m.capture && Legal(pos, m.from, m.to)
    ensures CanUnmake(Apply(pos, m)) && Unmake(Apply(pos, m)) == pos
  {
    LegalFacts(pos, m.from, m.to);
    var after := Apply(pos, m);
    assert after.moves[..|pos.moves|] == pos.moves;
    assert Unmake(after).cells == pos.cells;
  }

  // ---------------------------------------------------------------------
  // The outcome

  /** The list the board returns for a side: white's for WP, black's for
   *  anything else. */
  function ListFor(white: seq<int>, black: seq<int>, side: Piece): seq<int>
  {
    if side == WP then white else black
  }

  /** The winner computed from the region lists: the side that just moved
   *  wins if its pieces are one region, else the side to move does, else
   *  the game is a tie (EMP) when the move limit is reached, else it goes
   *  on (None). */
  function ListsOutcome(white: seq<int>, black: seq<int>, turn: Piece, made: int, limit: int): Option<Piece>
    requires turn != EMP
  {
    if |ListFor(white, black, Opposite(turn))| == 1 then Some(Opposite(turn))
    else if |ListFor(white, black, turn)| == 1 then Some(turn)
    else if made == limit then Some(EMP)
    else None
  }

  /** The winner of a position, with the region lists recomputed. */
  function Outcome(pos: Position): Option<Piece>
    requires pos.turn != EMP
  {
    ListsOutcome(RegionSizes(pos.cells, WP), RegionSizes(pos.cells, BP), pos.turn, |pos.moves|, pos.limit)
  }

  /** The outcome in the terms of the game: contiguity of the side that
   *  moved last is checked first. */
  lemma OutcomeMeaning(pos: Position)
    requires pos.turn != EMP
    ensures Outcome(pos) ==
      if Contiguous(pos.cells, Opposite(pos.turn)) then Some(Opposite(pos.turn))
      else if Contiguous(pos.cells, pos.turn) then Some(pos.turn)
      else if |pos.moves| == pos.limit then Some(EMP)
      else None
  {
    OneRegionIffContiguous(pos.cells, WP);
    OneRegionIffContiguous(pos.cells, BP);
  }

  // ---------------------------------------------------------------------
  // The standard initial layout

  /** The piece at column c, row r of the standard layout: black on the
   *  inner squares of the bottom and top rows, white on the inner squares
   *  of the left and right columns. */
  function InitialAt(c: int, r: int): Piece
  {
    if (r == 0 || r == 7) && 1 <= c <= 6 then BP
    else if (c == 0 || c == 7) && 1 <= r <= 6 then WP
    else EMP
  }

  /** The standard layout as rows, bottom row first. */
  function InitialRows(): (rows: seq<seq<Piece>>)
    ensures |rows| == 8 && forall r | 0 <= r < 8 :: |rows[r]| == 8
    ensures forall r, c | 0 <= r < 8 && 0 <= c < 8 :: rows[r][c] == InitialAt(c, r)
  {
    seq(8, r => seq(8, c => InitialAt(c, r)))
  }

  function InitialCells(): Cells
  {
    seq(64, i => InitialAt(i % 8, i / 8))
  }

  /** The white pieces on the left edge: no white piece touches them from
   *  outside. */
  lemma WhiteEdgeClosed(S: set<int>)
    requires S == set i | 0 <= i < 64 && i % 8 == 0 && 1 <= i / 8 <= 6
    ensures S <= PieceSet(InitialCells(), WP) && Closed(InitialCells(), WP, S)
  {
    var cells := InitialCells();
    forall x, y | x in S && Adjacent(x, y) && cells[y] == WP ensures y in S {
      assert Col(y) <= 1;
      assert InitialAt(y % 8, y / 8) == WP;
    }
  }

  /** The black pieces on the bottom edge: no black piece touches them from
   *  outside. */
  lemma BlackEdgeClosed(S: set<int>)
    requires S == set i | 0 <= i < 64 && i / 8 == 0 && 1 <= i % 8 <= 6
    ensures S <= PieceSet(InitialCells(), BP) && Closed(InitialCells(), BP, S)
  {
    var cells := InitialCells();
    forall x, y | x in S && Adjacent(x, y) && cells[y] == BP ensures y in S {
      assert Row(y) <= 1;
      assert InitialAt(y % 8, y / 8) == BP;
    }
  }

  /** In the standard layout neither side is one region: the pieces on one
   *  edge are a proper closed part. */
  lemma InitialNotContiguous(p: Piece)
    requires p != EMP
    ensures !Contiguous(InitialCells(), p)
  {
    var cells := InitialCells();
    if p == WP {
      var S := set i | 0 <= i < 64 && i % 8 == 0 && 1 <= i / 8 <= 6;
      WhiteEdgeClosed(S);
      assert 8 in S && 15 !in S && cells[15] == WP;
      assert 15 in PieceSet(cells, p);
    } else {
      var S := set i | 0 <= i < 64 && i / 8 == 0 && 1 <= i % 8 <= 6;
      BlackEdgeClosed(S);
      assert 1 in S && 57 !in S && cells[57] == BP;
      assert 57 in PieceSet(cells, p);
    }
  }
}
