/**
 * The board of a game of Lines of Action: 64 cells, the side to move, the
 * stack of unretracted moves, the move limit, and two lazily computed
 * caches: the winner and the region sizes of each colour.
 *
 * Every query and update is proved against the pure definitions of Rules
 * and Regions.  The caches are modelled with their quirks: making a move
 * clears the region cache but keeps a known winner, `Set` clears neither,
 * and copying a board copies the winner flag but not the winner.  Coherent()
 * says that the caches agree with a fresh computation.
 */
module BoardState {
  import opened Types
  import opened Regions
  import opened Rules

  /** An 8 x 8 table of pieces given as rows, bottom row first. */
  predicate Rows8(contents: seq<seq<Piece>>)
  {
    |contents| == 8 && forall r | 0 <= r < 8 :: |contents[r]| == 8
  }

  /** Cells filled from rows of the standard layout are the standard cells. */
  lemma LayoutOfRows(cells: Cells, rows: seq<seq<Piece>>)
    requires Rows8(rows) && forall r, c | 0 <= r < 8 && 0 <= c < 8 :: rows[r][c] == InitialAt(c, r)
    requires forall c, r | 0 <= c < 8 && 0 <= r < 8 :: cells[Sq(c, r)] == rows[r][c]
    ensures cells == InitialCells()
  {
    forall s | 0 <= s < 64
      ensures cells[s] == InitialCells()[s]
    {
      SquareOfCoords(s, Sq(s % 8, s / 8));
      assert cells[Sq(s % 8, s / 8)] == rows[s / 8][s % 8];
    }
  }

  class Board {
    /** The 64 cells, indexed by square number. */
    const board: array<Piece>
    /** The moves made and not yet taken back, oldest first. */
    var moves: seq<Move>
    /** The side whose turn it is. */
    var turn: Piece
    /** The number of moves, by both sides together, at which an undecided
     *  game is a tie. */
    var moveLimit: int
    /** Whether Winner returns the stored winner instead of recomputing it. */
    var winnerKnown: bool
    /** The result last stored: Some(side) for a win, Some(EMP) for a tie,
     *  None for an open game; consulted only while winnerKnown. */
    var winner: Option<Piece>
    /** Whether the two region lists are used instead of recomputed. */
    var subsetsInitialized: bool
    /** The sizes of the white and of the black regions, largest first. */
    var whiteRegionSizes: seq<int>
    var blackRegionSizes: seq<int>

    ghost predicate Valid()
      reads this
    {
      board.Length == 64 && turn != EMP
    }

    /** The position the board holds. */
    function Pos(): Position
      reads this, board
      requires Valid()
    {
      Position(board[..], turn, moves, moveLimit)
    }

    /** The region lists a fresh computation gives. */
    ghost predicate RegionsFresh()
      reads this, board
      requires Valid()
    {
      whiteRegionSizes == RegionSizes(board[..], WP) && blackRegionSizes == RegionSizes(board[..], BP)
    }

    /** Both caches agree with a recomputation from the cells. */
    ghost predicate Coherent()
      reads this, board
      requires Valid()
    {
      (subsetsInitialized ==> RegionsFresh()) &&
      (winnerKnown ==> winner.Some? && winner == Outcome(Pos()))
    }

    /** The lists that getRegionSizes hands out now: the cached ones if the
     *  cache is marked up to date, else freshly computed ones. */
    ghost function CachedLists(): (seq<int>, seq<int>)
      reads this, board
      requires Valid()
    {
      if subsetsInitialized then (whiteRegionSizes, blackRegionSizes)
      else (RegionSizes(board[..], WP), RegionSizes(board[..], BP))
    }

    /** What winner() returns now. */
    ghost function WinnerNow(): Option<Piece>
      reads this, board
      requires Valid()
    {
      if winnerKnown then winner
      else ListsOutcome(CachedLists().0, CachedLists().1, turn, |moves|, moveLimit)
    }

    /** What the search needs of a board it is handed: no winner cached,
     *  and region lists that are either to be recomputed or, away from the
     *  leaves, decide the winner as a recomputation would. */
    ghost predicate Ready(depth: nat)
      reads this, board
    {
      Valid() && !winnerKnown &&
      (subsetsInitialized ==>
         depth != 0 && ListsOutcome(whiteRegionSizes, blackRegionSizes, turn, |moves|, moveLimit) == Outcome(Pos()))
    }

    /** A board laid out as the rows of contents, with side to play. */
    constructor (contents: seq<seq<Piece>>, side: Piece)
      requires Rows8(contents) && side != EMP
      ensures Valid() && Coherent() && fresh(board)
      ensures forall c, r | 0 <= c < 8 && 0 <= r < 8 :: board[Sq(c, r)] == contents[r][c]
      ensures turn == side && moves == [] && moveLimit == DEFAULT_MOVE_LIMIT
      ensures !winnerKnown && winner == None && subsetsInitialized && RegionsFresh()
    {
      board := new Piece[64](i => EMP);
      new;
      Initialize(contents, side);
    }

    /** A board in the standard initial position, black to move. */
    constructor Standard()
      ensures Valid() && Coherent() && fresh(board)
      ensures board[..] == InitialCells() && turn == BP && moves == [] && moveLimit == DEFAULT_MOVE_LIMIT
      ensures !winnerKnown && winner == None && subsetsInitialized && RegionsFresh()
    {
      board := new Piece[64](i => EMP);
      new;
      Initialize(InitialRows(), BP);
      LayoutOfRows(board[..], InitialRows());
    }

    /** A board whose contents and state are copied from b, after starting
     *  from the standard position: the winner is not copied, and the region
     *  cache stays the one of the standard position, where neither side has
     *  a single region.  (The lists are named through the layout c rather
     *  than computed, so that a proof using a copy does not evaluate them.) */
    constructor Copy(b: Board)
      requires b.Valid()
      ensures Valid() && fresh(board)
      ensures board[..] == b.board[..] && moves == b.moves && turn == b.turn && moveLimit == b.moveLimit
      ensures winnerKnown == b.winnerKnown && winner == None
      ensures subsetsInitialized
      ensures |whiteRegionSizes| != 1 && |blackRegionSizes| != 1
      ensures forall c: Cells {:trigger RegionSizes(c, WP)} :: c == InitialCells() ==> whiteRegionSizes == RegionSizes(c, WP)
      ensures forall c: Cells {:trigger RegionSizes(c, BP)} :: c == InitialCells() ==> blackRegionSizes == RegionSizes(c, BP)
    {
      board := new Piece[64](i => EMP);
      new;
      Initialize(InitialRows(), BP);
      LayoutOfRows(board[..], InitialRows());
      InitialNotContiguous(WP);
      InitialNotContiguous(BP);
      OneRegionIffContiguous(board[..], WP);
      OneRegionIffContiguous(board[..], BP);
      CopyFrom(b);
    }

    /** Reset to the layout of contents with side to play: no moves made,
     *  the default limit, and fresh caches. */
    method Initialize(contents: seq<seq<Piece>>, side: Piece)
      requires board.Length == 64 && Rows8(contents) && side != EMP
      modifies this, board
      ensures Valid() && Coherent()
      ensures forall c, r | 0 <= c < 8 && 0 <= r < 8 :: board[Sq(c, r)] == contents[r][c]
      ensures turn == side && moves == [] && moveLimit == DEFAULT_MOVE_LIMIT
      ensures !winnerKnown && winner == None && subsetsInitialized && RegionsFresh()
    {
      var i := 0;
      while i < |contents|
        invariant 0 <= i <= 8
        invariant forall c, r | 0 <= c < i && 0 <= r < 8 :: board[Sq(c, r)] == contents[r][c]
      {
        var j := 0;
        while j < |contents[i]|
          invariant 0 <= j <= 8
          invariant forall c, r | 0 <= c < i && 0 <= r < 8 :: board[Sq(c, r)] == contents[r][c]
          invariant forall r | 0 <= r < j :: board[Sq(i, r)] == contents[r][i]
        {
          board[Sq(i, j)] := contents[j][i];
          j := j + 1;
        }
        i := i + 1;
      }
      ghost var cells := board[..];
      turn := side;
      moveLimit := DEFAULT_MOVE_LIMIT;
      winnerKnown := false;
      winner := None;
      moves := [];
      subsetsInitialized := false;
      ComputeRegions();
      assert board[..] == cells;
    }

    /** Set the state to the standard initial position, black to move. */
    method Clear()
      requires board.Length == 64
      modifies this, board
      ensures Valid() && Coherent()
      ensures board[..] == InitialCells() && turn == BP && moves == [] && moveLimit == DEFAULT_MOVE_LIMIT
      ensures !winnerKnown && winner == None && subsetsInitialized && RegionsFresh()
    {
      Initialize(InitialRows(), BP);
      LayoutOfRows(board[..], InitialRows());
    }

    /** Set the state to a copy of b.  The winner itself and the region
     *  cache are not copied. */
    method CopyFrom(b: Board)
      requires Valid() && b.Valid() && (b != this ==> b.board != board)
      modifies this, board
      ensures Valid()
      ensures board[..] == old(b.board[..]) && moves == old(b.moves) && turn == old(b.turn)
      ensures moveLimit == old(b.moveLimit) && winnerKnown == old(b.winnerKnown)
      ensures winner == old(winner) && subsetsInitialized == old(subsetsInitialized)
      ensures whiteRegionSizes == old(whiteRegionSizes) && blackRegionSizes == old(blackRegionSizes)
    {
      if b == this {
        return;
      }
      forall i | 0 <= i < 64 {
        board[i] := b.board[i];
      }
      moves := b.moves;
      turn := b.turn;
      moveLimit := b.moveLimit;
      winnerKnown := b.winnerKnown;
    }

    /** The contents of square sq. */
    function Get(sq: Square): (p: Piece)
      reads this, board
      requires board.Length == 64
      ensures Valid() ==> p == Pos().cells[sq]
    {
      board[sq]
    }

    /** Set square sq to v, and the side to move to next when there is one.
     *  Neither cache is invalidated. */
    method Set(sq: Square, v: Piece, next: Option<Piece>)
      requires Valid() && next != Some(EMP)
      modifies this`turn, board
      ensures Valid() && board[..] == old(board[..])[sq := v]
      ensures turn == if next.Some? then next.value else old(turn)
      ensures winnerKnown == old(winnerKnown) && subsetsInitialized == old(subsetsInitialized)
    {
      board[sq] := v;
      if next.Some? {
        turn := next.value;
      }
    }

    /** Set square sq to v, keeping the side to move. */
    method SetKeepTurn(sq: Square, v: Piece)
      requires Valid()
      modifies this`turn, board
      ensures Valid() && board[..] == old(board[..])[sq := v] && turn == old(turn)
      ensures winnerKnown == old(winnerKnown) && subsetsInitialized == old(subsetsInitialized)
    {
      Set(sq, v, None);
    }

    /** Set the limit to 2 * limit moves; fails, changing nothing, unless
     *  2 * limit exceeds the moves made. */
    method SetMoveLimit(limit: int) returns (ok: bool)
      requires Valid()
      modifies this`moveLimit
      ensures ok <==> 2 * limit > |moves|
      ensures moveLimit == if ok then 2 * limit else old(moveLimit)
    {
      if 2 * limit <= |moves| {
        return false;
      }
      moveLimit := 2 * limit;
      ok := true;
    }

    /** The move limit, counted in moves of both sides. */
    function GetMoveLimit(): (limit: int)
      reads this, board
      ensures Valid() ==> limit == Pos().limit
    {
      moveLimit
    }

    /** The side to move, never EMP on a valid board. */
    function Turn(): (side: Piece)
      reads this, board
      ensures Valid() ==> side == Pos().turn && side != EMP
    {
      turn
    }

    /** The number of moves made and not retracted. */
    function MovesMade(): (n: nat)
      reads this, board
      ensures Valid() ==> n == |Pos().moves|
    {
      |moves|
    }

    /** Make the legal move m; the move recorded is flagged as a capture
     *  when an enemy stood on its target.  The region cache is cleared; a
     *  known winner stays known. */
    method MakeMove(m: Move)
      requires Valid() && Legal(Pos(), m.from, m.to)
      modifies this, board
      ensures Valid() && Pos() == Apply(old(Pos()), m)
      ensures !subsetsInitialized && winnerKnown == old(winnerKnown) && winner == old(winner)
      ensures whiteRegionSizes == old(whiteRegionSizes) && blackRegionSizes == old(blackRegionSizes)
    {
      var move := m;
      if board[m.to] == Opposite(turn) {
        move := m.CaptureMove();
      }
      Set(move.to, board[move.from], None);
      Set(move.from, EMP, Some(Opposite(turn)));
      moves := moves + [move];
      subsetsInitialized := false;
    }

    /** Retract the last move.  Both caches are cleared. */
    method Retract()
      requires Valid() && CanUnmake(Pos())
      modifies this, board
      ensures Valid() && Pos() == Unmake(old(Pos()))
      ensures !subsetsInitialized && !winnerKnown && winner == old(winner)
      ensures whiteRegionSizes == old(whiteRegionSizes) && blackRegionSizes == old(blackRegionSizes)
      ensures Coherent()
    {
      var lastMove := moves[|moves| - 1];
      moves := moves[..|moves| - 1];
      Set(lastMove.from, board[lastMove.to], None);
      if lastMove.capture {
        Set(lastMove.to, Opposite(board[lastMove.from]), Some(Opposite(turn)));
      } else {
        Set(lastMove.to, EMP, Some(Opposite(turn)));
      }
      subsetsInitialized := false;
      winnerKnown := false;
    }

    /** Whether from-to is a legal move for the side to move. */
    method IsLegal(from: Square, to: Square) returns (legal: bool)
      requires Valid()
      ensures legal == Legal(Pos(), from, to)
    {
      legal := false;
      if board[from] == turn && IsValidMove(from, to) {
        var blocked := Blocked(from, to);
        if !blocked {
          var dir := Direction(from, to);
          var numPieces := CountPieces(from, dir);
          legal := numPieces == Distance(from, to);
        }
      }
    }

    /** Whether move m is legal; its capture flag is ignored. */
    method IsLegalMove(m: Move) returns (legal: bool)
      requires Valid()
      ensures legal == Legal(Pos(), m.from, m.to)
    {
      legal := IsLegal(m.from, m.to);
    }

    /** The number of pieces on the line through sq in direction dir. */
    method CountPieces(sq: Square, dir: Dir) returns (numPieces: int)
      requires Valid()
      ensures numPieces == LinePieces(board[..], sq, dir) && 1 <= numPieces <= 8
    {
      var cells := board[..];
      var oppDir: Dir := (dir + 4) % 8;
      numPieces := 1;
      var i := 1;
      while i < 8
        invariant 1 <= i <= 8
        invariant numPieces - 1 + RayCount(cells, sq, dir, i) == RayCount(cells, sq, dir, 1)
      {
        var other := MoveDest(sq, dir, i);
        if other.None? {
          break;
        }
        if board[other.value] != EMP {
          numPieces := numPieces + 1;
        }
        i := i + 1;
      }
      ghost var first := numPieces;
      assert first == 1 + RayCount(cells, sq, dir, 1);
      i := 1;
      while i < 8
        invariant 1 <= i <= 8
        invariant numPieces - first + RayCount(cells, sq, oppDir, i) == RayCount(cells, sq, oppDir, 1)
      {
        var other := MoveDest(sq, oppDir, i);
        if other.None? {
          break;
        }
        if board[other.value] != EMP {
          numPieces := numPieces + 1;
        }
        i := i + 1;
      }
      CountPiecesBounds(cells, sq, dir);
    }

    /** Whether the move from-to lands on a friend or jumps an enemy. */
    method Blocked(from: Square, to: Square) returns (blocked: bool)
      requires Valid() && IsValidMove(from, to)
      ensures blocked == Rules.Blocked(Pos(), from, to)
    {
      if board[to] == turn {
        return true;
      }
      ghost var cells: Cells := board[..];
      ghost var enemy := Opposite(turn);
      JumpsFromStart(cells, from, to, enemy);
      var dir := Direction(from, to);
      var k := 1;
      PathStart(from, to);
      var next := MoveDest(from, dir, 1).value;
      while next != to
        invariant 1 <= k <= Distance(from, to)
        invariant next == PathSquare(from, to, k)
        invariant JumpsFrom(cells, from, to, enemy, k) == Jumps(cells, from, to, enemy)
        decreases Distance(from, to) - k
      {
        PathAdvance(from, to, k);
        if board[next] == Opposite(turn) {
          return true;
        }
        next := MoveDest(next, dir, 1).value;
        k := k + 1;
      }
      PathBeforeTarget(from, to, k);
      blocked := false;
    }

    /** All legal moves, scanning squares, then directions 0..7, then
     *  increasing distance.  Each of the three nested loops is a method of
     *  its own: this one over squares, SquareLegalMoves over directions and
     *  RayLegalMoves over distances. */
    method LegalMoves() returns (legalMoves: seq<Move>)
      requires Valid()
      ensures legalMoves == Rules.LegalMoves(Pos())
    {
      ghost var pos := Pos();
      legalMoves := [];
      var from := 0;
      while from < 64
        invariant 0 <= from <= 64 && legalMoves == SquareMoves(pos, from)
      {
        if board[from] == turn {
          var squareMoves := SquareLegalMoves(from);
          legalMoves := legalMoves + squareMoves;
        }
        SquareMovesNext(pos, from);
        from := from + 1;
      }
    }

    /** The legal moves from `from`, direction by direction: the middle loop
     *  of LegalMoves. */
    method SquareLegalMoves(from: Square) returns (squareMoves: seq<Move>)
      requires Valid()
      ensures squareMoves == DirMoves(Pos(), from, 8)
    {
      squareMoves := [];
      var dir := 0;
      while dir < 8
        invariant 0 <= dir <= 8 && squareMoves == DirMoves(Pos(), from, dir)
      {
        var rayMoves := RayLegalMoves(from, dir);
        DirMovesNext(Pos(), from, dir);
        squareMoves := squareMoves + rayMoves;
        dir := dir + 1;
      }
    }

    /** The legal moves from `from` along direction dir, nearest first: the
     *  innermost loop of LegalMoves. */
    method RayLegalMoves(from: Square, dir: Dir) returns (rayMoves: seq<Move>)
      requires Valid()
      ensures rayMoves == RayMoves(Pos(), from, dir, 8)
    {
      rayMoves := [];
      var k := 1;
      var to := MoveDest(from, dir, 1);
      while to.Some?
        invariant 1 <= k <= 8 && to == MoveDest(from, dir, k)
        invariant rayMoves == RayMoves(Pos(), from, dir, k)
        decreases 8 - k
      {
        ReachBound(from, dir, k);
        ReachBound(from, dir, 8);
        var move := Mv(from, to.value);
        var legal := IsLegalMove(move);
        RayMovesNext(Pos(), from, dir, k, to.value);
        if legal {
          rayMoves := rayMoves + [move];
        }
        StepFurther(from, dir, k);
        to := MoveDest(to.value, dir, 1);
        k := k + 1;
      }
      RayMovesOffBoard(Pos(), from, dir, k, 8);
    }

    /** Compute the region lists unless they are marked up to date. */
    method ComputeRegions()
      requires Valid()
      modifies this`subsetsInitialized, this`whiteRegionSizes, this`blackRegionSizes
      ensures subsetsInitialized && (whiteRegionSizes, blackRegionSizes) == old(CachedLists())
    {
      if subsetsInitialized {
        return;
      }
      var cells := board[..];
      whiteRegionSizes := [];
      blackRegionSizes := [];
      var visitedWhite := new bool[64](i => false);
      var visitedBlack := new bool[64](i => false);
      assert visitedWhite[..] == NoMarks() && visitedBlack[..] == NoMarks();
      var sq := 0;
      while sq < 64
        invariant 0 <= sq <= 64 && board[..] == cells
        invariant ScanTo(cells, sq) == Tally(whiteRegionSizes, blackRegionSizes, visitedWhite[..], visitedBlack[..])
      {
        ghost var t := ScanTo(cells, sq);
        if board[sq] == WP {
          ghost var black := visitedBlack[..];
          var contiguousWhite := NumContig(sq, visitedWhite, WP);
          assert visitedBlack[..] == black;
          if contiguousWhite > 0 {
            whiteRegionSizes := whiteRegionSizes + [contiguousWhite];
          }
          assert ScanTo(cells, sq + 1) == AddRegion(t, WP, (contiguousWhite, visitedWhite[..]));
        } else if board[sq] == BP {
          ghost var white := visitedWhite[..];
          var contiguousBlack := NumContig(sq, visitedBlack, BP);
          assert visitedWhite[..] == white;
          if contiguousBlack > 0 {
            blackRegionSizes := blackRegionSizes + [contiguousBlack];
          }
          assert ScanTo(cells, sq + 1) == AddRegion(t, BP, (contiguousBlack, visitedBlack[..]));
        } else {
          assert ScanTo(cells, sq + 1) == t;
        }
        sq := sq + 1;
      }
      whiteRegionSizes := SortDesc(whiteRegionSizes);
      blackRegionSizes := SortDesc(blackRegionSizes);
      subsetsInitialized := true;
    }

    /** The size of the unvisited cluster of p-pieces at sq, marking what it
     *  counts; 0 for a square that is empty, of the other colour, or
     *  visited. */
    method NumContig(sq: Square, visited: array<bool>, p: Piece) returns (num: nat)
      requires Valid() && visited.Length == 64
      modifies visited
      ensures (num, visited[..]) == Contig(board[..], old(visited[..]), p, sq)
      decreases Unvisited(visited[..]), 1
    {
      if p == EMP || board[sq] != p || visited[sq] {
        return 0;
      }
      ghost var v0 := visited[..];
      visited[sq] := true;
      assert visited[..] == v0[sq := true];
      ContigEnter(board[..], v0, p, sq);
      var rest := NumContigAdjacent(sq, visited, p, v0);
      num := 1 + rest;
    }

    /** The loop of NumContig over the neighbours of sq, once sq is marked:
     *  the fill continued from each neighbour in direction order. */
    method NumContigAdjacent(sq: Square, visited: array<bool>, p: Piece, ghost v0: Marks) returns (num: nat)
      requires Valid() && visited.Length == 64 && p != EMP
      requires !v0[sq] && visited[..] == v0[sq := true]
      modifies visited
      ensures (num, visited[..]) == ContigDirs(board[..], old(visited[..]), p, sq, 0)
      decreases Unvisited(v0), 0
    {
      ghost var cells: Cells := board[..];
      ghost var v1 := visited[..];
      ghost var target := ContigDirs(cells, v1, p, sq, 0);
      num := 0;
      var d := 0;
      while d < 8
        invariant 0 <= d <= 8 && board[..] == cells
        invariant Grows(v1, visited[..])
        invariant target.0 == num + ContigDirs(cells, visited[..], p, sq, d).0
        invariant target.1 == ContigDirs(cells, visited[..], p, sq, d).1
      {
        ghost var before := visited[..];
        var adjacent := MoveDest(sq, d, 1);
        var n := 0;
        if adjacent.Some? {
          FewerUnvisited(v0, before, sq);
          n := NumContig(adjacent.value, visited, p);
        }
        ContigDirsStep(cells, before, p, sq, d, n, visited[..]);
        num := num + n;
        d := d + 1;
      }
    }

    /** The region sizes of side s (the black list for anything but WP),
     *  computing them if needed. */
    method GetRegionSizes(s: Piece) returns (sizes: seq<int>)
      requires Valid()
      modifies this`subsetsInitialized, this`whiteRegionSizes, this`blackRegionSizes
      ensures subsetsInitialized && (whiteRegionSizes, blackRegionSizes) == old(CachedLists())
      ensures sizes == ListFor(whiteRegionSizes, blackRegionSizes, s)
      ensures old(Coherent()) ==> Coherent() && sizes == RegionSizes(board[..], s)
    {
      ComputeRegions();
      if s == WP {
        sizes := whiteRegionSizes;
      } else {
        sizes := blackRegionSizes;
      }
    }

    /** Whether side's pieces form a single region. */
    method PiecesContiguous(side: Piece) returns (contiguous: bool)
      requires Valid()
      modifies this`subsetsInitialized, this`whiteRegionSizes, this`blackRegionSizes
      ensures subsetsInitialized && (whiteRegionSizes, blackRegionSizes) == old(CachedLists())
      ensures contiguous == (|ListFor(old(CachedLists()).0, old(CachedLists()).1, side)| == 1)
      ensures old(Coherent()) && side != EMP ==> Coherent() && (contiguous <==> Contiguous(board[..], side))
    {
      var sizes := GetRegionSizes(side);
      contiguous := |sizes| == 1;
      if old(Coherent()) && side != EMP {
        OneRegionIffContiguous(board[..], side);
      }
    }

    /** The winner, computed and cached unless already known: the side that
     *  moved last if its pieces are one region, else the side to move if
     *  its pieces are, else EMP at the move limit, else None, which is not
     *  cached. */
    method Winner() returns (w: Option<Piece>)
      requires Valid()
      modifies this`winnerKnown, this`winner, this`subsetsInitialized, this`whiteRegionSizes, this`blackRegionSizes
      ensures w == old(WinnerNow()) && WinnerNow() == w
      ensures old(winnerKnown) ==> (winner == old(winner) && winnerKnown &&
        subsetsInitialized == old(subsetsInitialized) &&
        whiteRegionSizes == old(whiteRegionSizes) && blackRegionSizes == old(blackRegionSizes))
      ensures !old(winnerKnown) ==> subsetsInitialized && (whiteRegionSizes, blackRegionSizes) == old(CachedLists())
      ensures !old(winnerKnown) ==> winnerKnown == w.Some? && (w.Some? ==> winner == w) && (w.None? ==> winner == old(winner))
      ensures CachedLists() == old(CachedLists())
      ensures old(Coherent()) ==> Coherent() && w == Outcome(Pos())
    {
      if !winnerKnown {
        var c := PiecesContiguous(Opposite(turn));
        if c {
          winner := Some(Opposite(turn));
        } else {
          c := PiecesContiguous(turn);
          if c {
            winner := Some(turn);
          } else if |moves| == moveLimit {
            winner := Some(EMP);
          } else {
            return None;
          }
        }
        winnerKnown := true;
      }
      w := winner;
    }

    /** Whether the game is over: someone has won or it is a tie. */
    method GameOver() returns (over: bool)
      requires Valid()
      modifies this`winnerKnown, this`winner, this`subsetsInitialized, this`whiteRegionSizes, this`blackRegionSizes
      ensures over == old(WinnerNow()).Some? && WinnerNow() == old(WinnerNow())
      ensures winnerKnown == (old(winnerKnown) || over)
      ensures !old(winnerKnown) ==> subsetsInitialized
      ensures CachedLists() == old(CachedLists())
      ensures old(Coherent()) ==> Coherent() && over == Outcome(Pos()).Some?
    {
      var w := Winner();
      over := w.Some?;
    }

    /** Undo the last two moves, unless fewer than two were made or the game
     *  is over. */
    method Undo()
      requires Valid()
      requires |moves| > 1 ==> CanUnmake(Pos()) && CanUnmake(Unmake(Pos()))
      modifies this, board
      ensures Valid()
      ensures if old(|moves|) > 1 && old(WinnerNow()).None? then Pos() == Unmake(Unmake(old(Pos())))
              else Pos() == old(Pos())
      ensures old(|moves|) > 1 && old(WinnerNow()).None? ==> !winnerKnown && !subsetsInitialized
      ensures old(|moves|) <= 1 ==> unchanged(this)
      ensures old(Coherent()) ==> Coherent()
    {
      if |moves| > 1 {
        var over := GameOver();
        if !over {
          Retract();
          Retract();
        }
      }
    }

    /** The number of p's pieces, summed over the region list of p. */
    method NumPieces(p: Piece) returns (num: int)
      requires Valid()
      modifies this`subsetsInitialized, this`whiteRegionSizes, this`blackRegionSizes
      ensures subsetsInitialized && (whiteRegionSizes, blackRegionSizes) == old(CachedLists())
      ensures num == Sum(ListFor(old(CachedLists()).0, old(CachedLists()).1, p))
      ensures old(Coherent()) && p != EMP ==> Coherent() && num == |PieceSet(board[..], p)|
    {
      num := 0;
      var i := 0;
      var sizes := GetRegionSizes(p);
      while i < |sizes|
        invariant 0 <= i <= |sizes| && subsetsInitialized
        invariant (whiteRegionSizes, blackRegionSizes) == old(CachedLists())
        invariant sizes == ListFor(whiteRegionSizes, blackRegionSizes, p)
        invariant num + Sum(sizes[i..]) == Sum(sizes)
      {
        assert sizes[i..] == [sizes[i]] + sizes[i + 1..];
        var current := GetRegionSizes(p);
        num := num + current[i];
        i := i + 1;
        sizes := GetRegionSizes(p);
      }
      if old(Coherent()) && p != EMP {
        RegionSizesSum(board[..], p);
      }
    }

    /** The static estimate of the position, from the two region lists. */
    method HeuristicEstimate(est: (seq<int>, seq<int>) -> int) returns (value: int)
      requires Valid()
      modifies this`subsetsInitialized, this`whiteRegionSizes, this`blackRegionSizes
      ensures subsetsInitialized && (whiteRegionSizes, blackRegionSizes) == old(CachedLists())
      ensures value == est(old(CachedLists()).0, old(CachedLists()).1)
    {
      var white := GetRegionSizes(WP);
      var black := GetRegionSizes(BP);
      value := est(white, black);
    }
  }
}
