/**
 * The machine player: a depth-limited alpha-beta search over a working copy
 * of the board, which makes and retracts each legal move in turn.  FindMove
 * is proved to compute Search.Search on the board's position, to leave the
 * position as it found it, and to record the move Search chooses exactly
 * when asked to.
 */
module Machine {
  import opened Types
  import opened Regions
  import opened Rules
  import opened GameSearch
  import opened BoardState

  /** The search depth for a position. */
  function ChooseDepth(): (depth: nat)
    ensures depth >= 1
  {
    5
  }

  /** The sense of a side: 1 for white, which maximises, -1 for black. */
  function SenseOf(side: Piece): (sense: int)
    ensures IsSense(sense) && (sense == 1 <==> side == WP)
  {
    if side == WP then 1 else -1
  }

  class MachinePlayer {
    /** The side this player plays. */
    const side: Piece
    /** Where FindMove leaves the move it chose at the root. */
    var foundMove: Option<Move>

    constructor (side: Piece)
      ensures this.side == side && foundMove == None
    {
      this.side := side;
      foundMove := None;
    }

    /** A move for the side to move on b, found by searching ChooseDepth()
     *  moves deep on a copy of b; b is left alone.  With an estimate inside
     *  [-INFTY, INFTY] it is the first best move of full minimax. */
    method SearchForMove(b: Board, est: Estimator) returns (choice: Option<Move>)
      requires b.Valid() && !b.winnerKnown && Outcome(b.Pos()).None? && side == b.turn
      modifies this`foundMove
      ensures choice == foundMove
      ensures choice == Search(LinesOfAction(est), b.Pos(), ChooseDepth(), SenseOf(side), -INFTY, INFTY).move
      ensures choice.Some? ==> !choice.value.capture && Legal(b.Pos(), choice.value.from, choice.value.to)
      ensures (forall w, bl :: -INFTY <= est(w, bl) <= INFTY) ==>
        choice == Minimax(LinesOfAction(est), b.Pos(), ChooseDepth(), SenseOf(side)).move
    {
      var work := new Board.Copy(b);
      assert work.Pos() == b.Pos();
      var value: int;
      ghost var g := LinesOfAction(est);
      LinesOfActionPlays(est);
      foundMove := None;
      if side == WP {
        value := FindMove(work, ChooseDepth(), true, 1, -INFTY, INFTY, est, g);
      } else {
        value := FindMove(work, ChooseDepth(), true, -1, -INFTY, INFTY, est, g);
      }
      choice := foundMove;
      SearchMoveListed(g, b.Pos(), ChooseDepth(), SenseOf(side), -INFTY, INFTY);
      if choice.Some? {
        LegalMovesExact(b.Pos(), choice.value);
      }
      if forall w, bl :: -INFTY <= est(w, bl) <= INFTY {
        BoundedGame(est);
        RootSearchIsMinimax(g, b.Pos(), ChooseDepth(), SenseOf(side));
      }
    }

    /** Make move on board, search the position it leads to one level
     *  shallower with the other sense, and retract it again. */
    method TryMove(board: Board, move: Move, depth: nat, sense: int, alpha: int, beta: int,
                   est: Estimator, ghost g: Game) returns (score: int)
      requires board.Valid() && !board.winnerKnown && 1 <= depth && IsSense(sense) && Plays(g, est)
      requires move in g.moves(board.Pos())
      modifies this`foundMove, board, board.board
      ensures board.Valid() && board.Pos() == old(board.Pos()) && !board.winnerKnown
      ensures foundMove == old(foundMove)
      ensures score == Search(g, g.next(old(board.Pos()), move), depth - 1, -sense, alpha, beta).score
      decreases depth, 0
    {
      ghost var pos := board.Pos();
      LegalMovesExact(pos, move);
      RoundTrip(pos, move);
      board.MakeMove(move);
      ghost var child := board.Pos();
      assert child == Apply(pos, move);
      score := FindMove(board, depth - 1, false, -sense, alpha, beta, est, g);
      assert score == Search(g, child, depth - 1, -sense, alpha, beta).score;
      assert board.Pos() == child;
      board.Retract();
      assert board.Pos() == Unmake(child);
      assert board.Pos() == pos;
    }

    /** The value of the position on board searched depth moves deep with
     *  window alpha..beta, recording the move found in foundMove when
     *  saveMove; g is the game as the search sees it. */
    method FindMove(board: Board, depth: nat, saveMove: bool, sense: int, alpha: int, beta: int,
                    est: Estimator, ghost g: Game) returns (value: int)
      requires board.Ready(depth) && IsSense(sense) && Plays(g, est)
      modifies this`foundMove, board, board.board
      ensures board.Valid() && board.Pos() == old(board.Pos())
      ensures value == Search(g, old(board.Pos()), depth, sense, alpha, beta).score
      ensures var r := Search(g, old(board.Pos()), depth, sense, alpha, beta);
        foundMove == if saveMove && r.move.Some? then r.move else old(foundMove)
      ensures g.outcome(old(board.Pos())).Some? ==>
        value == TerminalValue(g.outcome(old(board.Pos())).value) && foundMove == old(foundMove)
      ensures g.outcome(old(board.Pos())).None? && depth == 0 ==>
        value == g.value(old(board.Pos())) && foundMove == old(foundMove)
      decreases depth, 2
    {
      ghost var pos := board.Pos();
      var over := board.GameOver();
      if over {
        var w := board.Winner();
        if w == Some(WP) {
          return WINNING_VALUE;
        }
        w := board.Winner();
        if w == Some(BP) {
          return -WINNING_VALUE;
        }
        w := board.Winner();
        if w == Some(EMP) {
          return 0;
        }
      }
      if depth == 0 {
        value := board.HeuristicEstimate(est);
        assert value == Estimate(pos, est);
        return;
      }
      var moves := board.LegalMoves();
      value := ScanMoves(board, moves, depth, saveMove, sense, alpha, beta, est, g);
    }

    /** The loop of the search over moves, the legal moves of the board's
     *  position in order: try each, keep the first best score (and record
     *  its move when saveMove), narrow the window, and stop once it closes. */
    method ScanMoves(board: Board, moves: seq<Move>, depth: nat, saveMove: bool, sense: int,
                     alpha: int, beta: int, est: Estimator, ghost g: Game) returns (value: int)
      requires board.Valid() && !board.winnerKnown && 1 <= depth && IsSense(sense) && Plays(g, est)
      requires moves == g.moves(board.Pos())
      modifies this`foundMove, board, board.board
      ensures board.Valid() && board.Pos() == old(board.Pos())
      ensures var r := Scan(g, old(board.Pos()), moves, 0, depth, sense, alpha, beta, Choice(-sense * INFTY, None));
        value == r.score && foundMove == if saveMove && r.move.Some? then r.move else old(foundMove)
      decreases depth, 1
    {
      ghost var pos := board.Pos();
      ghost var target := Scan(g, pos, moves, 0, depth, sense, alpha, beta, Choice(-sense * INFTY, None));
      var bestScore := -sense * INFTY;
      ghost var best := Choice(bestScore, None);
      ghost var found0 := foundMove;
      var a, b := alpha, beta;
      var i := 0;
      while i < |moves|
        invariant 0 <= i <= |moves|
        invariant board.Valid() && board.Pos() == pos && !board.winnerKnown
        invariant best.score == bestScore
        invariant Scan(g, pos, moves, i, depth, sense, a, b, best) == target
        invariant foundMove == if saveMove && best.move.Some? then best.move else found0
      {
        var move := moves[i];
        var score := TryMove(board, move, depth, sense, a, b, est, g);
        ghost var a0, b0, best0 := a, b, best;
        if Better(sense, score, bestScore) {
          bestScore := score;
          best := Choice(score, Some(move));
          if saveMove {
            foundMove := Some(move);
          }
        }
        if sense == 1 {
          a := Max(a, score);
        } else if sense == -1 {
          b := Min(b, score);
        }
        ScanNext(g, pos, moves, i, depth, sense, a0, b0, best0, score, a, b, best);
        if a >= b {
          break;
        }
        i := i + 1;
      }
      value := bestScore;
    }
  }
}
