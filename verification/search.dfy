/**
 * The game-tree search of the machine player as pure functions: the
 * alpha-beta search exactly as the player runs it (first best move kept,
 * scan cut off once alpha >= beta), and plain full-width minimax.  The
 * lemmas show that the pruned search keeps the fail-soft window contract and
 * that, with the root window (-INFTY, INFTY), it finds the same value and the
 * same move as minimax, which is the first move of best value.
 *
 * The search is stated over a Game record that gives the outcome, the move
 * list, the successor and the static estimate of a position; LinesOfAction
 * fills it with the rules of the board.
 */
module GameSearch {
  import opened Types
  import opened Regions
  import opened Rules

  /** The bound of every score, 2^31 - 1 (the largest Java int). */
  const INFTY: int := 2147483647

  /** The score of a decided game, 20 below INFTY: +WINNING_VALUE when
   *  white has won, -WINNING_VALUE when black has. */
  const WINNING_VALUE: int := INFTY - 20

  /** A value and the move that achieves it, if one was recorded. */
  datatype Choice = Choice(score: int, move: Option<Move>)

  /** What the search sees of the game: who has won (None while the game
   *  goes on), the moves to try in order, the position a move leads to, and
   *  the static estimate of a position. */
  datatype Game = Game(outcome: Position -> Option<Piece>, moves: Position -> seq<Move>,
                       next: (Position, Move) -> Position, value: Position -> int)

  /** Every estimate lies in [-INFTY, INFTY]. */
  ghost predicate Bounded(g: Game)
  {
    forall p :: -INFTY <= g.value(p) <= INFTY
  }

  predicate IsSense(sense: int) { sense == 1 || sense == -1 }

  /** Score x is strictly better than y for the side with this sense. */
  predicate Better(sense: int, x: int, y: int)
  {
    (sense == 1 && x > y) || (sense == -1 && x < y)
  }

  function Max(a: int, b: int): int { if a >= b then a else b }

  function Min(a: int, b: int): int { if a <= b then a else b }

  /** The score of a finished game. */
  function TerminalValue(w: Piece): (v: int)
    ensures w == WP ==> v == WINNING_VALUE
    ensures w == BP ==> v == -WINNING_VALUE
    ensures w == EMP ==> v == 0
  {
    if w == WP then WINNING_VALUE else if w == BP then -WINNING_VALUE else 0
  }

  // ---------------------------------------------------------------------
  // The pruned search

  /** The alpha-beta search to the given depth: the terminal score of a
   *  finished game, the estimate at depth 0, else the scan of the moves
   *  starting from the worst score for the side to move. */
  function Search(g: Game, pos: Position, depth: nat, sense: int, alpha: int, beta: int): Choice
    requires IsSense(sense)
    decreases depth, 1, 0
  {
    var o := g.outcome(pos);
    if o.Some? then Choice(TerminalValue(o.value), None)
    else if depth == 0 then Choice(g.value(pos), None)
    else Scan(g, pos, g.moves(pos), 0, depth, sense, alpha, beta, Choice(-sense * INFTY, None))
  }

  /** The rest of the scan from move i on, with the window and the best
   *  choice so far. */
  function Scan(g: Game, pos: Position, ms: seq<Move>, i: int, depth: nat, sense: int,
                alpha: int, beta: int, best: Choice): Choice
    requires IsSense(sense) && 1 <= depth && 0 <= i <= |ms|
    decreases depth, 0, |ms| - i
  {
    if i == |ms| then best
    else
      var score := Search(g, g.next(pos, ms[i]), depth - 1, -sense, alpha, beta).score;
      var best' := if Better(sense, score, best.score) then Choice(score, Some(ms[i])) else best;
      var alpha' := if sense == 1 then Max(alpha, score) else alpha;
      var beta' := if sense == -1 then Min(beta, score) else beta;
      if alpha' >= beta' then best'
      else Scan(g, pos, ms, i + 1, depth, sense, alpha', beta', best')
  }

  /** One step of the scan, given the score of move i and the best choice
   *  and window after it: the scan ends there when the window has closed,
   *  and goes on from move i + 1 otherwise. */
  lemma ScanNext(g: Game, pos: Position, ms: seq<Move>, i: int, depth: nat, sense: int,
                 alpha: int, beta: int, best: Choice, score: int,
                 alpha': int, beta': int, best': Choice)
    requires IsSense(sense) && 1 <= depth && 0 <= i < |ms|
    requires score == Search(g, g.next(pos, ms[i]), depth - 1, -sense, alpha, beta).score
    requires best' == if Better(sense, score, best.score) then Choice(score, Some(ms[i])) else best
    requires alpha' == if sense == 1 then Max(alpha, score) else alpha
    requires beta' == if sense == -1 then Min(beta, score) else beta
    ensures alpha' >= beta' ==> Scan(g, pos, ms, i, depth, sense, alpha, beta, best) == best'
    ensures alpha' < beta' ==>
      Scan(g, pos, ms, i, depth, sense, alpha, beta, best) == Scan(g, pos, ms, i + 1, depth, sense, alpha', beta', best')
  {
  }

  // ---------------------------------------------------------------------
  // Full-width minimax, the reference

  function Minimax(g: Game, pos: Position, depth: nat, sense: int): Choice
    requires IsSense(sense)
    decreases depth, 1, 0
  {
    var o := g.outcome(pos);
    if o.Some? then Choice(TerminalValue(o.value), None)
    else if depth == 0 then Choice(g.value(pos), None)
    else FullScan(g, pos, g.moves(pos), 0, depth, sense, Choice(-sense * INFTY, None))
  }

  function FullScan(g: Game, pos: Position, ms: seq<Move>, i: int, depth: nat, sense: int,
                    best: Choice): Choice
    requires IsSense(sense) && 1 <= depth && 0 <= i <= |ms|
    decreases depth, 0, |ms| - i
  {
    if i == |ms| then best
    else
      var score := ChildValue(g, pos, ms[i], depth, sense);
      var best' := if Better(sense, score, best.score) then Choice(score, Some(ms[i])) else best;
      FullScan(g, pos, ms, i + 1, depth, sense, best')
  }

  /** The minimax value of the position after move m. */
  function ChildValue(g: Game, pos: Position, m: Move, depth: nat, sense: int): int
    requires IsSense(sense) && 1 <= depth
    decreases depth, 0, 0
  {
    Minimax(g, g.next(pos, m), depth - 1, -sense).score
  }

  // ---------------------------------------------------------------------
  // Value bounds

  /** With a bounded estimate every minimax value lies in [-INFTY, INFTY]. */
  lemma {:induction false} MinimaxBounds(g: Game, pos: Position, depth: nat, sense: int)
    requires IsSense(sense) && Bounded(g)
    ensures -INFTY <= Minimax(g, pos, depth, sense).score <= INFTY
    decreases depth, 1, 0
  {
    if g.outcome(pos).None? && depth > 0 {
      FullScanBounds(g, pos, g.moves(pos), 0, depth, sense, Choice(-sense * INFTY, None));
    }
  }

  lemma {:induction false} FullScanBounds(g: Game, pos: Position, ms: seq<Move>, i: int, depth: nat,
                                           sense: int, best: Choice)
    requires IsSense(sense) && 1 <= depth && 0 <= i <= |ms| && Bounded(g)
    requires -INFTY <= best.score <= INFTY
    ensures -INFTY <= FullScan(g, pos, ms, i, depth, sense, best).score <= INFTY
    decreases depth, 0, |ms| - i
  {
    if i < |ms| {
      MinimaxBounds(g, g.next(pos, ms[i]), depth - 1, -sense);
      var score := ChildValue(g, pos, ms[i], depth, sense);
      var best' := if Better(sense, score, best.score) then Choice(score, Some(ms[i])) else best;
      FullScanBounds(g, pos, ms, i + 1, depth, sense, best');
    }
  }

  /** The full scan never ends worse, for the side to move, than where it
   *  started. */
  lemma {:induction false} FullScanMonotone(g: Game, pos: Position, ms: seq<Move>, i: int, depth: nat,
                                             sense: int, best: Choice)
    requires IsSense(sense) && 1 <= depth && 0 <= i <= |ms|
    ensures var r := FullScan(g, pos, ms, i, depth, sense, best);
      if sense == 1 then r.score >= best.score else r.score <= best.score
    decreases |ms| - i
  {
    if i < |ms| {
      var score := ChildValue(g, pos, ms[i], depth, sense);
      var best' := if Better(sense, score, best.score) then Choice(score, Some(ms[i])) else best;
      FullScanMonotone(g, pos, ms, i + 1, depth, sense, best');
    }
  }

  /** Once the full scan holds the largest possible value for its side,
   *  nothing replaces it. */
  lemma {:induction false} FullScanSaturated(g: Game, pos: Position, ms: seq<Move>, i: int, depth: nat,
                                              sense: int, best: Choice)
    requires IsSense(sense) && 1 <= depth && 0 <= i <= |ms| && Bounded(g)
    requires best.score == sense * INFTY
    ensures FullScan(g, pos, ms, i, depth, sense, best) == best
    decreases |ms| - i
  {
    if i < |ms| {
      MinimaxBounds(g, g.next(pos, ms[i]), depth - 1, -sense);
      FullScanSaturated(g, pos, ms, i + 1, depth, sense, best);
    }
  }

  // ---------------------------------------------------------------------
  // The window contract

  /** The fail-soft window contract of a search value v against the true
   *  value m: a value at or below alpha bounds m from above, a value at or
   *  above beta bounds it from below, and a value inside is exact. */
  predicate Window(v: int, m: int, alpha: int, beta: int)
  {
    (v <= alpha ==> m <= v) && (beta <= v ==> v <= m) && (alpha < v < beta ==> v == m)
  }

  /** The pruned search keeps the window contract for every window inside
   *  [-INFTY, INFTY]. */
  lemma {:induction false} SearchWindow(g: Game, pos: Position, depth: nat, sense: int, alpha: int, beta: int)
    requires IsSense(sense) && -INFTY <= alpha < beta <= INFTY
    ensures Window(Search(g, pos, depth, sense, alpha, beta).score, Minimax(g, pos, depth, sense).score,
                   alpha, beta)
    decreases depth, 1, 0
  {
    if g.outcome(pos).None? && depth > 0 {
      var start := Choice(-sense * INFTY, None);
      ScanWindow(g, pos, g.moves(pos), 0, depth, sense, alpha, beta, alpha, beta, start, start);
    }
  }

  /** The scan invariant behind SearchWindow.  For a maximizing scan the
   *  current alpha is the larger of the original alpha and the best score
   *  found, the full scan's score is at most the pruned one, and equal to
   *  it once the pruned one is above the original alpha; symmetrically for
   *  a minimizing scan. */
  lemma {:induction false} ScanWindow(g: Game, pos: Position, ms: seq<Move>, i: int, depth: nat, sense: int,
                                       a0: int, b0: int, alpha: int, beta: int, best: Choice, fbest: Choice)
    requires IsSense(sense) && 1 <= depth && 0 <= i <= |ms|
    requires -INFTY <= a0 < b0 <= INFTY && alpha < beta
    requires sense == 1 ==>
      beta == b0 && alpha == Max(a0, best.score) && fbest.score <= best.score &&
      (best.score > a0 ==> fbest.score == best.score)
    requires sense == -1 ==>
      alpha == a0 && beta == Min(b0, best.score) && fbest.score >= best.score &&
      (best.score < b0 ==> fbest.score == best.score)
    ensures Window(Scan(g, pos, ms, i, depth, sense, alpha, beta, best).score,
                   FullScan(g, pos, ms, i, depth, sense, fbest).score, a0, b0)
    decreases depth, 0, |ms| - i
  {
    if i < |ms| {
      var child := g.next(pos, ms[i]);
      var v := Search(g, child, depth - 1, -sense, alpha, beta).score;
      var m := ChildValue(g, pos, ms[i], depth, sense);
      SearchWindow(g, child, depth - 1, -sense, alpha, beta);
      var best' := if Better(sense, v, best.score) then Choice(v, Some(ms[i])) else best;
      var fbest' := if Better(sense, m, fbest.score) then Choice(m, Some(ms[i])) else fbest;
      var alpha' := if sense == 1 then Max(alpha, v) else alpha;
      var beta' := if sense == -1 then Min(beta, v) else beta;
      if alpha' >= beta' {
        FullScanMonotone(g, pos, ms, i + 1, depth, sense, fbest');
      } else {
        ScanWindow(g, pos, ms, i + 1, depth, sense, a0, b0, alpha', beta', best', fbest');
      }
    }
  }

  // ---------------------------------------------------------------------
  // The root search equals minimax

  /** With the root window the pruned search returns exactly the minimax
   *  choice: the same value and the same move. */
  lemma RootSearchIsMinimax(g: Game, pos: Position, depth: nat, sense: int)
    requires IsSense(sense) && Bounded(g)
    ensures Search(g, pos, depth, sense, -INFTY, INFTY) == Minimax(g, pos, depth, sense)
  {
    if g.outcome(pos).None? && depth > 0 {
      var start := Choice(-sense * INFTY, None);
      RootScan(g, pos, g.moves(pos), 0, depth, sense, -INFTY, INFTY, start);
    }
  }

  /** The scan invariant behind RootSearchIsMinimax: both scans hold the
   *  same best choice, and the moving bound of the window is its score. */
  lemma {:induction false} RootScan(g: Game, pos: Position, ms: seq<Move>, i: int, depth: nat, sense: int,
                                     alpha: int, beta: int, best: Choice)
    requires IsSense(sense) && 1 <= depth && 0 <= i <= |ms| && Bounded(g)
    requires alpha < beta && -INFTY <= best.score <= INFTY
    requires sense == 1 ==> alpha == best.score && beta == INFTY
    requires sense == -1 ==> alpha == -INFTY && beta == best.score
    ensures Scan(g, pos, ms, i, depth, sense, alpha, beta, best) == FullScan(g, pos, ms, i, depth, sense, best)
    decreases |ms| - i
  {
    if i < |ms| {
      var child := g.next(pos, ms[i]);
      var v := Search(g, child, depth - 1, -sense, alpha, beta).score;
      var m := ChildValue(g, pos, ms[i], depth, sense);
      SearchWindow(g, child, depth - 1, -sense, alpha, beta);
      MinimaxBounds(g, child, depth - 1, -sense);
      var best' := if Better(sense, v, best.score) then Choice(v, Some(ms[i])) else best;
      var fbest' := if Better(sense, m, best.score) then Choice(m, Some(ms[i])) else best;
      assert best' == fbest';
      var alpha' := if sense == 1 then Max(alpha, v) else alpha;
      var beta' := if sense == -1 then Min(beta, v) else beta;
      if alpha' >= beta' {
        FullScanSaturated(g, pos, ms, i + 1, depth, sense, best');
      } else {
        RootScan(g, pos, ms, i + 1, depth, sense, alpha', beta', best');
      }
    }
  }

  // ---------------------------------------------------------------------
  // First best move

  /** The full scan ends with the best value for its side over the moves it
   *  scans; the move it records is the FIRST move reaching that value, and
   *  it records none when no move beats the starting score. */
  lemma {:induction false} FullScanFirstBest(g: Game, pos: Position, ms: seq<Move>, i: int, depth: nat,
                                              sense: int, best: Choice)
    requires IsSense(sense) && 1 <= depth && 0 <= i <= |ms|
    ensures var r := FullScan(g, pos, ms, i, depth, sense, best);
      (forall j | i <= j < |ms| :: !Better(sense, ChildValue(g, pos, ms[j], depth, sense), r.score)) &&
      !Better(sense, best.score, r.score) &&
      (r == best ||
       exists k | i <= k < |ms| ::
         r == Choice(ChildValue(g, pos, ms[k], depth, sense), Some(ms[k])) &&
         Better(sense, r.score, best.score) &&
         forall j | i <= j < k :: Better(sense, r.score, ChildValue(g, pos, ms[j], depth, sense)))
    decreases |ms| - i
  {
    if i < |ms| {
      var score := ChildValue(g, pos, ms[i], depth, sense);
      var best' := if Better(sense, score, best.score) then Choice(score, Some(ms[i])) else best;
      FullScanFirstBest(g, pos, ms, i + 1, depth, sense, best');
      var r := FullScan(g, pos, ms, i, depth, sense, best);
      assert r == FullScan(g, pos, ms, i + 1, depth, sense, best');
      if r != best && r != best' {
        var k :| i + 1 <= k < |ms| &&
          r == Choice(ChildValue(g, pos, ms[k], depth, sense), Some(ms[k])) &&
          Better(sense, r.score, best'.score) &&
          forall j | i + 1 <= j < k :: Better(sense, r.score, ChildValue(g, pos, ms[j], depth, sense));
        assert forall j | i <= j < k :: Better(sense, r.score, ChildValue(g, pos, ms[j], depth, sense));
      }
    }
  }

  /** At the root of a game that goes on, the search with the root window
   *  returns the best value for the side to move over all its moves, and
   *  records the first move reaching it (none when no move beats the
   *  starting score -sense * INFTY). */
  lemma RootFirstBest(g: Game, pos: Position, depth: nat, sense: int)
    requires IsSense(sense) && Bounded(g) && 1 <= depth && g.outcome(pos).None?
    ensures var r := Search(g, pos, depth, sense, -INFTY, INFTY); var ms := g.moves(pos);
      (forall j | 0 <= j < |ms| :: !Better(sense, ChildValue(g, pos, ms[j], depth, sense), r.score)) &&
      (r.move.None? ==> r.score == -sense * INFTY) &&
      (r.move.Some? ==> exists k | 0 <= k < |ms| ::
         r == Choice(ChildValue(g, pos, ms[k], depth, sense), Some(ms[k])) &&
         forall j | 0 <= j < k :: Better(sense, r.score, ChildValue(g, pos, ms[j], depth, sense)))
  {
    RootSearchIsMinimax(g, pos, depth, sense);
    FullScanFirstBest(g, pos, g.moves(pos), 0, depth, sense, Choice(-sense * INFTY, None));
  }

  /** The move a scan records is the one it started with or one of the
   *  moves it scanned. */
  lemma {:induction false} ScanMoveListed(g: Game, pos: Position, ms: seq<Move>, i: int, depth: nat, sense: int,
                                          alpha: int, beta: int, best: Choice)
    requires IsSense(sense) && 1 <= depth && 0 <= i <= |ms|
    ensures var r := Scan(g, pos, ms, i, depth, sense, alpha, beta, best);
      r.move == best.move || exists k | i <= k < |ms| :: r.move == Some(ms[k])
    decreases |ms| - i
  {
    if i < |ms| {
      var score := Search(g, g.next(pos, ms[i]), depth - 1, -sense, alpha, beta).score;
      var best' := if Better(sense, score, best.score) then Choice(score, Some(ms[i])) else best;
      var alpha' := if sense == 1 then Max(alpha, score) else alpha;
      var beta' := if sense == -1 then Min(beta, score) else beta;
      if alpha' < beta' {
        ScanMoveListed(g, pos, ms, i + 1, depth, sense, alpha', beta', best');
      }
    }
  }

  /** The move the search chooses, if any, is one of the position's moves. */
  lemma SearchMoveListed(g: Game, pos: Position, depth: nat, sense: int, alpha: int, beta: int)
    requires IsSense(sense)
    ensures var r := Search(g, pos, depth, sense, alpha, beta);
      r.move.Some? ==> r.move.value in g.moves(pos)
  {
    if g.outcome(pos).None? && depth > 0 {
      ScanMoveListed(g, pos, g.moves(pos), 0, depth, sense, alpha, beta, Choice(-sense * INFTY, None));
    }
  }

  // ---------------------------------------------------------------------
  // The game of Lines of Action

  /** Static evaluation from the white and the black region sizes. */
  type Estimator = (seq<int>, seq<int>) -> int

  /** The winner of a position; a position with no side to move has none. */
  function OutcomeOf(pos: Position): Option<Piece>
  {
    if pos.turn == EMP then None else Outcome(pos)
  }

  function MovesOf(pos: Position): seq<Move>
  {
    if pos.turn == EMP then [] else LegalMoves(pos)
  }

  function NextOf(pos: Position, m: Move): Position
  {
    if pos.turn == EMP then pos else Apply(pos, m)
  }

  /** The static estimate of a position. */
  function Estimate(pos: Position, est: Estimator): int
  {
    est(RegionSizes(pos.cells, WP), RegionSizes(pos.cells, BP))
  }

  /** Lines of Action as the search sees it, with estimate est. */
  function LinesOfAction(est: Estimator): (g: Game)
    ensures forall p :: g.outcome(p) == OutcomeOf(p) && g.moves(p) == MovesOf(p) && g.value(p) == Estimate(p, est)
    ensures forall p, m :: g.next(p, m) == NextOf(p, m)
  {
    Game(p => OutcomeOf(p), p => MovesOf(p), (p, m) => NextOf(p, m), p => Estimate(p, est))
  }

  /** g agrees with Lines of Action under estimate est on every position
   *  with a side to move.  Each fact is tied to the rule it restates, so a
   *  proof learns it only for the positions whose rules it looks at. */
  ghost predicate Plays(g: Game, est: Estimator)
  {
    (forall p: Position {:trigger Outcome(p)} | p.turn != EMP :: g.outcome(p) == Outcome(p)) &&
    (forall p: Position {:trigger LegalMoves(p)} | p.turn != EMP :: g.moves(p) == LegalMoves(p)) &&
    (forall p: Position, m: Move {:trigger Apply(p, m)} | p.turn != EMP :: g.next(p, m) == Apply(p, m)) &&
    (forall p: Position {:trigger Estimate(p, est)} :: g.value(p) == Estimate(p, est))
  }

  lemma LinesOfActionPlays(est: Estimator)
    ensures Plays(LinesOfAction(est), est)
  {
  }

  /** A bounded estimator gives a bounded game. */
  lemma BoundedGame(est: Estimator)
    requires forall w, b :: -INFTY <= est(w, b) <= INFTY
    ensures Bounded(LinesOfAction(est))
  {
  }
}
