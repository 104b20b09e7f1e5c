/** The depth-bounded alpha-beta search `minimax` of services/chessEngine.ts,
    with plain minimax over the same tree as its reference. */
module Search {
  import opened Scores
  import opened Evaluation
  import opened GameTree

  /** The value of a leaf: the evaluation negated, so that it is Black's score. */
  function LeafValue(p: Position): Score {
    Fin(-Evaluate(p.board))
  }

  /** The position reached by playing the i-th entry of `game.moves()`. */
  function Child(p: Position, i: nat): Position
    requires i < |p.moves|
  {
    Play(p, Sans(p.moves)[i])
  }

  // ---------------------------------------------------------------------------
  // Plain minimax: every move is searched

  function MinimaxValue(p: Position, depth: nat, maximizing: bool): Score
    decreases depth, 1
  {
    if depth == 0 || p.gameOver then LeafValue(p)
    else BestOf(p, 0, depth, maximizing)
  }

  /** The max (or min) of the values of the children i, i+1, ... */
  function BestOf(p: Position, i: nat, depth: nat, maximizing: bool): Score
    requires 0 < depth && i <= |p.moves|
    decreases depth, 0, |p.moves| - i
  {
    if i == |p.moves| then (if maximizing then NegInf else PosInf)
    else
      var v := MinimaxValue(Child(p, i), depth - 1, !maximizing);
      if maximizing then Max(v, BestOf(p, i + 1, depth, true))
      else Min(v, BestOf(p, i + 1, depth, false))
  }

  // ---------------------------------------------------------------------------
  // The pruned search as the engine runs it

  function AlphaBeta(p: Position, depth: nat, alpha: Score, beta: Score, maximizing: bool): (r: Score)
    decreases depth, 1
  {
    if depth == 0 || p.gameOver then LeafValue(p)
    else if maximizing then MaxLoop(p, 0, depth, alpha, beta, NegInf)
    else MinLoop(p, 0, depth, alpha, beta, PosInf)
  }

  /** The maximising loop from move i on, with the running alpha and maxEval;
      it stops once beta <= alpha. */
  function MaxLoop(p: Position, i: nat, depth: nat, alpha: Score, beta: Score, maxEval: Score): (r: Score)
    requires 0 < depth && i <= |p.moves|
    decreases depth, 0, |p.moves| - i
  {
    if i == |p.moves| then maxEval
    else
      var evalValue := AlphaBeta(Child(p, i), depth - 1, alpha, beta, false);
      var alpha' := Max(alpha, evalValue);
      if Le(beta, alpha') then Max(maxEval, evalValue)
      else MaxLoop(p, i + 1, depth, alpha', beta, Max(maxEval, evalValue))
  }

  /** The minimising loop from move i on, with the running beta and minEval;
      it stops once beta <= alpha. */
  function MinLoop(p: Position, i: nat, depth: nat, alpha: Score, beta: Score, minEval: Score): (r: Score)
    requires 0 < depth && i <= |p.moves|
    decreases depth, 0, |p.moves| - i
  {
    if i == |p.moves| then minEval
    else
      var evalValue := AlphaBeta(Child(p, i), depth - 1, alpha, beta, true);
      var beta' := Min(beta, evalValue);
      if Le(beta', alpha) then Min(minEval, evalValue)
      else MinLoop(p, i + 1, depth, alpha, beta', Min(minEval, evalValue))
  }

  /** At depth 0 or at a finished game the search returns the negated
      evaluation, whatever the window and the side. */
  lemma AlphaBetaLeaf(p: Position, depth: nat, alpha: Score, beta: Score, maximizing: bool)
    requires depth == 0 || p.gameOver
    ensures AlphaBeta(p, depth, alpha, beta, maximizing) == Fin(-Evaluate(p.board))
    ensures MinimaxValue(p, depth, maximizing) == Fin(-Evaluate(p.board))
  {
  }

  /** An unfinished position without a legal move: the loop never runs, so the
      search returns its starting value, -Infinity for the maximiser and
      +Infinity for the minimiser; plain minimax agrees. */
  lemma NoMovesSentinel(p: Position, depth: nat, alpha: Score, beta: Score, maximizing: bool)
    requires 0 < depth && !p.gameOver && p.moves == []
    ensures AlphaBeta(p, depth, alpha, beta, maximizing) == (if maximizing then NegInf else PosInf)
    ensures MinimaxValue(p, depth, maximizing) == (if maximizing then NegInf else PosInf)
  {
  }

  /** The running maximum never drops: the maximising loop returns at least the
      maxEval it starts from and at least the value of the first move it reads. */
  lemma {:induction false} MaxLoopNeverDrops(p: Position, i: nat, depth: nat, alpha: Score, beta: Score, maxEval: Score)
    requires 0 < depth && i <= |p.moves|
    ensures Le(maxEval, MaxLoop(p, i, depth, alpha, beta, maxEval))
    ensures i < |p.moves| ==>
              Le(AlphaBeta(Child(p, i), depth - 1, alpha, beta, false), MaxLoop(p, i, depth, alpha, beta, maxEval))
    decreases |p.moves| - i
  {
    if i < |p.moves| {
      var v := AlphaBeta(Child(p, i), depth - 1, alpha, beta, false);
      var alpha', best' := Max(alpha, v), Max(maxEval, v);
      if !Le(beta, alpha') {
        MaxLoopNeverDrops(p, i + 1, depth, alpha', beta, best');
        LeTrans(maxEval, best', MaxLoop(p, i + 1, depth, alpha', beta, best'));
        LeTrans(v, best', MaxLoop(p, i + 1, depth, alpha', beta, best'));
      }
    }
  }

  /** The running minimum never rises: the minimising loop returns at most the
      minEval it starts from and at most the value of the first move it reads. */
  lemma {:induction false} MinLoopNeverRises(p: Position, i: nat, depth: nat, alpha: Score, beta: Score, minEval: Score)
    requires 0 < depth && i <= |p.moves|
    ensures Le(MinLoop(p, i, depth, alpha, beta, minEval), minEval)
    ensures i < |p.moves| ==>
              Le(MinLoop(p, i, depth, alpha, beta, minEval), AlphaBeta(Child(p, i), depth - 1, alpha, beta, true))
    decreases |p.moves| - i
  {
    if i < |p.moves| {
      var v := AlphaBeta(Child(p, i), depth - 1, alpha, beta, true);
      var beta', best' := Min(beta, v), Min(minEval, v);
      if !Le(beta', alpha) {
        MinLoopNeverRises(p, i + 1, depth, alpha, beta', best');
        LeTrans(MinLoop(p, i + 1, depth, alpha, beta', best'), best', minEval);
        LeTrans(MinLoop(p, i + 1, depth, alpha, beta', best'), best', v);
      }
    }
  }

  // ---------------------------------------------------------------------------
  // Pruning never changes what is seen through the window

  /** Through any nonempty window [alpha, beta] the pruned search and plain
      minimax look the same: equal when minimax falls strictly inside, and on
      the same side of the window otherwise. */
  lemma {:induction false} AlphaBetaWindow(p: Position, depth: nat, alpha: Score, beta: Score, maximizing: bool)
    requires Lt(alpha, beta)
    ensures Clamp(AlphaBeta(p, depth, alpha, beta, maximizing), alpha, beta)
         == Clamp(MinimaxValue(p, depth, maximizing), alpha, beta)
    decreases depth, 1
  {
    if depth == 0 || p.gameOver {
    } else if maximizing {
      MaxLoopWindow(p, 0, depth, alpha, alpha, beta, NegInf, NegInf);
    } else {
      MinLoopWindow(p, 0, depth, beta, alpha, beta, PosInf, PosInf);
    }
  }

  /** The maximising loop, started from moves i.. with running maxEval `best`
      whose view through [alpha0, beta] matches the true maximum V so far. */
  lemma {:induction false} MaxLoopWindow(p: Position, i: nat, depth: nat, alpha0: Score,
                                         alpha: Score, beta: Score, best: Score, V: Score)
    requires 0 < depth && i <= |p.moves|
    requires Lt(alpha0, beta) && alpha == Max(alpha0, best) && Lt(alpha, beta)
    requires Clamp(best, alpha0, beta) == Clamp(V, alpha0, beta)
    ensures Clamp(MaxLoop(p, i, depth, alpha, beta, best), alpha0, beta)
         == Clamp(Max(V, BestOf(p, i, depth, true)), alpha0, beta)
    decreases depth, 0, |p.moves| - i
  {
    if i == |p.moves| {
      assert Max(V, NegInf) == V;
    } else {
      var c := Child(p, i);
      var v := AlphaBeta(c, depth - 1, alpha, beta, false);
      var w := MinimaxValue(c, depth - 1, false);
      AlphaBetaWindow(c, depth - 1, alpha, beta, false);
      MaxStepAgrees(alpha0, alpha, beta, best, V, v, w);
      var best', V' := Max(best, v), Max(V, w);
      var alpha' := Max(alpha, v);
      assert BestOf(p, i, depth, true) == Max(w, BestOf(p, i + 1, depth, true));
      MaxAssoc(V, w, BestOf(p, i + 1, depth, true));
      if Le(beta, alpha') {
        CutAtCeiling(best', V', BestOf(p, i + 1, depth, true), alpha0, beta);
      } else {
        MaxLoopWindow(p, i + 1, depth, alpha0, alpha', beta, best', V');
      }
    }
  }

  /** The minimising loop, dual of MaxLoopWindow over [alpha, beta0]. */
  lemma {:induction false} MinLoopWindow(p: Position, i: nat, depth: nat, beta0: Score,
                                         alpha: Score, beta: Score, best: Score, V: Score)
    requires 0 < depth && i <= |p.moves|
    requires Lt(alpha, beta0) && beta == Min(beta0, best) && Lt(alpha, beta)
    requires Clamp(best, alpha, beta0) == Clamp(V, alpha, beta0)
    ensures Clamp(MinLoop(p, i, depth, alpha, beta, best), alpha, beta0)
         == Clamp(Min(V, BestOf(p, i, depth, false)), alpha, beta0)
    decreases depth, 0, |p.moves| - i
  {
    if i == |p.moves| {
      assert Min(V, PosInf) == V;
    } else {
      var c := Child(p, i);
      var v := AlphaBeta(c, depth - 1, alpha, beta, true);
      var w := MinimaxValue(c, depth - 1, true);
      AlphaBetaWindow(c, depth - 1, alpha, beta, true);
      MinStepAgrees(beta0, alpha, beta, best, V, v, w);
      var best', V' := Min(best, v), Min(V, w);
      var beta' := Min(beta, v);
      assert BestOf(p, i, depth, false) == Min(w, BestOf(p, i + 1, depth, false));
      MinAssoc(V, w, BestOf(p, i + 1, depth, false));
      if Le(beta', alpha) {
        CutAtFloor(best', V', BestOf(p, i + 1, depth, false), alpha, beta0);
      } else {
        MinLoopWindow(p, i + 1, depth, beta0, alpha, beta', best', V');
      }
    }
  }

  /** Called with the window (-Infinity, +Infinity), as the engine calls it,
      the pruned search returns exactly the plain minimax value. */
  lemma AlphaBetaIsMinimax(p: Position, depth: nat, maximizing: bool)
    ensures AlphaBeta(p, depth, NegInf, PosInf, maximizing) == MinimaxValue(p, depth, maximizing)
  {
    AlphaBetaWindow(p, depth, NegInf, PosInf, maximizing);
    ClampFull(AlphaBeta(p, depth, NegInf, PosInf, maximizing));
    ClampFull(MinimaxValue(p, depth, maximizing));
  }

  // ---------------------------------------------------------------------------
  // Values are finite when every unfinished position within the horizon has a move

  lemma {:induction false} MinimaxFinite(p: Position, depth: nat, maximizing: bool)
    requires HasMoveWithin(p, depth)
    ensures MinimaxValue(p, depth, maximizing).Fin?
    ensures AlphaBeta(p, depth, NegInf, PosInf, maximizing).Fin?
    decreases depth, 1
  {
    AlphaBetaIsMinimax(p, depth, maximizing);
    if depth > 0 && !p.gameOver {
      BestOfFinite(p, 0, depth, maximizing);
    }
  }

  lemma {:induction false} BestOfFinite(p: Position, i: nat, depth: nat, maximizing: bool)
    requires HasMoveWithin(p, depth) && 0 < depth && !p.gameOver && i < |p.moves|
    ensures BestOf(p, i, depth, maximizing).Fin?
    decreases depth, 0, |p.moves| - i
  {
    var k := IndexOf(Sans(p.moves), Sans(p.moves)[i]);
    assert HasMoveWithin(p.moves[k].after, depth - 1);
    MinimaxFinite(Child(p, i), depth - 1, !maximizing);
    if i + 1 < |p.moves| {
      BestOfFinite(p, i + 1, depth, maximizing);
    }
  }

  // ---------------------------------------------------------------------------
  // The engine's `minimax`, running on the shared game object

  /** `minimax(game, depth, alpha, beta, isMaximizingPlayer)`: computes the
      pruned search of the current position and leaves the game exactly as it
      found it, every `move` being matched by an `undo`. */
  method Minimax(game: Game, depth: nat, alpha: Score, beta: Score, isMaximizingPlayer: bool)
    returns (value: Score)
    modifies game
    ensures value == AlphaBeta(old(game.current), depth, alpha, beta, isMaximizingPlayer)
    ensures game.current == old(game.current) && game.history == old(game.history)
    decreases depth, 1
  {
    if depth == 0 || game.IsGameOver() {
      var evaluation := EvaluateBoard(game.BoardNow());
      return Fin(-evaluation);
    }
    if isMaximizingPlayer {
      value := MaximizingPly(game, depth, alpha, beta);
    } else {
      value := MinimizingPly(game, depth, alpha, beta);
    }
  }

  /** The `isMaximizingPlayer` branch of `minimax`: the running maximum over the
      moves, raising alpha, until beta <= alpha. */
  method MaximizingPly(game: Game, depth: nat, alpha: Score, beta: Score) returns (maxEval: Score)
    requires 0 < depth
    modifies game
    ensures maxEval == MaxLoop(old(game.current), 0, depth, alpha, beta, NegInf)
    ensures game.current == old(game.current) && game.history == old(game.history)
    decreases depth, 0
  {
    ghost var p, h := game.current, game.history;
    ghost var target := MaxLoop(p, 0, depth, alpha, beta, NegInf);
    var moves := game.Moves();
    var a := alpha;
    maxEval := NegInf;
    for i := 0 to |moves|
      invariant game.current == p && game.history == h
      invariant target == MaxLoop(p, i, depth, a, beta, maxEval)
    {
      var evalValue := SearchChild(game, p, i, moves[i], depth - 1, a, beta, false);
      maxEval := Max(maxEval, evalValue);
      a := Max(a, evalValue);
      if Le(beta, a) {
        break;
      }
    }
  }

  /** The other branch of `minimax`: the running minimum over the moves,
      lowering beta, until beta <= alpha. */
  method MinimizingPly(game: Game, depth: nat, alpha: Score, beta: Score) returns (minEval: Score)
    requires 0 < depth
    modifies game
    ensures minEval == MinLoop(old(game.current), 0, depth, alpha, beta, PosInf)
    ensures game.current == old(game.current) && game.history == old(game.history)
    decreases depth, 0
  {
    ghost var p, h := game.current, game.history;
    ghost var target := MinLoop(p, 0, depth, alpha, beta, PosInf);
    var moves := game.Moves();
    var b := beta;
    minEval := PosInf;
    for i := 0 to |moves|
      invariant game.current == p && game.history == h
      invariant target == MinLoop(p, i, depth, alpha, b, minEval)
    {
      var evalValue := SearchChild(game, p, i, moves[i], depth - 1, alpha, b, true);
      minEval := Min(minEval, evalValue);
      b := Min(b, evalValue);
      if Le(b, alpha) {
        break;
      }
    }
  }

  /** One pass of a search loop: `game.move(move)`, the recursive call on the
      child with the given window and side, then `game.undo()`. `k` is the
      move's index in `game.moves()`. */
  method SearchChild(game: Game, ghost p: Position, ghost k: nat, move: string, depth: nat,
                     alpha: Score, beta: Score, maximizing: bool)
    returns (value: Score)
    requires game.current == p
    requires k < |p.moves| && move == Sans(p.moves)[k]
    modifies game
    ensures value == AlphaBeta(Child(p, k), depth, alpha, beta, maximizing)
    ensures game.current == p && game.history == old(game.history)
    decreases depth, 2
  {
    game.Move(move);
    value := Minimax(game, depth, alpha, beta, maximizing);
    game.Undo();
  }
}
