/** The root driver `getBestMove` of services/chessEngine.ts: the difficulty
    policy, the random novice pick and the root loop over the shuffled moves. */
module Engine {
  import opened Scores
  import opened Evaluation
  import opened GameTree
  import opened Search

  datatype Difficulty = Novice | Expert | Grandmaster

  /** `Math.floor(Math.random() * moves.length)` for a draw `random` in [0, 1). */
  function RandomIndex(random: real, n: nat): (k: nat)
    requires 0.0 <= random < 1.0 && 0 < n
    ensures k < n
    ensures k as real <= random * n as real < k as real + 1.0
  {
    ScaledDrawInRange(random, n as real);
    FloorInRange(random * n as real, n);
    (random * n as real).Floor
  }

  /** The floor of a real in [0, n) is an index below n. */
  lemma FloorInRange(x: real, n: nat)
    requires 0.0 <= x < n as real
    ensures 0 <= x.Floor < n
    ensures x.Floor as real <= x < x.Floor as real + 1.0
  {
  }

  /** A draw in [0, 1) scaled by a positive x lies in [0, x). */
  lemma ScaledDrawInRange(random: real, x: real)
    requires 0.0 <= random < 1.0 && 0.0 < x
    ensures 0.0 <= random * x < x
  {
    assert x - random * x == (1.0 - random) * x;
  }

  /** The search depth of a searching tier: 2 for expert, 3 for grandmaster. */
  function SearchDepth(d: Difficulty): (depth: nat)
    requires d != Novice
    ensures d == Expert ==> depth == 2
    ensures d == Grandmaster ==> depth == 3
  {
    if d == Grandmaster then 3 else 2
  }

  /** `order` lists the indices 0 .. n-1, each once. */
  predicate IsPermutation(order: seq<nat>, n: nat) {
    |order| == n &&
    (forall k :: 0 <= k < n ==> order[k] < n) &&
    (forall j, k :: 0 <= j < k < n ==> order[j] != order[k])
  }

  /** The move list after the random sort: entry k is the move at index order[k]. */
  function Shuffled(moves: seq<string>, order: seq<nat>): (r: seq<string>)
    requires forall k :: 0 <= k < |order| ==> order[k] < |moves|
    ensures |r| == |order|
    ensures forall k :: 0 <= k < |order| ==> r[k] == moves[order[k]]
  {
    if order == [] then [] else [moves[order[0]]] + Shuffled(moves, order[1..])
  }

  /** The plain minimax value the engine sees for each root move, in the
      shuffled order: Black has moved, White replies as the minimising side. */
  function RootValues(root: Position, order: seq<nat>, depth: nat): (values: seq<Score>)
    requires 0 < depth
    requires forall k :: 0 <= k < |order| ==> order[k] < |root.moves|
    ensures |values| == |order|
    ensures forall k :: 0 <= k < |order| ==> values[k] == MinimaxValue(Child(root, order[k]), depth - 1, false)
  {
    if order == [] then []
    else [MinimaxValue(Child(root, order[0]), depth - 1, false)] + RootValues(root, order[1..], depth)
  }

  // ---------------------------------------------------------------------------
  // The selection rule

  /** The root loop from move i on: a move replaces the best so far only when
      its value is strictly greater. */
  function SelectLoop(moves: seq<string>, values: seq<Score>, i: nat, bestMove: string, bestValue: Score): (r: string)
    requires |values| == |moves| && i <= |moves|
    ensures r == bestMove || r in moves[i..]
    decreases |moves| - i
  {
    if i == |moves| then bestMove
    else if Lt(bestValue, values[i]) then SelectLoop(moves, values, i + 1, moves[i], values[i])
    else SelectLoop(moves, values, i + 1, bestMove, bestValue)
  }

  /** `bestMove || moves[0]` after the root loop. */
  function Chosen(moves: seq<string>, values: seq<Score>): (r: string)
    requires |values| == |moves| && 0 < |moves|
    ensures r in moves
  {
    var best := SelectLoop(moves, values, 0, "", NegInf);
    if best != "" then best else moves[0]
  }

  /** The first index holding the greatest value. */
  function FirstBest(values: seq<Score>): (k: nat)
    requires 0 < |values|
    ensures k < |values|
    ensures forall i :: 0 <= i < |values| ==> Le(values[i], values[k])
    ensures forall i :: 0 <= i < k ==> Lt(values[i], values[k])
  {
    if |values| == 1 then 0
    else
      var k := FirstBest(values[..|values| - 1]);
      assert forall i :: 0 <= i < |values| - 1 ==> values[..|values| - 1][i] == values[i];
      if Lt(values[k], values[|values| - 1]) then |values| - 1 else k
  }

  /** The first greatest value is one index only. */
  lemma FirstBestUnique(values: seq<Score>, k: nat)
    requires k < |values|
    requires forall i :: 0 <= i < |values| ==> Le(values[i], values[k])
    requires forall i :: 0 <= i < k ==> Lt(values[i], values[k])
    ensures k == FirstBest(values)
  {
  }

  /** The state of the root loop after i moves: either nothing has beaten
      -Infinity yet, or the best move is the first of the greatest so far. */
  lemma {:induction false} SelectLoopFirstBest(moves: seq<string>, values: seq<Score>, i: nat,
                                              bestMove: string, bestValue: Score, k: int)
    requires |values| == |moves| && i <= |moves| && -1 <= k < i
    requires forall j :: 0 <= j < |moves| ==> moves[j] != ""
    requires k == -1 ==> bestMove == "" && bestValue == NegInf
                         && forall j :: 0 <= j < i ==> values[j] == NegInf
    requires 0 <= k ==> bestMove == moves[k] && bestValue == values[k] && bestValue != NegInf
                        && (forall j :: 0 <= j < i ==> Le(values[j], bestValue))
                        && (forall j :: 0 <= j < k ==> Lt(values[j], bestValue))
    ensures var r := SelectLoop(moves, values, i, bestMove, bestValue);
            (r == "" ==> forall j :: 0 <= j < |values| ==> values[j] == NegInf) &&
            (r != "" ==> r == moves[FirstBest(values)])
    decreases |moves| - i
  {
    if i == |moves| {
      if 0 <= k {
        FirstBestUnique(values, k);
      }
    } else if Lt(bestValue, values[i]) {
      forall j | 0 <= j < i
        ensures Lt(values[j], values[i])
      {
        if k == -1 {
        } else {
          LeTotal(values[j], bestValue);
        }
      }
      SelectLoopFirstBest(moves, values, i + 1, moves[i], values[i], i);
    } else {
      LeTotal(bestValue, values[i]);
      SelectLoopFirstBest(moves, values, i + 1, bestMove, bestValue, k);
    }
  }

  /** With nonempty move texts (as SAN texts are), the engine plays the first
      move in the shuffled order whose value is the greatest. */
  lemma ChosenIsFirstBest(moves: seq<string>, values: seq<Score>)
    requires |values| == |moves| && 0 < |moves|
    requires forall j :: 0 <= j < |moves| ==> moves[j] != ""
    ensures Chosen(moves, values) == moves[FirstBest(values)]
  {
    SelectLoopFirstBest(moves, values, 0, "", NegInf, -1);
    if SelectLoop(moves, values, 0, "", NegInf) == "" {
      FirstBestUnique(values, 0);
    }
  }

  // ---------------------------------------------------------------------------
  // getBestMove

  /** `getBestMove(fen, validMoves, difficulty)` on the position the FEN
      describes. `random` is the draw of `Math.random()` for the novice pick and
      `order` is the permutation the random sort applies to the moves. The ghost
      `searches` counts the root moves handed to `minimax`. */
  method GetBestMove(root: Position, difficulty: Difficulty, random: real, order: seq<nat>)
    returns (move: string, ghost searches: nat)
    requires 0.0 <= random < 1.0
    requires IsPermutation(order, |root.moves|)
    ensures root.moves == [] ==> move == "" && searches == 0
    ensures root.moves != [] ==> move in Sans(root.moves)
    ensures root.moves != [] && difficulty == Novice ==>
              move == Sans(root.moves)[RandomIndex(random, |root.moves|)] && searches == 0
    ensures root.moves != [] && difficulty != Novice ==>
              move == Chosen(Shuffled(Sans(root.moves), order), RootValues(root, order, SearchDepth(difficulty)))
    ensures root.moves != [] && difficulty != Novice ==>
              searches == |root.moves|
  {
    var game := new Game(root);
    var moves := game.Moves();
    searches := 0;
    if |moves| == 0 {
      return "", searches;
    }
    if difficulty == Novice {
      var randomMove := moves[RandomIndex(random, |moves|)];
      return randomMove, searches;
    }
    var depth := 2;
    if difficulty == Grandmaster {
      depth := 3;
    }
    moves := Shuffled(moves, order);
    var bestMove;
    bestMove, searches := SearchRoot(game, order, moves, depth);
    move := if bestMove != "" then bestMove else moves[0];
    assert depth == SearchDepth(difficulty);
    assert move == Chosen(moves, RootValues(root, order, depth));
  }

  /** With nonempty SAN texts, `getBestMove` at expert or grandmaster plays the
      first move, in the shuffled order, whose minimax value is the greatest. */
  lemma BestMoveIsFirstBest(root: Position, difficulty: Difficulty, order: seq<nat>)
    requires difficulty != Novice && root.moves != []
    requires IsPermutation(order, |root.moves|)
    requires forall i :: 0 <= i < |root.moves| ==> root.moves[i].san != ""
    ensures var values := RootValues(root, order, SearchDepth(difficulty));
            Chosen(Shuffled(Sans(root.moves), order), values)
              == Sans(root.moves)[order[FirstBest(values)]]
  {
    ChosenIsFirstBest(Shuffled(Sans(root.moves), order), RootValues(root, order, SearchDepth(difficulty)));
  }

  /** The root loop of `getBestMove`: every move is played, searched with
      `minimax(depth - 1, -Infinity, +Infinity, false)` and undone; a move is
      kept when its value strictly beats the best so far. */
  method SearchRoot(game: Game, ghost order: seq<nat>, moves: seq<string>, depth: nat)
    returns (bestMove: string, ghost searches: nat)
    requires 0 < depth
    requires forall k :: 0 <= k < |order| ==> order[k] < |game.current.moves|
    requires moves == Shuffled(Sans(game.current.moves), order)
    modifies game
    ensures bestMove == SelectLoop(moves, RootValues(old(game.current), order, depth), 0, "", NegInf)
    ensures searches == |moves|
    ensures game.current == old(game.current) && game.history == old(game.history)
  {
    ghost var root, h := game.current, game.history;
    ghost var values := RootValues(root, order, depth);
    bestMove := "";
    var bestValue := NegInf;
    var alpha := NegInf;
    var beta := PosInf;
    searches := 0;
    for i := 0 to |moves|
      invariant game.current == root && game.history == h
      invariant SelectLoop(moves, values, 0, "", NegInf) == SelectLoop(moves, values, i, bestMove, bestValue)
      invariant searches == i
    {
      var move := moves[i];
      var boardValue := SearchMove(game, root, order, i, move, depth, alpha, beta);
      searches := searches + 1;
      if Lt(bestValue, boardValue) {
        bestValue := boardValue;
        bestMove := move;
      }
    }
  }

  /** One pass of the root loop: play the move, search the reply with the full
      window and take the move back. `i` is the move's place in the shuffled list. */
  method SearchMove(game: Game, ghost root: Position, ghost order: seq<nat>, ghost i: nat,
                    move: string, depth: nat, alpha: Score, beta: Score)
    returns (boardValue: Score)
    requires game.current == root && 0 < depth
    requires forall k :: 0 <= k < |order| ==> order[k] < |root.moves|
    requires i < |order| && move == Sans(root.moves)[order[i]]
    requires alpha == NegInf && beta == PosInf
    modifies game
    ensures boardValue == RootValues(root, order, depth)[i]
    ensures game.current == root && game.history == old(game.history)
  {
    boardValue := SearchChild(game, root, order[i], move, depth - 1, alpha, beta, false);
    AlphaBetaIsMinimax(Child(root, order[i]), depth - 1, false);
  }
}
