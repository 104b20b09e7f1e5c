/** The rules oracle (chess.js) as the search sees it: a finite game tree
    whose nodes carry a board, a game-over flag and the legal moves in the
    order `game.moves()` lists them, and a `Game` object that walks the tree
    with `move` and `undo`. */
module GameTree {
  import opened Evaluation

  datatype Position = Position(board: Board, gameOver: bool, moves: seq<Ply>)

  /** A legal move: its SAN text and the position it leads to. */
  datatype Ply = Ply(san: string, after: Position)

  /** `game.moves()`: the SAN texts of the legal moves, in order. */
  function Sans(plies: seq<Ply>): (sans: seq<string>)
    ensures |sans| == |plies|
    ensures forall i :: 0 <= i < |plies| ==> sans[i] == plies[i].san
  {
    if plies == [] then [] else [plies[0].san] + Sans(plies[1..])
  }

  /** Index of the first move whose SAN is `san`. */
  function IndexOf(sans: seq<string>, san: string): (k: nat)
    requires san in sans
    ensures k < |sans| && sans[k] == san
    ensures forall j :: 0 <= j < k ==> sans[j] != san
  {
    if sans[0] == san then 0 else 1 + IndexOf(sans[1..], san)
  }

  /** The position `game.move(san)` leads to: the first legal move with that text. */
  function Play(p: Position, san: string): Position
    requires san in Sans(p.moves)
  {
    p.moves[IndexOf(Sans(p.moves), san)].after
  }

  /** When the SAN texts of a position's moves are distinct (as chess.js's are),
      playing the i-th text reaches the i-th child. */
  lemma PlayDistinct(p: Position, i: nat)
    requires i < |p.moves|
    requires forall j, k :: 0 <= j < k < |p.moves| ==> p.moves[j].san != p.moves[k].san
    ensures Play(p, Sans(p.moves)[i]) == p.moves[i].after
  {
  }

  /** What chess.js guarantees, up to `depth` plies ahead: a position that is
      not over has a legal move. Positions past the horizon are not constrained. */
  ghost predicate HasMoveWithin(p: Position, depth: nat) {
    depth == 0 || p.gameOver ||
    (|p.moves| > 0 && forall i :: 0 <= i < |p.moves| ==> HasMoveWithin(p.moves[i].after, depth - 1))
  }

  /** The chess.js instance of the engine: the current position and the stack
      of positions that `undo` returns to. */
  class Game {
    var current: Position
    var history: seq<Position>

    /** `new Chess(fen)` for the position the FEN describes. */
    constructor (start: Position)
      ensures current == start && history == []
    {
      current := start;
      history := [];
    }

    /** `game.moves()` */
    function Moves(): seq<string>
      reads this
    {
      Sans(current.moves)
    }

    /** `game.isGameOver()` */
    function IsGameOver(): bool
      reads this
    {
      current.gameOver
    }

    /** `game.board()` */
    function BoardNow(): Board
      reads this
    {
      current.board
    }

    /** `game.move(san)`: push the current position and step to the move's child. */
    method Move(san: string)
      requires san in Moves()
      modifies this
      ensures current == Play(old(current), san)
      ensures history == old(history) + [old(current)]
    {
      history := history + [current];
      current := Play(current, san);
    }

    /** `game.undo()`: pop the last position; nothing happens when no move was made. */
    method Undo()
      modifies this
      ensures old(history) == [] ==> current == old(current) && history == []
      ensures old(history) != [] ==>
                current == old(history)[|old(history)| - 1] &&
                history == old(history)[..|old(history)| - 1]
    {
      if history != [] {
        current := history[|history| - 1];
        history := history[..|history| - 1];
      }
    }
  }
}
