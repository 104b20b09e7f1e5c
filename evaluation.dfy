/** The static evaluator `evaluateBoard` of services/chessEngine.ts: material
    plus piece-square bonuses, summed from White's point of view. */
module Evaluation {

  datatype Option<T> = None | Some(value: T)

  datatype Kind = Pawn | Knight | Bishop | Rook | Queen | King
  datatype Colour = White | Black
  datatype Piece = Piece(kind: Kind, colour: Colour)

  /** What `game.board()` returns, flattened: row i, column j of the 8x8 grid
      is the cell at index i * 8 + j (services/chessEngine.ts:65-69). */
  type Board = b: seq<Option<Piece>> | |b| == 64 witness EmptyBoard()

  function EmptyBoard(): seq<Option<Piece>> {
    seq(64, _ => None)
  }

  /** PIECE_VALUES. */
  function PieceValue(k: Kind): (v: int)
    ensures 100 <= v <= 20000
    ensures v == 100 <==> k == Pawn
    ensures v == 20000 <==> k == King
  {
    match k
    case Pawn => 100
    case Knight => 320
    case Bishop => 330
    case Rook => 500
    case Queen => 900
    case King => 20000
  }

  const PawnPst: seq<int> :=
    [0,   0,   0,   0,   0,   0,   0,   0] +
    [50,  50,  50,  50,  50,  50,  50,  50] +
    [10,  10,  20,  30,  30,  20,  10,  10] +
    [5,   5,  10,  25,  25,  10,   5,   5] +
    [0,   0,   0,  20,  20,   0,   0,   0] +
    [5,  -5, -10,   0,   0, -10,  -5,   5] +
    [5,  10,  10, -20, -20,  10,  10,   5] +
    [0,   0,   0,   0,   0,   0,   0,   0]

  const KnightPst: seq<int> :=
    [-50, -40, -30, -30, -30, -30, -40, -50] +
    [-40, -20,   0,   0,   0,   0, -20, -40] +
    [-30,   0,  10,  15,  15,  10,   0, -30] +
    [-30,   5,  15,  20,  20,  15,   5, -30] +
    [-30,   0,  15,  20,  20,  15,   0, -30] +
    [-30,   5,  10,  15,  15,  10,   5, -30] +
    [-40, -20,   0,   5,   5,   0, -20, -40] +
    [-50, -40, -30, -30, -30, -30, -40, -50]

  const BishopPst: seq<int> :=
    [-20, -10, -10, -10, -10, -10, -10, -20] +
    [-10,   0,   0,   0,   0,   0,   0, -10] +
    [-10,   0,   5,  10,  10,   5,   0, -10] +
    [-10,   5,   5,  10,  10,   5,   5, -10] +
    [-10,   0,  10,  10,  10,  10,   0, -10] +
    [-10,  10,  10,  10,  10,  10,  10, -10] +
    [-10,   5,   0,   0,   0,   0,   5, -10] +
    [-20, -10, -10, -10, -10, -10, -10, -20]

  const MirrorSquare: seq<nat> :=
    [56, 57, 58, 59, 60, 61, 62, 63] +
    [48, 49, 50, 51, 52, 53, 54, 55] +
    [40, 41, 42, 43, 44, 45, 46, 47] +
    [32, 33, 34, 35, 36, 37, 38, 39] +
    [24, 25, 26, 27, 28, 29, 30, 31] +
    [16, 17, 18, 19, 20, 21, 22, 23] +
    [8,  9, 10, 11, 12, 13, 14, 15] +
    [0,  1,  2,  3,  4,  5,  6,  7]

  // ---------------------------------------------------------------------------
  // MIRROR_SQUARE flips the rank and keeps the file

  /** MIRROR_SQUARE[r * 8 + f] == (7 - r) * 8 + f on every square. */
  lemma MirrorSquareAt(r: nat, f: nat)
    requires r < 8 && f < 8
    ensures MirrorSquare[r * 8 + f] == (7 - r) * 8 + f
  {
    if r < 2 {
      MirrorSquareRows01(r, f);
    } else if r < 4 {
      MirrorSquareRows23(r, f);
    } else if r < 6 {
      MirrorSquareRows45(r, f);
    } else {
      MirrorSquareRows67(r, f);
    }
  }

  lemma MirrorSquareRows01(r: nat, f: nat)
    requires 0 <= r <= 1 && f < 8
    ensures MirrorSquare[r * 8 + f] == (7 - r) * 8 + f
  {
    if r == 0 {
      assert MirrorSquare[0 * 8 + f] == 7 * 8 + f;
    } else {
      assert MirrorSquare[1 * 8 + f] == 6 * 8 + f;
    }
  }

  lemma MirrorSquareRows23(r: nat, f: nat)
    requires 2 <= r <= 3 && f < 8
    ensures MirrorSquare[r * 8 + f] == (7 - r) * 8 + f
  {
    if r == 2 {
      assert MirrorSquare[2 * 8 + f] == 5 * 8 + f;
    } else {
      assert MirrorSquare[3 * 8 + f] == 4 * 8 + f;
    }
  }

  lemma MirrorSquareRows45(r: nat, f: nat)
    requires 4 <= r <= 5 && f < 8
    ensures MirrorSquare[r * 8 + f] == (7 - r) * 8 + f
  {
    if r == 4 {
      assert MirrorSquare[4 * 8 + f] == 3 * 8 + f;
    } else {
      assert MirrorSquare[5 * 8 + f] == 2 * 8 + f;
    }
  }

  lemma MirrorSquareRows67(r: nat, f: nat)
    requires 6 <= r <= 7 && f < 8
    ensures MirrorSquare[r * 8 + f] == (7 - r) * 8 + f
  {
    if r == 6 {
      assert MirrorSquare[6 * 8 + f] == 1 * 8 + f;
    } else {
      assert MirrorSquare[7 * 8 + f] == 0 * 8 + f;
    }
  }

  /** The square a black piece reads its table at: same file, rank flipped. */
  function Mirror(sq: nat): (m: nat)
    requires sq < 64
    ensures m == (7 - sq / 8) * 8 + sq % 8
    ensures m < 64 && m / 8 == 7 - sq / 8 && m % 8 == sq % 8
  {
    MirrorSquareAt(sq / 8, sq % 8);
    MirrorSquare[sq]
  }

  /** The square of rank r and file f mirrors to rank 7 - r, file f. */
  lemma MirrorOf(r: nat, f: nat)
    requires r < 8 && f < 8
    ensures Mirror(r * 8 + f) == (7 - r) * 8 + f
  {
    assert (r * 8 + f) / 8 == r && (r * 8 + f) % 8 == f;
  }

  /** Mirroring twice gives the square back. */
  lemma MirrorInvolution(sq: nat)
    requires sq < 64
    ensures Mirror(Mirror(sq)) == sq
  {
  }

  /** MIRROR_SQUARE is a permutation of 0..63: no two squares share an image,
      and every square is the image of one. */
  lemma MirrorPermutation(s: nat, t: nat)
    requires s < 64 && t < 64
    ensures Mirror(s) == Mirror(t) ==> s == t
    ensures Mirror(Mirror(t)) == t
  {
    MirrorInvolution(s);
    MirrorInvolution(t);
  }

  // ---------------------------------------------------------------------------
  // Scoring one square

  /** `pstIndex`: White reads its own square, Black the mirrored one. */
  function PstIndex(sq: nat, c: Colour): (idx: nat)
    requires sq < 64
    ensures idx < 64
  {
    if c == White then sq else Mirror(sq)
  }

  /** `positionBonus`: only pawns, knights and bishops have tables. */
  function PositionBonus(k: Kind, idx: nat): (bonus: int)
    requires idx < 64
    ensures -50 <= bonus <= 50
    ensures k !in {Pawn, Knight, Bishop} ==> bonus == 0
  {
    TableBounds(idx);
    match k
    case Pawn => PawnPst[idx]
    case Knight => KnightPst[idx]
    case Bishop => BishopPst[idx]
    case _ => 0
  }

  /** Every table entry lies in [-50, 50]. */
  lemma TableBounds(idx: nat)
    requires idx < 64
    ensures -50 <= PawnPst[idx] <= 50 && -50 <= KnightPst[idx] <= 50 && -50 <= BishopPst[idx] <= 50
  {
    PawnBounds(idx);
    KnightBounds(idx);
    BishopBounds(idx);
  }
  /** PAWN_PST entries lie in [-50, 50]. */
  lemma PawnBounds(idx: nat)
    requires idx < 64
    ensures -50 <= PawnPst[idx] <= 50
  {
  }
  /** KNIGHT_PST entries lie in [-50, 50]. */
  lemma KnightBounds(idx: nat)
    requires idx < 64
    ensures -50 <= KnightPst[idx] <= 50
  {
  }
  /** BISHOP_PST entries lie in [-50, 50]. */
  lemma BishopBounds(idx: nat)
    requires idx < 64
    ensures -50 <= BishopPst[idx] <= 50
  {
  }

  /** Material plus bonus of a piece of colour c standing on square sq. */
  function Worth(p: Piece, sq: nat): int
    requires sq < 64
  {
    PieceValue(p.kind) + PositionBonus(p.kind, PstIndex(sq, p.colour))
  }

  /** What one cell adds to `totalEvaluation`. */
  function SquareScore(sq: nat, cell: Option<Piece>): int
    requires sq < 64
  {
    match cell
    case None => 0
    case Some(p) => if p.colour == White then Worth(p, sq) else -Worth(p, sq)
  }

  /** The first j cells of row i. */
  function RowSum(b: Board, i: nat, j: nat): int
    requires i < 8 && j <= 8
  {
    if j == 0 then 0 else RowSum(b, i, j - 1) + SquareScore(i * 8 + j - 1, b[i * 8 + j - 1])
  }

  /** The first i rows. */
  function RowsSum(b: Board, i: nat): int
    requires i <= 8
  {
    if i == 0 then 0 else RowsSum(b, i - 1) + RowSum(b, i - 1, 8)
  }

  /** One more cell of row i adds that cell's score. */
  lemma RowSumStep(b: Board, i: nat, j: nat)
    requires i < 8 && j < 8
    ensures RowSum(b, i, j + 1) == RowSum(b, i, j) + SquareScore(i * 8 + j, b[i * 8 + j])
  {
  }

  /** Each table has one entry per square. */
  lemma TableSizes()
    ensures |PawnPst| == 64 && |KnightPst| == 64 && |BishopPst| == 64 && |MirrorSquare| == 64
  {
  }

  /** The evaluation: the whole board scanned row by row. */
  function Evaluate(b: Board): int {
    RowsSum(b, 8)
  }

  /** `evaluateBoard`: the nested scan of services/chessEngine.ts:60-94. */
  method EvaluateBoard(board: Board) returns (totalEvaluation: int)
    ensures totalEvaluation == Evaluate(board)
  {
    totalEvaluation := 0;
    for i := 0 to 8
      invariant totalEvaluation == RowsSum(board, i)
    {
      for j := 0 to 8
        invariant totalEvaluation == RowsSum(board, i) + RowSum(board, i, j)
      {
        var piece := board[i * 8 + j];
        RowSumStep(board, i, j);
        if piece.Some? {
          var signedValue := PieceScore(piece.value, i * 8 + j);
          totalEvaluation := totalEvaluation + signedValue;
        }
      }
      assert RowsSum(board, i + 1) == RowsSum(board, i) + RowSum(board, i, 8);
    }
  }

  /** The body of the scan for an occupied square: material plus the bonus read
      at `pstIndex`, added for White and subtracted for Black. */
  method PieceScore(piece: Piece, squareIndex: nat) returns (signedValue: int)
    requires squareIndex < 64
    ensures signedValue == SquareScore(squareIndex, Some(piece))
  {
    TableSizes();
    var value := PieceValue(piece.kind);
    var positionBonus := 0;
    var isWhite := piece.colour == White;
    var pstIndex := if isWhite then squareIndex else MirrorSquare[squareIndex];
    assert pstIndex == PstIndex(squareIndex, piece.colour);
    match piece.kind {
      case Pawn => positionBonus := PawnPst[pstIndex];
      case Knight => positionBonus := KnightPst[pstIndex];
      case Bishop => positionBonus := BishopPst[pstIndex];
      case _ => positionBonus := 0;
    }
    var absoluteValue := value + positionBonus;
    signedValue := if isWhite then absoluteValue else -absoluteValue;
  }

  // ---------------------------------------------------------------------------
  // The evaluation as White's total minus Black's total

  /** Material plus bonus of the pieces of colour c on squares 0 .. n-1. */
  function SideTotal(b: Board, c: Colour, n: nat): int
    requires n <= 64
  {
    if n == 0 then 0
    else SideTotal(b, c, n - 1) + match b[n - 1]
      case Some(p) => if p.colour == c then Worth(p, n - 1) else 0
      case None => 0
  }

  /** One more square changes the side totals by that square's score. */
  lemma SideTotalStep(b: Board, sq: nat)
    requires sq < 64
    ensures SideTotal(b, White, sq + 1) - SideTotal(b, Black, sq + 1)
         == SideTotal(b, White, sq) - SideTotal(b, Black, sq) + SquareScore(sq, b[sq])
  {
  }

  lemma {:induction false} RowSumAsSides(b: Board, i: nat, j: nat)
    requires i < 8 && j <= 8
    ensures RowsSum(b, i) + RowSum(b, i, j)
         == SideTotal(b, White, i * 8 + j) - SideTotal(b, Black, i * 8 + j)
    decreases i, j
  {
    if j == 0 {
      if i > 0 {
        RowSumAsSides(b, i - 1, 8);
        assert (i - 1) * 8 + 8 == i * 8 + j;
      }
    } else {
      RowSumAsSides(b, i, j - 1);
      RowSumStep(b, i, j - 1);
      SideTotalStep(b, i * 8 + j - 1);
    }
  }

  /** The evaluation is the sum of +(value + bonus) over White's pieces and
      -(value + bonus) over Black's. */
  lemma EvaluateIsWhiteMinusBlack(b: Board)
    ensures Evaluate(b) == SideTotal(b, White, 64) - SideTotal(b, Black, 64)
  {
    RowSumAsSides(b, 7, 8);
  }

  /** A piece always counts for its own side: no bonus outweighs even a pawn,
      so a white piece raises the evaluation and a black piece lowers it. */
  lemma PieceCountsForOwner(p: Piece, sq: nat)
    requires sq < 64
    ensures Worth(p, sq) >= 50
    ensures SquareScore(sq, Some(p)) > 0 <==> p.colour == White
  {
  }

  /** Rooks, queens and kings score material only. */
  lemma NoBonusWithoutTable(p: Piece, sq: nat)
    requires sq < 64 && p.kind in {Rook, Queen, King}
    ensures Worth(p, sq) == PieceValue(p.kind)
  {
  }

  lemma {:induction false} SideTotalEmpty(c: Colour, n: nat)
    requires n <= 64
    ensures SideTotal(EmptyBoard(), c, n) == 0
  {
    if n > 0 {
      SideTotalEmpty(c, n - 1);
    }
  }

  /** An empty board scores 0. */
  lemma EvaluateEmpty()
    ensures Evaluate(EmptyBoard()) == 0
  {
    EvaluateIsWhiteMinusBlack(EmptyBoard());
    SideTotalEmpty(White, 64);
    SideTotalEmpty(Black, 64);
  }

  // ---------------------------------------------------------------------------
  // Colour symmetry

  function SwapColour(cell: Option<Piece>): Option<Piece> {
    match cell
    case None => None
    case Some(p) => Some(Piece(p.kind, if p.colour == White then Black else White))
  }

  /** Every piece changes colour and moves to the mirror of its square. */
  function ColourFlipped(b: Board): (r: Board)
    ensures forall sq :: 0 <= sq < 64 ==> r[sq] == SwapColour(b[Mirror(sq)])
  {
    seq(64, sq requires 0 <= sq < 64 => SwapColour(b[Mirror(sq)]))
  }

  lemma SquareScoreFlipped(b: Board, sq: nat)
    requires sq < 64
    ensures SquareScore(sq, ColourFlipped(b)[sq]) == -SquareScore(Mirror(sq), b[Mirror(sq)])
  {
    MirrorInvolution(sq);
  }

  lemma {:induction false} RowSumFlipped(b: Board, i: nat, j: nat)
    requires i < 8 && j <= 8
    ensures RowSum(ColourFlipped(b), i, j) == -RowSum(b, 7 - i, j)
  {
    if j > 0 {
      RowSumFlipped(b, i, j - 1);
      RowSumStep(ColourFlipped(b), i, j - 1);
      RowSumStep(b, 7 - i, j - 1);
      MirrorOf(i, j - 1);
      SquareScoreFlipped(b, i * 8 + j - 1);
    }
  }

  lemma {:induction false} RowsSumFlipped(b: Board, i: nat)
    requires i <= 8
    ensures RowsSum(ColourFlipped(b), i) == RowsSum(b, 8 - i) - RowsSum(b, 8)
  {
    if i > 0 {
      RowsSumFlipped(b, i - 1);
      RowSumFlipped(b, i - 1, 8);
      assert RowsSum(b, 9 - i) == RowsSum(b, 8 - i) + RowSum(b, 8 - i, 8);
    }
  }

  /** Swapping every piece's colour and mirroring its square negates the evaluation. */
  lemma EvaluateColourFlipped(b: Board)
    ensures Evaluate(ColourFlipped(b)) == -Evaluate(b)
  {
    RowsSumFlipped(b, 8);
  }

  /** A position that is its own colour-flipped image (the initial position,
      for one) evaluates to 0. */
  lemma SymmetricBoardIsLevel(b: Board)
    requires ColourFlipped(b) == b
    ensures Evaluate(b) == 0
  {
    EvaluateColourFlipped(b);
  }
}
