/** The move list of components/MoveHistory.tsx: the game's SAN history
    grouped into numbered rows of a White move and a Black reply. */
module MoveHistory {

  /** One row of the table: `{ num, white, black }`. */
  datatype MovePair = MovePair(num: nat, white: string, black: string)

  /** Reference grouping: the rows of `history`, numbered from `first`, two
      moves at a time; a lone last move gets an empty reply. */
  function PairsFrom(history: seq<string>, first: nat): seq<MovePair>
    decreases |history|
  {
    if history == [] then []
    else if |history| == 1 then [MovePair(first, history[0], "")]
    else [MovePair(first, history[0], history[1])] + PairsFrom(history[2..], first + 1)
  }

  /** The rows the table shows for `history`, numbered from 1. */
  function Paired(history: seq<string>): seq<MovePair> {
    PairsFrom(history, 1)
  }

  /** Row k, read off the history directly: move 2k, its reply 2k+1 or "". */
  function RowAt(history: seq<string>, k: nat): MovePair
    requires 2 * k < |history|
  {
    MovePair(k + 1, history[2 * k], if 2 * k + 1 < |history| then history[2 * k + 1] else "")
  }

  /** The rows back as a flat list, White then Black, row by row. */
  function Flatten(pairs: seq<MovePair>): (moves: seq<string>)
    ensures |moves| == 2 * |pairs|
  {
    if pairs == [] then [] else [pairs[0].white, pairs[0].black] + Flatten(pairs[1..])
  }

  /** The recursive grouping has ceil(n/2) rows, numbered consecutively from
      `first`, row k holding moves 2k and 2k+1 (or "" past the end). */
  lemma {:induction false} PairsFromShape(history: seq<string>, first: nat)
    ensures |PairsFrom(history, first)| == (|history| + 1) / 2
    ensures forall k :: 0 <= k < |PairsFrom(history, first)| ==>
              PairsFrom(history, first)[k] ==
                MovePair(first + k, history[2 * k],
                         if 2 * k + 1 < |history| then history[2 * k + 1] else "")
    decreases |history|
  {
    if |history| >= 2 {
      var rest := history[2..];
      PairsFromShape(rest, first + 1);
      var r := PairsFrom(history, first);
      forall k | 0 <= k < |r|
        ensures r[k] == MovePair(first + k, history[2 * k],
                                 if 2 * k + 1 < |history| then history[2 * k + 1] else "")
      {
        if k > 0 {
          assert r[k] == PairsFrom(rest, first + 1)[k - 1];
          assert rest[2 * (k - 1)] == history[2 * k];
          if 2 * k + 1 < |history| {
            assert rest[2 * (k - 1) + 1] == history[2 * k + 1];
          }
        }
      }
    }
  }

  /** Every displayed row is row k of the history, for k = 0 .. ceil(n/2)-1. */
  lemma PairedShape(history: seq<string>)
    ensures |Paired(history)| == (|history| + 1) / 2
    ensures forall k :: 0 <= k < |Paired(history)| ==> Paired(history)[k] == RowAt(history, k)
  {
    PairsFromShape(history, 1);
  }

  /** Reading the rows back gives the history, padded with one "" when the
      last move has no reply yet. */
  lemma {:induction false} FlattenPairsFrom(history: seq<string>, first: nat)
    ensures Flatten(PairsFrom(history, first)) ==
              if |history| % 2 == 0 then history else history + [""]
    decreases |history|
  {
    if |history| >= 2 {
      FlattenPairsFrom(history[2..], first + 1);
      assert history == [history[0], history[1]] + history[2..];
    }
  }

  /** The table loses no move and invents none but the trailing blank. */
  lemma FlattenPaired(history: seq<string>)
    ensures |Flatten(Paired(history))| == |history| + |history| % 2
    ensures Flatten(Paired(history))[..|history|] == history
    ensures |history| % 2 == 1 ==> Flatten(Paired(history))[|history|] == ""
  {
    FlattenPairsFrom(history, 1);
  }

  /** With nonempty SAN texts, a row has an empty Black cell exactly when it
      is the last row and the history has odd length (White to reply). */
  lemma EmptyBlackOnlyLast(history: seq<string>, k: nat)
    requires forall i :: 0 <= i < |history| ==> history[i] != ""
    requires k < |Paired(history)|
    ensures Paired(history)[k].black == "" <==>
              k == |Paired(history)| - 1 && |history| % 2 == 1
  {
    PairedShape(history);
  }

  /** The grouping loop: for i = 0, 2, 4, ... push row i/2. */
  method MovePairs(history: seq<string>) returns (movePairs: seq<MovePair>)
    ensures movePairs == Paired(history)
  {
    movePairs := [];
    var i := 0;
    while i < |history|
      invariant i % 2 == 0 && i <= |history| + 1
      invariant |movePairs| == i / 2
      invariant forall k :: 0 <= k < i / 2 ==> 2 * k < |history| && movePairs[k] == RowAt(history, k)
    {
      var black := if i + 1 < |history| then history[i + 1] else "";
      movePairs := movePairs + [MovePair(i / 2 + 1, history[i], black)];
      i := i + 2;
    }
    PairedShape(history);
  }
}
