/** The move list of chess-board/src/components/MoveHistory.tsx: the SAN
    history paired into numbered rows (white's move, black's reply), and the
    rule that decides whether the list keeps following new moves. */
module MoveHistory {
  import opened Wrappers

  /** One row of the list: `[moves[i], moves[i + 1]]`, the second entry
      `undefined` past the end of the history. */
  datatype Row = Row(first: string, second: Option<string>)

  /** The row starting at index `i`. */
  function RowAt(moves: seq<string>, i: nat): Row
    requires i < |moves|
  {
    Row(moves[i], if i + 1 < |moves| then Some(moves[i + 1]) else None)
  }

  /** The rows of a history, as a reference definition by recursion. */
  function Chunks(moves: seq<string>): seq<Row>
    decreases |moves|
  {
    if moves == [] then []
    else if |moves| == 1 then [Row(moves[0], None)]
    else [Row(moves[0], Some(moves[1]))] + Chunks(moves[2..])
  }

  /** What remains of the history from index `i` on (nothing past its end). */
  function From(moves: seq<string>, i: nat): seq<string> {
    if i < |moves| then moves[i..] else []
  }

  lemma ChunksStep(moves: seq<string>, i: nat)
    requires i < |moves|
    ensures Chunks(From(moves, i)) == [RowAt(moves, i)] + Chunks(From(moves, i + 2))
  {
    var rest := moves[i..];
    if i + 1 < |moves| {
      assert rest[2..] == From(moves, i + 2);
    }
  }

  /** `chunkMoves`: a loop over the history two moves at a time, pushing one
      row per step. */
  method ChunkMoves(moves: seq<string>) returns (chunks: seq<Row>)
    ensures chunks == Chunks(moves)
  {
    chunks := [];
    var i := 0;
    assert From(moves, 0) == moves;
    while i < |moves|
      invariant i % 2 == 0 && i <= |moves| + 1
      invariant chunks + Chunks(From(moves, i)) == Chunks(moves)
      decreases |moves| - i
    {
      ChunksStep(moves, i);
      chunks := chunks + [RowAt(moves, i)];
      i := i + 2;
    }
  }

  // ---------------------------------------------------------------------
  // Properties of the pairing.

  /** A history of n moves has ceil(n / 2) rows; an empty one has none. */
  lemma {:induction false} ChunkCount(moves: seq<string>)
    ensures |Chunks(moves)| == (|moves| + 1) / 2
    decreases |moves|
  {
    if |moves| >= 2 {
      ChunkCount(moves[2..]);
    }
  }

  /** Row k holds moves 2k and, when there is one, 2k + 1. */
  lemma {:induction false} ChunkRow(moves: seq<string>, k: nat)
    requires k < |Chunks(moves)|
    ensures 2 * k < |moves| && Chunks(moves)[k] == RowAt(moves, 2 * k)
    decreases |moves|
  {
    ChunkCount(moves);
    if k > 0 {
      ChunkCount(moves[2..]);
      ChunkRow(moves[2..], k - 1);
    }
  }

  /** Only the last row of an odd-length history lacks its second entry. */
  lemma MissingSecond(moves: seq<string>, k: nat)
    requires k < |Chunks(moves)|
    ensures Chunks(moves)[k].second.None? <==> (|moves| % 2 == 1 && k == |Chunks(moves)| - 1)
  {
    ChunkRow(moves, k);
    ChunkCount(moves);
    LastOfOdd(|moves|, k);
  }

  /** Index 2k + 1 is the end of a history of n > 2k moves exactly when n is
      odd and k is its last row. */
  lemma LastOfOdd(n: nat, k: nat)
    requires 2 * k < n
    ensures n == 2 * k + 1 <==> (n % 2 == 1 && k == (n + 1) / 2 - 1)
  {
    var q, r := n / 2, n % 2;
    assert n == 2 * q + r && r < 2;
    assert (n + 1) / 2 == q + r;
  }

  /** The entries of the rows, in order, the missing ones skipped. */
  function Flatten(rows: seq<Row>): seq<string> {
    if rows == [] then []
    else
      [rows[0].first] + (if rows[0].second.Some? then [rows[0].second.value] else []) + Flatten(rows[1..])
  }

  /** Reading the rows back gives the history. */
  lemma {:induction false} FlattenChunks(moves: seq<string>)
    ensures Flatten(Chunks(moves)) == moves
    decreases |moves|
  {
    if |moves| >= 2 {
      FlattenChunks(moves[2..]);
      var rows := Chunks(moves);
      assert rows[1..] == Chunks(moves[2..]);
      assert moves == [moves[0]] + [moves[1]] + moves[2..];
    } else if |moves| == 1 {
      assert Chunks(moves)[1..] == [];
    }
  }

  /** Appending a move either completes the last row or opens a new one;
      earlier rows stay as they were. */
  lemma {:induction false} ChunksAppend(moves: seq<string>, m: string)
    ensures |moves| % 2 == 0 ==> Chunks(moves + [m]) == Chunks(moves) + [Row(m, None)]
    ensures |moves| % 2 == 1 ==>
      Chunks(moves + [m]) == Chunks(moves)[..|Chunks(moves)| - 1] + [Row(moves[|moves| - 1], Some(m))]
    decreases |moves|
  {
    if |moves| >= 2 {
      ChunksAppend(moves[2..], m);
      assert (moves + [m])[2..] == moves[2..] + [m];
      if |moves| % 2 == 1 {
        ChunkCount(moves[2..]);
        assert moves[2..][|moves[2..]| - 1] == moves[|moves| - 1];
      }
    }
  }

  /** The row's label and its two cells: `idx + 1`, `pair[0] || ""` and
      `pair[1] || ""`. */
  datatype RowText = RowText(number: nat, white: string, black: string)

  function Cell(entry: Option<string>): string {
    match entry
    case None => ""
    case Some(s) => s
  }

  function RowTexts(rows: seq<Row>): seq<RowText> {
    seq(|rows|, idx requires 0 <= idx < |rows| => RowText(idx + 1, rows[idx].first, Cell(rows[idx].second)))
  }

  /** The list numbers the rows 1, 2, ...: move k of the history (from 0)
      is shown in row k / 2 + 1, in the white cell when k is even and in the
      black cell otherwise; after an odd-length history the black cell of
      the last row is empty. */
  lemma MoveShown(moves: seq<string>, k: nat)
    requires k < |moves|
    ensures |RowTexts(Chunks(moves))| == (|moves| + 1) / 2
    ensures RowTexts(Chunks(moves))[k / 2].number == k / 2 + 1
    ensures k % 2 == 0 ==> RowTexts(Chunks(moves))[k / 2].white == moves[k]
    ensures k % 2 == 1 ==> RowTexts(Chunks(moves))[k / 2].black == moves[k]
    ensures |moves| % 2 == 1 ==> RowTexts(Chunks(moves))[|moves| / 2].black == ""
  {
    ChunkCount(moves);
    ChunkRow(moves, k / 2);
    if |moves| % 2 == 1 {
      MissingSecond(moves, |moves| / 2);
    }
  }

  // ---------------------------------------------------------------------
  // Following new moves.

  /** The scroll metrics of the list, in whole pixels. */
  datatype ScrollMetrics = ScrollMetrics(scrollHeight: int, scrollTop: int, clientHeight: int)

  /** `scrollHeight - scrollTop - clientHeight < 5`. */
  predicate IsAtBottom(m: ScrollMetrics) {
    m.scrollHeight - m.scrollTop - m.clientHeight < 5
  }

  /** The list's auto-scroll flag, on at first. */
  class ScrollTracker {
    var isAutoScroll: bool

    constructor()
      ensures isAutoScroll
    {
      isAutoScroll := true;
    }

    /** `handleScroll`: without a list element nothing changes; otherwise the
        flag says whether the view is within 5 pixels of the bottom. */
    method HandleScroll(element: Option<ScrollMetrics>)
      modifies this
      ensures isAutoScroll == if element.None? then old(isAutoScroll) else IsAtBottom(element.value)
    {
      if element.Some? {
        isAutoScroll := IsAtBottom(element.value);
      }
    }
  }

  /** Where the browser clamps a scroll position: between 0 and the height
      that shows the bottom of the content. */
  function Clamp(top: int, m: ScrollMetrics): int {
    var bottom := if m.scrollHeight > m.clientHeight then m.scrollHeight - m.clientHeight else 0;
    if top < 0 then 0 else if top > bottom then bottom else top
  }

  /** After the auto-scroll effect has set `scrollTop` to `scrollHeight` (and
      the browser has clamped it), the next scroll event keeps following:
      the view is at the bottom. */
  lemma FollowingStays(m: ScrollMetrics)
    requires m.clientHeight >= 0
    ensures IsAtBottom(ScrollMetrics(m.scrollHeight, Clamp(m.scrollHeight, m), m.clientHeight))
  {
  }
}
