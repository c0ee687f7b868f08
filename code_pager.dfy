/**
 * Paging cursor for the code API (`getDataCode`): one cursor per chunk of
 * codes, moved forward to each page's NEXTPOSITION and stopped with a stall
 * error when the server reports a position that does not move forward.
 */
module CodePager {
  import opened Text

  /** Outcome of one advance: keep paging, finished, or the stall error's fields. */
  datatype Advance =
    | Advanced
    | Finished
    | Stalled(chunkIndex: int, start: int, next: int)

  /** The decision `advance_code_position` takes for a cursor at `start`. */
  function Decide(chunkIndex: int, start: int, next: Option<int>): (r: Advance)
    ensures r == Finished <==> next.None?
    ensures r.Advanced? <==> next.Some? && next.value > start
    ensures r.Stalled? <==> next.Some? && next.value <= start
    ensures r.Stalled? ==> r == Stalled(chunkIndex, start, next.value)
  {
    match next
    case None => Finished
    case Some(n) => if n <= start then Stalled(chunkIndex, start, n) else Advanced
  }

  /** The cursor position after `Decide`: moved only when it advanced. */
  function NextStart(start: int, next: Option<int>): (r: int)
    ensures r >= start
    ensures r != start <==> Decide(0, start, next).Advanced?
  {
    if next.Some? && next.value > start then next.value else start
  }

  class CodePagerState {
    var chunkIndex: int
    var startPosition: int

    constructor (chunkIndex: int, startPosition: int := 1)
      ensures this.chunkIndex == chunkIndex && this.startPosition == startPosition
    {
      this.chunkIndex := chunkIndex;
      this.startPosition := startPosition;
    }
  }

  /** Moves the cursor to `nextPosition` when that is further on. */
  method AdvanceCodePosition(state: CodePagerState, nextPosition: Option<int>) returns (r: Advance)
    modifies state
    ensures r == Decide(state.chunkIndex, old(state.startPosition), nextPosition)
    ensures state.chunkIndex == old(state.chunkIndex)
    ensures state.startPosition == NextStart(old(state.startPosition), nextPosition)
  {
    if nextPosition.None? {
      return Finished;
    }
    if nextPosition.value <= state.startPosition {
      return Stalled(state.chunkIndex, state.startPosition, nextPosition.value);
    }
    state.startPosition := nextPosition.value;
    return Advanced;
  }

  /**
   * The cursor positions a pager visits when fed the NEXTPOSITION values
   * `nexts` one page at a time, up to the first finish or stall.
   */
  function Walk(start: int, nexts: seq<Option<int>>): (w: seq<int>)
    ensures |w| >= 1 && w[0] == start
    ensures |w| <= |nexts| + 1
    decreases |nexts|
  {
    if |nexts| == 0 || !Decide(0, start, nexts[0]).Advanced? then [start]
    else [start] + Walk(nexts[0].value, nexts[1..])
  }

  /** Along any run of successful advances the cursor strictly increases. */
  lemma {:induction false} WalkStrictlyIncreases(start: int, nexts: seq<Option<int>>)
    ensures forall i, j :: 0 <= i < j < |Walk(start, nexts)| ==> Walk(start, nexts)[i] < Walk(start, nexts)[j]
    decreases |nexts|
  {
    var w := Walk(start, nexts);
    if |w| > 1 {
      var rest := Walk(nexts[0].value, nexts[1..]);
      WalkStrictlyIncreases(nexts[0].value, nexts[1..]);
      assert w == [start] + rest;
      forall i, j | 0 <= i < j < |w| ensures w[i] < w[j] {
        if i == 0 {
          assert w[j] == rest[j - 1];
          assert rest[0] > start;
          if j > 1 {
            assert rest[0] < rest[j - 1];
          }
        } else {
          assert w[i] == rest[i - 1] && w[j] == rest[j - 1];
        }
      }
    }
  }

  /** Every position the cursor moves to is the NEXTPOSITION the server reported on the page before. */
  lemma {:induction false} WalkPositionsReported(start: int, nexts: seq<Option<int>>)
    ensures forall i :: 1 <= i < |Walk(start, nexts)| ==> nexts[i - 1] == Some(Walk(start, nexts)[i])
    decreases |nexts|
  {
    var w := Walk(start, nexts);
    if |w| > 1 {
      WalkPositionsReported(nexts[0].value, nexts[1..]);
      var rest := Walk(nexts[0].value, nexts[1..]);
      assert w == [start] + rest;
      forall i | 1 <= i < |w| ensures nexts[i - 1] == Some(w[i]) {
        if i > 1 {
          assert nexts[i - 1] == nexts[1..][i - 2];
        }
      }
    }
  }
}
