/**
 * Paging cursor for the layer API (`getDataLayer`). It behaves as the code
 * API's cursor with the chunk index fixed at 0, which is what the stall error
 * reports.
 */
module LayerPager {
  import opened Text
  import CodePager

  class LayerPagerState {
    var startPosition: int

    constructor (startPosition: int := 1)
      ensures this.startPosition == startPosition
    {
      this.startPosition := startPosition;
    }
  }

  /** Moves the cursor to `nextPosition` when that is further on. */
  method AdvanceLayerPosition(state: LayerPagerState, nextPosition: Option<int>) returns (r: CodePager.Advance)
    modifies state
    ensures r == CodePager.Decide(0, old(state.startPosition), nextPosition)
    ensures state.startPosition == CodePager.NextStart(old(state.startPosition), nextPosition)
  {
    if nextPosition.None? {
      return CodePager.Finished;
    }
    if nextPosition.value <= state.startPosition {
      return CodePager.Stalled(0, state.startPosition, nextPosition.value);
    }
    state.startPosition := nextPosition.value;
    return CodePager.Advanced;
  }
}
