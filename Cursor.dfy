/**
 * The cursor of a labelling session (the frame on screen) and how the
 * next/previous keys and the mouse wheel move it. The cursor is bounded by
 * the number of frames loaded so far, refreshed once per pass of the main loop; stepping past
 * either end jumps to the other end instead of wrapping modulo that count.
 */
module Cursor {

  /** Stepping forward by d: past the last loaded frame the cursor goes to 0. */
  function Forward(p: int, d: int, loaded: int): (r: int)
    ensures 0 <= p && 0 <= d && 1 <= loaded ==> 0 <= r < loaded
    ensures r == 0 || r == p + d
  {
    if p + d < loaded then p + d else 0
  }

  /** Stepping backward by d: below 0 the cursor goes to the last loaded frame. */
  function Backward(p: int, d: int, loaded: int): (r: int)
    ensures 0 <= p < loaded && 0 <= d ==> 0 <= r < loaded
    ensures 0 <= p && 0 <= d && 1 <= loaded ==> 0 <= r && (r < loaded || r == p - d)
  {
    if p - d < 0 then loaded - 1 else p - d
  }

  /** Single steps undo each other: one frame forward and one back is the identity. */
  lemma SingleStepsInverse(p: int, loaded: int)
    requires 0 <= p < loaded
    ensures Backward(Forward(p, 1, loaded), 1, loaded) == p
    ensures Forward(Backward(p, 1, loaded), 1, loaded) == p
  {
  }

  /**
   * For a step no longer than the loaded count, stepping forward agrees with
   * stepping modulo the loaded count exactly when it lands at most one past
   * the last loaded frame.
   */
  lemma ForwardModularExactly(p: int, d: int, loaded: int)
    requires 0 <= p < loaded && 1 <= d <= loaded
    ensures Forward(p, d, loaded) == (p + d) % loaded <==> p + d <= loaded
  {
  }

  /**
   * Likewise backward: it agrees with modular stepping exactly when it
   * lands at most one below frame 0.
   */
  lemma BackwardModularExactly(p: int, d: int, loaded: int)
    requires 0 <= p < loaded && 1 <= d <= loaded
    ensures Backward(p, d, loaded) == (p - d) % loaded <==> p - d >= -1
  {
  }

  /** With a big step the forward step is not injective, so not a bijection. */
  lemma BigStepNotBijective()
    ensures Forward(8, 5, 10) == 0 && Forward(9, 5, 10) == 0
    ensures Backward(Forward(8, 5, 10), 5, 10) != 8
  {
  }

  /**
   * The object the mouse callback and the key handlers share: the cursor
   * (it_frames), the loaded count refreshed every pass (n_loaded_frames) and
   * the configured big step.
   */
  class LabelingParameters {
    var itFrames: int
    var nLoadedFrames: int
    const bigStep: int

    constructor (bigStep: int)
      ensures itFrames == 0 && nLoadedFrames == 0 && this.bigStep == bigStep
    {
      itFrames := 0;
      nLoadedFrames := 0;
      this.bigStep := bigStep;
    }

    /** The loader's report of how many frames are available this pass. */
    method Refresh(loaded: int)
      modifies this`nLoadedFrames
      ensures nLoadedFrames == loaded
    {
      nLoadedFrames := loaded;
    }

    /** Keys next_frame (d = 1) and next_frames (d = big step). */
    method StepForward(d: int)
      modifies this`itFrames
      ensures itFrames == Forward(old(itFrames), d, nLoadedFrames)
    {
      itFrames := itFrames + d;
      itFrames := if itFrames < nLoadedFrames then itFrames else 0;
    }

    /** Keys previous_frame (d = 1) and previous_frames (d = big step). */
    method StepBackward(d: int)
      modifies this`itFrames
      ensures itFrames == Backward(old(itFrames), d, nLoadedFrames)
    {
      itFrames := itFrames - d;
      itFrames := if itFrames < 0 then nLoadedFrames - 1 else itFrames;
    }

    /**
     * A mouse-wheel event: a negative wheel delta steps forward, any other
     * steps backward, by the big step when shift is held and by one otherwise.
     */
    method MouseWheel(negative: bool, shift: bool)
      modifies this`itFrames
      ensures var d := if shift then bigStep else 1;
        itFrames == if negative then Forward(old(itFrames), d, nLoadedFrames)
                    else Backward(old(itFrames), d, nLoadedFrames)
    {
      if negative {
        StepForward(if shift then bigStep else 1);
      } else {
        StepBackward(if shift then bigStep else 1);
      }
    }
  }
}
