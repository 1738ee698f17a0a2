/** The geometry test used to reveal elements already on screen. */
module Viewport {
  import opened Dom

  /** `rect.top <= window.innerHeight * 0.75 && rect.bottom >= 0`: the element's
      top edge is within the upper three quarters of the window and its bottom
      edge has not scrolled past the top. */
  function IsElementInViewport(rect: Rect, innerHeight: real): (inView: bool)
  {
    rect.top <= innerHeight * 0.75 && rect.bottom >= 0.0
  }

  /** On whole-pixel geometry the test is the integer comparison
      `4 * top <= 3 * innerHeight && bottom >= 0`. */
  lemma InViewportOnPixels(top: int, bottom: int, innerHeight: int)
    ensures IsElementInViewport(Rect(top as real, bottom as real), innerHeight as real)
        <==> 4 * top <= 3 * innerHeight && bottom >= 0
  {
  }

  /** Each bound is necessary: an element whose top lies below three quarters
      of the window, or whose bottom lies above the window, is not in view. */
  lemma OutsideEitherBound(rect: Rect, innerHeight: real)
    requires rect.top > innerHeight * 0.75 || rect.bottom < 0.0
    ensures !IsElementInViewport(rect, innerHeight)
  {
  }

  /** Moving an element's top edge up, or its bottom edge down, never takes it
      out of view. */
  lemma InViewportMonotone(r: Rect, s: Rect, innerHeight: real)
    requires IsElementInViewport(r, innerHeight)
    requires s.top <= r.top && s.bottom >= r.bottom
    ensures IsElementInViewport(s, innerHeight)
  {
  }
}
