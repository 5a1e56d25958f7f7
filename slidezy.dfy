/** The Slidezy widget: one object per container, holding the (clone-padded)
    slides, the current index, the busy flag of a running move, the autoplay
    timer handle and the paging dots. The browser's timers are explicit: the
    deferred correction that `moveSlide` schedules runs when the host calls
    `Settle`, and an autoplay interval fires when it calls `Tick`. */
module SlidezyWidget {
  import opened SlideMath

  /** The track's CSS transition: 'none' for an instant render, otherwise
      `transform <speed>ms ease`. */
  datatype Transition = NoTransition | Ease(ms: int)

  class Slidezy<T> {
    const otp: Options
    /** The container's children as found at construction. */
    ghost var originals: seq<T>

    var slides: seq<T>
    /** The track element's children, in order. */
    var track: seq<T>
    var currentIndex: int
    var inAnimation: bool
    var autoPlayTimer: Option<nat>
    /** The step the prev/next buttons move by; `None` when no buttons are wired. */
    var controlStep: Option<int>
    var slidesCount: int
    var pageCount: int
    /** One entry per paging dot: whether it carries the `active` class. */
    var dots: seq<bool>
    var transition: Transition
    var offset: real

    /** The object invariant. */
    ghost predicate Valid()
      reads this
    {
      && Shape()
      && 0 <= currentIndex < |slides|
      && (otp.loop ==> currentIndex <= |slides| - otp.items)
      && dots == ActiveDots(pageCount, if otp.nav then CurrentPage() else 0)
    }

    /** The part of the invariant that construction sets up and navigation
        never touches: the padded slides, the track, the counts and the
        button step. */
    ghost predicate Shape()
      reads this`originals, this`slides, this`track, this`slidesCount, this`pageCount, this`controlStep
    {
      && 1 <= otp.items <= |originals|
      && slides == Padded(originals, otp.items, otp.loop)
      && |slides| == |originals| + (if otp.loop then 2 * otp.items else 0)
      && track == slides
      && slidesCount == |originals|
      && pageCount == PageCount(|originals|, otp.items) >= 1
      && controlStep == (if otp.controls then Some(SlideSize(otp.slideBy, otp.items)) else None)
    }

    /** `_getSlideCount`. */
    function GetSlideCount(): int
      reads this`slides
    {
      SlideCount(|slides|, otp.items, otp.loop)
    }

    /** The page `_updateNav` marks for the current index. */
    function CurrentPage(): int
      reads this`slides, this`currentIndex
      requires 1 <= otp.items && (otp.loop ==> |slides| != 2 * otp.items)
    {
      PageIndex(RealIndex(currentIndex, otp.items, |slides| - otp.items * 2, otp.loop), otp.items)
    }

    /** Construction: the index starts on the first real slide, the track is
        padded, the controls, the dots and autoplay are set up, and one render
        follows. The source does not check `1 <= items <= number of slides`;
        outside that range its arithmetic is meaningless. */
    constructor (original: seq<T>, options: Options, timerHandle: nat)
      requires 1 <= options.items <= |original|
      ensures Valid()
      ensures otp == options && originals == original
      ensures currentIndex == (if options.loop then options.items else 0)
      ensures !inAnimation
      ensures autoPlayTimer == (if options.autoPlay then Some(timerHandle) else None)
      ensures transition == Ease(options.speed) && offset == Offset(currentIndex, options.items)
      ensures dots == ActiveDots(pageCount, 0)
    {
      otp := options;
      originals := original;
      slides := original;
      currentIndex := if options.loop then options.items else 0;
      inAnimation := false;
      autoPlayTimer, controlStep := None, None;
      track, dots := [], [];
      slidesCount, pageCount := 0, 0;
      transition, offset := NoTransition, 0.0;
      new;
      CreateTrack();
      PaddedShape(original, otp.items, otp.loop);
      if otp.controls {
        CreateControl();
      }
      CreateNav();
      PageBelowCount(0, |original|, otp.items);
      if otp.autoPlay {
        StartAutoPlay(timerHandle);
      }
      UpdatePosition(false);
      assert CurrentPage() == 0 by {
        if otp.loop {
          DivModUnique(|original|, |original|, 1, 0);
        }
      }
    }

    /** `_startAutoPlay`: arms the interval unless one is already armed. */
    method StartAutoPlay(handle: nat)
      modifies this`autoPlayTimer
      ensures old(autoPlayTimer).Some? ==> autoPlayTimer == old(autoPlayTimer)
      ensures old(autoPlayTimer).None? ==> autoPlayTimer == Some(handle)
    {
      if autoPlayTimer.Some? {
        return;
      }
      autoPlayTimer := Some(handle);
    }

    /** `_stopAutoPlay`: clears the interval, whether or not one is armed. */
    method StopAutoPlay()
      modifies this`autoPlayTimer
      ensures autoPlayTimer == None
    {
      autoPlayTimer := None;
    }

    /** The container's `mouseenter` handler, installed only with autoplay and hover pause. */
    method MouseEnter()
      modifies this`autoPlayTimer
      ensures otp.autoPlay && otp.autoPlayHoverPause ==> autoPlayTimer == None
      ensures !(otp.autoPlay && otp.autoPlayHoverPause) ==> autoPlayTimer == old(autoPlayTimer)
    {
      if otp.autoPlay && otp.autoPlayHoverPause {
        StopAutoPlay();
      }
    }

    /** The container's `mouseleave` handler; `handle` is the id the host's timer would return. */
    method MouseLeave(handle: nat)
      modifies this`autoPlayTimer
      ensures otp.autoPlay && otp.autoPlayHoverPause && old(autoPlayTimer).None?
        ==> autoPlayTimer == Some(handle)
      ensures !(otp.autoPlay && otp.autoPlayHoverPause && old(autoPlayTimer).None?)
        ==> autoPlayTimer == old(autoPlayTimer)
    {
      if otp.autoPlay && otp.autoPlayHoverPause {
        StartAutoPlay(handle);
      }
    }

    /** `_createTrack`: pads the slides with clones when looping and appends
        every slide to the track in order. */
    method CreateTrack()
      requires 1 <= otp.items
      modifies this`slides, this`track
      ensures slides == Padded(old(slides), otp.items, otp.loop)
      ensures track == slides
    {
      if otp.loop {
        var cloneHead := SliceFromEnd(slides, otp.items);
        var cloneTail := SliceHead(slides, otp.items);
        slides := cloneHead + (slides + cloneTail);
      }
      var all := slides;
      track := [];
      for j := 0 to |all|
        invariant slides == all && track == all[..j]
      {
        track := track + [all[j]];
      }
      assert all[..|all|] == all;
    }

    /** `_createControl`: both buttons move by `slideSize`. */
    method CreateControl()
      modifies this`controlStep
      ensures controlStep == Some(SlideSize(otp.slideBy, otp.items))
    {
      controlStep := Some(SlideSize(otp.slideBy, otp.items));
    }

    /** `_createNav`: one dot per page, the first one active. */
    method CreateNav()
      requires 1 <= otp.items && GetSlideCount() >= 0
      modifies this`slidesCount, this`pageCount, this`dots
      ensures slidesCount == GetSlideCount()
      ensures pageCount == PageCount(slidesCount, otp.items) >= 0
      ensures dots == ActiveDots(pageCount, 0)
    {
      dots := [];
      slidesCount := GetSlideCount();
      pageCount := PageCount(slidesCount, otp.items);
      for i := 0 to pageCount
        invariant slidesCount == GetSlideCount() && pageCount == PageCount(slidesCount, otp.items)
        invariant dots == ActiveDots(i, 0)
      {
        assert ActiveDots(i + 1, 0) == ActiveDots(i, 0) + [i == 0];
        dots := dots + [i == 0];
      }
    }

    /** `_updateNav`: marks exactly the dot of the current page. */
    method UpdateNav()
      requires 1 <= otp.items && (otp.loop ==> |slides| != 2 * otp.items)
      modifies this`dots
      ensures dots == ActiveDots(|old(dots)|, CurrentPage())
    {
      var realIndex := currentIndex;
      if otp.loop {
        var slideCount := |slides| - otp.items * 2;
        realIndex := JsRem(currentIndex - otp.items + slideCount, slideCount);
      }
      var pageIndex := PageIndex(realIndex, otp.items);
      for index := 0 to |dots|
        invariant |dots| == |old(dots)|
        invariant forall j :: 0 <= j < index ==> dots[j] == (j == pageIndex)
      {
        dots := dots[index := index == pageIndex];
      }
    }

    /** `_updatePosition(instant)`: sets the transition and the offset, and
        syncs the dots only on an animated render with nav enabled. */
    method UpdatePosition(instant: bool)
      requires 1 <= otp.items && (otp.loop ==> |slides| != 2 * otp.items)
      modifies this`transition, this`offset, this`dots
      ensures transition == (if instant then NoTransition else Ease(otp.speed))
      ensures offset == Offset(currentIndex, otp.items)
      ensures instant || !otp.nav ==> dots == old(dots)
      ensures !instant && otp.nav ==> dots == ActiveDots(|old(dots)|, CurrentPage())
    {
      transition := if instant then NoTransition else Ease(otp.speed);
      offset := Offset(currentIndex, otp.items);
      if otp.nav && !instant {
        UpdateNav();
      }
    }

    /** `moveSlide(step)`: ignored while a move is in flight; otherwise sets the
        busy flag, clamps the new index to the track, schedules the correction
        and renders with animation. */
    method MoveSlide(step: int)
      requires Valid()
      modifies this`inAnimation, this`currentIndex
      modifies this`transition, this`offset, this`dots
      ensures Valid()
      ensures old(inAnimation) ==> unchanged(this)
      ensures !old(inAnimation) ==> && inAnimation
                                    && currentIndex == Stepped(old(currentIndex), step, |slides|, otp.items)
                                    && 0 <= currentIndex <= |slides| - otp.items
                                    && transition == Ease(otp.speed)
                                    && offset == Offset(currentIndex, otp.items)
    {
      if inAnimation {
        return;
      }
      inAnimation := true;
      var maxIndex := |slides| - otp.items;
      currentIndex := Min(Max(currentIndex + step, 0), maxIndex);
      // the deferred correction is now pending: see Settle
      UpdatePosition(false);
    }

    /** The host's timer queue: runs the deferred callback of `moveSlide`
        once `speed` ms have passed. Only `MoveSlide` schedules it, right after
        setting the busy flag, and only the callback clears the flag, so a
        callback is pending exactly while `inAnimation` holds. */
    method Settle()
      requires Valid()
      modifies this`inAnimation, this`currentIndex, this`transition, this`offset, this`dots
      ensures Valid()
      ensures !old(inAnimation) ==> unchanged(this)
      ensures old(inAnimation) ==> && !inAnimation && dots == old(dots)
                                   && currentIndex == Corrected(old(currentIndex), otp.items, |originals|, otp.loop)
      ensures old(inAnimation) ==>
                if currentIndex == old(currentIndex) then transition == old(transition) && offset == old(offset)
                else transition == NoTransition && offset == Offset(currentIndex, otp.items)
    {
      if inAnimation {
        CorrectionCallback();
      }
    }

    /** The deferred callback of `moveSlide`: the loop correction when
        looping, then the busy flag is cleared. */
    method CorrectionCallback()
      requires Valid() && inAnimation
      modifies this`inAnimation, this`currentIndex, this`transition, this`offset, this`dots
      ensures Valid()
      ensures !inAnimation && dots == old(dots)
      ensures currentIndex == Corrected(old(currentIndex), otp.items, |originals|, otp.loop)
      ensures if currentIndex == old(currentIndex) then transition == old(transition) && offset == old(offset)
              else transition == NoTransition && offset == Offset(currentIndex, otp.items)
    {
      if otp.loop {
        LoopCorrection();
      }
      inAnimation := false;
    }

    /** The looping branch of the callback: an index in the head clones moves
        forward by the real slide count, one past the real window moves back by
        it, each with an instant render; the slides in view, and so the active
        dot, stay the same. */
    method LoopCorrection()
      requires Valid() && otp.loop
      modifies this`currentIndex, this`transition, this`offset, this`dots
      ensures Valid()
      ensures dots == old(dots)
      ensures currentIndex == Corrected(old(currentIndex), otp.items, |originals|, true)
      ensures if currentIndex == old(currentIndex) then transition == old(transition) && offset == old(offset)
              else transition == NoTransition && offset == Offset(currentIndex, otp.items)
    {
      var slideCount := GetSlideCount();
      CorrectionRange(currentIndex, otp.items, slideCount, true);
      CorrectionKeepsPage(currentIndex, otp.items, slideCount, true);
      ghost var page := CurrentPage();
      if currentIndex < otp.items {
        currentIndex := currentIndex + slideCount;
        UpdatePosition(true);
      } else if currentIndex > slideCount {
        currentIndex := currentIndex - slideCount;
        UpdatePosition(true);
      }
      assert CurrentPage() == page;
    }

    /** A click on dot `i`: jumps to the page's first slide without consulting
        the busy flag and without clamping, then renders with animation. */
    method ClickDot(i: int)
      requires Valid() && 0 <= i < pageCount
      modifies this`currentIndex, this`transition, this`offset, this`dots
      ensures Valid()
      ensures currentIndex == DotTarget(i, otp.items, otp.loop)
      ensures otp.nav ==> dots == ActiveDots(pageCount, i)
      ensures transition == Ease(otp.speed) && offset == Offset(currentIndex, otp.items)
    {
      DotRoundTrip(i, otp.items, |originals|, otp.loop);
      currentIndex := if otp.loop then i * otp.items + otp.items else i * otp.items;
      UpdatePosition(false);
    }

    /** A click on the prev button. */
    method ClickPrev()
      requires Valid() && controlStep.Some?
      modifies this`inAnimation, this`currentIndex
      modifies this`transition, this`offset, this`dots
      ensures Valid()
      ensures old(inAnimation) ==> unchanged(this)
      ensures !old(inAnimation) ==>
        && inAnimation
        && currentIndex == Stepped(old(currentIndex), -SlideSize(otp.slideBy, otp.items), |slides|, otp.items)
        && transition == Ease(otp.speed)
        && offset == Offset(currentIndex, otp.items)
    {
      MoveSlide(-controlStep.value);
    }

    /** A click on the next button. */
    method ClickNext()
      requires Valid() && controlStep.Some?
      modifies this`inAnimation, this`currentIndex
      modifies this`transition, this`offset, this`dots
      ensures Valid()
      ensures old(inAnimation) ==> unchanged(this)
      ensures !old(inAnimation) ==>
        && inAnimation
        && currentIndex == Stepped(old(currentIndex), SlideSize(otp.slideBy, otp.items), |slides|, otp.items)
        && transition == Ease(otp.speed)
        && offset == Offset(currentIndex, otp.items)
    {
      MoveSlide(controlStep.value);
    }

    /** One firing of the autoplay interval: `moveSlide(slideBy)` while it is
        armed. The interval passes the raw option, so it must be a number. */
    method Tick()
      requires Valid() && otp.slideBy.Slides?
      modifies this`inAnimation, this`currentIndex
      modifies this`transition, this`offset, this`dots
      ensures Valid()
      ensures autoPlayTimer.None? || old(inAnimation) ==> unchanged(this)
      ensures autoPlayTimer.Some? && !old(inAnimation) ==>
        && inAnimation
        && currentIndex == Stepped(old(currentIndex), otp.slideBy.count, |slides|, otp.items)
        && transition == Ease(otp.speed)
        && offset == Offset(currentIndex, otp.items)
    {
      if autoPlayTimer.Some? {
        MoveSlide(otp.slideBy.count);
      }
    }

    /** `_getSlideCount` recovers the number of original slides. */
    lemma SlideCountIsReal()
      requires Valid()
      ensures GetSlideCount() == |originals| == slidesCount
    {
    }

    /** Exactly one paging dot is active at every observable state. */
    lemma OneActiveDot()
      requires Valid()
      ensures ActiveCount(dots) == 1
    {
      NavPageInRange(currentIndex, otp.items, |originals|, otp.loop);
      ExactlyOneActive(pageCount, if otp.nav then CurrentPage() else 0);
    }

    /** With nav enabled, the active dot is the page of the current index. */
    lemma ActiveDotIsCurrentPage()
      requires Valid() && otp.nav
      ensures 0 <= CurrentPage() < pageCount
      ensures forall j :: 0 <= j < |dots| ==> (dots[j] <==> j == CurrentPage())
    {
      NavPageInRange(currentIndex, otp.items, |originals|, otp.loop);
    }
  }
}
