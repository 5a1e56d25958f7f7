/** Client-side walks through the widget, using only the contracts of
    SlidezyWidget: stepping, clamping, the loop snap, the busy flag, the paging
    dots and autoplay. */
module SlidezyScenarios {
  import opened SlideMath
  import opened SlidezyWidget

  function WithItems(items: int, loop: bool): Options {
    Defaults().(items := items, loop := loop)
  }

  /** items = 1, no loop, 5 slides: four steps forward reach index 4, a fifth is clamped. */
  method ClampAtLastSlide() {
    var w := new Slidezy([10, 20, 30, 40, 50], WithItems(1, false), 1);
    assert w.currentIndex == 0;
    w.MoveSlide(1); w.Settle();
    w.MoveSlide(1); w.Settle();
    w.MoveSlide(1); w.Settle();
    w.MoveSlide(1); w.Settle();
    assert w.currentIndex == 4;
    w.MoveSlide(1); w.Settle();
    assert w.currentIndex == 4;
  }

  /** items = 1, loop, 3 slides (a track of 5): one step back lands on the head
      clone at 0, and the correction snaps it to 3. */
  method SnapFromHeadClone() {
    var w := new Slidezy([10, 20, 30], WithItems(1, true), 1);
    assert w.currentIndex == 1 && |w.slides| == 5;
    w.MoveSlide(-1);
    assert w.currentIndex == 0;
    w.Settle();
    assert w.currentIndex == 3 && !w.inAnimation;
  }

  /** items = 2, loop, 6 slides: six page-sized steps, each followed by its
      correction, come back to the starting index. */
  method LoopComesBack() {
    var w := new Slidezy([1, 2, 3, 4, 5, 6], WithItems(2, true), 1);
    assert w.currentIndex == 2 && |w.slides| == 10;
    w.MoveSlide(2); w.Settle();
    w.MoveSlide(2); w.Settle();
    w.MoveSlide(2); w.Settle();
    assert w.currentIndex == 2;
    w.MoveSlide(2); w.Settle();
    w.MoveSlide(2); w.Settle();
    w.MoveSlide(2); w.Settle();
    assert w.currentIndex == 2;
  }

  /** A second move before the correction has run changes nothing. */
  method BusyFlagGuards() {
    var w := new Slidezy([10, 20, 30], WithItems(1, false), 1);
    w.MoveSlide(1);
    assert w.currentIndex == 1;
    w.MoveSlide(1);
    assert w.currentIndex == 1 && w.inAnimation;
    w.Settle();
    w.MoveSlide(1);
    assert w.currentIndex == 2;
  }

  /** A second click on next, before the correction has run, is ignored. */
  method SecondClickIgnored() {
    var w := new Slidezy([10, 20, 30], WithItems(1, false), 1);
    w.ClickNext();
    w.ClickNext();
    assert w.currentIndex == 1 && w.inAnimation;
  }

  /** Once the correction has run, prev moves back. */
  method PrevAfterSettle() {
    var w := new Slidezy([10, 20, 30], WithItems(1, false), 1);
    w.ClickNext();
    w.Settle();
    w.ClickPrev();
    assert w.currentIndex == 0;
  }

  /** An autoplay firing during a move is ignored as well. */
  method TickDuringMoveIgnored() {
    var w := new Slidezy([10, 20, 30], Defaults().(autoPlay := true), 7);
    w.Tick();
    w.Tick();
    assert w.currentIndex == 1;
    w.Settle();
    w.Tick();
    assert w.currentIndex == 2;
  }

  /** items = 3, 9 slides: three dots, and a click on dot `i` activates dot `i`. */
  method DotsFollowClicks(i: int)
    requires 0 <= i < 3
  {
    var w := new Slidezy([1, 2, 3, 4, 5, 6, 7, 8, 9], WithItems(3, true), 1);
    assert w.pageCount == 3 by {
      DivModUnique(-9, 3, -3, 0);
    }
    w.ClickDot(i);
    assert w.dots[i] && forall j :: 0 <= j < 3 && j != i ==> !w.dots[j];
    w.OneActiveDot();
  }

  /** Starting autoplay twice keeps the first interval. */
  method AutoplayStartsOnce() {
    var w := new Slidezy([10, 20], Defaults().(autoPlay := true), 7);
    assert w.autoPlayTimer == Some(7);
    w.StartAutoPlay(8);
    assert w.autoPlayTimer == Some(7);
    w.MouseEnter();
    assert w.autoPlayTimer == None;
    w.MouseLeave(9);
    assert w.autoPlayTimer == Some(9);
  }
}
