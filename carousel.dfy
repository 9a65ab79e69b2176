/** The carousel controller as the page runs it: one object whose current
    index the button handlers and the resize callback update in place, and
    whose render routine overwrites what the page shows. Each method is tied
    to the event it handles in the state machine of `CarouselPaging`. */
module CarouselController {
  import opened CarouselLayout
  import opened CarouselPaging

  class Carousel {
    /** Number of reel cards, counted once when the page loads. */
    const totalCards: nat
    /** Whether the page has a carousel track element. */
    const hasTrack: bool
    /** Index of the left-most card in view. */
    var currentIndex: nat
    /** Width of the carousel container, as the page measures it. */
    var containerWidth: int
    /** What the render routine last wrote to the page, if anything. */
    var display: Option<View>

    function Setup(): Config
      reads this
    {
      Config(totalCards, hasTrack)
    }

    /** The abstract state this object represents. */
    function Snapshot(): State
      reads this
    {
      State(currentIndex, containerWidth, display)
    }

    /** The state when the page loads: index 0, nothing rendered yet. */
    constructor (total: nat, trackPresent: bool, width: int)
      ensures totalCards == total && hasTrack == trackPresent
      ensures Snapshot() == Init(width)
    {
      totalCards := total;
      hasTrack := trackPresent;
      currentIndex := 0;
      containerWidth := width;
      display := None;
    }

    /** The render routine; also what the delayed first render runs. */
    method Refresh()
      modifies this`display
      ensures Snapshot() == Step(Setup(), old(Snapshot()), InitTimer)
      ensures hasTrack && totalCards > 0 ==> Shown(Setup(), Snapshot())
      ensures !hasTrack || totalCards == 0 ==> unchanged(this)
    {
      if !hasTrack || totalCards == 0 {
        return;
      }
      var cardsPerView := CardsPerView(containerWidth, totalCards);
      var offset := currentIndex * CardStep;
      var maxIndex := MaxIndex(containerWidth, totalCards);
      var shouldShowButtons := totalCards > cardsPerView;
      display := Some(View(offset, shouldShowButtons, currentIndex == 0, currentIndex >= maxIndex));
    }

    /** A click on the prev button: the page delivers it only while the button
        is shown and enabled, and then the handler runs. */
    method Prev()
      modifies this`currentIndex, this`display
      ensures Snapshot() == Step(Setup(), old(Snapshot()), PrevClick)
      ensures Clickable(old(display), true) && old(currentIndex) > 0 ==> currentIndex == old(currentIndex) - 1
      ensures !Clickable(old(display), true) || old(currentIndex) == 0 ==> unchanged(this)
      ensures old(OnACard(Setup(), Snapshot())) ==> OnACard(Setup(), Snapshot())
      ensures old(Bounded(Setup(), Snapshot())) ==> Bounded(Setup(), Snapshot())
      ensures old(Consistent(Setup(), Snapshot())) ==> Consistent(Setup(), Snapshot())
    {
      if !Clickable(display, true) {
        return;
      }
      if currentIndex > 0 {
        currentIndex := currentIndex - 1;
        Refresh();
      }
    }

    /** A click on the next button: the page delivers it only while the button
        is shown and enabled, and then the handler measures the container again. */
    method Next()
      modifies this`currentIndex, this`display
      ensures Snapshot() == Step(Setup(), old(Snapshot()), NextClick)
      ensures Clickable(old(display), false) && old(currentIndex) < MaxIndex(containerWidth, totalCards) ==>
        currentIndex == old(currentIndex) + 1
      ensures !Clickable(old(display), false) || old(currentIndex) >= MaxIndex(containerWidth, totalCards) ==>
        unchanged(this)
      ensures old(OnACard(Setup(), Snapshot())) ==> OnACard(Setup(), Snapshot())
      ensures old(Bounded(Setup(), Snapshot())) ==> Bounded(Setup(), Snapshot())
      ensures old(Consistent(Setup(), Snapshot())) ==> Consistent(Setup(), Snapshot())
    {
      if !Clickable(display, false) {
        return;
      }
      var cardsPerView := CardsPerView(containerWidth, totalCards);
      var maxIndex := Max(0, totalCards - cardsPerView);
      if currentIndex < maxIndex {
        currentIndex := currentIndex + 1;
        Refresh();
      }
    }

    /** The debounced resize callback, once it fires for a container that is
        now `newWidth` pixels wide: back to the first card, then render. */
    method Resize(newWidth: int)
      modifies this`currentIndex, this`containerWidth, this`display
      ensures Snapshot() == Step(Setup(), old(Snapshot()), ResizeFired(newWidth))
      ensures currentIndex == 0 && containerWidth == newWidth
      ensures Bounded(Setup(), Snapshot()) && OnACard(Setup(), Snapshot())
      ensures hasTrack && totalCards > 0 ==>
        Shown(Setup(), Snapshot()) && display.Some? && display.value.prevDisabled
    {
      containerWidth := newWidth;
      currentIndex := 0;
      Refresh();
    }

    /** Not a handler of the page: the container takes a new width while the
        resize callback is still pending, so nothing changes but the
        measurement the handlers read. */
    method Relayout(newWidth: int)
      modifies this`containerWidth
      ensures Snapshot() == Step(Setup(), old(Snapshot()), WidthChanged(newWidth))
      ensures currentIndex == old(currentIndex) && display == old(display)
      ensures old(OnACard(Setup(), Snapshot())) ==> OnACard(Setup(), Snapshot())
      ensures newWidth <= old(containerWidth) && old(Bounded(Setup(), Snapshot())) ==> Bounded(Setup(), Snapshot())
    {
      if newWidth <= containerWidth && Bounded(Setup(), Snapshot()) {
        ShrinkingKeepsBounded(Setup(), Snapshot(), newWidth);
      }
      containerWidth := newWidth;
    }
  }
}
