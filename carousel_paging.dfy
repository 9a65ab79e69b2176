/** The carousel's paging controller as a state machine over its one integer
    of state, the current index, driven by the page's events: clicks on the
    two buttons, the debounced resize callback, the first render after load,
    and changes of the container's width that the callback has not yet seen. */
module CarouselPaging {
  import opened CarouselLayout

  /** What is fixed when the page loads: the number of reel cards and whether
      the carousel track element exists. */
  datatype Config = Config(totalCards: nat, hasTrack: bool)

  /** The index of the left-most card in view, the container's current width,
      and what the last render wrote (`None` before the first render). */
  datatype State = State(index: nat, width: int, display: Option<View>)

  datatype Event =
    | PrevClick
    | NextClick
    | ResizeFired(newWidth: int)    // the debounced resize callback runs
    | WidthChanged(newWidth: int)   // the container is resized; no callback yet
    | InitTimer                     // the delayed first render runs

  /** The state just after the page loads: index 0, nothing rendered yet. */
  function Init(width: int): State
  {
    State(0, width, None)
  }

  /** What the render routine would write for state `s`. */
  function ViewOf(cfg: Config, s: State): Option<View>
  {
    Render(s.index, s.width, cfg.totalCards, cfg.hasTrack)
  }

  /** The render routine: writes the current view when there is something to
      render, and leaves the page as it was otherwise. */
  function Redraw(cfg: Config, s: State): (r: State)
    ensures r.index == s.index && r.width == s.width
    ensures ViewOf(cfg, s).Some? ==> r.display == ViewOf(cfg, s)
    ensures ViewOf(cfg, s).None? ==> r == s
  {
    match ViewOf(cfg, s)
    case None => s
    case Some(v) => s.(display := Some(v))
  }

  /** The page delivers a click to a button's handler: before the first render
      the button is in its initial state, visible and enabled; after it, the
      button must be shown and not disabled (`prev` picks the prev button). */
  predicate Clickable(d: Option<View>, prev: bool)
  {
    d.None? || (d.value.showButtons && !(if prev then d.value.prevDisabled else d.value.nextDisabled))
  }

  /** One event. A click reaches its handler only if the page shows that
      button enabled, and re-renders only when it moves the index. */
  function Step(cfg: Config, s: State, e: Event): State
  {
    match e
    case PrevClick =>
      if Clickable(s.display, true) && s.index > 0 then Redraw(cfg, s.(index := s.index - 1)) else s
    case NextClick =>
      if Clickable(s.display, false) && s.index < MaxIndex(s.width, cfg.totalCards)
      then Redraw(cfg, s.(index := s.index + 1)) else s
    case ResizeFired(w) =>
      Redraw(cfg, State(0, w, s.display))
    case WidthChanged(w) =>
      s.(width := w)
    case InitTimer =>
      Redraw(cfg, s)
  }

  /** A sequence of events, in order. */
  function Run(cfg: Config, s: State, events: seq<Event>): State
    decreases |events|
  {
    if events == [] then s else Run(cfg, Step(cfg, s, events[0]), events[1..])
  }

  /** `n` occurrences of event `e`. */
  function Repeat(e: Event, n: nat): (r: seq<Event>)
    ensures |r| == n && forall i :: 0 <= i < n ==> r[i] == e
  {
    if n == 0 then [] else [e] + Repeat(e, n - 1)
  }

  /** The index lies between 0 and the largest index for the current width. */
  predicate Bounded(cfg: Config, s: State)
  {
    s.index <= MaxIndex(s.width, cfg.totalCards)
  }

  /** The index names an existing card (or is 0 when there is none). */
  predicate OnACard(cfg: Config, s: State)
  {
    s.index <= Max(0, cfg.totalCards - 1)
  }

  /** What is on the page is the render of the current state, or nothing has
      been rendered yet. */
  predicate Consistent(cfg: Config, s: State)
  {
    s.display.None? || s.display == ViewOf(cfg, s)
  }

  /** What is on the page is exactly the render of the current state. */
  predicate Shown(cfg: Config, s: State)
  {
    s.display == ViewOf(cfg, s)
  }

  /** An event that is not a bare width change. */
  predicate KeepsWidthInSync(e: Event)
  {
    !e.WidthChanged?
  }

  /** A prev click the page delivers moves a positive index down by exactly
      one; at index 0, or when the page refuses the click, nothing at all
      changes: prev never wraps to the last card. */
  lemma PrevClickMoves(cfg: Config, s: State)
    ensures var r := Step(cfg, s, PrevClick);
      r.width == s.width &&
      (Clickable(s.display, true) && s.index > 0 ==> r.index == s.index - 1) &&
      (!Clickable(s.display, true) || s.index == 0 ==> r == s)
  {
  }

  /** A next click the page delivers moves the index up by exactly one while
      it is below the maximum index for the current width; otherwise nothing
      at all changes: next never wraps to the first card. */
  lemma NextClickMoves(cfg: Config, s: State)
    ensures var r := Step(cfg, s, NextClick);
      r.width == s.width &&
      (Clickable(s.display, false) && s.index < MaxIndex(s.width, cfg.totalCards) ==> r.index == s.index + 1) &&
      (!Clickable(s.display, false) || s.index >= MaxIndex(s.width, cfg.totalCards) ==> r == s)
  {
  }

  /** On a page that shows the current state, in bounds, the page refuses no
      click that its handler would act on. */
  lemma ConsistentPageRefusesNoMove(cfg: Config, s: State)
    requires Bounded(cfg, s) && Consistent(cfg, s)
    ensures s.index > 0 ==> Clickable(s.display, true)
    ensures s.index < MaxIndex(s.width, cfg.totalCards) ==> Clickable(s.display, false)
  {
  }

  /** No event, not even a width change the resize callback has not yet
      seen, moves the index off the cards. */
  lemma StepKeepsOnACard(cfg: Config, s: State, e: Event)
    requires OnACard(cfg, s)
    ensures OnACard(cfg, Step(cfg, s, e))
  {
  }

  /** Under any sequence of events whatever, the index stays on a card. */
  lemma {:induction false} RunKeepsOnACard(cfg: Config, s: State, events: seq<Event>)
    requires OnACard(cfg, s)
    ensures OnACard(cfg, Run(cfg, s, events))
    decreases |events|
  {
    if events != [] {
      StepKeepsOnACard(cfg, s, events[0]);
      RunKeepsOnACard(cfg, Step(cfg, s, events[0]), events[1..]);
    }
  }

  /** From page load, under any sequence of events, including width changes,
      the index stays in `0 .. max(0, totalCards - 1)`. */
  lemma FromLoadStaysOnACard(cfg: Config, w: int, events: seq<Event>)
    ensures OnACard(cfg, Run(cfg, Init(w), events))
  {
    RunKeepsOnACard(cfg, Init(w), events);
  }

  /** The resize callback puts the carousel back at the first card, which is
      in bounds for any width, and renders it with prev disabled. */
  lemma ResizeResets(cfg: Config, s: State, w: int)
    ensures var r := Step(cfg, s, ResizeFired(w));
      r.index == 0 && r.width == w && Bounded(cfg, r) && (Consistent(cfg, s) ==> Shown(cfg, r)) &&
      (cfg.hasTrack && cfg.totalCards > 0 ==>
        Shown(cfg, r) && r.display.Some? && r.display.value.prevDisabled)
  {
  }

  /** Every event except a bare width change keeps the index in bounds and
      keeps the page showing the current state. */
  lemma StepKeepsInvariant(cfg: Config, s: State, e: Event)
    requires KeepsWidthInSync(e) && Bounded(cfg, s) && Consistent(cfg, s)
    ensures Bounded(cfg, Step(cfg, s, e)) && Consistent(cfg, Step(cfg, s, e))
  {
  }

  /** Once the page shows the current state, it keeps doing so under every
      event except a bare width change. */
  lemma StepKeepsShown(cfg: Config, s: State, e: Event)
    requires KeepsWidthInSync(e) && Shown(cfg, s)
    ensures Shown(cfg, Step(cfg, s, e))
  {
  }

  /** Under any sequence of clicks, renders and resize callbacks the index
      stays in bounds and what is on the page is the render of the current
      state (or nothing, before the first render). */
  lemma {:induction false} RunKeepsInvariant(cfg: Config, s: State, events: seq<Event>)
    requires forall i :: 0 <= i < |events| ==> KeepsWidthInSync(events[i])
    requires Bounded(cfg, s) && Consistent(cfg, s)
    ensures Bounded(cfg, Run(cfg, s, events)) && Consistent(cfg, Run(cfg, s, events))
    decreases |events|
  {
    if events != [] {
      StepKeepsInvariant(cfg, s, events[0]);
      RunKeepsInvariant(cfg, Step(cfg, s, events[0]), events[1..]);
    }
  }

  /** From page load, whatever the clicks, renders and resize callbacks, the
      index never leaves `0 .. maxIndex`. */
  lemma FromLoadStaysBounded(cfg: Config, w: int, events: seq<Event>)
    requires forall i :: 0 <= i < |events| ==> KeepsWidthInSync(events[i])
    ensures Bounded(cfg, Run(cfg, Init(w), events)) && Consistent(cfg, Run(cfg, Init(w), events))
  {
    RunKeepsInvariant(cfg, Init(w), events);
  }

  /** With a fixed width, `n` next clicks from index `i` reach
      `min(i + n, maxIndex)`: one card per click, never past the maximum. */
  lemma {:induction false} NextClicksSaturate(cfg: Config, s: State, n: nat)
    requires Bounded(cfg, s) && Consistent(cfg, s)
    ensures Run(cfg, s, Repeat(NextClick, n)).index == Min(s.index + n, MaxIndex(s.width, cfg.totalCards))
    ensures Run(cfg, s, Repeat(NextClick, n)).width == s.width
    decreases n
  {
    if n > 0 {
      ConsistentPageRefusesNoMove(cfg, s);
      StepKeepsInvariant(cfg, s, NextClick);
      var t := Step(cfg, s, NextClick);
      assert Repeat(NextClick, n)[1..] == Repeat(NextClick, n - 1);
      NextClicksSaturate(cfg, t, n - 1);
    }
  }

  /** From index 0, after `maxIndex` next clicks the last card is in view and
      every further next click changes nothing. */
  lemma NextClicksFromStartEndAtMax(cfg: Config, s: State, n: nat)
    requires s.index == 0 && Consistent(cfg, s) && n >= MaxIndex(s.width, cfg.totalCards)
    ensures var r := Run(cfg, s, Repeat(NextClick, n));
      r.index == MaxIndex(s.width, cfg.totalCards) && Step(cfg, r, NextClick) == r
  {
    NextClicksSaturate(cfg, s, n);
  }

  /** With a fixed width, `n` prev clicks from an in-bounds index `i` reach
      `max(i - n, 0)`: one card per click, never below the first. */
  lemma {:induction false} PrevClicksSaturate(cfg: Config, s: State, n: nat)
    requires Bounded(cfg, s) && Consistent(cfg, s)
    ensures Run(cfg, s, Repeat(PrevClick, n)).index == Max(s.index - n, 0)
    ensures Run(cfg, s, Repeat(PrevClick, n)).width == s.width
    decreases n
  {
    if n > 0 {
      ConsistentPageRefusesNoMove(cfg, s);
      StepKeepsInvariant(cfg, s, PrevClick);
      assert Repeat(PrevClick, n)[1..] == Repeat(PrevClick, n - 1);
      PrevClicksSaturate(cfg, Step(cfg, s, PrevClick), n - 1);
    }
  }

  /** On a page that shows the current state, a click changes nothing
      exactly when the page shows that button disabled or hidden. */
  lemma DisabledIffNoOp(cfg: Config, s: State)
    requires Shown(cfg, s) && s.display.Some?
    ensures s.display.value.prevDisabled || !s.display.value.showButtons <==> Step(cfg, s, PrevClick) == s
    ensures s.display.value.nextDisabled || !s.display.value.showButtons <==> Step(cfg, s, NextClick) == s
  {
  }

  /** The buttons a render would write are hidden exactly when the card
      count is at most the cards per view: every card fits, or there is one
      card, counted as the fallback 1 even when it is wider than the
      container. In a bounded state both clicks then do nothing, whatever the
      page currently shows. */
  lemma HiddenButtonsAreNoOps(cfg: Config, s: State)
    requires ViewOf(cfg, s).Some? && Bounded(cfg, s)
    ensures !ViewOf(cfg, s).value.showButtons <==> cfg.totalCards <= CardsPerView(s.width, cfg.totalCards)
    ensures !ViewOf(cfg, s).value.showButtons ==>
      Step(cfg, s, PrevClick) == s && Step(cfg, s, NextClick) == s
  {
  }

  /** A single card in a container narrower than one card: it does not fit,
      yet the fallback shows it as one card per view, so there is nowhere to
      page and a render hides the buttons. */
  lemma SingleWideCardHidesButtons(w: int)
    requires w < CardWidth
    ensures CardsPerView(w, 1) == 1 && !Fits(1, w) && MaxIndex(w, 1) == 0
    ensures !ViewOf(Config(1, true), State(0, w, None)).value.showButtons
  {
  }

  /** With no cards, nothing ever moves or is rendered: whatever happens, the
      index stays 0 and the page keeps what it had. */
  lemma {:induction false} EmptyCarouselIsInert(cfg: Config, s: State, events: seq<Event>)
    requires cfg.totalCards == 0 && s.index == 0
    ensures Run(cfg, s, events).index == 0 && Run(cfg, s, events).display == s.display
    decreases |events|
  {
    if events != [] {
      EmptyCarouselIsInert(cfg, Step(cfg, s, events[0]), events[1..]);
    }
  }

  /** A narrower container never leaves the index out of bounds. */
  lemma ShrinkingKeepsBounded(cfg: Config, s: State, w: int)
    requires Bounded(cfg, s) && w <= s.width
    ensures Bounded(cfg, Step(cfg, s, WidthChanged(w)))
  {
    MaxIndexAntitone(w, s.width, cfg.totalCards);
  }

  /** A wider container, before the resize callback fires, can leave the index
      beyond the new maximum: five cards at 700 pixels (two in view) paged to
      the end at index 3, then widened to 1400 pixels (four in view, maximum
      index 1). Next does nothing there, and the callback brings the index
      back in bounds. */
  lemma WideningCanLeaveIndexBeyondMax()
    ensures var cfg := Config(5, true);
      var s := Run(cfg, Init(700), [InitTimer, NextClick, NextClick, NextClick, WidthChanged(1400)]);
      s.index == 3 && MaxIndex(s.width, cfg.totalCards) == 1 && !Bounded(cfg, s) &&
      Step(cfg, s, NextClick) == s && Bounded(cfg, Step(cfg, s, ResizeFired(1400)))
  {
  }

  /** An out-of-date page refuses a click the handler would act on: five
      cards at 1400 pixels, one next click before the delayed first render
      (index 1, the maximum, so its render shows next disabled), then
      narrowed to 700 pixels (maximum index 3). Next stays refused until the
      delayed first render fires and brings the page up to date. */
  lemma StalePageRefusesNext()
    ensures var cfg := Config(5, true);
      var s := Run(cfg, Init(1400), [NextClick, WidthChanged(700)]);
      s.index == 1 && s.index < MaxIndex(s.width, cfg.totalCards) && Step(cfg, s, NextClick) == s &&
      Step(cfg, Step(cfg, s, InitTimer), NextClick).index == 2
  {
  }

  /** Widening past the point where every card fits can hide both buttons
      with the index still off the first card: five cards at 700 pixels paged
      to index 3, widened to 2000 pixels (all five in view), then one prev
      click, whose render hides the buttons at index 2. No click changes
      anything until the resize callback puts the index back at 0. */
  lemma WideningCanHideButtonsOffStart()
    ensures var cfg := Config(5, true);
      var s := Run(cfg, Init(700), [InitTimer, NextClick, NextClick, NextClick, WidthChanged(2000), PrevClick]);
      s.index == 2 && MaxIndex(s.width, cfg.totalCards) == 0 && Shown(cfg, s) &&
      !s.display.value.showButtons &&
      Step(cfg, s, PrevClick) == s && Step(cfg, s, NextClick) == s &&
      Step(cfg, s, ResizeFired(2000)).index == 0
  {
  }

  /** `n` prev clicks, at most the index, each lower the index by one, as long
      as the page lets the first through and there is room to page. */
  lemma {:induction false} PrevClicksDescend(cfg: Config, s: State, n: nat)
    requires n <= s.index && MaxIndex(s.width, cfg.totalCards) > 0
    requires n > 0 ==> Clickable(s.display, true)
    ensures Run(cfg, s, Repeat(PrevClick, n)).index == s.index - n
    ensures Run(cfg, s, Repeat(PrevClick, n)).width == s.width
    decreases n
  {
    if n > 0 {
      assert Repeat(PrevClick, n)[1..] == Repeat(PrevClick, n - 1);
      PrevClicksDescend(cfg, Step(cfg, s, PrevClick), n - 1);
    }
  }

  /** Past the maximum, next does nothing and the resize callback restores
      bounds; while there is room to page and the page lets prev through,
      enough prev clicks bring the index back in bounds too. */
  lemma BeyondMaxRecovers(cfg: Config, s: State, w: int)
    requires !Bounded(cfg, s)
    ensures Step(cfg, s, NextClick) == s
    ensures Bounded(cfg, Step(cfg, s, ResizeFired(w)))
    ensures MaxIndex(s.width, cfg.totalCards) > 0 && Clickable(s.display, true) ==>
      Bounded(cfg, Run(cfg, s, Repeat(PrevClick, s.index - MaxIndex(s.width, cfg.totalCards))))
  {
    if MaxIndex(s.width, cfg.totalCards) > 0 && Clickable(s.display, true) {
      PrevClicksDescend(cfg, s, s.index - MaxIndex(s.width, cfg.totalCards));
    }
  }
}
