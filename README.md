# Reel carousel paging controller

A model of the paging controller behind the reel carousel of the Wyzent
landing page (`wyzent_project/script.js`). The page shows a row of
320-pixel reel cards with 30-pixel gaps on a track that slides left and
right. One integer, the current index (the left-most card in view), is the
whole state. Two buttons move it by one card, with no wrap-around. A
debounced resize callback puts it back to 0. A render routine turns it into
three things: a leftward translation of the track, the disabled flags of the
two buttons, and whether the buttons are shown at all.

The project has three modules:

- `CarouselLayout` (`carousel_layout.dfy`) holds the pure geometry: how many
  cards fit in a container (`CardsPerView`), the last index the carousel may
  page to (`MaxIndex`), and what one render writes (`Render`).
- `CarouselPaging` (`carousel_paging.dfy`) is the controller as a state
  machine over events: prev click, next click, the resize callback firing,
  a width change the callback has not yet handled, and the delayed first
  render. It holds the lemmas about runs of events.
- `CarouselController` (`carousel.dfy`) is the `Carousel` class. Its fields
  are the ones the page updates in place. Its methods are the two button
  clicks, the resize callback and the render routine, plus `Relayout`. That
  last one is no handler of the page: it stands for the container taking a
  new width while the resize callback is still pending. Each method's
  postcondition ties the new object state to the matching `Step` of the
  state machine.

The container width is a plain `int`. It may be negative, because the
page's fallback measurement is the window width minus 160. Dafny's `/` by
the positive card step 350 rounds down, as `Math.floor` does.

What the render routine last wrote is part of the state (`display`). The
click handlers re-render only when the index moves. So whether the page
still shows the current state is a real invariant (`Consistent`, `Shown`),
not something that holds by construction. A click reaches its handler only
while the page shows that button visible and enabled (`Clickable`), because
a browser does not deliver clicks to a hidden or disabled button. On an
out-of-date page this refuses moves the handler would make.

Facts about the code that shape the model: the largest index is `totalCards - cardsPerView`, the index at which the
last card is the right-most one in view (`MaxIndex`), not the last card's
own index. Next is disabled when `currentIndex >= maxIndex`. The file has no
drag, touch or boundary-resistance handling.

## Model

| member | source | states |
|---|---|---|
| `CarouselLayout.CardsPerView` | wyzent_project/script.js:83-89 | at least 1; at most the card count when there is a card; 1 when there are none; the count returned fits side by side in the container unless it is the fallback 1; one more card would not fit unless the count is already the total |
| `CarouselLayout.LargestFitting` | wyzent_project/script.js:85-88 | the reference search returns a count of at most the limit that fits side by side (or 0), and one more card would not fit unless the limit is reached |
| `CarouselLayout.LargestFittingIsFloor` | wyzent_project/script.js:87-88 | the downward search for the largest count of cards that fits agrees with the floored quotient `(width + 30) / 350`, clamped to `0 .. limit` |
| `CarouselLayout.CardsPerViewIsLargestFit` | wyzent_project/script.js:83-89 | cards per view equals the largest number of cards, at most the total, that fit in the container, or 1 when none fits |
| `CarouselLayout.CardsPerViewUnclamped` | wyzent_project/script.js:87-88 | inside the clamps, cards per view is exactly `floor((width + 30) / 350)` |
| `CarouselLayout.CardsPerViewMonotone` | wyzent_project/script.js:83-89 | a wider container never shows fewer cards |
| `CarouselLayout.MaxIndex` | wyzent_project/script.js:102 | never negative; below the card count when there is a card; 0 exactly when the card count is at most the cards per view, that is when all cards fit or there is a single card, which counts as the fallback 1 even when it is wider than the container; when positive, the last page starts where the last card is the right-most one in view |
| `CarouselLayout.MaxIndexAntitone` | wyzent_project/script.js:102 | a wider container never allows a larger maximum index |
| `CarouselLayout.Render` | wyzent_project/script.js:91-117 | renders nothing without a track or without cards; otherwise the leftward offset is index × 350, prev is disabled exactly at index 0, next exactly when the index is at or past the maximum, and the buttons are shown exactly when there is room to page |
| `CarouselLayout.ViewStaysOnCards` | wyzent_project/script.js:101-102 | at any index from 0 to the maximum, every card in view exists; at the maximum the last card is the right-most card in view |
| `CarouselLayout.RenderedOffsetStaysOnTrack` | wyzent_project/script.js:97-102 | at any index from 0 to the maximum, the rendered offset is non-negative and the visible cards end within the track's right edge |
| `CarouselPaging.Init` | wyzent_project/script.js:80-81 | the state at page load: index 0, the measured width, nothing rendered yet |
| `CarouselPaging.Step` | wyzent_project/script.js:119-148 | one event: a delivered prev click (lines 123-125) or next click (lines 134-138) moves the index by one within bounds and re-renders; the resize callback (lines 291-294) resets to 0 and re-renders; the delayed first render (lines 146-148) renders; a bare width change updates only the width |
| `CarouselPaging.Redraw` | wyzent_project/script.js:91-117 | a render never changes the index or the width; with a track and cards the page afterwards shows the current state's view; without either it writes nothing and the state is unchanged |
| `CarouselPaging.PrevClickMoves` | wyzent_project/script.js:107-128 | a prev click the page delivers lowers a positive index by exactly one and leaves the width alone; at index 0, or when the page shows prev hidden or disabled, nothing changes, so it never wraps |
| `CarouselPaging.NextClickMoves` | wyzent_project/script.js:112-141 | a next click the page delivers raises the index by exactly one while it is below the maximum for the current width; otherwise, or when the page shows next hidden or disabled, nothing changes, so it never wraps |
| `CarouselPaging.ConsistentPageRefusesNoMove` | wyzent_project/script.js:107-115 | on a page that shows the current state, in bounds, the page refuses no click its handler would act on |
| `CarouselPaging.ResizeResets` | wyzent_project/script.js:289-295 | the resize callback sets the index to 0 whatever it was, which is in bounds for any width; with a track and cards it renders the new state with prev disabled |
| `CarouselPaging.StepKeepsInvariant` | wyzent_project/script.js:119-141 | every event except a bare width change keeps the index in `0 .. maxIndex` and keeps the page consistent with the state |
| `CarouselPaging.StepKeepsShown` | wyzent_project/script.js:119-141 | once the page shows the current state, every event except a bare width change keeps it that way, although clicks that do not move skip the render |
| `CarouselPaging.RunKeepsInvariant` | wyzent_project/script.js:119-141 | over any sequence of clicks, renders and resize callbacks, the index stays in bounds and the page shows the current state or nothing |
| `CarouselPaging.FromLoadStaysBounded` | wyzent_project/script.js:80 | from page load (index 0), no sequence of clicks, renders and resize callbacks takes the index out of `0 .. maxIndex` |
| `CarouselPaging.StepKeepsOnACard` | wyzent_project/script.js:119-141 | no event, width changes included, moves the index off `0 .. max(0, totalCards - 1)` |
| `CarouselPaging.RunKeepsOnACard` | wyzent_project/script.js:119-141 | under any sequence of events whatever, an index on a card stays on a card |
| `CarouselPaging.FromLoadStaysOnACard` | wyzent_project/script.js:80-81 | from page load, under any sequence of events including width changes, the index stays in `0 .. max(0, totalCards - 1)` |
| `CarouselPaging.NextClicksSaturate` | wyzent_project/script.js:130-141 | with a fixed width, on a page showing the current state, `n` next clicks from an in-bounds index `i` reach `min(i + n, maxIndex)` |
| `CarouselPaging.NextClicksFromStartEndAtMax` | wyzent_project/script.js:130-141 | from index 0 on a page showing the current state, at least `maxIndex` next clicks end at `maxIndex`, and a further next click changes nothing |
| `CarouselPaging.PrevClicksSaturate` | wyzent_project/script.js:119-128 | with a fixed width, on a page showing the current state, `n` prev clicks from an in-bounds index `i` reach `max(i - n, 0)`; the index never goes negative |
| `CarouselPaging.DisabledIffNoOp` | wyzent_project/script.js:107-128 | on a page that shows the current state, a click changes nothing exactly when the page shows that button disabled or hidden |
| `CarouselPaging.HiddenButtonsAreNoOps` | wyzent_project/script.js:105-113 | in the view a render would write now (`ViewOf`, not necessarily what the page shows), the buttons are hidden exactly when the card count is at most the cards per view (all cards fit, or a single card shown as the fallback 1 even when it is wider than the container); in a bounded state both clicks then do nothing whatever the page shows |
| `CarouselPaging.SingleWideCardHidesButtons` | wyzent_project/script.js:87-105 | one card in a container narrower than the card: the count of cards per view is the fallback 1 although the card does not fit, the maximum index is 0, and a render hides the buttons |
| `CarouselPaging.EmptyCarouselIsInert` | wyzent_project/script.js:92 | with no cards, no sequence of events moves the index from 0 or changes what the page shows |
| `CarouselPaging.ShrinkingKeepsBounded` | wyzent_project/script.js:83-89 | narrowing the container before the resize callback fires never leaves the index out of bounds |
| `CarouselPaging.WideningCanLeaveIndexBeyondMax` | wyzent_project/script.js:130-141 | widening the container before the callback fires can leave the index past the new maximum (5 cards, 700 then 1400 pixels, index 3, maximum 1); next does nothing there, and the callback restores bounds |
| `CarouselPaging.StalePageRefusesNext` | wyzent_project/script.js:112-115 | an out-of-date page refuses a next click the handler would act on (5 cards at 1400 pixels, one next click before the delayed first render, then 700 pixels: index 1, next shown disabled); once the delayed first render fires, next moves again |
| `CarouselPaging.WideningCanHideButtonsOffStart` | wyzent_project/script.js:105-126 | widening until every card fits, then one prev click, renders hidden buttons at index 2; no click changes anything until the resize callback sets the index to 0 |
| `CarouselPaging.PrevClicksDescend` | wyzent_project/script.js:119-128 | while there is room to page and the page lets the first prev click through, `n` prev clicks (at most the index) lower the index by exactly `n` |
| `CarouselPaging.BeyondMaxRecovers` | wyzent_project/script.js:119-141 | past the maximum, next does nothing and the resize callback restores bounds; while there is room to page and the page lets prev through, enough prev clicks restore bounds too |
| `CarouselController.Carousel.constructor` | wyzent_project/script.js:80-81 | a new carousel has index 0, the fixed card count, and nothing rendered |
| `CarouselController.Carousel.Refresh` | wyzent_project/script.js:91-117 | performs a render step; with a track and cards the page then shows the current state; otherwise nothing changes |
| `CarouselController.Carousel.Prev` | wyzent_project/script.js:107-128 | performs the prev click step: refused while the page shows prev hidden or disabled; otherwise lowers a positive index by one and re-renders; at 0 nothing changes; keeps the index on a card, the bounds and the page's consistency |
| `CarouselController.Carousel.Next` | wyzent_project/script.js:112-141 | performs the next click step: refused while the page shows next hidden or disabled; otherwise remeasures, raises the index by one below the maximum and re-renders; keeps the index on a card, the bounds and the page's consistency |
| `CarouselController.Carousel.Resize` | wyzent_project/script.js:289-295 | performs the resize callback step: index 0, the new width, in bounds and on a card; with a track and cards the page shows the new state with prev disabled |
| `CarouselController.Carousel.Relayout` | wyzent_project/script.js:84 | performs the width change step (no handler of the page: the container's new width before the resize callback fires): only the measured width changes; the index stays on a card, and a narrower width keeps it in bounds |

## Left out

- The width measurement at line 84 (the wrapper's `offsetWidth`, or the window width minus 160 when that is 0 or the wrapper is missing) is treated as an input: the width is a parameter and a field.
- Before the first render the buttons are taken to be visible and enabled (the page markup is not part of this model).
- `Clickable` assumes that the prev and next elements are `<button>` elements, so that `disabled` blocks their clicks, and that every click comes from the user; a script calling `.click()` on a hidden button is not modelled.
- `InitTimer`, the delayed first render, may occur any number of times in an event sequence, while the page's timer fires once; each occurrence is one call of the render routine, so the invariants are unaffected.
- The prev and next button elements are assumed present. When one is missing, the page attaches no handler for it and its flags are never written. The model has no such case.
- Timers: the 100 ms delay before the first render and the 250 ms resize debounce. Only the effect of a callback that fires is modelled (`InitTimer`, `ResizeFired`). A width change with no callback fired yet is a separate event (`WidthChanged`), so the model has no clock and no cancellation.
- Style strings: the `translateX(-…px)` text, `display: flex/none` and the opacities 0.3 and 1 are modelled only as the offset and the boolean flags they encode.
- `preventDefault` and `stopPropagation` on the click events have no effect on the controller state.
- JavaScript numbers are floating point. Every quantity here is an integer far below 2^53, so the model uses unbounded integers.
- The rest of the script is not part of this model: the sidebar toggle, the statistics counter and its number formatting, the scroll-triggered entrance animations, the particles, smooth scrolling, the navbar and scroll-to-top effects, the card tilt, the lazy-load observer that fades in each reel card's iframe, and the console messages. None of them touches the carousel state.
