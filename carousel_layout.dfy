/** Geometry of the reel carousel: how many cards fit in the container, how far
    the track may page, and what one render of the carousel writes to the page. */
module CarouselLayout {

  /** Width of one reel card, in pixels. */
  const CardWidth: int := 320
  /** Horizontal gap between two neighbouring cards, in pixels. */
  const Gap: int := 30
  /** Distance from the left edge of one card to the left edge of the next. */
  const CardStep: int := CardWidth + Gap

  datatype Option<T> = None | Some(value: T)

  /** What one render writes: the track is translated `offset` pixels to the
      left, both buttons are shown or hidden together, and each button has its
      own disabled flag (which also selects its dimmed opacity). */
  datatype View = View(offset: int, showButtons: bool, prevDisabled: bool, nextDisabled: bool)

  function Min(a: int, b: int): int { if a <= b then a else b }
  function Max(a: int, b: int): int { if a >= b then a else b }

  /** `n` cards and the `n - 1` gaps between them fit in `width` pixels. */
  predicate Fits(n: int, width: int)
  {
    n * CardWidth + (n - 1) * Gap <= width
  }

  /** Number of whole cards the container shows at once. The division by the
      positive card step rounds toward negative infinity, as the flooring of
      the page does, also for a negative width. */
  function CardsPerView(width: int, total: nat): (r: int)
    ensures 1 <= r
    ensures total >= 1 ==> r <= total
    ensures total == 0 ==> r == 1
    ensures r == 1 || Fits(r, width)
    ensures r < total ==> !Fits(r + 1, width)
  {
    var possible := (width + Gap) / CardStep;
    Max(1, Min(possible, total))
  }

  /** Reference definition: the largest count in `0..limit` that fits,
      found by searching downward from `limit`. */
  function LargestFitting(width: int, limit: nat): (r: nat)
    ensures r <= limit
    ensures r == 0 || Fits(r, width)
    ensures r < limit ==> !Fits(r + 1, width)
  {
    if limit == 0 then 0
    else if Fits(limit, width) then limit
    else LargestFitting(width, limit - 1)
  }

  /** Inside the clamps, the number of cards shown is the floor of
      `(width + gap) / (card width + gap)`: the search and the formula agree. */
  lemma LargestFittingIsFloor(width: int, limit: nat)
    ensures LargestFitting(width, limit) == Min(Max(0, (width + Gap) / CardStep), limit)
  {
  }

  /** Cards per view is the largest number of cards, at most the total, that
      fit side by side in the container, and 1 when not even one fits. */
  lemma {:induction false} CardsPerViewIsLargestFit(width: int, total: nat)
    ensures CardsPerView(width, total) == Max(1, LargestFitting(width, total))
  {
    LargestFittingIsFloor(width, total);
  }

  /** Within the clamps, cards per view is exactly the floored quotient. */
  lemma CardsPerViewUnclamped(width: int, total: nat)
    requires 1 <= (width + Gap) / CardStep <= total
    ensures CardsPerView(width, total) == (width + Gap) / CardStep
  {
  }

  /** A wider container never shows fewer cards. */
  lemma CardsPerViewMonotone(w1: int, w2: int, total: nat)
    requires w1 <= w2
    ensures CardsPerView(w1, total) <= CardsPerView(w2, total)
  {
  }

  /** The largest index the carousel may page to: the index at which the last
      card is the right-most card in view. */
  function MaxIndex(width: int, total: nat): (r: int)
    ensures 0 <= r
    ensures total >= 1 ==> r < total
    ensures total == 0 ==> r == 0
    ensures r == 0 <==> total <= CardsPerView(width, total)
    ensures r > 0 ==> r + CardsPerView(width, total) == total
  {
    Max(0, total - CardsPerView(width, total))
  }

  /** A wider container never leaves more room to page. */
  lemma MaxIndexAntitone(w1: int, w2: int, total: nat)
    requires w1 <= w2
    ensures MaxIndex(w2, total) <= MaxIndex(w1, total)
  {
    CardsPerViewMonotone(w1, w2, total);
  }

  /** What the render routine writes for the given index, container width and
      card count; `None` when there is no track element or no card, in which
      case it writes nothing at all. */
  function Render(index: int, width: int, total: nat, hasTrack: bool): (r: Option<View>)
    ensures r.None? <==> !hasTrack || total == 0
    ensures r.Some? ==> r.value.offset == index * CardStep
    ensures r.Some? ==> (r.value.prevDisabled <==> index == 0)
    ensures r.Some? ==> (r.value.nextDisabled <==> index >= MaxIndex(width, total))
    ensures r.Some? ==> (r.value.showButtons <==> MaxIndex(width, total) > 0)
  {
    if !hasTrack || total == 0 then None
    else
      var cardsPerView := CardsPerView(width, total);
      var offset := index * CardStep;
      var maxIndex := MaxIndex(width, total);
      Some(View(offset, total > cardsPerView, index == 0, index >= maxIndex))
  }

  /** At any index from 0 to the maximum, the cards in view are cards
      `index .. index + cardsPerView - 1`, all of which exist; at the maximum
      the last card is the right-most one in view. */
  lemma ViewStaysOnCards(index: int, width: int, total: nat)
    requires total >= 1 && 0 <= index <= MaxIndex(width, total)
    ensures index + CardsPerView(width, total) <= total
    ensures index == MaxIndex(width, total) ==> index + CardsPerView(width, total) == total
  {
  }

  /** In pixels: at any index from 0 to the maximum, the right edge of the
      visible cards lies within the right edge of the whole track. */
  lemma RenderedOffsetStaysOnTrack(index: int, width: int, total: nat)
    requires total >= 1 && 0 <= index <= MaxIndex(width, total)
    ensures var v := Render(index, width, total, true).value;
      var n := CardsPerView(width, total);
      0 <= v.offset &&
      v.offset + n * CardWidth + (n - 1) * Gap <= total * CardWidth + (total - 1) * Gap
  {
    ViewStaysOnCards(index, width, total);
  }
}
