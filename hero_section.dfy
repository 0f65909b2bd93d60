/**
 * The rotating banner of components/HeroSection.tsx: the index of the slide on show, advanced by
 * the timer and set by the dots, and the slide that index selects.
 */
module HeroSection {
  import opened Wrappers
  import opened Catalog

  /** The period of the banner's timer, in milliseconds. */
  const RotationMs: nat := 6000

  /**
   * `activeSlide`: nothing when there are no slides (the banner then renders nothing), otherwise
   * the slide at the index taken modulo the number of slides, so an index left over from a longer
   * slide list still selects a slide.
   */
  function ActiveSlideOf(slides: seq<HeroSlide>, index: nat): (r: Option<HeroSlide>)
    ensures r.None? <==> slides == []
    ensures r.Some? ==> r.value in slides
    ensures index < |slides| ==> r == Some(slides[index])
  {
    if slides != [] then Some(slides[index % |slides|]) else None
  }

  /** The timer's update `(prev + 1) % slides.length`: always a valid position. */
  function NextIndex(index: nat, n: nat): (r: nat)
    requires n > 0
    ensures r < n
  {
    (index + 1) % n
  }

  /** From a valid position the timer moves to the next slide, and from the last one back to the first. */
  lemma NextIndexWraps(index: nat, n: nat)
    requires index < n
    ensures NextIndex(index, n) == if index + 1 < n then index + 1 else 0
  {
  }

  /** The index after `k` ticks of the timer. */
  function Ticks(index: nat, n: nat, k: nat): nat
    requires n > 0
    decreases k
  {
    if k == 0 then index else NextIndex(Ticks(index, n, k - 1), n)
  }

  /** Up to one round of ticks from a valid position advances the index by `k`, wrapping past the end. */
  lemma {:induction false} TicksFormula(index: nat, n: nat, k: nat)
    requires index < n && k <= n
    ensures Ticks(index, n, k) == if index + k < n then index + k else index + k - n
    decreases k
  {
    if k > 0 {
      TicksFormula(index, n, k - 1);
      NextIndexWraps(Ticks(index, n, k - 1), n);
    }
  }

  /** One full round of ticks, one per slide, brings the banner back to the slide it started on. */
  lemma TicksFullRound(index: nat, n: nat)
    requires index < n
    ensures Ticks(index, n, n) == index
  {
    TicksFormula(index, n, n);
  }

  /** From a valid position, every slide comes up within one round of ticks. */
  lemma TicksVisitAll(index: nat, n: nat, target: nat)
    requires index < n && target < n
    ensures exists k :: 0 < k <= n && Ticks(index, n, k) == target
  {
    var k := if target > index then target - index else target + n - index;
    TicksFormula(index, n, k);
  }

  /** The dot of position `i` is drawn as the active one exactly when `i` is the stored index. */
  predicate DotActive(index: nat, i: nat)
  {
    i == index
  }

  /** The active dot is the dot of the slide on show. */
  lemma ActiveDotShowsSlide(slides: seq<HeroSlide>, index: nat, i: nat)
    requires i < |slides| && DotActive(index, i)
    ensures ActiveSlideOf(slides, index) == Some(slides[i])
  {
  }

  /**
   * The stored index is not reset when the slide list shrinks: an index past the new end still
   * selects a slide (modulo the length), but then no dot is drawn as active.
   */
  lemma NoActiveDotPastEnd(slides: seq<HeroSlide>, index: nat)
    requires slides != [] && index >= |slides|
    ensures ActiveSlideOf(slides, index) == Some(slides[index % |slides|])
    ensures forall i :: 0 <= i < |slides| ==> !DotActive(index, i)
  {
  }

  /** The banner's state: the slides it was given and the index kept in its `useState`. */
  class Carousel {
    var slides: seq<HeroSlide>
    var activeIndex: nat

    /** A banner starts on the first slide. */
    constructor(slides: seq<HeroSlide>)
      ensures this.slides == slides && activeIndex == 0
      ensures slides != [] ==> ActiveSlide() == Some(slides[0])
    {
      this.slides := slides;
      activeIndex := 0;
    }

    /** The slide on show, or nothing when the banner renders nothing. */
    function ActiveSlide(): Option<HeroSlide>
      reads this
    {
      ActiveSlideOf(slides, activeIndex)
    }

    /** One tick of the timer, which only runs while there are slides. */
    method Tick()
      requires slides != []
      modifies this
      ensures slides == old(slides)
      ensures activeIndex == NextIndex(old(activeIndex), |slides|)
      ensures ActiveSlide() == Some(slides[activeIndex])
    {
      activeIndex := (activeIndex + 1) % |slides|;
    }

    /** A click on the dot of position `index`. */
    method Select(index: nat)
      requires index < |slides|
      modifies this
      ensures slides == old(slides) && activeIndex == index
      ensures ActiveSlide() == Some(slides[index])
    {
      activeIndex := index;
    }

    /** New slides from the parent: the stored index is kept as it is. */
    method SetSlides(next: seq<HeroSlide>)
      modifies this
      ensures slides == next && activeIndex == old(activeIndex)
      ensures ActiveSlide() == ActiveSlideOf(next, old(activeIndex))
    {
      slides := next;
    }
  }
}
