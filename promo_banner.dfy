/** The promotional banner: a carousel of three slides whose current index moves forward on a
    timer and with the arrows, backward with the left arrow, and jumps when a dot is pressed. */
module PromoBanner {

  /** `slides.length`: the banner has three slides. */
  const SlideCount: int := 3

  /** JavaScript `a % slides.length`: the remainder takes the sign of the dividend, so it
      differs from the mathematical one for negative `a`. */
  function JsRem(a: int): (r: int)
    ensures a >= 0 ==> 0 <= r < SlideCount
    ensures a < 0 ==> -SlideCount < r <= 0
    ensures (a - r) % SlideCount == 0
  {
    if a >= 0 then a % SlideCount else -((-a) % SlideCount)
  }

  /** `(prev + 1) % slides.length` */
  function Next(i: int): (r: int)
    ensures 0 <= i < SlideCount ==> 0 <= r < SlideCount
    ensures 0 <= i < SlideCount - 1 ==> r == i + 1
    ensures i == SlideCount - 1 ==> r == 0
  {
    JsRem(i + 1)
  }

  /** `(prev - 1 + slides.length) % slides.length` */
  function Prev(i: int): (r: int)
    ensures 0 <= i < SlideCount ==> 0 <= r < SlideCount
    ensures 0 < i < SlideCount ==> r == i - 1
    ensures i == 0 ==> r == SlideCount - 1
  {
    JsRem(i - 1 + SlideCount)
  }

  /** Back undoes forward and forward undoes back. */
  lemma PrevUndoesNext(i: int)
    requires 0 <= i < SlideCount
    ensures Prev(Next(i)) == i && Next(Prev(i)) == i
  {
  }

  /** Three steps forward come back to the same slide. */
  lemma NextCycles(i: int)
    requires 0 <= i < SlideCount
    ensures Next(Next(Next(i))) == i
    ensures Next(i) != i
  {
  }

  /** Each dot is lit when its index is the current slide. */
  function Dots(current: int): (r: seq<bool>)
    ensures |r| == SlideCount
    ensures forall k :: 0 <= k < SlideCount ==> (r[k] <==> k == current)
  {
    seq(SlideCount, k => k == current)
  }

  /** For a current slide in range exactly one dot is lit, and pressing it goes where it is. */
  lemma OneDotLit(current: int)
    requires 0 <= current < SlideCount
    ensures Dots(current)[current]
    ensures forall k :: 0 <= k < SlideCount && Dots(current)[k] ==> k == current
  {
  }

  class Banner {
    var currentSlide: int

    predicate Valid()
      reads this
    {
      0 <= currentSlide < SlideCount
    }

    /** `useState(0)` */
    constructor ()
      ensures currentSlide == 0 && Valid()
    {
      currentSlide := 0;
    }

    /** The right arrow. */
    method NextSlide()
      modifies this
      ensures currentSlide == Next(old(currentSlide))
      ensures old(Valid()) ==> Valid()
    {
      currentSlide := Next(currentSlide);
    }

    /** The left arrow. */
    method PrevSlide()
      modifies this
      ensures currentSlide == Prev(old(currentSlide))
      ensures old(Valid()) ==> Valid()
    {
      currentSlide := Prev(currentSlide);
    }

    /** One tick of the five-second interval: the same step as the right arrow. */
    method Tick()
      modifies this
      ensures currentSlide == Next(old(currentSlide))
      ensures old(Valid()) ==> Valid()
    {
      currentSlide := Next(currentSlide);
    }

    /** `goToSlide(index)`: the dots pass their own index, which is always in range. */
    method GoToSlide(index: int)
      modifies this
      ensures currentSlide == index
      ensures 0 <= index < SlideCount ==> Valid()
    {
      currentSlide := index;
    }
  }
}
