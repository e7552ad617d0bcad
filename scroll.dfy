/**
 * The page's scroll handler.  Scroll events are coalesced through a
 * `ticking` latch: the first event schedules one animation-frame callback,
 * later events schedule nothing until that callback has run, and the
 * callback derives both header flags from the scroll position it reads.
 */
module ScrollFlags {
  /** The header turns compact below this scroll position. */
  const ScrollingThreshold: real := 50.0
  /** The back-to-top button appears below this scroll position. */
  const ScrollTopThreshold: real := 500.0

  /** `isScrolling` for a scroll position. */
  predicate IsScrolling(scrollY: real) {
    scrollY > ScrollingThreshold
  }

  /** `showScrollTop` for a scroll position. */
  predicate ShowScrollTop(scrollY: real) {
    scrollY > ScrollTopThreshold
  }

  /** Whenever the back-to-top button shows, the header is compact too. */
  lemma ScrollTopImpliesScrolling(scrollY: real)
    ensures ShowScrollTop(scrollY) ==> IsScrolling(scrollY)
    ensures IsScrolling(scrollY) && !ShowScrollTop(scrollY) <==> 50.0 < scrollY <= 500.0
  {
  }

  class ScrollWatcher {
    /** The handler's `ticking` latch. */
    var ticking: bool
    /** Animation-frame callbacks scheduled and not yet run. */
    var pending: nat
    var isScrolling: bool
    var showScrollTop: bool

    /** At most one callback is pending, exactly while `ticking` is set, and the flags agree. */
    ghost predicate Valid()
      reads this
    {
      pending <= 1 && (ticking <==> pending == 1) && (showScrollTop ==> isScrolling)
    }

    constructor()
      ensures Valid() && !ticking && pending == 0 && !isScrolling && !showScrollTop
    {
      ticking := false;
      pending := 0;
      isScrolling := false;
      showScrollTop := false;
    }

    /** `handleScroll`: schedules a callback unless one is already pending. */
    method OnScroll()
      requires Valid()
      modifies this
      ensures Valid() && ticking && pending == 1
      ensures old(ticking) ==> pending == old(pending)
      ensures !old(ticking) ==> pending == old(pending) + 1
      ensures isScrolling == old(isScrolling) && showScrollTop == old(showScrollTop)
    {
      if !ticking {
        pending := pending + 1;
        ticking := true;
      }
    }

    /** The scheduled callback, reading `scrollY`: both flags are set and the latch is released. */
    method FrameFires(scrollY: real)
      requires Valid() && pending > 0
      modifies this
      ensures Valid() && !ticking && pending == old(pending) - 1
      ensures isScrolling == IsScrolling(scrollY) && showScrollTop == ShowScrollTop(scrollY)
    {
      isScrolling := scrollY > 50.0;
      showScrollTop := scrollY > 500.0;
      ticking := false;
      pending := pending - 1;
    }
  }

  /** A burst of `n` scroll events before the next frame schedules at most one callback. */
  method ScrollBurst(w: ScrollWatcher, n: nat)
    requires w.Valid()
    modifies w
    ensures w.Valid() && w.pending <= 1
    ensures n > 0 ==> w.ticking && w.pending == 1
    ensures n == 0 ==> w.pending == old(w.pending)
  {
    var i := 0;
    while i < n
      invariant 0 <= i <= n && w.Valid()
      invariant i > 0 ==> w.ticking && w.pending == 1
      invariant i == 0 ==> w.pending == old(w.pending)
    {
      w.OnScroll();
      i := i + 1;
    }
  }
}
