/**
 * The mobile navigation drawer (`initNavToggle`): opening and closing, the
 * focus trap that keeps Tab and Shift+Tab inside the drawer while it is open,
 * and the swipe that closes it.
 */
module Navigation {
  import opened Wrappers

  /** A focusable element of the page, by identity. */
  type Element = nat

  /** `array.indexOf(e)`: the first index of `e`, or -1. */
  function IndexOf(s: seq<Element>, e: Element): (r: int)
    ensures -1 <= r < |s|
    ensures r == -1 <==> e !in s
    ensures r >= 0 ==> s[r] == e && e !in s[..r]
  {
    if s == [] then -1
    else if s[0] == e then 0
    else
      var r := IndexOf(s[1..], e);
      assert s[1..][..if r < 0 then 0 else r] == s[1..1 + if r < 0 then 0 else r];
      if r < 0 then -1 else r + 1
  }

  /** What the trap does with one Tab key press. */
  datatype TrapAction =
    | Stay                       // leave focus alone, let the browser tab on
    | Wrap(target: nat)          // focus `target` and prevent the default

  /**
   * The focus-trap decision over `n` focusable elements (the toggle, then the
   * links), `index` being where focus is (-1 when it is outside them):
   * Shift+Tab at the first element or outside wraps to the last, Tab at the
   * last wraps to the first.
   */
  function Trap(index: int, shift: bool, n: nat): (a: TrapAction)
    requires n >= 1 && -1 <= index < n
    ensures a.Wrap? ==> a.target < n
  {
    if shift && index <= 0 then Wrap(n - 1)
    else if !shift && index == n - 1 then Wrap(0)
    else Stay
  }

  /** The trap acts exactly at the two ends of the list (and Shift+Tab from outside it). */
  lemma TrapActsAtTheEnds(index: int, shift: bool, n: nat)
    requires n >= 1 && -1 <= index < n
    ensures Trap(index, shift, n).Wrap? <==> (shift && index <= 0) || (!shift && index == n - 1)
    ensures Trap(index, shift, n).Wrap? ==> Trap(index, shift, n).target == if shift then n - 1 else 0
  {
  }

  /**
   * Where focus ends up after one key press, from an element of the list,
   * when the browser's own Tab order runs through the list in order: the
   * trap's target, or the neighbour the browser moves to.
   */
  function FocusAfter(index: int, shift: bool, n: nat): (k: int)
    requires n >= 1 && 0 <= index < n
    ensures 0 <= k < n
  {
    match Trap(index, shift, n)
    case Wrap(k) => k
    case Stay => if shift then index - 1 else index + 1
  }

  /** With the trap, Tab and Shift+Tab cycle through the list and never leave it. */
  lemma FocusCycles(index: int, shift: bool, n: nat)
    requires n >= 1 && 0 <= index < n
    ensures 0 <= FocusAfter(index, shift, n) < n
    ensures !shift ==> FocusAfter(index, shift, n) == (index + 1) % n
    ensures shift ==> FocusAfter(index, shift, n) == (index - 1 + n) % n
  {
    if shift {
      if index == 0 {
        assert (index - 1 + n) % n == n - 1;
      } else {
        assert (index - 1 + n) % n == index - 1 by {
          assert index - 1 + n == n + (index - 1);
        }
      }
    } else if index == n - 1 {
      assert (index + 1) % n == 0;
    } else {
      assert (index + 1) % n == index + 1;
    }
  }

  /** The drawer, its toggle button and links, and the page's focus. */
  class NavDrawer {
    const toggle: Element
    const links: seq<Element>
    /** The drawer's `open` class; `aria-expanded` and the body's `menu-open` class follow it. */
    var isOpen: bool
    /** `document.activeElement`. */
    var active: Element
    /** The element that had focus when the drawer last opened. */
    var lastFocused: Option<Element>
    /** Where the current touch started, if one is in progress. */
    var touchStartX: Option<real>

    constructor (toggle: Element, links: seq<Element>, active: Element)
      ensures this.toggle == toggle && this.links == links && this.active == active
      ensures !isOpen && lastFocused == None && touchStartX == None
    {
      this.toggle := toggle;
      this.links := links;
      this.active := active;
      isOpen := false;
      lastFocused := None;
      touchStartX := None;
    }

    /** `[toggle, ...links]`: the elements the trap cycles through. */
    function Focusable(): (f: seq<Element>)
      ensures |f| >= 1 && f[0] == toggle
    {
      [toggle] + links
    }

    /** `open()`: remember the focused element and open the drawer. */
    method Open()
      modifies this`isOpen, this`lastFocused
      ensures isOpen && lastFocused == Some(active)
    {
      lastFocused := Some(active);
      isOpen := true;
    }

    /** `close()`: close the drawer and give focus back to the remembered element, if any. */
    method Close()
      modifies this`isOpen, this`active
      ensures !isOpen
      ensures active == lastFocused.GetOr(old(active))
    {
      isOpen := false;
      if lastFocused.Some? {
        active := lastFocused.value;
      }
    }

    /** A click on the toggle: close when expanded, open otherwise. */
    method OnToggleClick()
      modifies this`isOpen, this`active, this`lastFocused
      ensures isOpen == !old(isOpen)
      ensures old(isOpen) ==> active == lastFocused.GetOr(old(active)) && lastFocused == old(lastFocused)
      ensures !old(isOpen) ==> active == old(active) && lastFocused == Some(active)
    {
      if isOpen { Close(); } else { Open(); }
    }

    /** The window's resize handler: wider than 860 pixels closes the drawer. */
    method OnResize(innerWidth: int)
      modifies this`isOpen, this`active
      ensures innerWidth > 860 ==> !isOpen && active == lastFocused.GetOr(old(active))
      ensures innerWidth <= 860 ==> isOpen == old(isOpen) && active == old(active)
    {
      if innerWidth > 860 { Close(); }
    }

    /**
     * The focus-trap keydown handler, for a Tab press: while the drawer is
     * open, wrap focus at the ends of the list. Returns whether the default
     * was prevented.
     */
    method OnTab(shift: bool) returns (prevented: bool)
      modifies this`active
      ensures !old(isOpen) ==> !prevented && active == old(active)
      ensures old(isOpen) ==>
        match Trap(IndexOf(Focusable(), old(active)), shift, |Focusable()|)
        case Wrap(k) => prevented && active == Focusable()[k]
        case Stay => !prevented && active == old(active)
    {
      prevented := false;
      if !isOpen { return; }
      var focusable := Focusable();
      var index := IndexOf(focusable, active);
      if shift && index <= 0 {
        active := focusable[|focusable| - 1];
        prevented := true;
      } else if !shift && index == |focusable| - 1 {
        active := focusable[0];
        prevented := true;
      }
    }

    /** `touchstart` on the drawer: remember where the touch began. */
    method OnTouchStart(clientX: real)
      modifies this`touchStartX
      ensures touchStartX == Some(clientX)
    {
      touchStartX := Some(clientX);
    }

    /** `touchend` on the drawer: a swipe of more than 80 pixels to the right closes it. */
    method OnTouchEnd(clientX: real)
      modifies this`isOpen, this`active, this`touchStartX
      ensures touchStartX == None
      ensures (old(touchStartX).Some? && clientX - old(touchStartX).value > 80.0) ==>
        !isOpen && active == lastFocused.GetOr(old(active))
      ensures !(old(touchStartX).Some? && clientX - old(touchStartX).value > 80.0) ==>
        isOpen == old(isOpen) && active == old(active)
    {
      if touchStartX.Some? {
        var dx := clientX - touchStartX.value;
        if dx > 80.0 { Close(); }
      }
      touchStartX := None;
    }
  }

  /** Elements listed at most once. */
  predicate Distinct(s: seq<Element>) {
    forall a, b :: 0 <= a < b < |s| ==> s[a] != s[b]
  }

  /** In a list without repeats, `indexOf` finds each element at its own position. */
  lemma IndexOfDistinct(s: seq<Element>, i: nat)
    requires Distinct(s) && i < |s|
    ensures IndexOf(s, s[i]) == i
  {
  }

  /**
   * A Tab press in the open drawer from its `i`-th element, when no element
   * is listed twice: the trap prevents the default exactly at the ends, and
   * then moves focus to where `FocusAfter` says, so focus stays in the list.
   */
  method TabFrom(d: NavDrawer, i: nat, shift: bool) returns (prevented: bool)
    requires d.isOpen && Distinct(d.Focusable()) && i < |d.Focusable()| && d.active == d.Focusable()[i]
    modifies d`active
    ensures prevented <==> Trap(i, shift, |d.Focusable()|).Wrap?
    ensures prevented ==> d.active == d.Focusable()[FocusAfter(i, shift, |d.Focusable()|)]
    ensures !prevented ==> d.active == old(d.active)
  {
    IndexOfDistinct(d.Focusable(), i);
    prevented := d.OnTab(shift);
  }
}
