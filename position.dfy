/**
 * Where `getPosition` places the menu: at the pointer, flipped up when it would
 * overflow the bottom of the window and flipped left when it would overflow the
 * right edge and there is room on the left, then shifted into the coordinates
 * of the menu's offset parent. Pixel measurements are integers here.
 */
module Position {

  /** `e.clientX`, `e.clientY`: the pointer in window coordinates. */
  datatype Pointer = Pointer(clientX: int, clientY: int)

  /** The measurements `getPosition` takes from the page. */
  datatype Layout = Layout(
    boundsX: int,       // $(window).width()
    boundsY: int,       // $(window).height()
    scrollLeft: int,    // $(window).scrollLeft()
    scrollTop: int,     // $(window).scrollTop()
    menuWidth: int,     // outerWidth() of the nested .dropdown-menu
    menuHeight: int,    // outerHeight() of the nested .dropdown-menu
    parentLeft: int,    // offsetParent().offset().left
    parentTop: int)     // offsetParent().offset().top

  /** The inline style `getPosition` returns: `{position, z-index, top, left}`. */
  datatype Css = Css(position: string, zIndex: int, top: int, left: int)

  /** The menu would run past the bottom of the window. */
  predicate OverflowsBottom(p: Pointer, l: Layout) {
    p.clientY + l.menuHeight > l.boundsY
  }

  /** The menu would run past the right edge and fits to the left of the pointer. */
  predicate FlipsLeft(p: Pointer, l: Layout) {
    p.clientX + l.menuWidth > l.boundsX && p.clientX - l.menuWidth > 0
  }

  /** The menu's top edge in window coordinates, undoing the scroll and parent shifts. */
  function WindowTop(tp: Css, l: Layout): int {
    tp.top + l.parentTop - l.scrollTop
  }

  /** The menu's left edge in window coordinates. */
  function WindowLeft(tp: Css, l: Layout): int {
    tp.left + l.parentLeft - l.scrollLeft
  }

  function GetPosition(p: Pointer, l: Layout): (tp: Css)
    ensures tp.position == "absolute" && tp.zIndex == 9999
    // vertical: the menu hangs below the pointer, or sits above it when it would overflow
    ensures OverflowsBottom(p, l) ==> WindowTop(tp, l) + l.menuHeight == p.clientY
    ensures !OverflowsBottom(p, l) ==> WindowTop(tp, l) == p.clientY
    // horizontal: the menu starts at the pointer unless it flips to end there
    ensures FlipsLeft(p, l) ==> WindowLeft(tp, l) + l.menuWidth == p.clientX
    ensures !FlipsLeft(p, l) ==> WindowLeft(tp, l) == p.clientX
  {
    var y := if p.clientY + l.menuHeight > l.boundsY
             then p.clientY - l.menuHeight + l.scrollTop
             else p.clientY + l.scrollTop;
    var x := if p.clientX + l.menuWidth > l.boundsX && p.clientX - l.menuWidth > 0
             then p.clientX - l.menuWidth + l.scrollLeft
             else p.clientX + l.scrollLeft;
    Css("absolute", 9999, y - l.parentTop, x - l.parentLeft)
  }

  /** A menu that is not flipped up ends inside the window. */
  lemma UnflippedFitsBelow(p: Pointer, l: Layout)
    requires !OverflowsBottom(p, l)
    ensures WindowTop(GetPosition(p, l), l) + l.menuHeight <= l.boundsY
  {
  }

  /** A menu flipped left starts right of the window's left edge. */
  lemma FlippedLeftStaysVisible(p: Pointer, l: Layout)
    requires FlipsLeft(p, l)
    ensures WindowLeft(GetPosition(p, l), l) > 0
  {
  }

  /** A menu that overflows on the right stays at the pointer only when it has no room on the left. */
  lemma OverflowKeptOnlyWithoutRoom(p: Pointer, l: Layout)
    requires p.clientX + l.menuWidth > l.boundsX
    requires WindowLeft(GetPosition(p, l), l) == p.clientX
    requires l.menuWidth != 0
    ensures p.clientX - l.menuWidth <= 0
  {
  }

  /** The pointer row lies on the menu's top or bottom edge, whichever way it went. */
  lemma PointerOnVerticalEdge(p: Pointer, l: Layout)
    ensures var top := WindowTop(GetPosition(p, l), l);
            top == p.clientY || top + l.menuHeight == p.clientY
  {
  }

  /** The right-click at (400, 500) with a 200-pixel menu: no flip in an 800-pixel window, a flip in a 600-pixel one. */
  lemma VerticalExamples()
    ensures GetPosition(Pointer(400, 500), Layout(1000, 800, 0, 0, 150, 200, 0, 0)).top == 500
    ensures GetPosition(Pointer(400, 500), Layout(1000, 600, 0, 0, 150, 200, 0, 0)).top == 300
  {
  }
}
