/**
 * The client-side controller of bootstrap-contextmenu.js: one `ContextMenu`
 * object per target element, with the two-state machine Closed/Open that
 * `show`, `closemenu`, `keydown` and `destroy` drive. The open state is the
 * menu carrying the class `showCss`; the event handlers are modelled by whether
 * they are bound.
 */
module Controller {
  import opened Wrappers
  import opened Position
  import Href

  /** A stable handle for a DOM element. */
  type ElemId = nat

  /** What the controller reads of its target element. */
  datatype Element = Element(
    id: ElemId,
    classes: set<string>,        // the element's CSS classes
    disabledAttr: bool,          // it carries a `disabled` attribute
    dataTarget: Option<string>,  // its `data-target` value, if any
    href: Option<string>)        // its `href` attribute, if any

  /** The plugin options object. `before` and `onItem` say whether a callback was supplied. */
  datatype Options = Options(before: bool, onItem: bool, scopes: Option<string>, target: Option<string>, isBs4: bool)

  /** What `new ContextMenu($this, false)` sees when the plugin is called without an options object. */
  const NoOptions: Options := Options(false, false, None, None, false)

  /** `e.which` of a key event: a number, or a string in some browsers. */
  datatype Key = Code(n: int) | CodeText(text: string)

  /** A right-click reaching `show`: the pointer, the page measurements, and whether a
      supplied `before` callback returns exactly `false` for it. */
  datatype RightClick = RightClick(pointer: Pointer, layout: Layout, beforeDeclines: bool)

  /** The state of one controller and of the menu it owns. */
  datatype CtrlState = CtrlState(
    element: Element,
    dataTarget: Option<string>,  // `$element.data('target')`
    customBefore: bool,          // a `before` callback was supplied
    isBs4: bool,
    hasDropdown: bool,           // `options.target` was truthy, so `$dropdownMenu` names its nested dropdown
    listening: bool,             // the handlers `listen()` binds are in place
    isOpen: bool,                // the menu has class `showCss`
    dropdownOpen: bool,          // the nested `.dropdown-menu` has class `showCss`
    itemHandlerBound: bool,      // the menu's item-click handler
    htmlHandlerBound: bool,      // the document dismissal handler scoped to this menu
    style: Option<Css>)          // the inline style `show` last applied

  /** The open-state class of the two Bootstrap conventions. */
  function ShowCss(isBs4: bool): (css: string)
    ensures css == "show" <==> isBs4
    ensures css == "open" <==> !isBs4
  {
    if isBs4 then "show" else "open"
  }

  /** JavaScript truthiness of an optional string. */
  predicate Truthy(v: Option<string>) {
    v.Some? && v.value != ""
  }

  /** `isDisabled()`: class `disabled` or a `disabled` attribute. */
  predicate IsDisabled(e: Element) {
    "disabled" in e.classes || e.disabledAttr
  }

  /** `e.which === 27 || e.which === '27'`. */
  predicate IsEscape(k: Key) {
    k == Code(27) || k == CodeText("27")
  }

  /** `show` gets past both of its guards. */
  predicate ShowSucceeds(s: CtrlState, ev: RightClick) {
    !IsDisabled(s.element) && !(s.customBefore && ev.beforeDeclines)
  }

  /**
   * The controller invariant: the item handler is bound exactly while the menu
   * is open; the scoped dismissal handler only while it is open, and always then
   * until `destroy`; the nested dropdown is open exactly while the menu is, and
   * only with Bootstrap 4 and a `target` option to find it by.
   */
  predicate Consistent(s: CtrlState) {
    && s.itemHandlerBound == s.isOpen
    && (s.htmlHandlerBound ==> s.isOpen)
    && (s.listening ==> s.htmlHandlerBound == s.isOpen)
    && s.dropdownOpen == (s.isBs4 && s.hasDropdown && s.isOpen)
  }

  /**
   * `new ContextMenu(element, options)`: configured and listening, with its menu
   * closed. The nested dropdown `$(options.target + ' > .dropdown-menu')` comes
   * from the options alone: without a truthy `target` it selects nothing, even
   * when the element carries a `data-target`.
   */
  function Created(e: Element, o: Options): (s: CtrlState)
    ensures Consistent(s) && s.listening && !s.isOpen && !s.dropdownOpen && s.style.None?
    ensures s.element == e && s.isBs4 == o.isBs4 && s.customBefore == o.before
    ensures s.hasDropdown <==> Truthy(o.target)
    ensures Truthy(o.target) ==> s.dataTarget == o.target
    ensures !Truthy(o.target) ==> s.dataTarget == e.dataTarget
  {
    CtrlState(e, if Truthy(o.target) then o.target else e.dataTarget, o.before, o.isBs4, Truthy(o.target),
              true, false, false, false, false, None)
  }

  /** `closemenu()`. */
  function Closed(s: CtrlState): (r: CtrlState)
    ensures !s.isOpen ==> r == s
    ensures s.isOpen ==> !r.isOpen && !r.itemHandlerBound && !r.htmlHandlerBound
    ensures s.isOpen && s.isBs4 && s.hasDropdown ==> !r.dropdownOpen
    ensures !(s.isBs4 && s.hasDropdown) ==> r.dropdownOpen == s.dropdownOpen
    ensures r.(isOpen := s.isOpen, dropdownOpen := s.dropdownOpen,
               itemHandlerBound := s.itemHandlerBound, htmlHandlerBound := s.htmlHandlerBound) == s
  {
    if !s.isOpen then s
    else
      var removed := s.(isOpen := false, itemHandlerBound := false);
      var nested := if s.isBs4 && s.hasDropdown then removed.(dropdownOpen := false) else removed;
      nested.(htmlHandlerBound := false)
  }

  /** `show(e)`. */
  function Shown(s: CtrlState, ev: RightClick): (r: CtrlState)
    // a disabled element changes nothing
    ensures IsDisabled(s.element) ==> r == s
    // otherwise any open menu is closed first; a declining `before` leaves it closed
    ensures !IsDisabled(s.element) && s.customBefore && ev.beforeDeclines ==> r == Closed(s)
    // a successful show: open, positioned, both handlers bound
    ensures ShowSucceeds(s, ev) ==> r.isOpen && r.itemHandlerBound && r.htmlHandlerBound
    ensures ShowSucceeds(s, ev) ==> r.style == Some(GetPosition(ev.pointer, ev.layout))
    ensures ShowSucceeds(s, ev) && s.isBs4 && s.hasDropdown ==> r.dropdownOpen
    ensures !(s.isBs4 && s.hasDropdown) ==> r.dropdownOpen == s.dropdownOpen
    // the configuration is never touched
    ensures r.element == s.element && r.dataTarget == s.dataTarget && r.customBefore == s.customBefore
    ensures r.isBs4 == s.isBs4 && r.hasDropdown == s.hasDropdown && r.listening == s.listening
  {
    if IsDisabled(s.element) then s
    else
      var closed := Closed(s);
      if s.customBefore && ev.beforeDeclines then closed
      else
        var positioned := closed.(style := Some(GetPosition(ev.pointer, ev.layout)), isOpen := true, itemHandlerBound := true);
        var nested := if s.isBs4 && s.hasDropdown then positioned.(dropdownOpen := true) else positioned;
        nested.(htmlHandlerBound := true)
  }

  /** `keydown(e)`: Escape closes, any other key does nothing. */
  function AfterKeydown(s: CtrlState, k: Key): (r: CtrlState)
    ensures IsEscape(k) ==> r == Closed(s)
    ensures !IsEscape(k) ==> r == s
  {
    if IsEscape(k) then Closed(s) else s
  }

  /** `destroy()` as seen by this controller: its listeners and its scoped dismissal
      handler are gone; the menu's classes and its item handler stay. */
  function Destroyed(s: CtrlState): (r: CtrlState)
    ensures !r.listening && !r.htmlHandlerBound
    ensures r.(listening := s.listening, htmlHandlerBound := s.htmlHandlerBound) == s
  {
    s.(listening := false, htmlHandlerBound := false)
  }

  /** Every transition keeps the controller invariant. */
  lemma TransitionsKeepConsistent(s: CtrlState, ev: RightClick, k: Key)
    requires Consistent(s)
    ensures Consistent(Closed(s)) && Consistent(Shown(s, ev))
    ensures Consistent(AfterKeydown(s, k)) && Consistent(Destroyed(s))
  {
  }

  /** On a consistent controller, closing leaves the menu closed and both handlers unbound. */
  lemma CloseUnbindsAll(s: CtrlState)
    requires Consistent(s)
    ensures var r := Closed(s); !r.isOpen && !r.itemHandlerBound && !r.htmlHandlerBound
    ensures !Closed(s).dropdownOpen
  {
  }

  /** Closing twice is closing once. */
  lemma CloseIdempotent(s: CtrlState)
    ensures Closed(Closed(s)) == Closed(s)
  {
  }

  /** Showing twice with the same event is showing once. */
  lemma ShowIdempotent(s: CtrlState, ev: RightClick)
    ensures Shown(Shown(s, ev), ev) == Shown(s, ev)
  {
  }

  /** Showing an open menu first undoes the open state: it ends as a show from Closed would. */
  lemma ShowReopensAsFresh(s: CtrlState, ev: RightClick)
    requires !IsDisabled(s.element)
    ensures Shown(s, ev) == Shown(Closed(s), ev)
  {
  }

  /** A declined show on a consistent controller leaves no open class and no handler. */
  lemma DeclinedShowStaysClosed(s: CtrlState, ev: RightClick)
    requires Consistent(s) && !IsDisabled(s.element) && s.customBefore && ev.beforeDeclines
    ensures var r := Shown(s, ev); !r.isOpen && !r.itemHandlerBound && !r.htmlHandlerBound
    ensures !Shown(s, ev).dropdownOpen
  {
  }

  /** A disabled element ignores right-clicks: `show` changes nothing and does not stop the event. */
  lemma DisabledShowIsNoop(s: CtrlState, ev: RightClick)
    requires IsDisabled(s.element)
    ensures Shown(s, ev) == s && !ShowSucceeds(s, ev)
  {
  }

  /** Where `getMenu` looks: the selector it settled on, in the document or, failing that, inside the element. */
  datatype MenuRef = InDocument(selector: string) | InElement(findSelector: Option<string>)

  /** `getMenu`'s selector: `data('target')` when set, else the stripped `href`. */
  function MenuSelector(dataTarget: Option<string>, href: Option<string>): (sel: Option<string>)
    ensures Truthy(dataTarget) ==> sel == dataTarget
    ensures !Truthy(dataTarget) ==> (sel.Some? <==> href.Some?)
  {
    if Truthy(dataTarget) then dataTarget
    else match href
      case None => None
      case Some(h) => Some(Href.StripHref(h))
  }

  /** Without a target, an `href` free of line terminators yields its `#` fragment, a suffix of it. */
  lemma MenuSelectorFromHref(dataTarget: Option<string>, h: string)
    requires !Truthy(dataTarget) && Href.NoLineTerminator(h)
    ensures MenuSelector(dataTarget, Some(h)) == Some(Href.Fragment(h))
    ensures var sel := MenuSelector(dataTarget, Some(h)).value; |sel| <= |h| && sel == h[|h| - |sel|..]
  {
    Href.StripHrefIsFragment(h);
  }

  /** `getMenu()`: `$(selector)` when it matches something, else `$element.find(selector)`.
      `matching` is the set of selectors that match an element of the document. */
  function GetMenu(sel: Option<string>, matching: set<string>): (m: MenuRef)
    ensures m.InDocument? <==> sel.Some? && sel.value != "" && sel.value in matching
    ensures m.InDocument? ==> m.selector == sel.value
    ensures m.InElement? ==> m.findSelector == sel
  {
    if sel.Some? && sel.value != "" && sel.value in matching then InDocument(sel.value) else InElement(sel)
  }

  /** The controller object the plugin stores in `$element.data('context')`. */
  class ContextMenu {
    const element: Element
    const dataTarget: Option<string>
    const customBefore: bool
    const isBs4: bool
    const hasDropdown: bool
    const showCss: string
    var listening: bool
    var isOpen: bool
    var dropdownOpen: bool
    var itemHandlerBound: bool
    var htmlHandlerBound: bool
    var style: Option<Css>

    ghost function State(): CtrlState
      reads this
    {
      CtrlState(element, dataTarget, customBefore, isBs4, hasDropdown, listening, isOpen, dropdownOpen,
                itemHandlerBound, htmlHandlerBound, style)
    }

    ghost predicate Valid()
      reads this
    {
      Consistent(State()) && showCss == ShowCss(isBs4)
    }

    /** The constructor: record the options, note the target on the element, then `listen()`. */
    constructor (e: Element, o: Options)
      ensures Valid() && State() == Created(e, o)
    {
      element := e;
      customBefore := o.before;
      if Truthy(o.target) {
        dataTarget := o.target;
      } else {
        dataTarget := e.dataTarget;
      }
      isBs4 := o.isBs4;
      hasDropdown := Truthy(o.target);
      showCss := ShowCss(o.isBs4);
      isOpen, dropdownOpen, itemHandlerBound, htmlHandlerBound := false, false, false, false;
      style := None;
      listening := false;
      new;
      Listen();
    }

    /** `listen()`: bind the contextmenu, click and keydown handlers. */
    method Listen()
      modifies this
      ensures State() == old(State()).(listening := true)
    {
      listening := true;
    }

    /**
     * `getMenu()`, in its order of preference: `data('target')`, then the
     * fragment of the `href`, then a lookup inside the element.
     */
    function Menu(matching: set<string>): (m: MenuRef)
      reads this
      ensures Truthy(dataTarget) ==> m == GetMenu(dataTarget, matching)
      ensures !Truthy(dataTarget) && element.href.Some? && Href.NoLineTerminator(element.href.value) ==>
                m == GetMenu(Some(Href.Fragment(element.href.value)), matching)
      ensures !Truthy(dataTarget) && element.href.None? ==> m == InElement(None)
    {
      var sel := MenuSelector(dataTarget, element.href);
      assert !Truthy(dataTarget) && element.href.Some? && Href.NoLineTerminator(element.href.value) ==>
               sel == Some(Href.Fragment(element.href.value)) by {
        if !Truthy(dataTarget) && element.href.Some? && Href.NoLineTerminator(element.href.value) {
          MenuSelectorFromHref(dataTarget, element.href.value);
        }
      }
      GetMenu(sel, matching)
    }

    /** `closemenu()`: nothing unless the menu has `showCss`. */
    method CloseMenu()
      requires Valid()
      modifies this
      ensures Valid() && State() == Closed(old(State()))
    {
      if !isOpen {
        return;
      }
      isOpen := false;
      itemHandlerBound := false;
      if isBs4 && hasDropdown {
        dropdownOpen := false;
      }
      htmlHandlerBound := false;
    }

    /** `show(e)`; `consumed` is its `return false`, which makes jQuery stop the event. */
    method Show(ev: RightClick) returns (consumed: bool)
      requires Valid()
      modifies this
      ensures Valid() && State() == Shown(old(State()), ev)
      ensures consumed <==> ShowSucceeds(old(State()), ev)
    {
      consumed := false;
      if IsDisabled(element) {
        return;
      }
      CloseMenu();
      if customBefore && ev.beforeDeclines {
        return;
      }
      style := Some(GetPosition(ev.pointer, ev.layout));
      isOpen := true;
      itemHandlerBound := true;
      if isBs4 && hasDropdown {
        dropdownOpen := true;
      }
      htmlHandlerBound := true;
      consumed := true;
    }

    /** `keydown(e)`. */
    method Keydown(k: Key)
      requires Valid()
      modifies this
      ensures Valid() && State() == AfterKeydown(old(State()), k)
    {
      if IsEscape(k) {
        CloseMenu();
      }
    }

    /** `destroy()`, for this controller; the registry entry is dropped by the plugin. */
    method Destroy()
      requires Valid()
      modifies this
      ensures Valid() && State() == Destroyed(old(State()))
    {
      listening := false;
      htmlHandlerBound := false;
    }
  }
}
