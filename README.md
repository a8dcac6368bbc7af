# yii2-context-menu, modelled in Dafny

This project models two parts of the yii2 context-menu widget.

- The server side. The PHP widget checks its configuration in `init`. In
  `initOptions` it fills in the HTML ids and prepares the options it hands to
  the browser. The current widget (Bootstrap 3 or 4) and the older widget
  (Bootstrap 3 only) are both modelled.
- The client side. The `bootstrap-contextmenu` jQuery plugin keeps one
  `ContextMenu` controller per target element. The controller opens and
  closes the menu, positions it at the pointer, and finds the menu through
  `data-target` or the element's `href`. The plugin function creates each
  controller once and forwards method calls to it. A right-click inside a
  `[data-toggle="context"]` element shows that element's menu. A right-click
  outside every toggle element and every bound element runs the document's
  sweep, which closes the menus of all toggle elements.

Modules:

- `Wrappers`: an Option type.
- `PhpValues`: the PHP values the widget handles. It gives `empty()`,
  string conversion and `ArrayHelper::remove`.
- `WidgetOptions`: `initOptions` and the `init` checks as functions on
  values. It also holds `InitArrays`, the step-by-step version that both
  widget classes run.
- `Widget` and `LegacyWidget`: the two PHP widget classes. Their fields are
  updated in place.
- `Position`: `getPosition`.
- `Href`: the `href` stripping regular expression `/.*(?=#[^\s]*$)/`. It is
  modelled as JavaScript's leftmost, greedy backtracking match, with a
  reference definition (`Fragment`) to compare against.
- `Controller`: the controller class. Each operation is also a pure
  transition function on `CtrlState`, and the class methods are proved
  against those functions.
- `Plugin`: `$.fn.contextmenu` and the document right-click handlers. This
  includes a `Registry` class holding the controllers, and a ghost `model`
  map that is proved against `ApplyAll`, `Swept` and `OnRightClick`.

## Model

| member | source | states |
|---|---|---|
| WidgetOptions.WithDefaultId | src/ContextMenu.php:143-148 | an `id` that is empty in PHP's sense is replaced by the generated one; a non-empty `id` and every other key are kept |
| WidgetOptions.WrapOption | src/ContextMenu.php:151-156 | a callback option that is non-empty and not yet a `JsExpression` is wrapped in one; the key set and all other keys are unchanged |
| WidgetOptions.PreparePluginEffect | src/ContextMenu.php:149-156 | `target` is `#` followed by the container id; `isBs4` is set exactly when the widget knows the Bootstrap version; `before`/`onItem` are present exactly when they were, wrapped as needed; keys are the old ones plus `target` (and `isBs4`); other keys pass through |
| WidgetOptions.PrepareIds | src/ContextMenu.php:142-148 | the menu container and the dropdown list get `<id>-menu` and `<id>-menu-list` only when their id is empty in PHP's sense; nothing else in the list options changes |
| WidgetOptions.PreparePluginOptions | src/ContextMenu.php:149-156 | the plugin target names the final menu container; `isBs4` is set exactly when the widget knows the Bootstrap version; non-empty callbacks end up as `JsExpression`s, empty or already wrapped ones are kept; every other plugin option passes through |
| WidgetOptions.PrepareTags | src/ContextMenu.php:157-158 | the target and menu tags are the removed `tag` entries, defaulting to `span` and `div`; `tag` is gone from both attribute arrays and nothing else in them changes |
| WidgetOptions.InitArrays | src/ContextMenu.php:140-159 | the in-order steps of `initOptions` on the option arrays produce exactly `Prepare`, the function the three lemmas above describe |
| WidgetOptions.WrapJs | src/ContextMenu.php:151-156 | an empty or already wrapped value is kept; a non-empty result is always a `JsExpression`; the string the browser receives is the original one |
| WidgetOptions.PreparePlugin | src/ContextMenu.php:149-156 | no contract of its own: the plugin-option steps of `initOptions`, which `PreparePluginEffect` describes |
| WidgetOptions.Prepare | src/ContextMenu.php:140-159 | no contract of its own: all of `initOptions` on values, which `PrepareIds`, `PreparePluginOptions` and `PrepareTags` describe |
| WidgetOptions.WrapJsIdempotent | src/ContextMenu.php:151-156 | wrapping a callback a second time changes nothing |
| WidgetOptions.GeneratedIdNotEmpty | src/ContextMenu.php:144-147 | a generated id (`<id>-menu`, `<id>-menu-list`) is never empty in PHP's sense, whatever the target id |
| WidgetOptions.PrepareStable | src/ContextMenu.php:140-159 | running `initOptions` twice leaves the four option arrays as after the first run; the second run falls back to the `span`/`div` tags because `tag` has been removed |
| WidgetOptions.DropdownClass | src/ContextMenu.php:105 | Bootstrap 4 selects `\kartik\bs4dropdown\Dropdown`, otherwise `\yii\bootstrap\Dropdown`, and each only then |
| WidgetOptions.Message | src/ContextMenu.php:107-110 | no contract of its own: the two exception texts, which `MessageIdentifiesError` is about |
| WidgetOptions.MessageIdentifiesError | src/ContextMenu.php:107-110 | two errors with the same message are the same error: the text tells a missing class from unusable items and names the class exactly |
| WidgetOptions.CheckItems | ContextMenu.php:122-124 | `init` passes the items check exactly when `items` is a non-empty array; otherwise the error names the dropdown class |
| WidgetOptions.CheckInit | src/ContextMenu.php:105-111 | `init` succeeds exactly when the dropdown class exists and `items` is a non-empty array; a missing class is reported first, with its name |
| Widget.ContextMenuWidget.constructor | src/ContextMenu.php:65-96 | the widget starts with the given arrays and items, no tags and no dropdown class |
| Widget.ContextMenuWidget.InitOptions | src/ContextMenu.php:140-159 | the widget's arrays and tags become `Prepare` of the old ones with the widget's Bootstrap version; items and the dropdown class are unchanged |
| Widget.ContextMenuWidget.Init | src/ContextMenu.php:102-115 | the dropdown class is recorded first; the error returned is `CheckInit`'s; on success the options are prepared, and on failure nothing else changes |
| LegacyWidget.LegacyContextMenuWidget.constructor | ContextMenu.php:60-112 | the widget starts with the given arrays and items and no tags |
| LegacyWidget.LegacyContextMenuWidget.InitOptions | ContextMenu.php:150-168 | the arrays and tags become `Prepare` of the old ones without any `isBs4` option |
| LegacyWidget.LegacyContextMenuWidget.Init | ContextMenu.php:119-128 | the error is the items check naming `\yii\bootstrap\Dropdown`; on success the options are prepared, and on failure nothing changes |
| Position.GetPosition | src/assets/js/bootstrap-contextmenu.js:127-154 | position `absolute`, z-index 9999; the menu's window top is the pointer's y, or the menu ends at the pointer when it would overflow the bottom; the window left is the pointer's x, or the menu ends at the pointer when it overflows the right and there is room on the left |
| Position.UnflippedFitsBelow | src/assets/js/bootstrap-contextmenu.js:132-138 | a menu placed below the pointer fits in the window height |
| Position.FlippedLeftStaysVisible | src/assets/js/bootstrap-contextmenu.js:139-141 | a menu flipped to the left of the pointer starts inside the window |
| Position.OverflowKeptOnlyWithoutRoom | src/assets/js/bootstrap-contextmenu.js:139-145 | a menu of non-zero width that overflows the right is left there only when there is no room on the left |
| Position.PointerOnVerticalEdge | src/assets/js/bootstrap-contextmenu.js:132-138 | the pointer is always on the menu's top or bottom edge |
| Position.VerticalExamples | src/assets/js/bootstrap-contextmenu.js:132-138 | a 200px menu at y=500 sits at 500 in an 800px window and at 300 in a 600px one |
| Href.RunEnd | src/assets/js/bootstrap-contextmenu.js:120 | `.*` from a position stops at the end or at the first line terminator |
| Href.LastIndexOf | src/assets/js/bootstrap-contextmenu.js:120 | the index returned holds the character and no later index does; no result means the character is absent |
| Href.Fragment | src/assets/js/bootstrap-contextmenu.js:120 | the reference result of the strip: a suffix of the href that is the href itself or starts with `#` and has no further `#` or white space |
| Href.Backtrack | src/assets/js/bootstrap-contextmenu.js:120 | a position it returns lies in the range searched and the lookahead `#[^\s]*$` holds there |
| Href.Search | src/assets/js/bootstrap-contextmenu.js:120 | a match it returns starts at or after the search position, and `.*` then the lookahead match there |
| Href.StripHref | src/assets/js/bootstrap-contextmenu.js:120 | the replacement never lengthens the href, and a changed href still holds the `#` the lookahead found |
| Href.BacktrackRightmost | src/assets/js/bootstrap-contextmenu.js:120 | greedy backtracking finds the rightmost position in range where the lookahead `#[^\s]*$` holds, or reports that there is none |
| Href.SearchFailsWithoutLookahead | src/assets/js/bootstrap-contextmenu.js:120 | with no position where the lookahead holds, the regular expression does not match and the href is kept |
| Href.LookaheadAtLastHash | src/assets/js/bootstrap-contextmenu.js:120 | if the lookahead holds anywhere, it holds at the last `#`, which is no earlier |
| Href.StripHrefIsFragment | src/assets/js/bootstrap-contextmenu.js:118-121 | for an href without line terminators, the stripped selector is the reference `Fragment`: everything from the last `#` when what follows has no white space, else the whole href |
| Href.StripHrefIsSuffix | src/assets/js/bootstrap-contextmenu.js:120 | without line terminators, the stripped selector is a suffix of the href |
| Href.StripHrefIdempotent | src/assets/js/bootstrap-contextmenu.js:120 | without line terminators, stripping twice is stripping once |
| Href.LineTerminatorKeepsPrefix | src/assets/js/bootstrap-contextmenu.js:120 | `.` stops at a newline, so `a\nb#x` becomes `a\n#x` |
| Href.StrippedNotAlwaysSuffix | src/assets/js/bootstrap-contextmenu.js:120 | some href (one with a line terminator) is not stripped to a suffix of itself |
| Controller.ShowCss | src/assets/js/bootstrap-contextmenu.js:33-34 | the open-state class is `show` exactly with Bootstrap 4 and `open` exactly without |
| Controller.Created | src/assets/js/bootstrap-contextmenu.js:22-36 | a new controller is listening, closed, has no inline style, keeps the element and the options' `isBs4`/`before`; a non-empty `target` option replaces the element's `data-target`; the nested dropdown is found only through a non-empty `target` option, never through `data-target` |
| Controller.Closed | src/assets/js/bootstrap-contextmenu.js:68-90 | a closed menu is left as it is; an open one loses its class, its item handler and its scoped dismissal handler, and with Bootstrap 4 and a `target` option the nested dropdown closes; nothing else changes |
| Controller.Shown | src/assets/js/bootstrap-contextmenu.js:41-67 | a disabled element changes nothing; otherwise the menu is closed first and stays closed if `before` declines; a successful show opens it at `getPosition` and binds both handlers, and with Bootstrap 4 and a `target` option opens the nested dropdown; the configuration is unchanged |
| Controller.AfterKeydown | src/assets/js/bootstrap-contextmenu.js:91-95 | key code 27, as a number or a string, closes the menu; any other key changes nothing |
| Controller.Destroyed | src/assets/js/bootstrap-contextmenu.js:107-110 | listening stops and the scoped dismissal handler is gone; nothing else changes |
| Controller.TransitionsKeepConsistent | src/assets/js/bootstrap-contextmenu.js:41-110 | every operation keeps the invariant: item handler bound exactly while open, dismissal handler bound only while open and, while listening, always then; the nested dropdown is open exactly while the menu is, and only with Bootstrap 4 and a `target` option |
| Controller.CloseUnbindsAll | src/assets/js/bootstrap-contextmenu.js:68-90 | on a consistent controller, `closemenu` leaves the menu closed with no handler bound |
| Controller.CloseIdempotent | src/assets/js/bootstrap-contextmenu.js:71-73 | closing twice is closing once |
| Controller.ShowIdempotent | src/assets/js/bootstrap-contextmenu.js:41-67 | showing twice with the same event is showing once |
| Controller.ShowReopensAsFresh | src/assets/js/bootstrap-contextmenu.js:46 | on an enabled element, showing an open menu ends as a show from closed would |
| Controller.DeclinedShowStaysClosed | src/assets/js/bootstrap-contextmenu.js:46-49 | when `before` returns `false`, the menu ends closed with no handler bound |
| Controller.DisabledShowIsNoop | src/assets/js/bootstrap-contextmenu.js:43-45 | on an element with class `disabled` or a `disabled` attribute, `show` changes nothing and does not stop the event |
| Controller.IsDisabled | src/assets/js/bootstrap-contextmenu.js:111-114 | no contract of its own: the test `Shown` and `DisabledShowIsNoop` guard on |
| Controller.MenuSelector | src/assets/js/bootstrap-contextmenu.js:116-121 | a non-empty `data('target')` is the selector; otherwise there is one exactly when there is an `href` |
| Controller.MenuSelectorFromHref | src/assets/js/bootstrap-contextmenu.js:116-121 | without a target, an href without line terminators gives its `Fragment`, a suffix of it |
| Controller.GetMenu | src/assets/js/bootstrap-contextmenu.js:123-125 | the document menu is used exactly when the selector is non-empty and matches; otherwise the element is searched |
| Controller.ContextMenu.constructor | src/assets/js/bootstrap-contextmenu.js:22-36 | the new controller's state is `Created` and its open class matches `isBs4` |
| Controller.ContextMenu.Listen | src/assets/js/bootstrap-contextmenu.js:102-106 | the controller becomes listening and nothing else changes |
| Controller.ContextMenu.CloseMenu | src/assets/js/bootstrap-contextmenu.js:68-90 | the new state is `Closed` of the old one, and the invariant is kept |
| Controller.ContextMenu.Menu | src/assets/js/bootstrap-contextmenu.js:115-126 | `getMenu` prefers `data('target')`, then the `#` fragment of an `href` without line terminators, and without either looks inside the element |
| Controller.ContextMenu.Show | src/assets/js/bootstrap-contextmenu.js:41-67 | the new state is `Shown` of the old one, and the invariant is kept; it returns `false` exactly when the menu was opened |
| Controller.ContextMenu.Keydown | src/assets/js/bootstrap-contextmenu.js:91-95 | the new state is `AfterKeydown` of the old one |
| Controller.ContextMenu.Destroy | src/assets/js/bootstrap-contextmenu.js:107-110 | the new state is `Destroyed` of the old one |
| Plugin.Run | src/assets/js/bootstrap-contextmenu.js:168-170 | a method call never changes the element, the target, the callbacks or the Bootstrap version of the controller; only `destroy` stops it listening |
| Plugin.Found | src/assets/js/bootstrap-contextmenu.js:163-167 | afterwards the element is bound; an existing controller is kept; a new one is built from the options |
| Plugin.Dispatch | src/assets/js/bootstrap-contextmenu.js:168-170 | only the element's own entry changes; `destroy` removes it; without a method name nothing changes |
| Plugin.Step | src/assets/js/bootstrap-contextmenu.js:163-170 | no contract of its own: `Found` then `Dispatch`, which `StepEffect` describes |
| Plugin.ApplyAll | src/assets/js/bootstrap-contextmenu.js:161-172 | no contract of its own: `Step` over the collection in order, which the lemmas below describe |
| Plugin.StepEffect | src/assets/js/bootstrap-contextmenu.js:162-171 | for one element: other elements are untouched; an existing controller is reused and new options are ignored; a missing one is created with the options object, or with no options when a method is named; the named method runs on it; `destroy` removes the entry |
| Plugin.ApplyAllKeys | src/assets/js/bootstrap-contextmenu.js:161-172 | after a configuring call, the bound elements are the old ones plus every element of the collection |
| Plugin.ConfigureKeepsExisting | src/assets/js/bootstrap-contextmenu.js:165-167 | a configuring call never replaces an existing controller |
| Plugin.ConfigureCreatesFromOptions | src/assets/js/bootstrap-contextmenu.js:165-167 | each controller a configuring call creates belongs to an element of the collection and is built from the options given |
| Plugin.ConfigureBoundIsNoop | src/assets/js/bootstrap-contextmenu.js:165-170 | configuring elements that are all bound changes nothing |
| Plugin.ReconfigureIgnored | src/assets/js/bootstrap-contextmenu.js:163-167 | a second configuring call over the same elements, with any options, changes nothing |
| Plugin.RunKeepsConsistent | src/assets/js/bootstrap-contextmenu.js:168-170 | every method the plugin can call keeps the controller invariant |
| Plugin.ApplyAllKeepsConsistent | src/assets/js/bootstrap-contextmenu.js:161-172 | every plugin call keeps every bound controller consistent |
| Plugin.Swept | src/assets/js/bootstrap-contextmenu.js:180-188 | the sweep keeps every controller bound |
| Plugin.SweepClosesToggles | src/assets/js/bootstrap-contextmenu.js:180-188 | the sweep touches only toggle elements and leaves each consistent one closed with no handler bound |
| Plugin.SweptSnoc | src/assets/js/bootstrap-contextmenu.js:181-187 | sweeping one more toggle element closes its controller, or changes nothing if it has none |
| Plugin.ToggleRightClick | src/assets/js/bootstrap-contextmenu.js:102-194 | no contract of its own: the element's own `show`, then the delegated `show` unless the first returned `false`, and never the sweep |
| Plugin.OnRightClick | src/assets/js/bootstrap-contextmenu.js:179-194 | no contract of its own: `ToggleRightClick` inside a toggle element, the sweep outside every toggle element and every bound element |
| Plugin.ToggleRightClickShowsOnce | src/assets/js/bootstrap-contextmenu.js:102-194 | a right-click inside a toggle element amounts to one `show` on its controller, created without options if it had none; every other controller is unchanged |
| Plugin.IntendedRightClick | src/assets/js/bootstrap-contextmenu.js:179-194 | no contract of its own: the sweep, then the `show` of the toggle element clicked |
| Plugin.SweepThenShow | src/assets/js/bootstrap-contextmenu.js:179-194 | in the intended order, after a right-click on a toggle element every other toggle menu is closed, non-toggle controllers are untouched, and the clicked one ends as `Shown` of its closed state |
| Plugin.ToggleClickKeepsOthersOpen | src/assets/js/bootstrap-contextmenu.js:179-194 | as the code runs, a right-click inside one toggle element leaves another toggle element's open menu open, while the intended order closes it |
| Plugin.Registry.constructor | src/assets/js/bootstrap-contextmenu.js:161-172 | no element has a controller yet |
| Plugin.Registry.Find | src/assets/js/bootstrap-contextmenu.js:163-167 | the element's stored controller is returned; when there is none a fresh one is created and stored; `model` becomes `Found` |
| Plugin.Registry.ShowOn | src/assets/js/bootstrap-contextmenu.js:168-170 | only that element's controller changes, to `Shown`; it reports whether `show` returned `false` |
| Plugin.Registry.CloseOn | src/assets/js/bootstrap-contextmenu.js:168-170 | only that element's controller changes, to `Closed` |
| Plugin.Registry.KeydownOn | src/assets/js/bootstrap-contextmenu.js:168-170 | only that element's controller changes, to `AfterKeydown` |
| Plugin.Registry.DestroyOn | src/assets/js/bootstrap-contextmenu.js:107-110 | the controller's state becomes `Destroyed` and its entry is removed; all others are unchanged |
| Plugin.Registry.DispatchOn | src/assets/js/bootstrap-contextmenu.js:168-170 | the named method, if any, runs on the element's controller; `model` becomes `Dispatch` of the old one |
| Plugin.Registry.StepOne | src/assets/js/bootstrap-contextmenu.js:162-171 | `model` becomes `Step` of the old one; the controller used is the one already stored for the element, or a fresh one; it stays stored unless `destroy` was called, which removes only that entry; no other stored controller changes, and no new one appears besides it |
| Plugin.Registry.Contextmenu | src/assets/js/bootstrap-contextmenu.js:161-172 | `model` becomes `ApplyAll` over the collection, in order; every stored controller was stored before or is fresh; unless the call is `destroy`, every element bound before keeps the same controller object |
| Plugin.Registry.Sweep | src/assets/js/bootstrap-contextmenu.js:180-188 | `model` becomes `Swept`; the stored controllers are the same |
| Plugin.Registry.HandleRightClick | src/assets/js/bootstrap-contextmenu.js:102-194 | `model` becomes `OnRightClick`: inside a toggle element, the element's own `show` and, unless it returned `false`, the delegated `show`; elsewhere the sweep; every element bound before keeps the same controller object |

## Left out

- Assets, rendering and registration are not modelled. This covers the asset bundle classes, `run()` and the HTML it echoes, `registerAssets`, `registerPlugin`, and the tag `init` echoes.
- The base widget's `parent::init()` and `isBs4()` are not part of this model. The Bootstrap version is a parameter of the current widget.
- `class_exists` is a parameter of `Init`, because it asks the PHP runtime.
- `yii\helpers\ArrayHelper::remove` and `yii\web\JsExpression` are not part of this model. `PhpValues.Remove` and the `JsExpr` value implement their documented behaviour.
- `menuOptions` that starts as `null` is modelled as an empty array, which is what PHP's auto-vivification produces. A `menuOptions` that is some other non-array value, and PHP floats and objects other than `JsExpression`, are not modelled.
- Some of jQuery's right-click dispatch is not modelled:
  - a right-click inside nested toggle elements; the model takes the innermost one;
  - a right-click inside an element that was bound by a plugin call but is not a toggle element; its own `show` runs before the event reaches the document;
  - `preventDefault`, which only suppresses the browser's own menu;
  - the `scopes` filter itself; whether the element's own handler fires is the parameter `ownFires`.
- The document `click` dismissal and the `keydown` broadcast that `listen` binds are not modelled as events. `closemenu` and `keydown` are operations the caller invokes on a controller.
- The `show.bs.context`, `shown.bs.context`, `hide.bs.context` and `hidden.bs.context` events, and the `onItem` callback, are not modelled. They run page code. A `before` callback is reduced to whether it returns exactly `false`.
- Each controller's menu state is its own. The nested dropdown `$(options.target + ' > .dropdown-menu')` is taken to exist whenever the `target` option is non-empty. A menu element shared by several controllers, and an element's classes or attributes changing after the controller is created, are not modelled.
- `Position.GetPosition` uses integer pixels. Fractional sizes and the NaN that a missing `.dropdown-menu` produces are not modelled.
- `$menu.selector` in the `html` dismissal handler is not modelled. It is undefined in jQuery 3, so the handler is not scoped there. The model treats it as this menu's handler.
- Controller.Shown: the menu that `getMenu` selects is taken to exist. When the selector matches nothing, the source still binds the `html` dismissal handler, and `closemenu` returns early because the empty set has no open class, so that handler stays bound for good. The model instead marks the menu open, and `Consistent`, `CloseUnbindsAll` and `SweepClosesToggles` rest on this assumption.
- Controller.Destroyed: only this controller's dismissal handlers are dropped. In the source, `$('html').off('.context.data-api')` also removes the document handlers of every other controller.
- Plugin.Step: only the method names `show`, `closemenu`, `keydown` and `destroy` are modelled. Calling any other property name, or an unknown one, is not.
- Controller.Created: jQuery's coercion of `data-*` attribute values is not modelled, here or in `Controller.MenuSelector`. `data('target')` is the string or absence given in `Element`.
- Href.StripHrefIsSuffix: the suffix and fragment properties are proved only for hrefs without line terminators. `Href.LineTerminatorKeepsPrefix` and `Href.StrippedNotAlwaysSuffix` show that the regular expression does not strip to a suffix when a line terminator comes before the last `#`.
- The initial DOM state is taken to be closed. A menu that already carries the open class in the page's HTML is not modelled.

## Findings

| source | as written | input that shows it | evidently intended | confidence | as-written member | corrected member |
|---|---|---|---|---|---|---|
| src/assets/js/bootstrap-contextmenu.js:179-194 | jQuery runs the delegated `show` handler before the document's direct sweep, and its `stopPropagation()` skips the sweep; a bound toggle element's own `show` returns `false`, so the event never reaches the document | toggle elements 0 and 1, element 1's menu open; right-click inside element 0 | the sweep closes the other menus before the clicked one is shown | medium, not executed | Plugin.ToggleClickKeepsOthersOpen | Plugin.SweepThenShow |
