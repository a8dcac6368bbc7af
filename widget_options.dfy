/**
 * What the widget's `initOptions()` does to its four option arrays, and the
 * configuration checks of `init()`, as pure functions over PHP arrays. Both the
 * current widget (src/ContextMenu.php) and the legacy one (ContextMenu.php)
 * are specified by these functions; they differ only in whether `isBs4` is
 * written into the plugin options and in the dropdown-class check.
 */
module WidgetOptions {
  import opened Wrappers
  import opened PhpValues

  /** The widget state `initOptions()` reads and writes. */
  datatype WidgetConfig = WidgetConfig(
    options: PhpArray,         // HTML attributes of the target container
    menuContainer: PhpArray,   // HTML attributes of the menu container
    menuOptions: PhpArray,     // HTML attributes of the dropdown list
    pluginOptions: PhpArray,   // options passed to the client plugin
    targetTag: PhpValue,       // the private `_targetTag`
    menuTag: PhpValue)         // the private `_menuTag`

  /** The id of the target container, `$this->options['id']`. */
  function TargetId(c: WidgetConfig): string {
    ToStr(Lookup(c.options, "id"))
  }

  /** `if (empty($a['id'])) { $a['id'] = $generated; }` */
  function WithDefaultId(a: PhpArray, generated: string): (r: PhpArray)
    ensures "id" in r && r.Keys == a.Keys + {"id"}
    ensures r["id"] == if IsEmptyAt(a, "id") then Str(generated) else a["id"]
    ensures forall k :: k in a && k != "id" ==> r[k] == a[k]
  {
    if IsEmptyAt(a, "id") then a["id" := Str(generated)] else a
  }

  /**
   * `new JsExpression($v)` unless the value is empty or already wrapped: a
   * non-empty result is always an expression, and its text is the original's.
   */
  function WrapJs(v: PhpValue): (r: PhpValue)
    ensures IsEmpty(v) || v.JsExpr? ==> r == v
    ensures !IsEmpty(r) ==> r.JsExpr?
    ensures ToStr(r) == ToStr(v)
  {
    if !IsEmpty(v) && !v.JsExpr? then JsExpr(v) else v
  }

  /** The wrapping of one plugin option; an absent key stays absent. */
  function WrapOption(a: PhpArray, key: string): (r: PhpArray)
    ensures r.Keys == a.Keys
    ensures key in a ==> r[key] == WrapJs(a[key])
    ensures forall k :: k in a && k != key ==> r[k] == a[k]
  {
    if key in a then a[key := WrapJs(a[key])] else a
  }

  /** The in-place form of the id default, as `initOptions()` writes it, is `WithDefaultId`. */
  lemma DefaultIdStep(a: PhpArray, generated: string, after: PhpArray)
    requires after == if IsEmptyAt(a, "id") then a["id" := Str(generated)] else a
    ensures after == WithDefaultId(a, generated)
  {
  }

  /** The in-place form of the wrapping, as `initOptions()` writes it, is `WrapOption`. */
  lemma WrapOptionStep(a: PhpArray, key: string, after: PhpArray)
    requires after == if !IsEmptyAt(a, key) && !a[key].JsExpr? then a[key := JsExpr(a[key])] else a
    ensures after == WrapOption(a, key)
  {
    if key in a && (IsEmpty(a[key]) || a[key].JsExpr?) {
      assert a[key := a[key]] == a;
    }
  }

  /** The keys of the plugin options that carry JavaScript callbacks. */
  const CallbackKeys: set<string> := {"before", "onItem"}

  /** The plugin options after `initOptions()`, given the final menu container id. */
  function PreparePlugin(po: PhpArray, containerId: PhpValue, bs4: Option<bool>): (r: PhpArray) {
    var flagged := if bs4.Some? then po["isBs4" := Bool(bs4.value)] else po;
    var targeted := flagged["target" := Str("#" + ToStr(containerId))];
    WrapOption(WrapOption(targeted, "before"), "onItem")
  }

  /** What `initOptions()` does to the plugin options. */
  lemma PreparePluginEffect(po: PhpArray, containerId: PhpValue, bs4: Option<bool>)
    ensures "target" in PreparePlugin(po, containerId, bs4) && PreparePlugin(po, containerId, bs4)["target"] == Str("#" + ToStr(containerId))
    ensures bs4.Some? ==> "isBs4" in PreparePlugin(po, containerId, bs4) && PreparePlugin(po, containerId, bs4)["isBs4"] == Bool(bs4.value)
    ensures forall k :: k in CallbackKeys ==> (k in PreparePlugin(po, containerId, bs4) <==> k in po)
    ensures forall k :: (k in CallbackKeys && k in po) ==> PreparePlugin(po, containerId, bs4)[k] == WrapJs(po[k])
    ensures PreparePlugin(po, containerId, bs4).Keys == po.Keys + {"target"} + (if bs4.Some? then {"isBs4"} else {})
    ensures forall k :: (k in po && k !in CallbackKeys && k != "target" && (bs4.Some? ==> k != "isBs4"))
                          ==> PreparePlugin(po, containerId, bs4)[k] == po[k]
  {
  }

  /**
   * The effect of `initOptions()`. `bs4` is the `isBs4()` flag the current
   * widget stores under `pluginOptions['isBs4']`; it is `None` for the legacy
   * widget, which stores nothing there.
   */
  function Prepare(c: WidgetConfig, bs4: Option<bool>): (r: WidgetConfig) {
    var id := TargetId(c);
    var container := WithDefaultId(c.menuContainer, id + "-menu");
    var list := WithDefaultId(c.menuOptions, id + "-menu-list");
    var plugin := PreparePlugin(c.pluginOptions, container["id"], bs4);
    var targetTag := Remove(c.options, "tag", Str("span"));
    var menuTag := Remove(container, "tag", Str("div"));
    WidgetConfig(targetTag.1, menuTag.1, list, plugin, targetTag.0, menuTag.0)
  }

  /** The ids `initOptions()` gives the menu container and the dropdown list. */
  lemma PrepareIds(c: WidgetConfig, bs4: Option<bool>)
    // menu container id: generated only when empty
    ensures "id" in Prepare(c, bs4).menuContainer
    ensures IsEmptyAt(c.menuContainer, "id") ==> Prepare(c, bs4).menuContainer["id"] == Str(TargetId(c) + "-menu")
    ensures !IsEmptyAt(c.menuContainer, "id") ==> Prepare(c, bs4).menuContainer["id"] == c.menuContainer["id"]
    // dropdown list id: generated only when empty, nothing else in the list options changes
    ensures "id" in Prepare(c, bs4).menuOptions
    ensures IsEmptyAt(c.menuOptions, "id") ==> Prepare(c, bs4).menuOptions["id"] == Str(TargetId(c) + "-menu-list")
    ensures !IsEmptyAt(c.menuOptions, "id") ==> Prepare(c, bs4).menuOptions["id"] == c.menuOptions["id"]
    ensures Prepare(c, bs4).menuOptions.Keys == c.menuOptions.Keys + {"id"}
    ensures forall k :: k in c.menuOptions && k != "id" ==> Prepare(c, bs4).menuOptions[k] == c.menuOptions[k]
  {
  }

  /** The plugin options after `initOptions()`. */
  lemma PreparePluginOptions(c: WidgetConfig, bs4: Option<bool>)
    // the client target always names the final menu container, whatever the caller set
    ensures "target" in Prepare(c, bs4).pluginOptions
    ensures Prepare(c, bs4).pluginOptions["target"] == Str("#" + ToStr(Prepare(c, bs4).menuContainer["id"]))
    ensures bs4.Some? ==> "isBs4" in Prepare(c, bs4).pluginOptions && Prepare(c, bs4).pluginOptions["isBs4"] == Bool(bs4.value)
    // callbacks: wrapped once, empty ones and wrapped ones left as they are
    ensures forall k :: k in CallbackKeys ==> (k in Prepare(c, bs4).pluginOptions <==> k in c.pluginOptions)
    ensures forall k :: (k in CallbackKeys && k in c.pluginOptions && (IsEmpty(c.pluginOptions[k]) || c.pluginOptions[k].JsExpr?))
                          ==> Prepare(c, bs4).pluginOptions[k] == c.pluginOptions[k]
    ensures forall k :: (k in CallbackKeys && k in c.pluginOptions && !IsEmpty(c.pluginOptions[k]) && !c.pluginOptions[k].JsExpr?)
                          ==> Prepare(c, bs4).pluginOptions[k] == JsExpr(c.pluginOptions[k])
    ensures forall k :: (k in CallbackKeys && k in Prepare(c, bs4).pluginOptions && !IsEmpty(Prepare(c, bs4).pluginOptions[k])) ==> Prepare(c, bs4).pluginOptions[k].JsExpr?
    // every other plugin option passes through
    ensures Prepare(c, bs4).pluginOptions.Keys == c.pluginOptions.Keys + {"target"} + (if bs4.Some? then {"isBs4"} else {})
    ensures forall k :: (k in c.pluginOptions && k !in CallbackKeys && k != "target" && (bs4.Some? ==> k != "isBs4"))
                          ==> Prepare(c, bs4).pluginOptions[k] == c.pluginOptions[k]
  {
    var container := WithDefaultId(c.menuContainer, TargetId(c) + "-menu");
    PreparePluginEffect(c.pluginOptions, container["id"], bs4);
    assert "id" != "tag";
  }

  /** The two tags `initOptions()` pops, and what is left of the attribute arrays. */
  lemma PrepareTags(c: WidgetConfig, bs4: Option<bool>)
    // the tags: popped from the two attribute arrays, with their defaults
    ensures Prepare(c, bs4).targetTag == (if "tag" in c.options then c.options["tag"] else Str("span"))
    ensures Prepare(c, bs4).menuTag == (if "tag" in c.menuContainer then c.menuContainer["tag"] else Str("div"))
    ensures Prepare(c, bs4).options == c.options - {"tag"}
    ensures "tag" !in Prepare(c, bs4).menuContainer
    ensures Prepare(c, bs4).menuContainer.Keys == (c.menuContainer.Keys + {"id"}) - {"tag"}
    ensures forall k :: k in c.menuContainer && k != "id" && k != "tag" ==> Prepare(c, bs4).menuContainer[k] == c.menuContainer[k]
  {
    assert "id" != "tag";
  }

  /**
   * `initOptions()` as the source writes it: one in-place step after another on
   * the four arrays. PHP arrays are values, so the steps work on copies that the
   * widgets store back into their fields.
   */
  method InitArrays(c: WidgetConfig, bs4: Option<bool>) returns (r: WidgetConfig)
    ensures r == Prepare(c, bs4)
  {
    var options, menuContainer, menuOptions, pluginOptions := c.options, c.menuContainer, c.menuOptions, c.pluginOptions;
    var id := ToStr(Lookup(options, "id"));
    if IsEmptyAt(menuContainer, "id") {
      menuContainer := menuContainer["id" := Str(id + "-menu")];
    }
    DefaultIdStep(c.menuContainer, id + "-menu", menuContainer);
    if IsEmptyAt(menuOptions, "id") {
      menuOptions := menuOptions["id" := Str(id + "-menu-list")];
    }
    DefaultIdStep(c.menuOptions, id + "-menu-list", menuOptions);
    if bs4.Some? {
      pluginOptions := pluginOptions["isBs4" := Bool(bs4.value)];
    }
    pluginOptions := pluginOptions["target" := Str("#" + ToStr(menuContainer["id"]))];
    ghost var targeted := pluginOptions;
    if !IsEmptyAt(pluginOptions, "before") && !pluginOptions["before"].JsExpr? {
      pluginOptions := pluginOptions["before" := JsExpr(pluginOptions["before"])];
    }
    WrapOptionStep(targeted, "before", pluginOptions);
    ghost var wrapped := pluginOptions;
    if !IsEmptyAt(pluginOptions, "onItem") && !pluginOptions["onItem"].JsExpr? {
      pluginOptions := pluginOptions["onItem" := JsExpr(pluginOptions["onItem"])];
    }
    WrapOptionStep(wrapped, "onItem", pluginOptions);
    assert pluginOptions == PreparePlugin(c.pluginOptions, menuContainer["id"], bs4);
    var targetTag, menuTag;
    var popped := Remove(options, "tag", Str("span"));
    targetTag, options := popped.0, popped.1;
    popped := Remove(menuContainer, "tag", Str("div"));
    menuTag, menuContainer := popped.0, popped.1;
    r := WidgetConfig(options, menuContainer, menuOptions, pluginOptions, targetTag, menuTag);
  }

  /** Wrapping a callback twice is wrapping it once. */
  lemma WrapJsIdempotent(v: PhpValue)
    ensures WrapJs(WrapJs(v)) == WrapJs(v)
  {
  }

  /** A generated id is never PHP-empty, so a second pass would keep it. */
  lemma GeneratedIdNotEmpty(id: string, suffix: string)
    requires |suffix| > 1
    ensures !IsEmpty(Str(id + suffix))
  {
    assert |id + suffix| > 1;
  }

  /**
   * Running `initOptions()` a second time on its own output changes none of the
   * three option arrays: the ids are no longer empty, the target is recomputed
   * equal, and the callbacks are already wrapped. Only the tags fall back to their
   * defaults, because the first pass removed the `tag` keys.
   */
  lemma {:induction false} PrepareStable(c: WidgetConfig, bs4: Option<bool>)
    ensures var once := Prepare(c, bs4);
            var twice := Prepare(once, bs4);
            && twice.options == once.options
            && twice.menuContainer == once.menuContainer
            && twice.menuOptions == once.menuOptions
            && twice.pluginOptions == once.pluginOptions
            && twice.targetTag == Str("span")
            && twice.menuTag == Str("div")
  {
    var once := Prepare(c, bs4);
    var twice := Prepare(once, bs4);
    PrepareIds(c, bs4);
    PrepareIds(once, bs4);
    PreparePluginOptions(c, bs4);
    PreparePluginOptions(once, bs4);
    PrepareTags(c, bs4);
    PrepareTags(once, bs4);
    var id := TargetId(c);
    if IsEmptyAt(c.menuContainer, "id") {
      GeneratedIdNotEmpty(id, "-menu");
    }
    assert !IsEmptyAt(once.menuContainer, "id");
    if IsEmptyAt(c.menuOptions, "id") {
      GeneratedIdNotEmpty(id, "-menu-list");
    }
    assert !IsEmptyAt(once.menuOptions, "id");
    assert twice.menuContainer == once.menuContainer;
    assert twice.menuOptions == once.menuOptions;
    assert twice.pluginOptions.Keys == once.pluginOptions.Keys;
    forall k | k in once.pluginOptions
      ensures twice.pluginOptions[k] == once.pluginOptions[k]
    {
      if k in CallbackKeys && k in c.pluginOptions {
        WrapJsIdempotent(c.pluginOptions[k]);
      }
    }
  }

  /** The exceptions `init()` raises. */
  datatype InitError =
    | DropdownMissing(className: string)   // the dropdown widget class is not installed
    | ItemsRequired(className: string)     // `items` is empty or not an array

  /** The exception text (an `InvalidConfigException` message). */
  function Message(e: InitError): (msg: string) {
    match e
    case DropdownMissing(cls) => "The required dropdown class '" + cls + "' is not installed or invalid."
    case ItemsRequired(cls) => "The 'items' property " + "must be set as required in '" + cls + "'."
  }

  /** The message tells the two errors apart and names the class exactly. */
  lemma MessageIdentifiesError(e1: InitError, e2: InitError)
    requires Message(e1) == Message(e2)
    ensures e1 == e2
  {
    var m := Message(e1);
    if e1.DropdownMissing? != e2.DropdownMissing? {
      // "The r..." against "The '...": they differ at index 4
      MessageFifthChar(e1);
      MessageFifthChar(e2);
    } else {
      var p := |m| - |e1.className| - (if e1.DropdownMissing? then 30 else 2);
      assert |e1.className| == |e2.className|;
      assert e1.className == m[p..p + |e1.className|] == e2.className;
    }
  }

  lemma MessageFifthChar(e: InitError)
    ensures |Message(e)| > 4 && Message(e)[4] == if e.DropdownMissing? then 'r' else '\''
  {
    var a := if e.DropdownMissing? then "The required dropdown class '" else "The 'items' property ";
    assert a[4] == if e.DropdownMissing? then 'r' else '\'';
  }

  /** The dropdown widget class the current widget renders with. */
  function DropdownClass(bs4: bool): (cls: string)
    ensures bs4 <==> cls == "\\kartik\\bs4dropdown\\Dropdown"
    ensures !bs4 <==> cls == "\\yii\\bootstrap\\Dropdown"
  {
    if bs4 then "\\kartik\\bs4dropdown\\Dropdown" else "\\yii\\bootstrap\\Dropdown"
  }

  /** The class the legacy widget always uses. */
  const LegacyDropdownClass: string := "\\yii\\bootstrap\\Dropdown"

  /** `!empty($items) && is_array($items)`. */
  predicate ItemsUsable(items: PhpValue) {
    !IsEmpty(items) && items.List?
  }

  /** The `items` check of both widgets. */
  function CheckItems(items: PhpValue, cls: string): (r: Option<InitError>)
    ensures r.None? <==> items.List? && |items.elems| > 0
    ensures r.Some? ==> r.value == ItemsRequired(cls)
  {
    if !ItemsUsable(items) then Some(ItemsRequired(cls)) else None
  }

  /** The checks of the current widget's `init()`, in order: the dropdown class first, then the items. */
  function CheckInit(bs4: bool, classExists: bool, items: PhpValue): (r: Option<InitError>)
    ensures r.None? <==> classExists && items.List? && |items.elems| > 0
    ensures !classExists ==> r == Some(DropdownMissing(DropdownClass(bs4)))
    ensures classExists && r.Some? ==> r == Some(ItemsRequired(DropdownClass(bs4)))
  {
    var cls := DropdownClass(bs4);
    if !classExists then Some(DropdownMissing(cls)) else CheckItems(items, cls)
  }
}
