/**
 * The current server-side widget (src/ContextMenu.php): its option fields, the
 * in-place `initOptions()` and the checks `init()` makes before it.
 */
module Widget {
  import opened Wrappers
  import opened PhpValues
  import opened WidgetOptions

  class ContextMenuWidget {
    var options: PhpArray
    var menuContainer: PhpArray
    var menuOptions: PhpArray
    var pluginOptions: PhpArray
    var items: PhpValue
    var targetTag: PhpValue      // `_targetTag`
    var menuTag: PhpValue        // `_menuTag`
    var dropdownClass: string    // `_dropdownClass`
    /** What the inherited `isBs4()` answers for this widget. */
    const bs4: bool

    /** The widget as configured by its caller; the private fields are still unset. */
    constructor (options: PhpArray, menuContainer: PhpArray, menuOptions: PhpArray,
                 pluginOptions: PhpArray, items: PhpValue, bs4: bool)
      ensures Config() == WidgetConfig(options, menuContainer, menuOptions, pluginOptions, Null, Null)
      ensures this.items == items && this.bs4 == bs4 && dropdownClass == ""
    {
      this.options := options;
      this.menuContainer := menuContainer;
      this.menuOptions := menuOptions;
      this.pluginOptions := pluginOptions;
      this.items := items;
      this.bs4 := bs4;
      targetTag := Null;
      menuTag := Null;
      dropdownClass := "";
    }

    ghost function Config(): WidgetConfig
      reads this
    {
      WidgetConfig(options, menuContainer, menuOptions, pluginOptions, targetTag, menuTag)
    }

    /** `initOptions()`: default ids, the client target, the callback wrapping and the tags. */
    method InitOptions()
      modifies this
      ensures Config() == Prepare(old(Config()), Some(bs4))
      ensures items == old(items) && dropdownClass == old(dropdownClass)
    {
      var r := InitArrays(WidgetConfig(options, menuContainer, menuOptions, pluginOptions, targetTag, menuTag), Some(bs4));
      options, menuContainer, menuOptions, pluginOptions := r.options, r.menuContainer, r.menuOptions, r.pluginOptions;
      targetTag, menuTag := r.targetTag, r.menuTag;
    }

    /**
     * `init()` up to the options: it records the dropdown class, raises the
     * configuration error when that class is missing or `items` is unusable,
     * and otherwise runs `initOptions()`.
     */
    method Init(classExists: bool) returns (error: Option<InitError>)
      modifies this
      ensures error == CheckInit(bs4, classExists, old(items))
      ensures dropdownClass == DropdownClass(bs4) && items == old(items)
      ensures error.None? ==> Config() == Prepare(old(Config()), Some(bs4))
      ensures error.Some? ==> Config() == old(Config())
    {
      dropdownClass := DropdownClass(bs4);
      if !classExists {
        return Some(DropdownMissing(dropdownClass));
      }
      if IsEmpty(items) || !items.List? {
        return Some(ItemsRequired(dropdownClass));
      }
      InitOptions();
      error := None;
    }
  }
}
