/**
 * The legacy server-side widget (ContextMenu.php), written for Bootstrap 3 only:
 * the same option handling as the current widget, without the `isBs4` plugin
 * option and without the dropdown-class check.
 */
module LegacyWidget {
  import opened Wrappers
  import opened PhpValues
  import opened WidgetOptions

  class LegacyContextMenuWidget {
    var options: PhpArray
    var menuContainer: PhpArray
    var menuOptions: PhpArray
    var pluginOptions: PhpArray
    var items: PhpValue
    var targetTag: PhpValue      // `_targetTag`
    var menuTag: PhpValue        // `_menuTag`

    /** The widget as configured by its caller; the private fields are still unset. */
    constructor (options: PhpArray, menuContainer: PhpArray, menuOptions: PhpArray,
                 pluginOptions: PhpArray, items: PhpValue)
      ensures Config() == WidgetConfig(options, menuContainer, menuOptions, pluginOptions, Null, Null)
      ensures this.items == items
    {
      this.options := options;
      this.menuContainer := menuContainer;
      this.menuOptions := menuOptions;
      this.pluginOptions := pluginOptions;
      this.items := items;
      targetTag := Null;
      menuTag := Null;
    }

    ghost function Config(): WidgetConfig
      reads this
    {
      WidgetConfig(options, menuContainer, menuOptions, pluginOptions, targetTag, menuTag)
    }

    /** `initOptions()`: default ids, the client target, the callback wrapping and the tags. */
    method InitOptions()
      modifies this
      ensures Config() == Prepare(old(Config()), None)
      ensures items == old(items)
    {
      var r := InitArrays(WidgetConfig(options, menuContainer, menuOptions, pluginOptions, targetTag, menuTag), None);
      options, menuContainer, menuOptions, pluginOptions := r.options, r.menuContainer, r.menuOptions, r.pluginOptions;
      targetTag, menuTag := r.targetTag, r.menuTag;
    }

    /** `init()` up to the options: the `items` check, then `initOptions()`. */
    method Init() returns (error: Option<InitError>)
      modifies this
      ensures error == CheckItems(old(items), LegacyDropdownClass)
      ensures items == old(items)
      ensures error.None? ==> Config() == Prepare(old(Config()), None)
      ensures error.Some? ==> Config() == old(Config())
    {
      if IsEmpty(items) || !items.List? {
        return Some(ItemsRequired(LegacyDropdownClass));
      }
      InitOptions();
      error := None;
    }
  }
}
