/**
 * The macOS backend: a `Menu` wraps one `NSMenu`; items are built as
 * `NSMenuItem`s and appended, and `Initialize` installs the conventional
 * application menu as the main menu.
 */
module MacMenu {
  import opened Common
  import opened AppKit

  /** The action every item built by `MakeMenuItem` sends. */
  const HandleMenuItem: Selector := "handleMenuItem:"

  /** The standard AppKit actions the application menu sends. */
  const AboutAction: Selector := "orderFrontStandardAboutPanel:"
  const HideAction: Selector := "hide:"
  const HideOthersAction: Selector := "hideOtherApplications:"
  const ShowAllAction: Selector := "unhideAllApplications:"
  const QuitAction: Selector := "terminate:"

  /** The Hide Others item's modifier mask: Option and Command. */
  const HideOthersMask: set<ModifierKey> := {AlternateKey, CommandKey}

  /** `NSControlStateValueOn`. */
  const OnState := 1

  /**
   * `make_menu_item`: an item titled `text` that sends `handleMenuItem:`,
   * tagged with `id`, disabled only when `enabled` is false and checked only
   * when `selected` is `Some(true)`.
   */
  method MakeMenuItem(id: U32, text: string, selected: Option<bool>, enabled: bool) returns (item: NSMenuItem)
    ensures fresh(item)
    ensures item.title == text && item.action == Some(HandleMenuItem)
    ensures item.keyEquivalent == "" && item.modifierMask == None
    ensures item.tag == id
    ensures item.enabled == enabled
    ensures item.state == (if selected == Some(true) then OnState else 0)
    ensures item.submenu == null && !item.isSeparator
  {
    item := new NSMenuItem.NewWithTitle(text, HandleMenuItem, "");
    item.tag := id;
    if !enabled {
      item.enabled := false;
    }
    if selected == Some(true) {
      item.state := OnState;
    }
  }

  /** A macOS menu: the `NSMenu` it wraps. */
  class Menu {
    const ns: NSMenu

    /** `Menu::new`: a fresh, empty `NSMenu`. */
    constructor New()
      ensures fresh(ns) && ns.title == "" && ns.items == []
    {
      ns := new NSMenu.New();
    }

    /** `Menu::new_for_popup`: AppKit has one kind of menu, so this is `Menu::new`. */
    static method NewForPopup() returns (m: Menu)
      ensures fresh(m) && fresh(m.ns) && m.ns.title == "" && m.ns.items == []
    {
      m := new Menu.New();
    }

    /**
     * `add_dropdown`: titles the child menu `text` and appends one new item
     * titled `text`, disabled only when `enabled` is false, whose submenu is
     * the child.
     */
    method AddDropdown(menu: Menu, text: string, enabled: bool)
      requires menu.ns != ns
      modifies ns, menu.ns
      ensures |ns.items| == |old(ns.items)| + 1 && ns.items[..|old(ns.items)|] == old(ns.items)
      ensures ns.title == old(ns.title)
      ensures fresh(ns.items[|ns.items| - 1])
      ensures ns.items[|ns.items| - 1].title == text
      ensures ns.items[|ns.items| - 1].enabled == enabled
      ensures ns.items[|ns.items| - 1].submenu == menu.ns
      ensures ns.items[|ns.items| - 1].action == None && !ns.items[|ns.items| - 1].isSeparator
      ensures menu.ns.title == text && menu.ns.items == old(menu.ns.items)
    {
      var item := new NSMenuItem.New();
      menu.ns.SetTitle(text);
      item.title := text;
      if !enabled {
        item.enabled := false;
      }
      item.submenu := menu.ns;
      ns.AddItem(item);
    }

    /** `add_item`: appends one item built by `MakeMenuItem`. */
    method AddItem(id: U32, text: string, selected: Option<bool>, enabled: bool)
      modifies ns
      ensures |ns.items| == |old(ns.items)| + 1 && ns.items[..|old(ns.items)|] == old(ns.items)
      ensures ns.title == old(ns.title)
      ensures var item := ns.items[|ns.items| - 1];
        && fresh(item)
        && item.title == text && item.action == Some(HandleMenuItem)
        && item.keyEquivalent == "" && item.modifierMask == None
        && item.tag == id && item.enabled == enabled
        && item.state == (if selected == Some(true) then OnState else 0)
        && item.submenu == null && !item.isSeparator
    {
      var item := MakeMenuItem(id, text, selected, enabled);
      ns.AddItem(item);
    }

    /** `add_separator`: appends one separator item. */
    method AddSeparator()
      modifies ns
      ensures |ns.items| == |old(ns.items)| + 1 && ns.items[..|old(ns.items)|] == old(ns.items)
      ensures ns.title == old(ns.title)
      ensures fresh(ns.items[|ns.items| - 1]) && ns.items[|ns.items| - 1].isSeparator
    {
      var item := new NSMenuItem.SeparatorItem();
      ns.AddItem(item);
    }
  }

  /** A key equivalent: the key, and the modifier mask to use instead of AppKit's default, if any. */
  datatype KeyEquivalent = KeyEquivalent(key: string, masks: Option<set<ModifierKey>>)

  /**
   * `menu_item`: an item titled `title` sending `action`; its key is that of
   * `keyEquivalent` (empty without one) and its mask is overridden only when
   * `keyEquivalent` carries a mask.
   */
  method MenuItem(title: string, action: Selector, keyEquivalent: Option<KeyEquivalent>) returns (item: NSMenuItem)
    ensures fresh(item)
    ensures IsActionItem(item, title, action,
                         if keyEquivalent.Some? then keyEquivalent.value.key else "",
                         if keyEquivalent.Some? then keyEquivalent.value.masks else None)
  {
    var key: string, masks: Option<set<ModifierKey>>;
    match keyEquivalent {
      case Some(ke) =>
        key, masks := ke.key, ke.masks;
      case None =>
        key, masks := "", None;
    }
    item := new NSMenuItem.NewWithTitle(title, action, key);
    if masks.Some? {
      item.modifierMask := masks;
    }
  }

  /** `item` is an ordinary item with this title, action, key and mask override. */
  ghost predicate IsActionItem(item: NSMenuItem, title: string, action: Selector, key: string, mask: Option<set<ModifierKey>>)
    reads item
  {
    && !item.isSeparator && item.submenu == null
    && item.title == title && item.action == Some(action)
    && item.keyEquivalent == key && item.modifierMask == mask
  }

  /** No item occurs twice in `items`: each is a separate object. */
  predicate Distinct(items: seq<NSMenuItem>)
  {
    forall i, j :: 0 <= i < j < |items| ==> items[i] != items[j]
  }

  /**
   * `m` is the application menu for the process `name`: seven distinct
   * items About, separator, Hide, Hide Others, Show All, separator, Quit,
   * in this order.
   */
  ghost predicate IsAppMenu(m: NSMenu, name: string)
    reads m, m.items
  {
    && |m.items| == 7
    && Distinct(m.items)
    && IsActionItem(m.items[0], "About " + name, AboutAction, "", None)
    && m.items[1].isSeparator
    && IsActionItem(m.items[2], "Hide " + name, HideAction, "h", None)
    && IsActionItem(m.items[3], "Hide Others", HideOthersAction, "h", Some(HideOthersMask))
    && IsActionItem(m.items[4], "Show All", ShowAllAction, "", None)
    && m.items[5].isSeparator
    && IsActionItem(m.items[6], "Quit " + name, QuitAction, "q", None)
  }

  /**
   * Seven distinct items with the application menu's titles, actions and
   * keys, appended in this order, make the application menu. `AppMenu`
   * calls this lemma so that its proof fits the solver's resource limit.
   */
  lemma AppMenuOfItems(m: NSMenu, name: string, aboutItem: NSMenuItem, sepFirstItem: NSMenuItem, hideItem: NSMenuItem,
                       hideOthersItem: NSMenuItem, showAllItem: NSMenuItem, sepItem: NSMenuItem, quitItem: NSMenuItem)
    requires m.items == [aboutItem, sepFirstItem, hideItem, hideOthersItem, showAllItem, sepItem, quitItem]
    requires Distinct(m.items)
    requires IsActionItem(aboutItem, "About " + name, AboutAction, "", None) && sepFirstItem.isSeparator
    requires IsActionItem(hideItem, "Hide " + name, HideAction, "h", None)
    requires IsActionItem(hideOthersItem, "Hide Others", HideOthersAction, "h", Some(HideOthersMask))
    requires IsActionItem(showAllItem, "Show All", ShowAllAction, "", None) && sepItem.isSeparator
    requires IsActionItem(quitItem, "Quit " + name, QuitAction, "q", None)
    ensures IsAppMenu(m, name)
  {
  }

  /**
   * The application menu of `initialize`: a fresh menu holding the About,
   * Hide, Hide Others, Show All and Quit items for `processName`.
   */
  method AppMenu(processName: string) returns (appMenu: NSMenu)
    ensures fresh(appMenu) && IsAppMenu(appMenu, processName)
    ensures forall i :: 0 <= i < |appMenu.items| ==> fresh(appMenu.items[i])
  {
    appMenu := new NSMenu.New();
    var aboutItem, sepFirstItem, hideItem, hideOthersItem, showAllItem, sepItem, quitItem := AppMenuItems(processName);
    appMenu.AddItem(aboutItem);
    appMenu.AddItem(sepFirstItem);
    appMenu.AddItem(hideItem);
    appMenu.AddItem(hideOthersItem);
    assert appMenu.items == [aboutItem, sepFirstItem, hideItem, hideOthersItem];
    appMenu.AddItem(showAllItem);
    appMenu.AddItem(sepItem);
    appMenu.AddItem(quitItem);
    AppMenuOfItems(appMenu, processName, aboutItem, sepFirstItem, hideItem, hideOthersItem, showAllItem, sepItem, quitItem);
  }

  /** The seven items of the application menu for `processName`, built as `initialize` builds them. */
  method AppMenuItems(processName: string)
    returns (aboutItem: NSMenuItem, sepFirstItem: NSMenuItem, hideItem: NSMenuItem, hideOthersItem: NSMenuItem,
             showAllItem: NSMenuItem, sepItem: NSMenuItem, quitItem: NSMenuItem)
    ensures IsActionItem(aboutItem, "About " + processName, AboutAction, "", None) && sepFirstItem.isSeparator
    ensures IsActionItem(hideItem, "Hide " + processName, HideAction, "h", None)
    ensures IsActionItem(hideOthersItem, "Hide Others", HideOthersAction, "h", Some(HideOthersMask))
    ensures IsActionItem(showAllItem, "Show All", ShowAllAction, "", None) && sepItem.isSeparator
    ensures IsActionItem(quitItem, "Quit " + processName, QuitAction, "q", None)
    ensures fresh(aboutItem) && fresh(sepFirstItem) && fresh(hideItem) && fresh(hideOthersItem)
    ensures fresh(showAllItem) && fresh(sepItem) && fresh(quitItem)
    ensures Distinct([aboutItem, sepFirstItem, hideItem, hideOthersItem, showAllItem, sepItem, quitItem])
  {
    aboutItem := MenuItem("About " + processName, AboutAction, None);
    sepFirstItem := new NSMenuItem.SeparatorItem();
    hideItem := MenuItem("Hide " + processName, HideAction, Some(KeyEquivalent("h", None)));
    hideOthersItem := MenuItem("Hide Others", HideOthersAction, Some(KeyEquivalent("h", Some(HideOthersMask))));
    showAllItem := MenuItem("Show All", ShowAllAction, None);
    sepItem := new NSMenuItem.SeparatorItem();
    quitItem := MenuItem("Quit " + processName, QuitAction, Some(KeyEquivalent("q", None)));
  }

  /**
   * `initialize`: installs as the main menu a fresh menubar holding exactly
   * one item, whose submenu is the application menu for `processName`.
   */
  method Initialize(app: NSApplication, processName: string)
    modifies app
    ensures app.mainMenu != null && fresh(app.mainMenu)
    ensures |app.mainMenu.items| == 1 && fresh(app.mainMenu.items[0])
    ensures app.mainMenu.items[0].submenu != null && fresh(app.mainMenu.items[0].submenu)
    ensures IsAppMenu(app.mainMenu.items[0].submenu, processName)
  {
    var menubar := new NSMenu.New();
    var appMenuItem := new NSMenuItem.New();
    menubar.AddItem(appMenuItem);

    var appMenu := AppMenu(processName);
    appMenuItem.submenu := appMenu;

    app.SetMainMenu(menubar);
  }
}
