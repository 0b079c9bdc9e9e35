/**
 * The AppKit objects the macOS backend drives, reduced to the state it
 * reads or writes. Objective-C selectors are opaque names; a property
 * setter such as `setTag:` is a write of the corresponding field.
 */
module AppKit {
  import opened Common

  /** An Objective-C selector, by name (`"handleMenuItem:"`). */
  type Selector = string

  /** The modifier keys of `NSEventModifierFlags` this code uses. */
  datatype ModifierKey = AlternateKey | CommandKey

  class NSMenuItem {
    var title: string
    var action: Option<Selector>
    var keyEquivalent: string
    /** `None` until `setKeyEquivalentModifierMask:` is called: AppKit's default mask applies. */
    var modifierMask: Option<set<ModifierKey>>
    var tag: int
    var enabled: bool
    /** `NSControlStateValue`: 0 (off) by default, 1 once checked. */
    var state: int
    var submenu: NSMenu?
    const isSeparator: bool

    /** `NSMenuItem::new()`: an untitled item with no action. */
    constructor New()
      ensures title == "" && action == None && keyEquivalent == "" && modifierMask == None
      ensures tag == 0 && enabled && state == 0 && submenu == null && !isSeparator
    {
      title, action, keyEquivalent, modifierMask := "", None, "", None;
      tag, enabled, state, submenu, isSeparator := 0, true, 0, null, false;
    }

    /** `NSMenuItem::newWithTitle(title, action, keyEquivalent)`. */
    constructor NewWithTitle(title: string, action: Selector, keyEquivalent: string)
      ensures this.title == title && this.action == Some(action) && this.keyEquivalent == keyEquivalent
      ensures modifierMask == None && tag == 0 && enabled && state == 0 && submenu == null && !isSeparator
    {
      this.title, this.action, this.keyEquivalent, modifierMask := title, Some(action), keyEquivalent, None;
      tag, enabled, state, submenu, isSeparator := 0, true, 0, null, false;
    }

    /** `NSMenuItem::separatorItem()`. */
    constructor SeparatorItem()
      ensures isSeparator && title == "" && action == None && keyEquivalent == "" && submenu == null
    {
      title, action, keyEquivalent, modifierMask := "", None, "", None;
      tag, enabled, state, submenu, isSeparator := 0, true, 0, null, true;
    }
  }

  class NSMenu {
    var title: string
    var items: seq<NSMenuItem>

    /** `NSMenu::new()`: an untitled menu with no items. */
    constructor New()
      ensures title == "" && items == []
    {
      title, items := "", [];
    }

    /** `addItem:` appends `item` after the existing items. */
    method AddItem(item: NSMenuItem)
      modifies this
      ensures items == old(items) + [item] && title == old(title)
    {
      items := items + [item];
    }

    /** `setTitle:`. */
    method SetTitle(title: string)
      modifies this
      ensures this.title == title && items == old(items)
    {
      this.title := title;
    }
  }

  /** `NSApp()`, reduced to the menu it shows as the main menu. */
  class NSApplication {
    var mainMenu: NSMenu?

    /** `setMainMenu:`. */
    method SetMainMenu(menu: NSMenu)
      modifies this
      ensures mainMenu == menu
    {
      mainMenu := menu;
    }
  }
}
