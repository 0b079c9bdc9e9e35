# Cross-platform menus: a Dafny model

This project models the menu-building layer of a windowing library written in
Rust. There are three parts:

- **A platform-neutral `Menu`.** It is a newtype that forwards `new`, `new_for_popup`,
  `add_item`, `add_separator` and `add_dropdown` unchanged to the backend
  compiled for the target.
- **The Windows backend.** A `Menu` owns one Win32 menu handle (`HMENU`) and an
  accelerator table (`HashMap<u32, ACCEL>`). Items are appended with
  `AppendMenuW`, using `MF_*` flags and NUL-terminated UTF-16 text.
  `add_dropdown` moves the child's accelerators into the parent and hands over
  the child's handle. `Drop` calls `DestroyMenu`, except on a menu that
  `into_hmenu` has already given away.
- **The macOS backend.** A `Menu` wraps an `NSMenu`, and items are `NSMenuItem`s.
  `initialize` installs the conventional application menu (About, Hide,
  Hide Others, Show All, Quit) as the main menu.

Files:

- `common.dfy` holds `Option` and `U32`.
- `utf16.dfy` encodes and decodes UTF-16 as section 2.1 of RFC 2781 defines it.
  Rust's `str::encode_utf16` yields this encoding.
- `windows_menu.dfy` models the Windows backend.
  - `MenuTable` is an abstract store of Win32 menu objects. For each handle it
    records which constructor made the menu, every `AppendMenuW` record, and
    how many times `DestroyMenu` was called.
  - `Menu` is a class with `hmenu`, `accels` and an ownership status:
    owned, destroyed, or transferred by `into_hmenu`.
  - `Interpret` reads an `AppendMenuW` record back as the entry a user sees:
    an item, a separator or a submenu. It is the reference the flag and text
    encoding is proved against.
- `appkit.dfy` models `NSMenu`, `NSMenuItem` and `NSApplication` as classes,
  reduced to the state the backend reads or writes. Selectors are opaque names.
- `macos_menu.dfy` models the macOS backend. The body of `initialize` is split
  into three methods that together do what the Rust function does:
  `AppMenuItems` builds the seven items, `AppMenu` appends them, and
  `Initialize` adds the menubar.
- `menu.dfy` is the facade, instantiated over the Windows backend.
- `scenarios.dfy` holds two callers built from the facade's contracts: a
  three-entry menu, and a "File" submenu attached to a parent; the parent is
  then dropped and the submenu's handle is never released.

Rust's move semantics appear as preconditions:

- A Windows `Menu` can be dropped, converted or attached only while it still
  owns its handle (`status == Owned`).
- The facade keeps a ghost `moved` flag that records when a value has been
  consumed.

Two facts about the code shape the model:

- Nothing in `src/platform_impl/windows/menu.rs` inserts into `accels`, and
  `add_item` registers no accelerator. The only changes to the table are the
  merge and take in `add_dropdown` (menu.rs:57-58). The table's properties are
  therefore stated for arbitrary tables.
- The results of `CreateMenu`, `CreatePopupMenu` and `AppendMenuW` are never
  checked (menu.rs:27, 38, 69, 87, 94), so in the model these calls always
  succeed.

## Model

| member | source | states |
|---|---|---|
| Utf16.EncodeLength | src/platform_impl/windows/menu.rs:65-68 | The UTF-16 text has one unit per character below U+10000 and two per character above it. |
| Utf16.DecodeEncode | src/platform_impl/windows/menu.rs:65-68 | Decoding the UTF-16 encoding of a string gives the string back (section 2.1 of RFC 2781). |
| Utf16.EncodeHasNoZero | src/platform_impl/windows/menu.rs:83-86 | A string without NUL characters encodes to code units that are all nonzero. |
| Utf16.WideString | src/platform_impl/windows/menu.rs:83-86 | The text handed to `AppendMenuW` is the UTF-16 encoding followed by a 0 unit. Its length is the encoded length plus one, and it decodes back to the text. When the text has no NUL, the final unit is the only 0. |
| WinMenu.MenuTable.Create | src/platform_impl/windows/menu.rs:27-38 | `CreateMenu` (menu.rs:27) / `CreatePopupMenu` (menu.rs:38) return a nonzero handle that is not yet in use, for a new empty menu. Other menus are unchanged. |
| WinMenu.MenuTable.AppendMenuW | src/platform_impl/windows/menu.rs:69-94 | `AppendMenuW` (called at menu.rs:69, 87 and 94) adds exactly one record, at the end of the target menu only. |
| WinMenu.MenuTable.DestroyMenu | src/platform_impl/windows/menu.rs:18 | `DestroyMenu` counts one more release of its handle and changes nothing else. |
| WinMenu.ItemFlags | src/platform_impl/windows/menu.rs:76-82 | The item flags always include `MF_STRING`. They include `MF_GRAYED` exactly when the item is disabled, `MF_CHECKED` exactly when `selected` is `Some(true)`, and nothing else. |
| WinMenu.DropdownFlags | src/platform_impl/windows/menu.rs:61-64 | The dropdown flags always include `MF_POPUP` and `MF_GRAYED` exactly when the dropdown is disabled. They never include `MF_CHECKED`. |
| WinMenu.ItemRecordReadsBack | src/platform_impl/windows/menu.rs:74-88 | An `add_item` record reads back as an item with the same id and text, checked iff `selected == Some(true)`, enabled iff `enabled`. |
| WinMenu.DropdownRecordReadsBack | src/platform_impl/windows/menu.rs:61-69 | An `add_dropdown` record reads back as a submenu on the child's handle, with the given text and enabled state. |
| WinMenu.SeparatorRecordReadsBack | src/platform_impl/windows/menu.rs:92-96 | An `add_separator` record reads back as a separator. It has id 0 and no text. |
| WinMenu.UncheckedSelectionsAgree | src/platform_impl/windows/menu.rs:80-82 | `selected == None` and `selected == Some(false)` produce the same record, and neither is checked. |
| WinMenu.Merge | src/platform_impl/windows/menu.rs:57-58 | The merged table has the union of both tables' keys. On a shared key the child's record wins, and every other key keeps the parent's record. |
| WinMenu.MergeKeepsEveryRecord | src/platform_impl/windows/menu.rs:57-58 | Merging a child whose keys are not in the parent loses and duplicates nothing. Each record is stored as often as in both tables together, and the size is the sum of the sizes. |
| WinMenu.Menu.New | src/platform_impl/windows/menu.rs:25-33 | A new menu owns a fresh empty `CreateMenu` handle and has an empty accelerator table, so `accels()` returns `None`. |
| WinMenu.Menu.NewForPopup | src/platform_impl/windows/menu.rs:36-44 | The same as `New`, with a `CreatePopupMenu` handle. |
| WinMenu.Menu.Drop | src/platform_impl/windows/menu.rs:15-21 | Dropping a menu that still owns its handle calls `DestroyMenu` on it exactly once, and the handle's release count becomes 1. |
| WinMenu.Menu.IntoHmenu | src/platform_impl/windows/menu.rs:46-50 | `into_hmenu` returns the menu's own handle with no release and marks the menu transferred, so it is never dropped. |
| WinMenu.Menu.AddDropdown | src/platform_impl/windows/menu.rs:56-71 | The parent's table becomes `Merge(old parent, old child)` and the child's table becomes empty. The child is transferred and never released. The parent gains exactly one popup record on the child's handle. |
| WinMenu.Menu.AddItem | src/platform_impl/windows/menu.rs:74-89 | Appends exactly one item record, passing `id` unchanged. The accelerator table and other menus are unchanged. |
| WinMenu.Menu.AddSeparator | src/platform_impl/windows/menu.rs:92-96 | Appends exactly one `MF_SEPARATOR` record with id 0 and no text. |
| WinMenu.Menu.Accels | src/platform_impl/windows/menu.rs:99-104 | Returns `None` exactly when the table is empty. Otherwise it returns `Some` of as many records as keys, each record as often as it is stored, in no particular order. |
| AppKit.NSMenu.New | src/platform_impl/macos/appkit/menu.rs:23-24 | `NSMenu::new` gives a menu with an empty title and no items. |
| AppKit.NSMenuItem.New | src/platform_impl/macos/menu.rs:43 | `NSMenuItem::new` (also at menu.rs:71) gives an item with an empty title, no action, an empty key and AppKit's default mask. It has tag 0, is enabled, has state 0 (off), has no submenu and is not a separator. These are assumed AppKit defaults. |
| AppKit.NSMenuItem.NewWithTitle | src/platform_impl/macos/menu.rs:12-16 | `newWithTitle` (also at menu.rs:148) gives an item with exactly the given title, action and key, and AppKit's default mask. It has tag 0, is enabled, has state 0, has no submenu and is not a separator. These are assumed AppKit defaults. |
| AppKit.NSMenuItem.SeparatorItem | src/platform_impl/macos/menu.rs:60 | `separatorItem` (also at menu.rs:82 and 113) gives a separator with no title, action, key or submenu. |
| AppKit.NSApplication.SetMainMenu | src/platform_impl/macos/menu.rs:136 | `setMainMenu:` makes the given menubar the application's main menu. |
| AppKit.NSMenu.AddItem | src/platform_impl/macos/appkit/menu.rs:26-27 | `addItem:` appends the item after the existing items and leaves the title alone. |
| AppKit.NSMenu.SetTitle | src/platform_impl/macos/appkit/menu.rs:29-30 | `setTitle:` sets the title and leaves the items alone. |
| MacMenu.MakeMenuItem | src/platform_impl/macos/menu.rs:11-28 | The new item has tag `id`, action `handleMenuItem:`, title `text` and an empty key equivalent. It is disabled iff `enabled` is false, and its state is 1 iff `selected == Some(true)` and the default 0 otherwise. |
| MacMenu.Menu.New | src/platform_impl/macos/menu.rs:31-35 | A fresh, untitled `NSMenu` with no items. |
| MacMenu.Menu.NewForPopup | src/platform_impl/macos/menu.rs:37-40 | Calls `New`, so it yields the same kind of fresh, empty menu. |
| MacMenu.Menu.AddDropdown | src/platform_impl/macos/menu.rs:42-52 | The child menu and one new item are both titled `text`. The item is disabled iff `!enabled`, and its submenu is the child. It is appended as the only new entry, and existing entries keep their order. |
| MacMenu.Menu.AddItem | src/platform_impl/macos/menu.rs:54-57 | Appends exactly one item built as `make_menu_item` builds it, after the unchanged existing items. |
| MacMenu.Menu.AddSeparator | src/platform_impl/macos/menu.rs:59-61 | Appends exactly one separator after the unchanged existing items. |
| MacMenu.MenuItem | src/platform_impl/macos/menu.rs:139-154 | Builds an item with the given title and action. The key and mask come from the key equivalent when there is one. Without one the key is empty, and the mask is overridden only when `masks` is `Some`. |
| MacMenu.AppMenuItems | src/platform_impl/macos/menu.rs:74-124 | The seven items are built with these titles: "About "+name, "Hide "+name, "Hide Others", "Show All" and "Quit "+name. Hide is "h" with no mask override, Hide Others is "h" with Option and Command, and Quit is "q" with no override. All seven are new objects, and no two are the same object. |
| MacMenu.AppMenu | src/platform_impl/macos/menu.rs:126-132 | The app menu is fresh and holds exactly seven distinct, fresh entries in this order: About, separator, Hide, Hide Others, Show All, separator, Quit. |
| MacMenu.Initialize | src/platform_impl/macos/menu.rs:69-137 | The main menu becomes a fresh menubar with exactly one item. That item's submenu is the app menu for the process name. |
| MenuFacade.Menu.New | src/menu.rs:7-9 | Wraps exactly what the backend's `new` creates. |
| MenuFacade.Menu.NewForPopup | src/menu.rs:12-14 | Wraps exactly what the backend's `new_for_popup` creates. |
| MenuFacade.Menu.Default | src/menu.rs:37-41 | `default()` yields exactly what `new()` yields. |
| MenuFacade.Menu.IntoInner | src/menu.rs:17-19 | Consumes the facade and returns the wrapped backend menu, unchanged and still owning its handle. |
| MenuFacade.Menu.AddDropdown | src/menu.rs:22-24 | Consumes the child facade and passes its inner menu, text and enabled flag unchanged, with the backend's effect. |
| MenuFacade.Menu.AddItem | src/menu.rs:27-29 | Passes `id`, `text`, `selected` and `enabled` unchanged, with the backend's effect. |
| MenuFacade.Menu.AddSeparator | src/menu.rs:32-34 | Forwards with no arguments, with the backend's effect. |

## Left out

- Win32 behaviour is reduced to recording calls. The model does not include:
  - the numeric values of the `MF_*` flags and of handles;
  - failure returns of `CreateMenu`, `CreatePopupMenu` and `AppendMenuW`, which the code never checks;
  - Win32's own destruction of attached submenus when their parent is destroyed.
- WinMenu.Menu.Drop: states only the release of the menu's own handle. Which submenu handles Win32 then destroys with it is not modelled.
- Win32 cuts item text at its first NUL. The model reads text up to the terminating 0 only, so a text that itself contains NUL is not modelled as truncated.
- `ACCEL` is an opaque type that supports only comparison and copying, because no code reads its fields.
- No operation inserts accelerators, because the code has none.
- `popUpMenuPositioningItem`, in `src/platform_impl/macos/appkit/menu.rs`, is left out. It is UI presentation.
- The Objective-C runtime is abstracted:
  - selectors are plain names;
  - `NSProcessInfo`'s process name is a parameter of `Initialize`;
  - `NSApp().setMainMenu` only records the menu;
  - `Id` reference counting and the release of macOS menus are not modelled.
- The `NSMenuItem` and `NSApplication` bindings are not part of this model's sources. Their constructors and setters are modelled from the way `src/platform_impl/macos/menu.rs` uses them.
- AppKit.NSMenuItem.New: its defaults (enabled, untitled, no action, tag 0, state 0, no submenu) are assumed from AppKit's documented behaviour, since the binding's body is not part of this model.
- AppKit.NSMenuItem.NewWithTitle: the same defaults are assumed for the fields it does not set.
- AppKit.NSMenuItem.SeparatorItem: an empty title, no action, no key and no submenu are assumed for a separator.
- The `unsafe impl Send`/`Sync` declarations are left out. They claim thread safety and have no behaviour.
- `src/platform_impl/ios/uikit/color.rs` is not part of this model. It holds only foreign bindings.
- The facade is not instantiated over the macOS backend. Over that backend it forwards in the same way.
- MacMenu.Menu.AddDropdown: requires the child's `NSMenu` to differ from the parent's. Rust guarantees this, because each `Menu` is created by `new` and is moved into the call.
