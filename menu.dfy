/**
 * The platform-neutral `Menu`: a newtype that forwards every operation,
 * arguments unchanged, to the backend compiled for the target. It is shown
 * here over the Windows backend, the one with ownership and accelerators.
 */
module MenuFacade {
  import opened Common
  import opened WinMenu

  class Menu {
    const inner: WinMenu.Menu
    /** Set once Rust has moved this value away (`into_inner`, or passing it to `add_dropdown`). */
    ghost var moved: bool

    ghost predicate Valid()
      reads this, inner, inner.table
    {
      !moved && inner.Valid() && inner.status == Owned
    }

    /** `Menu::new`: wraps the backend's `Menu::new`. */
    constructor New(table: MenuTable)
      requires table.Valid()
      modifies table
      ensures Valid() && fresh(inner) && inner.table == table && inner.accels == map[]
      ensures inner.hmenu !in old(table.menus)
      ensures table.menus == old(table.menus)[inner.hmenu := NativeMenu(MenuBar, [], 0)]
    {
      inner := new WinMenu.Menu.New(table);
      moved := false;
    }

    /** `Menu::new_for_popup`: wraps the backend's `Menu::new_for_popup`. */
    constructor NewForPopup(table: MenuTable)
      requires table.Valid()
      modifies table
      ensures Valid() && fresh(inner) && inner.table == table && inner.accels == map[]
      ensures inner.hmenu !in old(table.menus)
      ensures table.menus == old(table.menus)[inner.hmenu := NativeMenu(PopupMenu, [], 0)]
    {
      inner := new WinMenu.Menu.NewForPopup(table);
      moved := false;
    }

    /** `Default::default`: the same menu `Menu::new` makes. */
    static method Default(table: MenuTable) returns (m: Menu)
      requires table.Valid()
      modifies table
      ensures fresh(m) && m.Valid() && fresh(m.inner) && m.inner.table == table && m.inner.accels == map[]
      ensures m.inner.hmenu !in old(table.menus)
      ensures table.menus == old(table.menus)[m.inner.hmenu := NativeMenu(MenuBar, [], 0)]
    {
      m := new Menu.New(table);
    }

    /** `into_inner`: consumes the facade and returns the backend menu it wraps, still owning its handle. */
    method IntoInner() returns (m: WinMenu.Menu)
      requires Valid()
      modifies this
      ensures moved && m == inner
      ensures m.Valid() && m.status == Owned && m.accels == old(inner.accels)
    {
      moved := true;
      m := inner;
    }

    /** `add_dropdown`: consumes `menu` and hands its backend menu, `text` and `enabled` to the backend. */
    method AddDropdown(menu: Menu, text: string, enabled: bool)
      requires Valid() && menu.Valid()
      requires menu != this && menu.inner != inner && menu.inner.table == inner.table
      modifies menu, inner, menu.inner, inner.table
      ensures Valid() && menu.moved
      ensures inner.accels == Merge(old(inner.accels), old(menu.inner.accels))
      ensures menu.inner.status == Transferred && menu.inner.accels == map[]
      ensures inner.table.menus ==
                old(inner.table.menus)[inner.hmenu := old(inner.table.menus[inner.hmenu]).Append(DropdownRecord(menu.inner.hmenu, text, enabled))]
    {
      menu.moved := true;
      inner.AddDropdown(menu.inner, text, enabled);
    }

    /** `add_item`: hands `id`, `text`, `selected` and `enabled` to the backend. */
    method AddItem(id: U32, text: string, selected: Option<bool>, enabled: bool)
      requires Valid()
      modifies inner.table
      ensures Valid() && inner.accels == old(inner.accels)
      ensures inner.table.menus ==
                old(inner.table.menus)[inner.hmenu := old(inner.table.menus[inner.hmenu]).Append(ItemRecord(id, text, selected, enabled))]
    {
      inner.AddItem(id, text, selected, enabled);
    }

    /** `add_separator`: forwards to the backend. */
    method AddSeparator()
      requires Valid()
      modifies inner.table
      ensures Valid() && inner.accels == old(inner.accels)
      ensures inner.table.menus ==
                old(inner.table.menus)[inner.hmenu := old(inner.table.menus[inner.hmenu]).Append(SeparatorRecord)]
    {
      inner.AddSeparator();
    }
  }
}
