/**
 * The Windows backend: a `Menu` owns one Win32 menu handle and the
 * accelerator table of its subtree. The Win32 menu objects themselves are
 * modelled by `MenuTable`, an abstract store of handles that records what
 * `CreateMenu`, `CreatePopupMenu`, `AppendMenuW` and `DestroyMenu` did.
 */
module WinMenu {
  import opened Common
  import opened Utf16

  /** `HMENU`. Handle 0 is the null handle and is never handed out. */
  type Handle = nat

  /** A Win32 `ACCEL` record (virtual-key flags, key, command id); its contents are never read, only compared and copied. */
  type Accel(==)

  /** The `MF_*` flags this backend passes to `AppendMenuW`, as distinct abstract flags. */
  datatype MenuFlag = MfString | MfGrayed | MfChecked | MfPopup | MfSeparator

  /** The arguments of one `AppendMenuW(hmenu, uFlags, uIDNewItem, lpNewItem)` call; `None` is a null text pointer. */
  datatype Appended = Appended(flags: set<MenuFlag>, idNewItem: nat, text: Option<seq<CodeUnit>>)

  /** Which Win32 constructor made a menu: `CreateMenu` or `CreatePopupMenu`. */
  datatype MenuKind = MenuBar | PopupMenu

  /** One Win32 menu object: how it was made, what was appended to it, and how often `DestroyMenu` was called on it. */
  datatype NativeMenu = NativeMenu(kind: MenuKind, records: seq<Appended>, destroyCalls: nat)
  {
    /** This menu with `a` recorded after its existing records. */
    function Append(a: Appended): NativeMenu
    {
      NativeMenu(kind, records + [a], destroyCalls)
    }
  }

  /** What a menu entry means to the user, read back from an `AppendMenuW` record. */
  datatype Entry =
    | Item(id: nat, title: string, checked: bool, enabled: bool)
    | Separator
    | Submenu(child: Handle, title: string, enabled: bool)

  /** Whether a `Menu` still owns its handle, has released it, or has handed it over through `into_hmenu`. */
  datatype Ownership = Owned | Destroyed | Transferred

  /** The Win32 menu objects of the process, by handle. */
  class MenuTable {
    var menus: map<Handle, NativeMenu>
    var next: Handle

    ghost predicate Valid()
      reads this
    {
      0 < next && forall h :: h in menus ==> 0 < h < next
    }

    constructor ()
      ensures Valid() && menus == map[]
    {
      menus := map[];
      next := 1;
    }

    /** `CreateMenu()` for `MenuBar`, `CreatePopupMenu()` for `PopupMenu`: a new, empty menu under an unused handle. */
    method Create(kind: MenuKind) returns (h: Handle)
      requires Valid()
      modifies this
      ensures Valid()
      ensures h != 0 && h !in old(menus)
      ensures menus == old(menus)[h := NativeMenu(kind, [], 0)]
    {
      h := next;
      menus := menus[h := NativeMenu(kind, [], 0)];
      next := next + 1;
    }

    /** `AppendMenuW`: records one more entry at the end of menu `h`. */
    method AppendMenuW(h: Handle, flags: set<MenuFlag>, idNewItem: nat, text: Option<seq<CodeUnit>>)
      requires Valid() && h in menus
      modifies this
      ensures Valid()
      ensures menus == old(menus)[h := old(menus[h]).Append(Appended(flags, idNewItem, text))]
    {
      menus := menus[h := menus[h].Append(Appended(flags, idNewItem, text))];
    }

    /** `DestroyMenu`: counts one release of menu `h`. */
    method DestroyMenu(h: Handle)
      requires Valid() && h in menus
      modifies this
      ensures Valid()
      ensures menus == old(menus)[h := old(menus[h]).(destroyCalls := old(menus[h].destroyCalls) + 1)]
    {
      menus := menus[h := menus[h].(destroyCalls := menus[h].destroyCalls + 1)];
    }
  }

  /** The flags `add_item` builds: `MF_STRING`, `MF_GRAYED` when disabled, `MF_CHECKED` when selected is `Some(true)`. */
  function ItemFlags(selected: Option<bool>, enabled: bool): (flags: set<MenuFlag>)
    ensures MfString in flags
    ensures MfGrayed in flags <==> !enabled
    ensures MfChecked in flags <==> selected == Some(true)
    ensures flags <= {MfString, MfGrayed, MfChecked}
  {
    {MfString} + (if enabled then {} else {MfGrayed}) + (if selected == Some(true) then {MfChecked} else {})
  }

  /** The flags `add_dropdown` builds: `MF_POPUP`, `MF_GRAYED` when disabled, never `MF_CHECKED`. */
  function DropdownFlags(enabled: bool): (flags: set<MenuFlag>)
    ensures MfPopup in flags
    ensures MfGrayed in flags <==> !enabled
    ensures MfChecked !in flags
    ensures flags <= {MfPopup, MfGrayed}
  {
    {MfPopup} + (if enabled then {} else {MfGrayed})
  }

  /** The record `add_item` appends. */
  function ItemRecord(id: U32, text: string, selected: Option<bool>, enabled: bool): Appended
  {
    Appended(ItemFlags(selected, enabled), id, Some(WideString(text)))
  }

  /** The record `add_dropdown` appends for the child handle `child`. */
  function DropdownRecord(child: Handle, text: string, enabled: bool): Appended
  {
    Appended(DropdownFlags(enabled), child, Some(WideString(text)))
  }

  /** The record `add_separator` appends: `MF_SEPARATOR`, id 0, no text. */
  const SeparatorRecord := Appended({MfSeparator}, 0, None)

  /**
   * How Win32 reads an `AppendMenuW` record: a separator; a popup whose
   * `uIDNewItem` is the submenu handle; or a string item whose
   * `uIDNewItem` is its command id. Text must be NUL-terminated UTF-16.
   */
  function Interpret(a: Appended): Option<Entry>
  {
    if MfSeparator in a.flags then Some(Separator)
    else
      match a.text
      case None => None
      case Some(w) =>
        if w == [] || w[|w| - 1] != 0 then None
        else
          match Decode(w[..|w| - 1])
          case None => None
          case Some(title) =>
            if MfPopup in a.flags then Some(Submenu(a.idNewItem, title, MfGrayed !in a.flags))
            else Some(Item(a.idNewItem, title, MfChecked in a.flags, MfGrayed !in a.flags))
  }

  /** `add_item` records exactly the item the caller described: its id, text, check mark and enabled state. */
  lemma ItemRecordReadsBack(id: U32, text: string, selected: Option<bool>, enabled: bool)
    ensures Interpret(ItemRecord(id, text, selected, enabled)) == Some(Item(id, text, selected == Some(true), enabled))
  {
  }

  /** `add_dropdown` records a popup on the child's handle with the caller's text and enabled state. */
  lemma DropdownRecordReadsBack(child: Handle, text: string, enabled: bool)
    ensures Interpret(DropdownRecord(child, text, enabled)) == Some(Submenu(child, text, enabled))
  {
  }

  /** `add_separator` records a separator. */
  lemma SeparatorRecordReadsBack()
    ensures Interpret(SeparatorRecord) == Some(Separator)
    ensures SeparatorRecord.idNewItem == 0 && SeparatorRecord.text == None
  {
  }

  /** `selected == None` and `selected == Some(false)` produce the same native record. */
  lemma UncheckedSelectionsAgree(id: U32, text: string, enabled: bool)
    ensures ItemRecord(id, text, None, enabled) == ItemRecord(id, text, Some(false), enabled)
    ensures MfChecked !in ItemFlags(None, enabled)
  {
  }

  /** `self.accels.extend(child_accels)`: every key of either table, the child's record winning on a shared key. */
  function Merge(parent: map<U32, Accel>, child: map<U32, Accel>): (m: map<U32, Accel>)
    ensures m.Keys == parent.Keys + child.Keys
    ensures forall k :: k in child ==> m[k] == child[k]
    ensures forall k :: k in parent && k !in child ==> m[k] == parent[k]
  {
    parent + child
  }

  /** The keys under which `a` is stored in `m`. */
  ghost function KeysFor(m: map<U32, Accel>, a: Accel): set<U32>
  {
    set k | k in m && m[k] == a
  }

  /** Taking one key out of a table removes exactly one copy of its record. */
  lemma RemoveKey(m: map<U32, Accel>, k: U32)
    requires k in m
    ensures |m - {k}| == |m| - 1
    ensures forall a :: |KeysFor(m - {k}, a)| == |KeysFor(m, a)| - (if m[k] == a then 1 else 0)
  {
    assert (m - {k}).Keys == m.Keys - {k};
    forall a
      ensures |KeysFor(m - {k}, a)| == |KeysFor(m, a)| - (if m[k] == a then 1 else 0)
    {
      assert KeysFor(m - {k}, a) == KeysFor(m, a) - {k};
    }
  }

  /**
   * Folding a child table with keys of its own into a parent loses and
   * duplicates no record: each record is stored as often as in both tables together.
   */
  lemma MergeKeepsEveryRecord(parent: map<U32, Accel>, child: map<U32, Accel>)
    requires parent.Keys !! child.Keys
    ensures |Merge(parent, child)| == |parent| + |child|
    ensures forall a :: |KeysFor(Merge(parent, child), a)| == |KeysFor(parent, a)| + |KeysFor(child, a)|
  {
    var m := Merge(parent, child);
    assert |m.Keys| == |parent.Keys| + |child.Keys| by {
      assert m.Keys == parent.Keys + child.Keys;
    }
    forall a
      ensures |KeysFor(m, a)| == |KeysFor(parent, a)| + |KeysFor(child, a)|
    {
      MergeKeysFor(parent, child, a);
    }
  }

  /** The keys of `a` in a disjoint merge are its keys in the parent and its keys in the child. */
  lemma MergeKeysFor(parent: map<U32, Accel>, child: map<U32, Accel>, a: Accel)
    requires parent.Keys !! child.Keys
    ensures |KeysFor(Merge(parent, child), a)| == |KeysFor(parent, a)| + |KeysFor(child, a)|
  {
    var m := Merge(parent, child);
    var p, c := KeysFor(parent, a), KeysFor(child, a);
    assert KeysFor(m, a) == p + c;
    assert p * c == {};
  }

  /** A Windows menu: its handle, the accelerators of its subtree, and whether it still owns the handle. */
  class Menu {
    const table: MenuTable
    const hmenu: Handle
    var accels: map<U32, Accel>
    /** Rust's move state of the value: whether it still owns `hmenu`. */
    ghost var status: Ownership

    /** The handle is a menu of the table; it is released once if dropped, never while still owned. */
    ghost predicate Valid()
      reads this, table
    {
      && table.Valid()
      && hmenu in table.menus
      && (status == Owned ==> table.menus[hmenu].destroyCalls == 0)
      && (status == Destroyed ==> table.menus[hmenu].destroyCalls == 1)
    }

    /** `Menu::new`: a fresh `CreateMenu` handle and an empty accelerator table. */
    constructor New(table: MenuTable)
      requires table.Valid()
      modifies table
      ensures this.table == table && Valid()
      ensures status == Owned && accels == map[]
      ensures hmenu !in old(table.menus)
      ensures table.menus == old(table.menus)[hmenu := NativeMenu(MenuBar, [], 0)]
    {
      var h := table.Create(MenuBar);
      this.table := table;
      hmenu := h;
      accels := map[];
      status := Owned;
    }

    /** `Menu::new_for_popup`: a fresh `CreatePopupMenu` handle and an empty accelerator table. */
    constructor NewForPopup(table: MenuTable)
      requires table.Valid()
      modifies table
      ensures this.table == table && Valid()
      ensures status == Owned && accels == map[]
      ensures hmenu !in old(table.menus)
      ensures table.menus == old(table.menus)[hmenu := NativeMenu(PopupMenu, [], 0)]
    {
      var h := table.Create(PopupMenu);
      this.table := table;
      hmenu := h;
      accels := map[];
      status := Owned;
    }

    /** `Drop`: the one `DestroyMenu` on the handle of a menu that still owns it. */
    method Drop()
      requires Valid() && status == Owned
      modifies this, table
      ensures Valid() && status == Destroyed
      ensures accels == old(accels)
      ensures table.menus == old(table.menus)[hmenu := old(table.menus[hmenu]).(destroyCalls := 1)]
    {
      table.DestroyMenu(hmenu);
      status := Destroyed;
    }

    /** `into_hmenu`: gives the handle away and forgets the menu, so no `DestroyMenu` ever follows. */
    method IntoHmenu() returns (h: Handle)
      requires Valid() && status == Owned
      modifies this
      ensures Valid() && status == Transferred
      ensures h == hmenu && accels == old(accels)
      ensures table.menus[h].destroyCalls == 0
    {
      h := hmenu;
      status := Transferred;
    }

    /**
     * `add_dropdown`: moves the child's accelerators into this menu, hands
     * the child's handle over and appends one popup entry referring to it.
     */
    method AddDropdown(menu: Menu, text: string, enabled: bool)
      requires Valid() && status == Owned
      requires menu != this && menu.table == table && menu.Valid() && menu.status == Owned
      modifies this, menu, table
      ensures Valid() && status == Owned
      ensures accels == Merge(old(accels), old(menu.accels))
      ensures menu.Valid() && menu.status == Transferred && menu.accels == map[]
      ensures table.menus == old(table.menus)[hmenu := old(table.menus[hmenu]).Append(DropdownRecord(menu.hmenu, text, enabled))]
      ensures table.menus[menu.hmenu].destroyCalls == 0
    {
      var childAccels := menu.accels;
      menu.accels := map[];
      accels := Merge(accels, childAccels);
      var flags := {MfPopup};
      if !enabled {
        flags := flags + {MfGrayed};
      }
      assert flags == DropdownFlags(enabled);
      var child := menu.IntoHmenu();
      table.AppendMenuW(hmenu, flags, child, Some(WideString(text)));
    }

    /** `add_item`: appends one string item; the accelerator table is untouched. */
    method AddItem(id: U32, text: string, selected: Option<bool>, enabled: bool)
      requires Valid() && status == Owned
      modifies table
      ensures Valid()
      ensures table.menus == old(table.menus)[hmenu := old(table.menus[hmenu]).Append(ItemRecord(id, text, selected, enabled))]
    {
      var flags := {MfString};
      if !enabled {
        flags := flags + {MfGrayed};
      }
      if selected == Some(true) {
        flags := flags + {MfChecked};
      }
      assert flags == ItemFlags(selected, enabled);
      table.AppendMenuW(hmenu, flags, id, Some(WideString(text)));
    }

    /** `add_separator`: appends one separator; the accelerator table is untouched. */
    method AddSeparator()
      requires Valid() && status == Owned
      modifies table
      ensures Valid()
      ensures table.menus == old(table.menus)[hmenu := old(table.menus[hmenu]).Append(SeparatorRecord)]
    {
      table.AppendMenuW(hmenu, {MfSeparator}, 0, None);
    }

    /**
     * `accels`: `None` for an empty table, otherwise every record of the
     * table once per key under which it is stored, in no promised order.
     */
    method Accels() returns (r: Option<seq<Accel>>)
      ensures r.None? <==> accels == map[]
      ensures r.Some? ==> |r.value| == |accels|
      ensures r.Some? ==> forall a :: multiset(r.value)[a] == |KeysFor(accels, a)|
    {
      if accels == map[] {
        return None;
      }
      var rest := accels;
      var values := [];
      while rest != map[]
        invariant |values| + |rest| == |accels|
        invariant forall a :: multiset(values)[a] + |KeysFor(rest, a)| == |KeysFor(accels, a)|
        decreases |rest|
      {
        var k :| k in rest;
        RemoveKey(rest, k);
        values := values + [rest[k]];
        rest := rest - {k};
      }
      r := Some(values);
    }
  }
}
