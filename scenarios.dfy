/**
 * Two uses of the facade, written as a caller would write them, with what
 * the contracts above let the caller conclude about the native menus.
 */
module MenuScenarios {
  import opened Common
  import opened WinMenu
  import MenuFacade

  /** Open, a separator and a disabled Exit come out as three entries in call order. */
  method ThreeEntries()
  {
    var table := new MenuTable();
    var a := new MenuFacade.Menu.New(table);
    a.AddItem(1, "Open", None, true);
    a.AddSeparator();
    a.AddItem(2, "Exit", None, false);
    var records := table.menus[a.inner.hmenu].records;
    assert records == [ItemRecord(1, "Open", None, true), SeparatorRecord, ItemRecord(2, "Exit", None, false)];
    ItemRecordReadsBack(1, "Open", None, true);
    SeparatorRecordReadsBack();
    ItemRecordReadsBack(2, "Exit", None, false);
    assert Interpret(records[0]) == Some(Item(1, "Open", false, true));
    assert Interpret(records[1]) == Some(Separator);
    assert Interpret(records[2]) == Some(Item(2, "Exit", false, false));
  }

  /**
   * A submenu holding one checked item, attached as "File": the parent has
   * one popup entry on the child's handle, the child keeps its item, and
   * dropping the parent releases the parent's handle but never the child's.
   */
  method FileSubmenu()
  {
    var table := new MenuTable();
    var parent := new MenuFacade.Menu.New(table);
    var b := new MenuFacade.Menu.New(table);
    b.AddItem(5, "Save", Some(true), true);
    parent.AddDropdown(b, "File", true);
    var child := b.inner.hmenu;
    assert table.menus[parent.inner.hmenu].records == [DropdownRecord(child, "File", true)];
    DropdownRecordReadsBack(child, "File", true);
    ItemRecordReadsBack(5, "Save", Some(true), true);
    assert Interpret(table.menus[parent.inner.hmenu].records[0]) == Some(Submenu(child, "File", true));
    assert Interpret(table.menus[child].records[0]) == Some(Item(5, "Save", true, true));
    assert b.moved && b.inner.status == Transferred;

    var root := parent.IntoInner();
    root.Drop();
    assert table.menus[root.hmenu].destroyCalls == 1;
    assert table.menus[child].destroyCalls == 0;
  }
}
