/**
 * Worked scenarios on a three-card list [X, Y, Z], written as clients of the
 * controller that only use its method contracts.
 */
module CardListScenarios {
  import opened CardListStore
  import opened CardListMachine
  import opened CardListController

  /** Long click starts a selection; clicking the same card again finishes it. */
  method SelectThenDeselect(x: Habit, y: Habit, z: Habit) {
    var adapter := new CardListAdapter([x, y, z], {});
    var controller := new HabitCardListController(adapter);
    controller.OnItemLongClick(1);
    assert adapter.selected == {1} && controller.activeMode == Selection;
    assert controller.menuLog == [SelectionStart];
    controller.OnItemClick(1);
    assert adapter.selected == {} && controller.activeMode == Normal;
    assert controller.menuLog == [SelectionStart, SelectionFinish];
    assert controller.actionLog == [];
  }

  /** In Selection mode a click on another card extends the selection. */
  method SelectTwo(x: Habit, y: Habit, z: Habit) {
    var adapter := new CardListAdapter([x, y, z], {});
    var controller := new HabitCardListController(adapter);
    controller.OnItemLongClick(1);
    controller.OnItemClick(0);
    assert adapter.selected == {0, 1} && controller.activeMode == Selection;
    assert controller.menuLog == [SelectionStart, SelectionChange];
  }

  /** A drop moves the first card to the end and reports the two habits. */
  method DropFirstToLast(x: Habit, y: Habit, z: Habit) {
    var adapter := new CardListAdapter([x, y, z], {});
    var controller := new HabitCardListController(adapter);
    controller.Drop(0, 2);
    assert adapter.items == Move([x, y, z], 0, 2);
    assert Remove(adapter.items, 2) == [y, z];
    assert adapter.items == [y, z, x];
    assert controller.actionLog == [ReorderHabit(x, z)];
    assert controller.menuLog == [SelectionFinish];
  }

  /** A swipe removes the card and reports the card that moved up into its place. */
  method SwipeMiddle(x: Habit, y: Habit, z: Habit) {
    var adapter := new CardListAdapter([x, y, z], {});
    var controller := new HabitCardListController(adapter);
    controller.OnSwiped(1, 0);
    assert adapter.items == [x, z];
    assert controller.actionLog == [DismissedHabit(Some(z))];
    assert controller.menuLog == [] && controller.activeMode == Normal;
  }

  /** A selection emptied outside any gesture is noticed by the change notification. */
  method ExternalEmptying(x: Habit, y: Habit, z: Habit) {
    var adapter := new CardListAdapter([x, y, z], {});
    var controller := new HabitCardListController(adapter);
    controller.OnItemLongClick(2);
    assert controller.activeMode == Selection;
    adapter.ClearSelection();
    controller.OnModelChange();
    assert controller.activeMode == Normal;
    assert controller.menuLog == [SelectionStart, SelectionFinish];
  }
}
