/**
 * HabitCardListController and the adapter it drives, as objects whose
 * fields change in place. The adapter's order and selection are updated by
 * its own methods; the controller's active mode is reassigned, and the
 * selection menu and the habit behaviour are append-only logs of what they
 * were told. Each controller entry point ensures its new state outright and
 * that this state is `Step` of the old one, so the lemmas of
 * CardListMachine apply to every run of the object.
 */
module CardListController {
  import opened CardListStore
  import opened CardListMachine

  /** The adapter behind the list: the cards in order and the selected positions. */
  class CardListAdapter {
    var items: seq<Habit>
    var selected: set<int>

    constructor (items: seq<Habit>, selected: set<int>)
      ensures this.items == items && this.selected == selected
    {
      this.items := items;
      this.selected := selected;
    }

    /** getItem: the habit at a position, or none when it is stale. */
    function GetItemAt(position: int): (r: Option<Habit>)
      reads this
      ensures r.Some? <==> Present(items, position)
      ensures r.Some? ==> r.value == items[position]
    {
      GetItem(items, position)
    }

    /** isSelectionEmpty */
    predicate IsSelectionEmpty(): (r: bool)
      reads this
      ensures r ==> forall q :: q !in selected
      ensures !r ==> |selected| > 0
    {
      selected == {}
    }

    method ToggleSelection(position: int)
      modifies this
      ensures selected == Toggle(old(selected), position) && items == old(items)
    {
      selected := Toggle(selected, position);
    }

    method ClearSelection()
      modifies this
      ensures selected == {} && items == old(items)
    {
      selected := {};
    }

    method PerformReorder(from: int, to: int)
      requires Present(items, from) && Present(items, to)
      modifies this
      ensures items == Move(old(items), from, to) && selected == old(selected)
    {
      items := Move(items, from, to);
    }

    method Dismiss(position: int)
      modifies this
      ensures items == Remove(old(items), position) && selected == old(selected)
    {
      items := Remove(items, position);
    }
  }

  class HabitCardListController {
    const adapter: CardListAdapter
    var activeMode: Mode
    /** What the selection menu has been told, oldest first. */
    var menuLog: seq<MenuEvent>
    /** What the habit behaviour has been told, oldest first. */
    var actionLog: seq<Action>

    /** The observable state of the controller and its adapter. */
    function Model(): State
      reads this, adapter
    {
      State(adapter.items, adapter.selected, activeMode, menuLog, actionLog)
    }

    constructor (adapter: CardListAdapter)
      ensures this.adapter == adapter
      ensures activeMode == Normal && menuLog == [] && actionLog == []
      ensures Model() == Initial(adapter.items, adapter.selected)
    {
      this.adapter := adapter;
      activeMode := Normal;
      menuLog := [];
      actionLog := [];
    }

    method OnSwiped(position: int, direction: int)
      modifies this, adapter
      ensures adapter.items == Remove(old(adapter.items), position)
      ensures actionLog == old(actionLog) + [DismissedHabit(GetItem(adapter.items, position))]
      ensures adapter.selected == old(adapter.selected)
      ensures activeMode == old(activeMode) && menuLog == old(menuLog)
      ensures Model() == Step(old(Model()), Swiped(position, direction))
    {
      adapter.Dismiss(position);
      actionLog := actionLog + [DismissedHabit(adapter.GetItemAt(position))];
    }

    method Drop(from: int, to: int)
      modifies this, adapter
      ensures from == to ==> Model() == old(Model())
      ensures from != to ==>
        && adapter.selected == {} && activeMode == Normal
        && menuLog == old(menuLog) + [SelectionFinish]
      ensures from != to && Present(old(adapter.items), from) && Present(old(adapter.items), to) ==>
        && adapter.items == Move(old(adapter.items), from, to)
        && actionLog == old(actionLog) + [ReorderHabit(old(adapter.items)[from], old(adapter.items)[to])]
      ensures !(from != to && Present(old(adapter.items), from) && Present(old(adapter.items), to)) ==>
        adapter.items == old(adapter.items) && actionLog == old(actionLog)
      ensures Model() == Step(old(Model()), Gesture.Drop(from, to))
    {
      if from == to {
        return;
      }
      CancelSelection();
      var habitFrom := adapter.GetItemAt(from);
      var habitTo := adapter.GetItemAt(to);
      if habitFrom.None? || habitTo.None? {
        return;
      }
      adapter.PerformReorder(from, to);
      actionLog := actionLog + [ReorderHabit(habitFrom.value, habitTo.value)];
    }

    method OnItemClick(position: int)
      modifies this, adapter
      ensures old(activeMode) == Normal ==>
        && adapter.items == old(adapter.items) && adapter.selected == old(adapter.selected)
        && activeMode == Normal && menuLog == old(menuLog)
        && actionLog == old(actionLog) + (if Present(adapter.items, position) then [ClickHabit(adapter.items[position])] else [])
      ensures old(activeMode) == Selection ==> SelectionToggled(position)
      ensures Model() == Step(old(Model()), ItemClick(position))
    {
      match activeMode
      case Normal =>
        var habit := adapter.GetItemAt(position);
        if habit.None? {
          return;
        }
        actionLog := actionLog + [ClickHabit(habit.value)];
      case Selection =>
        ToggleSelection(position);
        NotifyListener();
    }

    method OnItemLongClick(position: int)
      modifies this, adapter
      ensures old(activeMode) == Normal ==> SelectionStarted(position)
      ensures old(activeMode) == Selection ==> SelectionToggled(position)
      ensures Model() == Step(old(Model()), ItemLongClick(position))
    {
      var _ := ModeOnItemLongClick(position);
    }

    method StartDrag(position: int)
      modifies this, adapter
      ensures old(activeMode) == Normal ==> SelectionStarted(position)
      ensures old(activeMode) == Selection ==> SelectionToggled(position)
      ensures Model() == Step(old(Model()), Gesture.StartDrag(position))
    {
      match activeMode
      case Normal =>
        StartSelection(position);
      case Selection =>
        ToggleSelection(position);
        NotifyListener();
    }

    method OnModelChange()
      modifies this
      ensures adapter.selected == {} ==> activeMode == Normal && menuLog == old(menuLog) + [SelectionFinish]
      ensures adapter.selected != {} ==> activeMode == old(activeMode) && menuLog == old(menuLog)
      ensures actionLog == old(actionLog)
      ensures Model() == Step(old(Model()), ModelChange)
    {
      if adapter.IsSelectionEmpty() {
        activeMode := Normal;
        menuLog := menuLog + [SelectionFinish];
      }
    }

    method OnSelectionFinished()
      modifies this, adapter
      ensures adapter.selected == {} && activeMode == Normal
      ensures menuLog == old(menuLog) + [SelectionFinish]
      ensures adapter.items == old(adapter.items) && actionLog == old(actionLog)
      ensures Model() == Step(old(Model()), SelectionFinished)
    {
      CancelSelection();
    }

    /** The new state after NormalMode.startSelection at `position`. */
    twostate predicate SelectionStarted(position: int)
      reads this, adapter
    {
      && adapter.selected == Toggle(old(adapter.selected), position)
      && activeMode == Selection
      && menuLog == old(menuLog) + [SelectionStart]
      && adapter.items == old(adapter.items) && actionLog == old(actionLog)
    }

    /** The new state after a SelectionMode gesture at `position`. */
    twostate predicate SelectionToggled(position: int)
      reads this, adapter
    {
      && adapter.selected == Toggle(old(adapter.selected), position)
      && (activeMode == Selection <==> adapter.selected != {})
      && menuLog == old(menuLog) + [if adapter.selected == {} then SelectionFinish else SelectionChange]
      && adapter.items == old(adapter.items) && actionLog == old(actionLog)
    }

    /** Mode.onItemLongClick: always reports the gesture as handled. */
    method ModeOnItemLongClick(position: int) returns (handled: bool)
      modifies this, adapter
      ensures handled
      ensures old(activeMode) == Normal ==> SelectionStarted(position)
      ensures old(activeMode) == Selection ==> SelectionToggled(position)
      ensures Model() == Step(old(Model()), ItemLongClick(position))
    {
      match activeMode {
        case Normal =>
          StartSelection(position);
        case Selection =>
          ToggleSelection(position);
          NotifyListener();
      }
      handled := true;
    }

    /** NormalMode.startSelection */
    method StartSelection(position: int)
      modifies this, adapter
      ensures SelectionStarted(position)
      ensures Model() == AfterStartSelection(old(Model()), position)
    {
      ToggleSelection(position);
      activeMode := Selection;
      menuLog := menuLog + [SelectionStart];
    }

    /** SelectionMode.notifyListener */
    method NotifyListener()
      modifies this
      ensures menuLog == old(menuLog) + [if activeMode == Selection then SelectionChange else SelectionFinish]
      ensures activeMode == old(activeMode) && actionLog == old(actionLog)
      ensures Model() == AfterNotify(old(Model()))
    {
      if activeMode == Selection {
        menuLog := menuLog + [SelectionChange];
      } else {
        menuLog := menuLog + [SelectionFinish];
      }
    }

    /** toggleSelection: the single place where the mode is recomputed from the store. */
    method ToggleSelection(position: int)
      modifies this, adapter
      ensures adapter.selected == Toggle(old(adapter.selected), position)
      ensures activeMode == Selection <==> adapter.selected != {}
      ensures adapter.items == old(adapter.items)
      ensures menuLog == old(menuLog) && actionLog == old(actionLog)
      ensures Model() == AfterToggle(old(Model()), position)
    {
      adapter.ToggleSelection(position);
      activeMode := if adapter.IsSelectionEmpty() then Normal else Selection;
    }

    /** cancelSelection */
    method CancelSelection()
      modifies this, adapter
      ensures adapter.selected == {} && activeMode == Normal
      ensures menuLog == old(menuLog) + [SelectionFinish]
      ensures adapter.items == old(adapter.items) && actionLog == old(actionLog)
      ensures Model() == AfterCancel(old(Model()))
    {
      adapter.ClearSelection();
      activeMode := Normal;
      menuLog := menuLog + [SelectionFinish];
    }
  }
}
