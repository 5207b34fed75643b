/**
 * The card-list controller as a transition function: one gesture or store
 * notification takes the whole observable state (the store, the active mode
 * and what the selection menu and the habit behaviour have been told so far)
 * to the next one. The imperative controller is proved against `Step`, and
 * the properties of the mode machine are proved here, once, about `Step`.
 */
module CardListMachine {
  import opened CardListStore

  /** The two list modes; each is a stateless strategy for the same gestures. */
  datatype Mode = Normal | Selection

  /** Notifications sent to the contextual selection menu. */
  datatype MenuEvent = SelectionStart | SelectionChange | SelectionFinish

  /** Semantic commands sent to the habit behaviour. */
  datatype Action =
    | ClickHabit(habit: Habit)
    | ReorderHabit(from: Habit, to: Habit)
    | DismissedHabit(dismissed: Option<Habit>)

  /** The entry points of the controller. */
  datatype Gesture =
    | Swiped(position: int, direction: int)
    | Drop(from: int, to: int)
    | ItemClick(position: int)
    | ItemLongClick(position: int)
    | StartDrag(position: int)
    | ModelChange
    | SelectionFinished

  datatype State = State(
    items: seq<Habit>,
    selected: set<int>,
    mode: Mode,
    menu: seq<MenuEvent>,
    actions: seq<Action>)

  /** A gesture that a mode interprets (click, long click, start of a drag). */
  predicate ModeGesture(g: Gesture) {
    g.ItemClick? || g.ItemLongClick? || g.StartDrag?
  }

  /** The mode agrees with the store: Selection exactly when something is selected. */
  predicate Consistent(s: State) {
    s.mode == Selection <==> s.selected != {}
  }

  /** A new controller over a store: Normal mode, nothing notified yet. */
  function Initial(items: seq<Habit>, selected: set<int>): (s: State)
    ensures s.items == items && s.selected == selected
    ensures s.mode == Normal && s.menu == [] && s.actions == []
    ensures selected == {} ==> Consistent(s)
  {
    State(items, selected, Normal, [], [])
  }

  /** toggleSelection: flip one position, then recompute the mode from the store. */
  function AfterToggle(s: State, position: int): (t: State)
    ensures t.selected == Toggle(s.selected, position)
    ensures Consistent(t)
    ensures t.items == s.items && t.menu == s.menu && t.actions == s.actions
  {
    var selected := Toggle(s.selected, position);
    s.(selected := selected, mode := if selected == {} then Normal else Selection)
  }

  /** cancelSelection: clear the store's selection, go Normal, tell the menu. */
  function AfterCancel(s: State): (t: State)
    ensures t.selected == {} && t.mode == Normal && Consistent(t)
    ensures t.menu == s.menu + [SelectionFinish]
    ensures t.items == s.items && t.actions == s.actions
  {
    s.(selected := {}, mode := Normal, menu := s.menu + [SelectionFinish])
  }

  /** NormalMode.startSelection: toggle, force Selection, tell the menu it started. */
  function AfterStartSelection(s: State, position: int): (t: State)
    ensures t.selected == Toggle(s.selected, position)
    ensures t.mode == Selection
    ensures t.menu == s.menu + [SelectionStart]
    ensures t.items == s.items && t.actions == s.actions
  {
    var t := AfterToggle(s, position);
    t.(mode := Selection, menu := t.menu + [SelectionStart])
  }

  /** SelectionMode.notifyListener: the event follows the mode after the toggle. */
  function AfterNotify(t: State): (u: State)
    ensures |u.menu| == |t.menu| + 1 && u.menu[..|t.menu|] == t.menu
    ensures u.menu[|t.menu|] == SelectionChange <==> t.mode == Selection
    ensures u.menu[|t.menu|] == SelectionFinish <==> t.mode == Normal
    ensures u.items == t.items && u.selected == t.selected && u.mode == t.mode && u.actions == t.actions
  {
    t.(menu := t.menu + [if t.mode == Selection then SelectionChange else SelectionFinish])
  }

  /** What one gesture or notification does to the state. */
  function Step(s: State, g: Gesture): (t: State)
    ensures s.menu <= t.menu && |t.menu| <= |s.menu| + 1
    ensures s.actions <= t.actions && |t.actions| <= |s.actions| + 1
  {
    match g
    case Swiped(position, _) =>
      var items := Remove(s.items, position);
      s.(items := items, actions := s.actions + [DismissedHabit(GetItem(items, position))])
    case Drop(from, to) =>
      if from == to then s
      else
        var c := AfterCancel(s);
        var habitFrom := GetItem(c.items, from);
        var habitTo := GetItem(c.items, to);
        if habitFrom.None? || habitTo.None? then c
        else c.(items := Move(c.items, from, to),
                actions := c.actions + [ReorderHabit(habitFrom.value, habitTo.value)])
    case ItemClick(position) =>
      if s.mode == Normal then
        var habit := GetItem(s.items, position);
        if habit.None? then s else s.(actions := s.actions + [ClickHabit(habit.value)])
      else AfterNotify(AfterToggle(s, position))
    case ItemLongClick(position) =>
      if s.mode == Normal then AfterStartSelection(s, position)
      else AfterNotify(AfterToggle(s, position))
    case StartDrag(position) =>
      if s.mode == Normal then AfterStartSelection(s, position)
      else AfterNotify(AfterToggle(s, position))
    case ModelChange =>
      if s.selected == {} then s.(mode := Normal, menu := s.menu + [SelectionFinish]) else s
    case SelectionFinished =>
      AfterCancel(s)
  }

  /** The state after a whole sequence of gestures and notifications. */
  function Run(s: State, gs: seq<Gesture>): State
    decreases |gs|
  {
    if gs == [] then s else Run(Step(s, gs[0]), gs[1..])
  }

  // ---------------------------------------------------------------------
  // The mode machine, gesture by gesture

  /**
   * Click in Normal mode: a present card is reported as clicked, once; a
   * stale position changes nothing. Selection, mode and menu never change.
   */
  lemma NormalClick(s: State, position: int)
    requires s.mode == Normal
    ensures var t := Step(s, ItemClick(position));
      && t.items == s.items && t.selected == s.selected && t.mode == Normal && t.menu == s.menu
      && t.actions == s.actions + (if Present(s.items, position) then [ClickHabit(s.items[position])] else [])
  {
  }

  /**
   * Long click or start of a drag in Normal mode: the position is toggled,
   * the mode is forced to Selection and the menu hears "started", once.
   */
  lemma NormalStartsSelection(s: State, g: Gesture)
    requires s.mode == Normal && (g.ItemLongClick? || g.StartDrag?)
    ensures var t := Step(s, g);
      && t.selected == Toggle(s.selected, g.position)
      && t.mode == Selection
      && t.menu == s.menu + [SelectionStart]
      && t.items == s.items && t.actions == s.actions
  {
  }

  /**
   * The Selection mode is forced even when the toggle emptied the selection:
   * from a Normal state whose store already had that one position selected,
   * the result disagrees with the store.
   */
  lemma ForcedSelectionCanBeEmpty(s: State, position: int)
    requires s.mode == Normal && s.selected == {position}
    ensures var t := Step(s, ItemLongClick(position));
      t.mode == Selection && t.selected == {} && !Consistent(t)
  {
  }

  /**
   * A toggle flips even a position that holds no card: after the last card
   * is swiped away, a long click on its old position selects that position
   * and enters Selection mode, though no card is there.
   */
  lemma StaleLongClickSelectsNoCard(x: Habit, y: Habit, z: Habit)
    ensures var t := Run(Initial([x, y, z], {}), [Swiped(2, 0), ItemLongClick(2)]);
      t.items == [x, y] && t.selected == {2} && t.mode == Selection && !Present(t.items, 2)
  {
    var s1 := Step(Initial([x, y, z], {}), Swiped(2, 0));
    assert s1.items == [x, y];
    assert Run(Initial([x, y, z], {}), [Swiped(2, 0), ItemLongClick(2)])
        == Run(s1, [ItemLongClick(2)]);
  }

  /**
   * Click, long click or start of a drag in Selection mode: the position is
   * toggled, the mode follows the store, and the menu hears exactly one
   * event chosen by the mode after the toggle: "changed" while something is
   * still selected, "finished" once the selection became empty.
   */
  lemma SelectionToggles(s: State, g: Gesture)
    requires s.mode == Selection && ModeGesture(g)
    ensures var t := Step(s, g);
      && t.selected == Toggle(s.selected, g.position)
      && (t.mode == Selection <==> t.selected != {})
      && t.menu == s.menu + [if t.selected == {} then SelectionFinish else SelectionChange]
      && t.items == s.items && t.actions == s.actions
  {
  }

  /** A drop onto the same position changes nothing at all. */
  lemma DropInPlace(s: State, position: int)
    ensures Step(s, Drop(position, position)) == s
  {
  }

  /**
   * A drop between two positions always cancels the selection first; the
   * cards move, and the behaviour hears of it, only when both positions were
   * present before the move.
   */
  lemma DropElsewhere(s: State, from: int, to: int)
    requires from != to
    ensures var t := Step(s, Drop(from, to));
      && t.selected == {} && t.mode == Normal && t.menu == s.menu + [SelectionFinish]
      && (Present(s.items, from) && Present(s.items, to) ==>
            t.items == Move(s.items, from, to)
            && t.actions == s.actions + [ReorderHabit(s.items[from], s.items[to])])
      && (!(Present(s.items, from) && Present(s.items, to)) ==>
            t.items == s.items && t.actions == s.actions)
  {
  }

  /**
   * A swipe removes the card and reports what `getItem` returns at the same
   * position after the removal: the card that moved up into it, or none when
   * the swiped card was the last one or the position was stale. The
   * direction is ignored; mode, selection and menu are left alone.
   */
  lemma SwipeReportsLookupAfterDismiss(s: State, position: int, direction: int)
    ensures var t := Step(s, Swiped(position, direction));
      && t.items == Remove(s.items, position)
      && t.actions == s.actions + [DismissedHabit(
           if 0 <= position && position + 1 < |s.items| then Some(s.items[position + 1]) else None)]
      && t.selected == s.selected && t.mode == s.mode && t.menu == s.menu
      && t == Step(s, Swiped(position, 0))
  {
  }

  /**
   * A store change with an empty selection resets the mode and finishes the
   * menu; with a selection it changes nothing. Repeating it leaves the same
   * store and mode; only the menu grows, by one "finished" per call.
   */
  lemma ModelChangeRepeats(s: State)
    ensures var t := Step(s, ModelChange);
      && t.items == s.items && t.selected == s.selected && t.actions == s.actions
      && (s.selected == {} ==> t.mode == Normal && t.menu == s.menu + [SelectionFinish])
      && (s.selected != {} ==> t == s)
    ensures var t := Step(s, ModelChange);
      var u := Step(t, ModelChange);
      && u.items == t.items && u.selected == t.selected && u.mode == t.mode
      && u.actions == t.actions
      && u.menu == t.menu + (if s.selected == {} then [SelectionFinish] else [])
  {
  }

  /**
   * An explicit end of selection empties it, goes Normal and finishes the
   * menu; a second one leaves the same store and mode and finishes again.
   */
  lemma SelectionFinishedTwice(s: State)
    ensures var t := Step(s, SelectionFinished);
      && t.selected == {} && t.mode == Normal && t.items == s.items && t.actions == s.actions
      && t.menu == s.menu + [SelectionFinish]
    ensures var t := Step(s, SelectionFinished);
      var u := Step(t, SelectionFinished);
      && u.items == t.items && u.selected == t.selected && u.mode == t.mode
      && u.actions == t.actions && u.menu == s.menu + [SelectionFinish, SelectionFinish]
  {
  }

  // ---------------------------------------------------------------------
  // Invariants over whole runs

  /** Every gesture and notification keeps the mode in agreement with the store. */
  lemma StepKeepsConsistent(s: State, g: Gesture)
    requires Consistent(s)
    ensures Consistent(Step(s, g))
  {
    match g
    case ItemLongClick(position) =>
      if s.mode == Normal {
        assert position in Step(s, g).selected;
      }
    case StartDrag(position) =>
      if s.mode == Normal {
        assert position in Step(s, g).selected;
      }
    case _ =>
  }

  /** Agreement between mode and store survives any run. */
  lemma {:induction false} RunKeepsConsistent(s: State, gs: seq<Gesture>)
    requires Consistent(s)
    ensures Consistent(Run(s, gs))
    decreases |gs|
  {
    if gs != [] {
      StepKeepsConsistent(s, gs[0]);
      RunKeepsConsistent(Step(s, gs[0]), gs[1..]);
    }
  }

  /**
   * A controller created over a store with nothing selected is, after any
   * sequence of gestures and notifications, in Selection mode exactly when
   * the store's selection is non-empty.
   */
  lemma ReachableStatesConsistent(items: seq<Habit>, gs: seq<Gesture>)
    ensures var t := Run(Initial(items, {}), gs);
      t.mode == Selection <==> t.selected != {}
  {
    RunKeepsConsistent(Initial(items, {}), gs);
  }

  /** Whatever the state, an explicit end of selection restores agreement. */
  lemma SelectionFinishedSettles(s: State)
    ensures Consistent(Step(s, SelectionFinished))
  {
  }

  /** The menu and behaviour logs are append-only over any run. */
  lemma {:induction false} RunOnlyAppends(s: State, gs: seq<Gesture>)
    ensures var t := Run(s, gs);
      s.menu <= t.menu && s.actions <= t.actions
      && |t.menu| <= |s.menu| + |gs| && |t.actions| <= |s.actions| + |gs|
    decreases |gs|
  {
    if gs != [] {
      var s' := Step(s, gs[0]);
      RunOnlyAppends(s', gs[1..]);
      var t := Run(s', gs[1..]);
      assert s.menu == s'.menu[..|s.menu|] == t.menu[..|s.menu|];
      assert s.actions == s'.actions[..|s.actions|] == t.actions[..|s.actions|];
    }
  }

  // ---------------------------------------------------------------------
  // Changes to the adapter made outside the controller

  /**
   * What can happen to the list: a controller entry point, or a change that
   * other code makes to the adapter's cards and selection directly (a habit
   * deleted or archived elsewhere, say). The controller hears of the latter
   * only through the separate `ModelChange` notification.
   */
  datatype Event =
    | Entry(gesture: Gesture)
    | Outside(items: seq<Habit>, selected: set<int>)

  /** An outside change replaces the store and leaves mode and logs alone. */
  function Apply(s: State, e: Event): State {
    match e
    case Entry(g) => Step(s, g)
    case Outside(items, selected) => s.(items := items, selected := selected)
  }

  /** The state after a whole history of entry points and outside changes. */
  function History(s: State, es: seq<Event>): State
    decreases |es|
  {
    if es == [] then s else History(Apply(s, es[0]), es[1..])
  }

  /** Every outside change in the history only removes positions from the selection. */
  ghost predicate OnlyShrinks(s: State, es: seq<Event>)
    decreases |es|
  {
    es == [] ||
    ((es[0].Outside? ==> es[0].selected <= s.selected) && OnlyShrinks(Apply(s, es[0]), es[1..]))
  }

  /**
   * The weaker agreement that survives outside removals: Normal mode never
   * has a selection (Selection mode may have lost all of it).
   */
  predicate NormalUnselected(s: State) {
    s.mode == Normal ==> s.selected == {}
  }

  /** Every entry point keeps Normal mode free of selection. */
  lemma StepKeepsNormalUnselected(s: State, g: Gesture)
    requires NormalUnselected(s)
    ensures NormalUnselected(Step(s, g))
  {
  }

  /** From a Normal mode without selection, the change notification restores full agreement. */
  lemma ModelChangeRestores(s: State)
    requires NormalUnselected(s)
    ensures Consistent(Step(s, ModelChange))
  {
  }

  /** Entry points and outside removals keep Normal mode free of selection. */
  lemma {:induction false} ShrinkingHistoryKeepsNormalUnselected(s: State, es: seq<Event>)
    requires NormalUnselected(s) && OnlyShrinks(s, es)
    ensures NormalUnselected(History(s, es))
    decreases |es|
  {
    if es != [] {
      if es[0].Entry? {
        StepKeepsNormalUnselected(s, es[0].gesture);
      }
      ShrinkingHistoryKeepsNormalUnselected(Apply(s, es[0]), es[1..]);
    }
  }

  /**
   * A controller created over a store with nothing selected, after any
   * history whose outside changes only remove selected positions, agrees
   * with the store again as soon as the change notification arrives.
   */
  lemma ShrinkingHistorySettles(items: seq<Habit>, es: seq<Event>)
    requires OnlyShrinks(Initial(items, {}), es)
    ensures var t := Step(History(Initial(items, {}), es), ModelChange);
      t.mode == Selection <==> t.selected != {}
  {
    ShrinkingHistoryKeepsNormalUnselected(Initial(items, {}), es);
    ModelChangeRestores(History(Initial(items, {}), es));
  }

  /**
   * An outside change that adds a selection while the list is in Normal mode
   * is not noticed: the notification ignores a non-empty selection, so the
   * mode stays Normal. A long click on that position then empties the
   * selection and still forces Selection mode.
   */
  lemma OutsideAdditionUnnoticed(s: State, position: int)
    requires Consistent(s) && s.mode == Normal
    ensures var t := Step(Apply(s, Outside(s.items, {position})), ModelChange);
      t.mode == Normal && t.selected == {position} && !Consistent(t)
    ensures var t := Step(Apply(s, Outside(s.items, {position})), ModelChange);
      var u := Step(t, ItemLongClick(position));
      u.mode == Selection && u.selected == {} && !Consistent(u)
  {
    var t := Step(Apply(s, Outside(s.items, {position})), ModelChange);
    ForcedSelectionCanBeEmpty(t, position);
  }
}
