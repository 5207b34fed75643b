# Habit card list controller

A Dafny model of `HabitCardListController` from Loop Habit Tracker (uhabits).
The controller turns the gestures of the habit list into actions. The gestures
are a click, a long click, the start of a drag, a drop and a swipe. The same
gesture means different things in the two modes of the list:

- In **Normal** mode a click opens the habit. A long click or the start of a
  drag begins a selection.
- In **Selection** mode every one of those gestures toggles the card's
  selection. The contextual selection menu then hears "changed" while something
  is still selected, and "finished" once the selection is empty.

A drop cancels the selection and reorders the cards. A swipe dismisses a card.
A change notification from the adapter resets the mode when the selection has
become empty.

The model has four files:

- `store.dfy` (module `CardListStore`) models the adapter's operations as
  functions on values: lookup by position, selection toggle, dismissal of one
  card and moving one card. Lemmas show that a move is a permutation and that
  moving back undoes it.
- `machine.dfy` (module `CardListMachine`) gives the controller as a transition
  function `Step` over the whole observable state. That state is the cards,
  the selected positions, the active mode, the menu log and the behaviour log.
  Lemmas state every gesture's effect. They also prove that the mode agrees
  with the selection after any run of entry points that starts from an empty
  selection, and that both logs are append-only. An `Event` adds changes that
  other code makes to the adapter directly. Lemmas show that removals from the
  selection are repaired by the next change notification, and that an outside
  addition in Normal mode is not noticed.
- `controller.dfy` (module `CardListController`) holds the imperative model.
  `CardListAdapter` is a class whose order and selection change in place.
  `HabitCardListController` is a class with the adapter, the reassigned
  `activeMode` field, and two append-only logs: the menu events and the
  behaviour actions. Each method follows the source's order: change the store,
  recompute the mode, notify. Each entry point states its new state and proves
  that this state is `Step` of the old one. The internal helpers are proved
  against the matching parts of `Step` (`AfterToggle`, `AfterCancel`,
  `AfterStartSelection`, `AfterNotify`), and the adapter's methods against the
  store functions.
- `scenarios.dfy` has verified client methods that step through example
  gesture sequences on a three-card list, using only the method contracts.

The two mode objects carry no state. The source tells them apart only by
reference identity: `activeMode === SELECTION_MODE` in `notifyListener`. The
fresh `NormalMode()` instances made by `onModelChange` and `cancelSelection`
behave exactly like `NORMAL_MODE`. So the mode is the enumeration `Mode`.

Three behaviours of the source are worth noting:

- `onSwiped` reports `getItem(position)` looked up after `dismiss`. In the
  model, where `dismiss` removes the card from the sequence, the lookup
  returns the card that moved up into the position, or none when the swiped
  card was the last one (`CardListMachine.SwipeReportsLookupAfterDismiss`).
  What the program reports depends on the adapter's `dismiss`, which is not
  part of this model.
- A long click or drag start in Normal mode forces Selection mode even when
  the toggle emptied the selection (`CardListMachine.ForcedSelectionCanBeEmpty`).
  In the model, where a toggle flips even a position that holds no card,
  and only the controller changes the adapter, this needs a selection that
  the adapter already had when the controller was built: from an empty
  initial selection the mode always agrees with the selection
  (`CardListMachine.ReachableStatesConsistent`). The price is that a long
  click on a position with no card selects that position
  (`CardListMachine.StaleLongClickSelectsNoCard`). For such a position the
  source's result depends on the adapter's `toggleSelection`, which is not
  part of this model: if it ignored the position, the selection would stay
  empty and the long click would still force Selection mode. Other code can
  also add to the selection while the list is in Normal mode. `onModelChange`
  ignores a non-empty selection, so the mode stays Normal, and a long click on
  that position reaches the same state (`CardListMachine.OutsideAdditionUnnoticed`).
  Outside removals are harmless: the next change notification restores
  agreement (`CardListMachine.ShrinkingHistorySettles`).
- Each call that ends the selection sends its own "finished" event, even when
  the selection is already empty (`CardListMachine.SelectionFinishedTwice`).

## Model

| member | source | states |
|---|---|---|
| `CardListStore.GetItem` | android/uhabits-android/src/main/java/org/isoron/uhabits/activities/habits/list/views/HabitCardListController.kt:59-61 | A lookup finds a habit exactly when the position is within the list, and then finds the habit at that position. |
| `CardListStore.Toggle` | android/uhabits-android/src/main/java/org/isoron/uhabits/activities/habits/list/views/HabitCardListController.kt:91 | Toggling flips the membership of that one position and leaves every other position as it was. |
| `CardListStore.Remove` | android/uhabits-android/src/main/java/org/isoron/uhabits/activities/habits/list/views/HabitCardListController.kt:51 | Dismissing a present position shortens the list by one: earlier cards stay and later cards move up by one. A stale position leaves the list unchanged. |
| `CardListStore.Move` | android/uhabits-android/src/main/java/org/isoron/uhabits/activities/habits/list/views/HabitCardListController.kt:63 | A reorder keeps the length and puts the card from `from` at `to`. Removing that card from both lists gives the same list, so the other cards keep their relative order. |
| `CardListStore.ToggleTwice` | android/uhabits-android/src/main/java/org/isoron/uhabits/activities/habits/list/views/HabitCardListController.kt:91 | Toggling the same position twice restores the selection. |
| `CardListStore.RemoveTakesOneOccurrence` | android/uhabits-android/src/main/java/org/isoron/uhabits/activities/habits/list/views/HabitCardListController.kt:51 | Dismissing a present card removes exactly one occurrence of its habit from the list's multiset. |
| `CardListStore.MovePermutes` | android/uhabits-android/src/main/java/org/isoron/uhabits/activities/habits/list/views/HabitCardListController.kt:63 | A reorder is a permutation of the cards. |
| `CardListStore.MoveUndo` | android/uhabits-android/src/main/java/org/isoron/uhabits/activities/habits/list/views/HabitCardListController.kt:63 | Reordering from `to` back to `from` restores the original list. |
| `CardListMachine.Initial` | android/uhabits-android/src/main/java/org/isoron/uhabits/activities/habits/list/views/HabitCardListController.kt:45-48 | A new controller is in Normal mode with empty menu and behaviour logs over the adapter's store. It is consistent when the store has nothing selected. |
| `CardListMachine.AfterToggle` | android/uhabits-android/src/main/java/org/isoron/uhabits/activities/habits/list/views/HabitCardListController.kt:90-93 | After a toggle the selection is the toggled one and the mode is Selection exactly when the selection is non-empty. Cards and logs are unchanged. |
| `CardListMachine.AfterCancel` | android/uhabits-android/src/main/java/org/isoron/uhabits/activities/habits/list/views/HabitCardListController.kt:95-99 | Cancelling leaves an empty selection in Normal mode, so mode and store agree, and appends exactly one "finished". Cards and behaviour log are unchanged. |
| `CardListMachine.AfterStartSelection` | android/uhabits-android/src/main/java/org/isoron/uhabits/activities/habits/list/views/HabitCardListController.kt:137-141 | Starting a selection toggles the position, sets Selection mode whatever the toggle left, and appends exactly one "started". Cards and behaviour log are unchanged. |
| `CardListMachine.AfterNotify` | android/uhabits-android/src/main/java/org/isoron/uhabits/activities/habits/list/views/HabitCardListController.kt:165-170 | Notifying appends exactly one event: "changed" exactly when the mode is Selection, "finished" exactly when it is Normal. Nothing else changes. |
| `CardListMachine.Step` | android/uhabits-android/src/main/java/org/isoron/uhabits/activities/habits/list/views/HabitCardListController.kt:50-99 | Every entry point only appends to the menu and behaviour logs, at most one event to each. |
| `CardListMachine.NormalClick` | android/uhabits-android/src/main/java/org/isoron/uhabits/activities/habits/list/views/HabitCardListController.kt:121-126 | A Normal-mode click on a present card appends exactly one click of that habit. A stale position changes nothing. Cards, selection, mode and menu are unchanged either way. |
| `CardListMachine.NormalStartsSelection` | android/uhabits-android/src/main/java/org/isoron/uhabits/activities/habits/list/views/HabitCardListController.kt:128-141 | A Normal-mode long click or drag start toggles the position, sets Selection mode unconditionally and appends exactly one "started". |
| `CardListMachine.ForcedSelectionCanBeEmpty` | android/uhabits-android/src/main/java/org/isoron/uhabits/activities/habits/list/views/HabitCardListController.kt:137-141 | When that position was the only one selected, the result is Selection mode with an empty selection, so the mode disagrees with the store. |
| `CardListMachine.StaleLongClickSelectsNoCard` | android/uhabits-android/src/main/java/org/isoron/uhabits/activities/habits/list/views/HabitCardListController.kt:128-141 | After the last of three cards is swiped away, a Normal-mode long click on its old position selects that position and enters Selection mode, though no card is there. |
| `CardListMachine.SelectionToggles` | android/uhabits-android/src/main/java/org/isoron/uhabits/activities/habits/list/views/HabitCardListController.kt:148-170 | A Selection-mode click, long click or drag start toggles the position and makes the mode follow the store. It appends exactly one event: "changed" if the selection is still non-empty, otherwise "finished". |
| `CardListMachine.DropInPlace` | android/uhabits-android/src/main/java/org/isoron/uhabits/activities/habits/list/views/HabitCardListController.kt:56 | A drop onto its own position changes nothing at all. |
| `CardListMachine.DropElsewhere` | android/uhabits-android/src/main/java/org/isoron/uhabits/activities/habits/list/views/HabitCardListController.kt:55-65 | Any other drop clears the selection, goes Normal and appends one "finished". The cards move and one reorder of the two original habits is reported only when both positions were present; otherwise cards and behaviour log are unchanged. |
| `CardListMachine.SwipeReportsLookupAfterDismiss` | android/uhabits-android/src/main/java/org/isoron/uhabits/activities/habits/list/views/HabitCardListController.kt:50-53 | A swipe removes the card and reports the lookup at that position after the removal, which is the next card or none. The direction is ignored. Mode, selection and menu are unchanged. |
| `CardListMachine.ModelChangeRepeats` | android/uhabits-android/src/main/java/org/isoron/uhabits/activities/habits/list/views/HabitCardListController.kt:75-80 | With an empty selection a change notification sets Normal and appends one "finished"; otherwise it changes nothing. A repeat leaves store and mode as they were, and only the menu grows. |
| `CardListMachine.SelectionFinishedTwice` | android/uhabits-android/src/main/java/org/isoron/uhabits/activities/habits/list/views/HabitCardListController.kt:82-84 | Ending the selection empties it, goes Normal and appends one "finished". Doing it twice gives the same store and mode as once, with two "finished" events. |
| `CardListMachine.StepKeepsConsistent` | android/uhabits-android/src/main/java/org/isoron/uhabits/activities/habits/list/views/HabitCardListController.kt:50-99 | If the mode agreed with the selection before a gesture or notification, it still agrees after it. |
| `CardListMachine.RunKeepsConsistent` | android/uhabits-android/src/main/java/org/isoron/uhabits/activities/habits/list/views/HabitCardListController.kt:50-99 | The agreement between mode and selection survives any sequence of gestures and notifications. |
| `CardListMachine.ReachableStatesConsistent` | android/uhabits-android/src/main/java/org/isoron/uhabits/activities/habits/list/views/HabitCardListController.kt:45-99 | A controller built over a store with nothing selected is, after any run of its own entry points, in Selection mode exactly when the selection is non-empty. |
| `CardListMachine.SelectionFinishedSettles` | android/uhabits-android/src/main/java/org/isoron/uhabits/activities/habits/list/views/HabitCardListController.kt:95-99 | From any state, cancelling the selection makes the mode agree with the store again. |
| `CardListMachine.RunOnlyAppends` | android/uhabits-android/src/main/java/org/isoron/uhabits/activities/habits/list/views/HabitCardListController.kt:50-99 | Over any run, the old menu and behaviour logs are prefixes of the new ones, and each grows by at most one event per step. |
| `CardListMachine.StepKeepsNormalUnselected` | android/uhabits-android/src/main/java/org/isoron/uhabits/activities/habits/list/views/HabitCardListController.kt:50-99 | No entry point leaves Normal mode with a non-empty selection if there was none before. |
| `CardListMachine.ModelChangeRestores` | android/uhabits-android/src/main/java/org/isoron/uhabits/activities/habits/list/views/HabitCardListController.kt:75-80 | When Normal mode has no selection, the change notification makes the mode agree with the store, including after the selection was emptied behind a Selection-mode list. |
| `CardListMachine.ShrinkingHistoryKeepsNormalUnselected` | android/uhabits-android/src/main/java/org/isoron/uhabits/activities/habits/list/views/HabitCardListController.kt:50-99 | Over any history of entry points and outside changes that only remove selected positions, Normal mode never has a selection. |
| `CardListMachine.ShrinkingHistorySettles` | android/uhabits-android/src/main/java/org/isoron/uhabits/activities/habits/list/views/HabitCardListController.kt:75-80 | From an empty initial selection, after any such history, the next change notification leaves the mode in agreement with the store. |
| `CardListMachine.OutsideAdditionUnnoticed` | android/uhabits-android/src/main/java/org/isoron/uhabits/activities/habits/list/views/HabitCardListController.kt:75-80 | An outside change that selects a position while the list is in Normal mode survives the notification in Normal mode, and a long click on it then gives Selection mode with an empty selection. |
| `CardListController.CardListAdapter.constructor` | android/uhabits-android/src/main/java/org/isoron/uhabits/activities/habits/list/views/HabitCardListController.kt:36 | The adapter starts with the given cards and selection. |
| `CardListController.CardListAdapter.GetItemAt` | android/uhabits-android/src/main/java/org/isoron/uhabits/activities/habits/list/views/HabitCardListController.kt:59-60 | `getItem` on the adapter's current cards: a habit exactly for a present position. |
| `CardListController.CardListAdapter.IsSelectionEmpty` | android/uhabits-android/src/main/java/org/isoron/uhabits/activities/habits/list/views/HabitCardListController.kt:76 | The adapter reports an empty selection only when no position is selected, and a non-empty one only when some position is. |
| `CardListController.CardListAdapter.ToggleSelection` | android/uhabits-android/src/main/java/org/isoron/uhabits/activities/habits/list/views/HabitCardListController.kt:91 | The selection becomes its toggle at the position. The cards are unchanged. |
| `CardListController.CardListAdapter.ClearSelection` | android/uhabits-android/src/main/java/org/isoron/uhabits/activities/habits/list/views/HabitCardListController.kt:96 | The selection becomes empty. The cards are unchanged. |
| `CardListController.CardListAdapter.PerformReorder` | android/uhabits-android/src/main/java/org/isoron/uhabits/activities/habits/list/views/HabitCardListController.kt:63 | The cards become the moved list. The selection is unchanged. |
| `CardListController.CardListAdapter.Dismiss` | android/uhabits-android/src/main/java/org/isoron/uhabits/activities/habits/list/views/HabitCardListController.kt:51 | The cards lose the one at the position. The selection is unchanged. |
| `CardListController.HabitCardListController.constructor` | android/uhabits-android/src/main/java/org/isoron/uhabits/activities/habits/list/views/HabitCardListController.kt:35-48 | A new controller is in Normal mode with empty logs; its state is `Initial` of the adapter's store. |
| `CardListController.HabitCardListController.OnSwiped` | android/uhabits-android/src/main/java/org/isoron/uhabits/activities/habits/list/views/HabitCardListController.kt:50-53 | Dismiss first, then report the lookup at the same position. Selection, mode and menu are unchanged. The new state is `Step` of the old. |
| `CardListController.HabitCardListController.Drop` | android/uhabits-android/src/main/java/org/isoron/uhabits/activities/habits/list/views/HabitCardListController.kt:55-65 | The same effects as `DropInPlace` and `DropElsewhere`, stated on the object; the new state is `Step` of the old. |
| `CardListController.HabitCardListController.OnItemClick` | android/uhabits-android/src/main/java/org/isoron/uhabits/activities/habits/list/views/HabitCardListController.kt:67-69 | The click goes to the active mode. Normal mode reports a click of a present habit. Selection mode toggles and notifies by the post-toggle mode. |
| `CardListController.HabitCardListController.OnItemLongClick` | android/uhabits-android/src/main/java/org/isoron/uhabits/activities/habits/list/views/HabitCardListController.kt:71-73 | The long click goes to the active mode. Normal mode starts a selection. Selection mode toggles and notifies. |
| `CardListController.HabitCardListController.StartDrag` | android/uhabits-android/src/main/java/org/isoron/uhabits/activities/habits/list/views/HabitCardListController.kt:86-88 | The drag start goes to the active mode, with the same effects as a long click. |
| `CardListController.HabitCardListController.OnModelChange` | android/uhabits-android/src/main/java/org/isoron/uhabits/activities/habits/list/views/HabitCardListController.kt:75-80 | With an empty selection the controller goes Normal and appends one "finished". Otherwise mode and menu are unchanged. |
| `CardListController.HabitCardListController.OnSelectionFinished` | android/uhabits-android/src/main/java/org/isoron/uhabits/activities/habits/list/views/HabitCardListController.kt:82-84 | The selection is empty, the mode is Normal and exactly one "finished" is appended. |
| `CardListController.HabitCardListController.ModeOnItemLongClick` | android/uhabits-android/src/main/java/org/isoron/uhabits/activities/habits/list/views/HabitCardListController.kt:128-131 | A mode's long-click handler always reports the gesture as handled. It has the effects of `OnItemLongClick`. |
| `CardListController.HabitCardListController.StartSelection` | android/uhabits-android/src/main/java/org/isoron/uhabits/activities/habits/list/views/HabitCardListController.kt:137-141 | Toggle, then force Selection mode, then append one "started". |
| `CardListController.HabitCardListController.NotifyListener` | android/uhabits-android/src/main/java/org/isoron/uhabits/activities/habits/list/views/HabitCardListController.kt:165-170 | Append "changed" when the mode is Selection, otherwise "finished". Nothing else changes. |
| `CardListController.HabitCardListController.ToggleSelection` | android/uhabits-android/src/main/java/org/isoron/uhabits/activities/habits/list/views/HabitCardListController.kt:90-93 | The adapter's selection is toggled at the position. The mode becomes Selection exactly when the selection is non-empty. Cards and logs are unchanged. |
| `CardListController.HabitCardListController.CancelSelection` | android/uhabits-android/src/main/java/org/isoron/uhabits/activities/habits/list/views/HabitCardListController.kt:95-99 | The selection is cleared, the mode is Normal and one "finished" is appended. Cards and behaviour log are unchanged. |

## Left out

- Dependency injection (`@Inject`, `@ActivityScope`) and the lazy lookup of the selection menu are left out. The menu and the habit behaviour are modelled as logs of what they were told.
- The adapter's own code is not part of this model. It is modelled by what the controller needs from it: `GetItem`, `Toggle`, `Remove` and `Move`.
- The selection is a set of positions. A dismissal or a reorder does not re-index it, and a toggle flips even a position that holds no card.
- `CardListStore.Remove` leaves the list unchanged for a position outside it. The adapter's behaviour there is not visible.
- Outside changes to the adapter are modelled as a wholesale replacement of the cards and selection (`CardListMachine.Event`). Agreement of mode and selection is proved only for histories whose outside changes remove selected positions; `OutsideAdditionUnnoticed` shows what an outside addition does.
- A change notification fired from inside an adapter mutation is not modelled. `onModelChange` is a separate top-level event.
- The listener registration in the constructor is left out, and so is the unused `HabitListener` interface.
- `OnItemLongClick` discards the mode's `Boolean` result, as the source does. `ModeOnItemLongClick` only states that the result is always true.
- Android views, touch handling and the `direction` of a swipe are left out. Nothing reads the direction; `SwipeReportsLookupAfterDismiss` shows it has no effect.
- The menu and behaviour logs are separate, so the model does not record the relative order of a drop's "finished" event and its reorder report.
- `OnSwiped` reports the looked-up value as an optional habit. The model does not capture a failure if a null value reached the behaviour layer.
