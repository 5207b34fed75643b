/**
 * The list store the card-list controller works against (the adapter of the
 * habit list). Only the operations the controller calls are modelled, as
 * functions on values: lookup by position, selection toggle, removal of one
 * card (dismiss) and moving one card (reorder).
 */
module CardListStore {

  /** A habit shown on one card; the controller only passes its identity on. */
  datatype Habit = Habit(id: int)

  datatype Option<+T> = None | Some(value: T)

  /** True when `position` names a card that is currently in the list. */
  predicate Present(items: seq<Habit>, position: int) {
    0 <= position < |items|
  }

  /** getItem: the habit at `position`, or none for a stale position. */
  function GetItem(items: seq<Habit>, position: int): (r: Option<Habit>)
    ensures r.Some? <==> Present(items, position)
    ensures r.Some? ==> r.value == items[position]
  {
    if Present(items, position) then Some(items[position]) else None
  }

  /** toggleSelection: flips the membership of exactly one position. */
  function Toggle(selected: set<int>, position: int): (r: set<int>)
    ensures position in r <==> position !in selected
    ensures forall q :: q != position ==> (q in r <==> q in selected)
  {
    if position in selected then selected - {position} else selected + {position}
  }

  /**
   * dismiss: the card at `position` leaves the list and every later card
   * moves up by one; a stale position leaves the list as it is.
   */
  function Remove(items: seq<Habit>, position: int): (r: seq<Habit>)
    ensures Present(items, position) ==> |r| == |items| - 1
    ensures Present(items, position) ==> forall i :: 0 <= i < position ==> r[i] == items[i]
    ensures Present(items, position) ==> forall i :: position <= i < |r| ==> r[i] == items[i + 1]
    ensures !Present(items, position) ==> r == items
  {
    if Present(items, position) then items[..position] + items[position + 1..] else items
  }

  /**
   * performReorder: the card at `from` is taken out and put back so that it
   * ends up at `to`; all other cards keep their relative order.
   */
  function Move(items: seq<Habit>, from: int, to: int): (r: seq<Habit>)
    requires Present(items, from) && Present(items, to)
    ensures |r| == |items|
    ensures r[to] == items[from]
    ensures Remove(r, to) == Remove(items, from)
  {
    var rest := Remove(items, from);
    var r := rest[..to] + [items[from]] + rest[to..];
    assert r[..to] == rest[..to];
    assert r[to + 1..] == rest[to..];
    assert rest[..to] + rest[to..] == rest;
    r
  }

  /** Toggling the same position twice restores the selection. */
  lemma ToggleTwice(selected: set<int>, position: int)
    ensures Toggle(Toggle(selected, position), position) == selected
  {
  }

  /** Removing one card removes exactly one occurrence of its habit. */
  lemma {:induction false} RemoveTakesOneOccurrence(items: seq<Habit>, position: int)
    requires Present(items, position)
    ensures multiset(Remove(items, position)) + multiset{items[position]} == multiset(items)
  {
    assert items == items[..position] + [items[position]] + items[position + 1..];
  }

  /** A reorder is a permutation: no card is lost or duplicated. */
  lemma {:induction false} MovePermutes(items: seq<Habit>, from: int, to: int)
    requires Present(items, from) && Present(items, to)
    ensures multiset(Move(items, from, to)) == multiset(items)
  {
    var r := Move(items, from, to);
    RemoveTakesOneOccurrence(items, from);
    RemoveTakesOneOccurrence(r, to);
  }

  /** Moving a card back from `to` to `from` undoes the reorder. */
  lemma {:induction false} MoveUndo(items: seq<Habit>, from: int, to: int)
    requires Present(items, from) && Present(items, to)
    ensures Move(Move(items, from, to), to, from) == items
  {
    var r := Move(items, from, to);
    var rest := Remove(items, from);
    assert Remove(r, to) == rest;
    assert rest[..from] == items[..from];
    assert rest[from..] == items[from + 1..];
    assert items == items[..from] + [items[from]] + items[from + 1..];
  }
}
