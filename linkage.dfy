/**
 * The linkage manager: the ids hovered and selected across linked views,
 * the attribute pair picked in a correlation matrix, and the observers
 * told about each change. Notifications are recorded in an event log.
 */
module Linkage {
  import opened Wrappers
  import opened JsValues

  /** An observer, by identity; `handlesAttributePair` says whether it defines `onAttributePairSelected`. */
  datatype Observer = Observer(id: nat, handlesAttributePair: bool)

  datatype AttributePair = AttributePair(x: string, y: string)

  datatype Event =
    | HoverChanged(hoverRecipients: set<Observer>, hovered: set<Value>)
    | SelectionChanged(selectionRecipients: set<Observer>, selected: set<Value>)
    | PairSelected(pairRecipients: set<Observer>, pair: AttributePair)

  /**
   * `toggleSelectedIds` on sets: when every given id is selected they are
   * all deselected, otherwise they are all selected; other ids keep their state.
   */
  function ToggleSelection(selected: set<Value>, ids: set<Value>): (r: set<Value>)
    ensures forall v :: v !in ids ==> (v in r <==> v in selected)
    ensures ids <= selected ==> ids !! r
    ensures !(ids <= selected) ==> ids <= r
  {
    if ids <= selected then selected - ids else selected + ids
  }

  /** Toggling the empty set changes nothing, since every id of it is selected. */
  lemma ToggleNothing(selected: set<Value>)
    ensures ToggleSelection(selected, {}) == selected
  {
  }

  /**
   * Toggling the same ids twice restores the selection exactly when they
   * were all selected or all unselected; a partly selected set ends up selected.
   */
  lemma ToggleTwice(selected: set<Value>, ids: set<Value>)
    ensures ToggleSelection(ToggleSelection(selected, ids), ids) == selected
      <==> ids <= selected || ids !! selected
  {
    var once := ToggleSelection(selected, ids);
    var twice := ToggleSelection(once, ids);
    if ids <= selected {
      assert twice == selected;
    } else if ids !! selected {
      assert twice == selected;
    } else {
      var inside :| inside in ids && inside in selected;
      var outside :| outside in ids && outside !in selected;
      assert ids <= once;
      assert inside in selected && inside !in twice;
    }
  }

  /** The observers that receive the attribute-pair notification. */
  function PairHandlers(observers: set<Observer>): (r: set<Observer>)
    ensures forall o :: o in r <==> o in observers && o.handlesAttributePair
  {
    set o | o in observers && o.handlesAttributePair
  }

  class LinkageManager {
    var hoveredIds: set<Value>
    var selectedIds: set<Value>
    var observers: set<Observer>
    var selectedAttributePair: Option<AttributePair>
    /** Every notification sent so far, oldest first. */
    var events: seq<Event>

    constructor()
      ensures hoveredIds == {} && selectedIds == {} && observers == {}
      ensures selectedAttributePair == None && events == []
    {
      hoveredIds := {};
      selectedIds := {};
      observers := {};
      selectedAttributePair := None;
      events := [];
    }

    method AddObserver(observer: Observer)
      modifies this
      ensures observers == old(observers) + {observer}
      ensures hoveredIds == old(hoveredIds) && selectedIds == old(selectedIds)
      ensures selectedAttributePair == old(selectedAttributePair) && events == old(events)
    {
      observers := observers + {observer};
    }

    method RemoveObserver(observer: Observer)
      modifies this
      ensures observers == old(observers) - {observer}
      ensures observer !in observers
      ensures hoveredIds == old(hoveredIds) && selectedIds == old(selectedIds)
      ensures selectedAttributePair == old(selectedAttributePair) && events == old(events)
    {
      observers := observers - {observer};
    }

    /** Stores a copy of `ids` and tells every observer through its hover channel only. */
    method SetHoveredIds(ids: set<Value>)
      modifies this
      ensures hoveredIds == ids
      ensures selectedIds == old(selectedIds) && observers == old(observers)
      ensures selectedAttributePair == old(selectedAttributePair)
      ensures events == old(events) + [HoverChanged(observers, ids)]
    {
      hoveredIds := ids;
      events := events + [HoverChanged(observers, hoveredIds)];
    }

    /** Stores a copy of `ids` and tells every observer through its selection channel only. */
    method SetSelectedIds(ids: set<Value>)
      modifies this
      ensures selectedIds == ids
      ensures hoveredIds == old(hoveredIds) && observers == old(observers)
      ensures selectedAttributePair == old(selectedAttributePair)
      ensures events == old(events) + [SelectionChanged(observers, ids)]
    {
      selectedIds := ids;
      events := events + [SelectionChanged(observers, selectedIds)];
    }

    /** `toggleSelectedIds`: decides with `every`, then deletes or adds the ids one at a time. */
    method ToggleSelectedIds(ids: set<Value>)
      modifies this
      ensures selectedIds == ToggleSelection(old(selectedIds), ids)
      ensures hoveredIds == old(hoveredIds) && observers == old(observers)
      ensures selectedAttributePair == old(selectedAttributePair)
      ensures events == old(events) + [SelectionChanged(observers, selectedIds)]
    {
      var allSelected := ids <= selectedIds;
      ghost var before := selectedIds;
      var pending := ids;
      while pending != {}
        invariant pending <= ids
        invariant allSelected ==> selectedIds == before - (ids - pending)
        invariant !allSelected ==> selectedIds == before + (ids - pending)
        invariant hoveredIds == old(hoveredIds) && observers == old(observers)
        invariant selectedAttributePair == old(selectedAttributePair) && events == old(events)
        decreases |pending|
      {
        var id :| id in pending;
        if allSelected {
          selectedIds := selectedIds - {id};
        } else {
          selectedIds := selectedIds + {id};
        }
        pending := pending - {id};
      }
      assert ids - pending == ids;
      events := events + [SelectionChanged(observers, selectedIds)];
    }

    method ClearSelection()
      modifies this
      ensures selectedIds == {}
      ensures hoveredIds == old(hoveredIds) && observers == old(observers)
      ensures selectedAttributePair == old(selectedAttributePair)
      ensures events == old(events) + [SelectionChanged(observers, {})]
    {
      selectedIds := {};
      events := events + [SelectionChanged(observers, selectedIds)];
    }

    function GetHoveredIds(): (r: set<Value>)
      reads this
      ensures r == hoveredIds
    {
      hoveredIds
    }

    function GetSelectedIds(): (r: set<Value>)
      reads this
      ensures r == selectedIds
    {
      selectedIds
    }

    /** Stores the pair and tells only the observers that handle attribute pairs. */
    method SetSelectedAttributePair(attrX: string, attrY: string)
      modifies this
      ensures selectedAttributePair == Some(AttributePair(attrX, attrY))
      ensures hoveredIds == old(hoveredIds) && selectedIds == old(selectedIds) && observers == old(observers)
      ensures events == old(events) + [PairSelected(PairHandlers(observers), AttributePair(attrX, attrY))]
    {
      selectedAttributePair := Some(AttributePair(attrX, attrY));
      NotifyAttributePairSelection();
    }

    method NotifyAttributePairSelection()
      modifies this
      ensures hoveredIds == old(hoveredIds) && selectedIds == old(selectedIds) && observers == old(observers)
      ensures selectedAttributePair == old(selectedAttributePair)
      ensures selectedAttributePair.None? ==> events == old(events)
      ensures selectedAttributePair.Some? ==>
        events == old(events) + [PairSelected(PairHandlers(observers), selectedAttributePair.value)]
    {
      if selectedAttributePair.None? {
        return;
      }
      events := events + [PairSelected(PairHandlers(observers), selectedAttributePair.value)];
    }

    function GetSelectedAttributePair(): (r: Option<AttributePair>)
      reads this
      ensures r == selectedAttributePair
    {
      selectedAttributePair
    }

    /** Resets the pair without telling anyone. */
    method ClearAttributePairSelection()
      modifies this
      ensures selectedAttributePair == None
      ensures hoveredIds == old(hoveredIds) && selectedIds == old(selectedIds) && observers == old(observers)
      ensures events == old(events)
    {
      selectedAttributePair := None;
    }
  }
}
