/**
 * UI interactivity (ui/interactivity.rs): once per frame the `Interaction` component of
 * every interactive UI node is brought up to date with the mouse. A node that is hovered
 * becomes `Hover` or `Press`, a node still held after the cursor left it stays `Press`,
 * and every other node falls back to `None`. Whether the cursor lies inside a node's
 * padding box is an input of the model (see README).
 */
module Interactivity {
  import Wrappers
  import opened Ids

  /** `Interaction`: the mouse state of a node. */
  datatype Interaction = Hover | Press | None

  /** What the transition table gives: a state to set, or `continue` (leave it to the reset). */
  datatype Outcome = Set(state: Interaction) | Skip

  /** The mouse button state of the frame: `pressed(Left)` and `just_pressed(Left)`. */
  datatype Mouse = Mouse(isPressed: bool, justPressed: bool)

  /**
   * One interactive node as the system sees it: its entity, whether its display is
   * `Display::None`, whether the cursor lies in its padding box, and its interaction.
   */
  datatype UiNode = UiNode(id: EntityId, hidden: bool, hovering: bool, interaction: Interaction)

  /** One entry of the new list: the entity and the state it moves to. */
  datatype Change = Change(id: EntityId, state: Interaction)

  /** The new and keep lists `get_interactions` returns. */
  datatype Found = Found(changes: seq<Change>, keep: seq<EntityId>)

  // ---- the transition table ----

  /**
   * The `match` of `get_interactions`, arm by arm. A hovered node is pressed when the button
   * went down this frame or when it was pressed and is still held, and hovered otherwise;
   * a node that is not hovered stays pressed only while the button is held (and did not
   * just go down), and is skipped otherwise.
   */
  function Transition(current: Interaction, hovering: bool, m: Mouse): (r: Outcome)
    ensures r.Skip? <==> !hovering && !(current == Press && m.isPressed && !m.justPressed)
    ensures r == Set(Press) <==>
      (hovering && (m.justPressed || (current == Press && m.isPressed)))
      || (!hovering && current == Press && m.isPressed && !m.justPressed)
    ensures r == Set(Hover) <==> hovering && !m.justPressed && !(current == Press && m.isPressed)
    ensures r != Set(None)
  {
    if hovering && m.justPressed then Set(Press)
    else if current == Press && hovering && m.isPressed then Set(Press)
    else if hovering && !m.isPressed && !m.justPressed then Set(Hover)
    else if hovering then Set(Hover)
    else if current == Press && m.isPressed && !m.justPressed then Set(Press)
    else Skip
  }

  /** What the loop body of `get_interactions` decides for one node: hidden nodes are skipped. */
  function NodeOutcome(n: UiNode, m: Mouse): (r: Outcome)
    ensures n.hidden ==> r == Skip
    ensures !n.hidden ==> r == Transition(n.interaction, n.hovering, m)
  {
    if n.hidden then Skip else Transition(n.interaction, n.hovering, m)
  }

  /** The node's computed state differs from its current one: it goes to the new list. */
  predicate IsNew(n: UiNode, m: Mouse) {
    NodeOutcome(n, m).Set? && NodeOutcome(n, m).state != n.interaction
  }

  /** The node's computed state equals its current one: it goes to the keep list. */
  predicate IsKept(n: UiNode, m: Mouse) {
    NodeOutcome(n, m) == Set(n.interaction)
  }

  /** The new list for `nodes`, in node order. */
  function NewChanges(nodes: seq<UiNode>, m: Mouse): seq<Change> {
    if nodes == [] then []
    else
      var last := nodes[|nodes| - 1];
      NewChanges(nodes[..|nodes| - 1], m) + (if IsNew(last, m) then [Change(last.id, NodeOutcome(last, m).state)] else [])
  }

  /** The keep list for `nodes`, in node order. */
  function KeepIds(nodes: seq<UiNode>, m: Mouse): seq<EntityId> {
    if nodes == [] then []
    else
      var last := nodes[|nodes| - 1];
      KeepIds(nodes[..|nodes| - 1], m) + (if IsKept(last, m) then [last.id] else [])
  }

  /** A change is listed exactly when some node is new with that state. */
  lemma {:induction false} NewChangesListed(nodes: seq<UiNode>, m: Mouse, c: Change)
    ensures c in NewChanges(nodes, m) <==>
      exists i :: 0 <= i < |nodes| && nodes[i].id == c.id && IsNew(nodes[i], m) && NodeOutcome(nodes[i], m).state == c.state
  {
    if nodes != [] {
      var init := nodes[..|nodes| - 1];
      NewChangesListed(init, m, c);
      if exists i :: 0 <= i < |init| && init[i].id == c.id && IsNew(init[i], m) && NodeOutcome(init[i], m).state == c.state {
        var i :| 0 <= i < |init| && init[i].id == c.id && IsNew(init[i], m) && NodeOutcome(init[i], m).state == c.state;
        assert nodes[i] == init[i];
      }
    }
  }

  /** An id is kept exactly when some node with that id keeps its state. */
  lemma {:induction false} KeepIdsListed(nodes: seq<UiNode>, m: Mouse, id: EntityId)
    ensures id in KeepIds(nodes, m) <==> exists i :: 0 <= i < |nodes| && nodes[i].id == id && IsKept(nodes[i], m)
  {
    if nodes != [] {
      var init := nodes[..|nodes| - 1];
      KeepIdsListed(init, m, id);
      if exists i :: 0 <= i < |init| && init[i].id == id && IsKept(init[i], m) {
        var i :| 0 <= i < |init| && init[i].id == id && IsKept(init[i], m);
        assert nodes[i] == init[i];
      }
    }
  }

  /**
   * `get_interactions`: nothing when there were neither mouse-button nor cursor-moved
   * events; two empty lists when the cursor is outside the window; otherwise, for each
   * visible node the table gives a state for, the node goes to the new list with that state
   * when it differs from the current one and to the keep list when it does not.
   */
  method GetInteractions(nodes: seq<UiNode>, anyEvents: bool, cursorInWindow: bool, m: Mouse)
    returns (r: Wrappers.Option<Found>)
    ensures r.None? <==> !anyEvents
    ensures r.Some? && !cursorInWindow ==> r.value == Found([], [])
    ensures r.Some? && cursorInWindow ==> r.value == Found(NewChanges(nodes, m), KeepIds(nodes, m))
  {
    if !anyEvents {
      return Wrappers.None;
    }
    if !cursorInWindow {
      return Wrappers.Some(Found([], []));
    }
    var changes: seq<Change> := [];
    var keep: seq<EntityId> := [];
    for i := 0 to |nodes|
      invariant changes == NewChanges(nodes[..i], m) && keep == KeepIds(nodes[..i], m)
    {
      assert nodes[..i + 1][..i] == nodes[..i];
      var n := nodes[i];
      if n.hidden {
        continue;
      }
      var state := Transition(n.interaction, n.hovering, m);
      if state.Skip? {
        continue;
      }
      if state.state != n.interaction {
        changes := changes + [Change(n.id, state.state)];
      } else {
        keep := keep + [n.id];
      }
    }
    assert nodes[..|nodes|] == nodes;
    return Wrappers.Some(Found(changes, keep));
  }

  // ---- the update ----

  /** The map collected first: every node whose interaction is not `None`, to be reset to `None`. */
  function Resets(nodes: seq<UiNode>): map<EntityId, Interaction> {
    if nodes == [] then map[]
    else
      var last := nodes[|nodes| - 1];
      var r := Resets(nodes[..|nodes| - 1]);
      if last.interaction != None then r[last.id := None] else r
  }

  /** The reset map holds exactly the ids of the nodes that are not `None`, each mapped to `None`. */
  lemma {:induction false} ResetsKeys(nodes: seq<UiNode>, id: EntityId)
    ensures id in Resets(nodes) <==> exists i :: 0 <= i < |nodes| && nodes[i].id == id && nodes[i].interaction != None
    ensures id in Resets(nodes) ==> Resets(nodes)[id] == None
  {
    if nodes != [] {
      var init := nodes[..|nodes| - 1];
      ResetsKeys(init, id);
      if exists i :: 0 <= i < |init| && init[i].id == id && init[i].interaction != None {
        var i :| 0 <= i < |init| && init[i].id == id && init[i].interaction != None;
        assert nodes[i] == init[i];
      }
    }
  }

  /** `HashMap::extend`: the changes inserted in order, a later one overwriting an earlier one. */
  function Extend(base: map<EntityId, Interaction>, changes: seq<Change>): map<EntityId, Interaction> {
    if changes == [] then base
    else
      var last := changes[|changes| - 1];
      Extend(base, changes[..|changes| - 1])[last.id := last.state]
  }

  /** `HashMap::retain(|id, _| !keep.contains(id))`. */
  function Retain(interactions: map<EntityId, Interaction>, keep: seq<EntityId>): (r: map<EntityId, Interaction>)
    ensures forall id :: id in r <==> id in interactions && id !in keep
    ensures forall id :: id in r ==> r[id] == interactions[id]
  {
    map id | id in interactions && id !in keep :: interactions[id]
  }

  /** The writes `ui_interaction_update` performs when it gets as far as writing. */
  function Updates(nodes: seq<UiNode>, cursorInWindow: bool, m: Mouse): map<EntityId, Interaction> {
    if cursorInWindow then Retain(Extend(Resets(nodes), NewChanges(nodes, m)), KeepIds(nodes, m))
    else Resets(nodes)
  }

  /** The interaction a node has after the writes. */
  function Applied(n: UiNode, updates: map<EntityId, Interaction>): (r: UiNode)
    ensures r.id == n.id && r.hidden == n.hidden && r.hovering == n.hovering
    ensures n.id in updates ==> r.interaction == updates[n.id]
    ensures n.id !in updates ==> r == n
  {
    if n.id in updates then n.(interaction := updates[n.id]) else n
  }

  /**
   * `ui_interaction_update`: with no nodes, or with no mouse events, nothing changes.
   * Otherwise the reset map, extended by the new list and stripped of the keep list, is
   * written: `updates` is that map and `nodes'` the nodes with it applied.
   */
  method UiInteractionUpdate(nodes: seq<UiNode>, anyEvents: bool, cursorInWindow: bool, m: Mouse)
    returns (updates: map<EntityId, Interaction>, nodes': seq<UiNode>)
    ensures nodes == [] || !anyEvents ==> updates == map[] && nodes' == nodes
    ensures nodes != [] && anyEvents ==> updates == Updates(nodes, cursorInWindow, m)
    ensures |nodes'| == |nodes| && forall i :: 0 <= i < |nodes| ==> nodes'[i] == Applied(nodes[i], updates)
  {
    updates := map[];
    if nodes == [] {
      return updates, nodes;
    }
    for i := 0 to |nodes|
      invariant updates == Resets(nodes[..i])
    {
      assert nodes[..i + 1][..i] == nodes[..i];
      if nodes[i].interaction != None {
        updates := updates[nodes[i].id := None];
      }
    }
    assert nodes[..|nodes|] == nodes;
    var found := GetInteractions(nodes, anyEvents, cursorInWindow, m);
    if found.None? {
      return map[], nodes;
    }
    var changes, keep := found.value.changes, found.value.keep;
    ghost var base := updates;
    for k := 0 to |changes|
      invariant updates == Extend(base, changes[..k])
    {
      assert changes[..k + 1][..k] == changes[..k];
      updates := updates[changes[k].id := changes[k].state];
    }
    assert changes[..|changes|] == changes;
    updates := Retain(updates, keep);
    assert !cursorInWindow ==> Extend(base, []) == base && Retain(base, []) == base;
    nodes' := [];
    for i := 0 to |nodes|
      invariant |nodes'| == i && forall j :: 0 <= j < i ==> nodes'[j] == Applied(nodes[j], updates)
    {
      nodes' := nodes' + [Applied(nodes[i], updates)];
    }
  }

  // ---- what the update guarantees ----

  /** An entity on the keep list is never written. */
  lemma KeptNotWritten(nodes: seq<UiNode>, m: Mouse, id: EntityId)
    requires id in KeepIds(nodes, m)
    ensures id !in Updates(nodes, true, m)
  {
  }

  /** An entry of an extended map comes from the base map or from one of the changes. */
  lemma {:induction false} ExtendValues(base: map<EntityId, Interaction>, changes: seq<Change>, id: EntityId)
    requires id in Extend(base, changes)
    ensures (id in base && Extend(base, changes)[id] == base[id]) || exists k :: 0 <= k < |changes| && changes[k] == Change(id, Extend(base, changes)[id])
  {
    if changes != [] {
      var init, last := changes[..|changes| - 1], changes[|changes| - 1];
      if id != last.id {
        ExtendValues(base, init, id);
        if exists k :: 0 <= k < |init| && init[k] == Change(id, Extend(base, init)[id]) {
          var k :| 0 <= k < |init| && init[k] == Change(id, Extend(base, init)[id]);
          assert changes[k] == init[k];
        }
      }
    }
  }

  /**
   * Every write with the cursor in the window is a reset to `None` or the state the table
   * gives a node of that entity whose state changes.
   */
  lemma WritesExplained(nodes: seq<UiNode>, m: Mouse, id: EntityId)
    requires id in Updates(nodes, true, m)
    ensures var v := Updates(nodes, true, m)[id];
      v == None || exists i :: 0 <= i < |nodes| && nodes[i].id == id && IsNew(nodes[i], m) && NodeOutcome(nodes[i], m).state == v
  {
    var changes := NewChanges(nodes, m);
    var v := Extend(Resets(nodes), changes)[id];
    ExtendValues(Resets(nodes), changes, id);
    ResetsKeys(nodes, id);
    if exists k :: 0 <= k < |changes| && changes[k] == Change(id, v) {
      var k :| 0 <= k < |changes| && changes[k] == Change(id, v);
      NewChangesListed(nodes, m, changes[k]);
    }
  }

  /** The writes leave an entity untouched when no node of it is in either list or needs a reset. */
  lemma {:induction false} ExtendMiss(base: map<EntityId, Interaction>, changes: seq<Change>, id: EntityId)
    requires forall k :: 0 <= k < |changes| ==> changes[k].id != id
    ensures id in Extend(base, changes) <==> id in base
    ensures id in base ==> Extend(base, changes)[id] == base[id]
  {
    if changes != [] {
      ExtendMiss(base, changes[..|changes| - 1], id);
    }
  }

  /**
   * With the cursor outside the window every interactive node ends up `None`: the ones that
   * were not are reset, and no other write happens.
   */
  lemma CursorOutsideResetsAll(nodes: seq<UiNode>, m: Mouse)
    ensures forall i :: 0 <= i < |nodes| ==> Applied(nodes[i], Updates(nodes, false, m)).interaction == None
  {
    forall i | 0 <= i < |nodes| ensures Applied(nodes[i], Updates(nodes, false, m)).interaction == None {
      ResetsKeys(nodes, nodes[i].id);
    }
  }

  /** No two nodes share an entity, as for the nodes of one query. */
  predicate DistinctIds(nodes: seq<UiNode>) {
    forall i, j :: 0 <= i < j < |nodes| ==> nodes[i].id != nodes[j].id
  }

  /** With distinct ids, extending by the new list writes node `i`'s new state exactly when it is new. */
  lemma {:induction false} ExtendNewChanges(base: map<EntityId, Interaction>, nodes: seq<UiNode>, m: Mouse, i: nat)
    requires DistinctIds(nodes) && i < |nodes|
    ensures var e, id := Extend(base, NewChanges(nodes, m)), nodes[i].id;
      if IsNew(nodes[i], m) then id in e && e[id] == NodeOutcome(nodes[i], m).state
      else (id in e <==> id in base) && (id in base ==> e[id] == base[id])
  {
    var init, last := nodes[..|nodes| - 1], nodes[|nodes| - 1];
    var prefix := NewChanges(init, m);
    var changes := NewChanges(nodes, m);
    if i == |nodes| - 1 {
      forall k | 0 <= k < |prefix| ensures prefix[k].id != last.id {
        NewChangesListed(init, m, prefix[k]);
        var j :| 0 <= j < |init| && init[j].id == prefix[k].id && IsNew(init[j], m) && NodeOutcome(init[j], m).state == prefix[k].state;
        assert nodes[j] == init[j];
      }
      ExtendMiss(base, prefix, last.id);
      if IsNew(last, m) {
        assert changes[..|changes| - 1] == prefix;
      } else {
        assert changes == prefix;
      }
    } else {
      assert init[i] == nodes[i];
      ExtendNewChanges(base, init, m, i);
      if IsNew(last, m) {
        assert changes[..|changes| - 1] == prefix;
        assert changes[|changes| - 1].id == last.id != nodes[i].id;
      } else {
        assert changes == prefix;
      }
    }
  }

  /**
   * The state every node has after an update with the cursor in the window, for nodes of
   * distinct entities: the state the table gives when the node is visible and the table
   * gives one, and `None` otherwise (hidden, or neither hovered nor still held).
   */
  lemma FinalInteraction(nodes: seq<UiNode>, m: Mouse, i: nat)
    requires DistinctIds(nodes) && i < |nodes|
    ensures Applied(nodes[i], Updates(nodes, true, m)).interaction
      == if NodeOutcome(nodes[i], m).Set? then NodeOutcome(nodes[i], m).state else None
  {
    var n := nodes[i];
    var base := Resets(nodes);
    ExtendNewChanges(base, nodes, m, i);
    KeepIdsListed(nodes, m, n.id);
    ResetsKeys(nodes, n.id);
    if IsKept(n, m) {
      assert n.id in KeepIds(nodes, m);
    } else {
      assert n.id !in KeepIds(nodes, m);
      if !IsNew(n, m) {
        assert NodeOutcome(n, m).Skip?;
        if n.interaction != None {
          assert n.id in base;
        }
      }
    }
  }
}
