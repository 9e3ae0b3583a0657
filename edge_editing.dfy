/** The state `BuildGraph` keeps between the network's callbacks while an edge
    is edited: `edgeEditingState` (0 idle, 1 an edge was just selected for
    editing, 2 the first canvas click after that has happened) and the element
    last selected for editing with its class. Calls into the network and the
    engine are recorded as actions instead of being performed. */
module EdgeEditing {

  import opened Js
  import opened Dict
  import opened EventSystem
  import opened GraphEditor

  /** What a handler asks of the network or the engine, in the order asked. */
  datatype ViewAction =
    | EdgeCallback(edge: Value)        // the `callback` the network passed to `editEdge`
    | DeferDisableEditMode             // `Incoming(() => graph.disableEditMode())`
    | DisableEditMode
    | UnselectAll
    | EditEdgeMode
    | StartEditingNode(node: Value)    // `onStartEditingNode.TriggerAll(node)`
    | StartEditingEdge(edge: Value)    // `onStartEditingEdge.TriggerAll(edge)`
    | SetNode(node: Value)
    | SetEdge(edge: Value)

  /** The state a canvas click leaves: 1 moves on to 2, 2 back to idle, any other
      state stays. */
  function AfterClick(s: int): (r: int)
    ensures r == 2 <==> s == 1
    ensures s == 2 ==> r == 0
    ensures s != 1 && s != 2 ==> r == s
    ensures 0 <= s <= 2 ==> 0 <= r <= 2
  {
    if s == 1 then 2
    else if s == 2 then 0
    else s
  }

  /** The state after `n` canvas clicks. */
  function AfterClicks(s: int, n: nat): int
    decreases n
  {
    if n == 0 then s else AfterClicks(AfterClick(s), n - 1)
  }

  /** Clicking an idle canvas never leaves the idle state. */
  lemma {:induction false} IdleStaysIdle(n: nat)
    ensures AfterClicks(0, n) == 0
  {
    if n > 0 {
      IdleStaysIdle(n - 1);
    }
  }

  /** From any state, two canvas clicks end edge editing, and it stays ended. */
  lemma ClicksEndEditing(s: int, n: nat)
    requires 0 <= s <= 2 && n >= 2
    ensures AfterClicks(s, n) == 0
  {
    assert AfterClick(AfterClick(s)) == 0;
    assert AfterClicks(s, n) == AfterClicks(AfterClick(s), n - 1);
    assert AfterClicks(AfterClick(s), n - 1) == AfterClicks(AfterClick(AfterClick(s)), n - 2);
    IdleStaysIdle(n - 2);
  }

  /** `visEdge[p]`, undefined where the edge has no such property. */
  function Field(visEdge: Dict<Value>, p: string): Value {
    match Get(visEdge, p)
    case Some(v) => v
    case None => Undefined
  }

  /** The closure state of one `BuildGraph` call. */
  class GraphView {
    var edgeEditingState: int
    var editedElement: Value
    var editedClass: Value

    ghost predicate Valid()
      reads this
    {
      0 <= edgeEditingState <= 2
    }

    constructor ()
      ensures Valid()
      ensures edgeEditingState == 0 && editedElement == Undefined && editedClass == Undefined
    {
      edgeEditingState := 0;
      editedElement := Undefined;
      editedClass := Undefined;
    }

    /** The network's `editEdge` callback. A loop edge is refused with
        `callback(null)` and changes nothing; any other edge ends edge editing,
        defers leaving edit mode and hands the network the edge as the
        `onSetEdge` pipe returns it. */
    method EditEdge(visEdge: Dict<Value>, onSetEdge: LegacyEvent) returns (actions: seq<ViewAction>)
      requires Valid()
      modifies this`edgeEditingState
      ensures Valid()
      ensures Field(visEdge, "from") == Field(visEdge, "to") ==>
        actions == [EdgeCallback(Null)] && edgeEditingState == old(edgeEditingState)
      ensures Field(visEdge, "from") != Field(visEdge, "to") ==>
        && edgeEditingState == 0
        && actions == [DeferDisableEditMode, EdgeCallback(PipeOne(onSetEdge.callbacks, Arr([Obj(visEdge)])))]
    {
      if Field(visEdge, "from") == Field(visEdge, "to") {
        return [EdgeCallback(Null)];
      }
      edgeEditingState := 0;
      var piped := onSetEdge.TriggerPipe([Obj(visEdge)]);
      return [DeferDisableEditMode, EdgeCallback(piped)];
    }

    /** The network's `select` event with the selected node and edge IDs; `getNode`
        and `getEdge` are the engine's lookups. Selecting a node starts editing
        it; selecting exactly one edge (and no node) enters edge-edit mode and
        state 1; selecting nothing else while an element is being edited stores
        that element and forgets it. */
    method Select(nodes: seq<Value>, edges: seq<Value>, getNode: Value -> Value, getEdge: Value -> Value)
      returns (actions: seq<ViewAction>)
      requires Valid()
      modifies this
      ensures Valid()
      ensures |nodes| > 0 ==>
        && editedElement == getNode(nodes[0]) && editedClass == Str("node")
        && edgeEditingState == old(edgeEditingState)
        && actions == [StartEditingNode(editedElement)]
      ensures |nodes| == 0 && |edges| == 1 ==>
        && editedElement == getEdge(edges[0]) && editedClass == Str("edge")
        && edgeEditingState == 1
        && actions == [EditEdgeMode, StartEditingEdge(editedElement)]
      ensures |nodes| == 0 && |edges| != 1 && Truthy(old(editedElement)) && Truthy(old(editedClass)) ==>
        && editedElement == Null && editedClass == Null
        && edgeEditingState == old(edgeEditingState)
        && actions == [if old(editedClass) == Str("node") then SetNode(old(editedElement)) else SetEdge(old(editedElement))]
      ensures |nodes| == 0 && |edges| != 1 && !(Truthy(old(editedElement)) && Truthy(old(editedClass))) ==>
        && editedElement == old(editedElement) && editedClass == old(editedClass)
        && edgeEditingState == old(edgeEditingState)
        && actions == []
    {
      if |nodes| > 0 {
        editedElement := getNode(nodes[0]);
        editedClass := Str("node");
        return [StartEditingNode(editedElement)];
      } else if |edges| == 1 {
        actions := [EditEdgeMode];
        editedElement := getEdge(edges[0]);
        editedClass := Str("edge");
        edgeEditingState := 1;
        return actions + [StartEditingEdge(editedElement)];
      } else if Truthy(editedElement) && Truthy(editedClass) {
        if editedClass == Str("node") {
          actions := [SetNode(editedElement)];
        } else {
          actions := [SetEdge(editedElement)];
        }
        editedClass := Null;
        editedElement := Null;
        return actions;
      }
      return [];
    }

    /** A click on the canvas: the first click after an edge was selected moves
        to state 2, the next one leaves edit mode, clears the selection and
        returns to idle; in the idle state a click does nothing. */
    method CanvasClick() returns (actions: seq<ViewAction>)
      requires Valid()
      modifies this`edgeEditingState
      ensures Valid()
      ensures edgeEditingState == AfterClick(old(edgeEditingState))
      ensures actions == if old(edgeEditingState) == 2 then [DisableEditMode, UnselectAll] else []
    {
      if edgeEditingState == 1 {
        edgeEditingState := 2;
        return [];
      } else if edgeEditingState == 2 {
        edgeEditingState := 0;
        return [DisableEditMode, UnselectAll];
      }
      return [];
    }
  }

  /** Selecting one edge and then clicking twice on the canvas leaves edit mode
      exactly once, on the second click, and ends idle. */
  method SelectEdgeThenClickTwice(view: GraphView, edge: Value, getNode: Value -> Value, getEdge: Value -> Value)
    returns (first: seq<ViewAction>, second: seq<ViewAction>)
    requires view.Valid()
    modifies view
    ensures view.Valid() && view.edgeEditingState == 0
    ensures first == [] && second == [DisableEditMode, UnselectAll]
  {
    var selected := view.Select([], [edge], getNode, getEdge);
    first := view.CanvasClick();
    second := view.CanvasClick();
  }
}
