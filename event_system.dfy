/** The event bus: an event owns an ordered table from callback ID to callback;
    a pipe event threads its argument(s) through the callbacks in subscription
    order, a broadcast event hands every callback the same arguments and collects
    the results by ID, and a nested event forwards subscriptions to its parents. */
module EventSystem {

  import opened Wrappers
  import opened Js
  import opened Dict

  /** A subscriber: applied to an argument list, it returns a value. */
  type Callback = seq<Value> -> Value

  datatype EventError =
    | DuplicateCallback(eventName: string, callbackID: string)
    | UnknownEventType(eventType: string)
    | NotIterable(value: Value)

  /** One call of a subscriber, with the arguments it was given. */
  datatype Invocation = Invocation(callbackID: string, input: seq<Value>)

  /** What triggering an event returns (or raises), and the calls it made on the way. */
  datatype Dispatch = Dispatch(result: Result<Value, EventError>, trace: seq<Invocation>)

  /** `callbackID || GraphEditor.GenerateID()`: the empty ID stands for an absent
      (or otherwise falsy) one, and `freshID` is what the ID generator returned. */
  function ChooseID(callbackID: string, freshID: string): (id: string)
    ensures id != "" || freshID == ""
    ensures callbackID != "" ==> id == callbackID
    ensures callbackID == "" ==> id == freshID
  {
    if callbackID != "" then callbackID else freshID
  }

  /** Pipe with one argument: `buf = cb(buf)` for each callback in table order. */
  function PipeOne(cbs: Dict<Callback>, x: Value): Value {
    if cbs == [] then x
    else cbs[|cbs| - 1].1([PipeOne(cbs[..|cbs| - 1], x)])
  }

  /** The calls a one-argument pipe makes. */
  function PipeOneTrace(cbs: Dict<Callback>, x: Value): seq<Invocation> {
    if cbs == [] then []
    else PipeOneTrace(cbs[..|cbs| - 1], x) + [Invocation(cbs[|cbs| - 1].0, [PipeOne(cbs[..|cbs| - 1], x)])]
  }

  /** Pipe with two or more arguments: `buf = cb(...buf)`, starting from the
      argument array; spreading a result that is not iterable raises. */
  function PipeSpread(cbs: Dict<Callback>, v: Value): Dispatch {
    if cbs == [] then Dispatch(Success(v), [])
    else
      var d := PipeSpread(cbs[..|cbs| - 1], v);
      if d.result.Failure? then d
      else match Spread(d.result.value)
        case None => Dispatch(Failure(NotIterable(d.result.value)), d.trace)
        case Some(xs) => Dispatch(Success(cbs[|cbs| - 1].1(xs)), d.trace + [Invocation(cbs[|cbs| - 1].0, xs)])
  }

  /** Every callback called once, in table order, on the same arguments. */
  function CallEach(cbs: Dict<Callback>, args: seq<Value>): seq<Invocation> {
    seq(|cbs|, i requires 0 <= i < |cbs| => Invocation(cbs[i].0, args))
  }

  /** `Object.fromEntries(Object.entries(callbacks).map(([id, cb]) => [id, cb(...args)]))`. */
  function BroadcastEntries(cbs: Dict<Callback>, args: seq<Value>): Dict<Value> {
    seq(|cbs|, i requires 0 <= i < |cbs| => (cbs[i].0, cbs[i].1(args)))
  }

  /** What `Trigger(...args)` does on an event of the given type. */
  function TriggerSpec(eventType: string, cbs: Dict<Callback>, args: seq<Value>): Dispatch {
    if eventType == "pipe" then
      if |args| == 0 then Dispatch(Success(Undefined), CallEach(cbs, []))
      else if |args| == 1 then Dispatch(Success(PipeOne(cbs, args[0])), PipeOneTrace(cbs, args[0]))
      else PipeSpread(cbs, Arr(args))
    else if eventType == "broadcast" then
      Dispatch(Success(Obj(BroadcastEntries(cbs, args))), CallEach(cbs, args))
    else Dispatch(Failure(UnknownEventType(eventType)), [])
  }

  /** Piping through two tables one after the other is piping through their concatenation. */
  lemma {:induction false} PipeCompose(a: Dict<Callback>, b: Dict<Callback>, x: Value)
    ensures PipeOne(a + b, x) == PipeOne(b, PipeOne(a, x))
  {
    if b == [] {
      assert a + b == a;
    } else {
      var b' := b[..|b| - 1];
      assert (a + b)[..|a + b| - 1] == a + b';
      PipeCompose(a, b', x);
    }
  }

  /** The first subscriber sees the argument itself, the rest see its result:
      `Trigger(x) == fn(... f2(f1(x)))`. */
  lemma PipeFirstThenRest(cbs: Dict<Callback>, x: Value)
    requires cbs != []
    ensures PipeOne(cbs, x) == PipeOne(cbs[1..], cbs[0].1([x]))
  {
    assert cbs == [cbs[0]] + cbs[1..];
    PipeCompose([cbs[0]], cbs[1..], x);
  }

  /** A one-argument pipe calls each subscriber exactly once, in subscription
      order, on the result of the subscribers before it. */
  lemma {:induction false} PipeOneCallsInOrder(cbs: Dict<Callback>, x: Value)
    ensures |PipeOneTrace(cbs, x)| == |cbs|
    ensures forall i :: 0 <= i < |cbs| ==>
      PipeOneTrace(cbs, x)[i] == Invocation(cbs[i].0, [PipeOne(cbs[..i], x)])
  {
    if cbs != [] {
      var c := cbs[..|cbs| - 1];
      PipeOneCallsInOrder(c, x);
      forall i | 0 <= i < |c| ensures cbs[..i] == c[..i] { }
    }
  }

  /** Once spreading has failed, later subscribers are never reached. */
  lemma {:induction false} PipeSpreadStopsAtFailure(cbs: Dict<Callback>, v: Value, k: nat)
    requires k <= |cbs| && PipeSpread(cbs[..k], v).result.Failure?
    ensures PipeSpread(cbs, v) == PipeSpread(cbs[..k], v)
  {
    if k < |cbs| {
      var c := cbs[..|cbs| - 1];
      assert c[..k] == cbs[..k];
      PipeSpreadStopsAtFailure(c, v, k);
    } else {
      assert cbs[..k] == cbs;
    }
  }

  /** A pipe with several arguments passes them, spread, to the first subscriber,
      and spreads each result into the next one. */
  lemma {:induction false} PipeSpreadCallsInOrder(cbs: Dict<Callback>, v: Value)
    requires PipeSpread(cbs, v).result.Success?
    ensures |PipeSpread(cbs, v).trace| == |cbs|
    ensures forall i :: 0 <= i < |cbs| ==>
      && PipeSpread(cbs[..i], v).result.Success?
      && Spread(PipeSpread(cbs[..i], v).result.value).Some?
      && PipeSpread(cbs, v).trace[i] == Invocation(cbs[i].0, Spread(PipeSpread(cbs[..i], v).result.value).value)
  {
    if cbs != [] {
      var n := |cbs| - 1;
      var c := cbs[..n];
      var d := PipeSpread(c, v);
      assert d.result.Success?;
      PipeSpreadCallsInOrder(c, v);
      var xs := Spread(d.result.value);
      assert xs.Some?;
      var t := PipeSpread(cbs, v).trace;
      assert t == d.trace + [Invocation(cbs[n].0, xs.value)];
      forall i | 0 <= i < |cbs|
        ensures PipeSpread(cbs[..i], v).result.Success?
        ensures Spread(PipeSpread(cbs[..i], v).result.value).Some?
        ensures t[i] == Invocation(cbs[i].0, Spread(PipeSpread(cbs[..i], v).result.value).value)
      {
        if i < n {
          assert cbs[..i] == c[..i];
          assert t[i] == d.trace[i];
        } else {
          assert cbs[..i] == c;
        }
      }
    }
  }

  /** A broadcast result has exactly the subscribed IDs as keys, in table order,
      and each maps to its own callback applied to the original arguments. */
  lemma BroadcastIsIndependent(cbs: Dict<Callback>, args: seq<Value>)
    requires UniqueKeys(cbs)
    ensures Keys(BroadcastEntries(cbs, args)) == Keys(cbs)
    ensures UniqueKeys(BroadcastEntries(cbs, args))
    ensures forall i :: 0 <= i < |cbs| ==> Get(BroadcastEntries(cbs, args), cbs[i].0) == Some(cbs[i].1(args))
  {
    var r := BroadcastEntries(cbs, args);
    assert Keys(r) == Keys(cbs);
    forall i | 0 <= i < |cbs| ensures Get(r, cbs[i].0) == Some(cbs[i].1(args)) {
      GetAt(r, i);
    }
  }

  /** Only pipe and broadcast events can be triggered; any other type raises
      without calling anything. */
  lemma TriggerOtherTypeRaises(eventType: string, cbs: Dict<Callback>, args: seq<Value>)
    requires eventType != "pipe" && eventType != "broadcast"
    ensures TriggerSpec(eventType, cbs, args) == Dispatch(Failure(UnknownEventType(eventType)), [])
  {
  }

  /** An event made by `Event(eventName, eventDescription, eventType)`. */
  class Event {
    const eventName: string
    const eventDescription: string
    const eventType: string
    var callbacks: Dict<Callback>

    ghost predicate Valid()
      reads this
    {
      UniqueKeys(callbacks)
    }

    /** `Subscribe` would refuse this ID. */
    predicate Refuses(id: string, replaceExisting: bool)
      reads this
    {
      id in Keys(callbacks) && !replaceExisting
    }

    constructor (eventName: string, eventDescription: string, eventType: string)
      ensures Valid()
      ensures this.eventName == eventName && this.eventDescription == eventDescription
      ensures this.eventType == eventType && callbacks == []
    {
      this.eventName := eventName;
      this.eventDescription := eventDescription;
      this.eventType := eventType;
      callbacks := [];
    }

    /** Registers `callback` under its ID; an ID already present is an error
        unless `replaceExisting`, in which case the new callback takes the old
        one's place in the table. */
    method Subscribe(callback: Callback, replaceExisting: bool, callbackID: string, freshID: string)
      returns (r: Result<seq<string>, EventError>)
      requires Valid()
      modifies this`callbacks
      ensures Valid()
      ensures var id := ChooseID(callbackID, freshID);
        if old(Refuses(id, replaceExisting))
        then r == Failure(DuplicateCallback(eventName, id)) && callbacks == old(callbacks)
        else r == Success([id]) && callbacks == Put(old(callbacks), id, callback)
    {
      var id := ChooseID(callbackID, freshID);
      if id in Keys(callbacks) && !replaceExisting {
        return Failure(DuplicateCallback(eventName, id));
      }
      callbacks := Put(callbacks, id, callback);
      return Success([id]);
    }

    /** Removes the callback with this ID; answers null (None) when there is none. */
    method Unsubscribe(callbackID: string) returns (r: Option<seq<string>>)
      requires Valid()
      modifies this`callbacks
      ensures Valid()
      ensures if callbackID in Keys(old(callbacks))
        then r == Some([callbackID]) && callbacks == Delete(old(callbacks), callbackID)
        else r == None && callbacks == old(callbacks)
    {
      if callbackID in Keys(callbacks) {
        callbacks := Delete(callbacks, callbackID);
        return Some([callbackID]);
      }
      return None;
    }

    /** `Trigger(...args)`. */
    method Trigger(args: seq<Value>) returns (r: Result<Value, EventError>, trace: seq<Invocation>)
      ensures Dispatch(r, trace) == TriggerSpec(eventType, callbacks, args)
    {
      if eventType == "pipe" {
        var cbs := callbacks;
        trace := [];
        if |args| == 0 {
          for i := 0 to |cbs|
            invariant trace == CallEach(cbs[..i], [])
          {
            trace := trace + [Invocation(cbs[i].0, [])];
          }
          assert cbs[..|cbs|] == cbs;
          return Success(Undefined), trace;
        }
        if |args| == 1 {
          var buf := args[0];
          for i := 0 to |cbs|
            invariant buf == PipeOne(cbs[..i], args[0])
            invariant trace == PipeOneTrace(cbs[..i], args[0])
          {
            assert cbs[..i + 1][..i] == cbs[..i];
            trace := trace + [Invocation(cbs[i].0, [buf])];
            buf := cbs[i].1([buf]);
          }
          assert cbs[..|cbs|] == cbs;
          return Success(buf), trace;
        }
        var buf := Arr(args);
        for i := 0 to |cbs|
          invariant PipeSpread(cbs[..i], Arr(args)) == Dispatch(Success(buf), trace)
        {
          assert cbs[..i + 1][..i] == cbs[..i];
          match Spread(buf)
          case None =>
            PipeSpreadStopsAtFailure(cbs, Arr(args), i + 1);
            return Failure(NotIterable(buf)), trace;
          case Some(xs) =>
            trace := trace + [Invocation(cbs[i].0, xs)];
            buf := cbs[i].1(xs);
        }
        assert cbs[..|cbs|] == cbs;
        return Success(buf), trace;
      } else if eventType == "broadcast" {
        return Success(Obj(BroadcastEntries(callbacks, args))), CallEach(callbacks, args);
      } else {
        return Failure(UnknownEventType(eventType)), [];
      }
    }
  }

  /** `GetArrayUniques`: the first occurrence of every string, in order. */
  function Uniques(xs: seq<string>): (r: seq<string>)
    ensures forall x :: x in r <==> x in xs
    ensures forall i, j :: 0 <= i < j < |r| ==> r[i] != r[j]
  {
    if xs == [] then []
    else
      var r := Uniques(xs[..|xs| - 1]);
      assert xs == xs[..|xs| - 1] + [xs[|xs| - 1]];
      if xs[|xs| - 1] in r then r else r + [xs[|xs| - 1]]
  }

  /** `xs.indexOf(x)`: the position of the first occurrence. */
  function FirstIndex(xs: seq<string>, x: string): (i: nat)
    requires x in xs
    ensures i < |xs| && xs[i] == x && x !in xs[..i]
  {
    if xs[0] == x then 0
    else
      var j := FirstIndex(xs[1..], x);
      assert xs[..j + 1] == [xs[0]] + xs[1..][..j];
      j + 1
  }

  /** The first occurrence is the only position with no earlier occurrence. */
  lemma FirstIndexIs(xs: seq<string>, x: string, i: nat)
    requires i < |xs| && xs[i] == x && x !in xs[..i]
    ensures FirstIndex(xs, x) == i
  {
    var j := FirstIndex(xs, x);
    assert forall k :: 0 <= k < i ==> xs[..i][k] == xs[k];
    assert forall k :: 0 <= k < j ==> xs[..j][k] == xs[k];
  }

  /** Appending keeps the first occurrence of what was already there. */
  lemma FirstIndexSnoc(xs: seq<string>, y: string, x: string)
    requires x in xs
    ensures FirstIndex(xs + [y], x) == FirstIndex(xs, x)
  {
    var i := FirstIndex(xs, x);
    assert (xs + [y])[..i] == xs[..i];
    FirstIndexIs(xs + [y], x, i);
  }

  /** `GetArrayUniques` keeps first occurrences in their order: of two unique
      strings, the one listed first occurs first in the input. */
  lemma {:induction false} UniquesKeepsFirstOrder(xs: seq<string>)
    ensures forall i, j :: 0 <= i < j < |Uniques(xs)| ==>
      FirstIndex(xs, Uniques(xs)[i]) < FirstIndex(xs, Uniques(xs)[j])
  {
    if xs != [] {
      var init := xs[..|xs| - 1];
      var last := xs[|xs| - 1];
      assert xs == init + [last];
      UniquesKeepsFirstOrder(init);
      var r := Uniques(init);
      forall x | x in r
        ensures FirstIndex(xs, x) == FirstIndex(init, x)
      {
        FirstIndexSnoc(init, last, x);
      }
      if last !in r {
        assert last !in init;
        FirstIndexIs(xs, last, |xs| - 1);
      }
    }
  }

  /** `xs.join(sep)`. */
  function Join(xs: seq<string>, sep: string): string {
    if xs == [] then ""
    else if |xs| == 1 then xs[0]
    else xs[0] + sep + Join(xs[1..], sep)
  }

  function Descriptions(events: seq<Event>): seq<string>
    reads set e | e in events
  {
    seq(|events|, i requires 0 <= i < |events| reads events => events[i].eventDescription)
  }

  /** An event made by `CreateNestedEvent(eventName, eventDescription, ...parentEvents)`:
      no table of its own, its type is `'nested'`, and subscribing or
      unsubscribing is done on every parent in turn. */
  class NestedEvent {
    const eventName: string
    const eventDescription: string
    const parentEvents: seq<Event>

    ghost predicate Valid()
      reads this, set e | e in parentEvents
    {
      && (forall i, j :: 0 <= i < j < |parentEvents| ==> parentEvents[i] != parentEvents[j])
      && (forall e :: e in parentEvents ==> e.Valid())
    }

    constructor (eventName: string, eventDescription: string, parentEvents: seq<Event>)
      ensures this.eventName == eventName && this.parentEvents == parentEvents
      ensures this.eventDescription ==
        if eventDescription != "" then eventDescription else Join(Uniques(Descriptions(parentEvents)), "; ")
    {
      this.eventName := eventName;
      this.parentEvents := parentEvents;
      this.eventDescription :=
        if eventDescription != "" then eventDescription else Join(Uniques(Descriptions(parentEvents)), "; ");
    }

    /** `Trigger` is the one of `Event`, on an event whose type is `'nested'`. */
    function Trigger(args: seq<Value>): (d: Dispatch)
      ensures d.result == Failure(UnknownEventType("nested")) && d.trace == []
    {
      TriggerSpec("nested", [], args)
    }

    /** Subscribes on each parent in order, with one generated ID per parent for
        the case where no ID is given; the first parent that refuses stops the
        fan-out, after the parents before it have been changed. */
    method Subscribe(callback: Callback, replaceExisting: bool, callbackID: string, freshIDs: seq<string>)
      returns (r: Result<seq<seq<string>>, EventError>)
      requires Valid() && |freshIDs| == |parentEvents|
      modifies set e | e in parentEvents
      ensures Valid()
      ensures r.Success? <==>
        forall i :: 0 <= i < |parentEvents| ==>
          !old(parentEvents[i].Refuses(ChooseID(callbackID, freshIDs[i]), replaceExisting))
      ensures r.Success? ==> |r.value| == |parentEvents|
      ensures r.Success? ==>
        forall i :: 0 <= i < |parentEvents| ==>
          && r.value[i] == [ChooseID(callbackID, freshIDs[i])]
          && parentEvents[i].callbacks == Put(old(parentEvents[i].callbacks), ChooseID(callbackID, freshIDs[i]), callback)
      ensures r.Failure? ==> exists k ::
        && 0 <= k < |parentEvents|
        && old(parentEvents[k].Refuses(ChooseID(callbackID, freshIDs[k]), replaceExisting))
        && r.error == DuplicateCallback(parentEvents[k].eventName, ChooseID(callbackID, freshIDs[k]))
        && (forall i :: 0 <= i < k ==> !old(parentEvents[i].Refuses(ChooseID(callbackID, freshIDs[i]), replaceExisting)))
        && (forall i :: 0 <= i < k ==>
              parentEvents[i].callbacks == Put(old(parentEvents[i].callbacks), ChooseID(callbackID, freshIDs[i]), callback))
        && (forall i :: k <= i < |parentEvents| ==> parentEvents[i].callbacks == old(parentEvents[i].callbacks))
    {
      var results: seq<seq<string>> := [];
      var i := 0;
      r := Success([]);
      while i < |parentEvents| && r.Success?
        invariant 0 <= i <= |parentEvents|
        invariant Valid()
        invariant |results| == i
        invariant forall j :: 0 <= j < i ==>
          && !old(parentEvents[j].Refuses(ChooseID(callbackID, freshIDs[j]), replaceExisting))
          && results[j] == [ChooseID(callbackID, freshIDs[j])]
          && parentEvents[j].callbacks == Put(old(parentEvents[j].callbacks), ChooseID(callbackID, freshIDs[j]), callback)
        invariant forall j :: i <= j < |parentEvents| ==> parentEvents[j].callbacks == old(parentEvents[j].callbacks)
        invariant r.Failure? ==> (
          && i < |parentEvents|
          && old(parentEvents[i].Refuses(ChooseID(callbackID, freshIDs[i]), replaceExisting))
          && r.error == DuplicateCallback(parentEvents[i].eventName, ChooseID(callbackID, freshIDs[i])))
        decreases |parentEvents| - i, if r.Success? then 1 else 0
      {
        var p := parentEvents[i];
        assert forall j :: 0 <= j < |parentEvents| && j != i ==> parentEvents[j] != p;
        var res := p.Subscribe(callback, replaceExisting, callbackID, freshIDs[i]);
        if res.Failure? {
          r := Failure(res.error);
        } else {
          results := results + [res.value];
          i := i + 1;
        }
      }
      if r.Success? {
        r := Success(results);
      }
    }

    /** Unsubscribes on each parent in order and lists what each answered. */
    method Unsubscribe(callbackID: string) returns (r: seq<Option<seq<string>>>)
      requires Valid()
      modifies set e | e in parentEvents
      ensures Valid()
      ensures |r| == |parentEvents|
      ensures forall i :: 0 <= i < |parentEvents| ==>
        if callbackID in Keys(old(parentEvents[i].callbacks))
        then r[i] == Some([callbackID]) && parentEvents[i].callbacks == Delete(old(parentEvents[i].callbacks), callbackID)
        else r[i] == None && parentEvents[i].callbacks == old(parentEvents[i].callbacks)
    {
      r := [];
      for i := 0 to |parentEvents|
        invariant Valid()
        invariant |r| == i
        invariant forall j :: 0 <= j < i ==>
          if callbackID in Keys(old(parentEvents[j].callbacks))
          then r[j] == Some([callbackID]) && parentEvents[j].callbacks == Delete(old(parentEvents[j].callbacks), callbackID)
          else r[j] == None && parentEvents[j].callbacks == old(parentEvents[j].callbacks)
        invariant forall j :: i <= j < |parentEvents| ==> parentEvents[j].callbacks == old(parentEvents[j].callbacks)
      {
        var res := parentEvents[i].Unsubscribe(callbackID);
        r := r + [res];
      }
    }
  }
}
