/** The replacement for vis-network's `DataSet._updateItem`: an update replaces
    every property of the stored item except its canvas position (`x`, `y`) by
    the properties of the update, instead of merging the two. */
module VisPatch {

  import opened Wrappers
  import opened Js
  import opened Dict

  datatype PatchError =
    | NoID(item: Dict<Value>)
    | NotFound(id: Value)

  /** The properties an update keeps from the stored item. */
  predicate Positional(p: string) {
    p == "x" || p == "y"
  }

  /** The property names of `d` that an update deletes, in property order. */
  function Removable(d: Dict<Value>): (names: seq<string>)
    ensures forall p :: p in names <==> p in Keys(d) && !Positional(p)
  {
    if d == [] then []
    else
      assert Keys(d) == [d[0].0] + Keys(d[1..]);
      (if Positional(d[0].0) then [] else [d[0].0]) + Removable(d[1..])
  }

  /** The stored item after the update: its `x`/`y` entries, in their order,
      then every property of the update assigned onto them. */
  function Patched(d: Dict<Value>, item: Dict<Value>): Dict<Value> {
    Assign(Without(d, Removable(d)), item)
  }

  /** `item[idProp]`, undefined where the update has no such property. */
  function ItemID(item: Dict<Value>, idProp: string): Value {
    match Get(item, idProp)
    case Some(v) => v
    case None => Undefined
  }

  /** A vis-network data set: items by ID. */
  class DataSet {
    const idProp: string
    var data: map<Value, JsObject>

    /** Every stored item is a JavaScript object: its property names are distinct. */
    ghost predicate Valid()
      reads this, data.Values
    {
      forall id :: id in data ==> UniqueKeys(data[id].props)
    }

    constructor (idProp: string, data: map<Value, JsObject>)
      ensures this.idProp == idProp && this.data == data
    {
      this.idProp := idProp;
      this.data := data;
    }

    /** The stored item an update addresses, when there is one. */
    function Target(item: Dict<Value>): (o: Option<JsObject>)
      reads this
      ensures o.Some? <==> !IsNullish(ItemID(item, idProp)) && ItemID(item, idProp) in data
    {
      var id := ItemID(item, idProp);
      if !IsNullish(id) && id in data then Some(data[id]) else None
    }

    /** `_updateItem(item)`. */
    method UpdateItem(item: Dict<Value>) returns (r: Result<Value, PatchError>)
      requires Valid()
      modifies if Target(item).Some? then {Target(item).value} else {}
      ensures data == old(data) && Valid()
      ensures var id := ItemID(item, idProp);
        && (IsNullish(id) ==> r == Failure(NoID(item)))
        && (!IsNullish(id) && id !in data ==> r == Failure(NotFound(id)))
        && (Target(item).Some? ==> r == Success(id))
      ensures Target(item).Some? ==>
        Target(item).value.props == Patched(old(Target(item).value.props), item)
    {
      var id := ItemID(item, idProp);
      if IsNullish(id) {
        return Failure(NoID(item));
      }
      if id !in data {
        return Failure(NotFound(id));
      }
      var d := data[id];
      DeleteAllBut(d);
      AssignAll(d, item);
      PatchedKeys(old(d.props), item);
      return Success(id);
    }
  }

  /** `Object.getOwnPropertyNames(d).filter(p => p !== 'x' && p !== 'y').forEach(p => delete d[p])`. */
  method DeleteAllBut(d: JsObject)
    requires UniqueKeys(d.props)
    modifies d
    ensures d.props == Without(old(d.props), Removable(old(d.props)))
  {
    ghost var before := d.props;
    var names := Removable(d.props);
    WithoutNone(before, []);
    var i := 0;
    while i < |names|
      invariant 0 <= i <= |names|
      invariant d.props == Without(before, names[..i])
      invariant UniqueKeys(d.props)
    {
      DeleteStep(before, names, i, d.props);
      d.props := Delete(d.props, names[i]);
      i := i + 1;
    }
    assert names[..i] == names;
  }

  /** One deletion moves the loop on by one name. */
  lemma DeleteStep(before: Dict<Value>, names: seq<string>, i: nat, props: Dict<Value>)
    requires i < |names| && props == Without(before, names[..i]) && UniqueKeys(props)
    ensures Delete(props, names[i]) == Without(before, names[..i + 1])
    ensures UniqueKeys(Delete(props, names[i]))
  {
    DeleteIsWithout(props, names[i]);
    WithoutTwice(before, names[..i], names[i]);
    assert names[..i + 1] == names[..i] + [names[i]];
  }

  /** `Object.getOwnPropertyNames(item).forEach(p => d[p] = item[p])`. */
  method AssignAll(d: JsObject, item: Dict<Value>)
    modifies d
    ensures d.props == Assign(old(d.props), item)
  {
    var j := 0;
    while j < |item|
      invariant 0 <= j <= |item|
      invariant d.props == Assign(old(d.props), item[..j])
    {
      assert item[..j + 1][..j] == item[..j];
      d.props := Put(d.props, item[j].0, item[j].1);
      j := j + 1;
    }
    assert item[..j] == item;
  }

  /** What a property reads after the update: the update's value for the
      properties it has, the old value for `x`/`y` otherwise, and nothing for
      every other property. */
  lemma PatchedGet(d: Dict<Value>, item: Dict<Value>, k: string)
    requires UniqueKeys(item)
    ensures Get(Patched(d, item), k) ==
      if k in Keys(item) then Get(item, k)
      else if Positional(k) then Get(d, k)
      else None
  {
    AssignGet(Without(d, Removable(d)), item, k);
    LastGetUnique(item, k);
    WithoutGet(d, Removable(d), k);
  }

  /** The names after the update are the update's own and the old `x`/`y`;
      the kept `x`/`y` come first, in their old order, and names stay distinct. */
  lemma PatchedKeys(d: Dict<Value>, item: Dict<Value>)
    requires UniqueKeys(d)
    ensures forall k :: k in Keys(Patched(d, item)) <==> k in Keys(item) || (Positional(k) && k in Keys(d))
    ensures Keys(Without(d, Removable(d))) <= Keys(Patched(d, item))
    ensures forall k :: k in Keys(Without(d, Removable(d))) ==> Positional(k)
    ensures UniqueKeys(Patched(d, item))
  {
    var kept := Without(d, Removable(d));
    AssignKeys(kept, item);
    WithoutUnique(d, Removable(d));
    forall k ensures k in Keys(kept) <==> k in Keys(d) && Positional(k) {
      WithoutKeys(d, Removable(d), k);
    }
  }

  /** Applying the same update twice reads the same as applying it once. */
  lemma PatchedTwice(d: Dict<Value>, item: Dict<Value>, k: string)
    requires UniqueKeys(item)
    ensures Get(Patched(Patched(d, item), item), k) == Get(Patched(d, item), k)
  {
    PatchedGet(d, item, k);
    PatchedGet(Patched(d, item), item, k);
  }

  /** The stored item after the update carries the update's ID. */
  lemma PatchedKeepsID(d: Dict<Value>, item: Dict<Value>, idProp: string)
    requires UniqueKeys(item) && idProp in Keys(item)
    ensures Get(Patched(d, item), idProp) == Some(ItemID(item, idProp))
  {
    PatchedGet(d, item, idProp);
  }
}
