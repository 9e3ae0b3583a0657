/** The graph editor's own building blocks: the older event object made by
    `CreateEvent`, the element metamodel (classes, styles, properties, types and
    elements) with its template merging, the older style table, and the helper
    that sets or deletes one property. */
module GraphEditor {

  import opened Wrappers
  import opened Js
  import opened Dict
  import opened EventSystem

  // ---------------------------------------------------------------------------
  // CreateEvent

  /** An event made by `CreateEvent(eventName, eventDescription)`: a table of
      callbacks with `Subscribe`, `Unsubscribe`, `TriggerAll` and `TriggerPipe`. */
  class LegacyEvent {
    const eventName: string
    const eventDescription: string
    var callbacks: Dict<Callback>

    ghost predicate Valid()
      reads this
    {
      UniqueKeys(callbacks)
    }

    constructor (eventName: string, eventDescription: string)
      ensures Valid()
      ensures this.eventName == eventName && this.eventDescription == eventDescription
      ensures callbacks == []
    {
      this.eventName := eventName;
      this.eventDescription := eventDescription;
      callbacks := [];
    }

    /** Registers `callback` under `callbackID` (or a generated ID when that is
        falsy); refuses an ID already present unless `replaceExisting`, and then
        the table is unchanged. Answers the error it throws, None when it returns. */
    method Subscribe(callback: Callback, replaceExisting: bool, callbackID: string, freshID: string)
      returns (r: Option<EventError>)
      requires Valid()
      modifies this`callbacks
      ensures Valid()
      ensures var id := ChooseID(callbackID, freshID);
        if id in Keys(old(callbacks)) && !replaceExisting
        then r == Some(DuplicateCallback(eventName, id)) && callbacks == old(callbacks)
        else r.None? && callbacks == Put(old(callbacks), id, callback)
    {
      var id := ChooseID(callbackID, freshID);
      if id in Keys(callbacks) && !replaceExisting {
        return Some(DuplicateCallback(eventName, id));
      }
      callbacks := Put(callbacks, id, callback);
      return None;
    }

    /** Removes the callback with this ID, if there is one; a missing ID is not an error. */
    method Unsubscribe(callbackID: string)
      requires Valid()
      modifies this`callbacks
      ensures Valid()
      ensures callbacks == Delete(old(callbacks), callbackID)
      ensures callbackID !in Keys(callbacks)
      ensures forall id :: id != callbackID ==> Get(callbacks, id) == Get(old(callbacks), id)
    {
      if callbackID in Keys(callbacks) {
        callbacks := Delete(callbacks, callbackID);
      }
    }

    /** `TriggerAll(...args)`: every ID mapped to its callback's result on the
        same arguments, in table order. */
    function TriggerAll(args: seq<Value>): (r: Dict<Value>)
      reads this
      ensures Keys(r) == Keys(callbacks)
      ensures Valid() ==> UniqueKeys(r)
      ensures Valid() ==> forall i :: 0 <= i < |callbacks| ==> Get(r, callbacks[i].0) == Some(callbacks[i].1(args))
    {
      var r := BroadcastEntries(callbacks, args);
      assert Valid() ==> UniqueKeys(r) && forall i :: 0 <= i < |callbacks| ==> Get(r, callbacks[i].0) == Some(callbacks[i].1(args)) by {
        if Valid() {
          BroadcastIsIndependent(callbacks, args);
        }
      }
      r
    }

    /** `TriggerPipe(...args)`: `buf` starts as the argument array itself and
        each callback, in table order, is called with `buf` as its one argument. */
    method TriggerPipe(args: seq<Value>) returns (r: Value)
      ensures r == PipeOne(callbacks, Arr(args))
      ensures callbacks == [] ==> r == Arr(args)
      ensures callbacks != [] ==> r == PipeOne(callbacks[1..], callbacks[0].1([Arr(args)]))
    {
      var buf := Arr(args);
      for i := 0 to |callbacks|
        invariant buf == PipeOne(callbacks[..i], Arr(args))
      {
        assert callbacks[..i + 1][..i] == callbacks[..i];
        buf := callbacks[i].1([buf]);
      }
      assert callbacks[..|callbacks|] == callbacks;
      if callbacks != [] {
        PipeFirstThenRest(callbacks, Arr(args));
      }
      return buf;
    }
  }

  /** The older pipe is the newer pipe event triggered with one argument, the
      argument array: the subscribers see the same inputs and the result is the same. */
  lemma LegacyPipeIsSingleArgumentPipe(cbs: Dict<Callback>, args: seq<Value>)
    ensures TriggerSpec("pipe", cbs, [Arr(args)]) ==
      Dispatch(Success(PipeOne(cbs, Arr(args))), PipeOneTrace(cbs, Arr(args)))
    ensures |TriggerSpec("pipe", cbs, [Arr(args)]).trace| == |cbs|
    ensures forall i :: 0 <= i < |cbs| ==>
      TriggerSpec("pipe", cbs, [Arr(args)]).trace[i] == Invocation(cbs[i].0, [PipeOne(cbs[..i], Arr(args))])
  {
    PipeOneCallsInOrder(cbs, Arr(args));
  }

  // ---------------------------------------------------------------------------
  // ZipArrays

  /** `ZipArrays(keys, values)`: each key paired with the value at its position,
      undefined where `values` is shorter. */
  function ZipArrays(keys: seq<string>, values: seq<Value>): (r: Dict<Value>)
    ensures Keys(r) == keys
    ensures forall i :: 0 <= i < |keys| ==> r[i].1 == if i < |values| then values[i] else Undefined
  {
    seq(|keys|, i requires 0 <= i < |keys| => (keys[i], if i < |values| then values[i] else Undefined))
  }

  /** With enough values, the second components of the zip are the values in order. */
  lemma ZipValues(keys: seq<string>, values: seq<Value>)
    requires |keys| <= |values|
    ensures seq(|keys|, i requires 0 <= i < |keys| => ZipArrays(keys, values)[i].1) == values[..|keys|]
  {
  }

  // ---------------------------------------------------------------------------
  // Element metamodel

  /** `CreateElementClass(classID, visTemplate)`. */
  datatype ElementClass = ElementClass(classID: string, visTemplate: Dict<Value>)

  /** `CreateElementStyle(styleID, elementClass, visTemplate)`. */
  datatype ElementStyle = ElementStyle(styleID: string, elementClass: ElementClass, visTemplate: Dict<Value>)

  /** `CreateElementProperty(propertyID, propertyClass, propertyName, propertyDefaultValue)`. */
  datatype ElementProperty = ElementProperty(
    propertyID: string, propertyClass: string, propertyName: string, propertyDefaultValue: Value)

  /** What `CreateElementType` returns: its arguments and the two derived tables. */
  datatype ElementType = ElementType(
    typeID: string,
    elementClass: ElementClass,
    typeName: string,
    typeDescription: string,
    typeColor: string,
    typePropertiesArray: seq<ElementProperty>,
    typeStylesArray: seq<ElementStyle>,
    visTemplate: Dict<Value>,
    propertiesValues: Dict<Value>)

  /** What `CreateElement` returns. */
  datatype Element = Element(
    elementID: Value, propertiesValues: Dict<Value>, visTemplate: Dict<Value>, elementType: ElementType)

  /** What `CreateElementType` throws: the type's name and the IDs of the styles
      that belong to another element class. */
  datatype MetamodelError = StylesOfOtherClass(typeName: string, styleIDs: seq<string>)

  /** `GraphEditor.ElementClasses`: the two element classes. */
  const NodeClass := ElementClass("node", [("x", Num(0)), ("y", Num(0))])
  const EdgeClass := ElementClass("edge", [("from", Num(0)), ("to", Num(0))])

  /** The styles, in order, whose class is not `cls`. */
  function OtherClassStyles(styles: seq<ElementStyle>, cls: ElementClass): (r: seq<ElementStyle>)
    ensures forall s :: s in r <==> s in styles && s.elementClass != cls
    ensures |r| <= |styles|
  {
    if styles == [] then []
    else (if styles[0].elementClass != cls then [styles[0]] else []) + OtherClassStyles(styles[1..], cls)
  }

  function StyleIDs(styles: seq<ElementStyle>): seq<string> {
    seq(|styles|, i requires 0 <= i < |styles| => styles[i].styleID)
  }

  function StyleTemplates(styles: seq<ElementStyle>): seq<Dict<Value>> {
    seq(|styles|, i requires 0 <= i < |styles| => styles[i].visTemplate)
  }

  /** `[prop.propertyID, prop.propertyDefaultValue]` for each property, in order. */
  function PropertyDefaults(props: seq<ElementProperty>): (r: Dict<Value>)
    ensures Keys(r) == seq(|props|, i requires 0 <= i < |props| => props[i].propertyID)
  {
    seq(|props|, i requires 0 <= i < |props| => (props[i].propertyID, props[i].propertyDefaultValue))
  }

  /** A type's `visTemplate`: `Object.assign({}, class template, ...style templates)`. */
  function TypeTemplate(cls: ElementClass, styles: seq<ElementStyle>): Dict<Value> {
    AssignEach([], [cls.visTemplate] + StyleTemplates(styles))
  }

  /** A type's `propertiesValues`: `Object.fromEntries` of the (ID, default) pairs. */
  function TypeDefaults(props: seq<ElementProperty>): Dict<Value> {
    Assign([], PropertyDefaults(props))
  }

  /** `CreateElementType(...)`. */
  function CreateElementType(
    typeID: string, elementClass: ElementClass, typeName: string, typeDescription: string,
    typeColor: string, typePropertiesArray: seq<ElementProperty>, typeStylesArray: seq<ElementStyle>)
    : (r: Result<ElementType, MetamodelError>)
    ensures r.Failure? <==> exists s :: s in typeStylesArray && s.elementClass != elementClass
    ensures r.Failure? ==> r.error == StylesOfOtherClass(typeName, StyleIDs(OtherClassStyles(typeStylesArray, elementClass)))
    ensures r.Success? ==> r.value == ElementType(
      typeID, elementClass, typeName, typeDescription, typeColor, typePropertiesArray, typeStylesArray,
      TypeTemplate(elementClass, typeStylesArray), TypeDefaults(typePropertiesArray))
  {
    var otherClasses := OtherClassStyles(typeStylesArray, elementClass);
    if |otherClasses| > 0 then
      assert otherClasses[0] in otherClasses;
      Failure(StylesOfOtherClass(typeName, StyleIDs(otherClasses)))
    else
      assert otherClasses == [];
      Success(ElementType(
        typeID, elementClass, typeName, typeDescription, typeColor, typePropertiesArray, typeStylesArray,
        TypeTemplate(elementClass, typeStylesArray), TypeDefaults(typePropertiesArray)))
  }

  /** Every template of a type's class and styles is a JavaScript object. */
  ghost predicate TemplatesAreObjects(cls: ElementClass, styles: seq<ElementStyle>) {
    && UniqueKeys(cls.visTemplate)
    && forall i :: 0 <= i < |styles| ==> UniqueKeys(styles[i].visTemplate)
  }

  /** A type's template reads, for every key, as the last style template that
      has the key, and as the class template when no style has it. */
  lemma TypeTemplateIsOverlay(cls: ElementClass, styles: seq<ElementStyle>, k: string)
    requires TemplatesAreObjects(cls, styles)
    ensures var fromStyles := LastSource(StyleTemplates(styles), k);
      Get(TypeTemplate(cls, styles), k) == if fromStyles.Some? then fromStyles else Get(cls.visTemplate, k)
  {
    var ss := [cls.visTemplate] + StyleTemplates(styles);
    assert forall i :: 0 <= i < |ss| ==> UniqueKeys(ss[i]) by {
      forall i | 0 <= i < |ss| ensures UniqueKeys(ss[i]) {
        if i > 0 {
          assert ss[i] == styles[i - 1].visTemplate;
        }
      }
    }
    AssignEachGet([], ss, k);
    OverlayOfBase(cls.visTemplate, StyleTemplates(styles), k);
  }

  /** Putting a base template before the sources: the base is read only when no source has the key. */
  lemma {:induction false} OverlayOfBase(base: Dict<Value>, ss: seq<Dict<Value>>, k: string)
    ensures var r := LastSource([base] + ss, k);
      r == if LastSource(ss, k).Some? then LastSource(ss, k) else Get(base, k)
  {
    if ss != [] {
      var ss' := ss[..|ss| - 1];
      assert ([base] + ss)[..|[base] + ss| - 1] == [base] + ss';
      OverlayOfBase(base, ss', k);
    } else {
      assert [base] + ss == [base];
      assert ([base] + ss)[..0] == [];
    }
  }

  /** A later style wins a key it shares with earlier styles and the class. */
  lemma {:induction false} LaterStyleWins(ss: seq<Dict<Value>>, j: nat, k: string)
    requires j < |ss| && k in Keys(ss[j])
    requires forall i :: j < i < |ss| ==> k !in Keys(ss[i])
    ensures LastSource(ss, k) == Get(ss[j], k)
    decreases |ss|
  {
    if j < |ss| - 1 {
      var ss' := ss[..|ss| - 1];
      assert ss'[j] == ss[j];
      LaterStyleWins(ss', j, k);
    }
  }

  /** A type's `propertiesValues` has exactly the listed property IDs as keys. */
  lemma TypeDefaultsKeys(props: seq<ElementProperty>, k: string)
    ensures UniqueKeys(TypeDefaults(props))
    ensures k in Keys(TypeDefaults(props)) <==> exists i :: 0 <= i < |props| && props[i].propertyID == k
  {
    var d := PropertyDefaults(props);
    AssignKeys([], d);
    if k in Keys(d) {
      var i :| 0 <= i < |d| && Keys(d)[i] == k;
      assert props[i].propertyID == k;
    } else {
      forall i | 0 <= i < |props| ensures props[i].propertyID != k {
        assert Keys(d)[i] == props[i].propertyID;
      }
    }
  }

  /** Each property ID reads as the default of the last property with that ID;
      with distinct IDs the table is the list of (ID, default) pairs itself. */
  lemma TypeDefaultsValues(props: seq<ElementProperty>, k: string)
    ensures Get(TypeDefaults(props), k) == LastGet(PropertyDefaults(props), k)
    ensures UniqueKeys(PropertyDefaults(props)) ==> TypeDefaults(props) == PropertyDefaults(props)
  {
    var d := PropertyDefaults(props);
    AssignGet([], d, k);
    if UniqueKeys(d) {
      FromEntriesOfUnique(d);
    }
  }

  function Min(a: nat, b: nat): nat {
    if a < b then a else b
  }

  /** The class-template keys that `n` positional arguments set. */
  function PositionalKeys(cls: ElementClass, n: nat): (ks: seq<string>)
    ensures |ks| == Min(n, |cls.visTemplate|)
  {
    Keys(cls.visTemplate)[..Min(n, |cls.visTemplate|)]
  }

  /** An element's `propertiesValues`: `Object.assign({}, type defaults, dict)`. */
  function ElementProperties(t: ElementType, dict: Dict<Value>): Dict<Value> {
    Assign(Assign([], t.propertiesValues), dict)
  }

  /** An element's `visTemplate`: the type's template, then the positional
      arguments zipped onto the first class-template keys. */
  function ElementTemplate(t: ElementType, classArguments: seq<Value>): Dict<Value> {
    Assign(Assign([], t.visTemplate),
      Assign([], ZipArrays(PositionalKeys(t.elementClass, |classArguments|), classArguments)))
  }

  /** `CreateElement(elementID, elementType, elementPropertiesValuesDict, ...elementClassArguments)`. */
  function CreateElement(elementID: Value, elementType: ElementType, dict: Dict<Value>, classArguments: seq<Value>): (e: Element)
    ensures e.elementID == elementID && e.elementType == elementType
  {
    Element(elementID, ElementProperties(elementType, dict), ElementTemplate(elementType, classArguments), elementType)
  }

  /** An element's property reads as the supplied dict where it has the key, as
      the type default otherwise; with an empty dict the values are the type
      defaults themselves. */
  lemma ElementPropertiesOverlay(t: ElementType, dict: Dict<Value>, k: string)
    requires UniqueKeys(dict) && UniqueKeys(t.propertiesValues)
    ensures Get(ElementProperties(t, dict), k) == if k in Keys(dict) then Get(dict, k) else Get(t.propertiesValues, k)
    ensures dict == [] ==> ElementProperties(t, dict) == t.propertiesValues
  {
    FromEntriesOfUnique(t.propertiesValues);
    AssignGet(t.propertiesValues, dict, k);
    LastGetUnique(dict, k);
  }

  /** The zip of distinct keys with enough values reads each key as its value. */
  lemma ZipGet(ks: seq<string>, args: seq<Value>, i: nat)
    requires UniqueKeys(ZipArrays(ks, args)) && i < |ks| <= |args|
    ensures Get(ZipArrays(ks, args), ks[i]) == Some(args[i])
  {
    GetAt(ZipArrays(ks, args), i);
  }

  /** The positional keys of a class whose template is a JavaScript object are distinct. */
  lemma PositionalKeysUnique(t: ElementType, args: seq<Value>)
    requires UniqueKeys(t.elementClass.visTemplate)
    ensures UniqueKeys(ZipArrays(PositionalKeys(t.elementClass, |args|), args))
  {
    var z := ZipArrays(PositionalKeys(t.elementClass, |args|), args);
    assert forall i :: 0 <= i < |z| ==> z[i].0 == t.elementClass.visTemplate[i].0;
  }

  /** The positional arguments set the first class-template keys, in order. */
  lemma ElementTemplatePositional(t: ElementType, args: seq<Value>, i: nat)
    requires UniqueKeys(t.elementClass.visTemplate) && UniqueKeys(t.visTemplate)
    requires i < |PositionalKeys(t.elementClass, |args|)|
    ensures Get(ElementTemplate(t, args), PositionalKeys(t.elementClass, |args|)[i]) == Some(args[i])
  {
    var ks := PositionalKeys(t.elementClass, |args|);
    var z := ZipArrays(ks, args);
    PositionalKeysUnique(t, args);
    FromEntriesOfUnique(z);
    FromEntriesOfUnique(t.visTemplate);
    AssignGet(t.visTemplate, z, ks[i]);
    LastGetUnique(z, ks[i]);
    ZipGet(ks, args, i);
  }

  /** Every other key of the element's template reads as the type's template. */
  lemma ElementTemplateElsewhere(t: ElementType, args: seq<Value>, k: string)
    requires UniqueKeys(t.elementClass.visTemplate) && UniqueKeys(t.visTemplate)
    requires k !in PositionalKeys(t.elementClass, |args|)
    ensures Get(ElementTemplate(t, args), k) == Get(t.visTemplate, k)
  {
    var ks := PositionalKeys(t.elementClass, |args|);
    var z := ZipArrays(ks, args);
    PositionalKeysUnique(t, args);
    FromEntriesOfUnique(z);
    FromEntriesOfUnique(t.visTemplate);
    AssignGet(t.visTemplate, z, k);
    LastGetUnique(z, k);
  }

  /** A node created with two arguments sits where they say. */
  lemma NodeArgumentsArePosition(t: ElementType, x: Value, y: Value)
    requires t.elementClass == NodeClass && UniqueKeys(t.visTemplate)
    ensures Get(CreateElement(Undefined, t, [], [x, y]).visTemplate, "x") == Some(x)
    ensures Get(CreateElement(Undefined, t, [], [x, y]).visTemplate, "y") == Some(y)
  {
    var ks := PositionalKeys(NodeClass, 2);
    assert Keys(NodeClass.visTemplate) == ["x", "y"];
    assert ks[0] == "x" && ks[1] == "y";
    ElementTemplatePositional(t, [x, y], 0);
    ElementTemplatePositional(t, [x, y], 1);
  }

  // ---------------------------------------------------------------------------
  // The older type records

  /** `CreateType_old(id, name, description, color, template, titles)`. */
  datatype OldType = OldType(
    id: string, template: Value, name: string, color: string, description: string, titles: Value)

  /** `[type.id, type]` for each type, in order. */
  function TypeEntries(types: seq<OldType>): (r: Dict<OldType>)
    ensures Keys(r) == seq(|types|, i requires 0 <= i < |types| => types[i].id)
  {
    seq(|types|, i requires 0 <= i < |types| => (types[i].id, types[i]))
  }

  /** The table `CreateStyles_old(...types)` builds. */
  function OldStyles(types: seq<OldType>): Dict<OldType> {
    Assign([], TypeEntries(types))
  }

  /** `CreateStyles_old(...types)`: `styles[type.id] = type` for each type, in
      array order. */
  method CreateStylesOld(types: seq<OldType>) returns (styles: Dict<OldType>)
    ensures styles == OldStyles(types)
  {
    styles := [];
    var entries := TypeEntries(types);
    for n := 0 to |types|
      invariant styles == Assign([], entries[..n])
    {
      assert entries[..n + 1][..n] == entries[..n];
      styles := Put(styles, types[n].id, types[n]);
    }
    assert entries[..|types|] == entries;
  }

  /** The table's keys are exactly the types' IDs, each once. */
  lemma OldStylesKeys(types: seq<OldType>, id: string)
    ensures UniqueKeys(OldStyles(types))
    ensures id in Keys(OldStyles(types)) <==> exists i :: 0 <= i < |types| && types[i].id == id
  {
    var entries := TypeEntries(types);
    AssignKeys([], entries);
    if id in Keys(entries) {
      var i :| 0 <= i < |entries| && Keys(entries)[i] == id;
      assert types[i].id == id;
    } else {
      forall i | 0 <= i < |types| ensures types[i].id != id {
        assert Keys(entries)[i] == types[i].id;
      }
    }
  }

  /** Of several types with one ID, the last one is kept. */
  lemma OldStylesLastWins(types: seq<OldType>, i: nat)
    requires i < |types| && forall j :: i < j < |types| ==> types[j].id != types[i].id
    ensures Get(OldStyles(types), types[i].id) == Some(types[i])
  {
    var entries := TypeEntries(types);
    AssignGet([], entries, types[i].id);
    LastGetAt(entries, i);
  }

  // ---------------------------------------------------------------------------
  // SetOrDelete

  /** `SetOrDelete(object, property, value)`: a falsy value deletes the property,
      any other value is assigned to it; answers the same object `obj`. */
  method SetOrDelete(obj: JsObject, property: string, value: Value) returns (r: JsObject)
    requires UniqueKeys(obj.props)
    modifies obj
    ensures r == obj && UniqueKeys(obj.props)
    ensures obj.props == if Truthy(value) then Put(old(obj.props), property, value) else Delete(old(obj.props), property)
    ensures Get(obj.props, property) == if Truthy(value) then Some(value) else None
    ensures forall p :: p != property ==> Get(obj.props, p) == Get(old(obj.props), p)
  {
    if !Truthy(value) {
      obj.props := Delete(obj.props, property);
    } else {
      obj.props := Put(obj.props, property, value);
    }
    return obj;
  }
}
