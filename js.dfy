/** The JavaScript values the editor's core passes around, with the few
    operations of the language that the core relies on: truthiness, the tag
    `Object.prototype.toString` reports, and spreading into an argument list. */
module Js {

  import opened Wrappers

  /** A JavaScript value. Numbers are kept as integers (no arithmetic is done on
      them in the core); `Host` stands for every other built-in object (Date,
      Map, Set, Uint8Array, an `arguments` object, an iterator, ...) and carries
      the tag it reports and, for an iterable one, the values its iterator
      yields (the `[key, value]` pairs of a Map, the elements of a typed
      array). */
  datatype Value =
    | Undefined
    | Null
    | Bool(b: bool)
    | Num(n: int)
    | Str(s: string)
    | Arr(items: seq<Value>)
    | Obj(props: seq<(string, Value)>)
    | Fn(fn: FnRef)
    | Host(tag: string, iteration: Option<seq<Value>>)

  /** A function value. A function supplied from outside the core is known by an
      identity and applied through an interpreter given as a parameter; the two
      closures that the validator builds itself are kept with the data they
      capture: the closure made by `GenericType(...types)` and the scheme that
      describes all validation schemes. */
  datatype FnRef =
    | Native(id: nat)
    | Generic(types: seq<Value>)
    | SchemeScheme

  /** JavaScript's `!!v`: false exactly for undefined, null, false, 0 and "". */
  predicate Truthy(v: Value) {
    match v
    case Undefined => false
    case Null => false
    case Bool(b) => b
    case Num(n) => n != 0
    case Str(s) => s != ""
    case _ => true
  }

  /** JavaScript's `v == null`: true only for undefined and null. */
  predicate IsNullish(v: Value) {
    v.Undefined? || v.Null?
  }

  /** The tag that `Object.prototype.toString.call(v)` reports, without the
      surrounding `[object ` and `]`. */
  function Tag(v: Value): string {
    match v
    case Undefined => "Undefined"
    case Null => "Null"
    case Bool(_) => "Boolean"
    case Num(_) => "Number"
    case Str(_) => "String"
    case Arr(_) => "Array"
    case Obj(_) => "Object"
    case Fn(_) => "Function"
    case Host(t, _) => t
  }

  /** The argument list `f(...v)` passes: the elements of an array, the
      one-character strings of a string, what an iterable built-in yields;
      None where spreading raises a TypeError because the value is not
      iterable. */
  function Spread(v: Value): (r: Option<seq<Value>>)
    ensures v.Arr? ==> r == Some(v.items)
    ensures v.Str? ==> r.Some? && |r.value| == |v.s|
    ensures v.Str? ==> forall i :: 0 <= i < |v.s| ==> r.value[i] == Str([v.s[i]])
    ensures v.Host? ==> r == v.iteration
    ensures (v.Obj? || IsNullish(v) || v.Num? || v.Bool? || v.Fn?) ==> r.None?
  {
    match v
    case Arr(items) => Some(items)
    case Host(_, iteration) => iteration
    case Str(s) => Some(seq(|s|, i requires 0 <= i < |s| => Str([s[i]])))
    case _ => None
  }

  /** A JavaScript object that the source changes in place: its own properties,
      in property order. */
  class JsObject {
    var props: seq<(string, Value)>

    constructor (props: seq<(string, Value)>)
      ensures this.props == props
    {
      this.props := props;
    }
  }
}
