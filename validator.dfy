/** The schema validator: a type-tag test with `*` wildcards, and a recursive
    matcher of data against a scheme that is itself a JavaScript value (a type
    name, a predicate function, `[]`/`[scheme]`, or an object of per-key
    schemes with required, `key?` and `*` entries). */
module Validator {

  import opened Wrappers
  import opened Js
  import opened Dict

  /** The entries of the `validationTypes` table that the validator itself
      uses: every tag maps to itself there, and `Any` maps to the wildcard. */
  const AnyType := "*"
  const StringType := "String"
  const ArrayType := "Array"
  const ObjectType := "Object"

  /** What `Raise` is called with, one kind per raising site. */
  datatype ValidationError =
    | TypeNotString(typeTag: string)
    | TypeMismatch(valueTag: string, expected: string)
    | InvalidScheme(reason: ValidationError)
    | CustomValidationFailed
    | ArraySchemeTooLong(length: nat)
    | NotIterable(tag: string)
    | ForbiddenProperty(prop: string)
    | MissingProperties(props: seq<string>)
    | UnknownScheme(schemeTag: string)
    | NoGenericTypes
    | SingleGenericType

  /** Returning normally, or raising. */
  datatype Verdict = Pass | Fail(error: ValidationError)

  predicate StartsWith(s: string, p: string) {
    |p| <= |s| && s[..|p|] == p
  }

  predicate EndsWith(s: string, p: string) {
    |p| <= |s| && s[|s| - |p|..] == p
  }

  /** `s.replace(c, '')` for a one-character pattern: only the first occurrence goes. */
  function RemoveFirst(s: string, c: char): (r: string)
    ensures c !in s ==> r == s
  {
    if s == [] then []
    else if s[0] == c then s[1..]
    else [s[0]] + RemoveFirst(s[1..], c)
  }

  lemma {:induction false} RemoveFirstOnlyFirst(a: string, b: string, c: char)
    requires c !in a
    ensures RemoveFirst(a + [c] + b, c) == a + b
  {
    if a != [] {
      assert (a + [c] + b)[1..] == a[1..] + [c] + b;
      RemoveFirstOnlyFirst(a[1..], b, c);
    }
  }

  /** The tag test `AssertType` applies once the type name is not `Any`. */
  predicate MatchesType(valType: string, t: string) {
    var clearType := RemoveFirst(t, '*');
    valType == t
      || (StartsWith(t, "*") && !EndsWith(valType, clearType))
      || (EndsWith(t, "*") && !StartsWith(valType, clearType))
  }

  /** `AssertType(value, type)`. */
  function AssertType(value: Value, typeName: Value): Verdict {
    match typeName
    case Str(t) =>
      if t == AnyType || MatchesType(Tag(value), t) then Pass
      else Fail(TypeMismatch(Tag(value), t))
    case _ => Fail(TypeNotString(Tag(typeName)))
  }

  /** The recursion rank of a scheme: the scheme of schemes is the smallest. */
  function Rank(scheme: Value): nat {
    if scheme == Fn(SchemeScheme) then 0 else 1
  }

  /** A key of an object scheme that the data must have. */
  predicate IsRequiredKey(prop: string) {
    prop != AnyType && !EndsWith(prop, "?")
  }

  /** The position of the scheme entry that says how data key `prop` is
      validated: the required entry of that name, else the LAST optional entry
      whose key with its first `?` removed is `prop` (`Object.fromEntries` keeps
      the last), else a truthy `*` entry; None when the key is not allowed. */
  function SchemeEntryFor(props: Dict<Value>, prop: string): (r: Option<nat>)
    ensures r.Some? ==> r.value < |props|
  {
    var req := Find(Keys(props), prop);
    if req.Some? && IsRequiredKey(prop) then req
    else
      var opt := LastOptional(props, prop);
      if opt.Some? then opt
      else
        var other := Find(Keys(props), AnyType);
        if other.Some? && Truthy(props[other.value].1) then other else None
  }

  function LastOptional(props: Dict<Value>, prop: string): (r: Option<nat>)
    ensures r.Some? ==> r.value < |props|
    ensures r.Some? ==> !IsRequiredKey(props[r.value].0) && RemoveFirst(props[r.value].0, '?') == prop
    ensures r.None? ==> forall j :: 0 <= j < |props| && !IsRequiredKey(props[j].0) ==>
      RemoveFirst(props[j].0, '?') != prop
  {
    if props == [] then None
    else
      var n := |props| - 1;
      if !IsRequiredKey(props[n].0) && RemoveFirst(props[n].0, '?') == prop then Some(n)
      else LastOptional(props[..n], prop)
  }

  /** The required keys of an object scheme that `entries` lacks, in scheme order. */
  function MissingKeys(props: Dict<Value>, entries: Dict<Value>): (r: seq<string>)
    ensures forall k :: k in r <==> k in Keys(props) && IsRequiredKey(k) && k !in Keys(entries)
  {
    if props == [] then []
    else
      var rest := MissingKeys(props[1..], entries);
      assert Keys(props) == [props[0].0] + Keys(props[1..]);
      if IsRequiredKey(props[0].0) && props[0].0 !in Keys(entries) then [props[0].0] + rest else rest
  }

  /** The own enumerable entries `Object.entries(data)` lists. */
  function Entries(data: Value): Dict<Value> {
    if data.Obj? then data.props else []
  }

  /** `if (!given) given = current`. */
  function Fallback(given: Value, current: Value): Value {
    if Truthy(given) then given else current
  }

  /** `Validate(data, scheme, fullData, fullScheme)`: `Pass` if it returns,
      `Fail` with the first error raised. An undefined `fullData`/`fullScheme`
      becomes the current data/scheme. User predicates are applied through
      `interp`. */
  function Validate(data: Value, scheme: Value, fullData: Value, fullScheme: Value,
                    interp: (nat, seq<Value>) -> Value): Verdict
    decreases Rank(scheme), scheme, 3, 0
  {
    if scheme == Fn(SchemeScheme) then Pass
    else
      var selfCheck := Validate(scheme, Fn(SchemeScheme), Undefined, Undefined, interp);
      if selfCheck.Fail? then Fail(InvalidScheme(selfCheck.error))
      else ValidateBy(data, scheme, Fallback(fullData, data), Fallback(fullScheme, scheme), interp)
  }

  /** The branch on the kind of scheme, once the whole data and scheme are fixed. */
  function ValidateBy(data: Value, scheme: Value, full: Value, fullS: Value,
                      interp: (nat, seq<Value>) -> Value): Verdict
    requires scheme != Fn(SchemeScheme)
    decreases Rank(scheme), scheme, 2, 0
  {
    match scheme
    case Str(_) => AssertType(data, scheme)
    case Fn(Native(id)) =>
      if Truthy(interp(id, [data, scheme, full, fullS])) then Pass else Fail(CustomValidationFailed)
    case Fn(Generic(types)) =>
      // the closure `GenericType` builds: `types.some(t => Validate(data, t))`
      var tried := FirstFailure(AlternativeVerdicts(data, types, interp));
      if tried.Fail? then tried else Fail(CustomValidationFailed)
    case Arr(items) =>
      var isArray := AssertType(data, Str(ArrayType));
      if isArray.Fail? then isArray
      else if |items| == 1 then
        if data.Arr? then FirstFailure(ItemVerdicts(data.items, items[0], full, fullS, interp))
        else Fail(NotIterable(Tag(data)))
      else if |items| != 0 then Fail(ArraySchemeTooLong(|items|))
      else Pass
    case Obj(props) =>
      var isObject := AssertType(data, Str(ObjectType));
      if isObject.Fail? then isObject
      else
        var entries := Entries(data);
        var walk := FirstFailure(EntryVerdicts(entries, scheme, full, fullS, interp));
        if walk.Fail? then walk
        else
          var missing := MissingKeys(props, entries);
          if |missing| > 0 then Fail(MissingProperties(missing)) else Pass
    case _ => Fail(UnknownScheme(Tag(scheme)))
  }

  /** What validating each alternative of a generic scheme gives, in order. */
  function AlternativeVerdicts(data: Value, types: seq<Value>, interp: (nat, seq<Value>) -> Value)
    : (vs: seq<Verdict>)
    decreases 1, Fn(Generic(types)), 1, 0
  {
    seq(|types|, k requires 0 <= k < |types| => Validate(data, types[k], Undefined, Undefined, interp))
  }

  /** What `data.forEach(item => Validate(item, itemScheme, ...))` computes for each item. */
  function ItemVerdicts(items: seq<Value>, itemScheme: Value, full: Value, fullS: Value,
                        interp: (nat, seq<Value>) -> Value): seq<Verdict>
    decreases Rank(itemScheme), itemScheme, 4, 0
  {
    seq(|items|, k requires 0 <= k < |items| => Validate(items[k], itemScheme, full, fullS, interp))
  }

  /** What the walk over the data's entries computes for each entry. */
  function EntryVerdicts(entries: Dict<Value>, scheme: Value, full: Value, fullS: Value,
                         interp: (nat, seq<Value>) -> Value): seq<Verdict>
    requires scheme.Obj? && scheme != Fn(SchemeScheme)
    decreases Rank(scheme), scheme, 1, 1
  {
    seq(|entries|, k requires 0 <= k < |entries| => EntryVerdict(entries[k], scheme, full, fullS, interp))
  }

  /** One step of the walk over the data's entries: the key must be allowed by
      the scheme, and the value must validate against the entry that allows it. */
  function EntryVerdict(entry: (string, Value), scheme: Value, full: Value, fullS: Value,
                        interp: (nat, seq<Value>) -> Value): Verdict
    requires scheme.Obj? && scheme != Fn(SchemeScheme)
    decreases Rank(scheme), scheme, 1, 0
  {
    var j := SchemeEntryFor(scheme.props, entry.0);
    if j.None? then Fail(ForbiddenProperty(entry.0))
    else
      assert scheme.props[j.value] in scheme.props;
      Validate(entry.1, scheme.props[j.value].1, full, fullS, interp)
  }

  /** Running steps in order until one raises: the first failure, or `Pass`. */
  function FirstFailure(vs: seq<Verdict>): (r: Verdict)
    ensures r.Pass? <==> forall k :: 0 <= k < |vs| ==> vs[k].Pass?
    ensures r.Fail? ==> exists k :: 0 <= k < |vs| && vs[k] == r && forall j :: 0 <= j < k ==> vs[j].Pass?
  {
    if vs == [] then Pass
    else if vs[0].Fail? then vs[0]
    else
      var r := FirstFailure(vs[1..]);
      assert forall k :: 1 <= k < |vs| ==> vs[k] == vs[1..][k - 1];
      if r.Fail? then
        var k :| 0 <= k < |vs| - 1 && vs[1..][k] == r && forall j :: 0 <= j < k ==> vs[1..][j].Pass?;
        assert vs[k + 1] == r;
        r
      else r
  }

  /** `GenericType(...types)`. */
  function GenericType(types: seq<Value>): (r: Result<Value, ValidationError>)
    ensures r.Failure? <==> |types| < 2
    ensures |types| == 0 ==> r == Failure(NoGenericTypes)
    ensures |types| == 1 ==> r == Failure(SingleGenericType)
    ensures r.Success? ==> r.value.Fn? && r.value.fn.Generic? && r.value.fn.types == types
  {
    if |types| == 0 then Failure(NoGenericTypes)
    else if |types| == 1 then Failure(SingleGenericType)
    else Success(Fn(Generic(types)))
  }

  // ---------------------------------------------------------------------------
  // Type names

  /** `Any` accepts every value. */
  lemma AnyTypeAcceptsAll(v: Value)
    ensures AssertType(v, Str(AnyType)) == Pass
  {
  }

  /** A type name must itself be a string. */
  lemma TypeNameMustBeString(v: Value, t: Value)
    requires !t.Str?
    ensures AssertType(v, t) == Fail(TypeNotString(Tag(t)))
  {
  }

  lemma StartsWithStar(t: string)
    requires '*' !in t
    ensures !StartsWith(t, "*") && !EndsWith(t, "*")
  {
    if t != [] {
      assert t[0] in t && t[|t| - 1] in t;
      assert t[..1] == [t[0]] && t[|t| - 1..] == [t[|t| - 1]];
    }
  }

  /** A type name without `*` accepts exactly the values with that tag. */
  lemma PlainTypeIsExact(v: Value, t: string)
    requires '*' !in t
    ensures AssertType(v, Str(t)).Pass? <==> Tag(v) == t
  {
    StartsWithStar(t);
  }

  lemma LeadingStar(x: string)
    requires '*' !in x && x != ""
    ensures RemoveFirst("*" + x, '*') == x && StartsWith("*" + x, "*") && !EndsWith("*" + x, "*")
  {
    var t := "*" + x;
    assert t[1..] == x;
    assert t[..1] == "*";
    assert x[|x| - 1] in x;
    assert t[|t| - 1..] == [x[|x| - 1]];
  }

  lemma TrailingStar(x: string)
    requires '*' !in x && x != ""
    ensures RemoveFirst(x + "*", '*') == x && !StartsWith(x + "*", "*") && EndsWith(x + "*", "*")
  {
    var t := x + "*";
    RemoveFirstOnlyFirst(x, [], '*');
    assert x + ['*'] + [] == t;
    assert x[0] in x;
    assert t[..1] == [x[0]];
    assert t[|t| - 1..] == "*";
  }

  /** `*X` (one leading star) accepts a tag equal to `*X` or NOT ending in `X`. */
  lemma LeadingWildcard(valType: string, x: string)
    requires '*' !in x && x != ""
    ensures MatchesType(valType, "*" + x) <==> valType == "*" + x || !EndsWith(valType, x)
  {
    LeadingStar(x);
  }

  /** `X*` (one trailing star) accepts a tag equal to `X*` or NOT starting with `X`. */
  lemma TrailingWildcard(valType: string, x: string)
    requires '*' !in x && x != ""
    ensures MatchesType(valType, x + "*") <==> valType == x + "*" || !StartsWith(valType, x)
  {
    TrailingStar(x);
  }

  // ---------------------------------------------------------------------------
  // Schemes

  /** The scheme of schemes accepts everything, so the self-check that opens
      every call of `Validate` never raises. */
  lemma SchemeOfSchemesAcceptsAll(data: Value, fullData: Value, fullScheme: Value,
                                  interp: (nat, seq<Value>) -> Value)
    ensures Validate(data, Fn(SchemeScheme), fullData, fullScheme, interp) == Pass
  {
  }

  /** A scheme that is none of a string, a function, an array or an object is refused. */
  lemma UnknownSchemeRaises(data: Value, scheme: Value, fullData: Value, fullScheme: Value,
                            interp: (nat, seq<Value>) -> Value)
    requires scheme.Undefined? || scheme.Null? || scheme.Bool? || scheme.Num? || scheme.Host?
    ensures Validate(data, scheme, fullData, fullScheme, interp) == Fail(UnknownScheme(Tag(scheme)))
  {
  }

  /** A string scheme is a type-name test on the data. */
  lemma StringSchemeIsTypeTest(data: Value, t: string, fullData: Value, fullScheme: Value,
                               interp: (nat, seq<Value>) -> Value)
    ensures Validate(data, Str(t), fullData, fullScheme, interp) == AssertType(data, Str(t))
  {
  }

  /** A user predicate passes exactly when its result is truthy; it is called with
      the data, itself, and the whole data and scheme of the outermost call. */
  lemma PredicateSchemeIsTruthiness(data: Value, id: nat, fullData: Value, fullScheme: Value,
                                    interp: (nat, seq<Value>) -> Value)
    ensures var scheme := Fn(Native(id));
      Validate(data, scheme, fullData, fullScheme, interp).Pass?
      <==> Truthy(interp(id, [data, scheme, Fallback(fullData, data), Fallback(fullScheme, scheme)]))
  {
  }

  /** `[]` accepts exactly the values tagged `Array`. */
  lemma EmptyArraySchemeIsArrayTest(data: Value, fullData: Value, fullScheme: Value,
                                    interp: (nat, seq<Value>) -> Value)
    ensures Validate(data, Arr([]), fullData, fullScheme, interp).Pass? <==> Tag(data) == ArrayType
  {
    PlainTypeIsExact(data, ArrayType);
  }

  /** An array scheme of two or more item schemes is refused once the data is an array. */
  lemma LongArraySchemeRaises(data: Value, items: seq<Value>, fullData: Value, fullScheme: Value,
                              interp: (nat, seq<Value>) -> Value)
    requires |items| >= 2
    ensures Validate(data, Arr(items), fullData, fullScheme, interp)
      == if Tag(data) == ArrayType then Fail(ArraySchemeTooLong(|items|))
         else Fail(TypeMismatch(Tag(data), ArrayType))
  {
    PlainTypeIsExact(data, ArrayType);
  }

  lemma ValidateUnfolds(data: Value, scheme: Value, fullData: Value, fullScheme: Value,
                        interp: (nat, seq<Value>) -> Value)
    requires scheme != Fn(SchemeScheme)
    ensures Validate(data, scheme, fullData, fullScheme, interp)
      == ValidateBy(data, scheme, Fallback(fullData, data), Fallback(fullScheme, scheme), interp)
  {
    assert Validate(scheme, Fn(SchemeScheme), Undefined, Undefined, interp) == Pass;
  }

  /** `[s]` accepts exactly the arrays every item of which `s` accepts; the first
      item that `s` refuses gives the error. */
  lemma ArraySchemeChecksEveryItem(data: Value, itemScheme: Value, fullData: Value, fullScheme: Value,
                                   interp: (nat, seq<Value>) -> Value)
    ensures var full := Fallback(fullData, data);
      var fullS := Fallback(fullScheme, Arr([itemScheme]));
      Validate(data, Arr([itemScheme]), fullData, fullScheme, interp).Pass?
      <==> data.Arr? && forall k :: 0 <= k < |data.items| ==>
             Validate(data.items[k], itemScheme, full, fullS, interp).Pass?
    ensures data.Arr? ==>
      Validate(data, Arr([itemScheme]), fullData, fullScheme, interp)
      == FirstFailure(ItemVerdicts(data.items, itemScheme, Fallback(fullData, data), Fallback(fullScheme, Arr([itemScheme])), interp))
    ensures Tag(data) != ArrayType ==>
      Validate(data, Arr([itemScheme]), fullData, fullScheme, interp) == AssertType(data, Str(ArrayType))
  {
    var full := Fallback(fullData, data);
    var fullS := Fallback(fullScheme, Arr([itemScheme]));
    ValidateUnfolds(data, Arr([itemScheme]), fullData, fullScheme, interp);
    PlainTypeIsExact(data, ArrayType);
    if data.Arr? {
      var vs := ItemVerdicts(data.items, itemScheme, full, fullS, interp);
      assert ValidateBy(data, Arr([itemScheme]), full, fullS, interp) == FirstFailure(vs);
      assert |vs| == |data.items|;
      assert forall k :: 0 <= k < |vs| ==> vs[k] == Validate(data.items[k], itemScheme, full, fullS, interp);
    }
  }

  /** An object scheme accepts exactly the values tagged `Object` whose every
      entry is allowed and validates, and that have every required key of the
      scheme. */
  lemma ObjectSchemeConformance(data: Value, props: Dict<Value>, fullData: Value, fullScheme: Value,
                                interp: (nat, seq<Value>) -> Value)
    ensures var scheme := Obj(props);
      var full := Fallback(fullData, data);
      var fullS := Fallback(fullScheme, scheme);
      Validate(data, scheme, fullData, fullScheme, interp).Pass?
      <==> (&& Tag(data) == ObjectType
            && (forall k :: 0 <= k < |Entries(data)| ==> EntryVerdict(Entries(data)[k], scheme, full, fullS, interp).Pass?)
            && (forall key :: key in Keys(props) && IsRequiredKey(key) ==> key in Keys(Entries(data))))
  {
    var scheme := Obj(props);
    var full := Fallback(fullData, data);
    var fullS := Fallback(fullScheme, scheme);
    ValidateUnfolds(data, scheme, fullData, fullScheme, interp);
    PlainTypeIsExact(data, ObjectType);
    if Tag(data) == ObjectType {
      var entries := Entries(data);
      var vs := EntryVerdicts(entries, scheme, full, fullS, interp);
      assert |vs| == |entries|;
      assert forall k :: 0 <= k < |vs| ==> vs[k] == EntryVerdict(entries[k], scheme, full, fullS, interp);
      if FirstFailure(vs).Pass? {
        var missing := MissingKeys(props, entries);
        if |missing| == 0 {
          forall key | key in Keys(props) && IsRequiredKey(key)
            ensures key in Keys(entries)
          {
            assert key !in missing;
          }
          assert ValidateBy(data, scheme, full, fullS, interp) == Pass;
        } else {
          assert missing[0] in missing;
          assert ValidateBy(data, scheme, full, fullS, interp) == Fail(MissingProperties(missing));
        }
      } else {
        assert ValidateBy(data, scheme, full, fullS, interp) == FirstFailure(vs);
      }
    }
  }

  /** The data keys an object scheme allows, in the order the source looks them
      up: a required key, then an optional `key?` entry (`Object.fromEntries`,
      so the last one with that name wins), then the `*` entry if truthy. */
  lemma SchemeEntryLookupOrder(props: Dict<Value>, prop: string)
    ensures IsRequiredKey(prop) && prop in Keys(props) ==>
      SchemeEntryFor(props, prop) == Find(Keys(props), prop)
    ensures !(IsRequiredKey(prop) && prop in Keys(props)) && LastOptional(props, prop).Some? ==>
      SchemeEntryFor(props, prop) == LastOptional(props, prop)
    ensures SchemeEntryFor(props, prop).None? <==>
      (&& !(IsRequiredKey(prop) && prop in Keys(props))
       && (forall j :: 0 <= j < |props| && !IsRequiredKey(props[j].0) ==> RemoveFirst(props[j].0, '?') != prop)
       && !(AnyType in Keys(props) && Truthy(Get(props, AnyType).value)))
  {
    var other := Find(Keys(props), AnyType);
    if other.Some? {
      assert Get(props, AnyType) == Some(props[other.value].1);
    }
  }

  /** The `(key with its first '?' removed, scheme)` pairs of an object
      scheme's non-required entries, from which `optionalProperties` is built. */
  function OptionalEntries(props: Dict<Value>): Dict<Value> {
    if props == [] then []
    else
      var n := |props| - 1;
      OptionalEntries(props[..n])
        + (if !IsRequiredKey(props[n].0) then [(RemoveFirst(props[n].0, '?'), props[n].1)] else [])
  }

  /** `LastOptional` is a lookup in `Object.fromEntries(OptionalEntries(props))`. */
  lemma {:induction false} LastOptionalIsFromEntries(props: Dict<Value>, prop: string)
    ensures var opt := Get(Assign([], OptionalEntries(props)), prop);
      match LastOptional(props, prop)
      case Some(j) => opt == Some(props[j].1)
      case None => opt == None
  {
    AssignGet([], OptionalEntries(props), prop);
    LastGetOptional(props, prop);
  }

  lemma {:induction false} LastGetOptional(props: Dict<Value>, prop: string)
    ensures match LastOptional(props, prop)
      case Some(j) => LastGet(OptionalEntries(props), prop) == Some(props[j].1)
      case None => LastGet(OptionalEntries(props), prop) == None
  {
    if props != [] {
      var n := |props| - 1;
      LastGetOptional(props[..n], prop);
      if !IsRequiredKey(props[n].0) {
        var o := OptionalEntries(props);
        assert o[..|o| - 1] == OptionalEntries(props[..n]);
      } else {
        assert OptionalEntries(props) == OptionalEntries(props[..n]);
      }
    }
  }

  // ---------------------------------------------------------------------------
  // GenericType

  /** As written, a generic scheme never accepts anything: when an alternative
      raises, its error propagates, and otherwise `some` finds nothing, because
      `Validate` returns `undefined`. */
  lemma GenericNeverPasses(data: Value, types: seq<Value>, fullData: Value, fullScheme: Value,
                           interp: (nat, seq<Value>) -> Value)
    ensures Validate(data, Fn(Generic(types)), fullData, fullScheme, interp).Fail?
    ensures (forall k :: 0 <= k < |types| ==> Validate(data, types[k], Undefined, Undefined, interp).Pass?)
      ==> Validate(data, Fn(Generic(types)), fullData, fullScheme, interp) == Fail(CustomValidationFailed)
  {
    var scheme := Fn(Generic(types));
    assert Validate(data, scheme, fullData, fullScheme, interp)
      == ValidateBy(data, scheme, Fallback(fullData, data), Fallback(fullScheme, scheme), interp);
    var vs := AlternativeVerdicts(data, types, interp);
    assert ValidateBy(data, scheme, Fallback(fullData, data), Fallback(fullScheme, scheme), interp)
      == if FirstFailure(vs).Fail? then FirstFailure(vs) else Fail(CustomValidationFailed);
  }

  /** A concrete instance: `GenericType('String', 'Number')` rejects the string "a". */
  lemma GenericRejectsMatchingString(interp: (nat, seq<Value>) -> Value)
    ensures Validate(Str("a"), Str("String"), Undefined, Undefined, interp) == Pass
    ensures Validate(Str("a"), Fn(Generic([Str("String"), Str("Number")])), Undefined, Undefined, interp).Fail?
  {
    GenericNeverPasses(Str("a"), [Str("String"), Str("Number")], Undefined, Undefined, interp);
  }

  /** Whether some alternative accepts the data: the search `GenericType`
      evidently means, where an alternative that raises just does not match. */
  function SomeTypeAccepts(data: Value, types: seq<Value>, i: nat, interp: (nat, seq<Value>) -> Value): bool
    requires i <= |types|
    decreases |types| - i
  {
    i < |types| && (Validate(data, types[i], Undefined, Undefined, interp).Pass? || SomeTypeAccepts(data, types, i + 1, interp))
  }

  /** The generic validator as intended: pass when one of the alternatives does. */
  function GenericIntended(data: Value, types: seq<Value>, interp: (nat, seq<Value>) -> Value): Verdict {
    if SomeTypeAccepts(data, types, 0, interp) then Pass else Fail(CustomValidationFailed)
  }

  lemma {:induction false} SomeTypeAcceptsIff(data: Value, types: seq<Value>, i: nat,
                                              interp: (nat, seq<Value>) -> Value)
    requires i <= |types|
    ensures SomeTypeAccepts(data, types, i, interp) <==>
      exists k :: i <= k < |types| && Validate(data, types[k], Undefined, Undefined, interp).Pass?
    decreases |types| - i
  {
    if i < |types| {
      SomeTypeAcceptsIff(data, types, i + 1, interp);
    }
  }

  /** The intended generic accepts exactly the data one of its alternatives accepts. */
  lemma GenericIntendedIsUnion(data: Value, types: seq<Value>, interp: (nat, seq<Value>) -> Value)
    ensures GenericIntended(data, types, interp).Pass? <==>
      exists k :: 0 <= k < |types| && Validate(data, types[k], Undefined, Undefined, interp).Pass?
  {
    SomeTypeAcceptsIff(data, types, 0, interp);
  }

  // ---------------------------------------------------------------------------
  // Wildcard type names as documented

  /** The documented meaning of a type name: `*` is anything, `*X` is every tag
      ending in `X`, `X*` every tag starting with `X`, otherwise the tag itself. */
  predicate MatchesTypeIntended(valType: string, t: string) {
    var clearType := RemoveFirst(t, '*');
    t == AnyType || valType == t
      || (StartsWith(t, "*") && EndsWith(valType, clearType))
      || (EndsWith(t, "*") && StartsWith(valType, clearType))
  }

  /** As written, `*Array` rejects `Uint8ClampedArray` and `Array`, which the
      type-name documentation says it includes, and accepts `Map`. */
  lemma LeadingWildcardInverted()
    ensures AssertType(Host("Uint8ClampedArray", Some([])), Str("*Array")).Fail?
    ensures AssertType(Arr([]), Str("*Array")).Fail?
    ensures AssertType(Host("Map", Some([])), Str("*Array")) == Pass
  {
    LeadingWildcard("Uint8ClampedArray", "Array");
    LeadingWildcard("Array", "Array");
    LeadingWildcard("Map", "Array");
    assert "Uint8ClampedArray"[12..] == "Array";
  }

  /** As intended, `*X` accepts exactly the tags ending in `X`. */
  lemma LeadingWildcardIntended(valType: string, x: string)
    requires '*' !in x && x != ""
    ensures MatchesTypeIntended(valType, "*" + x) <==> EndsWith(valType, x)
  {
    LeadingStar(x);
    if valType == "*" + x {
      assert valType[|valType| - |x|..] == x;
    }
  }

  /** As intended, `X*` accepts exactly the tags starting with `X`. */
  lemma TrailingWildcardIntended(valType: string, x: string)
    requires '*' !in x && x != ""
    ensures MatchesTypeIntended(valType, x + "*") <==> StartsWith(valType, x)
  {
    TrailingStar(x);
    if valType == x + "*" {
      assert valType[..|x|] == x;
    }
  }
}
