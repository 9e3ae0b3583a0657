/** The build pipeline combinator: processors linked into a chain by `a | b`
    and `a > b`, the chain recovered from any of its members, and a pipe that
    runs its processors over a list of data, one element at a time for ordinary
    processors and on the whole list for sockets, spreading a generator's
    results into separate elements. */
module Pipeline {

  import opened Wrappers

  newtype byte = x: int | 0 <= x < 256

  /** The Python values that flow through a pipe. `Multidata` is the list
      subclass whose items `_parse_results` spreads; `PIterable` is any other
      iterable (a tuple, a dict, a set, a range, a generator object) with the
      items iterating it yields (a dict's keys); `PObj` is any other object,
      which is not iterable. */
  datatype PyValue =
    | PNone
    | PInt(i: int)
    | PStr(s: string)
    | PBytes(b: seq<byte>)
    | PList(items: seq<PyValue>)
    | Multidata(items: seq<PyValue>)
    | PIterable(kind: string, items: seq<PyValue>)
    | PObj(id: nat)

  datatype PyError =
    | ValueError(message: string)
    | TypeError(message: string)

  /** What a processor does when called. A processor made by `Processor(foo)`,
      a `Generator` subclass and a user `Socket` subclass each carry the identity
      of their function, applied through an interpreter given as a parameter;
      `Merge` is `MergeProcessor`. */
  datatype Kind =
    | Plain(fn: nat)
    | Gen(fn: nat)
    | UserSocket(fn: nat)
    | Merge

  /** Applies a processor function, by identity, to one argument. */
  type Interp = (nat, PyValue) -> PyValue

  /** `isinstance(p, Socket)`. */
  predicate IsSocket(k: Kind) {
    k.UserSocket? || k.Merge?
  }

  /** `iter(v)` as `*v` uses it; None where the value is not iterable. */
  function Iterate(v: PyValue): Option<seq<PyValue>> {
    match v
    case PStr(s) => Some(seq(|s|, i requires 0 <= i < |s| => PStr([s[i]])))
    case PBytes(b) => Some(seq(|b|, i requires 0 <= i < |b| => PInt(b[i] as int)))
    case PList(items) => Some(items)
    case Multidata(items) => Some(items)
    case PIterable(_, items) => Some(items)
    case _ => None
  }

  predicate AllStr(data: seq<PyValue>) {
    forall i :: 0 <= i < |data| ==> data[i].PStr?
  }

  predicate AllBytes(data: seq<PyValue>) {
    forall i :: 0 <= i < |data| ==> data[i].PBytes?
  }

  /** `''.join(data)` on a list of strings. */
  function JoinStr(data: seq<PyValue>): string
    requires AllStr(data)
  {
    if data == [] then "" else JoinStr(data[..|data| - 1]) + data[|data| - 1].s
  }

  /** `b''.join(data)` on a list of byte strings. */
  function JoinBytes(data: seq<PyValue>): seq<byte>
    requires AllBytes(data)
  {
    if data == [] then [] else JoinBytes(data[..|data| - 1]) + data[|data| - 1].b
  }

  /** Joining two lists of strings in turn is joining their concatenation. */
  lemma {:induction false} JoinStrAppend(a: seq<PyValue>, b: seq<PyValue>)
    requires AllStr(a) && AllStr(b)
    ensures AllStr(a + b) && JoinStr(a + b) == JoinStr(a) + JoinStr(b)
  {
    if b == [] {
      assert a + b == a;
    } else {
      var b' := b[..|b| - 1];
      JoinStrAppend(a, b');
      assert (a + b)[..|a + b| - 1] == a + b';
    }
  }

  /** Joining two lists of byte strings in turn is joining their concatenation. */
  lemma {:induction false} JoinBytesAppend(a: seq<PyValue>, b: seq<PyValue>)
    requires AllBytes(a) && AllBytes(b)
    ensures AllBytes(a + b) && JoinBytes(a + b) == JoinBytes(a) + JoinBytes(b)
  {
    if b == [] {
      assert a + b == a;
    } else {
      var b' := b[..|b| - 1];
      JoinBytesAppend(a, b');
      assert (a + b)[..|a + b| - 1] == a + b';
    }
  }

  /** `MergeProcessor._run(data)`: None for an empty list, the concatenation when
      the first item is a string or a byte string (a join over items of another
      type raises), the list itself otherwise. */
  function MergeRun(data: seq<PyValue>): (r: Result<PyValue, PyError>)
    ensures data == [] ==> r == Success(PNone)
    ensures data != [] && !data[0].PStr? && !data[0].PBytes? ==> r == Success(PList(data))
    ensures data != [] && data[0].PStr? ==> (r.Success? <==> AllStr(data))
    ensures data != [] && data[0].PBytes? ==> (r.Success? <==> AllBytes(data))
    ensures data != [] && data[0].PStr? && AllStr(data) ==> r == Success(PStr(JoinStr(data)))
    ensures data != [] && data[0].PBytes? && AllBytes(data) ==> r == Success(PBytes(JoinBytes(data)))
  {
    if |data| == 0 then Success(PNone)
    else if data[0].PStr? then
      if AllStr(data) then Success(PStr(JoinStr(data))) else Failure(TypeError("sequence item: expected str instance"))
    else if data[0].PBytes? then
      if AllBytes(data) then Success(PBytes(JoinBytes(data))) else Failure(TypeError("sequence item: expected a bytes-like object"))
    else Success(PList(data))
  }

  /** `p(x)`: a processor made by `Processor(foo)` returns `foo(x)`; a generator
      wraps the items of its function's result in `Multidata` (raising when the
      result is not iterable); a socket is called with the whole data list. */
  function Call(k: Kind, x: PyValue, interp: Interp): Result<PyValue, PyError> {
    match k
    case Plain(f) => Success(interp(f, x))
    case UserSocket(f) => Success(interp(f, x))
    case Gen(f) =>
      (match Iterate(interp(f, x))
       case None => Failure(TypeError("argument after * must be an iterable"))
       case Some(items) => Success(Multidata(items)))
    case Merge =>
      (match x
       case PList(data) => MergeRun(data)
       case _ => Failure(TypeError("object has no len()")))
  }

  /** What `_parse_results` makes of a list of results: each `Multidata` replaced
      by its items, every other result kept, in order. */
  function Flatten(results: seq<PyValue>): seq<PyValue> {
    if results == [] then []
    else
      var last := results[|results| - 1];
      Flatten(results[..|results| - 1]) + (if last.Multidata? then last.items else [last])
  }

  /** `[p(x) for x in data]`: the first call that raises ends the comprehension. */
  function MapCall(k: Kind, data: seq<PyValue>, interp: Interp): Result<seq<PyValue>, PyError> {
    if data == [] then Success([])
    else match MapCall(k, data[..|data| - 1], interp)
      case Failure(e) => Failure(e)
      case Success(rs) =>
        match Call(k, data[|data| - 1], interp)
        case Failure(e) => Failure(e)
        case Success(r) => Success(rs + [r])
  }

  /** One iteration of `Pipe.run`'s loop. */
  function Step(k: Kind, data: seq<PyValue>, interp: Interp): Result<seq<PyValue>, PyError> {
    if IsSocket(k) then
      match Call(k, PList(data), interp)
      case Failure(e) => Failure(e)
      case Success(r) => Success(Flatten([r]))
    else
      match MapCall(k, data, interp)
      case Failure(e) => Failure(e)
      case Success(rs) => Success(Flatten(rs))
  }

  /** The data after running the processors `ks` in order, starting from `data`. */
  function RunFrom(data: seq<PyValue>, ks: seq<Kind>, interp: Interp): Result<seq<PyValue>, PyError> {
    if ks == [] then Success(data)
    else match RunFrom(data, ks[..|ks| - 1], interp)
      case Failure(e) => Failure(e)
      case Success(d) => Step(ks[|ks| - 1], d, interp)
  }

  /** `Pipe.run`'s loop starts from `[None]`. */
  function RunSpec(ks: seq<Kind>, interp: Interp): Result<seq<PyValue>, PyError> {
    RunFrom([PNone], ks, interp)
  }

  // ---------------------------------------------------------------------------
  // Properties of the data flow

  /** Flattening distributes over concatenation: `_parse_results` works element by element. */
  lemma {:induction false} FlattenAppend(a: seq<PyValue>, b: seq<PyValue>)
    ensures Flatten(a + b) == Flatten(a) + Flatten(b)
  {
    if b != [] {
      var b' := b[..|b| - 1];
      assert (a + b)[..|a + b| - 1] == a + b';
      FlattenAppend(a, b');
    } else {
      assert a + b == a;
    }
  }

  /** Results that are not `Multidata` pass through unchanged. */
  lemma {:induction false} FlattenKeepsPlain(results: seq<PyValue>)
    requires forall i :: 0 <= i < |results| ==> !results[i].Multidata?
    ensures Flatten(results) == results
  {
    if results != [] {
      FlattenKeepsPlain(results[..|results| - 1]);
    }
  }

  /** Only one level is flattened: a `Multidata` inside a `Multidata` stays one element. */
  lemma FlattenOneLevel(items: seq<PyValue>)
    ensures Flatten([Multidata(items)]) == items
    ensures Flatten([Multidata([Multidata(items)])]) == [Multidata(items)]
  {
    assert [Multidata(items)][..0] == [];
    assert [Multidata([Multidata(items)])][..0] == [];
  }

  /** An ordinary processor treats the elements independently: running it on a
      concatenation gives the concatenation of the two runs when both succeed,
      and raises when either raises. */
  lemma {:induction false} MapCallAppend(k: Kind, a: seq<PyValue>, b: seq<PyValue>, interp: Interp)
    ensures MapCall(k, a + b, interp).Success? <==> MapCall(k, a, interp).Success? && MapCall(k, b, interp).Success?
    ensures MapCall(k, a + b, interp).Success? ==>
      MapCall(k, a + b, interp).value == MapCall(k, a, interp).value + MapCall(k, b, interp).value
  {
    if b == [] {
      assert a + b == a;
    } else {
      var b' := b[..|b| - 1];
      assert (a + b)[..|a + b| - 1] == a + b';
      assert (a + b)[|a + b| - 1] == b[|b| - 1];
      MapCallAppend(k, a, b', interp);
    }
  }

  /** Hence an ordinary processor's step splits over the data. */
  lemma ElementwiseStepSplits(k: Kind, a: seq<PyValue>, b: seq<PyValue>, interp: Interp)
    requires !IsSocket(k)
    requires Step(k, a, interp).Success? && Step(k, b, interp).Success?
    ensures Step(k, a + b, interp) == Success(Step(k, a, interp).value + Step(k, b, interp).value)
  {
    MapCallAppend(k, a, b, interp);
    FlattenAppend(MapCall(k, a, interp).value, MapCall(k, b, interp).value);
  }

  /** An ordinary processor on one element calls its function once on it. */
  lemma MapCallSingle(k: Kind, x: PyValue, interp: Interp)
    ensures MapCall(k, [x], interp) == match Call(k, x, interp)
      case Failure(e) => Failure(e)
      case Success(r) => Success([r])
  {
    var one := [x];
    assert one[..0] == [] && one[0] == x;
    assert MapCall(k, one[..0], interp) == Success([]);
    match Call(k, x, interp)
    case Failure(e) =>
    case Success(r) =>
      var empty: seq<PyValue> := [];
      assert MapCall(k, one, interp) == Success(empty + [r]);
      assert empty + [r] == [r];
  }

  /** A generator's results fan out: on one element whose function returns an
      iterable, the pipe carries on with the items it yields as separate
      elements; a result that is not iterable raises. */
  lemma GeneratorFansOut(f: nat, x: PyValue, interp: Interp)
    ensures Iterate(interp(f, x)).Some? ==> Step(Gen(f), [x], interp) == Success(Iterate(interp(f, x)).value)
    ensures Iterate(interp(f, x)).None? ==> Step(Gen(f), [x], interp).Failure?
  {
    MapCallSingle(Gen(f), x, interp);
    if Iterate(interp(f, x)).Some? {
      FlattenOneLevel(Iterate(interp(f, x)).value);
    }
  }

  /** A socket is called once, with the whole list. */
  lemma SocketSeesWholeList(f: nat, data: seq<PyValue>, interp: Interp)
    ensures Step(UserSocket(f), data, interp) == Success(Flatten([interp(f, PList(data))]))
  {
  }

  /** A merge of string results leaves one element, their concatenation. */
  lemma MergeJoinsStrings(data: seq<PyValue>, interp: Interp)
    requires data != [] && AllStr(data)
    ensures Step(Merge, data, interp) == Success([PStr(JoinStr(data))])
  {
    assert data[0].PStr?;
    assert Call(Merge, PList(data), interp) == Success(PStr(JoinStr(data)));
    var one := [PStr(JoinStr(data))];
    assert one[..0] == [] && one[0] == PStr(JoinStr(data));
    assert Flatten(one) == one;
  }

  /** Running two lists of processors one after the other is running their concatenation. */
  lemma {:induction false} RunFromConcat(data: seq<PyValue>, ks1: seq<Kind>, ks2: seq<Kind>, interp: Interp)
    ensures RunFrom(data, ks1 + ks2, interp) ==
      match RunFrom(data, ks1, interp)
      case Failure(e) => Failure(e)
      case Success(d) => RunFrom(d, ks2, interp)
  {
    if ks2 == [] {
      assert ks1 + ks2 == ks1;
    } else {
      var ks2' := ks2[..|ks2| - 1];
      assert (ks1 + ks2)[..|ks1 + ks2| - 1] == ks1 + ks2';
      assert (ks1 + ks2)[|ks1 + ks2| - 1] == ks2[|ks2| - 1];
      RunFromConcat(data, ks1, ks2', interp);
    }
  }

  // ---------------------------------------------------------------------------
  // Processors and their links

  /** A `ParametrizedProcessor`: what it does, and its two links. */
  class Processor {
    const kind: Kind
    var previous: Processor?
    var next: Processor?

    constructor (kind: Kind)
      ensures this.kind == kind && previous == null && next == null
    {
      this.kind := kind;
      previous := null;
      next := null;
    }

    /** `self | other`, where a null `other` stands for a value that is not a
        processor: links `self` to `other` and returns `other`. */
    method Or(other: Processor?) returns (r: Result<Processor, PyError>)
      modifies this, other
      ensures other == null ==> r == Failure(ValueError("Can only chain processors.")) && unchanged(this)
      ensures other != null ==> r == Success(other) && next == other && other.previous == this
      ensures other != null && other != this ==> previous == old(previous) && other.next == old(other.next)
    {
      if other == null {
        return Failure(ValueError("Can only chain processors."));
      }
      next := other;
      other.previous := this;
      return Success(other);
    }

    /** `_get_chain()`: the processors before `self` back to the one without a
        `_previous`, in chain order, then `self`, then the processors after it up
        to the one without a `_next`. `back` and `fwd` are the two walks, whose
        existence is what makes the chain acyclic. */
    method GetChain(ghost back: seq<Processor>, ghost fwd: seq<Processor>) returns (chain: seq<Processor>)
      requires Walk(this, false, back) && Walk(this, true, fwd)
      ensures chain == Reverse(back) + [this] + fwd
      ensures forall i :: 0 <= i < |chain| && chain[i] == this ==> i == |back|
    {
      chain := [this];
      var previous := this.previous;
      ghost var i := 0;
      while previous != null
        invariant i <= |back| && chain == [this] + back[..i]
        invariant previous == if i < |back| then back[i] else null
        decreases |back| - i
      {
        assert back[..i + 1] == back[..i] + [back[i]];
        chain := chain + [previous];
        previous := previous.previous;
        i := i + 1;
      }
      assert back[..i] == back;
      assert ([this] + back)[1..] == back;
      chain := Reverse(chain);
      var next := this.next;
      ghost var j := 0;
      while next != null
        invariant j <= |fwd| && chain == Reverse(back) + [this] + fwd[..j]
        invariant next == if j < |fwd| then fwd[j] else null
        decreases |fwd| - j
      {
        assert fwd[..j + 1] == fwd[..j] + [fwd[j]];
        chain := chain + [next];
        next := next.next;
        j := j + 1;
      }
      assert fwd[..j] == fwd;
      WalkAvoidsStart(this, false, back);
      WalkAvoidsStart(this, true, fwd);
      ReverseMembers(back);
      assert this !in Reverse(back);
      forall i | 0 <= i < |chain| ensures chain[i] == this ==> i == |back| {
        if i < |back| {
          assert chain[i] == Reverse(back)[i];
          assert Reverse(back)[i] in Reverse(back);
        } else if i > |back| {
          assert chain[i] == fwd[i - |back| - 1];
        }
      }
    }
  }

  /** The link a walk follows: `_next` forwards, `_previous` backwards. */
  function Link(p: Processor, forward: bool): Processor?
    reads p
  {
    if forward then p.next else p.previous
  }

  /** `ws` is the whole walk from `p` along one kind of link: each processor
      links to the next one of `ws`, and the last links to nothing. */
  ghost predicate Walk(p: Processor, forward: bool, ws: seq<Processor>)
    reads p, set q | q in ws
  {
    && Link(p, forward) == (if ws == [] then null else ws[0])
    && (forall i :: 0 <= i < |ws| - 1 ==> Link(ws[i], forward) == ws[i + 1])
    && (ws != [] ==> Link(ws[|ws| - 1], forward) == null)
  }

  /** A sequence of processors each linked to the next, the last to nothing. */
  ghost predicate Chained(full: seq<Processor>, forward: bool)
    reads set q | q in full
  {
    && (forall i :: 0 <= i < |full| - 1 ==> Link(full[i], forward) == full[i + 1])
    && (full != [] ==> Link(full[|full| - 1], forward) == null)
  }

  /** Two equal positions of a chain stay equal as both move along it. */
  lemma {:induction false} ChainedShift(full: seq<Processor>, forward: bool, i: nat, j: nat, t: nat)
    requires Chained(full, forward) && i < j && j + t < |full|
    ensures full[i] == full[j] ==> full[i + t] == full[j + t]
  {
    if t > 0 {
      ChainedShift(full, forward, i, j, t - 1);
      assert Link(full[i + t - 1], forward) == full[i + t];
      assert Link(full[j + t - 1], forward) == full[j + t];
    }
  }

  /** A walk that ends never meets a processor twice. */
  lemma ChainedDistinct(full: seq<Processor>, forward: bool)
    requires Chained(full, forward)
    ensures forall i, j :: 0 <= i < j < |full| ==> full[i] != full[j]
  {
    forall i, j | 0 <= i < j < |full| ensures full[i] != full[j] {
      var t := |full| - 1 - j;
      ChainedShift(full, forward, i, j, t);
      assert Link(full[j + t], forward) == null;
      assert Link(full[i + t], forward) == full[i + t + 1];
    }
  }

  /** On an acyclic chain the walk from a processor never comes back to it. */
  lemma WalkAvoidsStart(p: Processor, forward: bool, ws: seq<Processor>)
    requires Walk(p, forward, ws)
    ensures p !in ws
  {
    var full := [p] + ws;
    assert forall i :: 0 < i < |full| ==> full[i] == ws[i - 1];
    assert Chained(full, forward);
    ChainedDistinct(full, forward);
    forall k | 0 <= k < |ws| ensures ws[k] != p {
      assert full[0] != full[k + 1];
    }
  }

  function Reverse<T>(s: seq<T>): (r: seq<T>)
    ensures |r| == |s|
  {
    if s == [] then [] else Reverse(s[1..]) + [s[0]]
  }

  lemma {:induction false} ReverseMembers<T>(s: seq<T>)
    ensures forall x :: x in Reverse(s) <==> x in s
  {
    if s != [] {
      ReverseMembers(s[1..]);
      assert s == [s[0]] + s[1..];
    }
  }

  /** The kinds of a list of processors. */
  function Kinds(ps: seq<Processor>): seq<Kind> {
    seq(|ps|, i requires 0 <= i < |ps| => ps[i].kind)
  }

  /** `self > other`, where a null `other` stands for a value that is not a
      processor: a fresh `MergeProcessor` is linked after `self` and before the
      head of `other`'s chain, and the tail of that chain is returned. `other`'s
      chain is required not to contain `self`. */
  method MergeInto(self: Processor, other: Processor?, ghost back: seq<Processor>, ghost fwd: seq<Processor>)
    returns (r: Result<Processor, PyError>)
    requires other != null ==> Walk(other, false, back) && Walk(other, true, fwd)
    requires other != null ==> self != other && self !in back && self !in fwd
    modifies self, if other == null then {} else {if back == [] then other else back[|back| - 1]}
    ensures other == null ==> r == Failure(ValueError("Can only merge into processors.")) && unchanged(self)
    ensures other != null ==>
      var head := if back == [] then other else back[|back| - 1];
      var tail := if fwd == [] then other else fwd[|fwd| - 1];
      && r == Success(tail)
      && self.next != null && fresh(self.next) && self.next.kind == Merge
      && self.next.previous == self && self.next.next == head
      && head.previous == self.next
      && self.previous == old(self.previous) && head.next == old(head.next)
  {
    if other == null {
      return Failure(ValueError("Can only merge into processors."));
    }
    var socket := new Processor(Merge);
    self.next := socket;
    socket.previous := self;
    var chain := other.GetChain(back, fwd);
    assert chain[0] == if back == [] then other else back[|back| - 1] by {
      if back != [] {
        ReverseHead(back);
      }
    }
    socket.next := chain[0];
    chain[0].previous := socket;
    return Success(chain[|chain| - 1]);
  }

  lemma ReverseHead<T>(s: seq<T>)
    requires s != []
    ensures Reverse(s)[0] == s[|s| - 1]
    decreases |s|
  {
    if |s| > 1 {
      ReverseHead(s[1..]);
    }
  }

  /** `Pipe(*processor_functions)`. */
  class Pipe {
    var processors: seq<Processor>

    constructor (processorFunctions: seq<Processor>)
      ensures processors == processorFunctions
    {
      processors := [];
      new;
      for i := 0 to |processorFunctions|
        invariant processors == processorFunctions[..i]
      {
        assert processorFunctions[..i + 1] == processorFunctions[..i] + [processorFunctions[i]];
        Chain(processorFunctions[i]);
      }
      assert processorFunctions[..|processorFunctions|] == processorFunctions;
    }

    /** `chain(p)`: appends one processor. */
    method Chain(p: Processor)
      modifies this`processors
      ensures processors == old(processors) + [p]
    {
      processors := processors + [p];
    }

    /** `_parse_results(results)`. */
    method ParseResults(results: seq<PyValue>) returns (data: seq<PyValue>)
      ensures data == Flatten(results)
    {
      data := [];
      for i := 0 to |results|
        invariant data == Flatten(results[..i])
      {
        assert results[..i + 1][..i] == results[..i];
        var res := results[i];
        if res.Multidata? {
          var before := data;
          for j := 0 to |res.items|
            invariant data == before + res.items[..j]
          {
            assert res.items[..j + 1] == res.items[..j] + [res.items[j]];
            data := data + [res.items[j]];
          }
          assert res.items[..|res.items|] == res.items;
        } else {
          data := data + [res];
        }
      }
      assert results[..|results|] == results;
    }

    /** `[p(x) for x in data]`. */
    method CallEach(k: Kind, data: seq<PyValue>, interp: Interp) returns (r: Result<seq<PyValue>, PyError>)
      ensures r == MapCall(k, data, interp)
    {
      var results := [];
      for j := 0 to |data|
        invariant MapCall(k, data[..j], interp) == Success(results)
      {
        assert data[..j + 1][..j] == data[..j];
        var c := Call(k, data[j], interp);
        if c.Failure? {
          MapCallStops(k, data, j + 1, interp);
          return Failure(c.error);
        }
        results := results + [c.value];
      }
      assert data[..|data|] == data;
      return Success(results);
    }

    /** `run()`: the data that the loop computes (the Python method then returns
        None), or the exception a processor raised. */
    method Run(interp: Interp) returns (r: Result<seq<PyValue>, PyError>)
      ensures r == RunSpec(Kinds(processors), interp)
    {
      var ks := Kinds(processors);
      var data := [PNone];
      for i := 0 to |processors|
        invariant RunFrom([PNone], ks[..i], interp) == Success(data)
      {
        assert ks[..i + 1][..i] == ks[..i];
        var k := processors[i].kind;
        assert k == ks[i];
        if IsSocket(k) {
          var c := Call(k, PList(data), interp);
          if c.Failure? {
            RunStops(ks, i + 1, interp);
            return Failure(c.error);
          }
          data := ParseResults([c.value]);
        } else {
          var rs := CallEach(k, data, interp);
          if rs.Failure? {
            RunStops(ks, i + 1, interp);
            return Failure(rs.error);
          }
          data := ParseResults(rs.value);
        }
      }
      assert ks[..|processors|] == ks;
      return Success(data);
    }
  }

  /** Once the comprehension has raised, later elements do not matter. */
  lemma {:induction false} MapCallStops(k: Kind, data: seq<PyValue>, n: nat, interp: Interp)
    requires n <= |data| && MapCall(k, data[..n], interp).Failure?
    ensures MapCall(k, data, interp) == MapCall(k, data[..n], interp)
  {
    if n < |data| {
      var d := data[..|data| - 1];
      assert d[..n] == data[..n];
      MapCallStops(k, d, n, interp);
    } else {
      assert data[..n] == data;
    }
  }

  /** Once a processor has raised, later processors do not run. */
  lemma {:induction false} RunStops(ks: seq<Kind>, n: nat, interp: Interp)
    requires n <= |ks| && RunFrom([PNone], ks[..n], interp).Failure?
    ensures RunFrom([PNone], ks, interp) == RunFrom([PNone], ks[..n], interp)
  {
    if n < |ks| {
      var k' := ks[..|ks| - 1];
      assert k'[..n] == ks[..n];
      RunStops(k', n, interp);
    } else {
      assert ks[..n] == ks;
    }
  }

  /** `p.run()`: the pipe of `p`'s whole chain is run. */
  method RunChain(p: Processor, ghost back: seq<Processor>, ghost fwd: seq<Processor>, interp: Interp)
    returns (r: Result<seq<PyValue>, PyError>)
    requires Walk(p, false, back) && Walk(p, true, fwd)
    ensures r == RunSpec(Kinds(Reverse(back) + [p] + fwd), interp)
  {
    var chain := p.GetChain(back, fwd);
    var pipe := new Pipe(chain);
    r := pipe.Run(interp);
  }
}
