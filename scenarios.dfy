/** Concrete cases: the model run on the inputs of colander's own
    examples, giving the results and messages they expect. Child nodes that
    only echo their input, or only refuse it, stand for the dummy nodes of
    those examples. */
module Scenarios {
  import opened Base
  import opened Strings
  import opened Values
  import opened Validators
  import opened Schema
  import opened Errors
  import opened Convert

  /** A type that hands its input back unchanged, both ways. */
  const Echo: Type := Custom(x => Converted(x), x => Converted(x))

  /** A type that refuses every input with `msg`, both ways. */
  function Refusing(msg: string): Type {
    Custom(x => Refused(msg), x => Refused(msg))
  }

  function Leaf(typ: Type, name: string, default: Option<Value>): Node {
    Node(typ, name, "", "", default, None, [], 0)
  }

  function Parent(typ: Type, name: string, children: seq<Node>): Node {
    Node(typ, name, "", "", None, None, children, 0)
  }

  /** A node of type `Echo` without a validator hands its input back. */
  lemma EchoRuns(n: Node, v: Value, mode: Mode)
    requires WellFormed(n) && n.typ == Echo && n.validator.None?
    ensures Run(n, v, mode) == Ok(v)
  {
    assert TypeRun(n, v, mode) == Ok(v);
  }

  /** A node of a refusing type without a validator raises its message. */
  lemma RefusingRuns(n: Node, msg: string, v: Value, mode: Mode)
    requires WellFormed(n) && n.typ == Refusing(msg) && n.validator.None?
    ensures Run(n, v, mode) == Err(NewInvalid(n, Text(msg)))
  {
    assert TypeRun(n, v, mode) == Err(NewInvalid(n, Text(msg)));
  }

  lemma NamesOfOne(n: Node)
    requires |n.children| == 1
    ensures ChildNames(n) == {n.children[0].name}
  {
    assert n.children[0].name in ChildNames(n);
  }

  lemma NamesOfTwo(n: Node)
    requires |n.children| == 2
    ensures ChildNames(n) == {n.children[0].name, n.children[1].name}
  {
    assert n.children[0].name in ChildNames(n);
    assert n.children[1].name in ChildNames(n);
  }

  // Mapping

  lemma MappingEmpty()
    ensures Deserialize(Parent(Mapping(Ignore, false), "", []), VMap(map[])) == Ok(VMap(map[]))
    ensures Serialize(Parent(Mapping(Ignore, false), "", []), VMap(map[])) == Ok(VMap(map[]))
  {
    var n := Parent(Mapping(Ignore, false), "", []);
    assert Leftover(n, map[]) == map[];
    assert TypeRun(n, VMap(map[]), Deserializing(false)) == Ok(VMap(map[]));
    assert TypeRun(n, VMap(map[]), Serializing) == Ok(VMap(map[]));
  }

  lemma MappingOk()
    ensures Deserialize(Parent(Mapping(Ignore, false), "", [Leaf(Echo, "a", None)]), VMap(map["a" := VInt(1)]))
            == Ok(VMap(map["a" := VInt(1)]))
  {
    var n := Parent(Mapping(Ignore, false), "", [Leaf(Echo, "a", None)]);
    var m := map["a" := VInt(1)];
    var mode := Deserializing(false);
    EchoRuns(n.children[0], VInt(1), mode);
    assert SlotAt(n, m, false, mode, 0) == Filled(VInt(1));
    assert MappingFold(n, m, false, mode, 1) == (map["a" := VInt(1)], []);
    NamesOfOne(n);
    assert Leftover(n, m) == map[];
    assert TypeRun(n, VMap(m), mode) == Ok(VMap(m));
  }

  /** `b` is the one key no child of `a` claims. */
  lemma LeftoverB(n: Node)
    requires n == Parent(Mapping(Raise, false), "", [Leaf(Echo, "a", None)])
    ensures Leftover(n, map["a" := VInt(1), "b" := VInt(2)]) == map["b" := VInt(2)]
  {
    NamesOfOne(n);
  }

  /** The leftover mapping renders as `{'b': 2}`. */
  lemma ShowB()
    ensures Show(VMap(map["b" := VInt(2)])) == "{'b': 2}"
  {
    var leftover := map["b" := VInt(2)];
    var keys := SortedKeys(leftover.Keys);
    assert keys == ["b"] by {
      assert |keys| == 1 && "b" in keys;
    }
    assert ShowEntries(VMap(leftover), ["b"]) == "'b': 2";
  }

  /** The message is `UnrecognizedKeys`, "Unrecognized keys in mapping: ",
      followed by the leftover mapping. */
  lemma MappingUnknownRaise()
    ensures var n := Parent(Mapping(Raise, false), "", [Leaf(Echo, "a", None)]);
            Deserialize(n, VMap(map["a" := VInt(1), "b" := VInt(2)]))
            == Err(NewInvalid(n, Text(UnrecognizedKeys + "{'b': 2}")))
  {
    var n := Parent(Mapping(Raise, false), "", [Leaf(Echo, "a", None)]);
    var m := map["a" := VInt(1), "b" := VInt(2)];
    var mode := Deserializing(false);
    LeftoverB(n);
    ShowB();
    assert "b" in Leftover(n, m);
    assert MappingRun(n, VMap(m), Raise, false, mode) == Err(NewInvalid(n, Text(UnrecognizedKeys + "{'b': 2}")));
    assert TypeRun(n, VMap(m), mode) == MappingRun(n, VMap(m), Raise, false, mode);
  }

  lemma MappingUnknownPreserve()
    ensures Deserialize(Parent(Mapping(Preserve, false), "", [Leaf(Echo, "a", None)]),
                        VMap(map["a" := VInt(1), "b" := VInt(2)]))
            == Ok(VMap(map["a" := VInt(1), "b" := VInt(2)]))
  {
    var n := Parent(Mapping(Preserve, false), "", [Leaf(Echo, "a", None)]);
    var m := map["a" := VInt(1), "b" := VInt(2)];
    var mode := Deserializing(false);
    EchoRuns(n.children[0], VInt(1), mode);
    assert SlotAt(n, m, false, mode, 0) == Filled(VInt(1));
    assert MappingFold(n, m, false, mode, 1) == (map["a" := VInt(1)], []);
    NamesOfOne(n);
    assert Leftover(n, m) == map["b" := VInt(2)];
    assert map["a" := VInt(1)] + map["b" := VInt(2)] == m;
    assert TypeRun(n, VMap(m), mode) == Ok(VMap(m));
  }

  lemma MappingChildrenFail()
    ensures var e := Deserialize(Parent(Mapping(Ignore, false), "", [Leaf(Refusing("Wrong 2"), "a", None),
                                                                     Leaf(Refusing("Wrong 2"), "b", None)]),
                                 VMap(map["a" := VInt(1), "b" := VInt(2)]));
            e.Err? && e.error.msg == NoMsg && |e.error.children| == 2
  {
  }

  /** Two echoing children `a` and `b`, the second with `bDefault`. */
  function PairMapping(partial: bool, bDefault: Option<Value>): Node {
    Parent(Mapping(Ignore, partial), "", [Leaf(Echo, "a", None), Leaf(Echo, "b", bDefault)])
  }

  lemma MappingMissingDefault()
    ensures Deserialize(PairMapping(false, Some(VStr("abc"))), VMap(map["a" := VInt(1)]))
            == Ok(VMap(map["a" := VInt(1), "b" := VStr("abc")]))
    ensures Serialize(PairMapping(false, Some(VStr("abc"))), VMap(map["a" := VInt(1)]))
            == Ok(VMap(map["a" := VInt(1), "b" := VStr("abc")]))
  {
    var n := PairMapping(false, Some(VStr("abc")));
    var m := map["a" := VInt(1)];
    NamesOfTwo(n);
    assert Leftover(n, m) == map[];
    var result := map["a" := VInt(1), "b" := VStr("abc")];
    var mode := Deserializing(false);
    EchoRuns(n.children[0], VInt(1), mode);
    assert SlotAt(n, m, false, mode, 0) == Filled(VInt(1));
    assert SlotAt(n, m, false, mode, 1) == Filled(VStr("abc"));
    assert MappingFold(n, m, false, mode, 1) == (map["a" := VInt(1)], []);
    assert MappingFold(n, m, false, mode, 2) == (result, []);
    assert TypeRun(n, VMap(m), mode) == Ok(VMap(result));
    EchoRuns(n.children[0], VInt(1), Serializing);
    assert SlotAt(n, m, false, Serializing, 0) == Filled(VInt(1));
    assert SlotAt(n, m, false, Serializing, 1) == Filled(VStr("abc"));
    assert MappingFold(n, m, false, Serializing, 1) == (map["a" := VInt(1)], []);
    assert MappingFold(n, m, false, Serializing, 2) == (result, []);
    assert TypeRun(n, VMap(m), Serializing) == Ok(VMap(result));
  }

  /** The child `b` of `PairMapping(false, None)`, reported missing. */
  function MissingB(): Invalid {
    Invalid(PairMapping(false, None).children[1], Text("\"b\" is required but missing"), Some(1), [])
  }

  lemma MissingRequiredFold()
    ensures var n := PairMapping(false, None);
            MappingFold(n, map["a" := VInt(1)], false, Deserializing(false), 2) == (map["a" := VInt(1)], [MissingB()])
  {
    var n := PairMapping(false, None);
    var m := map["a" := VInt(1)];
    var mode := Deserializing(false);
    EchoRuns(n.children[0], VInt(1), mode);
    assert SlotAt(n, m, false, mode, 0) == Filled(VInt(1));
    assert MissingMessage("b") == "\"b\" is required but missing";
    assert ChildSlot(n.children[1], 1, m, false, mode) == Failed(MissingB());
    assert SlotAt(n, m, false, mode, 1) == Failed(MissingB());
    assert MappingFold(n, m, false, mode, 0) == (map[], []);
    assert map[]["a" := VInt(1)] == m;
    assert MappingFold(n, m, false, mode, 1) == (m, []);
    assert MappingFold(n, m, false, mode, 2) == (m, [] + [MissingB()]);
    assert [] + [MissingB()] == [MissingB()];
  }

  lemma MappingMissingRequired()
    ensures var n := PairMapping(false, None);
            Deserialize(n, VMap(map["a" := VInt(1)])) ==
            Err(Invalid(n, NoMsg, None, [Invalid(n.children[1], Text("\"b\" is required but missing"), Some(1), [])]))
  {
    var n := PairMapping(false, None);
    var m := map["a" := VInt(1)];
    var mode := Deserializing(false);
    NamesOfTwo(n);
    assert Leftover(n, m) == map[];
    MissingRequiredFold();
    assert MappingRun(n, VMap(m), Ignore, false, mode) == Err(Invalid(n, NoMsg, None, [MissingB()]));
    assert TypeRun(n, VMap(m), mode) == MappingRun(n, VMap(m), Ignore, false, mode);
  }

  lemma MappingPartial()
    ensures Deserialize(PairMapping(true, None), VMap(map["a" := VInt(1)])) == Ok(VMap(map["a" := VInt(1)]))
    ensures Serialize(PairMapping(false, None), VMap(map["a" := VInt(1)])) == Ok(VMap(map["a" := VInt(1)]))
  {
    var m := map["a" := VInt(1)];
    var n := PairMapping(true, None);
    var mode := Deserializing(false);
    NamesOfTwo(n);
    assert Leftover(n, m) == map[];
    EchoRuns(n.children[0], VInt(1), mode);
    assert SlotAt(n, m, true, mode, 0) == Filled(VInt(1));
    assert SlotAt(n, m, true, mode, 1) == Omitted;
    assert MappingFold(n, m, true, mode, 1) == (m, []);
    assert MappingFold(n, m, true, mode, 2) == (m, []);
    assert TypeRun(n, VMap(m), mode) == Ok(VMap(m));
    var s := PairMapping(false, None);
    NamesOfTwo(s);
    assert Leftover(s, m) == map[];
    EchoRuns(s.children[0], VInt(1), Serializing);
    assert SlotAt(s, m, false, Serializing, 0) == Filled(VInt(1));
    assert SlotAt(s, m, false, Serializing, 1) == Omitted;
    assert MappingFold(s, m, false, Serializing, 1) == (m, []);
    assert MappingFold(s, m, false, Serializing, 2) == (m, []);
    assert TypeRun(s, VMap(m), Serializing) == Ok(VMap(m));
  }

  lemma MappingSerializeUnknown()
    ensures Serialize(Parent(Mapping(Ignore, false), "", [Leaf(Echo, "a", None)]),
                      VMap(map["a" := VInt(1), "b" := VInt(2)]))
            == Ok(VMap(map["a" := VInt(1)]))
  {
    var n := Parent(Mapping(Ignore, false), "", [Leaf(Echo, "a", None)]);
    var m := map["a" := VInt(1), "b" := VInt(2)];
    EchoRuns(n.children[0], VInt(1), Serializing);
    assert SlotAt(n, m, false, Serializing, 0) == Filled(VInt(1));
    assert MappingFold(n, m, false, Serializing, 1) == (map["a" := VInt(1)], []);
    assert TypeRun(n, VMap(m), Serializing) == Ok(VMap(map["a" := VInt(1)]));
  }

  lemma NotAMappingMessage()
    ensures Serialize(Parent(Mapping(Ignore, false), "", []), VNone).error.msg == Text("None is not a mapping type")
    ensures Deserialize(Parent(Mapping(Ignore, false), "", []), VNone).error.msg == Text("None is not a mapping type")
  {
    var n := Parent(Mapping(Ignore, false), "", []);
    var msg := "None is not a mapping type";
    assert Show(VNone) + NotAMapping == msg;
    assert MappingRun(n, VNone, Ignore, false, Serializing) == Err(NewInvalid(n, Text(msg)));
    assert MappingRun(n, VNone, Ignore, false, Deserializing(false)) == Err(NewInvalid(n, Text(msg)));
    assert TypeRun(n, VNone, Serializing) == MappingRun(n, VNone, Ignore, false, Serializing);
    assert TypeRun(n, VNone, Deserializing(false)) == MappingRun(n, VNone, Ignore, false, Deserializing(false));
  }

  // Tuple and Sequence

  /** Elements converted by echoing children come back unchanged, with no
      error. */
  lemma {:induction false} EchoFold(n: Node, xs: seq<Value>, mode: Mode, k: nat)
    requires WellFormed(n) && Positional(n.typ) && k <= |xs|
    requires n.typ.Tuple? ==> |xs| == |n.children|
    requires forall j :: 0 <= j < |n.children| ==> n.children[j].typ == Echo && n.children[j].validator.None?
    ensures ElementsFold(n, xs, mode, k) == (xs[..k], [])
    decreases k
  {
    if k > 0 {
      EchoFold(n, xs, mode, k - 1);
      EchoRuns(n.children[ElementIndex(n, k - 1)], xs[k - 1], mode);
      assert xs[..k] == xs[..k - 1] + [xs[k - 1]];
    }
  }

  lemma TupleNotIterable()
    ensures var n := Parent(Tuple, "", []);
            Deserialize(n, VNone) == Err(Invalid(n, Text("None is not iterable"), None, []))
  {
    var n := Parent(Tuple, "", []);
    var mode := Deserializing(false);
    assert Show(VNone) + NotIterable == "None is not iterable";
    assert ElementsRun(n, VNone, mode) == Err(NewInvalid(n, Text("None is not iterable")));
    assert TypeRun(n, VNone, mode) == ElementsRun(n, VNone, mode);
  }

  lemma TupleEchoes(mode: Mode)
    ensures Run(Parent(Tuple, "", []), VTuple([]), mode) == Ok(VTuple([]))
    ensures Run(Parent(Tuple, "", [Leaf(Echo, "a", None)]), VTuple([VStr("a")]), mode) == Ok(VTuple([VStr("a")]))
  {
    var e := Parent(Tuple, "", []);
    assert ElementsFold(e, [], mode, 0) == ([], []);
    assert TypeRun(e, VTuple([]), mode) == ElementsRun(e, VTuple([]), mode);
    var n := Parent(Tuple, "", [Leaf(Echo, "a", None)]);
    var xs := [VStr("a")];
    EchoFold(n, xs, mode, 1);
    assert xs[..1] == xs;
    assert TypeRun(n, VTuple(xs), mode) == ElementsRun(n, VTuple(xs), mode);
  }

  lemma SmallNumbers()
    ensures NatToString(0) == "0" && NatToString(1) == "1" && NatToString(2) == "2"
    ensures IntToString(0) == "0" && IntToString(1) == "1" && IntToString(2) == "2"
  {
    assert DigitChar(0) == '0' && DigitChar(1) == '1' && DigitChar(2) == '2';
  }

  /** A one-child tuple given two elements, and given none: the arity
      message on the tuple's own node. */
  lemma TupleArity()
    ensures Deserialize(Parent(Tuple, "", [Leaf(Echo, "a", None)]), VTuple([VStr("a"), VStr("b")]))
            == Err(NewInvalid(Parent(Tuple, "", [Leaf(Echo, "a", None)]),
                              Text("('a', 'b')" + " has an incorrect number of elements (expected " + "1" + ", was " + "2" + ")")))
    ensures Deserialize(Parent(Tuple, "", [Leaf(Echo, "a", None)]), VTuple([]))
            == Err(NewInvalid(Parent(Tuple, "", [Leaf(Echo, "a", None)]),
                              Text("()" + " has an incorrect number of elements (expected " + "1" + ", was " + "0" + ")")))
    ensures Serialize(Parent(Tuple, "", [Leaf(Echo, "a", None)]), VTuple([VStr("a"), VStr("b")]))
            == Err(NewInvalid(Parent(Tuple, "", [Leaf(Echo, "a", None)]),
                              Text("('a', 'b')" + " has an incorrect number of elements (expected " + "1" + ", was " + "2" + ")")))
    ensures Serialize(Parent(Tuple, "", [Leaf(Echo, "a", None)]), VTuple([]))
            == Err(NewInvalid(Parent(Tuple, "", [Leaf(Echo, "a", None)]),
                              Text("()" + " has an incorrect number of elements (expected " + "1" + ", was " + "0" + ")")))
  {
    var n := Parent(Tuple, "", [Leaf(Echo, "a", None)]);
    SmallNumbers();
    var ab := VTuple([VStr("a"), VStr("b")]);
    assert [VStr("a"), VStr("b")][1..] == [VStr("b")];
    assert ShowItems([VStr("a"), VStr("b")]) == "'a', 'b'";
    assert Show(ab) == "('a', 'b')";
    assert TypeRun(n, ab, Deserializing(false)) == ElementsRun(n, ab, Deserializing(false));
    assert Show(VTuple([])) == "()";
    assert TypeRun(n, VTuple([]), Serializing) == ElementsRun(n, VTuple([]), Serializing);
    assert TypeRun(n, ab, Serializing) == ElementsRun(n, ab, Serializing);
    assert TypeRun(n, VTuple([]), Deserializing(false)) == ElementsRun(n, VTuple([]), Deserializing(false));
  }

  /** Two refusing children `a` and `b`, as a tuple. */
  function RefusingPair(): Node {
    Parent(Tuple, "", [Leaf(Refusing("Wrong 2"), "a", None), Leaf(Refusing("Wrong 2"), "b", None)])
  }

  lemma TupleChildrenFail()
    ensures var n := RefusingPair();
            Deserialize(n, VTuple([VStr("1"), VStr("2")])) ==
            Err(Invalid(n, NoMsg, None, [Invalid(n.children[0], Text("Wrong 2"), Some(0), []),
                                         Invalid(n.children[1], Text("Wrong 2"), Some(1), [])]))
  {
    var n := RefusingPair();
    var xs := [VStr("1"), VStr("2")];
    var mode := Deserializing(false);
    var e0 := Invalid(n.children[0], Text("Wrong 2"), Some(0), []);
    var e1 := Invalid(n.children[1], Text("Wrong 2"), Some(1), []);
    RefusingRuns(n.children[0], "Wrong 2", xs[0], mode);
    RefusingRuns(n.children[1], "Wrong 2", xs[1], mode);
    assert ElementRun(n, xs, mode, 0) == Err(NewInvalid(n.children[0], Text("Wrong 2")));
    assert ElementRun(n, xs, mode, 1) == Err(NewInvalid(n.children[1], Text("Wrong 2")));
    assert ElementsFold(n, xs, mode, 0) == ([], []);
    assert [] + [e0] == [e0] && [e0] + [e1] == [e0, e1];
    assert ElementsFold(n, xs, mode, 1) == ([], [e0]);
    assert ElementsFold(n, xs, mode, 2) == ([], [e0, e1]);
    assert TypeRun(n, VTuple(xs), mode) == ElementsRun(n, VTuple(xs), mode);
  }

  /** A sequence of echoing elements, accepting scalars or not. */
  function EchoSequence(acceptScalar: bool): Node {
    Parent(Sequence(acceptScalar), "", [Leaf(Echo, "", None)])
  }

  lemma SequenceNotIterable()
    ensures Deserialize(EchoSequence(false), VNone) == Err(Invalid(EchoSequence(false), Text("None is not iterable"), None, []))
  {
    var n := EchoSequence(false);
    var mode := Deserializing(false);
    assert Show(VNone) + NotIterable == "None is not iterable";
    assert ElementsRun(n, VNone, mode) == Err(NewInvalid(n, Text("None is not iterable")));
    assert TypeRun(n, VNone, mode) == ElementsRun(n, VNone, mode);
  }

  lemma SequenceScalar(mode: Mode)
    ensures Run(EchoSequence(true), VNone, mode) == Ok(VList([VNone]))
  {
    var n := EchoSequence(true);
    EchoFold(n, [VNone], mode, 1);
    assert [VNone][..1] == [VNone];
    assert TypeRun(n, VNone, mode) == ElementsRun(n, VNone, mode);
  }

  lemma SequenceEchoes()
    ensures Deserialize(EchoSequence(false), VTuple([])) == Ok(VList([]))
    ensures Deserialize(EchoSequence(false), VTuple([VStr("a")])) == Ok(VList([VStr("a")]))
  {
    var n := EchoSequence(false);
    var mode := Deserializing(false);
    assert ElementsFold(n, [], mode, 0) == ([], []);
    assert TypeRun(n, VTuple([]), mode) == ElementsRun(n, VTuple([]), mode);
    var xs := [VStr("a")];
    EchoFold(n, xs, mode, 1);
    assert xs[..1] == xs;
    assert TypeRun(n, VTuple(xs), mode) == ElementsRun(n, VTuple(xs), mode);
  }

  lemma SequenceChildrenFail()
    ensures var n := Parent(Sequence(false), "", [Leaf(Refusing("Wrong"), "", None)]);
            Deserialize(n, VTuple([VStr("1"), VStr("2")])) ==
            Err(Invalid(n, NoMsg, None, [Invalid(n.children[0], Text("Wrong"), Some(0), []),
                                         Invalid(n.children[0], Text("Wrong"), Some(1), [])]))
  {
    var n := Parent(Sequence(false), "", [Leaf(Refusing("Wrong"), "", None)]);
    var xs := [VStr("1"), VStr("2")];
    var mode := Deserializing(false);
    var e0 := Invalid(n.children[0], Text("Wrong"), Some(0), []);
    var e1 := Invalid(n.children[0], Text("Wrong"), Some(1), []);
    RefusingRuns(n.children[0], "Wrong", xs[0], mode);
    RefusingRuns(n.children[0], "Wrong", xs[1], mode);
    assert ElementRun(n, xs, mode, 0) == Err(NewInvalid(n.children[0], Text("Wrong")));
    assert ElementRun(n, xs, mode, 1) == Err(NewInvalid(n.children[0], Text("Wrong")));
    assert ElementsFold(n, xs, mode, 0) == ([], []);
    assert [] + [e0] == [e0] && [e0] + [e1] == [e0, e1];
    assert ElementsFold(n, xs, mode, 1) == ([], [e0]);
    assert ElementsFold(n, xs, mode, 2) == ([], [e0, e1]);
    assert TypeRun(n, VTuple(xs), mode) == ElementsRun(n, VTuple(xs), mode);
  }

  // Leaf converters

  lemma IntegerCases()
    ensures Deserialize(Leaf(Integer, "", None), VStr("")).error.msg == Text("Required")
    ensures Deserialize(Leaf(Integer, "", Some(VStr("default"))), VStr("")) == Ok(VStr("default"))
    ensures Deserialize(Leaf(Integer, "", None), VStr("P")).error.msg == Text("\"P\" is not a number")
    ensures Deserialize(Leaf(Integer, "", None), VStr("1")) == Ok(VInt(1))
    ensures Serialize(Leaf(Integer, "", None), VStr("P")).Err?
    ensures Serialize(Leaf(Integer, "", None), VInt(1)) == Ok(VStr("1"))
  {
    var n := Leaf(Integer, "", None);
    var d := Leaf(Integer, "", Some(VStr("default")));
    SmallNumbers();
    IntRoundTrip(1);
    ParseIntRefusesNonDigits("P");
    assert ToInt(VStr("1")) == Some(1) && ToInt(VStr("P")).None? && ToInt(VInt(1)) == Some(1);
    assert NotANumber(VStr("P")) == "\"P\" is not a number";
    assert TypeRun(n, VStr(""), Deserializing(false)) == IntegerDeserialize(n, VStr(""));
    assert TypeRun(d, VStr(""), Deserializing(false)) == IntegerDeserialize(d, VStr(""));
    assert TypeRun(n, VStr("P"), Deserializing(false)) == IntegerDeserialize(n, VStr("P"));
    assert TypeRun(n, VStr("1"), Deserializing(false)) == IntegerDeserialize(n, VStr("1"));
    assert TypeRun(n, VStr("P"), Serializing) == IntegerSerialize(n, VStr("P"));
    assert TypeRun(n, VInt(1), Serializing) == IntegerSerialize(n, VInt(1));
  }

  lemma BooleanCases()
    ensures Deserialize(Leaf(Boolean, "", None), VStr("")).error.msg == Text("Required")
    ensures Deserialize(Leaf(Boolean, "", Some(VStr("default"))), VStr("")) == Ok(VBool(true))
    ensures Deserialize(Leaf(Boolean, "", None), VStr("false")) == Ok(VBool(false))
    ensures Deserialize(Leaf(Boolean, "", None), VStr("FALSE")) == Ok(VBool(false))
    ensures Deserialize(Leaf(Boolean, "", None), VStr("0")) == Ok(VBool(false))
    ensures Deserialize(Leaf(Boolean, "", None), VStr("true")) == Ok(VBool(true))
    ensures Deserialize(Leaf(Boolean, "", None), VStr("other")) == Ok(VBool(true))
    ensures Serialize(Leaf(Boolean, "", None), VInt(1)) == Ok(VStr("true"))
    ensures Serialize(Leaf(Boolean, "", None), VBool(true)) == Ok(VStr("true"))
    ensures Serialize(Leaf(Boolean, "", None), VNone) == Ok(VStr("false"))
    ensures Serialize(Leaf(Boolean, "", None), VBool(false)) == Ok(VStr("false"))
  {
    assert Lower("FALSE") == "false";
    assert Lower("default")[0] == 'd';
    assert Lower("true")[0] == 't';
    assert Lower("other")[0] == 'o';
  }

  // Validators

  /** `Range` below its minimum, above its maximum, and at a bound. */
  lemma RangeCases()
    ensures Check(Range(Some(1), None), VInt(0)) == Fail(Text("0" + " is less than minimum value " + "1"))
    ensures Check(Range(None, Some(1)), VInt(2)) == Fail(Text("2" + " is greater than maximum value " + "1"))
    ensures Check(Range(Some(1), Some(1)), VInt(1)) == Pass
  {
    RangeInclusive(Some(1), None, 0);
    RangeInclusive(None, Some(1), 2);
    SmallNumbers();
  }

  lemma LengthCases()
    ensures Check(Length(Some(1), None), VStr("")) == Fail(Text("Shorter than minimum length 1"))
    ensures Check(Length(None, Some(1)), VStr("ab")) == Fail(Text("Longer than maximum length 1"))
    ensures Check(Length(Some(1), Some(1)), VStr("a")) == Pass
  {
    SmallNumbers();
  }

  lemma OneOfCases()
    ensures Check(OneOf([VInt(1), VInt(2)]), VNone) == Fail(Text("\"" + "None" + "\" is not one of " + "1, 2"))
    ensures Check(OneOf([VInt(1)]), VInt(1)) == Pass
  {
    SmallNumbers();
    assert StrAll([VInt(1), VInt(2)]) == ["1", "2"];
    assert Join(", ", ["1", "2"]) == "1, 2" by {
      assert ["1", "2"][1..] == ["2"];
    }
    assert Str(VNone) == "None";
  }

  lemma CombinatorCases()
    ensures Check(All([FunctionOf(x => Reason("msg1")), FunctionOf(x => Reason("msg2"))]), VNone)
            == Fail(Texts(["msg1", "msg2"]))
    ensures Check(All([FunctionOf(x => Verdict(true)), FunctionOf(x => Verdict(true))]), VNone) == Pass
    ensures Check(FunctionOf(x => Verdict(true)), VNone) == Pass
    ensures Check(FunctionOf(x => Reason("")), VNone) == Fail(Text("Invalid value"))
    ensures Check(FunctionOf(x => Verdict(false)), VNone) == Fail(Text("Invalid value"))
    ensures Check(FunctionOf(x => Reason("fail")), VNone) == Fail(Text("fail"))
  {
  }

  // SchemaNode

  lemma NodeCases()
    ensures MakeNode(Echo, [], "name", None, "", Some(VInt(2)), None, 0).0.title == "Name"
    ensures MakeNode(Echo, [], "name", Some("title"), "desc", Some(VInt(2)), None, 0).0.title == "title"
    ensures Required(Leaf(Echo, "", None)) && !Required(Leaf(Echo, "", Some(VInt(1))))
    ensures SDefault(Leaf(Echo, "", None)) == None
    ensures SDefault(Leaf(Echo, "", Some(VInt(1)))) == Some(Ok(VInt(1)))
    ensures Deserialize(Leaf(Echo, "", None), VInt(1)) == Ok(VInt(1))
    ensures Serialize(Leaf(Echo, "", None), VInt(1)) == Ok(VInt(1))
    ensures Deserialize(Node(Echo, "", "", "", None, Some(FunctionOf(x => Reason("Wrong"))), [], 0), VInt(1)).error.msg
            == Text("Wrong")
  {
  }

  // Invalid

  /** The tree of the error examples: `exc1` holds `exc2` (which holds
      `exc3`) and then `exc4`; the first node is a mapping-like node, the
      others positional. */
  function Exc3(): Invalid {
    Invalid(Leaf(Tuple, "node3", None), Text("exc3"), Some(3), [])
  }

  function Exc2(): Invalid {
    Errors.Add(Invalid(Leaf(Tuple, "node2", None), Text("exc2"), Some(2), []), Exc3())
  }

  function Exc4(): Invalid {
    Invalid(Leaf(Tuple, "node4", None), Text("exc4"), Some(4), [])
  }

  function ExcTree(): Invalid {
    Errors.Add(Errors.Add(Invalid(Leaf(Echo, "node1", None), Text("exc1"), Some(1), []), Exc2()), Exc4())
  }

  lemma ExcPaths()
    ensures Paths(ExcTree()) == [[ExcTree(), Exc2(), Exc3()], [ExcTree(), Exc4()]]
  {
    var e1, e2, e3, e4 := ExcTree(), Exc2(), Exc3(), Exc4();
    assert e1.children == [e2, e4] && e2.children == [e3];
    assert Paths(e3) == [[e3]] && Paths(e4) == [[e4]];
    assert PathsOfAll([e3]) == [[e3]];
    assert Prefixed(e2, [[e3]])[0] == [e2, e3];
    assert Paths(e2) == [[e2, e3]];
    assert [e2, e4][1..] == [e4];
    assert PathsOfAll([e4]) == [[e4]];
    assert PathsOfAll(e1.children) == [[e2, e3], [e4]];
    var ps := Prefixed(e1, [[e2, e3], [e4]]);
    assert ps[0] == [e1, e2, e3] && ps[1] == [e1, e4];
  }

  /** The chain exc1, exc2, exc3: exc3 is keyed by its position under the
      positional exc2. */
  lemma ExcDeepKey()
    ensures PathKey([ExcTree(), Exc2(), Exc3()]) == "node1.node2.3"
  {
    var e1, e2, e3 := ExcTree(), Exc2(), Exc3();
    var p := [e1, e2, e3];
    assert NatToString(3) == "3" by {
      assert DigitChar(3) == '3';
    }
    assert p[1..] == [e2, e3] && p[1..][1..] == [e3];
    assert KeyParts([e3], true) == ["3"];
    assert KeyParts([e2, e3], false) == ["node2", "3"];
    assert KeyParts(p, false) == ["node1", "node2", "3"];
    assert ["node1", "node2", "3"][1..] == ["node2", "3"] && ["node2", "3"][1..] == ["3"];
  }

  lemma ExcDeepMessage()
    ensures PathMessage([ExcTree(), Exc2(), Exc3()]) == "exc1; exc2; exc3"
  {
    var e1, e2, e3 := ExcTree(), Exc2(), Exc3();
    var p := [e1, e2, e3];
    assert p[1..] == [e2, e3] && p[1..][1..] == [e3];
    assert Parts(e1.msg) == ["exc1"] && Parts(e2.msg) == ["exc2"] && Parts(e3.msg) == ["exc3"];
    assert MessageParts([e3]) == ["exc3"];
    assert MessageParts([e2, e3]) == ["exc2", "exc3"];
    assert MessageParts(p) == ["exc1", "exc2", "exc3"];
    assert ["exc1", "exc2", "exc3"][1..] == ["exc2", "exc3"] && ["exc2", "exc3"][1..] == ["exc3"];
    assert Join("; ", ["exc2", "exc3"]) == "exc2" + "; " + "exc3";
    assert Join("; ", ["exc1", "exc2", "exc3"]) == "exc1" + "; " + ("exc2" + "; " + "exc3");
  }

  /** The chain exc1, exc4. */
  lemma ExcShallowEntry()
    ensures PathKey([ExcTree(), Exc4()]) == "node1.node4"
    ensures PathMessage([ExcTree(), Exc4()]) == "exc1; exc4"
  {
    var e1, e4 := ExcTree(), Exc4();
    var q := [e1, e4];
    assert q[1..] == [e4];
    assert KeyParts([e4], false) == ["node4"];
    assert KeyParts(q, false) == ["node1", "node4"];
    assert ["node1", "node4"][1..] == ["node4"];
    assert MessageParts([e4]) == ["exc4"];
    assert MessageParts(q) == ["exc1", "exc4"];
    assert ["exc1", "exc4"][1..] == ["exc4"];
  }

  lemma ExcAsDict()
    ensures AsDict(ExcTree()) == map["node1.node2.3" := "exc1; exc2; exc3", "node1.node4" := "exc1; exc4"]
  {
    var p, q := [ExcTree(), Exc2(), Exc3()], [ExcTree(), Exc4()];
    ExcPaths();
    ExcDeepKey();
    ExcDeepMessage();
    ExcShallowEntry();
    var none: seq<seq<Invalid>> := [];
    assert [p, q][..1] == [p] && [p][..0] == none;
    assert Table([p]) == map["node1.node2.3" := "exc1; exc2; exc3"];
  }

  lemma KeyNames()
    ensures KeyName(Invalid(Leaf(Echo, "name", None), Text(""), None, []), false) == "name"
    ensures KeyName(Invalid(Leaf(Echo, "name", None), Text(""), Some(2), []), true) == "2"
    ensures KeyName(Invalid(Leaf(Echo, "name", None), Text("me"), Some(2), []), false) == "name"
  {
    SmallNumbers();
  }

  lemma SetItemCases()
    ensures SetItem(NewInvalid(Leaf(Echo, "", None), Text("msg")), "notfound", "msg").None?
    ensures var node := Parent(Echo, "", [Leaf(Echo, "found", None)]);
            SetItem(NewInvalid(node, Text("msg")), "found", "msg2")
            == Some(Invalid(node, Text("msg"), None, [Invalid(node.children[0], Text("msg2"), Some(0), [])]))
  {
    var node := Parent(Echo, "", [Leaf(Echo, "found", None)]);
    assert IndexOf(node.children, "found") == Some(0);
  }

  // A whole schema: the error table of a failed deserialization

  /** An integer that must lie in 0..10. */
  function IntNode(): Node {
    Node(Integer, "int", "", "", None, Some(Range(Some(0), Some(10))), [], 0)
  }

  /** A pair of an integer and an echoed value. */
  function TupNode(): Node {
    Parent(Tuple, "tup", [Leaf(Integer, "tupint", None), Leaf(Echo, "tupstring", None)])
  }

  function FormNode(): Node {
    Parent(Mapping(Ignore, false), "", [IntNode(), TupNode()])
  }

  function FormData(): map<string, Value> {
    map["int" := VStr("20"), "tup" := VTuple([VStr("s"), VStr("s")])]
  }

  const TooBig := "20" + " is greater than maximum value " + "10"
  const NotNumber := "\"" + "s" + "\" is not a number"

  function IntError(): Invalid {
    Invalid(IntNode(), Text(TooBig), Some(0), [])
  }

  function TupError(): Invalid {
    Invalid(TupNode(), NoMsg, Some(1), [Invalid(TupNode().children[0], Text(NotNumber), Some(0), [])])
  }

  lemma IntTooBig()
    ensures Deserialize(IntNode(), VStr("20")) == Err(NewInvalid(IntNode(), Text(TooBig)))
  {
    var mode := Deserializing(false);
    assert NatToString(20) == "20" && NatToString(10) == "10" by {
      assert NatToString(2) == "2" && NatToString(1) == "1" by {
        SmallNumbers();
      }
      assert DigitChar(0) == '0';
    }
    IntRoundTrip(20);
    assert TypeRun(IntNode(), VStr("20"), mode) == Ok(VInt(20));
    assert Check(Range(Some(0), Some(10)), VInt(20)) == Fail(Text(TooBig));
  }

  lemma TupNotANumber()
    ensures Deserialize(TupNode(), VTuple([VStr("s"), VStr("s")])) == Err(TupError().(pos := None))
  {
    var n := TupNode();
    var xs := [VStr("s"), VStr("s")];
    var mode := Deserializing(false);
    ParseIntRefusesNonDigits("s");
    var e0 := Invalid(n.children[0], Text(NotNumber), Some(0), []);
    assert NotANumber(VStr("s")) == NotNumber;
    assert TypeRun(n.children[0], VStr("s"), mode) == Err(NewInvalid(n.children[0], Text(NotNumber)));
    assert ElementRun(n, xs, mode, 0) == Err(NewInvalid(n.children[0], Text(NotNumber)));
    EchoRuns(n.children[1], VStr("s"), mode);
    assert ElementRun(n, xs, mode, 1) == Ok(VStr("s"));
    assert ElementsFold(n, xs, mode, 0) == ([], []);
    assert [] + [e0] == [e0];
    assert ElementsFold(n, xs, mode, 1) == ([], [e0]);
    assert [] + [VStr("s")] == [VStr("s")];
    assert ElementsFold(n, xs, mode, 2) == ([VStr("s")], [e0]);
    assert TypeRun(n, VTuple(xs), mode) == ElementsRun(n, VTuple(xs), mode);
  }

  lemma FormFails()
    ensures Deserialize(FormNode(), VMap(FormData())) == Err(Invalid(FormNode(), NoMsg, None, [IntError(), TupError()]))
  {
    var n := FormNode();
    var m := FormData();
    var mode := Deserializing(false);
    IntTooBig();
    TupNotANumber();
    assert SlotAt(n, m, false, mode, 0) == ChildSlot(n.children[0], 0, m, false, mode);
    assert SlotAt(n, m, false, mode, 0) == Failed(IntError());
    assert SlotAt(n, m, false, mode, 1) == ChildSlot(n.children[1], 1, m, false, mode);
    assert SlotAt(n, m, false, mode, 1) == Failed(TupError());
    assert MappingFold(n, m, false, mode, 0) == (map[], []);
    assert [] + [IntError()] == [IntError()];
    assert MappingFold(n, m, false, mode, 1) == (map[], [IntError()]);
    assert [IntError()] + [TupError()] == [IntError(), TupError()];
    assert MappingFold(n, m, false, mode, 2) == (map[], [IntError(), TupError()]);
    assert TypeRun(n, VMap(m), mode) == MappingRun(n, VMap(m), Ignore, false, mode);
  }

  lemma FormPaths()
    ensures var root := Invalid(FormNode(), NoMsg, None, [IntError(), TupError()]);
            Paths(root) == [[root, IntError()], [root, TupError(), TupError().children[0]]]
  {
    var root := Invalid(FormNode(), NoMsg, None, [IntError(), TupError()]);
    var e0, e1, e10 := IntError(), TupError(), TupError().children[0];
    assert Paths(e0) == [[e0]] && Paths(e10) == [[e10]];
    assert PathsOfAll([e10]) == [[e10]];
    assert Prefixed(e1, [[e10]])[0] == [e1, e10];
    assert Paths(e1) == [[e1, e10]];
    assert [e0, e1][1..] == [e1];
    assert PathsOfAll([e1]) == [[e1, e10]];
    assert PathsOfAll(root.children) == [[e0], [e1, e10]];
    var ps := Prefixed(root, [[e0], [e1, e10]]);
    assert ps[0] == [root, e0] && ps[1] == [root, e1, e10];
  }

  lemma IntEntry()
    ensures var root := Invalid(FormNode(), NoMsg, None, [IntError(), TupError()]);
            && PathKey([root, IntError()]) == "int"
            && PathMessage([root, IntError()]) == TooBig
  {
    var root := Invalid(FormNode(), NoMsg, None, [IntError(), TupError()]);
    var e0 := IntError();
    SilentRoot(root, [e0]);
    assert KeyParts([e0], false) == ["int"];
    assert MessageParts([e0]) == [TooBig];
  }

  lemma TupEntry()
    ensures var root := Invalid(FormNode(), NoMsg, None, [IntError(), TupError()]);
            && PathKey([root, TupError(), TupError().children[0]]) == "tup.0"
            && PathMessage([root, TupError(), TupError().children[0]]) == NotNumber
  {
    var root := Invalid(FormNode(), NoMsg, None, [IntError(), TupError()]);
    var e1, e10 := TupError(), TupError().children[0];
    SilentRoot(root, [e1, e10]);
    assert [root] + [e1, e10] == [root, e1, e10];
    assert PosName(Some(0)) == "0" by {
      SmallNumbers();
    }
    assert [e1, e10][1..] == [e10];
    assert KeyParts([e10], true) == ["0"];
    assert KeyParts([e1, e10], false) == ["tup", "0"];
    assert ["tup", "0"][1..] == ["0"];
    assert MessageParts([e10]) == [NotNumber];
    assert MessageParts([e1, e10]) == [NotNumber];
  }

  /** colander's functional test, reduced to its integer and tuple
      fields: the table keys the range failure by the field's name and the
      tuple element's failure by the field's name and the element's index. */
  lemma FormAsDict()
    ensures Deserialize(FormNode(), VMap(FormData())).Err?
    ensures AsDict(Deserialize(FormNode(), VMap(FormData())).error) == map["int" := TooBig, "tup.0" := NotNumber]
  {
    FormFails();
    FormPaths();
    IntEntry();
    TupEntry();
    var root := Invalid(FormNode(), NoMsg, None, [IntError(), TupError()]);
    var p, q := [root, IntError()], [root, TupError(), TupError().children[0]];
    var none: seq<seq<Invalid>> := [];
    assert [p, q][..1] == [p] && [p][..0] == none;
    assert Table([p]) == map["int" := TooBig];
  }
}
