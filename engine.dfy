/** The conversion engine as colander runs it: objects updated in place
    and loops over children. An error under construction is an object whose
    children list grows as failures are attached; a schema node grows its
    children with `add`; a container visits its children one at a time,
    building its result and creating its aggregate error only when the
    first failure arrives.

    Each method is proved to compute exactly what the conversion functions
    of `Convert` define, so every property proved about those functions
    holds of the engine. */
module Engine {
  import opened Base
  import opened Values
  import opened Validators
  import opened Schema
  import opened Errors
  import opened Convert
  import opened Containers

  /** An `Invalid` exception object while errors are being attached to it. */
  class ErrorTree {
    const node: Node
    const msg: Msg
    var pos: Option<nat>
    var children: seq<Invalid>

    /** The error as it stands. */
    function Snapshot(): Invalid
      reads this
    {
      Invalid(node, msg, pos, children)
    }

    /** `Invalid(node, msg)`. */
    constructor(node: Node, msg: Msg)
      ensures Snapshot() == NewInvalid(node, msg)
    {
      this.node := node;
      this.msg := msg;
      pos := None;
      children := [];
    }

    /** `error.add(child)`: the child goes after the ones already attached;
        nothing else about the error changes. */
    method Add(child: Invalid)
      modifies this
      ensures Snapshot() == Errors.Add(old(Snapshot()), child)
    {
      children := children + [child];
    }

    /** `error[name] = text`: attaches, at the index of the first child of
        the error's node called `name`, a new error bound to that child;
        `found` is false (the KeyError) when there is no such child, and the
        error is then left as it was. */
    method SetItem(name: string, text: string) returns (found: bool)
      modifies this
      ensures found <==> GetItem(node, name).Some?
      ensures found ==> Snapshot() == Errors.SetItem(old(Snapshot()), name, text).value
      ensures !found ==> Snapshot() == old(Snapshot())
    {
      var i := IndexOf(node.children, name);
      if i.None? {
        found := false;
      } else {
        Add(Invalid(node.children[i.value], Text(text), Some(i.value), []));
        found := true;
      }
    }
  }

  /** A `SchemaNode` whose children list grows with `add`. */
  class SchemaTree {
    const typ: Type
    const name: string
    const title: string
    const description: string
    const default: Option<Value>
    const validator: Option<Validator>
    const order: nat
    var children: seq<Node>

    /** The node as it stands. */
    function Snapshot(): Node
      reads this
    {
      Node(typ, name, title, description, default, validator, children, order)
    }

    /** The `SchemaNode` constructor, with the creation counter passed in. */
    constructor(typ: Type, children: seq<Node>, name: string, title: Option<string>, description: string,
                default: Option<Value>, validator: Option<Validator>, counter: nat)
      ensures Snapshot() == MakeNode(typ, children, name, title, description, default, validator, counter).0
    {
      var made := MakeNode(typ, children, name, title, description, default, validator, counter).0;
      this.typ := typ;
      this.name := name;
      this.title := made.title;
      this.description := description;
      this.default := default;
      this.validator := validator;
      this.order := counter;
      this.children := children;
    }

    /** `node.add(child)`: the child goes after the existing ones. */
    method Add(child: Node)
      modifies this
      ensures Snapshot() == Schema.Add(old(Snapshot()), child)
    {
      children := children + [child];
    }
  }

  /** `node.deserialize(value)` / `node.serialize(value)`: the type's
      conversion, then (deserializing) the validator. */
  method RunNode(n: Node, v: Value, mode: Mode) returns (r: Result<Value, Invalid>)
    requires WellFormed(n)
    ensures r == Run(n, v, mode)
    decreases n, 3
  {
    r := ConvertType(n, v, mode);
    if r.Ok? && mode.Deserializing? && n.validator.Some? {
      var outcome := Check(n.validator.value, r.value);
      if outcome.Fail? {
        r := Err(NewInvalid(n, outcome.msg));
      }
    }
  }

  /** The type's own conversion, dispatched on the type. */
  method ConvertType(n: Node, v: Value, mode: Mode) returns (r: Result<Value, Invalid>)
    requires WellFormed(n)
    ensures r == TypeRun(n, v, mode)
    decreases n, 2
  {
    match n.typ {
      case Mapping(unknown, partial) =>
        r := ConvertMapping(n, v, unknown, partial, mode);
      case Tuple =>
        r := ConvertElements(n, v, mode);
      case Sequence(_) =>
        r := ConvertElements(n, v, mode);
      case Integer =>
        r := if mode.Serializing? then IntegerSerialize(n, v) else IntegerDeserialize(n, v);
      case Boolean =>
        r := if mode.Serializing? then BooleanSerialize(v) else BooleanDeserialize(n, v);
      case Custom(deserializer, serializer) =>
        var c := if mode.Serializing? then serializer(v) else deserializer(v);
        r := if c.Converted? then Ok(c.value) else Err(NewInvalid(n, Text(c.msg)));
    }
  }

  /** Mapping conversion: each child in turn looks its value up in the
      input, converts it (or stands in its default, or reports it missing),
      and a failure is attached to the aggregate at the child's index; the
      child's key is struck from a running copy of the input, so what stays
      in the copy is the leftover keys the `unknown` policy deals with. */
  method ConvertMapping(n: Node, v: Value, unknown: Unknown, partial: bool, mode: Mode)
    returns (r: Result<Value, Invalid>)
    requires WellFormed(n)
    ensures r == MappingRun(n, v, unknown, partial, mode)
    decreases n, 1
  {
    if !v.VMap? {
      return Err(NewInvalid(n, Text(Show(v) + NotAMapping)));
    }
    var m := v.entries;
    var effective := partial || (mode.Deserializing? && mode.partial);
    var result: map<string, Value> := map[];
    var rest := m;
    var error: ErrorTree? := null;
    var i := 0;
    while i < |n.children|
      invariant 0 <= i <= |n.children|
      invariant result == MResult(n, m, effective, mode, i)
      invariant error == null <==> MErrors(n, m, effective, mode, i) == []
      invariant error != null ==> fresh(error) && error.Snapshot() == Invalid(n, NoMsg, None, MErrors(n, m, effective, mode, i))
      invariant rest.Keys == m.Keys - set j | 0 <= j < i :: n.children[j].name
      invariant forall k :: k in rest ==> rest[k] == m[k]
    {
      var child := n.children[i];
      MappingFoldStep(n, m, effective, mode, i + 1);
      var slot := VisitChild(n, m, effective, mode, i);
      match slot {
        case Filled(value) =>
          result := result[child.name := value];
        case Failed(e) =>
          if error == null {
            error := new ErrorTree(n, NoMsg);
          }
          error.Add(e);
        case Omitted =>
      }
      rest := rest - {child.name};
      i := i + 1;
    }
    assert (set j | 0 <= j < |n.children| :: n.children[j].name) == ChildNames(n);
    assert rest == Leftover(n, m);
    if mode.Deserializing? && unknown == Raise && rest != map[] {
      return Err(NewInvalid(n, Text(UnrecognizedKeys + Show(VMap(rest)))));
    }
    if error != null {
      return Err(error.Snapshot());
    }
    if mode.Deserializing? && unknown == Preserve {
      return Ok(VMap(result + rest));
    }
    return Ok(VMap(result));
  }

  /** One child of a mapping: convert its value when the input has one;
      otherwise stand in its default, serialize a nested mapping from
      nothing, leave it out, or report it missing. A failure comes back
      re-attached at the child's index. */
  method VisitChild(n: Node, m: map<string, Value>, partial: bool, mode: Mode, i: nat) returns (slot: Slot)
    requires WellFormed(n) && i < |n.children|
    ensures slot == SlotAt(n, m, partial, mode, i)
    decreases n, 0
  {
    var child := n.children[i];
    assert SlotAt(n, m, partial, mode, i) == ChildSlot(child, i, m, partial, mode);
    if child.name in m {
      var sub := RunNode(child, m[child.name], mode);
      slot := if sub.Ok? then Filled(sub.value) else Failed(sub.error.(pos := Some(i)));
    } else if child.default.Some? {
      slot := Filled(child.default.value);
    } else if mode.Serializing? {
      if child.typ.Mapping? {
        var sub := RunNode(child, VMap(map[]), mode);
        slot := if sub.Ok? then Filled(sub.value) else Failed(sub.error.(pos := Some(i)));
      } else {
        slot := Omitted;
      }
    } else if partial {
      slot := Omitted;
    } else {
      slot := Failed(Invalid(child, Text(MissingMessage(child.name)), Some(i), []));
    }
  }

  /** Tuple and Sequence conversion: the shape checks, then every element
      in order, each failure attached to the aggregate at its index. */
  method ConvertElements(n: Node, v: Value, mode: Mode) returns (r: Result<Value, Invalid>)
    requires WellFormed(n) && Positional(n.typ)
    ensures r == ElementsRun(n, v, mode)
    decreases n, 1
  {
    var elements := Elements(n, v);
    if elements.None? {
      return Err(NewInvalid(n, Text(Show(v) + NotIterable)));
    }
    var xs := elements.value;
    if n.typ.Tuple? && |xs| != |n.children| {
      return Err(NewInvalid(n, Text(ArityMessage(v, |n.children|, |xs|))));
    }
    var results: seq<Value> := [];
    var error: ErrorTree? := null;
    for i := 0 to |xs|
      invariant results == EResults(n, xs, mode, i)
      invariant error == null <==> EErrors(n, xs, mode, i) == []
      invariant error != null ==> fresh(error) && error.Snapshot() == Invalid(n, NoMsg, None, EErrors(n, xs, mode, i))
    {
      ElementsFoldStep(n, xs, mode, i + 1);
      var sub := RunNode(n.children[ElementIndex(n, i)], xs[i], mode);
      if sub.Ok? {
        results := results + [sub.value];
      } else {
        if error == null {
          error := new ErrorTree(n, NoMsg);
        }
        error.Add(sub.error.(pos := Some(i)));
      }
    }
    if error != null {
      return Err(error.Snapshot());
    }
    if n.typ.Tuple? {
      return Ok(VTuple(results));
    }
    return Ok(VList(results));
  }
}
