/** Conversion of a value through a schema tree, in both directions.

    A node's conversion is its type's conversion followed, when
    deserializing, by its validator. The three structural types recurse into
    the node's children; a failing child does not stop the visit of the next
    one, and every failure becomes one child of a single aggregate error
    bound to the container's node, attached at the failing child's index.

    Each container is written here as a fold over the first `k` children (or
    elements), which is the reference the imperative engine is proved
    against. */
module Convert {
  import opened Base
  import opened Strings
  import opened Values
  import opened Validators
  import opened Schema
  import opened Errors

  /** The direction of a conversion. `partial` is set for `pdeserialize`:
      a mapping then leaves out a missing child instead of reporting it. */
  datatype Mode = Deserializing(partial: bool) | Serializing

  /** What one child of a mapping contributes to the result: a value under
      the child's name, nothing, or an error attached at its index. */
  datatype Slot = Filled(value: Value) | Omitted | Failed(error: Invalid)

  /** `node.deserialize(value)` / `node.serialize(value)`: the type's
      conversion, then (deserializing only) the validator, whose failure is
      the node's own error. */
  function Run(n: Node, v: Value, mode: Mode): Result<Value, Invalid>
    requires WellFormed(n)
    decreases n, 3, 0
  {
    var r := TypeRun(n, v, mode);
    if r.Err? || mode.Serializing? || n.validator.None? then r
    else
      var outcome := Check(n.validator.value, r.value);
      if outcome.Pass? then r else Err(NewInvalid(n, outcome.msg))
  }

  /** `node.typ.deserialize(node, value)` / `node.typ.serialize(node, value)`. */
  function TypeRun(n: Node, v: Value, mode: Mode): Result<Value, Invalid>
    requires WellFormed(n)
    decreases n, 2, 0
  {
    match n.typ
    case Mapping(unknown, partial) => MappingRun(n, v, unknown, partial, mode)
    case Tuple => ElementsRun(n, v, mode)
    case Sequence(_) => ElementsRun(n, v, mode)
    case Integer => if mode.Serializing? then IntegerSerialize(n, v) else IntegerDeserialize(n, v)
    case Boolean => if mode.Serializing? then BooleanSerialize(v) else BooleanDeserialize(n, v)
    case Custom(deserializer, serializer) =>
      var c := if mode.Serializing? then serializer(v) else deserializer(v);
      if c.Converted? then Ok(c.value) else Err(NewInvalid(n, Text(c.msg)))
  }

  /** `deserialize` is the type's conversion followed by the validator: a
      failed conversion is the node's error and no validator runs; a
      successful one is returned exactly when the validator passes it, and
      a failing validator's message becomes the node's own error, not
      wrapped. Serializing runs no validator. */
  lemma ValidatorAfterType(n: Node, v: Value, mode: Mode)
    requires WellFormed(n)
    ensures TypeRun(n, v, mode).Err? ==> Run(n, v, mode) == TypeRun(n, v, mode)
    ensures mode.Serializing? || n.validator.None? ==> Run(n, v, mode) == TypeRun(n, v, mode)
    ensures Run(n, v, mode).Ok? ==>
              && Run(n, v, mode) == TypeRun(n, v, mode)
              && (mode.Serializing? || n.validator.None? || Check(n.validator.value, Run(n, v, mode).value).Pass?)
    ensures mode.Deserializing? && TypeRun(n, v, mode).Ok? && n.validator.Some? &&
            Check(n.validator.value, TypeRun(n, v, mode).value).Fail? ==>
              Run(n, v, mode) == Err(NewInvalid(n, Check(n.validator.value, TypeRun(n, v, mode).value).msg))
  {
  }

  /** The public entry points. `pserialize` is an alias of `serialize`:
      serialization never reports a missing child. */
  function Deserialize(n: Node, v: Value): Result<Value, Invalid>
    requires WellFormed(n)
  {
    Run(n, v, Deserializing(false))
  }

  function PDeserialize(n: Node, v: Value): Result<Value, Invalid>
    requires WellFormed(n)
  {
    Run(n, v, Deserializing(true))
  }

  function Serialize(n: Node, v: Value): Result<Value, Invalid>
    requires WellFormed(n)
  {
    Run(n, v, Serializing)
  }

  function PSerialize(n: Node, v: Value): Result<Value, Invalid>
    requires WellFormed(n)
  {
    Serialize(n, v)
  }

  /** `node.sdefault`: nothing when the node has no default, otherwise the
      default put through the node's serialization. */
  function SDefault(n: Node): (r: Option<Result<Value, Invalid>>)
    requires WellFormed(n)
    ensures r.None? <==> Required(n)
    ensures r.Some? ==> r.value == Serialize(n, n.default.value)
  {
    if n.default.None? then None else Some(Run(n, n.default.value, Serializing))
  }

  // Mapping

  /** The input entries whose key names no child. */
  function Leftover(n: Node, m: map<string, Value>): (r: map<string, Value>)
    ensures r.Keys == m.Keys - ChildNames(n)
    ensures forall k :: k in r ==> r[k] == m[k]
  {
    map k | k in m.Keys && k !in ChildNames(n) :: m[k]
  }

  const NotAMapping := " is not a mapping type"
  const UnrecognizedKeys := "Unrecognized keys in mapping: "

  /** The message for a required child absent from the input. */
  function MissingMessage(name: string): string {
    "\"" + name + "\" is required but missing"
  }

  /** Mapping conversion: every child in declared order, then the policy for
      the leftover keys (deserializing only), then the aggregate error. */
  function MappingRun(n: Node, v: Value, unknown: Unknown, partial: bool, mode: Mode): Result<Value, Invalid>
    requires WellFormed(n)
    decreases n, 1, 0
  {
    if !v.VMap? then Err(NewInvalid(n, Text(Show(v) + NotAMapping)))
    else
      var effective := partial || (mode.Deserializing? && mode.partial);
      var (result, errs) := MappingFold(n, v.entries, effective, mode, |n.children|);
      var leftover := Leftover(n, v.entries);
      if mode.Deserializing? && unknown == Raise && leftover != map[] then
        Err(NewInvalid(n, Text(UnrecognizedKeys + Show(VMap(leftover)))))
      else if errs != [] then Err(Invalid(n, NoMsg, None, errs))
      else if mode.Deserializing? && unknown == Preserve then Ok(VMap(result + leftover))
      else Ok(VMap(result))
  }

  /** The result entries and child errors after the first `k` children. */
  function MappingFold(n: Node, m: map<string, Value>, partial: bool, mode: Mode, k: nat)
    : (map<string, Value>, seq<Invalid>)
    requires WellFormed(n) && k <= |n.children|
    decreases n, 0, k
  {
    if k == 0 then (map[], [])
    else
      var (result, errs) := MappingFold(n, m, partial, mode, k - 1);
      var child := n.children[k - 1];
      var slot := SlotAt(n, m, partial, mode, k - 1);
      if slot.Filled? then (result[child.name := slot.value], errs)
      else if slot.Failed? then (result, errs + [slot.error])
      else (result, errs)
  }

  /** What child `i` of a mapping contributes. */
  function SlotAt(n: Node, m: map<string, Value>, partial: bool, mode: Mode, i: nat): Slot
    requires WellFormed(n) && i < |n.children|
    decreases n, 0, 0
  {
    ChildSlot(n.children[i], i, m, partial, mode)
  }

  /** One child of a mapping, at index `i`. A present key is converted by
      the child. A missing key takes the child's default when it has one.
      Otherwise serializing leaves it out (a nested mapping is serialized
      from an empty mapping instead), partial deserializing leaves it out,
      and deserializing reports it as required. */
  function ChildSlot(child: Node, i: nat, m: map<string, Value>, partial: bool, mode: Mode): (r: Slot)
    requires WellFormed(child)
    ensures r.Failed? ==> r.error.pos == Some(i)
    ensures r.Omitted? ==> child.name !in m && child.default.None? && (mode.Serializing? || partial)
    ensures r.Failed? && child.name !in m ==>
              mode.Serializing? || r.error == Invalid(child, Text(MissingMessage(child.name)), Some(i), [])
    ensures child.name !in m && child.default.Some? ==> r == Filled(child.default.value)
    ensures child.name !in m && child.default.None? && mode.Deserializing? ==>
              r == (if partial then Omitted else Failed(Invalid(child, Text(MissingMessage(child.name)), Some(i), [])))
    ensures r.Failed? && mode.Deserializing? && partial ==> child.name in m
    ensures child.name in m ==>
              var sub := Run(child, m[child.name], mode);
              r == (if sub.Ok? then Filled(sub.value) else Failed(sub.error.(pos := Some(i))))
    decreases child, 4, 0
  {
    if child.name in m then
      var r := Run(child, m[child.name], mode);
      if r.Ok? then Filled(r.value) else Failed(r.error.(pos := Some(i)))
    else if child.default.Some? then Filled(child.default.value)
    else if mode.Serializing? then
      if child.typ.Mapping? then
        var r := Run(child, VMap(map[]), mode);
        if r.Ok? then Filled(r.value) else Failed(r.error.(pos := Some(i)))
      else Omitted
    else if partial then Omitted
    else Failed(Invalid(child, Text(MissingMessage(child.name)), Some(i), []))
  }

  // Tuple and Sequence

  /** The child that converts element `i`: a tuple's `i`th child, a
      sequence's only child. */
  function ElementIndex(n: Node, i: nat): (j: nat)
    requires Positional(n.typ) && WellFormed(n)
    requires n.typ.Tuple? ==> i < |n.children|
    ensures j < |n.children|
    ensures n.typ.Tuple? ==> j == i
    ensures n.typ.Sequence? ==> j == 0
  {
    if n.typ.Sequence? then 0 else i
  }

  const NotIterable := " is not iterable"

  function ArityMessage(v: Value, expected: nat, was: nat): string {
    Show(v) + " has an incorrect number of elements (expected " + NatToString(expected)
      + ", was " + NatToString(was) + ")"
  }

  /** The elements a positional type works on: a list's or tuple's items, a
      scalar as a one-element list when a sequence accepts scalars, and
      nothing (not iterable) otherwise. */
  function Elements(n: Node, v: Value): Option<seq<Value>>
    requires Positional(n.typ)
  {
    if Items(v).Some? then Items(v)
    else if n.typ.Sequence? && n.typ.acceptScalar then Some([v])
    else None
  }

  /** Tuple and Sequence conversion: the shape checks on the node itself,
      then every element, then the aggregate error. */
  function ElementsRun(n: Node, v: Value, mode: Mode): Result<Value, Invalid>
    requires WellFormed(n) && Positional(n.typ)
    decreases n, 1, 0
  {
    var xs := Elements(n, v);
    if xs.None? then Err(NewInvalid(n, Text(Show(v) + NotIterable)))
    else if n.typ.Tuple? && |xs.value| != |n.children| then
      Err(NewInvalid(n, Text(ArityMessage(v, |n.children|, |xs.value|))))
    else
      var (results, errs) := ElementsFold(n, xs.value, mode, |xs.value|);
      if errs != [] then Err(Invalid(n, NoMsg, None, errs))
      else if n.typ.Tuple? then Ok(VTuple(results))
      else Ok(VList(results))
  }

  /** The converted elements and element errors after the first `k`. */
  function ElementsFold(n: Node, xs: seq<Value>, mode: Mode, k: nat): (seq<Value>, seq<Invalid>)
    requires WellFormed(n) && Positional(n.typ) && k <= |xs|
    requires n.typ.Tuple? ==> |xs| == |n.children|
    decreases n, 0, k
  {
    if k == 0 then ([], [])
    else
      var (results, errs) := ElementsFold(n, xs, mode, k - 1);
      var r := ElementRun(n, xs, mode, k - 1);
      if r.Ok? then (results + [r.value], errs)
      else (results, errs + [r.error.(pos := Some(k - 1))])
  }

  /** Element `i` converted by the child that describes it. */
  function ElementRun(n: Node, xs: seq<Value>, mode: Mode, i: nat): Result<Value, Invalid>
    requires WellFormed(n) && Positional(n.typ) && i < |xs|
    requires n.typ.Tuple? ==> |xs| == |n.children|
    decreases n, 0, 0
  {
    Run(n.children[ElementIndex(n, i)], xs[i], mode)
  }

  // Leaf converters

  /** Python's `int` on the values modelled: integers, booleans as 0 or 1,
      and strings holding a decimal integer. */
  function ToInt(v: Value): Option<int> {
    match v
    case VInt(i) => Some(i)
    case VBool(b) => Some(if b then 1 else 0)
    case VStr(s) => ParseInt(s)
    case _ => None
  }

  const RequiredMessage := "Required"

  function NotANumber(v: Value): string {
    "\"" + Str(v) + "\" is not a number"
  }

  /** `Integer.deserialize`: the empty string is required, or stands for the
      default; anything else goes through `int`. */
  function IntegerDeserialize(n: Node, v: Value): Result<Value, Invalid> {
    if v == VStr("") then
      if n.default.None? then Err(NewInvalid(n, Text(RequiredMessage))) else Ok(n.default.value)
    else if ToInt(v).None? then Err(NewInvalid(n, Text(NotANumber(v))))
    else Ok(VInt(ToInt(v).value))
  }

  /** `Integer.serialize`: `str(int(value))`. */
  function IntegerSerialize(n: Node, v: Value): Result<Value, Invalid> {
    if ToInt(v).None? then Err(NewInvalid(n, Text(NotANumber(v))))
    else Ok(VStr(IntToString(ToInt(v).value)))
  }

  /** The boolean a string stands for: "false" and "0", in any case, are
      false, every other string is true. */
  predicate BoolOf(s: string) {
    var l := Lower(s);
    !(l == "false" || l == "0")
  }

  /** `Boolean.deserialize`: the value's `str`; when empty it is required, or
      the default's `str` is read instead. */
  function BooleanDeserialize(n: Node, v: Value): Result<Value, Invalid> {
    var s := Str(v);
    if s == "" then
      if n.default.None? then Err(NewInvalid(n, Text(RequiredMessage)))
      else Ok(VBool(BoolOf(Str(n.default.value))))
    else Ok(VBool(BoolOf(s)))
  }

  /** `Boolean.serialize`: "true" or "false" by the value's truth. */
  function BooleanSerialize(v: Value): Result<Value, Invalid> {
    Ok(VStr(if Truthy(v) then "true" else "false"))
  }
}
