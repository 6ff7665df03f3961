/** Schema nodes and the types they convert with. A node pairs a type with
    its name, title, description, default, validator and ordered children. */
module Schema {
  import opened Base
  import opened Strings
  import opened Values
  import opened Validators

  /** What a mapping does with input keys that match no child. */
  datatype Unknown = Ignore | Raise | Preserve

  /** What a leaf converter gives back: the converted value, or the message
      of the error it raises. */
  datatype Converted = Converted(value: Value) | Refused(msg: string)

  /** The type of a node. The three structural types recurse into the
      node's children; `Integer` and `Boolean` are the two leaf converters
      modelled here; `Custom` is any other implementation of the type
      contract, given by its deserialize and serialize functions. */
  datatype Type =
    | Mapping(unknown: Unknown, partial: bool)
    | Tuple
    | Sequence(acceptScalar: bool)
    | Integer
    | Boolean
    | Custom(deserializer: Value -> Converted, serializer: Value -> Converted)

  /** Tuple and Sequence address their elements by position. */
  predicate Positional(t: Type) {
    t.Tuple? || t.Sequence?
  }

  /** The Mapping constructor: the policy for unknown keys must be one of the
      three recognised words, anything else raises ValueError (None here). */
  function MakeMapping(unknown: string, partial: bool): (r: Option<Type>)
    ensures r.Some? <==> unknown in {"ignore", "raise", "preserve"}
    ensures r.Some? ==> r.value.Mapping? && r.value.partial == partial
    ensures r.Some? ==> (r.value.unknown == Ignore <==> unknown == "ignore")
    ensures r.Some? ==> (r.value.unknown == Raise <==> unknown == "raise")
    ensures r.Some? ==> (r.value.unknown == Preserve <==> unknown == "preserve")
  {
    if unknown == "ignore" then Some(Mapping(Ignore, partial))
    else if unknown == "raise" then Some(Mapping(Raise, partial))
    else if unknown == "preserve" then Some(Mapping(Preserve, partial))
    else None
  }

  datatype Node = Node(
    typ: Type,
    name: string,
    title: string,
    description: string,
    default: Option<Value>,
    validator: Option<Validator>,
    children: seq<Node>,
    order: nat)

  /** The SchemaNode constructor. The creation-order counter is passed in and
      the next one handed back, in place of the module-level counter. */
  function MakeNode(typ: Type, children: seq<Node>, name: string, title: Option<string>,
                    description: string, default: Option<Value>, validator: Option<Validator>,
                    counter: nat): (r: (Node, nat))
    ensures r.0.typ == typ && r.0.name == name && r.0.children == children
    ensures r.0.default == default && r.0.validator == validator && r.0.description == description
    ensures title.Some? ==> r.0.title == title.value
    ensures title.None? ==> r.0.title == TitleOf(name)
    ensures Required(r.0) <==> default.None?
    ensures r.0.order == counter && r.1 > counter
  {
    (Node(typ, name, if title.Some? then title.value else TitleOf(name), description, default, validator,
          children, counter),
     counter + 1)
  }

  /** A node with no default is required. */
  predicate Required(n: Node) {
    n.default.None?
  }

  /** Position of the first child named `name`. */
  function IndexOf(children: seq<Node>, name: string): (r: Option<nat>)
    ensures r.None? <==> forall j :: 0 <= j < |children| ==> children[j].name != name
    ensures r.Some? ==> r.value < |children| && children[r.value].name == name
    ensures r.Some? ==> forall j :: 0 <= j < r.value ==> children[j].name != name
    decreases |children|
  {
    if children == [] then None
    else if children[0].name == name then Some(0)
    else
      var rest := IndexOf(children[1..], name);
      if rest.None? then None else Some(rest.value + 1)
  }

  /** `node[name]`: the first direct child with that name; None stands for
      the KeyError. */
  function GetItem(n: Node, name: string): Option<Node> {
    var i := IndexOf(n.children, name);
    if i.None? then None else Some(n.children[i.value])
  }

  /** `node.add(child)`: the child goes after the existing ones. */
  function Add(n: Node, child: Node): (r: Node)
    ensures r.children == n.children + [child]
    ensures r == n.(children := r.children)
  {
    n.(children := n.children + [child])
  }

  /** Looking a name up after `add` finds an earlier child of that name
      first, and otherwise the added child. */
  lemma {:induction false} AddThenGetItem(n: Node, child: Node, name: string)
    ensures GetItem(Add(n, child), name) ==
              if GetItem(n, name).Some? then GetItem(n, name)
              else if child.name == name then Some(child)
              else None
  {
    var cs := Add(n, child).children;
    var i := IndexOf(n.children, name);
    var j := IndexOf(cs, name);
    if i.Some? {
      assert cs[i.value] == n.children[i.value];
      assert j.Some? && j.value <= i.value;
    } else if child.name == name {
      assert cs[|n.children|] == child;
      assert j.Some?;
    } else {
      forall k | 0 <= k < |cs|
        ensures cs[k].name != name
      {
        if k < |n.children| {
          assert cs[k] == n.children[k];
        }
      }
    }
  }

  /** `node.clone()`: a copy of the node and, recursively, of its children.
      Over values the copy equals the original in every field. */
  function Clone(n: Node): (r: Node)
    ensures r == n
    decreases n
  {
    var kids := seq(|n.children|, i requires 0 <= i < |n.children| => Clone(n.children[i]));
    assert kids == n.children;
    n.(children := kids)
  }

  /** A Sequence node needs the child that describes its elements, at every
      level of the tree. */
  predicate WellFormed(n: Node)
    decreases n
  {
    (n.typ.Sequence? ==> |n.children| >= 1) &&
    forall i :: 0 <= i < |n.children| ==> WellFormed(n.children[i])
  }

  /** The names of a node's children. */
  function ChildNames(n: Node): set<string> {
    set i | 0 <= i < |n.children| :: n.children[i].name
  }

  /** No two children share a name: what lookup by name in a Mapping needs
      to be well defined. */
  predicate DistinctNames(n: Node) {
    forall i, j :: 0 <= i < j < |n.children| ==> n.children[i].name != n.children[j].name
  }
}
