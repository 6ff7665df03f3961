/** The shape of the errors a schema raises: the error tree mirrors the
    schema tree. Every error is bound to the node that raised it; an error
    either carries a message of its own or is an aggregate of child errors,
    never both; and each child error sits at the index of the child (or
    element) that failed, bound to the node that describes that index. This
    is what lets `asdict` key an error by its node's name under a mapping
    and by its index under a tuple or sequence. */
module Raised {
  import opened Base
  import opened Strings
  import opened Values
  import opened Validators
  import opened Schema
  import opened Errors
  import opened Convert
  import opened Containers

  /** The child of `n` that describes index `pos`: the sequence's only
      child, or the child at that index. */
  function Describer(n: Node, pos: nat): nat {
    if n.typ.Sequence? then 0 else pos
  }

  /** `e` is an error tree raised by node `n`. */
  ghost predicate RaisedBy(n: Node, e: Invalid)
    decreases e
  {
    && e.node == n
    && (e.msg == NoMsg <==> e.children != [])
    && (e.children != [] ==> n.typ.Mapping? || Positional(n.typ))
    && Increasing(e.children)
    && forall j :: 0 <= j < |e.children| ==>
         && e.children[j].pos.Some?
         && Describer(n, e.children[j].pos.value) < |n.children|
         && RaisedBy(n.children[Describer(n, e.children[j].pos.value)], e.children[j])
  }

  /** Re-attaching an error at another position keeps its shape. */
  lemma Repositioned(n: Node, e: Invalid, pos: Option<nat>)
    requires RaisedBy(n, e)
    ensures RaisedBy(n, e.(pos := pos))
  {
  }

  /** Every error a node raises, converting either way, is a tree raised by
      that node, not yet attached anywhere. */
  lemma {:induction false} RunRaisedBy(n: Node, v: Value, mode: Mode)
    requires WellFormed(n)
    ensures Run(n, v, mode).Err? ==> RaisedBy(n, Run(n, v, mode).error) && Run(n, v, mode).error.pos == None
    decreases n, 3
  {
    TypeRaisedBy(n, v, mode);
  }

  lemma {:induction false} TypeRaisedBy(n: Node, v: Value, mode: Mode)
    requires WellFormed(n)
    ensures TypeRun(n, v, mode).Err? ==>
              RaisedBy(n, TypeRun(n, v, mode).error) && TypeRun(n, v, mode).error.pos == None
    decreases n, 2
  {
    match n.typ {
      case Mapping(_, _) =>
        MappingRaisedBy(n, v, mode);
      case Tuple =>
        ElementsRaisedBy(n, v, mode);
      case Sequence(_) =>
        ElementsRaisedBy(n, v, mode);
      case Integer =>
      case Boolean =>
      case Custom(_, _) =>
    }
  }

  /** The failure of a mapping's child is raised by that child. */
  lemma {:induction false} SlotRaisedBy(n: Node, m: map<string, Value>, partial: bool, mode: Mode, i: nat)
    requires WellFormed(n) && i < |n.children| && SlotAt(n, m, partial, mode, i).Failed?
    ensures RaisedBy(n.children[i], SlotAt(n, m, partial, mode, i).error)
    decreases n, 0
  {
    var child := n.children[i];
    assert SlotAt(n, m, partial, mode, i) == ChildSlot(child, i, m, partial, mode);
    if child.name in m {
      RunRaisedBy(child, m[child.name], mode);
      Repositioned(child, Run(child, m[child.name], mode).error, Some(i));
    } else if child.default.None? && mode.Serializing? {
      RunRaisedBy(child, VMap(map[]), mode);
      Repositioned(child, Run(child, VMap(map[]), mode).error, Some(i));
    }
  }

  lemma {:induction false} MappingRaisedBy(n: Node, v: Value, mode: Mode)
    requires WellFormed(n) && n.typ.Mapping?
    ensures TypeRun(n, v, mode).Err? ==>
              RaisedBy(n, TypeRun(n, v, mode).error) && TypeRun(n, v, mode).error.pos == None
    decreases n, 1
  {
    assert TypeRun(n, v, mode) == MappingRun(n, v, n.typ.unknown, n.typ.partial, mode);
    if v.VMap? && TypeRun(n, v, mode).Err? && !Raising(n, v.entries, mode) {
      var m := v.entries;
      var partial := EffectivePartial(n, mode);
      MappingRunErrors(n, m, mode);
      var e := TypeRun(n, v, mode).error;
      assert e.children != [];
      forall j | 0 <= j < |e.children|
        ensures RaisedBy(n.children[Describer(n, e.children[j].pos.value)], e.children[j])
      {
        assert SlotErrorAt(n, m, partial, mode, |n.children|, e.children[j]);
        SlotRaisedBy(n, m, partial, mode, e.children[j].pos.value);
      }
    }
  }

  lemma {:induction false} ElementsRaisedBy(n: Node, v: Value, mode: Mode)
    requires WellFormed(n) && Positional(n.typ)
    ensures TypeRun(n, v, mode).Err? ==>
              RaisedBy(n, TypeRun(n, v, mode).error) && TypeRun(n, v, mode).error.pos == None
    decreases n, 1
  {
    assert TypeRun(n, v, mode) == ElementsRun(n, v, mode);
    var xs := Elements(n, v);
    if xs.Some? && !(n.typ.Tuple? && |xs.value| != |n.children|) && TypeRun(n, v, mode).Err? {
      ElementsRunErrors(n, v, mode);
      var e := TypeRun(n, v, mode).error;
      assert e.children != [];
      forall j | 0 <= j < |e.children|
        ensures Describer(n, e.children[j].pos.value) < |n.children|
        ensures RaisedBy(n.children[Describer(n, e.children[j].pos.value)], e.children[j])
      {
        var c := e.children[j];
        assert ElementErrorAt(n, xs.value, mode, |xs.value|, c);
        var i := c.pos.value;
        var k := ElementIndex(n, i);
        assert Describer(n, i) == k;
        RunRaisedBy(n.children[k], xs.value[i], mode);
        Repositioned(n.children[k], ElementRun(n, xs.value, mode, i).error, Some(i));
      }
    }
  }

  /** The keys `asdict` gives the children of an error a node raised: the
      decimal index under a tuple or sequence, the failing child's name
      under a mapping. */
  lemma ChildKeys(n: Node, e: Invalid)
    requires RaisedBy(n, e)
    ensures forall j :: 0 <= j < |e.children| ==>
              KeyName(e.children[j], Positional(n.typ)) ==
              if Positional(n.typ) then NatToString(e.children[j].pos.value)
              else n.children[e.children[j].pos.value].name
  {
  }
}
