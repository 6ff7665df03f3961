/** The partial variants of the Type contract. `pdeserialize` differs from
    `deserialize` only in that a mapping leaves a missing child out instead
    of reporting it: whatever `deserialize` accepts, `pdeserialize` accepts
    with the same result, and where no mapping could report a missing child
    the two are the same function. (`pserialize` is `serialize` itself:
    serialization never reports a missing child.) */
module Partial {
  import opened Base
  import opened Values
  import opened Schema
  import opened Errors
  import opened Convert
  import opened Containers

  /** No mapping in the tree could report a missing child: every mapping is
      already partial (a tree without mappings qualifies). */
  ghost predicate MissingNeverReported(n: Node)
    decreases n
  {
    && (n.typ.Mapping? ==> n.typ.partial)
    && forall i :: 0 <= i < |n.children| ==> MissingNeverReported(n.children[i])
  }

  /** Whatever `deserialize` accepts, `pdeserialize` accepts with the same
      result. */
  lemma PartialAgrees(n: Node, v: Value)
    requires WellFormed(n)
    ensures Deserialize(n, v).Ok? ==> PDeserialize(n, v) == Deserialize(n, v)
  {
    if Deserialize(n, v).Ok? {
      AgreeRun(n, v);
    }
  }

  /** Where partiality does not apply, `pdeserialize` is an alias of
      `deserialize`: same results, same errors. */
  lemma PartialIsAlias(n: Node, v: Value)
    requires WellFormed(n) && MissingNeverReported(n)
    ensures PDeserialize(n, v) == Deserialize(n, v)
  {
    AgreeRun(n, v);
  }

  /** `pdeserialize` never reports a missing child: every child error of a
      mapping's error comes from a child whose key the input holds, and a
      child the input lacks is never among them. */
  lemma PartialReportsNoMissing(n: Node, m: map<string, Value>)
    requires WellFormed(n) && n.typ.Mapping?
    ensures var r := PDeserialize(n, VMap(m));
      r.Err? ==>
        forall j :: 0 <= j < |r.error.children| ==>
          var pos := r.error.children[j].pos;
          pos.Some? && pos.value < |n.children| && n.children[pos.value].name in m
  {
    var d := Deserializing(true);
    var r := PDeserialize(n, VMap(m));
    var t := TypeRun(n, VMap(m), d);
    if r.Err? && t.Err? && !Raising(n, m, d) {
      MappingRunErrors(n, m, d);
      forall j | 0 <= j < |t.error.children|
        ensures var pos := t.error.children[j].pos;
                pos.Some? && pos.value < |n.children| && n.children[pos.value].name in m
      {
        var i := t.error.children[j].pos.value;
        assert SlotAt(n, m, EffectivePartial(n, d), d, i) == ChildSlot(n.children[i], i, m, true, d);
      }
    } else if r.Err? && t.Err? {
      MappingRunOutcome(n, m, d);
    }
  }

  /** The two modes agree on a node that succeeds without `partial`, or
      under which no missing child can be reported. */
  lemma {:induction false} AgreeRun(n: Node, v: Value)
    requires WellFormed(n)
    requires MissingNeverReported(n) || Run(n, v, Deserializing(false)).Ok?
    ensures Run(n, v, Deserializing(true)) == Run(n, v, Deserializing(false))
    decreases n, 2
  {
    assert Run(n, v, Deserializing(false)).Ok? ==> TypeRun(n, v, Deserializing(false)).Ok?;
    AgreeType(n, v);
  }

  lemma {:induction false} AgreeType(n: Node, v: Value)
    requires WellFormed(n)
    requires MissingNeverReported(n) || TypeRun(n, v, Deserializing(false)).Ok?
    ensures TypeRun(n, v, Deserializing(true)) == TypeRun(n, v, Deserializing(false))
    decreases n, 1
  {
    match n.typ {
      case Mapping(_, _) =>
        AgreeMapping(n, v);
      case Tuple =>
        AgreeElements(n, v);
      case Sequence(_) =>
        AgreeElements(n, v);
      case Integer =>
      case Boolean =>
      case Custom(_, _) =>
    }
  }

  lemma {:induction false} AgreeMapping(n: Node, v: Value)
    requires WellFormed(n) && n.typ.Mapping?
    requires MissingNeverReported(n) || TypeRun(n, v, Deserializing(false)).Ok?
    ensures TypeRun(n, v, Deserializing(true)) == TypeRun(n, v, Deserializing(false))
    decreases n, 0
  {
    var d0, d1 := Deserializing(false), Deserializing(true);
    assert TypeRun(n, v, d0) == MappingRun(n, v, n.typ.unknown, n.typ.partial, d0);
    assert TypeRun(n, v, d1) == MappingRun(n, v, n.typ.unknown, n.typ.partial, d1);
    if v.VMap? {
      var m := v.entries;
      var e0, e1 := EffectivePartial(n, d0), EffectivePartial(n, d1);
      MappingRunOutcome(n, m, d0);
      forall i | 0 <= i < |n.children|
        ensures SlotAt(n, m, e1, d1, i) == SlotAt(n, m, e0, d0, i)
      {
        var child := n.children[i];
        assert SlotAt(n, m, e0, d0, i) == ChildSlot(child, i, m, e0, d0);
        assert SlotAt(n, m, e1, d1, i) == ChildSlot(child, i, m, e1, d1);
        assert !MissingNeverReported(n) ==> !SlotAt(n, m, e0, d0, i).Failed?;
        if child.name in m {
          AgreeRun(child, m[child.name]);
        }
      }
      MappingFoldCongruence(n, m, e1, d1, e0, d0, |n.children|);
    }
  }

  lemma {:induction false} AgreeElements(n: Node, v: Value)
    requires WellFormed(n) && Positional(n.typ)
    requires MissingNeverReported(n) || TypeRun(n, v, Deserializing(false)).Ok?
    ensures TypeRun(n, v, Deserializing(true)) == TypeRun(n, v, Deserializing(false))
    decreases n, 0
  {
    var d0, d1 := Deserializing(false), Deserializing(true);
    assert TypeRun(n, v, d0) == ElementsRun(n, v, d0);
    assert TypeRun(n, v, d1) == ElementsRun(n, v, d1);
    var xs := Elements(n, v);
    if xs.Some? && !(n.typ.Tuple? && |xs.value| != |n.children|) {
      ElementsRunOk(n, v, d0);
      forall i | 0 <= i < |xs.value|
        ensures ElementRun(n, xs.value, d1, i) == ElementRun(n, xs.value, d0, i)
      {
        var j := ElementIndex(n, i);
        assert MissingNeverReported(n) ==> MissingNeverReported(n.children[j]);
        assert TypeRun(n, v, d0).Ok? ==> ElementRun(n, xs.value, d0, i).Ok?;
        AgreeRun(n.children[j], xs.value[i]);
      }
      ElementsFoldCongruence(n, xs.value, d1, d0, |xs.value|);
    }
  }
}
