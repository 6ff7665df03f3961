/** The Type contract's round trip: what `serialize` produces, the same
    type's `deserialize` accepts, and the other way round. */
module RoundTrip {
  import opened Base
  import opened Strings
  import opened Values
  import opened Validators
  import opened Schema
  import opened Errors
  import opened Convert
  import opened Containers

  /** `v` is a native value the schema describes exactly: every mapping has
      exactly its children's keys, tuples have their arity, sequences are
      lists, integers and booleans have their type, validators pass, and a
      custom leaf reads back what it writes. */
  ghost predicate Conforms(n: Node, v: Value)
    requires WellFormed(n)
    decreases n
  {
    && (n.validator.Some? ==> Check(n.validator.value, v).Pass?)
    && match n.typ
       case Mapping(_, _) =>
         && v.VMap? && DistinctNames(n) && v.entries.Keys == ChildNames(n)
         && forall i :: 0 <= i < |n.children| ==> Conforms(n.children[i], v.entries[n.children[i].name])
       case Tuple =>
         && v.VTuple? && |v.items| == |n.children|
         && forall i :: 0 <= i < |n.children| ==> Conforms(n.children[i], v.items[i])
       case Sequence(_) =>
         v.VList? && forall i :: 0 <= i < |v.items| ==> Conforms(n.children[0], v.items[i])
       case Integer => v.VInt?
       case Boolean => v.VBool?
       case Custom(deserializer, serializer) =>
         serializer(v).Converted? && deserializer(serializer(v).value) == Converted(v)
  }

  lemma BooleanWords()
    ensures BoolOf("true") && !BoolOf("false")
  {
    assert Lower("true") == "true";
    assert Lower("false") == "false";
  }

  /** The round trip of a tuple or sequence, given that of its elements. */
  lemma ElementsRoundTrip(n: Node, v: Value, partial: bool)
    requires WellFormed(n) && Positional(n.typ)
    requires n.typ.Tuple? ==> v.VTuple? && |v.items| == |n.children|
    requires n.typ.Sequence? ==> v.VList?
    requires forall i :: 0 <= i < |v.items| ==>
               && Run(n.children[ElementIndex(n, i)], v.items[i], Serializing).Ok?
               && Run(n.children[ElementIndex(n, i)], Run(n.children[ElementIndex(n, i)], v.items[i], Serializing).value,
                      Deserializing(partial)) == Ok(v.items[i])
    ensures TypeRun(n, v, Serializing).Ok?
    ensures TypeRun(n, TypeRun(n, v, Serializing).value, Deserializing(partial)) == Ok(v)
  {
    var xs := v.items;
    assert Elements(n, v) == Some(xs);
    ElementsRunOk(n, v, Serializing);
    var sv := TypeRun(n, v, Serializing).value;
    var ys := sv.items;
    assert Elements(n, sv) == Some(ys);
    ElementsRunOk(n, sv, Deserializing(partial));
    var dv := TypeRun(n, sv, Deserializing(partial)).value;
    assert dv.items == xs by {
      forall i | 0 <= i < |xs|
        ensures dv.items[i] == xs[i]
      {
        assert ys[i] == ElementRun(n, xs, Serializing, i).value;
      }
    }
  }

  /** The round trip of a mapping, given that of the values under its
      children's names. */
  lemma MappingRoundTrip(n: Node, v: Value, partial: bool)
    requires WellFormed(n) && n.typ.Mapping? && DistinctNames(n)
    requires v.VMap? && v.entries.Keys == ChildNames(n)
    requires forall i :: 0 <= i < |n.children| ==>
               && n.children[i].name in v.entries
               && Run(n.children[i], v.entries[n.children[i].name], Serializing).Ok?
               && Run(n.children[i], Run(n.children[i], v.entries[n.children[i].name], Serializing).value,
                      Deserializing(partial)) == Ok(v.entries[n.children[i].name])
    ensures TypeRun(n, v, Serializing).Ok?
    ensures TypeRun(n, TypeRun(n, v, Serializing).value, Deserializing(partial)) == Ok(v)
  {
    var m := v.entries;
    var mode := Deserializing(partial);
    MappingRunOutcome(n, m, Serializing);
    MappingRunResult(n, m, Serializing);
    var sm := TypeRun(n, v, Serializing).value.entries;
    assert sm.Keys <= ChildNames(n);
    assert Leftover(n, sm) == map[];
    var eff := EffectivePartial(n, mode);
    forall i | 0 <= i < |n.children|
      ensures SlotAt(n, sm, eff, mode, i) == Filled(m[n.children[i].name])
    {
      var child := n.children[i];
      var s := Run(child, m[child.name], Serializing).value;
      assert SlotAt(n, m, EffectivePartial(n, Serializing), Serializing, i) == Filled(s);
      assert child.name in sm && sm[child.name] == s;
      assert ChildSlot(child, i, sm, eff, mode) == Filled(m[child.name]);
    }
    MappingRunOutcome(n, sm, mode);
    MappingRunResult(n, sm, mode);
    var dm := TypeRun(n, VMap(sm), mode).value.entries;
    assert dm.Keys <= ChildNames(n);
    forall key | key in ChildNames(n)
      ensures key in dm && dm[key] == m[key]
    {
      var i :| 0 <= i < |n.children| && n.children[i].name == key;
    }
    assert dm == m;
  }

  /** Serializing a value the schema describes and deserializing the result,
      with or without `partial`, gives the value back. */
  lemma {:induction false} RoundTrip(n: Node, v: Value, partial: bool)
    requires WellFormed(n) && Conforms(n, v)
    ensures Serialize(n, v).Ok?
    ensures Run(n, Serialize(n, v).value, Deserializing(partial)) == Ok(v)
    decreases n
  {
    var mode := Deserializing(partial);
    match n.typ {
      case Integer =>
        IntRoundTrip(v.i);
        assert TypeRun(n, v, Serializing) == Ok(VStr(IntToString(v.i)));
      case Boolean =>
        BooleanWords();
        assert TypeRun(n, v, Serializing) == Ok(VStr(if v.b then "true" else "false"));
      case Custom(_, _) =>
      case Tuple =>
        forall i | 0 <= i < |v.items|
          ensures Run(n.children[i], v.items[i], Serializing).Ok?
          ensures Run(n.children[i], Run(n.children[i], v.items[i], Serializing).value, mode) == Ok(v.items[i])
        {
          RoundTrip(n.children[i], v.items[i], partial);
        }
        ElementsRoundTrip(n, v, partial);
      case Sequence(_) =>
        forall i | 0 <= i < |v.items|
          ensures Run(n.children[0], v.items[i], Serializing).Ok?
          ensures Run(n.children[0], Run(n.children[0], v.items[i], Serializing).value, mode) == Ok(v.items[i])
        {
          RoundTrip(n.children[0], v.items[i], partial);
        }
        ElementsRoundTrip(n, v, partial);
      case Mapping(_, _) =>
        forall i | 0 <= i < |n.children|
          ensures n.children[i].name in v.entries
          ensures Run(n.children[i], v.entries[n.children[i].name], Serializing).Ok?
          ensures Run(n.children[i], Run(n.children[i], v.entries[n.children[i].name], Serializing).value, mode)
                  == Ok(v.entries[n.children[i].name])
        {
          assert n.children[i].name in ChildNames(n);
          RoundTrip(n.children[i], v.entries[n.children[i].name], partial);
        }
        MappingRoundTrip(n, v, partial);
    }
    assert Serialize(n, v) == TypeRun(n, v, Serializing);
    assert TypeRun(n, TypeRun(n, v, Serializing).value, mode) == Ok(v);
  }

  /** The schema keeps the Type contract in the other direction: mapping
      children have distinct names, every default can be serialized by its
      node, and a custom leaf can serialize whatever it deserializes. */
  ghost predicate Cooperative(n: Node)
    decreases n
  {
    && WellFormed(n)
    && (n.typ.Mapping? ==> DistinctNames(n))
    && (n.default.Some? ==> Run(n, n.default.value, Serializing).Ok?)
    && (n.typ.Custom? ==>
          forall x :: n.typ.deserializer(x).Converted? ==> n.typ.serializer(n.typ.deserializer(x).value).Converted?)
    && forall i :: 0 <= i < |n.children| ==> Cooperative(n.children[i])
  }

  /** A mapping serializes the empty mapping without error: every child is
      missing and takes its default, a nested empty mapping, or nothing. */
  lemma {:induction false} EmptyMappingSerializes(n: Node)
    requires WellFormed(n) && n.typ.Mapping?
    ensures Run(n, VMap(map[]), Serializing).Ok?
    decreases n
  {
    var m: map<string, Value> := map[];
    forall i | 0 <= i < |n.children|
      ensures !SlotAt(n, m, EffectivePartial(n, Serializing), Serializing, i).Failed?
    {
      var child := n.children[i];
      if child.default.None? && child.typ.Mapping? {
        EmptyMappingSerializes(child);
      }
    }
    MappingRunOutcome(n, m, Serializing);
  }

  /** What a tuple or sequence deserializes, it can serialize, given that
      each element's conversion has this property. */
  lemma ElementsSerializable(n: Node, v: Value, partial: bool)
    requires WellFormed(n) && Positional(n.typ)
    requires TypeRun(n, v, Deserializing(partial)).Ok?
    requires Elements(n, v).Some?
    requires n.typ.Tuple? ==> |Elements(n, v).value| == |n.children|
    requires forall i :: 0 <= i < |Elements(n, v).value| ==>
               (Run(n.children[ElementIndex(n, i)], Elements(n, v).value[i], Deserializing(partial)).Ok? ==>
                Run(n.children[ElementIndex(n, i)],
                    Run(n.children[ElementIndex(n, i)], Elements(n, v).value[i], Deserializing(partial)).value,
                    Serializing).Ok?)
    ensures TypeRun(n, TypeRun(n, v, Deserializing(partial)).value, Serializing).Ok?
  {
    var mode := Deserializing(partial);
    var xs := Elements(n, v).value;
    assert n.typ.Tuple? ==> |xs| == |n.children|;
    ElementsRunOk(n, v, mode);
    var dv := TypeRun(n, v, mode).value;
    var ys := dv.items;
    assert Elements(n, dv) == Some(ys);
    forall i | 0 <= i < |ys|
      ensures ElementRun(n, ys, Serializing, i).Ok?
    {
      assert ElementRun(n, xs, mode, i).Ok?;
      assert ys[i] == ElementRun(n, xs, mode, i).value;
    }
    ElementsRunOk(n, dv, Serializing);
  }

  /** What a mapping deserializes, it can serialize, given that each child's
      conversion has this property. */
  lemma MappingSerializable(n: Node, m: map<string, Value>, partial: bool)
    requires WellFormed(n) && n.typ.Mapping? && DistinctNames(n)
    requires TypeRun(n, VMap(m), Deserializing(partial)).Ok?
    requires forall i :: 0 <= i < |n.children| ==> Cooperative(n.children[i])
    requires forall i :: 0 <= i < |n.children| && n.children[i].name in m ==>
               (Run(n.children[i], m[n.children[i].name], Deserializing(partial)).Ok? ==>
                Run(n.children[i], Run(n.children[i], m[n.children[i].name], Deserializing(partial)).value, Serializing).Ok?)
    ensures TypeRun(n, TypeRun(n, VMap(m), Deserializing(partial)).value, Serializing).Ok?
  {
    var mode := Deserializing(partial);
    MappingRunOutcome(n, m, mode);
    MappingRunResult(n, m, mode);
    var dm := TypeRun(n, VMap(m), mode).value.entries;
    var eff := EffectivePartial(n, mode);
    assert forall i :: 0 <= i < |n.children| ==> !SlotAt(n, m, eff, mode, i).Failed?;
    forall i | 0 <= i < |n.children|
      ensures !SlotAt(n, dm, EffectivePartial(n, Serializing), Serializing, i).Failed?
    {
      var child := n.children[i];
      var slot := SlotAt(n, m, eff, mode, i);
      assert slot == ChildSlot(child, i, m, eff, mode);
      assert !slot.Failed?;
      if child.name in dm {
        assert !slot.Omitted?;
        assert dm[child.name] == slot.value;
        if child.name in m {
          assert Run(child, m[child.name], mode).Ok?;
          assert slot.value == Run(child, m[child.name], mode).value;
        } else {
          assert child.default.Some? && slot.value == child.default.value;
          assert Cooperative(child);
        }
        assert Run(child, dm[child.name], Serializing).Ok?;
      } else if child.default.None? && child.typ.Mapping? {
        EmptyMappingSerializes(child);
      }
      assert ChildSlot(child, i, dm, EffectivePartial(n, Serializing), Serializing) == SlotAt(n, dm, EffectivePartial(n, Serializing), Serializing, i);
    }
    MappingRunOutcome(n, dm, Serializing);
  }

  /** What a cooperative schema deserializes, with or without `partial`, it
      can serialize again. */
  lemma {:induction false} DeserializedSerializes(n: Node, v: Value, partial: bool)
    requires Cooperative(n)
    ensures Run(n, v, Deserializing(partial)).Ok? ==>
              Serialize(n, Run(n, v, Deserializing(partial)).value).Ok?
    decreases n
  {
    var mode := Deserializing(partial);
    if TypeRun(n, v, mode).Ok? {
      var x := TypeRun(n, v, mode).value;
      match n.typ {
        case Integer =>
        case Boolean =>
        case Custom(_, _) =>
        case Tuple =>
          ElementsChildrenSerializable(n, v, partial);
        case Sequence(_) =>
          ElementsChildrenSerializable(n, v, partial);
        case Mapping(_, _) =>
          assert TypeRun(n, v, mode) == MappingRun(n, v, n.typ.unknown, n.typ.partial, mode);
          var m := v.entries;
          forall i | 0 <= i < |n.children| && n.children[i].name in m
            ensures Run(n.children[i], m[n.children[i].name], mode).Ok? ==>
                    Run(n.children[i], Run(n.children[i], m[n.children[i].name], mode).value, Serializing).Ok?
          {
            DeserializedSerializes(n.children[i], m[n.children[i].name], partial);
          }
          MappingSerializable(n, m, partial);
      }
      assert TypeRun(n, x, Serializing).Ok?;
      assert Serialize(n, x) == TypeRun(n, x, Serializing);
    }
  }

  /** The element case of `DeserializedSerializes`, by induction on the
      element schema. */
  lemma {:induction false} ElementsChildrenSerializable(n: Node, v: Value, partial: bool)
    requires Cooperative(n) && Positional(n.typ)
    requires TypeRun(n, v, Deserializing(partial)).Ok?
    ensures TypeRun(n, TypeRun(n, v, Deserializing(partial)).value, Serializing).Ok?
    decreases n, 0
  {
    var mode := Deserializing(partial);
    assert TypeRun(n, v, mode) == ElementsRun(n, v, mode);
    assert Elements(n, v).Some?;
    var xs := Elements(n, v).value;
    assert n.typ.Tuple? ==> |xs| == |n.children|;
    forall i | 0 <= i < |xs| && Run(n.children[ElementIndex(n, i)], xs[i], mode).Ok?
      ensures Run(n.children[ElementIndex(n, i)], Run(n.children[ElementIndex(n, i)], xs[i], mode).value, Serializing).Ok?
    {
      DeserializedSerializes(n.children[ElementIndex(n, i)], xs[i], partial);
    }
    ElementsSerializable(n, v, partial);
  }
}
