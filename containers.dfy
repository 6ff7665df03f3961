/** What the structural types promise: every child or element is visited
    whatever happened to the ones before it, one child error per failure at
    its own index, and on success a result built from every child's
    converted value. */
module Containers {
  import opened Base
  import opened Strings
  import opened Values
  import opened Validators
  import opened Schema
  import opened Errors
  import opened Convert

  /** The converted elements and the element errors after `k` elements. */
  function EResults(n: Node, xs: seq<Value>, mode: Mode, k: nat): seq<Value>
    requires WellFormed(n) && Positional(n.typ) && k <= |xs|
    requires n.typ.Tuple? ==> |xs| == |n.children|
  {
    ElementsFold(n, xs, mode, k).0
  }

  function EErrors(n: Node, xs: seq<Value>, mode: Mode, k: nat): seq<Invalid>
    requires WellFormed(n) && Positional(n.typ) && k <= |xs|
    requires n.typ.Tuple? ==> |xs| == |n.children|
  {
    ElementsFold(n, xs, mode, k).1
  }

  /** One more element: its value is appended, or its error attached at its
      index. */
  lemma ElementsFoldStep(n: Node, xs: seq<Value>, mode: Mode, k: nat)
    requires WellFormed(n) && Positional(n.typ) && 0 < k <= |xs|
    requires n.typ.Tuple? ==> |xs| == |n.children|
    ensures var r := ElementRun(n, xs, mode, k - 1);
      && EResults(n, xs, mode, k) == (if r.Ok? then EResults(n, xs, mode, k - 1) + [r.value] else EResults(n, xs, mode, k - 1))
      && EErrors(n, xs, mode, k) ==
           (if r.Ok? then EErrors(n, xs, mode, k - 1) else EErrors(n, xs, mode, k - 1) + [r.error.(pos := Some(k - 1))])
  {
  }

  /** `e` is the error of element `e.pos`, one of the first `k`, re-attached
      at that element's index. */
  ghost predicate ElementErrorAt(n: Node, xs: seq<Value>, mode: Mode, k: nat, e: Invalid)
    requires WellFormed(n) && Positional(n.typ) && k <= |xs|
    requires n.typ.Tuple? ==> |xs| == |n.children|
  {
    && e.pos.Some? && e.pos.value < k
    && ElementRun(n, xs, mode, e.pos.value).Err?
    && e == ElementRun(n, xs, mode, e.pos.value).error.(pos := e.pos)
  }

  /** Positions strictly increase along a list of attached errors. */
  ghost predicate Increasing(errs: seq<Invalid>) {
    forall j1, j2 :: 0 <= j1 < j2 < |errs| ==>
      errs[j1].pos.Some? && errs[j2].pos.Some? && errs[j1].pos.value < errs[j2].pos.value
  }

  /** The element fold fails exactly when some element fails, and when none
      does it keeps every converted element, in order. */
  lemma {:induction false} ElementsFoldOk(n: Node, xs: seq<Value>, mode: Mode, k: nat)
    requires WellFormed(n) && Positional(n.typ) && k <= |xs|
    requires n.typ.Tuple? ==> |xs| == |n.children|
    ensures EErrors(n, xs, mode, k) == [] <==> forall i :: 0 <= i < k ==> ElementRun(n, xs, mode, i).Ok?
    ensures EErrors(n, xs, mode, k) == [] ==>
              |EResults(n, xs, mode, k)| == k &&
              forall i :: 0 <= i < k ==> EResults(n, xs, mode, k)[i] == ElementRun(n, xs, mode, i).value
    decreases k
  {
    if k > 0 {
      ElementsFoldOk(n, xs, mode, k - 1);
      ElementsFoldStep(n, xs, mode, k);
    }
  }

  /** Every error the element fold records is a failing element's own
      error, attached at its index, and the indices increase. */
  lemma {:induction false} ElementsFoldErrors(n: Node, xs: seq<Value>, mode: Mode, k: nat)
    requires WellFormed(n) && Positional(n.typ) && k <= |xs|
    requires n.typ.Tuple? ==> |xs| == |n.children|
    ensures forall j :: 0 <= j < |EErrors(n, xs, mode, k)| ==> ElementErrorAt(n, xs, mode, k, EErrors(n, xs, mode, k)[j])
    ensures Increasing(EErrors(n, xs, mode, k))
    decreases k
  {
    if k > 0 {
      ElementsFoldErrors(n, xs, mode, k - 1);
      ElementsFoldStep(n, xs, mode, k);
      var errs := EErrors(n, xs, mode, k - 1);
      forall j | 0 <= j < |errs|
        ensures ElementErrorAt(n, xs, mode, k, errs[j])
      {
        assert ElementErrorAt(n, xs, mode, k - 1, errs[j]);
      }
      var r := ElementRun(n, xs, mode, k - 1);
      if r.Err? {
        var e := r.error.(pos := Some(k - 1));
        var errs' := errs + [e];
        assert EErrors(n, xs, mode, k) == errs';
        forall j | 0 <= j < |errs'|
          ensures ElementErrorAt(n, xs, mode, k, errs'[j])
        {
          if j < |errs| {
            assert errs'[j] == errs[j];
          }
        }
        forall j1, j2 | 0 <= j1 < j2 < |errs'|
          ensures errs'[j1].pos.Some? && errs'[j2].pos.Some? && errs'[j1].pos.value < errs'[j2].pos.value
        {
          assert errs'[j1] == errs[j1];
          assert ElementErrorAt(n, xs, mode, k - 1, errs[j1]);
          if j2 < |errs| {
            assert errs'[j2] == errs[j2];
          }
        }
      }
    }
  }

  /** The element fold records every failing element, so that when all `k`
      fail it holds `k` errors: no failure stops the visit. */
  lemma {:induction false} ElementsFoldComplete(n: Node, xs: seq<Value>, mode: Mode, k: nat)
    requires WellFormed(n) && Positional(n.typ) && k <= |xs|
    requires n.typ.Tuple? ==> |xs| == |n.children|
    ensures forall i :: 0 <= i < k && ElementRun(n, xs, mode, i).Err? ==>
              exists j :: 0 <= j < |EErrors(n, xs, mode, k)| && EErrors(n, xs, mode, k)[j].pos == Some(i)
    ensures (forall i :: 0 <= i < k ==> ElementRun(n, xs, mode, i).Err?) ==> |EErrors(n, xs, mode, k)| == k
    decreases k
  {
    if k > 0 {
      ElementsFoldComplete(n, xs, mode, k - 1);
      ElementsFoldStep(n, xs, mode, k);
      var errs := EErrors(n, xs, mode, k - 1);
      var r := ElementRun(n, xs, mode, k - 1);
      if r.Err? {
        var errs' := EErrors(n, xs, mode, k);
        assert errs' == errs + [r.error.(pos := Some(k - 1))];
        assert errs'[|errs|].pos == Some(k - 1);
        forall i | 0 <= i < k - 1 && ElementRun(n, xs, mode, i).Err?
          ensures exists j :: 0 <= j < |errs'| && errs'[j].pos == Some(i)
        {
          var j :| 0 <= j < |errs| && errs[j].pos == Some(i);
          assert errs'[j] == errs[j];
        }
      }
    }
  }

  /** The result entries and child errors after `k` children. */
  function MResult(n: Node, m: map<string, Value>, partial: bool, mode: Mode, k: nat): map<string, Value>
    requires WellFormed(n) && k <= |n.children|
  {
    MappingFold(n, m, partial, mode, k).0
  }

  function MErrors(n: Node, m: map<string, Value>, partial: bool, mode: Mode, k: nat): seq<Invalid>
    requires WellFormed(n) && k <= |n.children|
  {
    MappingFold(n, m, partial, mode, k).1
  }

  /** One more child: a filled slot stores its value under the child's
      name, a failed one attaches its error, an omitted one changes nothing. */
  lemma MappingFoldStep(n: Node, m: map<string, Value>, partial: bool, mode: Mode, k: nat)
    requires WellFormed(n) && 0 < k <= |n.children|
    ensures var slot := SlotAt(n, m, partial, mode, k - 1);
            var name := n.children[k - 1].name;
      && MResult(n, m, partial, mode, k) ==
           (if slot.Filled? then MResult(n, m, partial, mode, k - 1)[name := slot.value] else MResult(n, m, partial, mode, k - 1))
      && MErrors(n, m, partial, mode, k) ==
           (if slot.Failed? then MErrors(n, m, partial, mode, k - 1) + [slot.error] else MErrors(n, m, partial, mode, k - 1))
  {
  }

  /** `e` is the failure of child `e.pos`, one of the first `k`. */
  ghost predicate SlotErrorAt(n: Node, m: map<string, Value>, partial: bool, mode: Mode, k: nat, e: Invalid)
    requires WellFormed(n) && k <= |n.children|
  {
    e.pos.Some? && e.pos.value < k && SlotAt(n, m, partial, mode, e.pos.value) == Failed(e)
  }

  /** The mapping fold fails exactly when some child's slot fails; every
      error it records is a failing child's, at its index, in increasing
      order; and it records every failing child. */
  lemma {:induction false} MappingFoldErrors(n: Node, m: map<string, Value>, partial: bool, mode: Mode, k: nat)
    requires WellFormed(n) && k <= |n.children|
    ensures MErrors(n, m, partial, mode, k) == [] <==> forall i :: 0 <= i < k ==> !SlotAt(n, m, partial, mode, i).Failed?
    ensures forall j :: 0 <= j < |MErrors(n, m, partial, mode, k)| ==>
              SlotErrorAt(n, m, partial, mode, k, MErrors(n, m, partial, mode, k)[j])
    ensures Increasing(MErrors(n, m, partial, mode, k))
    decreases k
  {
    if k > 0 {
      MappingFoldErrors(n, m, partial, mode, k - 1);
      MappingFoldStep(n, m, partial, mode, k);
      var errs := MErrors(n, m, partial, mode, k - 1);
      var slot := SlotAt(n, m, partial, mode, k - 1);
      forall j | 0 <= j < |errs|
        ensures SlotErrorAt(n, m, partial, mode, k, errs[j])
      {
        assert SlotErrorAt(n, m, partial, mode, k - 1, errs[j]);
      }
      if slot.Failed? {
        var errs' := errs + [slot.error];
        assert MErrors(n, m, partial, mode, k) == errs';
        assert slot.error.pos == Some(k - 1);
        forall j | 0 <= j < |errs'|
          ensures SlotErrorAt(n, m, partial, mode, k, errs'[j])
        {
          if j < |errs| {
            assert errs'[j] == errs[j];
          }
        }
        forall j1, j2 | 0 <= j1 < j2 < |errs'|
          ensures errs'[j1].pos.Some? && errs'[j2].pos.Some? && errs'[j1].pos.value < errs'[j2].pos.value
        {
          assert errs'[j1] == errs[j1];
          assert SlotErrorAt(n, m, partial, mode, k - 1, errs[j1]);
          if j2 < |errs| {
            assert errs'[j2] == errs[j2];
          }
        }
      }
    }
  }

  lemma {:induction false} MappingFoldComplete(n: Node, m: map<string, Value>, partial: bool, mode: Mode, k: nat)
    requires WellFormed(n) && k <= |n.children|
    ensures forall i :: 0 <= i < k && SlotAt(n, m, partial, mode, i).Failed? ==>
              exists j :: 0 <= j < |MErrors(n, m, partial, mode, k)| && MErrors(n, m, partial, mode, k)[j].pos == Some(i)
    decreases k
  {
    if k > 0 {
      MappingFoldComplete(n, m, partial, mode, k - 1);
      MappingFoldStep(n, m, partial, mode, k);
      var errs := MErrors(n, m, partial, mode, k - 1);
      var slot := SlotAt(n, m, partial, mode, k - 1);
      if slot.Failed? {
        var errs' := MErrors(n, m, partial, mode, k);
        assert errs' == errs + [slot.error];
        assert errs'[|errs|].pos == Some(k - 1);
        forall i | 0 <= i < k - 1 && SlotAt(n, m, partial, mode, i).Failed?
          ensures exists j :: 0 <= j < |errs'| && errs'[j].pos == Some(i)
        {
          var j :| 0 <= j < |errs| && errs[j].pos == Some(i);
          assert errs'[j] == errs[j];
        }
      }
    }
  }

  /** The mapping fold stores values only under the names of filled
      children; when the names are distinct, each filled child's value is
      found under its name and no unfilled child's name is present. */
  lemma {:induction false} MappingFoldEntries(n: Node, m: map<string, Value>, partial: bool, mode: Mode, k: nat)
    requires WellFormed(n) && k <= |n.children|
    ensures forall key :: key in MResult(n, m, partial, mode, k) ==>
              exists i :: 0 <= i < k && n.children[i].name == key && SlotAt(n, m, partial, mode, i).Filled?
    ensures DistinctNames(n) ==> forall i :: 0 <= i < k ==>
              && (SlotAt(n, m, partial, mode, i).Filled? <==> n.children[i].name in MResult(n, m, partial, mode, k))
              && (SlotAt(n, m, partial, mode, i).Filled? ==>
                    MResult(n, m, partial, mode, k)[n.children[i].name] == SlotAt(n, m, partial, mode, i).value)
    decreases k
  {
    if k > 0 {
      MappingFoldEntries(n, m, partial, mode, k - 1);
      MappingFoldStep(n, m, partial, mode, k);
      var result := MResult(n, m, partial, mode, k - 1);
      var child := n.children[k - 1];
      var slot := SlotAt(n, m, partial, mode, k - 1);
      if slot.Filled? {
        var result' := MResult(n, m, partial, mode, k);
        assert result' == result[child.name := slot.value];
        forall key | key in result'
          ensures exists i :: 0 <= i < k && n.children[i].name == key && SlotAt(n, m, partial, mode, i).Filled?
        {
          if key == child.name {
            assert n.children[k - 1].name == key;
          }
        }
      }
    }
  }

  /** Two element folds whose element conversions agree give the same
      result. */
  lemma {:induction false} ElementsFoldCongruence(n: Node, xs: seq<Value>, mode1: Mode, mode2: Mode, k: nat)
    requires WellFormed(n) && Positional(n.typ) && k <= |xs|
    requires n.typ.Tuple? ==> |xs| == |n.children|
    requires forall i :: 0 <= i < k ==> ElementRun(n, xs, mode1, i) == ElementRun(n, xs, mode2, i)
    ensures ElementsFold(n, xs, mode1, k) == ElementsFold(n, xs, mode2, k)
    decreases k
  {
    if k > 0 {
      ElementsFoldCongruence(n, xs, mode1, mode2, k - 1);
    }
  }

  /** Two mapping folds whose child slots agree give the same result. */
  lemma {:induction false} MappingFoldCongruence(n: Node, m: map<string, Value>, partial1: bool, mode1: Mode,
                                                 partial2: bool, mode2: Mode, k: nat)
    requires WellFormed(n) && k <= |n.children|
    requires forall i :: 0 <= i < k ==> SlotAt(n, m, partial1, mode1, i) == SlotAt(n, m, partial2, mode2, i)
    ensures MappingFold(n, m, partial1, mode1, k) == MappingFold(n, m, partial2, mode2, k)
    decreases k
  {
    if k > 0 {
      MappingFoldCongruence(n, m, partial1, mode1, partial2, mode2, k - 1);
    }
  }

  /** A tuple or sequence whose input has the right shape converts every
      element: it succeeds exactly when every element does, giving a tuple
      (for Tuple) or a list (for Sequence) of the converted elements in
      order. */
  lemma ElementsRunOk(n: Node, v: Value, mode: Mode)
    requires WellFormed(n) && Positional(n.typ) && Elements(n, v).Some?
    requires n.typ.Tuple? ==> |Elements(n, v).value| == |n.children|
    ensures var xs := Elements(n, v).value;
            var r := TypeRun(n, v, mode);
      && (r.Ok? <==> forall i :: 0 <= i < |xs| ==> ElementRun(n, xs, mode, i).Ok?)
      && (r.Ok? ==>
            && (n.typ.Tuple? ==> r.value.VTuple?)
            && (n.typ.Sequence? ==> r.value.VList?)
            && (r.value.VTuple? || r.value.VList?)
            && |r.value.items| == |xs|
            && forall i :: 0 <= i < |xs| ==> r.value.items[i] == ElementRun(n, xs, mode, i).value)
  {
    var xs := Elements(n, v).value;
    ElementsFoldOk(n, xs, mode, |xs|);
    assert TypeRun(n, v, mode) == ElementsRun(n, v, mode);
  }

  /** When some element fails, a tuple or sequence raises one error bound to
      its node, without a message of its own, holding each failing
      element's error at that element's index, in order, and nothing else;
      when every element fails there is one child error per element. */
  lemma ElementsRunErrors(n: Node, v: Value, mode: Mode)
    requires WellFormed(n) && Positional(n.typ) && Elements(n, v).Some?
    requires n.typ.Tuple? ==> |Elements(n, v).value| == |n.children|
    requires TypeRun(n, v, mode).Err?
    ensures var xs := Elements(n, v).value;
            var e := TypeRun(n, v, mode).error;
      && e.node == n && e.msg == NoMsg && e.pos == None
      && (forall j :: 0 <= j < |e.children| ==> ElementErrorAt(n, xs, mode, |xs|, e.children[j]))
      && Increasing(e.children)
      && (forall i :: 0 <= i < |xs| && ElementRun(n, xs, mode, i).Err? ==>
            exists j :: 0 <= j < |e.children| && e.children[j].pos == Some(i))
      && ((forall i :: 0 <= i < |xs| ==> ElementRun(n, xs, mode, i).Err?) ==> |e.children| == |xs|)
  {
    var xs := Elements(n, v).value;
    ElementsFoldOk(n, xs, mode, |xs|);
    ElementsFoldErrors(n, xs, mode, |xs|);
    ElementsFoldComplete(n, xs, mode, |xs|);
    assert TypeRun(n, v, mode) == ElementsRun(n, v, mode);
    assert TypeRun(n, v, mode).error.children == EErrors(n, xs, mode, |xs|);
  }

  /** The shape checks a tuple or sequence makes on its own node before
      looking at any element: a value that is not iterable (and not accepted
      as a scalar) and, for Tuple, a wrong number of elements each raise a
      single error bound to the node, with no child errors. */
  lemma ElementsShapeErrors(n: Node, v: Value, mode: Mode)
    requires WellFormed(n) && Positional(n.typ)
    ensures Items(v).None? && !(n.typ.Sequence? && n.typ.acceptScalar) ==>
              TypeRun(n, v, mode) == Err(Invalid(n, Text(Show(v) + " is not iterable"), None, []))
    ensures n.typ.Tuple? && Items(v).Some? && |Items(v).value| != |n.children| ==>
              TypeRun(n, v, mode) == Err(Invalid(n, Text(ArityMessage(v, |n.children|, |Items(v).value|)), None, []))
    ensures n.typ.Sequence? && n.typ.acceptScalar && Items(v).None? ==>
              Elements(n, v) == Some([v])
  {
  }

  /** The effective `partial` flag of a mapping node in a mode. */
  predicate EffectivePartial(n: Node, mode: Mode)
    requires n.typ.Mapping?
  {
    n.typ.partial || (mode.Deserializing? && mode.partial)
  }

  /** Deserializing under `raise` with leftover keys. */
  predicate Raising(n: Node, m: map<string, Value>, mode: Mode)
    requires n.typ.Mapping?
  {
    mode.Deserializing? && n.typ.unknown == Raise && Leftover(n, m) != map[]
  }

  /** A mapping succeeds exactly when no child fails and (deserializing
      under `raise`) no key is left over; leftover keys under `raise` are
      refused by the mapping's own node, naming them with their values. */
  lemma MappingRunOutcome(n: Node, m: map<string, Value>, mode: Mode)
    requires WellFormed(n) && n.typ.Mapping?
    ensures var r := TypeRun(n, VMap(m), mode);
      && (r.Ok? <==>
            && !Raising(n, m, mode)
            && forall i :: 0 <= i < |n.children| ==> !SlotAt(n, m, EffectivePartial(n, mode), mode, i).Failed?)
      && (Raising(n, m, mode) ==> r == Err(Invalid(n, Text(UnrecognizedKeys + Show(VMap(Leftover(n, m)))), None, [])))
  {
    MappingFoldErrors(n, m, EffectivePartial(n, mode), mode, |n.children|);
    assert TypeRun(n, VMap(m), mode) == MappingRun(n, VMap(m), n.typ.unknown, n.typ.partial, mode);
  }

  /** When a mapping with distinct child names succeeds, every filled
      child's value is stored under its name, no omitted child's name is
      present, and the only other keys are the leftover ones a `preserve`
      mapping copies with their input values; serializing keeps no leftover
      key. */
  lemma MappingRunResult(n: Node, m: map<string, Value>, mode: Mode)
    requires WellFormed(n) && n.typ.Mapping? && DistinctNames(n)
    requires TypeRun(n, VMap(m), mode).Ok?
    ensures var r := TypeRun(n, VMap(m), mode).value;
            var partial := EffectivePartial(n, mode);
      && r.VMap?
      && (forall i :: 0 <= i < |n.children| ==>
            && (SlotAt(n, m, partial, mode, i).Filled? ==>
                  n.children[i].name in r.entries && r.entries[n.children[i].name] == SlotAt(n, m, partial, mode, i).value)
            && (SlotAt(n, m, partial, mode, i).Omitted? ==> n.children[i].name !in r.entries))
      && (forall key :: key in r.entries ==>
            key in ChildNames(n)
            || (mode.Deserializing? && n.typ.unknown == Preserve && key in m && r.entries[key] == m[key]))
      && (mode.Deserializing? && n.typ.unknown == Preserve ==>
            forall key :: key in Leftover(n, m) ==> key in r.entries && r.entries[key] == m[key])
  {
    var partial := EffectivePartial(n, mode);
    MappingFoldEntries(n, m, partial, mode, |n.children|);
    var result := MResult(n, m, partial, mode, |n.children|);
    assert TypeRun(n, VMap(m), mode) == MappingRun(n, VMap(m), n.typ.unknown, n.typ.partial, mode);
    forall key | key in result
      ensures key in ChildNames(n)
    {
      var i :| 0 <= i < |n.children| && n.children[i].name == key && SlotAt(n, m, partial, mode, i).Filled?;
    }
  }

  /** When a mapping fails for its children, it raises one error bound to
      its node, without a message of its own, holding each failing child's
      error at the child's index, in order, and nothing else. */
  lemma MappingRunErrors(n: Node, m: map<string, Value>, mode: Mode)
    requires WellFormed(n) && n.typ.Mapping?
    requires TypeRun(n, VMap(m), mode).Err? && !Raising(n, m, mode)
    ensures var e := TypeRun(n, VMap(m), mode).error;
            var partial := EffectivePartial(n, mode);
      && e.node == n && e.msg == NoMsg && e.pos == None
      && (forall j :: 0 <= j < |e.children| ==> SlotErrorAt(n, m, partial, mode, |n.children|, e.children[j]))
      && Increasing(e.children)
      && (forall i :: 0 <= i < |n.children| && SlotAt(n, m, partial, mode, i).Failed? ==>
            exists j :: 0 <= j < |e.children| && e.children[j].pos == Some(i))
  {
    var partial := EffectivePartial(n, mode);
    MappingFoldErrors(n, m, partial, mode, |n.children|);
    MappingFoldComplete(n, m, partial, mode, |n.children|);
    assert TypeRun(n, VMap(m), mode) == MappingRun(n, VMap(m), n.typ.unknown, n.typ.partial, mode);
    assert TypeRun(n, VMap(m), mode).error.children == MErrors(n, m, partial, mode, |n.children|);
  }

  /** Deserializing a mapping without `partial`, a child that is absent from
      the input and has no default is reported as required: unless leftover
      keys are refused first, the aggregate error holds, at that child's
      index, an error bound to the child whose message names it. */
  lemma MissingRequiredReported(n: Node, m: map<string, Value>, i: nat)
    requires WellFormed(n) && n.typ.Mapping? && !n.typ.partial
    requires i < |n.children| && n.children[i].name !in m && n.children[i].default.None?
    ensures TypeRun(n, VMap(m), Deserializing(false)).Err?
    ensures var e := TypeRun(n, VMap(m), Deserializing(false)).error;
            Raising(n, m, Deserializing(false))
            || (e.msg == NoMsg &&
                exists j :: 0 <= j < |e.children| &&
                  e.children[j] == Invalid(n.children[i], Text(MissingMessage(n.children[i].name)), Some(i), []))
  {
    var mode := Deserializing(false);
    var missing := Invalid(n.children[i], Text(MissingMessage(n.children[i].name)), Some(i), []);
    assert ChildSlot(n.children[i], i, m, false, mode) == Failed(missing);
    assert SlotAt(n, m, false, mode, i) == Failed(missing);
    assert !EffectivePartial(n, mode);
    MappingRunOutcome(n, m, mode);
    if !Raising(n, m, mode) {
      MappingRunErrors(n, m, mode);
      var e := TypeRun(n, VMap(m), mode).error;
      var j :| 0 <= j < |e.children| && e.children[j].pos == Some(i);
      assert SlotErrorAt(n, m, false, mode, |n.children|, e.children[j]);
    }
  }

  /** Under `raise`, input keys that name no child make deserialization fail
      with one error bound to the mapping's node naming exactly those keys
      with their values, however many recognised keys there are and whatever
      the children do; with no such keys the policy makes no difference to
      whether it succeeds or to what it gives. */
  lemma UnknownRaise(n: Node, m: map<string, Value>, partial: bool)
    requires WellFormed(n) && n.typ.Mapping? && n.typ.unknown == Raise
    ensures var leftover := map k | k in m.Keys - ChildNames(n) :: m[k];
            leftover != map[] ==>
              Run(n, VMap(m), Deserializing(partial)) ==
              Err(Invalid(n, Text(UnrecognizedKeys + Show(VMap(leftover))), None, []))
    ensures var n' := n.(typ := Mapping(Ignore, n.typ.partial));
            m.Keys <= ChildNames(n) ==>
              && (Run(n, VMap(m), Deserializing(partial)).Ok? <==> Run(n', VMap(m), Deserializing(partial)).Ok?)
              && (Run(n, VMap(m), Deserializing(partial)).Ok? ==>
                    Run(n, VMap(m), Deserializing(partial)).value == Run(n', VMap(m), Deserializing(partial)).value)
  {
    var mode := Deserializing(partial);
    var leftover := map k | k in m.Keys - ChildNames(n) :: m[k];
    assert Leftover(n, m) == leftover;
    MappingRunOutcome(n, m, mode);
    var n' := n.(typ := Mapping(Ignore, n.typ.partial));
    if m.Keys <= ChildNames(n) {
      assert ChildNames(n') == ChildNames(n);
      assert Leftover(n, m) == map[] && Leftover(n', m) == map[];
      var eff := n.typ.partial || partial;
      MappingFoldCongruenceAcross(n, n', m, eff, mode, |n.children|);
      var fold := MappingFold(n, m, eff, mode, |n.children|);
      assert MappingFold(n', m, eff, mode, |n'.children|) == fold;
      assert MappingRun(n, VMap(m), Raise, n.typ.partial, mode) ==
             if fold.1 != [] then Err(Invalid(n, NoMsg, None, fold.1)) else Ok(VMap(fold.0));
      assert MappingRun(n', VMap(m), Ignore, n.typ.partial, mode) ==
             if fold.1 != [] then Err(Invalid(n', NoMsg, None, fold.1)) else Ok(VMap(fold.0));
    }
  }

  /** Two nodes with the same children fold a mapping the same way. */
  lemma {:induction false} MappingFoldCongruenceAcross(n: Node, n': Node, m: map<string, Value>, partial: bool,
                                                       mode: Mode, k: nat)
    requires WellFormed(n) && WellFormed(n') && n.children == n'.children && k <= |n.children|
    ensures MappingFold(n, m, partial, mode, k) == MappingFold(n', m, partial, mode, k)
    decreases k
  {
    if k > 0 {
      MappingFoldCongruenceAcross(n, n', m, partial, mode, k - 1);
    }
  }

  /** A value that is not a mapping is refused by the mapping's own node,
      with no child errors, in both directions. */
  lemma NotAMappingRefused(n: Node, v: Value, mode: Mode)
    requires WellFormed(n) && n.typ.Mapping? && !v.VMap?
    ensures TypeRun(n, v, mode) == Err(Invalid(n, Text(Show(v) + " is not a mapping type"), None, []))
  {
  }
}
