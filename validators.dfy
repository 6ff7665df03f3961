/** Validators: checks a schema node applies to a value after it has been
    deserialized. A validator passes, or fails with the message the node's
    error will carry. */
module Validators {
  import opened Base
  import opened Strings
  import opened Values

  /** What the predicate of a `Function` validator returned: a truth value
      (standing for any Python value by its truthiness), or a string. */
  datatype PredResult = Verdict(ok: bool) | Reason(text: string)

  datatype Validator =
    | Range(min: Option<int>, max: Option<int>)
    | Length(minLen: Option<nat>, maxLen: Option<nat>)
    | OneOf(choices: seq<Value>)
    | All(validators: seq<Validator>)
    | Function(pred: Value -> PredResult, message: string)

  datatype Outcome = Pass | Fail(msg: Msg)

  const InvalidValue := "Invalid value"

  /** A `Function` validator built without a message of its own. */
  function FunctionOf(pred: Value -> PredResult): Validator {
    Function(pred, InvalidValue)
  }

  /** The number a value stands for in a comparison: an integer, or a
      boolean as 0 or 1. */
  function Number(v: Value): Option<int> {
    match v
    case VInt(i) => Some(i)
    case VBool(b) => Some(if b then 1 else 0)
    case _ => None
  }

  /** Python's `len`. */
  function Size(v: Value): Option<nat> {
    match v
    case VStr(s) => Some(|s|)
    case VList(xs) => Some(|xs|)
    case VTuple(xs) => Some(|xs|)
    case VMap(m) => Some(|m|)
    case _ => None
  }

  /** The strings of a message, in order: what `All` gathers from one
      failing validator. */
  function Flatten(m: Msg): seq<string> {
    match m
    case NoMsg => []
    case Text(s) => [s]
    case Texts(ss) => ss
  }

  function StrAll(vs: seq<Value>): (r: seq<string>)
    ensures |r| == |vs| && forall i :: 0 <= i < |vs| ==> r[i] == Str(vs[i])
  {
    seq(|vs|, i requires 0 <= i < |vs| => Str(vs[i]))
  }

  /** Runs one validator on a value. */
  function Check(val: Validator, v: Value): (r: Outcome)
    ensures r.Fail? ==> Flatten(r.msg) != []
    decreases val
  {
    match val
    case Range(lo, hi) =>
      if Number(v).None? then Pass
      else
        var x := Number(v).value;
        if lo.Some? && x < lo.value then
          Fail(Text(Str(v) + " is less than minimum value " + IntToString(lo.value)))
        else if hi.Some? && x > hi.value then
          Fail(Text(Str(v) + " is greater than maximum value " + IntToString(hi.value)))
        else
          Pass
    case Length(lo, hi) =>
      if Size(v).None? then Pass
      else
        var n := Size(v).value;
        if lo.Some? && n < lo.value then
          Fail(Text("Shorter than minimum length " + NatToString(lo.value)))
        else if hi.Some? && n > hi.value then
          Fail(Text("Longer than maximum length " + NatToString(hi.value)))
        else
          Pass
    case OneOf(choices) =>
      if v in choices then Pass
      else Fail(Text("\"" + Str(v) + "\" is not one of " + Join(", ", StrAll(choices))))
    case All(vs) =>
      var msgs := Failures(vs, v);
      if msgs == [] then Pass else Fail(Texts(msgs))
    case Function(pred, message) =>
      var verdict := pred(v);
      if verdict == Verdict(true) then Pass
      else if verdict.Reason? && verdict.text != "" then Fail(Text(verdict.text))
      else Fail(Text(message))
  }

  /** The messages of every failing validator of `vs`, in order: `All` runs
      each validator even after one has failed. */
  function Failures(vs: seq<Validator>, v: Value): (msgs: seq<string>)
    ensures msgs == [] <==> forall i :: 0 <= i < |vs| ==> Check(vs[i], v).Pass?
    decreases vs
  {
    if vs == [] then []
    else
      var rest := Failures(vs[1..], v);
      assert forall i :: 1 <= i < |vs| ==> vs[i] == vs[1..][i - 1];
      match Check(vs[0], v)
      case Pass => rest
      case Fail(m) => Flatten(m) + rest
  }

  /** `Range` keeps both bounds inclusive and reports the side it broke. */
  lemma RangeInclusive(lo: Option<int>, hi: Option<int>, x: int)
    ensures Check(Range(lo, hi), VInt(x)).Pass? <==>
              (lo.None? || lo.value <= x) && (hi.None? || x <= hi.value)
    ensures lo.Some? && x < lo.value ==>
              Check(Range(lo, hi), VInt(x)) ==
              Fail(Text(IntToString(x) + " is less than minimum value " + IntToString(lo.value)))
    ensures (lo.None? || lo.value <= x) && hi.Some? && x > hi.value ==>
              Check(Range(lo, hi), VInt(x)) ==
              Fail(Text(IntToString(x) + " is greater than maximum value " + IntToString(hi.value)))
  {
  }

  /** `Length` keeps both bounds inclusive and reports the side it broke. */
  lemma LengthInclusive(lo: Option<nat>, hi: Option<nat>, v: Value)
    requires Size(v).Some?
    ensures Check(Length(lo, hi), v).Pass? <==>
              (lo.None? || lo.value <= Size(v).value) && (hi.None? || Size(v).value <= hi.value)
    ensures lo.Some? && Size(v).value < lo.value ==>
              Check(Length(lo, hi), v) == Fail(Text("Shorter than minimum length " + NatToString(lo.value)))
    ensures (lo.None? || lo.value <= Size(v).value) && hi.Some? && Size(v).value > hi.value ==>
              Check(Length(lo, hi), v) == Fail(Text("Longer than maximum length " + NatToString(hi.value)))
  {
  }

  /** `OneOf` passes exactly the listed values. */
  lemma OneOfMembership(choices: seq<Value>, v: Value)
    ensures Check(OneOf(choices), v).Pass? <==> v in choices
  {
  }

  /** What validator `w` adds to `All`'s list: its messages when it fails,
      nothing when it passes. */
  function Contribution(w: Validator, v: Value): seq<string> {
    var outcome := Check(w, v);
    if outcome.Fail? then Flatten(outcome.msg) else []
  }

  /** The lists of `ss` one after the other. */
  function Concat(ss: seq<seq<string>>): seq<string>
    decreases |ss|
  {
    if ss == [] then [] else ss[0] + Concat(ss[1..])
  }

  /** `All` passes exactly when every validator passes; when it fails, its
      message is every validator's contribution in the order of `vs`: the
      messages of each failing validator, and nothing from a passing one. */
  lemma {:induction false} AllCollectsEveryFailure(vs: seq<Validator>, v: Value)
    ensures Check(All(vs), v).Pass? <==> forall i :: 0 <= i < |vs| ==> Check(vs[i], v).Pass?
    ensures Check(All(vs), v).Fail? ==>
              Check(All(vs), v).msg == Texts(Concat(seq(|vs|, i requires 0 <= i < |vs| => Contribution(vs[i], v))))
    decreases |vs|
  {
    FailuresConcat(vs, v);
  }

  /** `Failures` on a non-empty list: the first validator's contribution,
      then the rest's. */
  lemma FailuresCons(vs: seq<Validator>, v: Value)
    requires vs != []
    ensures Failures(vs, v) == Contribution(vs[0], v) + Failures(vs[1..], v)
  {
  }

  lemma {:induction false} FailuresConcat(vs: seq<Validator>, v: Value)
    ensures Failures(vs, v) == Concat(seq(|vs|, i requires 0 <= i < |vs| => Contribution(vs[i], v)))
    decreases |vs|
  {
    var cs := seq(|vs|, i requires 0 <= i < |vs| => Contribution(vs[i], v));
    if vs != [] {
      FailuresConcat(vs[1..], v);
      assert cs[1..] == seq(|vs[1..]|, i requires 0 <= i < |vs[1..]| => Contribution(vs[1..][i], v));
      FailuresCons(vs, v);
    }
  }

  /** One more validator at the end of `All` adds its own contribution at
      the end of the list, after everything the earlier ones reported. */
  lemma {:induction false} FailuresAppend(vs: seq<Validator>, w: Validator, v: Value)
    ensures Failures(vs + [w], v) == Failures(vs, v) + Contribution(w, v)
  {
    var ws := vs + [w];
    var cs := seq(|vs|, i requires 0 <= i < |vs| => Contribution(vs[i], v));
    var cws := seq(|ws|, i requires 0 <= i < |ws| => Contribution(ws[i], v));
    FailuresConcat(vs, v);
    FailuresConcat(ws, v);
    assert cws == cs + [Contribution(w, v)];
    ConcatAppend(cs, Contribution(w, v));
  }

  lemma {:induction false} ConcatAppend(ss: seq<seq<string>>, s: seq<string>)
    ensures Concat(ss + [s]) == Concat(ss) + s
    decreases |ss|
  {
    if ss == [] {
      assert [s][1..] == [];
    } else {
      assert (ss + [s])[0] == ss[0] && (ss + [s])[1..] == ss[1..] + [s];
      ConcatAppend(ss[1..], s);
    }
  }



  /** A `Function` validator passes on a true verdict, reports its own
      message (`Invalid value` unless given another) on a false verdict or
      an empty string, and reports any other string as the message. */
  lemma FunctionVerdicts(pred: Value -> PredResult, message: string, v: Value)
    ensures pred(v) == Verdict(true) ==> Check(Function(pred, message), v) == Pass
    ensures pred(v) == Verdict(false) || pred(v) == Reason("") ==> Check(Function(pred, message), v) == Fail(Text(message))
    ensures pred(v).Reason? && pred(v).text != "" ==> Check(Function(pred, message), v) == Fail(Text(pred(v).text))
    ensures FunctionOf(pred) == Function(pred, "Invalid value")
  {
  }
}
