# colander: schema conversion and its error tree, in Dafny

colander converts data between a serialized form (strings, lists and dicts
from a form or a wire format) and native Python values. The conversion runs
through a tree of schema nodes. Every `SchemaNode` has a *type* that converts
one value in both directions, and optionally a *validator* that runs after
deserialization.

The three structural types recurse into the node's children:

- **Mapping**: dicts keyed by the children's names. It has an `unknown` policy: `ignore`, `raise` or `preserve`. It also has a `partial` flag.
- **Tuple**: fixed arity, one child per element.
- **Sequence**: a list whose elements all go through the one child. Its `accept_scalar` flag makes a non-iterable value count as a one-element list.

The leaf converters `Integer` and `Boolean` turn strings into numbers and truth values and back. The validators are `Range`, `Length`, `OneOf`, `All` and `Function`.

A failed conversion raises `Invalid`, an error tree that mirrors the schema tree:

- A container visits **every** child, even after one fails.
- It raises one aggregate error with no message of its own.
- That error holds each failing child's error at the child's index.
- `asdict()` flattens the tree into a table from dotted paths (`seq.0.0`, `tup.0`) to the messages along each path, joined with `"; "`.

The behaviour modelled is the one the repository's tests assert
(`colander/tests.py`) together with the contract of `colander/interfaces.py`:
the Type contract (`serialize`, `deserialize`, `pserialize`, `pdeserialize`)
and the Validator contract.

The modules, in dependency order:

| module | file | what it holds |
|---|---|---|
| `Base` | base.dfy | `Option`, `Result` |
| `Strings` | strings.dfy | decimal rendering and parsing of integers, `join`, ASCII lower-casing, title-casing, the ordering used to render dict keys |
| `Values` | values.dfy | the Python values the core handles (`None`, bool, int, str, list, tuple, dict), `repr`, `str`, truthiness |
| `Validators` | validators.dfy | the validators and what each passes and reports |
| `Schema` | schema.dfy | types, schema nodes, `required`, `__getitem__`, `add`, `clone`, the Mapping constructor |
| `Errors` | errors.dfy | the `Invalid` tree, `add`, `__setitem__`, `_keyname`, `paths`, `asdict` |
| `Convert` | convert.dfy | `deserialize`/`serialize` through a schema tree, as recursive functions; each container is a fold over its children |
| `Containers` | containers.dfy | what the containers promise: every child is visited, the result holds exactly the converted values, and the aggregate error holds exactly the failures |
| `RoundTrip` | roundtrip.dfy | the Type contract's round trip in both directions |
| `Partial` | partial.dfy | `pdeserialize` against `deserialize` |
| `Raised` | raised.dfy | the shape of every error a schema raises, and the keys `asdict` gives its children |
| `Engine` | engine.dfy | the imperative engine: error and schema objects updated in place, and containers that loop over their children, each method proved equal to the functions of `Convert` |
| `Scenarios` | scenarios.dfy | the inputs of colander's own tests, with the results and messages they expect |

In Python the conversion raises. Here it returns `Result<Value, Invalid>`,
and `Err` is the raise. The validator's error is the node's own error, not
wrapped. `serialize` runs no validator.

## Model

| member | source | states |
|---|---|---|
| Errors.Add | colander/tests.py:25-30 | `add` appends the child after the existing children and changes nothing else about the error |
| Errors.SetItem | colander/tests.py:103-118 | `error[name] = msg` fails (KeyError) exactly when the node has no child called `name`; otherwise it appends one error bound to the first such child, at that child's index, carrying `msg` and no children, after the existing children; the error's own node, message and position are kept |
| Errors.PathsAreChains | colander/tests.py:56-65 | every path `paths()` yields starts at the error, steps each time to a child of the error before, and ends at a leaf |
| Errors.ChainsArePaths | colander/tests.py:56-65 | every root-to-leaf chain of the tree is among the paths `paths()` yields |
| Errors.PathsInChildOrder | colander/tests.py:56-65 | `paths()` is depth first in attachment order: for children `i < j`, all paths through child `i` come before all paths through child `j`, with only the paths of the children between them in between |
| Errors.TableEntries | colander/tests.py:67-82 | the flattened table has one key per chain (the key parts joined with "."), and a chain whose key no later chain repeats maps to its messages joined with "; " |
| Errors.AsDictOfDistinctKeys | colander/tests.py:67-82 | when no two chains share a key, `asdict()` maps each chain's key to that chain's joined messages and has no other entry |
| Errors.SilentRoot | colander/tests.py:1265-1288 | an unnamed root with no message of its own (a top-level mapping's aggregate) adds nothing to any key or message, which is why the keys read `int` and `tup.0` |
| Schema.MakeMapping | colander/tests.py:247-256 | the Mapping constructor accepts exactly `ignore`, `raise` and `preserve`, each giving its own policy, and refuses anything else (ValueError) |
| Schema.MakeNode | colander/tests.py:1101-1132 | the constructor keeps the type, children, name, default, validator and description it is given; the title is the given one, or else the name with its first letter upper-cased; the node is required exactly when it has no default; the creation counter advances |
| Schema.IndexOf | colander/tests.py:1172-1180 | the position found holds a child of that name and no earlier child has it; nothing is found exactly when no child has the name (KeyError) |
| Schema.Add | colander/tests.py:1161-1164 | `add` appends the child and changes nothing else about the node |
| Schema.AddThenGetItem | colander/tests.py:1161-1180 | after `add`, lookup by name finds an earlier child of that name first, otherwise the added child, otherwise nothing |
| Schema.Clone | colander/tests.py:1182-1200 | the clone has the original's type, name and other fields, and its children are clones of the original's |
| Strings.TitleOf | colander/tests.py:1101-1108 | the default title has the name's length and the name's first letter upper-cased, with underscores turned into spaces |
| Strings.IntRoundTrip | colander/tests.py:690-709 | parsing the decimal text of any integer gives the integer back (`'1'` to `1` and `1` to `'1'`) |
| Strings.ParseIntRefusesNonDigits | colander/tests.py:683-702 | a text with no digit at all is not a number (`int('P')` fails) |
| Strings.Lower | colander/tests.py:782-789 | lower-casing keeps the length and lower-cases each ASCII capital, so `'FALSE'` reads as `'false'` |
| Strings.SortedKeys | colander/tests.py:278-283 | the keys of a dict, as rendered in a message, are exactly its keys, each once, in increasing order |
| Validators.Check | colander/interfaces.py:1-12 | a validator either passes or fails with at least one message string: it signals failure only by raising `Invalid` with a message |
| Validators.Failures | colander/tests.py:120-136 | the messages `All` gathers are empty exactly when every validator passes |
| Validators.AllCollectsEveryFailure | colander/tests.py:120-136 | `All` passes exactly when every validator passes; on failure its message is the concatenation, in the order of the validators, of each failing validator's messages, with nothing from a passing one |
| Validators.FailuresAppend | colander/tests.py:120-136 | a validator added at the end of `All` adds its own messages (if it fails) after everything the earlier validators reported |
| Validators.RangeInclusive | colander/tests.py:166-195 | `Range` passes exactly the values within both bounds, inclusive; below the minimum it reports `<v> is less than minimum value <min>`, above the maximum `<v> is greater than maximum value <max>` |
| Validators.LengthInclusive | colander/tests.py:197-226 | `Length` passes exactly the lengths within both bounds, inclusive; otherwise it reports `Shorter than minimum length <n>` or `Longer than maximum length <n>` |
| Validators.OneOfMembership | colander/tests.py:228-240 | `OneOf` passes exactly the listed values |
| Validators.FunctionVerdicts | colander/tests.py:138-160 | `Function` passes on True, reports its own message (`Invalid value` by default) on False or an empty string, and reports any other string as the message |
| Convert.ValidatorAfterType | colander/tests.py:1142-1159 | a node's conversion is its type's; a failed type conversion is returned as is and no validator runs; when deserializing, a converted value is returned exactly when the validator passes it, and a failing validator's message becomes the node's own error, unwrapped; serializing runs no validator |
| Convert.SDefault | colander/tests.py:1133-1140 | `sdefault` is absent exactly when the node is required; when present it is the node's serialization of its default |
| Convert.Leftover | colander/tests.py:278-290 | the leftover entries are exactly the input's keys that name no child, with their input values |
| Convert.ChildSlot | colander/tests.py:271-331 | a child whose key the input holds converts that value through its own node: the converted value is stored, or the child's error is kept, re-attached at the child's index; a mapping child's failure sits at the child's index; an absent child with a default takes the default, both ways; when deserializing, an absent child without a default is left out under `partial` and otherwise fails with `"<name>" is required but missing` bound to the child; a child is left out only when it is absent, has no default, and the conversion is a serialization or partial; under partial deserialization only a child present in the input can fail |
| Convert.ElementIndex | colander/tests.py:402-407 | a tuple's element `i` goes through child `i`, a sequence's every element through its one child |
| Containers.ElementsFoldOk | colander/tests.py:425-434 | the element fold records no error exactly when every element converts, and then holds the converted elements in order |
| Containers.ElementsFoldErrors | colander/tests.py:425-434 | every error the element fold records is a failing element's own error re-attached at that element's index, in increasing index order |
| Containers.ElementsFoldComplete | colander/tests.py:425-434 | every failing element has its error recorded (no stop at the first failure), so when all elements fail there is one error per element |
| Containers.MappingFoldErrors | colander/tests.py:292-301 | the mapping fold records no error exactly when no child fails; each recorded error is a failing child's, at the child's index, in increasing order |
| Containers.MappingFoldComplete | colander/tests.py:292-301 | every failing child has its error recorded, whatever the children before it did |
| Containers.MappingFoldEntries | colander/tests.py:271-276 | the fold stores values only under names of children that were filled, and with distinct names each filled child's value is stored under its name |
| Containers.ElementsRunOk | colander/tests.py:396-407 | a well-shaped tuple or sequence succeeds exactly when every element does, giving a tuple (Tuple) or a list (Sequence) of the converted elements in order, of the input's length |
| Containers.ElementsRunErrors | colander/tests.py:527-533 | when an element fails, the tuple or sequence raises one error bound to its node, with no message and no position, holding exactly the failing elements' errors at their indexes, in order; with all elements failing there is one child error per element |
| Containers.ElementsShapeErrors | colander/tests.py:387-423 | a non-iterable value (unless a sequence accepts scalars) fails with `<v> is not iterable`, and a tuple of the wrong length with the arity message, each bound to the node itself with no child errors; an accepted scalar becomes a one-element list |
| Containers.MappingRunOutcome | colander/tests.py:278-301 | a mapping succeeds exactly when no child fails and no key is left over under `raise`; leftover keys under `raise` fail with `Unrecognized keys in mapping: ` and the leftover entries |
| Containers.MappingRunResult | colander/tests.py:271-290 | on success each filled child's value is under its name, no omitted child's name is present, and the only other keys are the leftover ones, which `preserve` copies with their input values and serialization never keeps |
| Containers.MappingRunErrors | colander/tests.py:292-301 | when children fail, the mapping raises one error bound to its node, with no message, holding exactly the failing children's errors at their indexes, in order |
| Containers.MissingRequiredReported | colander/tests.py:313-321 | deserializing a non-partial mapping, a child that is absent and has no default makes it fail, with an error bound to that child at its index saying it is required, unless leftover keys are refused first |
| Containers.UnknownRaise | colander/tests.py:278-283 | under `raise`, leftover keys make deserialization fail with one error naming exactly those keys and their values; without leftover keys, `raise` succeeds and fails exactly as `ignore` does, with the same result |
| Containers.NotAMappingRefused | colander/tests.py:258-263 | a value that is not a dict is refused, both ways, by the mapping's own node with a message starting `<v> is not a mapping type` |
| RoundTrip.BooleanWords | colander/tests.py:782-803 | the words `serialize` writes for booleans read back as the same truth values |
| RoundTrip.RoundTrip | colander/interfaces.py:15-21 | for a value the schema describes, `serialize` succeeds, and deserializing its output, with or without `partial`, gives the value back |
| RoundTrip.EmptyMappingSerializes | colander/tests.py:353-361 | every well-formed mapping serializes the empty dict without error: each missing child takes its default (copied, not serialized), a nested mapping is serialized from an empty dict, and any other child without a default is left out |
| RoundTrip.DeserializedSerializes | colander/interfaces.py:35-41 | for a schema whose defaults serialize, whose mapping children have distinct names and whose custom leaves can write back what they read, whatever deserialization accepts, `serialize` accepts |
| Partial.PartialAgrees | colander/interfaces.py:68-78 | whatever `deserialize` accepts, `pdeserialize` accepts with the same result |
| Partial.PartialReportsNoMissing | colander/interfaces.py:68-78 | `pdeserialize` ignores missing components: every child error of a mapping's error under `pdeserialize` belongs to a child whose key the input holds |
| Partial.PartialIsAlias | colander/interfaces.py:68-78 | where no mapping could report a missing child, `pdeserialize` is `deserialize`, errors included |
| Raised.RunRaisedBy | colander/tests.py:292-301 | every error a node raises is bound to that node, unattached, carries a message exactly when it has no children, and has each child error at a valid index, bound to the child node that describes that index, recursively |
| Raised.ChildKeys | colander/tests.py:1265-1288 | `asdict` keys a raised error's children by their decimal index under a tuple or sequence, and by the failing child's name under a mapping |
| Engine.ErrorTree.constructor | colander/tests.py:19-23 | a new error holds its node and message, no position and no children |
| Engine.ErrorTree.Add | colander/tests.py:25-30 | `add` updates the error in place exactly as `Errors.Add` describes |
| Engine.ErrorTree.SetItem | colander/tests.py:103-118 | `error[name] = msg` reports the KeyError exactly when there is no such child and then leaves the error unchanged; otherwise it updates the error exactly as `Errors.SetItem` describes |
| Engine.SchemaTree.constructor | colander/tests.py:1101-1124 | a new node holds exactly what `Schema.MakeNode` builds |
| Engine.SchemaTree.Add | colander/tests.py:1161-1164 | `add` appends to the node's children in place, exactly as `Schema.Add` describes |
| Engine.RunNode | colander/tests.py:1142-1159 | the node runs its type, then (deserializing) its validator, and gives exactly the result `Convert.Run` defines |
| Engine.ConvertType | colander/interfaces.py:14-53 | dispatching on the type gives exactly the type's conversion as `Convert.TypeRun` defines it |
| Engine.ConvertMapping | colander/tests.py:265-380 | the loop over the children, which grows the result dict, creates the aggregate error at the first failure and strikes consumed keys from a copy of the input, gives exactly `Convert.MappingRun` |
| Engine.VisitChild | colander/tests.py:303-331 | one mapping child is converted, defaulted, left out or reported missing exactly as `Convert.SlotAt` says |
| Engine.ConvertElements | colander/tests.py:387-572 | the loop over the elements, which appends converted values and attaches failures at their indexes, gives exactly `Convert.ElementsRun` |
| Scenarios.MappingEmpty | colander/tests.py:265-269 | `{}` through a mapping without children gives `{}` both ways |
| Scenarios.MappingOk | colander/tests.py:271-276 | `{'a': 1}` through a mapping with child `a` gives `{'a': 1}` |
| Scenarios.MappingUnknownRaise | colander/tests.py:278-283 | under `raise`, `{'a': 1, 'b': 2}` fails with `Unrecognized keys in mapping: {'b': 2}` |
| Scenarios.MappingUnknownPreserve | colander/tests.py:285-290 | under `preserve`, `{'a': 1, 'b': 2}` comes back whole |
| Scenarios.MappingChildrenFail | colander/tests.py:292-301 | two failing children give one error with no message and two child errors |
| Scenarios.MappingMissingDefault | colander/tests.py:303-311 | a missing child with default `'abc'` gets it, both ways |
| Scenarios.MappingMissingRequired | colander/tests.py:313-321 | a missing child without a default is reported as `"b" is required but missing`, at index 1, bound to child `b` |
| Scenarios.MappingPartial | colander/tests.py:323-331 | a partial mapping, and a serialization, leave a missing child out |
| Scenarios.MappingSerializeUnknown | colander/tests.py:373-380 | serialization drops keys that name no child |
| Scenarios.NotAMappingMessage | colander/tests.py:258-263 | `None` is refused with `None is not a mapping type`, both ways |
| Scenarios.TupleNotIterable | colander/tests.py:387-394 | `None` through a tuple fails with `None is not iterable`, bound to the tuple's node |
| Scenarios.TupleEchoes | colander/tests.py:396-407 | `()` and `('a',)` come back as they went in |
| Scenarios.TupleArity | colander/tests.py:409-423 | `('a', 'b')` and `()` against one child fail with the arity messages `(expected 1, was 2)` and `(expected 1, was 0)`, when deserializing and likewise when serializing |
| Scenarios.TupleChildrenFail | colander/tests.py:425-434 | two failing elements give one error with no message and their two errors at indexes 0 and 1 |
| Scenarios.SequenceNotIterable | colander/tests.py:495-503 | `None` through a sequence that does not accept scalars fails with `None is not iterable` |
| Scenarios.SequenceScalar | colander/tests.py:505-510 | a sequence that accepts scalars turns `None` into `[None]`, both ways |
| Scenarios.SequenceEchoes | colander/tests.py:512-525 | `()` gives `[]` and `('a',)` gives `['a']` |
| Scenarios.SequenceChildrenFail | colander/tests.py:527-533 | two failing elements give two child errors at indexes 0 and 1, both bound to the one child |
| Scenarios.IntegerCases | colander/tests.py:669-709 | `''` is `Required` or the default, `'P'` is not a number, `'1'` gives `1`, and `1` serializes to `'1'` |
| Scenarios.BooleanCases | colander/tests.py:768-803 | `''` is `Required` or reads the default as true; `'false'`, `'FALSE'` and `'0'` are false and other strings true; truthy values serialize to `'true'`, others to `'false'` |
| Scenarios.RangeCases | colander/tests.py:183-195 | the Range messages for a value below and above its bounds, and a pass at an inclusive bound |
| Scenarios.LengthCases | colander/tests.py:214-226 | the Length messages for a value too short and too long, and a pass at an inclusive bound |
| Scenarios.OneOfCases | colander/tests.py:228-240 | `None` against `[1, 2]` reports `"None" is not one of 1, 2` |
| Scenarios.CombinatorCases | colander/tests.py:120-160 | `All` reports `['msg1', 'msg2']`, and `Function`'s verdicts give `Invalid value` or the returned string |
| Scenarios.NodeCases | colander/tests.py:1101-1159 | the default title `Name`, `required`, `sdefault`, a pass-through type both ways, and a validator's message on the node's own error |
| Scenarios.ExcPaths | colander/tests.py:56-65 | the tree exc1→{exc2→exc3, exc4} has exactly the paths (exc1, exc2, exc3) and (exc1, exc4) |
| Scenarios.ExcAsDict | colander/tests.py:67-82 | the same tree flattens to `{'node1.node2.3': 'exc1; exc2; exc3', 'node1.node4': 'exc1; exc4'}` |
| Scenarios.KeyNames | colander/tests.py:32-54 | an error is keyed by its node's name, except under a positional parent, where it is keyed by its position |
| Scenarios.SetItemCases | colander/tests.py:103-118 | an unknown name is a KeyError; `found` gets one child error at index 0 bound to the child |
| Scenarios.FormAsDict | colander/tests.py:1265-1288 | a mapping holding `int` (Range 0..10) and a tuple `tup`, given `'20'` and `('s', 's')`, flattens its error to `{'int': '20 is greater than maximum value 10', 'tup.0': '"s" is not a number'}` |

## Left out

- `String`, `Float`, `Date`, `DateTime` and `GlobalObject`: byte encodings, floating point, clocks and time zones, and module imports. A node of any other type is the `Custom` type, given by its two conversion functions.
- Declarative schema classes and the module-level creation counter: the counter is an argument to the constructor, which hands back the next one.
- Exceptions: a raise is an `Err` result. The Python exceptions that escape the model are not modelled. These are a `Function` predicate raising `TypeError`, and a value whose `str` raises (the "not a string" failure of `Boolean`).
- `__repr__` of a schema node (a memory address) and `__str__` of an error (the repr of `asdict()`).
- Python `repr` of values is modelled for the values the core meets: `None`, booleans, integers, plain-ASCII strings in single quotes without escaping, lists, tuples and dicts. Python 2 dict order is unspecified; dicts are rendered with their keys in increasing order.
- Python's `1 == True` equality (`OneOf` membership and dict keys compare the modelled values structurally), and `int()` accepting surrounding whitespace.
- `Range` and `Length` on values with no number or length pass (the comparison a Python 2 mixed-type `<` would make is not modelled).
- A tuple given a dict: Python iterates the dict's keys; here a dict is not iterable.
- An error not bound to any node (`Invalid(None, msg)`): every error here has a node.
- The parent back-reference, object identity and aliasing of errors and schema nodes, and the identity test in `clone` (over values a clone equals the original).
- A schema node's key under a non-positional parent comes from its name only. The fallback to the message as a last-resort label is not modelled. The tests never reach it.
- An `All` validator nested inside another contributes its messages flattened into the outer list.
- Serializing a mapping with a missing child that is itself a mapping serializes that child from an empty dict. Failures there are attached like any other child's.
- Mapping children with duplicate names: each child looks its own value up in the input. Nothing is popped, so two children of the same name both see the value.
- Containers.NotAMappingRefused: colander builds the result with Python's `dict(value)`, so it also accepts a list of key-value pairs (`[('a', 1)]` gives `{'a': 1}`). Here every value other than a dict is refused.
- Containers.NotAMappingRefused: colander's message goes on with `: <reason>`, the text of the exception `dict(value)` raised; the tests check only the prefix `<v> is not a mapping type`, and the model's message is that prefix alone. The same holds for `Convert.MappingRun` and `Engine.ConvertMapping`.
- Containers.UnknownRaise: the "no leftover keys" half assumes every input key names a child. It compares `raise` with `ignore` and says nothing of `preserve`.
- Convert.PSerialize is `serialize` itself. The Type contract allows a type-dependent partial serialization; no modelled type has one.
- Strings.TitleOf: the default title upper-cases only the first character and turns underscores into spaces (ASCII letters only), so `first_name` gives `First name`. colander's tests only show one-word names (`name` gives `Name`, `thing` gives `Thing`) and do not decide whether every word is capitalised, as Python's `str.title` would do (`First Name`); the model does not do that.

## Notes on the behaviour followed

- Keys of errors under a positional parent: in `colander/tests.py:67-82`, the error bound to `node3` under the positional `node2` is keyed `3`, not `node3`. The model follows this: under a positional parent an error is keyed by its position even when its node has a name, and only under any other parent by its node's name.
- The root of a schema usually has an empty name, and its aggregate error has no message. Such a root adds nothing to any key, so the functional example's keys read `int` and `tup.0`, not `schema.int`.
- `Boolean` given `''` with a default reads the default's `str` as a truth value. So the default `'default'` gives `True`, as `colander/tests.py:775-780` expects.
