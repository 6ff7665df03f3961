/** The error tree (`Invalid`): an error bound to the schema node that raised
    it, with a message and the errors of the children that failed under it,
    and its flattening into a table from dotted path to joined message.

    The parent back-reference of colander's errors is not stored: an error's key
    depends only on whether its parent's node is positional, and along a
    root-to-leaf chain the parent of each error is the one before it. */
module Errors {
  import opened Base
  import opened Strings
  import opened Values
  import opened Schema

  /** An error raised for `node`. `pos` is the index under which a container
      attached it to its parent; `children` are the errors attached to it, in
      order of attachment. */
  datatype Invalid = Invalid(node: Node, msg: Msg, pos: Option<nat>, children: seq<Invalid>)

  /** `Invalid(node, msg)`: no position and no children yet. */
  function NewInvalid(node: Node, msg: Msg): Invalid {
    Invalid(node, msg, None, [])
  }

  /** `error.add(child)`: the child goes after the existing children. */
  function Add(e: Invalid, child: Invalid): (r: Invalid)
    ensures r.children == e.children + [child]
    ensures r.node == e.node && r.msg == e.msg && r.pos == e.pos
  {
    e.(children := e.children + [child])
  }

  /** `error[name] = msg`: attaches an error for the first child of the
      error's node called `name`, at that child's index; None stands for the
      KeyError raised when the node has no such child. */
  function SetItem(e: Invalid, name: string, msg: string): (r: Option<Invalid>)
    ensures r.None? <==> GetItem(e.node, name).None?
    ensures r.Some? ==> r.value.node == e.node && r.value.msg == e.msg && r.value.pos == e.pos
    ensures r.Some? ==> |r.value.children| == |e.children| + 1 && r.value.children[..|e.children|] == e.children
    ensures r.Some? ==>
              var added := r.value.children[|e.children|];
              && added.node == GetItem(e.node, name).value
              && added.node.name == name
              && added.msg == Text(msg)
              && added.pos == IndexOf(e.node.children, name)
              && added.children == []
  {
    var i := IndexOf(e.node.children, name);
    if i.None? then None
    else Some(Add(e, Invalid(e.node.children[i.value], Text(msg), Some(i.value), [])))
  }

  /** Decimal text of a position (`str(None)` when there is none). */
  function PosName(pos: Option<nat>): string {
    if pos.None? then "None" else NatToString(pos.value)
  }

  /** `_keyname`: under a positional parent an error is keyed by its
      position, whatever its node is called; otherwise by its node's name. */
  function KeyName(e: Invalid, parentPositional: bool): string {
    if parentPositional then PosName(e.pos) else e.node.name
  }

  /** `paths()`: every chain from this error down to a leaf error, depth
      first, children in the order they were attached. */
  function Paths(e: Invalid): seq<seq<Invalid>>
    decreases e, 1
  {
    if e.children == [] then [[e]] else Prefixed(e, PathsOfAll(e.children))
  }

  function PathsOfAll(cs: seq<Invalid>): seq<seq<Invalid>>
    decreases cs
  {
    if cs == [] then [] else Paths(cs[0]) + PathsOfAll(cs[1..])
  }

  function Prefixed(e: Invalid, ps: seq<seq<Invalid>>): (r: seq<seq<Invalid>>)
    ensures |r| == |ps| && forall i :: 0 <= i < |ps| ==> r[i] == [e] + ps[i]
  {
    seq(|ps|, i requires 0 <= i < |ps| => [e] + ps[i])
  }

  /** `p` runs from `e` to a leaf, each step going to a child of the step
      before. */
  ghost predicate IsChain(e: Invalid, p: seq<Invalid>) {
    && |p| > 0
    && p[0] == e
    && (forall i :: 0 <= i < |p| - 1 ==> p[i + 1] in p[i].children)
    && p[|p| - 1].children == []
  }

  lemma {:induction false} PathsOfAllMember(cs: seq<Invalid>, q: seq<Invalid>)
    ensures q in PathsOfAll(cs) <==> exists c :: c in cs && q in Paths(c)
    decreases cs
  {
    if cs != [] {
      PathsOfAllMember(cs[1..], q);
      assert q in PathsOfAll(cs) <==> q in Paths(cs[0]) || q in PathsOfAll(cs[1..]);
      if q in Paths(cs[0]) {
        assert cs[0] in cs;
      } else if q in PathsOfAll(cs[1..]) {
        var c :| c in cs[1..] && q in Paths(c);
        assert c in cs;
      } else {
        forall c | c in cs
          ensures q !in Paths(c)
        {
          if c != cs[0] {
            assert c in cs[1..];
          }
        }
      }
    }
  }

  /** Every path `paths()` yields is a root-to-leaf chain. */
  lemma {:induction false} PathsAreChains(e: Invalid, p: seq<Invalid>)
    requires p in Paths(e)
    ensures IsChain(e, p)
    decreases e
  {
    if e.children != [] {
      var i :| 0 <= i < |Prefixed(e, PathsOfAll(e.children))| && Prefixed(e, PathsOfAll(e.children))[i] == p;
      var q := PathsOfAll(e.children)[i];
      assert p == [e] + q;
      PathsOfAllMember(e.children, q);
      var c :| c in e.children && q in Paths(c);
      PathsAreChains(c, q);
      forall j | 0 <= j < |p| - 1
        ensures p[j + 1] in p[j].children
      {
        if j > 0 {
          assert p[j] == q[j - 1] && p[j + 1] == q[j];
        }
      }
    }
  }

  /** Every root-to-leaf chain is among the paths `paths()` yields. */
  lemma {:induction false} ChainsArePaths(e: Invalid, p: seq<Invalid>)
    requires IsChain(e, p)
    ensures p in Paths(e)
    decreases e
  {
    if |p| == 1 {
      assert p == [e];
    } else {
      var c := p[1];
      var q := p[1..];
      assert IsChain(c, q) by {
        forall j | 0 <= j < |q| - 1
          ensures q[j + 1] in q[j].children
        {
          assert q[j] == p[j + 1] && q[j + 1] == p[j + 2];
        }
      }
      ChainsArePaths(c, q);
      PathsOfAllMember(e.children, q);
      var ps := PathsOfAll(e.children);
      var k :| 0 <= k < |ps| && ps[k] == q;
      assert p == [e] + q;
      assert Prefixed(e, ps)[k] == p;
    }
  }

  /** The paths of a list of children, split anywhere, are the paths of
      the first part followed by those of the second. */
  lemma {:induction false} PathsOfAllAppend(a: seq<Invalid>, b: seq<Invalid>)
    ensures PathsOfAll(a + b) == PathsOfAll(a) + PathsOfAll(b)
    decreases a
  {
    if a == [] {
      assert a + b == b;
    } else {
      assert (a + b)[0] == a[0] && (a + b)[1..] == a[1..] + b;
      PathsOfAllAppend(a[1..], b);
    }
  }

  /** The paths of children `cs` list, for `i < j`, the paths through
      `cs[i]` all together before those through `cs[j]`. */
  lemma {:induction false} PathsOfAllInOrder(cs: seq<Invalid>, i: nat, j: nat)
    requires i < j < |cs|
    ensures PathsOfAll(cs) == PathsOfAll(cs[..i]) + (Paths(cs[i]) + (PathsOfAll(cs[i + 1..j])
                                + (Paths(cs[j]) + PathsOfAll(cs[j + 1..]))))
  {
    var before, between, after := cs[..i], cs[i + 1..j], cs[j + 1..];
    var fromJ := [cs[j]] + after;
    var afterI := between + fromJ;
    var fromI := [cs[i]] + afterI;
    assert cs == before + fromI;
    PathsOfAllAppend(before, fromI);
    assert fromI[0] == cs[i] && fromI[1..] == afterI;
    assert PathsOfAll(fromI) == Paths(cs[i]) + PathsOfAll(afterI);
    PathsOfAllAppend(between, fromJ);
    assert fromJ[0] == cs[j] && fromJ[1..] == after;
    assert PathsOfAll(fromJ) == Paths(cs[j]) + PathsOfAll(after);
  }

  /** `paths()` is depth first with children in attachment order: for
      children `i < j`, the paths through child `i` come, all together,
      before the paths through child `j`, and only the paths through the
      children between them lie in between. */
  lemma PathsInChildOrder(e: Invalid, i: nat, j: nat)
    requires i < j < |e.children|
    ensures Paths(e) == Prefixed(e, PathsOfAll(e.children[..i]) + (Paths(e.children[i])
                                    + (PathsOfAll(e.children[i + 1..j]) + (Paths(e.children[j])
                                    + PathsOfAll(e.children[j + 1..])))))
  {
    PathsOfAllInOrder(e.children, i, j);
  }



  /** The key parts along a chain, skipping empty ones; `parentPositional`
      says whether the node of the error before the chain is positional. */
  function KeyParts(p: seq<Invalid>, parentPositional: bool): seq<string>
    decreases |p|
  {
    if p == [] then []
    else
      var k := KeyName(p[0], parentPositional);
      (if k == "" then [] else [k]) + KeyParts(p[1..], Positional(p[0].node.typ))
  }

  /** The messages along a chain, each error contributing its strings. */
  function MessageParts(p: seq<Invalid>): seq<string>
    decreases |p|
  {
    if p == [] then [] else Parts(p[0].msg) + MessageParts(p[1..])
  }

  /** The table key of a chain: its key parts joined with dots. */
  function PathKey(p: seq<Invalid>): string {
    Join(".", KeyParts(p, false))
  }

  /** The table value of a chain: its messages joined with "; ". */
  function PathMessage(p: seq<Invalid>): string {
    Join("; ", MessageParts(p))
  }

  /** The table built from chains in order; a later chain with the same key
      overwrites an earlier one. */
  function Table(ps: seq<seq<Invalid>>): map<string, string>
    decreases |ps|
  {
    if ps == [] then map[]
    else Table(ps[..|ps| - 1])[PathKey(ps[|ps| - 1]) := PathMessage(ps[|ps| - 1])]
  }

  /** `asdict()`: one entry per chain from the error to a leaf. */
  function AsDict(e: Invalid): map<string, string> {
    Table(Paths(e))
  }

  /** The table has an entry for each chain and no other; a chain whose key
      no later chain repeats keeps its own joined message. */
  lemma {:induction false} TableEntries(ps: seq<seq<Invalid>>)
    ensures Table(ps).Keys == set p | p in ps :: PathKey(p)
    ensures forall j :: 0 <= j < |ps| && (forall k :: j < k < |ps| ==> PathKey(ps[k]) != PathKey(ps[j])) ==>
              Table(ps)[PathKey(ps[j])] == PathMessage(ps[j])
    decreases |ps|
  {
    if ps != [] {
      var init := ps[..|ps| - 1];
      TableEntries(init);
      assert forall p :: p in ps <==> p in init || p == ps[|ps| - 1];
      forall j | 0 <= j < |ps| && (forall k :: j < k < |ps| ==> PathKey(ps[k]) != PathKey(ps[j]))
        ensures Table(ps)[PathKey(ps[j])] == PathMessage(ps[j])
      {
        if j < |ps| - 1 {
          assert init[j] == ps[j];
          assert forall k :: j < k < |init| ==> init[k] == ps[k];
        }
      }
    }
  }

  /** When no two chains share a key, `asdict()` maps each chain's key to
      that chain's joined messages, and has one entry per chain. */
  lemma AsDictOfDistinctKeys(e: Invalid)
    requires forall i, j :: 0 <= i < j < |Paths(e)| ==> PathKey(Paths(e)[i]) != PathKey(Paths(e)[j])
    ensures forall p :: p in Paths(e) ==> PathKey(p) in AsDict(e) && AsDict(e)[PathKey(p)] == PathMessage(p)
    ensures AsDict(e).Keys == set p | p in Paths(e) :: PathKey(p)
  {
    TableEntries(Paths(e));
  }

  /** A nameless root with no message of its own (the aggregate a top-level
      mapping raises) adds nothing to the key or the message of a chain. */
  lemma SilentRoot(e: Invalid, q: seq<Invalid>)
    requires e.node.name == "" && Parts(e.msg) == []
    ensures PathKey([e] + q) == Join(".", KeyParts(q, Positional(e.node.typ)))
    ensures PathMessage([e] + q) == PathMessage(q)
  {
    var p := [e] + q;
    assert p[0] == e && p[1..] == q;
    assert KeyParts(p, false) == KeyParts(q, Positional(e.node.typ));
    assert MessageParts(p) == MessageParts(q);
  }
}
