/** What the writer puts in its strings block and in the size field, neither of which the reader compares. */
module FdtStrings {
  import opened Bytes
  import opened Fdt
  import opened FdtWriter

  /** Every property name of a subtree as often as it is used, a node's own before its children's. */
  function PropNames(props: seq<Prop>): seq<seq<Byte>> {
    if props == [] then [] else PropNames(props[..|props| - 1]) + [props[|props| - 1].name]
  }

  function NamesUsed(node: Node): seq<seq<Byte>>
    decreases node
  {
    PropNames(node.props) + NamesUsedBy(node.children)
  }

  function NamesUsedBy(nodes: seq<Node>): seq<seq<Byte>>
    decreases nodes
  {
    if nodes == [] then [] else NamesUsedBy(nodes[..|nodes| - 1]) + NamesUsed(nodes[|nodes| - 1])
  }

  /** `names` with those of `more` that are new, each once, where first used. */
  function Merged(names: seq<seq<Byte>>, more: seq<seq<Byte>>): (r: seq<seq<Byte>>)
    ensures names <= r
  {
    if more == [] then names
    else
      var before, last := Merged(names, more[..|more| - 1]), more[|more| - 1];
      if last in before then before else before + [last]
  }

  predicate Once(names: seq<seq<Byte>>) {
    forall i, j | 0 <= i < j < |names| :: names[i] != names[j]
  }

  /** Each name, NUL-terminated. */
  function Block(names: seq<seq<Byte>>): seq<Byte> {
    if names == [] then [] else Block(names[..|names| - 1]) + names[|names| - 1] + [0]
  }

  lemma {:induction false} MergedOnce(names: seq<seq<Byte>>, more: seq<seq<Byte>>)
    requires Once(names)
    ensures Once(Merged(names, more))
    ensures forall x :: x in Merged(names, more) <==> x in names || x in more
  {
    if more != [] {
      var k := |more| - 1;
      MergedOnce(names, more[..k]);
      assert more == more[..k] + [more[k]];
    }
  }

  lemma {:induction false} MergedJoin(names: seq<seq<Byte>>, a: seq<seq<Byte>>, b: seq<seq<Byte>>)
    ensures Merged(names, a + b) == Merged(Merged(names, a), b)
    decreases |b|
  {
    if b == [] {
      assert a + b == a;
    } else {
      assert (a + b)[..|a + b| - 1] == a + b[..|b| - 1];
      MergedJoin(names, a, b[..|b| - 1]);
    }
  }

  /** The table holds exactly those names, in that order. */
  ghost predicate Holds(tab: Table, names: seq<seq<Byte>>) {
    tab.strings == Block(names) && forall x :: x in tab.offsets <==> x in names
  }

  lemma {:induction false} InternHolds(tab: Table, names: seq<seq<Byte>>, name: seq<Byte>)
    requires Holds(tab, names)
    ensures Holds(Intern(tab, name), if name in names then names else names + [name])
  {
  }

  lemma {:induction false} PropsHold(props: seq<Prop>, tab: Table, names: seq<seq<Byte>>)
    requires Holds(tab, names)
    ensures Holds(EmitProps(props, tab).tab, Merged(names, PropNames(props)))
  {
    hide Holds, PropBytes;
    if props != [] {
      var k := |props| - 1;
      PropsHold(props[..k], tab, names);
      var used := PropNames(props[..k]);
      assert (used + [props[k].name])[..|used|] == used;
      InternHolds(EmitProps(props[..k], tab).tab, Merged(names, used), props[k].name);
    }
  }

  lemma {:induction false} NodeHolds(node: Node, tab: Table, names: seq<seq<Byte>>)
    requires Holds(tab, names)
    ensures Holds(EmitNode(node, tab).tab, Merged(names, NamesUsed(node)))
    decreases node
  {
    hide Holds, EmitProps, EmitNodes, PropNames, NamesUsedBy, Merged;
    PropsHold(node.props, tab, names);
    NodesHold(node.children, EmitProps(node.props, tab).tab, Merged(names, PropNames(node.props)));
    MergedJoin(names, PropNames(node.props), NamesUsedBy(node.children));
  }

  lemma {:induction false} NodesHold(nodes: seq<Node>, tab: Table, names: seq<seq<Byte>>)
    requires Holds(tab, names)
    ensures Holds(EmitNodes(nodes, tab).tab, Merged(names, NamesUsedBy(nodes)))
    decreases nodes
  {
    hide Holds, EmitNode, NamesUsed;
    if nodes != [] {
      hide Merged;
      var k := |nodes| - 1;
      NodesHold(nodes[..k], tab, names);
      var before := EmitNodes(nodes[..k], tab).tab;
      NodeHolds(nodes[k], before, Merged(names, NamesUsedBy(nodes[..k])));
      MergedJoin(names, NamesUsedBy(nodes[..k]), NamesUsed(nodes[k]));
    }
  }

  /** The strings block is every property name used, each once and where first used, and nothing else. */
  lemma {:induction false} EachNameOnce(root: Node)
    ensures var names := Merged([], NamesUsed(root));
            && EmitNode(root, EMPTY).tab.strings == Block(names)
            && Once(names) && forall x :: x in names <==> x in NamesUsed(root)
  {
    hide EmitNode, NamesUsed, Merged;
    assert Holds(EMPTY, []);
    NodeHolds(root, EMPTY, []);
    MergedOnce([], NamesUsed(root));
  }

  /** The size field is the length of the blob, which ends with its last block. */
  lemma {:induction false} SizeIsLength(tree: Tree)
    requires Serialized(tree).Some?
    ensures var blob := Serialized(tree).value; |blob| == TotalSize(tree) && Field(blob, 1) == |blob|
  {
    hide Words, Get32, Align4, EmitNode, Be32;
    var s := EmitNode(tree.root, EMPTY);
    var out, strings := s.out + Be32(FDT_END), s.tab.strings;
    var offStruct := Align4(40 + |tree.reserved|);
    var ns := [FDT_MAGIC, offStruct + |out| + |strings|, offStruct, offStruct + |out|, 40, tree.version,
               tree.lastCompVersion, tree.bootCpuidPhys, |strings|, |out|];
    var body := tree.reserved + Zeros(offStruct - 40 - |tree.reserved|) + out + strings;
    assert Serialized(tree).value == Words(ns) + body;
    WordAt(ns, 1, body);
  }
}
