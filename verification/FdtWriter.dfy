/** The writer: a recursive emitter over an append-only, deduplicated strings block. */
module FdtWriter {
  import opened Bytes
  import opened Fdt

  /** The strings block so far, and where each name put in it begins. */
  datatype Table = Table(strings: seq<Byte>, offsets: map<seq<Byte>, nat>)

  const EMPTY := Table([], map[])

  /** `name` stands NUL-terminated at `off`. */
  ghost predicate StandsAt(strings: seq<Byte>, off: nat, name: seq<Byte>) {
    off + |name| < |strings| && strings[off..off + |name|] == name && strings[off + |name|] == 0
  }

  ghost predicate Good(tab: Table) {
    forall name | name in tab.offsets :: StandsAt(tab.strings, tab.offsets[name], name)
  }

  /** Offsets stay valid as the block grows: it only grows at its end. */
  lemma {:induction false} StandsInLonger(strings: seq<Byte>, longer: seq<Byte>, off: nat, name: seq<Byte>)
    requires StandsAt(strings, off, name) && strings <= longer
    ensures StandsAt(longer, off, name)
  {
  }

  function Intern(tab: Table, name: seq<Byte>): (r: Table)
    ensures name in r.offsets
    ensures tab.strings <= r.strings
    ensures Good(tab) ==> Good(r)
  {
    if name in tab.offsets then tab
    else
      var r := Table(tab.strings + name + [0], tab.offsets[name := |tab.strings|]);
      assert Good(tab) ==> Good(r) by {
        assert StandsAt(r.strings, |tab.strings|, name);
        if Good(tab) {
          forall k | k in tab.offsets ensures StandsAt(r.strings, tab.offsets[k], k) {
            StandsInLonger(tab.strings, r.strings, tab.offsets[k], k);
          }
        }
      }
      r
  }

  function Padding(n: nat): nat {
    Align4(n) - n
  }

  function BeginBytes(name: seq<Byte>): seq<Byte> {
    Be32(FDT_BEGIN_NODE) + name + [0] + Zeros(Padding(|name| + 1))
  }

  function PropBytes(off: nat, value: seq<Byte>): seq<Byte> {
    Be32(FDT_PROP) + Be32(|value|) + Be32(off) + value + Zeros(Padding(|value|))
  }

  datatype Emitted = Emitted(out: seq<Byte>, tab: Table)

  function EmitProps(props: seq<Prop>, tab: Table): (r: Emitted)
    ensures tab.strings <= r.tab.strings
    ensures Good(tab) ==> Good(r.tab)
  {
    if props == [] then Emitted([], tab)
    else
      var before, p := EmitProps(props[..|props| - 1], tab), props[|props| - 1];
      var after := Intern(before.tab, p.name);
      Emitted(before.out + PropBytes(after.offsets[p.name], p.value), after)
  }

  /** A node, its properties before its children, with the names put in the table in that order. */
  function EmitNode(node: Node, tab: Table): (r: Emitted)
    ensures tab.strings <= r.tab.strings
    ensures Good(tab) ==> Good(r.tab)
    decreases node
  {
    var p := EmitProps(node.props, tab);
    var c := EmitNodes(node.children, p.tab);
    Emitted(BeginBytes(node.name) + p.out + c.out + Be32(FDT_END_NODE), c.tab)
  }

  function EmitNodes(nodes: seq<Node>, tab: Table): (r: Emitted)
    ensures tab.strings <= r.tab.strings
    ensures Good(tab) ==> Good(r.tab)
    decreases nodes
  {
    if nodes == [] then Emitted([], tab)
    else
      var before := EmitNodes(nodes[..|nodes| - 1], tab);
      var last := EmitNode(nodes[|nodes| - 1], before.tab);
      Emitted(before.out + last.out, last.tab)
  }

  predicate InWord(n: int) {
    0 <= n < WORD
  }

  /** The ten header words, the reservation block padded, the structure block, the strings block. */
  function Layout(tree: Tree, out: seq<Byte>, strings: seq<Byte>): seq<Byte> {
    var offStruct := Align4(40 + |tree.reserved|);
    var offStrings := offStruct + |out|;
    Words([FDT_MAGIC, offStrings + |strings|, offStruct, offStrings, 40, tree.version, tree.lastCompVersion,
           tree.bootCpuidPhys, |strings|, |out|])
    + tree.reserved + Zeros(offStruct - 40 - |tree.reserved|) + out + strings
  }

  function TotalSize(tree: Tree): nat {
    var s := EmitNode(tree.root, EMPTY);
    Align4(40 + |tree.reserved|) + |s.out| + 4 + |s.tab.strings|
  }

  /** What `serialize` answers: it raises exactly when the blob or a header field needs more than 32 bits. */
  function Serialized(tree: Tree): (r: Option<seq<Byte>>)
  {
    if TotalSize(tree) < WORD && InWord(tree.version) && InWord(tree.lastCompVersion) && InWord(tree.bootCpuidPhys) then
      var s := EmitNode(tree.root, EMPTY);
      Some(Layout(tree, s.out + Be32(FDT_END), s.tab.strings))
    else None
  }

  class Writer {
    var strings: seq<Byte>
    var offsets: map<seq<Byte>, nat>
    var out: seq<Byte>

    ghost function Tab(): Table
      reads this
    {
      Table(strings, offsets)
    }

    constructor ()
      ensures Tab() == EMPTY && out == []
    {
      strings, offsets, out := [], map[], [];
    }

    method StringOffset(name: seq<Byte>) returns (off: nat)
      modifies this`strings, this`offsets
      ensures Tab() == Intern(old(Tab()), name)
      ensures off == offsets[name]
    {
      if name !in offsets {
        offsets := offsets[name := |strings|];
        strings := strings + name + [0];
      }
      off := offsets[name];
    }

    /** Appends the properties of one node. `struct.pack` fails when a length or an offset needs more than 32 bits,
        and only in a tree whose blob would need more than 32 bits too. */
    method PutProps(props: seq<Prop>) returns (ok: bool)
      requires Good(Tab())
      modifies this
      ensures ok ==> var e := EmitProps(props, old(Tab())); Tab() == e.tab && out == old(out) + e.out
      ensures !ok ==> var e := EmitProps(props, old(Tab())); |e.out| + |e.tab.strings| >= WORD
    {
      hide Be32, Align4, Zeros, Good, EmitProps, Intern;
      ghost var tab0, out0 := Tab(), out;
      NoProps(tab0);
      for i := 0 to |props|
        invariant Good(Tab())
        invariant var p := EmitProps(props[..i], tab0); Tab() == p.tab && out == out0 + p.out
      {
        var p := props[i];
        NextProp(props, i, tab0);
        var off := StringOffset(p.name);
        if |p.value| >= WORD || off >= WORD {
          OffsetInside(Tab(), p.name);
          EmitPropsGrows(props, i + 1, tab0);
          return false;
        }
        out := out + (Be32(FDT_PROP) + Be32(|p.value|) + Be32(off) + p.value + Zeros(Align4(|p.value|) - |p.value|));
      }
      assert props[..|props|] == props;
      return true;
    }

    /** Appends `node` and everything below it, or fails as `PutProps` does. */
    method Emit(node: Node) returns (ok: bool)
      requires Good(Tab())
      modifies this
      ensures ok ==> var e := EmitNode(node, old(Tab())); Tab() == e.tab && out == old(out) + e.out
      ensures !ok ==> var e := EmitNode(node, old(Tab())); |e.out| + |e.tab.strings| >= WORD
      decreases node
    {
      hide Be32, Align4, Zeros, Good, EmitProps, EmitNodes;
      ghost var out0 := out;
      out := out + (Be32(FDT_BEGIN_NODE) + node.name + [0] + Zeros(Align4(|node.name| + 1) - |node.name| - 1));
      assert out == out0 + BeginBytes(node.name);
      ok := PutProps(node.props);
      if !ok { return; }
      ok := PutNodes(node.children);
      if !ok { return; }
      out := out + Be32(FDT_END_NODE);
    }

    /** Appends the children of one node in order. */
    method PutNodes(nodes: seq<Node>) returns (ok: bool)
      requires Good(Tab())
      modifies this
      ensures ok ==> var e := EmitNodes(nodes, old(Tab())); Tab() == e.tab && out == old(out) + e.out
      ensures !ok ==> var e := EmitNodes(nodes, old(Tab())); |e.out| + |e.tab.strings| >= WORD
      decreases nodes
    {
      hide Good, EmitNode;
      ghost var tab0, out0 := Tab(), out;
      for i := 0 to |nodes|
        invariant Good(Tab())
        invariant var c := EmitNodes(nodes[..i], tab0); Tab() == c.tab && out == out0 + c.out
      {
        assert nodes[..i + 1][..i] == nodes[..i];
        ok := Emit(nodes[i]);
        if !ok {
          EmitNodesGrows(nodes, i + 1, tab0);
          return;
        }
      }
      assert nodes[..|nodes|] == nodes;
      return true;
    }
  }

  lemma {:induction false} NoProps(tab: Table)
    ensures EmitProps([], tab) == Emitted([], tab)
  {
  }

  lemma {:induction false} NextProp(props: seq<Prop>, i: nat, tab: Table)
    requires i < |props|
    ensures var before, p := EmitProps(props[..i], tab), props[i];
            var after := Intern(before.tab, p.name);
            EmitProps(props[..i + 1], tab) == Emitted(before.out + PropBytes(after.offsets[p.name], p.value), after)
  {
    hide Intern, PropBytes;
    assert props[..i + 1][..i] == props[..i];
  }

  lemma {:induction false} OffsetInside(tab: Table, name: seq<Byte>)
    requires Good(tab) && name in tab.offsets
    ensures tab.offsets[name] < |tab.strings|
  {
  }

  lemma {:induction false} EmitPropsGrows(props: seq<Prop>, i: nat, tab: Table)
    requires i <= |props|
    ensures |EmitProps(props[..i], tab).out| <= |EmitProps(props, tab).out|
    ensures |EmitProps(props[..i], tab).tab.strings| <= |EmitProps(props, tab).tab.strings|
  {
    if i == |props| {
      assert props[..i] == props;
    } else {
      var init := props[..|props| - 1];
      assert init[..i] == props[..i];
      EmitPropsGrows(init, i, tab);
    }
  }

  lemma {:induction false} EmitNodesGrows(nodes: seq<Node>, i: nat, tab: Table)
    requires i <= |nodes|
    ensures |EmitNodes(nodes[..i], tab).out| <= |EmitNodes(nodes, tab).out|
    ensures |EmitNodes(nodes[..i], tab).tab.strings| <= |EmitNodes(nodes, tab).tab.strings|
  {
    if i == |nodes| {
      assert nodes[..i] == nodes;
    } else {
      var init := nodes[..|nodes| - 1];
      assert init[..i] == nodes[..i];
      EmitNodesGrows(init, i, tab);
    }
  }

  method Serialize(tree: Tree) returns (r: Option<seq<Byte>>)
    ensures r == Serialized(tree)
  {
    hide Be32, Align4, EmitNode;
    var w := new Writer();
    var ok := w.Emit(tree.root);
    if !ok { return None; }
    w.out := w.out + Be32(FDT_END);
    assert w.out == EmitNode(tree.root, EMPTY).out + Be32(FDT_END);
    var offReserved := 40;
    var offStruct := Align4(offReserved + |tree.reserved|);
    var offStrings := offStruct + |w.out|;
    var total := offStrings + |w.strings|;
    if !InWord(total) || !InWord(tree.version) || !InWord(tree.lastCompVersion) || !InWord(tree.bootCpuidPhys) {
      return None;
    }
    return Some(Layout(tree, w.out, w.strings));
  }
}
