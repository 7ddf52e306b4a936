/** The reader inverts the writer, and every tree the reader accepts is one the writer reproduces. */
module FdtRoundTrip {
  import opened Bytes
  import opened Fdt
  import opened FdtWriter

  // ----- one token -----

  lemma {:induction false} LexBegin(name: seq<Byte>, rest: seq<Byte>)
    requires 0 !in name
    ensures NextToken(BeginBytes(name) + rest) == Lexed(BeginNode(name), rest)
  {
    hide Get32, Be32, FirstNul, Align4;
    var pad := Zeros(Padding(|name| + 1));
    var body := name + [0] + (pad + rest);
    assert BeginBytes(name) + rest == Be32(FDT_BEGIN_NODE) + body;
    Get32OfBe32(FDT_BEGIN_NODE, body);
    assert (Be32(FDT_BEGIN_NODE) + body)[4..] == body;
    FirstNulOf(name, pad + rest);
    assert body[..|name|] == name;
    assert Drop(body, Align4(|name| + 1)) == rest;
  }

  lemma {:induction false} LexProp(off: nat, value: seq<Byte>, rest: seq<Byte>)
    requires off < WORD && |value| < WORD
    ensures NextToken(PropBytes(off, value) + rest) == Lexed(Property(|value|, off, value), rest)
  {
    hide Get32, Be32, FirstNul, Align4;
    var pad := Zeros(Padding(|value|));
    var tail := Be32(off) + (value + pad + rest);
    var body := Be32(|value|) + tail;
    var whole := Be32(FDT_PROP) + body;
    assert PropBytes(off, value) + rest == whole;
    Get32OfBe32(FDT_PROP, body);
    assert whole[4..] == body;
    Get32OfBe32(|value|, tail);
    assert body[4..] == tail;
    Get32OfBe32(off, value + pad + rest);
    assert Slice(body, 8, 8 + |value|) == value;
    assert Drop(body, 8 + Align4(|value|)) == rest;
  }

  lemma {:induction false} LexWord(token: int, rest: seq<Byte>)
    requires token == FDT_END_NODE || token == FDT_END
    ensures NextToken(Be32(token) + rest) == Lexed(if token == FDT_END then EndTree else EndNode, rest)
  {
    Get32OfBe32(token, rest);
    assert (Be32(token) + rest)[4..] == rest;
  }

  lemma {:induction false} RunLexed(x: seq<Byte>, token: Token, rest: seq<Byte>, strings: seq<Byte>, b: Build)
    requires x != [] && NextToken(x) == Lexed(token, rest)
    ensures Run(x, strings, b) ==
            if token.EndTree? then Finish(b)
            else match Apply(b, token, strings)
              case None => None
              case Some(b') => Run(rest, strings, b')
  {
  }

  // ----- a tree -----

  /** Names hold no NUL and are the UTF-8 form of some text. */
  predicate NameOk(name: seq<Byte>) {
    0 !in name && Utf8(name)
  }

  predicate NamesOk(node: Node)
    decreases node
  {
    && NameOk(node.name)
    && (forall p | p in node.props :: NameOk(p.name))
    && (forall c | c in node.children :: NamesOk(c))
  }

  lemma {:induction false} OffsetStands(tab: Table, name: seq<Byte>)
    requires Good(tab) && name in tab.offsets
    ensures StandsAt(tab.strings, tab.offsets[name], name)
  {
  }

  lemma {:induction false} NameReadBack(strings: seq<Byte>, off: nat, name: seq<Byte>)
    requires StandsAt(strings, off, name) && NameOk(name)
    ensures NameAt(strings, off) == Some(name)
  {
    var tail := strings[off..];
    assert tail == name + [0] + tail[|name| + 1..];
    FirstNulOf(name, tail[|name| + 1..]);
    assert tail[..|name|] == name;
  }

  function WithProps(stack: seq<Node>, props: seq<Prop>): (r: seq<Node>)
    requires stack != []
    ensures |r| == |stack|
  {
    MapTop(stack, Top(stack).(props := Top(stack).props + props))
  }

  function WithChildren(stack: seq<Node>, nodes: seq<Node>): (r: seq<Node>)
    requires stack != []
    ensures |r| == |stack|
  {
    MapTop(stack, Top(stack).(children := Top(stack).children + nodes))
  }

  lemma {:induction false} StackExtends(stack: seq<Node>, props: seq<Prop>, p: Prop, nodes: seq<Node>, n: Node)
    requires stack != []
    ensures WithProps(stack, []) == stack && WithChildren(stack, []) == stack
    ensures WithProps(stack, props + [p]) == MapTop(WithProps(stack, props), AddProp(Top(WithProps(stack, props)), p))
    ensures WithChildren(stack, nodes + [n])
         == MapTop(WithChildren(stack, nodes), AddChild(Top(WithChildren(stack, nodes)), n))
  {
    var top := Top(stack);
    assert top.props + [] == top.props && top.children + [] == top.children;
    assert top.props + (props + [p]) == top.props + props + [p];
    assert top.children + (nodes + [n]) == top.children + nodes + [n];
  }

  lemma {:induction false} RunProp(off: nat, p: Prop, rest: seq<Byte>, strings: seq<Byte>, b: Build)
    requires b.stack != [] && StandsAt(strings, off, p.name) && NameOk(p.name) && |strings| < WORD && |p.value| < WORD
    ensures Run(PropBytes(off, p.value) + rest, strings, b)
         == Run(rest, strings, b.(stack := MapTop(b.stack, AddProp(Top(b.stack), p))))
  {
    hide Run, NextToken, Be32, NameAt, Align4;
    NameReadBack(strings, off, p.name);
    LexProp(off, p.value, rest);
    RunLexed(PropBytes(off, p.value) + rest, Property(|p.value|, off, p.value), rest, strings, b);
  }

  lemma {:induction false} RunProps(props: seq<Prop>, tab: Table, rest: seq<Byte>, strings: seq<Byte>, b: Build)
    requires b.stack != [] && Good(tab)
    requires forall p | p in props :: NameOk(p.name)
    requires EmitProps(props, tab).tab.strings <= strings && |strings| < WORD && |EmitProps(props, tab).out| < WORD
    ensures Run(EmitProps(props, tab).out + rest, strings, b)
            == Run(rest, strings, b.(stack := WithProps(b.stack, props)))
  {
    hide Run, Be32, NameOk, WithProps, Good, StandsAt, Align4, MapTop;
    if props == [] {
      assert [] + rest == rest;
      StackExtends(b.stack, [], Prop([], []), [], Top(b.stack));
    } else {
      var init, p := props[..|props| - 1], props[|props| - 1];
      var before, after := EmitProps(init, tab), EmitProps(props, tab).tab;
      var off := after.offsets[p.name];
      var own := PropBytes(off, p.value);
      assert before.out + own + rest == before.out + (own + rest);
      RunProps(init, tab, own + rest, strings, b);
      OffsetStands(after, p.name);
      StandsInLonger(after.strings, strings, off, p.name);
      RunProp(off, p, rest, strings, b.(stack := WithProps(b.stack, init)));
      assert init + [p] == props;
      StackExtends(b.stack, init, p, [], Top(b.stack));
    }
  }

  lemma {:induction false} RunNode(node: Node, tab: Table, rest: seq<Byte>, strings: seq<Byte>, b: Build)
    requires (b.stack != [] || b.root.None?) && Good(tab) && NamesOk(node)
    requires EmitNode(node, tab).tab.strings <= strings && |strings| < WORD && |EmitNode(node, tab).out| < WORD
    ensures Run(EmitNode(node, tab).out + rest, strings, b) == Run(rest, strings, Attach(b.stack, b.root, node))
    decreases node
  {
    hide Run, Be32, NextToken, NameAt, EmitProps, EmitNodes;
    var begin, p := BeginBytes(node.name), EmitProps(node.props, tab);
    var c := EmitNodes(node.children, p.tab);
    var end := Be32(FDT_END_NODE) + rest;
    var b1 := b.(stack := b.stack + [Node(node.name, [], [])]);
    var b2 := b.(stack := WithProps(b1.stack, node.props));
    var b3 := b.(stack := WithChildren(b2.stack, node.children));
    assert EmitNode(node, tab).out + rest == begin + (p.out + (c.out + end));
    LexBegin(node.name, p.out + (c.out + end));
    RunLexed(begin + (p.out + (c.out + end)), BeginNode(node.name), p.out + (c.out + end), strings, b);
    RunProps(node.props, tab, c.out + end, strings, b1);
    RunNodes(node.children, p.tab, end, strings, b2);
    LexWord(FDT_END_NODE, rest);
    RunLexed(end, EndNode, rest, strings, b3);
    assert Top(b3.stack) == node;
    assert b3.stack[..|b3.stack| - 1] == b.stack;
  }

  lemma {:induction false} RunNodes(nodes: seq<Node>, tab: Table, rest: seq<Byte>, strings: seq<Byte>, b: Build)
    requires b.stack != [] && Good(tab)
    requires forall c | c in nodes :: NamesOk(c)
    requires EmitNodes(nodes, tab).tab.strings <= strings && |strings| < WORD && |EmitNodes(nodes, tab).out| < WORD
    ensures Run(EmitNodes(nodes, tab).out + rest, strings, b)
         == Run(rest, strings, b.(stack := WithChildren(b.stack, nodes)))
    decreases nodes
  {
    hide Run, EmitNode, NamesOk, WithChildren, Good;
    if nodes == [] {
      assert [] + rest == rest;
      StackExtends(b.stack, [], Prop([], []), [], Top(b.stack));
    } else {
      var init, last := nodes[..|nodes| - 1], nodes[|nodes| - 1];
      var before := EmitNodes(init, tab);
      var own := EmitNode(last, before.tab);
      assert before.out + own.out + rest == before.out + (own.out + rest);
      var b1 := b.(stack := WithChildren(b.stack, init));
      RunNodes(init, tab, own.out + rest, strings, b);
      RunNode(last, before.tab, rest, strings, b1);
      assert init + [last] == nodes;
      StackExtends(b.stack, [], Prop([], []), init, last);
    }
  }

  // ----- the reservation block -----

  /** Whole pairs, the last one the only pair of zeros. */
  predicate ReservedOk(r: seq<Byte>) {
    && |r| >= 16 && |r| % 16 == 0
    && forall k | 0 <= k < |r| / 16 :: r[16 * k..16 * k + 16] == Zeros(16) <==> k == |r| / 16 - 1
  }

  lemma {:induction false} ReservedReadBack(r: seq<Byte>, rest: seq<Byte>)
    requires ReservedOk(r)
    ensures ReservedFrom(r + rest) == Some(r)
    decreases |r|
  {
    assert (r + rest)[..16] == r[16 * 0..16 * 0 + 16];
    if |r| == 16 {
      assert r[0..16] == r;
    } else {
      var tail := r[16..];
      forall k | 0 <= k < |tail| / 16
        ensures tail[16 * k..16 * k + 16] == Zeros(16) <==> k == |tail| / 16 - 1
      {
        assert tail[16 * k..16 * k + 16] == r[16 * (k + 1)..16 * (k + 1) + 16];
      }
      ReservedReadBack(tail, rest);
      assert (r + rest)[16..] == tail + rest;
      assert r == r[0..16] + tail;
    }
  }

  lemma {:induction false} ReservedReadIsOk(rest: seq<Byte>)
    requires ReservedFrom(rest).Some?
    ensures ReservedOk(ReservedFrom(rest).value)
    decreases |rest|
  {
    var r := ReservedFrom(rest).value;
    if rest[..16] == Zeros(16) {
      assert r[16 * 0..16 * 0 + 16] == Zeros(16);
    } else {
      ReservedReadIsOk(rest[16..]);
      var tail := ReservedFrom(rest[16..]).value;
      forall k | 0 <= k < |r| / 16
        ensures r[16 * k..16 * k + 16] == Zeros(16) <==> k == |r| / 16 - 1
      {
        if k == 0 {
          assert r[16 * k..16 * k + 16] == rest[..16];
        } else {
          assert r[16 * k..16 * k + 16] == tail[16 * (k - 1)..16 * (k - 1) + 16];
        }
      }
    }
  }

  // ----- the blob -----

  lemma {:induction false} HeaderReadBack(tree: Tree, out: seq<Byte>, strings: seq<Byte>)
    requires Align4(40 + |tree.reserved|) + |out| + |strings| < WORD
    requires InWord(tree.version) && InWord(tree.lastCompVersion) && InWord(tree.bootCpuidPhys)
    ensures var offStruct := Align4(40 + |tree.reserved|);
            ReadHeader(Layout(tree, out, strings)) ==
            Some(Header(offStruct, offStruct + |out|, 40, tree.version, tree.lastCompVersion, tree.bootCpuidPhys,
                        |strings|, |out|))
  {
    hide Words, Get32, Align4;
    var offStruct := Align4(40 + |tree.reserved|);
    var ns := [FDT_MAGIC, offStruct + |out| + |strings|, offStruct, offStruct + |out|, 40, tree.version,
               tree.lastCompVersion, tree.bootCpuidPhys, |strings|, |out|];
    var body := tree.reserved + Zeros(offStruct - 40 - |tree.reserved|) + out + strings;
    var blob := Layout(tree, out, strings);
    assert blob == Words(ns) + body;
    forall i: nat | i < 10 ensures Field(blob, i) == ns[i] {
      WordAt(ns, i, body);
    }
    assert Field(blob, 0) == ns[0] && Field(blob, 2) == ns[2] && Field(blob, 3) == ns[3] && Field(blob, 4) == ns[4];
    assert Field(blob, 5) == ns[5] && Field(blob, 6) == ns[6] && Field(blob, 7) == ns[7] && Field(blob, 8) == ns[8];
    assert Field(blob, 9) == ns[9];
  }

  lemma {:induction false} BlocksReadBack(tree: Tree, out: seq<Byte>, strings: seq<Byte>, h: Header)
    requires h.offStruct == Align4(40 + |tree.reserved|) && h.sizeStruct == |out|
    requires h.offStrings == h.offStruct + |out| && h.sizeStrings == |strings| && h.offReserved == 40
    ensures var blob := Layout(tree, out, strings);
            && StructBlock(blob, h) == out && StringsBlock(blob, h) == strings
            && Drop(blob, 40) == tree.reserved + (Zeros(h.offStruct - 40 - |tree.reserved|) + out + strings)
  {
    hide Words, Align4;
  }

  /** Reading back what was written, for every tree of any depth. */
  lemma {:induction false} ReadsBack(tree: Tree)
    requires Serialized(tree).Some? && NamesOk(tree.root) && ReservedOk(tree.reserved)
    ensures Parsed(Serialized(tree).value) == Some(tree)
  {
    hide Run, NextToken, EmitNode, Layout, Be32, ReservedOk, NamesOk, Align4, ReadHeader;
    var s := EmitNode(tree.root, EMPTY);
    var end := Be32(FDT_END);
    var out, strings := s.out + end, s.tab.strings;
    HeaderReadBack(tree, out, strings);
    var h := ReadHeader(Layout(tree, out, strings)).value;
    BlocksReadBack(tree, out, strings, h);
    RunNode(tree.root, EMPTY, end, strings, START);
    assert end + [] == end;
    LexWord(FDT_END, []);
    RunLexed(end, EndTree, [], strings, Build([], Some(tree.root)));
    ReservedReadBack(tree.reserved, Zeros(h.offStruct - 40 - |tree.reserved|) + out + strings);
  }

  // ----- what the reader accepts -----

  lemma {:induction false} TokenNames(rest: seq<Byte>, strings: seq<Byte>)
    requires rest != [] && NextToken(rest).Lexed?
    ensures var token := NextToken(rest).token;
            && (token.BeginNode? ==> 0 !in token.name)
            && (token.Property? && NameAt(strings, token.nameoff).Some?
                ==> NameOk(NameAt(strings, token.nameoff).value))
  {
  }

  ghost predicate BuildOk(b: Build) {
    && (forall n | n in b.stack :: NamesOk(n))
    && (b.root.Some? ==> NamesOk(b.root.value))
  }

  lemma {:induction false} ApplyNames(b: Build, token: Token, strings: seq<Byte>)
    requires BuildOk(b) && !token.EndTree? && Apply(b, token, strings).Some?
    requires token.BeginNode? ==> 0 !in token.name
    requires token.Property? && NameAt(strings, token.nameoff).Some? ==> NameOk(NameAt(strings, token.nameoff).value)
    ensures BuildOk(Apply(b, token, strings).value)
  {
    hide NameAt, Utf8;
    var b' := Apply(b, token, strings).value;
    forall n | n in b'.stack ensures NamesOk(n) {
      if token.BeginNode? {
        assert n in b.stack || n == Node(token.name, [], []);
      } else {
        assert n in b.stack || n == Top(b'.stack);
        if n !in b.stack {
          TopNames(b, b', token, strings);
        }
      }
    }
  }

  lemma {:induction false} TopNames(b: Build, b': Build, token: Token, strings: seq<Byte>)
    requires BuildOk(b) && (token.EndNode? || token.Property?) && Apply(b, token, strings) == Some(b') && b'.stack != []
    requires token.Property? && NameAt(strings, token.nameoff).Some? ==> NameOk(NameAt(strings, token.nameoff).value)
    ensures NamesOk(Top(b'.stack))
  {
    hide NameAt, Utf8;
    if token.EndNode? {
      var parent, child := b.stack[|b.stack| - 2], Top(b.stack);
      assert parent in b.stack && child in b.stack;
      assert Top(b'.stack) == AddChild(parent, child);
    } else {
      assert Top(b.stack) in b.stack;
    }
  }

  lemma {:induction false} RunNames(rest: seq<Byte>, strings: seq<Byte>, b: Build)
    requires BuildOk(b) && Run(rest, strings, b).Some?
    ensures NamesOk(Run(rest, strings, b).value)
    decreases |rest|
  {
    hide NextToken, Apply, NamesOk;
    if rest != [] && !NextToken(rest).token.EndTree? {
      TokenNames(rest, strings);
      ApplyNames(b, NextToken(rest).token, strings);
      RunNames(NextToken(rest).rest, strings, Apply(b, NextToken(rest).token, strings).value);
    }
  }

  lemma {:induction false} ParsedIsOk(blob: seq<Byte>)
    requires Parsed(blob).Some?
    ensures var t := Parsed(blob).value;
            && NamesOk(t.root) && ReservedOk(t.reserved)
            && InWord(t.version) && InWord(t.lastCompVersion) && InWord(t.bootCpuidPhys)
  {
    hide Run, NamesOk, ReservedOk, ReservedFrom;
    var h := ReadHeader(blob).value;
    RunNames(StructBlock(blob, h), StringsBlock(blob, h), START);
    ReservedReadIsOk(Drop(blob, h.offReserved));
  }

  /** A tree that is written reads back as itself exactly when no name holds a NUL (and each is text) and the
      reservation block is whole pairs closed by its only pair of zeros. */
  lemma {:induction false} RoundTrip(tree: Tree)
    requires Serialized(tree).Some?
    ensures Parsed(Serialized(tree).value) == Some(tree) <==> NamesOk(tree.root) && ReservedOk(tree.reserved)
  {
    hide Serialized, Parsed, NamesOk, ReservedOk;
    var blob := Serialized(tree).value;
    if NamesOk(tree.root) && ReservedOk(tree.reserved) {
      ReadsBack(tree);
    }
    if Parsed(blob) == Some(tree) {
      ParsedIsOk(blob);
    }
  }

  /** Whatever block order, NOP tokens or shared names an accepted blob has: its tree is written again unless it
      needs more than 32 bits, reads back as the same tree, and is then written as the same bytes. */
  lemma {:induction false} Rewrite(blob: seq<Byte>)
    requires Parsed(blob).Some?
    ensures var t := Parsed(blob).value;
            && (Serialized(t).Some? <==> TotalSize(t) < WORD)
            && (Serialized(t).Some? ==>
                  var again := Parsed(Serialized(t).value);
                  again == Some(t) && Serialized(again.value) == Serialized(t))
  {
    hide Parsed, NamesOk, ReservedOk;
    ParsedIsOk(blob);
    if Serialized(Parsed(blob).value).Some? {
      ReadsBack(Parsed(blob).value);
    }
  }

  // ----- nothing accepted is cut short -----

  /** The bytes a token takes, padding included. */
  function TokenSize(token: Token): nat {
    match token
    case BeginNode(name) => 4 + Align4(|name| + 1)
    case Property(length, _, _) => 12 + Align4(length)
    case _ => 4
  }

  /** The reader with every bound checked: it refuses a name, value or padding that the block ends inside. */
  function RunChecked(rest: seq<Byte>, strings: seq<Byte>, b: Build): Option<Node>
    decreases |rest|
  {
    if rest == [] then Finish(b)
    else match NextToken(rest)
      case Malformed => None
      case Lexed(token, more) =>
        if TokenSize(token) > |rest| || (token.Property? && |token.value| != token.length) then None
        else if token.EndTree? then Finish(b)
        else match Apply(b, token, strings)
          case None => None
          case Some(b') => RunChecked(more, strings, b')
  }

  lemma {:induction false} CutShort(rest: seq<Byte>)
    requires rest != [] && NextToken(rest).Lexed?
    ensures var Lexed(token, more) := NextToken(rest);
            TokenSize(token) > |rest| || (token.Property? && |token.value| != token.length)
            ==> more == [] && (token.BeginNode? || token.Property?)
  {
  }

  /** A blob whose block ends inside a name, a value or its padding is never accepted, though no bound is checked. */
  lemma {:induction false} NothingCutShort(rest: seq<Byte>, strings: seq<Byte>, b: Build)
    ensures Run(rest, strings, b) == RunChecked(rest, strings, b)
    decreases |rest|
  {
    hide NextToken, TokenSize, NameAt;
    if rest != [] && NextToken(rest).Lexed? && !NextToken(rest).token.EndTree? {
      var Lexed(token, more) := NextToken(rest);
      CutShort(rest);
      if Apply(b, token, strings).Some? {
        NothingCutShort(more, strings, Apply(b, token, strings).value);
      }
    } else if rest != [] && NextToken(rest).Lexed? {
      CutShort(rest);
    }
  }
}
