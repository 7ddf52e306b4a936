/** The DMA-mode record: the node that carries it, and the streaming search that finds it again. */
module FdtRecord {
  import opened Bytes
  import opened Fdt
  import opened FdtWriter
  import opened FdtRoundTrip

  function CompatibleKey(): seq<Byte> {
    Ascii("compatible")
  }

  function BootPolicy(): seq<Byte> {
    Ascii("libersystem,boot-policy")
  }

  function OtherCompatible(): seq<Byte> {
    Ascii("libersystem,something-else")
  }

  function DmaMode(): seq<Byte> {
    Ascii("libersystem,dma-mode")
  }

  function NodeName(): seq<Byte> {
    Ascii("libersystem")
  }

  function PolicyName(): seq<Byte> {
    Ascii("policy")
  }

  /** `value.split(b'\0')` */
  function SplitNul(s: seq<Byte>): seq<seq<Byte>>
    decreases |s|
  {
    match FirstNul(s)
    case None => [s]
    case Some(k) => [s[..k]] + SplitNul(s[k + 1..])
  }

  // ----- the streaming search -----

  datatype Mark = Mark(compatible: bool, record: Option<seq<Byte>>)

  function MarkProp(m: Mark, name: seq<Byte>, value: seq<Byte>): Mark {
    var m' := if name == CompatibleKey() && BootPolicy() in SplitNul(value) then m.(compatible := true) else m;
    if name == DmaMode() then m'.(record := Some(value)) else m'
  }

  function MarkRecord(m: Mark): Option<seq<Byte>> {
    if m.compatible then m.record else None
  }

  function OrElse(a: Option<seq<Byte>>, b: Option<seq<Byte>>): Option<seq<Byte>> {
    if a.Some? then a else b
  }

  /** The open nodes' marks, outermost first, and the record of the first node that ended with one. */
  datatype Search = Search(stack: seq<Mark>, found: Option<seq<Byte>>)

  function SearchApply(s: Search, token: Token, strings: seq<Byte>): Option<Search>
    requires !token.EndTree?
  {
    match token
    case BeginNode(_) => Some(s.(stack := s.stack + [Mark(false, None)]))
    case EndNode =>
      if s.stack == [] then None
      else Some(Search(s.stack[..|s.stack| - 1], OrElse(s.found, MarkRecord(s.stack[|s.stack| - 1]))))
    case Property(_, nameoff, value) =>
      (match RawNameAt(strings, nameoff)
       case None => None
       case Some(name) =>
         if s.stack != [] then
           var top := s.stack[|s.stack| - 1];
           Some(s.(stack := s.stack[|s.stack| - 1 := MarkProp(top, name, value)]))
         else if name == DmaMode() || (name == CompatibleKey() && BootPolicy() in SplitNul(value)) then None
         else Some(s))
    case Nop => Some(s)
  }

  /** What `find_record` answers from a search under way: a failure, or what was found. */
  function SearchRun(rest: seq<Byte>, strings: seq<Byte>, s: Search): Option<Option<seq<Byte>>>
    decreases |rest|
  {
    if rest == [] then Some(s.found)
    else match NextToken(rest)
      case Malformed => None
      case Lexed(token, more) =>
        if token.EndTree? then Some(s.found)
        else match SearchApply(s, token, strings)
          case None => None
          case Some(s') => SearchRun(more, strings, s')
  }

  function Found(blob: seq<Byte>): Option<Option<seq<Byte>>> {
    match ReadHeader(blob)
    case None => None
    case Some(h) => SearchRun(StructBlock(blob, h), StringsBlock(blob, h), Search([], None))
  }

  lemma {:induction false} SearchToken(block: seq<Byte>, at: nat, strings: seq<Byte>, s: Search, token: Token,
                                       next: nat)
    requires at < |block| && NextToken(block[at..]) == Lexed(token, Drop(block, next))
    ensures SearchRun(Drop(block, at), strings, s) ==
            if token.EndTree? then Some(s.found)
            else match SearchApply(s, token, strings)
              case None => None
              case Some(s') => SearchRun(Drop(block, next), strings, s')
  {
  }

  lemma {:induction false} SearchStops(block: seq<Byte>, at: nat, strings: seq<Byte>, s: Search)
    ensures at >= |block| ==> SearchRun(Drop(block, at), strings, s) == Some(s.found)
    ensures at < |block| && NextToken(block[at..]) == Malformed ==> SearchRun(Drop(block, at), strings, s) == None
  {
  }

  method FindRecord(blob: seq<Byte>) returns (r: Option<Option<seq<Byte>>>)
    ensures r == Found(blob)
  {
    hide SearchRun, NextToken, FirstNul, RawNameAt, Get32, Slice, Align4, SplitNul, ReadHeader, CompatibleKey,
         BootPolicy, DmaMode;
    var header := ReadHeader(blob);
    if header.None? { return None; }
    var block, strings := StructBlock(blob, header.value), StringsBlock(blob, header.value);
    var at, stack: seq<Mark>, found: Option<seq<Byte>> := 0, [], None;
    while at < |block|
      invariant at % 4 == 0
      invariant SearchRun(Drop(block, at), strings, Search(stack, found)) == SearchRun(block, strings, Search([], None))
      decreases |block| - at
    {
      ghost var s, was := Search(stack, found), at;
      SimpleAt(block, was);
      SearchStops(block, was, strings, s);
      if |block| < at + 4 { return None; }
      var token := Get32(block[at..]);
      at := at + 4;
      if token == FDT_BEGIN_NODE {
        BeginAt(block, was);
        var nul := FirstNul(block[at..]);
        if nul.None? { return None; }
        var end := at + nul.value;
        stack := stack + [Mark(false, None)];
        at := Align4(end + 1);
        SearchToken(block, was, strings, s, BeginNode(block[was + 4..end]), at);
      } else if token == FDT_END_NODE {
        SearchToken(block, was, strings, s, EndNode, at);
        if stack == [] { return None; }
        var node := stack[|stack| - 1];
        stack := stack[..|stack| - 1];
        if node.compatible && node.record.Some? && found.None? {
          found := node.record;
        }
      } else if token == FDT_PROP {
        PropAt(block, was);
        if |block| < at + 8 { return None; }
        var length, nameoff := Get32(block[at..]), Get32(block[at + 4..]);
        at := at + 8;
        var value := Slice(block, at, at + length);
        at := at + Align4(length);
        SearchToken(block, was, strings, s, Property(length, nameoff, value), at);
        var name := RawNameAt(strings, nameoff);
        if name.None? { return None; }
        if name.value == CompatibleKey() && BootPolicy() in SplitNul(value) {
          if stack == [] { return None; }
          stack := stack[|stack| - 1 := stack[|stack| - 1].(compatible := true)];
        }
        if name.value == DmaMode() {
          if stack == [] { return None; }
          stack := stack[|stack| - 1 := stack[|stack| - 1].(record := Some(value))];
        }
        assert s.stack != [] ==>
            stack == s.stack[|stack| - 1 := MarkProp(s.stack[|stack| - 1], name.value, value)];
      } else if token == FDT_NOP {
        SearchToken(block, was, strings, s, Nop, at);
      } else if token == FDT_END {
        SearchToken(block, was, strings, s, EndTree, at);
        return Some(found);
      } else {
        return None;
      }
    }
    SearchStops(block, at, strings, Search(stack, found));
    return Some(found);
  }

  // ----- the search of a tree -----

  function MarkOf(props: seq<Prop>): Mark {
    if props == [] then Mark(false, None)
    else
      var p := props[|props| - 1];
      MarkProp(MarkOf(props[..|props| - 1]), p.name, p.value)
  }

  /** The record a node carries: it must be compatible, whatever its name. */
  function Carried(node: Node): Option<seq<Byte>> {
    MarkRecord(MarkOf(node.props))
  }

  function PostOrder(node: Node): seq<Node>
    decreases node
  {
    PostOrderAll(node.children) + [node]
  }

  function PostOrderAll(nodes: seq<Node>): seq<Node>
    decreases nodes
  {
    if nodes == [] then [] else PostOrderAll(nodes[..|nodes| - 1]) + PostOrder(nodes[|nodes| - 1])
  }

  /** The record of the first of `nodes` that carries one. */
  function FirstCarried(nodes: seq<Node>): (r: Option<seq<Byte>>)
    ensures r.None? <==> forall n | n in nodes :: Carried(n).None?
    ensures r.Some? ==>
              exists i | 0 <= i < |nodes| ::
                Carried(nodes[i]) == r && forall j | 0 <= j < i :: Carried(nodes[j]).None?
  {
    if nodes == [] then None
    else
      var init, last := nodes[..|nodes| - 1], nodes[|nodes| - 1];
      assert nodes == init + [last];
      OrElse(FirstCarried(init), Carried(last))
  }

  lemma {:induction false} FirstCarriedConcat(a: seq<Node>, b: seq<Node>)
    ensures FirstCarried(a + b) == OrElse(FirstCarried(a), FirstCarried(b))
  {
    if b == [] {
      assert a + b == a;
    } else {
      FirstCarriedConcat(a, b[..|b| - 1]);
      assert (a + b)[..|a + b| - 1] == a + b[..|b| - 1];
    }
  }

  /** The nodes that have ended, in the order they ended. */
  function Ended(stack: seq<Node>, root: Option<Node>): seq<Node> {
    if stack == [] then (if root.Some? then PostOrder(root.value) else [])
    else Ended(stack[..|stack| - 1], root) + PostOrderAll(Top(stack).children)
  }

  function Marks(stack: seq<Node>): (r: seq<Mark>)
    ensures |r| == |stack|
  {
    seq(|stack|, i requires 0 <= i < |stack| => MarkOf(stack[i].props))
  }

  ghost function SearchOf(b: Build): Search {
    Search(Marks(b.stack), FirstCarried(Ended(b.stack, b.root)))
  }

  lemma {:induction false} EndedAfterEnd(b: Build)
    requires b.stack != [] && b.root.None?
    ensures var b' := Attach(b.stack[..|b.stack| - 1], b.root, Top(b.stack));
            Ended(b'.stack, b'.root) == Ended(b.stack, b.root) + [Top(b.stack)]
  {
    hide Ended, PostOrderAll;
    var init, top := b.stack[..|b.stack| - 1], Top(b.stack);
    assert init + [top] == b.stack;
    EndedTop(init, b.root, top);
    if init == [] {
      NothingEnded(top);
    } else {
      var below, parent := init[..|init| - 1], Top(init);
      assert below + [parent] == init;
      EndedTop(below, b.root, parent);
      assert MapTop(init, AddChild(parent, top)) == below + [AddChild(parent, top)];
      EndedTop(below, b.root, AddChild(parent, top));
      PostOrderAllSnoc(parent.children, top);
      Assoc(Ended(below, b.root), PostOrderAll(parent.children), PostOrderAll(top.children), [top]);
    }
  }

  lemma {:induction false} NothingEnded(top: Node)
    ensures Ended([], None) == [] && Ended([], Some(top)) == PostOrderAll(top.children) + [top]
  {
  }

  lemma {:induction false} PostOrderAllSnoc(nodes: seq<Node>, last: Node)
    ensures PostOrderAll(nodes + [last]) == PostOrderAll(nodes) + (PostOrderAll(last.children) + [last])
  {
  }

  lemma {:induction false} Assoc<T>(a: seq<T>, b: seq<T>, c: seq<T>, d: seq<T>)
    ensures a + (b + (c + d)) == a + b + c + d
  {
  }

  lemma {:induction false} EndedTop(below: seq<Node>, root: Option<Node>, top: Node)
    ensures Ended(below + [top], root) == Ended(below, root) + PostOrderAll(top.children)
  {
  }

  lemma {:induction false} EndedUnmoved(stack: seq<Node>, root: Option<Node>, top: Node, leaf: Node)
    requires leaf.children == []
    ensures Ended(stack + [leaf], root) == Ended(stack, root)
    ensures stack != [] && top.children == Top(stack).children ==> Ended(MapTop(stack, top), root) == Ended(stack, root)
  {
  }

  lemma {:induction false} Simulates(b: Build, token: Token, strings: seq<Byte>)
    requires !token.EndTree? && Apply(b, token, strings).Some? && (b.stack != [] ==> b.root.None?)
    ensures var b' := Apply(b, token, strings).value;
            && SearchApply(SearchOf(b), token, strings) == Some(SearchOf(b'))
            && (b'.stack != [] ==> b'.root.None?)
  {
    hide FirstCarried, Ended, SplitNul, RawNameAt, Utf8, CompatibleKey, BootPolicy, DmaMode, Marks, MarkOf;
    match token
    case BeginNode(name) =>
      EndedUnmoved(b.stack, b.root, Node([], [], []), Node(name, [], []));
      MarksMove(b.stack, Node(name, [], []), Prop([], []));
      assert MarkOf([]) == Mark(false, None) by { NoMarks(); }
    case EndNode =>
      EndedAfterEnd(b);
      FirstCarriedConcat(Ended(b.stack, b.root), [Top(b.stack)]);
      OneCarried(Top(b.stack));
      MarksMove(b.stack, Top(b.stack), Prop([], []));
      MarksEnd(b.stack, b.root);
    case Property(_, nameoff, value) =>
      var p := Prop(RawNameAt(strings, nameoff).value, value);
      EndedUnmoved(b.stack, b.root, AddProp(Top(b.stack), p), Node([], [], []));
      MarksMove(b.stack, Node([], [], []), p);
    case Nop =>
  }

  lemma {:induction false} NoMarks()
    ensures MarkOf([]) == Mark(false, None)
  {
  }

  lemma {:induction false} MarksMove(stack: seq<Node>, node: Node, p: Prop)
    ensures Marks(stack + [node]) == Marks(stack) + [MarkOf(node.props)]
    ensures stack != [] ==>
              var top := Top(stack);
              && Marks(stack)[|stack| - 1] == MarkOf(top.props)
              && Marks(MapTop(stack, AddProp(top, p)))
              == Marks(stack)[|stack| - 1 := MarkProp(MarkOf(top.props), p.name, p.value)]
  {
  }

  lemma {:induction false} MarksEnd(stack: seq<Node>, root: Option<Node>)
    requires stack != []
    ensures Marks(Attach(stack[..|stack| - 1], root, Top(stack)).stack) == Marks(stack)[..|stack| - 1]
  {
  }

  lemma {:induction false} OneCarried(node: Node)
    ensures FirstCarried([node]) == Carried(node)
  {
  }

  lemma {:induction false} SearchFollows(rest: seq<Byte>, strings: seq<Byte>, b: Build)
    requires Run(rest, strings, b).Some? && (b.stack != [] ==> b.root.None?)
    ensures SearchRun(rest, strings, SearchOf(b)) == Some(FirstCarried(PostOrder(Run(rest, strings, b).value)))
    decreases |rest|
  {
    hide NextToken, Apply, SearchApply, FirstCarried, PostOrder;
    if rest != [] && !NextToken(rest).token.EndTree? {
      var token := NextToken(rest).token;
      Simulates(b, token, strings);
      SearchFollows(NextToken(rest).rest, strings, Apply(b, token, strings).value);
    }
  }

  /** On every blob the tree reader accepts, the streaming search answers the record of the first node, in
      post-order, that is compatible and carries one. */
  lemma {:induction false} FoundIsFirstCarried(blob: seq<Byte>)
    requires Parsed(blob).Some?
    ensures Found(blob) == Some(FirstCarried(PostOrder(Parsed(blob).value.root)))
  {
    hide Run, SearchRun, PostOrder;
    var h := ReadHeader(blob).value;
    assert SearchOf(START) == Search([], None);
    SearchFollows(StructBlock(blob, h), StringsBlock(blob, h), START);
  }

  // ----- adding the node -----

  datatype Shape = Ok | SignedProvenance | Short | WrongCompatible | OtherNodeName

  function PolicyNode(rec: seq<Byte>, shape: Shape): Node {
    Node(if shape.OtherNodeName? then PolicyName() else NodeName(),
         [Prop(CompatibleKey(), (if shape.WrongCompatible? then OtherCompatible() else BootPolicy()) + [0]),
          Prop(DmaMode(), rec)],
         [])
  }

  predicate HasChild(node: Node, name: seq<Byte>) {
    exists c | c in node.children :: c.name == name
  }

  method AddNode(blob: seq<Byte>, rec: seq<Byte>, shape: Shape) returns (r: Option<seq<Byte>>)
    ensures r == Added(blob, rec, shape)
  {
    var tree := Parse(blob);
    if tree.None? { return None; }
    var node := PolicyNode(rec, shape);
    if HasChild(tree.value.root, node.name) { return None; }
    r := Serialize(tree.value.(root := AddChild(tree.value.root, node)));
  }

  function Added(blob: seq<Byte>, rec: seq<Byte>, shape: Shape): Option<seq<Byte>> {
    var tree, node := Parsed(blob), PolicyNode(rec, shape);
    if tree.None? || HasChild(tree.value.root, node.name) then None
    else Serialized(tree.value.(root := AddChild(tree.value.root, node)))
  }

  lemma {:induction false} AsciiIsUtf8(s: seq<Byte>)
    requires forall b | b in s :: b < 128
    ensures Utf8(s)
    decreases |s|
  {
    if s != [] {
      assert s[0] in s && Utf8Lead(s) == 1;
      assert forall b | b in s[1..] :: b in s;
      AsciiIsUtf8(s[1..]);
    }
  }

  lemma {:induction false} TextOk(text: string)
    requires forall i | 0 <= i < |text| :: 0 as char < text[i] < 128 as char
    ensures NameOk(Ascii(text))
  {
    hide Utf8;
    AsciiIsUtf8(Ascii(text));
  }

  lemma {:induction false} PolicyNamesOk(rec: seq<Byte>, shape: Shape)
    ensures NamesOk(PolicyNode(rec, shape))
  {
    hide NameOk, Ascii;
    TextOk("libersystem");
    TextOk("policy");
    TextOk("compatible");
    TextOk("libersystem,dma-mode");
    var n := PolicyNode(rec, shape);
    assert forall p | p in n.props :: p == n.props[0] || p == n.props[1];
  }

  lemma {:induction false} SplitText(s: seq<Byte>)
    requires 0 !in s
    ensures SplitNul(s + [0]) == [s, []]
  {
  }

  lemma {:induction false} PolicyCarries(rec: seq<Byte>, shape: Shape)
    ensures Carried(PolicyNode(rec, shape)) == if shape.WrongCompatible? then None else Some(rec)
  {
    hide MarkOf, MarkProp, CompatibleKey, BootPolicy, OtherCompatible, DmaMode, NodeName, PolicyName;
    TextsOk();
    KeysDiffer();
    var text := if shape.WrongCompatible? then OtherCompatible() else BootPolicy();
    MarkTwo(CompatibleKey(), text + [0], DmaMode(), rec);
    MarkText(text, rec);
  }

  lemma {:induction false} TextsOk()
    ensures 0 !in BootPolicy() && 0 !in OtherCompatible()
  {
    hide Utf8, Ascii;
    TextOk("libersystem,boot-policy");
    TextOk("libersystem,something-else");
  }

  lemma {:induction false} MarkTwo(k1: seq<Byte>, v1: seq<Byte>, k2: seq<Byte>, v2: seq<Byte>)
    ensures MarkOf([Prop(k1, v1), Prop(k2, v2)]) == MarkProp(MarkProp(Mark(false, None), k1, v1), k2, v2)
  {
    hide MarkProp;
    var one := [Prop(k1, v1)];
    assert (one + [Prop(k2, v2)])[..1] == one && one[..0] == [];
    assert MarkOf(one) == MarkProp(MarkOf([]), k1, v1);
  }

  lemma {:induction false} MarkText(text: seq<Byte>, rec: seq<Byte>)
    requires 0 !in text && CompatibleKey() != DmaMode() && BootPolicy() != []
    ensures MarkProp(MarkProp(Mark(false, None), CompatibleKey(), text + [0]), DmaMode(), rec)
         == Mark(text == BootPolicy(), Some(rec))
  {
    hide SplitNul, CompatibleKey, BootPolicy, DmaMode;
    SplitText(text);
    assert BootPolicy() in SplitNul(text + [0]) <==> text == BootPolicy();
  }

  lemma {:induction false} KeysDiffer()
    ensures CompatibleKey() != DmaMode() && BootPolicy() != OtherCompatible() && BootPolicy() != []
  {
  }

  /** Adding the node and searching the blob written: the tree gains that child and nothing else, and the search
      answers a record the root's children already carried, else the new one (any node name), else - a node with
      the wrong `compatible` - whatever the root itself carries. */
  lemma {:induction false} AddThenFind(blob: seq<Byte>, rec: seq<Byte>, shape: Shape)
    requires Added(blob, rec, shape).Some?
    ensures var t, out := Parsed(blob).value, Added(blob, rec, shape).value;
            && Parsed(out) == Some(t.(root := AddChild(t.root, PolicyNode(rec, shape))))
            && Found(out) == Some(OrElse(FirstCarried(PostOrderAll(t.root.children)),
                                         if shape.WrongCompatible? then Carried(t.root) else Some(rec)))
  {
    hide Parsed, Serialized, NamesOk, ReservedOk, FirstCarried, Carried, Found, PolicyNode;
    var t := Parsed(blob).value;
    var node := PolicyNode(rec, shape);
    var root := AddChild(t.root, node);
    ParsedIsOk(blob);
    PolicyNamesOk(rec, shape);
    AddedNamesOk(t.root, node);
    RoundTrip(t.(root := root));
    FoundIsFirstCarried(Added(blob, rec, shape).value);
    assert root.children[..|root.children| - 1] == t.root.children;
    FirstCarriedConcat(PostOrderAll(root.children), [root]);
    FirstCarriedConcat(PostOrderAll(t.root.children), PostOrder(node));
    PolicyPostOrder(rec, shape);
    OneCarried(node);
    PolicyCarries(rec, shape);
    OneCarried(root);
    SameCarried(t.root, root);
  }

  lemma {:induction false} PolicyPostOrder(rec: seq<Byte>, shape: Shape)
    ensures PostOrder(PolicyNode(rec, shape)) == [PolicyNode(rec, shape)]
  {
  }

  lemma {:induction false} SameCarried(a: Node, b: Node)
    requires a.props == b.props
    ensures Carried(a) == Carried(b)
  {
  }

  lemma {:induction false} AddedNamesOk(parent: Node, child: Node)
    requires NamesOk(parent) && NamesOk(child)
    ensures NamesOk(AddChild(parent, child))
  {
  }
}
