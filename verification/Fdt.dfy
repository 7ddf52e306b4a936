/** The flattened device tree: its tokens and the reader (section 5 of the Devicetree Specification). */
module Fdt {
  import opened Bytes

  const FDT_MAGIC := 0xD00DFEED
  const FDT_BEGIN_NODE := 1
  const FDT_END_NODE := 2
  const FDT_PROP := 3
  const FDT_NOP := 4
  const FDT_END := 9

  /** A name is held as the UTF-8 bytes it is stored as; strict decoding and encoding are inverse on those. */
  datatype Prop = Prop(name: seq<Byte>, value: seq<Byte>)

  datatype Node = Node(name: seq<Byte>, props: seq<Prop>, children: seq<Node>)

  datatype Tree = Tree(reserved: seq<Byte>, root: Node, version: int, lastCompVersion: int, bootCpuidPhys: int)

  // ----- the header and the reservation block -----

  datatype Header = Header(offStruct: nat, offStrings: nat, offReserved: nat,
                           version: nat, lastCompVersion: nat, bootCpuidPhys: nat,
                           sizeStrings: nat, sizeStruct: nat)

  function Field(blob: seq<Byte>, i: nat): (n: nat)
    requires |blob| >= 4 * i + 4
    ensures n < WORD
  {
    Get32(blob[4 * i..])
  }

  function ReadHeader(blob: seq<Byte>): Option<Header> {
    if |blob| < 40 || Field(blob, 0) != FDT_MAGIC then None
    else Some(Header(Field(blob, 2), Field(blob, 3), Field(blob, 4), Field(blob, 5), Field(blob, 6), Field(blob, 7),
                     Field(blob, 8), Field(blob, 9)))
  }

  /** Every 16-byte pair from the front of `rest` through the first pair of zeros. */
  function ReservedFrom(rest: seq<Byte>): Option<seq<Byte>>
    decreases |rest|
  {
    if |rest| < 16 then None
    else if rest[..16] == Zeros(16) then Some(rest[..16])
    else match ReservedFrom(rest[16..])
      case None => None
      case Some(more) => Some(rest[..16] + more)
  }

  method ReservedBlock(blob: seq<Byte>, h: Header) returns (r: Option<seq<Byte>>)
    ensures r == ReservedFrom(Drop(blob, h.offReserved))
  {
    var at, out := h.offReserved, [];
    ghost var all := ReservedFrom(Drop(blob, at));
    assert forall more: seq<Byte> :: [] + more == more;
    while at + 16 <= |blob|
      invariant match ReservedFrom(Drop(blob, at))
                case None => all.None?
                case Some(more) => all == Some(out + more)
    {
      var pair := blob[at..at + 16];
      assert Drop(blob, at)[..16] == pair;
      assert Drop(blob, at)[16..] == Drop(blob, at + 16);
      if pair == Zeros(16) {
        return Some(out + pair);
      }
      assert forall more :: out + (pair + more) == (out + pair) + more;
      out := out + pair;
      at := at + 16;
    }
    return None;
  }

  // ----- tokens -----

  /** A property also carries the length it declares: its value is shorter when the block ends first. */
  datatype Token =
    | BeginNode(name: seq<Byte>)
    | EndNode
    | Property(length: nat, nameoff: nat, value: seq<Byte>)
    | Nop
    | EndTree

  datatype Lexed = Malformed | Lexed(token: Token, rest: seq<Byte>)

  /** The token at the front of a structure block, and the block after it. */
  function NextToken(rest: seq<Byte>): (r: Lexed)
    requires rest != []
    ensures r.Lexed? ==> |r.rest| < |rest|
  {
    if |rest| < 4 then Malformed
    else
      var token, body := Get32(rest), rest[4..];
      if token == FDT_BEGIN_NODE then
        match FirstNul(body)
        case None => Malformed
        case Some(end) => Lexed(BeginNode(body[..end]), Drop(body, Align4(end + 1)))
      else if token == FDT_END_NODE then Lexed(EndNode, body)
      else if token == FDT_PROP then
        if |body| < 8 then Malformed
        else
          var length := Get32(body);
          Lexed(Property(length, Get32(body[4..]), Slice(body, 8, 8 + length)), Drop(body, 8 + Align4(length)))
      else if token == FDT_NOP then Lexed(Nop, body)
      else if token == FDT_END then Lexed(EndTree, body)
      else Malformed
  }

  /** The bytes from `nameoff` of the strings block up to the next NUL. */
  function RawNameAt(strings: seq<Byte>, nameoff: nat): (r: Option<seq<Byte>>)
    ensures r.Some? ==> 0 !in r.value
  {
    if nameoff > |strings| then None
    else match FirstNul(strings[nameoff..])
      case None => None
      case Some(k) => Some(strings[nameoff..][..k])
  }

  /** The same, decoded: a name that is not UTF-8 is refused. */
  function NameAt(strings: seq<Byte>, nameoff: nat): Option<seq<Byte>> {
    var raw := RawNameAt(strings, nameoff);
    if raw.Some? && Utf8(raw.value) then raw else None
  }

  // ----- the reader -----

  /** The nodes begun and not ended, outermost first, and the root once it has ended. */
  datatype Build = Build(stack: seq<Node>, root: Option<Node>)

  function AddChild(parent: Node, child: Node): Node {
    parent.(children := parent.children + [child])
  }

  function AddProp(node: Node, prop: Prop): Node {
    node.(props := node.props + [prop])
  }

  function MapTop(stack: seq<Node>, top: Node): (r: seq<Node>)
    requires stack != []
    ensures |r| == |stack|
  {
    stack[|stack| - 1 := top]
  }

  function Top(stack: seq<Node>): Node
    requires stack != []
  {
    stack[|stack| - 1]
  }

  /** A finished node becomes the root or the next child of the node it was begun in. */
  function Attach(stack: seq<Node>, root: Option<Node>, node: Node): Build {
    if stack == [] then Build([], Some(node)) else Build(MapTop(stack, AddChild(Top(stack), node)), root)
  }

  function Apply(b: Build, token: Token, strings: seq<Byte>): Option<Build>
    requires !token.EndTree?
  {
    match token
    case BeginNode(name) =>
      if !Utf8(name) || (b.stack == [] && b.root.Some?) then None
      else Some(Build(b.stack + [Node(name, [], [])], b.root))
    case EndNode =>
      if b.stack == [] then None
      else Some(Attach(b.stack[..|b.stack| - 1], b.root, Top(b.stack)))
    case Property(_, nameoff, value) =>
      (match NameAt(strings, nameoff)
       case None => None
       case Some(name) =>
         if b.stack == [] then None
         else Some(Build(MapTop(b.stack, AddProp(Top(b.stack), Prop(name, value))), b.root)))
    case Nop => Some(b)
  }

  function Finish(b: Build): Option<Node> {
    if b.stack == [] then b.root else None
  }

  /** The root node the structure block `rest` closes, from a build already under way. */
  function Run(rest: seq<Byte>, strings: seq<Byte>, b: Build): Option<Node>
    decreases |rest|
  {
    if rest == [] then Finish(b)
    else match NextToken(rest)
      case Malformed => None
      case Lexed(token, more) =>
        if token.EndTree? then Finish(b)
        else match Apply(b, token, strings)
          case None => None
          case Some(b') => Run(more, strings, b')
  }

  const START := Build([], None)

  function StructBlock(blob: seq<Byte>, h: Header): seq<Byte> {
    Slice(blob, h.offStruct, h.offStruct + h.sizeStruct)
  }

  function StringsBlock(blob: seq<Byte>, h: Header): seq<Byte> {
    Slice(blob, h.offStrings, h.offStrings + h.sizeStrings)
  }

  /** What `parse` answers for `blob`: a tree, or `None` for every exception it can raise. */
  function Parsed(blob: seq<Byte>): Option<Tree> {
    match ReadHeader(blob)
    case None => None
    case Some(h) =>
      match Run(StructBlock(blob, h), StringsBlock(blob, h), START)
      case None => None
      case Some(root) =>
        match ReservedFrom(Drop(blob, h.offReserved))
        case None => None
        case Some(reserved) => Some(Tree(reserved, root, h.version, h.lastCompVersion, h.bootCpuidPhys))
  }

  // The token at an offset of the block that is a multiple of four, as the loop below reads it.

  lemma {:induction false} SimpleAt(block: seq<Byte>, at: nat)
    requires at < |block|
    ensures |block| < at + 4 ==> NextToken(block[at..]) == Malformed
    ensures at + 4 <= |block| ==>
              var token, r := Get32(block[at..]), NextToken(block[at..]);
              && (token == FDT_END_NODE ==> r == Lexed(EndNode, Drop(block, at + 4)))
              && (token == FDT_NOP ==> r == Lexed(Nop, Drop(block, at + 4)))
              && (token == FDT_END ==> r == Lexed(EndTree, Drop(block, at + 4)))
              && (token !in {FDT_BEGIN_NODE, FDT_END_NODE, FDT_PROP, FDT_NOP, FDT_END} ==> r == Malformed)
  {
  }

  lemma {:induction false} DropDrop(s: seq<Byte>, m: nat, n: nat)
    requires m <= |s|
    ensures Drop(s[m..], n) == Drop(s, m + n)
  {
  }

  lemma {:induction false} SliceDrop(s: seq<Byte>, m: nat, lo: nat, hi: nat)
    requires m <= |s| && lo <= hi
    ensures Slice(s[m..], lo, hi) == Slice(s, m + lo, m + hi)
  {
  }

  lemma {:induction false} BeginAt(block: seq<Byte>, at: nat)
    requires at % 4 == 0 && at + 4 <= |block| && Get32(block[at..]) == FDT_BEGIN_NODE
    ensures NextToken(block[at..]) ==
            match FirstNul(block[at + 4..])
            case None => Malformed
            case Some(k) => Lexed(BeginNode(block[at + 4..at + 4 + k]), Drop(block, Align4(at + 4 + k + 1)))
  {
    hide Get32, FirstNul;
    assert block[at..][4..] == block[at + 4..];
    var nul := FirstNul(block[at + 4..]);
    if nul.Some? {
      assert block[at + 4..][..nul.value] == block[at + 4..at + 4 + nul.value];
      DropDrop(block, at + 4, Align4(nul.value + 1));
      assert Align4(at + 4 + nul.value + 1) == at + 4 + Align4(nul.value + 1);
    }
  }

  lemma {:induction false} PropAt(block: seq<Byte>, at: nat)
    requires at + 4 <= |block| && Get32(block[at..]) == FDT_PROP
    ensures NextToken(block[at..]) ==
            if |block| < at + 12 then Malformed
            else
              var length := Get32(block[at + 4..]);
              Lexed(Property(length, Get32(block[at + 8..]), Slice(block, at + 12, at + 12 + length)),
                    Drop(block, at + 12 + Align4(length)))
  {
    hide Get32, FirstNul, Align4, Slice, Drop;
    var body := block[at..][4..];
    assert body == block[at + 4..];
    if |block| >= at + 12 {
      assert body[4..] == block[at + 8..];
      var length := Get32(body);
      SliceDrop(block, at + 4, 8, 8 + length);
      DropDrop(block, at + 4, 8 + Align4(length));
    }
  }

  /** One turn of the loop below: the token at `at`, which ends at `next`. */
  lemma {:induction false} RunToken(block: seq<Byte>, at: nat, strings: seq<Byte>, b: Build, token: Token, next: nat)
    requires at < |block| && NextToken(block[at..]) == Lexed(token, Drop(block, next))
    ensures Run(Drop(block, at), strings, b) ==
            if token.EndTree? then Finish(b)
            else match Apply(b, token, strings)
              case None => None
              case Some(b') => Run(Drop(block, next), strings, b')
  {
  }

  lemma {:induction false} RunMalformed(block: seq<Byte>, at: nat, strings: seq<Byte>, b: Build)
    requires at < |block| && NextToken(block[at..]) == Malformed
    ensures Run(Drop(block, at), strings, b) == None
  {
  }

  lemma {:induction false} RunEmpty(strings: seq<Byte>, b: Build)
    ensures Run([], strings, b) == Finish(b)
  {
  }

  method ParseStruct(block: seq<Byte>, strings: seq<Byte>) returns (r: Option<Node>)
    ensures r == Run(block, strings, START)
  {
    hide Run, NextToken, FirstNul, Utf8, NameAt, Get32, Slice, Align4;
    var stack: seq<Node>, root: Option<Node>, at := [], None, 0;
    while at < |block|
      invariant at % 4 == 0
      invariant Run(Drop(block, at), strings, Build(stack, root)) == Run(block, strings, START)
      decreases |block| - at
    {
      ghost var b, was := Build(stack, root), at;
      SimpleAt(block, at);
      if |block| < at + 4 {
        RunMalformed(block, was, strings, b);
        return None;
      }
      var token := Get32(block[at..]);
      at := at + 4;
      if token == FDT_BEGIN_NODE {
        BeginAt(block, was);
        var nul := FirstNul(block[at..]);
        if nul.None? {
          RunMalformed(block, was, strings, b);
          return None;
        }
        var end := at + nul.value;
        var name := block[at..end];
        at := Align4(end + 1);
        RunToken(block, was, strings, b, BeginNode(name), at);
        if !Utf8(name) || (stack == [] && root.Some?) { return None; }
        stack := stack + [Node(name, [], [])];
      } else if token == FDT_END_NODE {
        RunToken(block, was, strings, b, EndNode, at);
        if stack == [] { return None; }
        var node := Top(stack);
        stack := stack[..|stack| - 1];
        if stack == [] {
          root := Some(node);
        } else {
          stack := MapTop(stack, AddChild(Top(stack), node));
        }
      } else if token == FDT_PROP {
        PropAt(block, was);
        if |block| < at + 8 {
          RunMalformed(block, was, strings, b);
          return None;
        }
        var length, nameoff := Get32(block[at..]), Get32(block[at + 4..]);
        at := at + 8;
        var value := Slice(block, at, at + length);
        at := at + Align4(length);
        RunToken(block, was, strings, b, Property(length, nameoff, value), at);
        var name := NameAt(strings, nameoff);
        if name.None? || stack == [] { return None; }
        stack := MapTop(stack, AddProp(Top(stack), Prop(name.value, value)));
      } else if token == FDT_NOP {
        RunToken(block, was, strings, b, Nop, at);
      } else if token == FDT_END {
        RunToken(block, was, strings, b, EndTree, at);
        return if stack == [] then root else None;
      } else {
        RunMalformed(block, was, strings, b);
        return None;
      }
    }
    assert Drop(block, at) == [];
    RunEmpty(strings, Build(stack, root));
    return if stack == [] then root else None;
  }

  method Parse(blob: seq<Byte>) returns (r: Option<Tree>)
    ensures r == Parsed(blob)
  {
    var header := ReadHeader(blob);
    if header.None? { return None; }
    var h := header.value;
    var root := ParseStruct(StructBlock(blob, h), StringsBlock(blob, h));
    if root.None? { return None; }
    var reserved := ReservedBlock(blob, h);
    if reserved.None? { return None; }
    return Some(Tree(reserved.value, root.value, h.version, h.lastCompVersion, h.bootCpuidPhys));
  }
}
