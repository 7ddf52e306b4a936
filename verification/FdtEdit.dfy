/** Editing a tree: the walk over it, its phandles, and properties and nodes put at a place in it. */
module FdtEdit {
  import opened Bytes
  import opened Fdt

  // ----- properties and children of one node -----

  function PropValue(props: seq<Prop>, name: seq<Byte>): Option<seq<Byte>> {
    if props == [] then None
    else if props[0].name == name then Some(props[0].value)
    else PropValue(props[1..], name)
  }

  /** `Node.set`: the first property of that name takes the value, or a new one is appended. */
  function SetProp(props: seq<Prop>, name: seq<Byte>, value: seq<Byte>): (r: seq<Prop>)
    ensures PropValue(r, name) == Some(value)
    ensures forall k | k != name :: PropValue(r, k) == PropValue(props, k)
    ensures PropValue(props, name) == Some(value) ==> r == props
  {
    if props == [] then [Prop(name, value)]
    else if props[0].name == name then [Prop(name, value)] + props[1..]
    else [props[0]] + SetProp(props[1..], name, value)
  }

  function SetIn(node: Node, name: seq<Byte>, value: seq<Byte>): Node {
    node.(props := SetProp(node.props, name, value))
  }

  /** `Node.child`: the first child of that name. */
  function ChildIndex(nodes: seq<Node>, name: seq<Byte>): (r: Option<nat>)
    ensures r.Some? ==> r.value < |nodes| && nodes[r.value].name == name
                        && forall i | 0 <= i < r.value :: nodes[i].name != name
    ensures r.None? ==> forall i | 0 <= i < |nodes| :: nodes[i].name != name
  {
    if nodes == [] then None
    else if nodes[0].name == name then Some(0)
    else match ChildIndex(nodes[1..], name)
      case None => None
      case Some(i) => Some(i + 1)
  }

  // ----- the walk -----

  datatype Visit = Visit(path: seq<Byte>, node: Node)

  function Below(path: seq<Byte>, node: Node): Visit {
    Visit(path + Ascii("/") + node.name, node)
  }

  /** The root is shown as `/`. */
  function Shown(v: Visit): Visit {
    if v.path == [] then v.(path := Ascii("/")) else v
  }

  function PreOrder(v: Visit): seq<Visit>
    decreases v.node
  {
    [Shown(v)] + PreOrderAll(v.path, v.node.children)
  }

  function PreOrderAll(path: seq<Byte>, nodes: seq<Node>): seq<Visit>
    decreases nodes
  {
    if nodes == [] then []
    else PreOrder(Below(path, nodes[0])) + PreOrderAll(path, nodes[1..])
  }

  function Size(node: Node): (n: nat)
    ensures n >= 1
    decreases node
  {
    1 + SizeAll(node.children)
  }

  function SizeAll(nodes: seq<Node>): nat
    decreases nodes
  {
    if nodes == [] then 0 else Size(nodes[0]) + SizeAll(nodes[1..])
  }

  /** What the worklist still has to visit: its top first. */
  function Pending(stack: seq<Visit>): seq<Visit> {
    if stack == [] then [] else PreOrder(stack[|stack| - 1]) + Pending(stack[..|stack| - 1])
  }

  function PendingSize(stack: seq<Visit>): nat {
    if stack == [] then 0 else Size(stack[|stack| - 1].node) + PendingSize(stack[..|stack| - 1])
  }

  /** The worklist visits every node exactly once, parents first, children in order. */
  method Walk(root: Node) returns (out: seq<Visit>)
    ensures out == PreOrder(Visit([], root))
  {
    hide PreOrder, PreOrderAll, Size, SizeAll, Pending, PendingSize, Ascii;
    var stack := [Visit([], root)];
    out := [];
    assert stack == [] + [Visit([], root)];
    PendingPush([], Visit([], root));
    PendingNone(Visit([], root));
    while stack != []
      invariant out + Pending(stack) == PreOrder(Visit([], root))
      decreases PendingSize(stack)
    {
      var v := stack[|stack| - 1];
      PendingPush(stack[..|stack| - 1], v);
      assert stack[..|stack| - 1] + [v] == stack;
      stack := stack[..|stack| - 1];
      out := out + [Shown(v)];
      ghost var rest := stack;
      var children := v.node.children;
      assert children[|children|..] == [];
      PendingNone(v);
      for i := |children| downto 0
        invariant Pending(stack) == PreOrderAll(v.path, children[i..]) + Pending(rest)
        invariant PendingSize(stack) == SizeAll(children[i..]) + PendingSize(rest)
      {
        ChildFirst(v.path, children, i);
        PendingPush(stack, Below(v.path, children[i]));
        stack := stack + [Below(v.path, children[i])];
      }
      assert children[0..] == children;
      Visited(v);
    }
    PendingNone(Visit([], root));
  }

  lemma {:induction false} PendingPush(stack: seq<Visit>, v: Visit)
    ensures Pending(stack + [v]) == PreOrder(v) + Pending(stack)
    ensures PendingSize(stack + [v]) == Size(v.node) + PendingSize(stack)
  {
  }

  lemma {:induction false} PendingNone(v: Visit)
    ensures Pending([]) == [] && PreOrderAll(v.path, []) == [] && SizeAll([]) == 0 && PendingSize([]) == 0
  {
  }

  lemma {:induction false} ChildFirst(path: seq<Byte>, nodes: seq<Node>, i: nat)
    requires i < |nodes|
    ensures PreOrderAll(path, nodes[i..]) == PreOrder(Below(path, nodes[i])) + PreOrderAll(path, nodes[i + 1..])
    ensures SizeAll(nodes[i..]) == Size(nodes[i]) + SizeAll(nodes[i + 1..])
  {
  }

  lemma {:induction false} Visited(v: Visit)
    ensures PreOrder(v) == [Shown(v)] + PreOrderAll(v.path, v.node.children)
    ensures Size(v.node) == 1 + SizeAll(v.node.children)
  {
  }

  // ----- phandles -----

  const PHANDLE := Ascii("phandle")

  function Handle(node: Node): (r: Option<nat>)
    ensures r.Some? ==> r.value < WORD
  {
    match PropValue(node.props, PHANDLE)
    case None => None
    case Some(v) => if |v| == 4 then Some(Get32(v)) else None
  }

  ghost function OneHandle(h: Option<nat>): multiset<nat> {
    if h.Some? then multiset{h.value} else multiset{}
  }

  /** Every four-byte phandle of the subtree, as often as it is used. */
  ghost function Handles(node: Node): multiset<nat>
    decreases node
  {
    OneHandle(Handle(node)) + HandlesAll(node.children)
  }

  ghost function HandlesAll(nodes: seq<Node>): multiset<nat>
    decreases nodes
  {
    if nodes == [] then multiset{} else Handles(nodes[0]) + HandlesAll(nodes[1..])
  }

  ghost predicate Distinct(hs: multiset<nat>) {
    forall h :: hs[h] <= 1
  }

  ghost predicate IsMax(hs: multiset<nat>, m: nat) {
    (forall h | h in hs :: h <= m) && (m in hs || m == 0)
  }

  ghost function VisitHandles(vs: seq<Visit>): multiset<nat> {
    if vs == [] then multiset{}
    else VisitHandles(vs[..|vs| - 1]) + OneHandle(Handle(vs[|vs| - 1].node))
  }

  lemma {:induction false} VisitHandlesConcat(a: seq<Visit>, b: seq<Visit>)
    ensures VisitHandles(a + b) == VisitHandles(a) + VisitHandles(b)
  {
    if b == [] {
      assert a + b == a;
    } else {
      assert (a + b)[..|a + b| - 1] == a + b[..|b| - 1];
      VisitHandlesConcat(a, b[..|b| - 1]);
    }
  }

  lemma {:induction false} WalkHandles(v: Visit)
    ensures VisitHandles(PreOrder(v)) == Handles(v.node)
    decreases v.node
  {
    VisitHandlesConcat([Shown(v)], PreOrderAll(v.path, v.node.children));
    assert [Shown(v)][..0] == [];
    WalkHandlesAll(v.path, v.node.children);
  }

  lemma {:induction false} WalkHandlesAll(path: seq<Byte>, nodes: seq<Node>)
    ensures VisitHandles(PreOrderAll(path, nodes)) == HandlesAll(nodes)
    decreases nodes
  {
    if nodes != [] {
      VisitHandlesConcat(PreOrder(Below(path, nodes[0])), PreOrderAll(path, nodes[1..]));
      WalkHandles(Below(path, nodes[0]));
      WalkHandlesAll(path, nodes[1..]);
    }
  }

  function Max(a: nat, b: nat): nat {
    if a < b then b else a
  }

  /** The largest phandle in use, or 0. */
  function MaxHandle(node: Node): nat
    decreases node
  {
    Max(if Handle(node).Some? then Handle(node).value else 0, MaxHandleAll(node.children))
  }

  function MaxHandleAll(nodes: seq<Node>): nat
    decreases nodes
  {
    if nodes == [] then 0 else Max(MaxHandle(nodes[0]), MaxHandleAll(nodes[1..]))
  }

  lemma {:induction false} MaxHandleIsMax(node: Node)
    ensures IsMax(Handles(node), MaxHandle(node)) && MaxHandle(node) < WORD
    decreases node
  {
    hide Handle;
    MaxHandleAllIsMax(node.children);
  }

  lemma {:induction false} MaxHandleAllIsMax(nodes: seq<Node>)
    ensures IsMax(HandlesAll(nodes), MaxHandleAll(nodes)) && MaxHandleAll(nodes) < WORD
    decreases nodes
  {
    if nodes != [] {
      MaxHandleIsMax(nodes[0]);
      MaxHandleAllIsMax(nodes[1..]);
    }
  }

  lemma {:induction false} OneMax(hs: multiset<nat>, a: nat, b: nat)
    requires IsMax(hs, a) && IsMax(hs, b)
    ensures a == b
  {
  }

  /** `Tree.new_phandle`: one more than the largest in use. */
  method NewPhandle(root: Node) returns (h: nat)
    ensures h == MaxHandle(root) + 1
    ensures h !in Handles(root)
  {
    hide PreOrder, Handles, Handle, IsMax, VisitHandles;
    var visits := Walk(root);
    var most := 0;
    NoMore(multiset{}, 0, None);
    NoVisits();
    assert visits[..0] == [];
    for i := 0 to |visits|
      invariant IsMax(VisitHandles(visits[..i]), most)
    {
      VisitOne(visits, i);
      var own := Handle(visits[i].node);
      NoMore(VisitHandles(visits[..i]), most, own);
      if own.Some? && own.value > most {
        most := own.value;
      }
    }
    assert visits[..|visits|] == visits;
    WalkHandles(Visit([], root));
    h := most + 1;
    NoMore(Handles(root), most, None);
    MaxHandleIsMax(root);
    OneMax(Handles(root), most, MaxHandle(root));
  }

  lemma {:induction false} NoVisits()
    ensures VisitHandles([]) == multiset{}
  {
  }

  lemma {:induction false} VisitOne(vs: seq<Visit>, i: nat)
    requires i < |vs|
    ensures VisitHandles(vs[..i + 1]) == VisitHandles(vs[..i]) + OneHandle(Handle(vs[i].node))
  {
    assert vs[..i + 1][..i] == vs[..i];
  }

  lemma {:induction false} NoMore(hs: multiset<nat>, m: nat, own: Option<nat>)
    ensures IsMax(multiset{}, 0)
    ensures IsMax(hs, m) ==> m + 1 !in hs
    ensures IsMax(hs, m) ==> IsMax(hs + OneHandle(own), if own.Some? && own.value > m then own.value else m)
  {
  }

  // ----- a place in a tree -----

  /** A node is named by the child indices that lead to it. */
  type Path = seq<nat>

  predicate Valid(node: Node, p: Path)
    decreases |p|
  {
    p == [] || (p[0] < |node.children| && Valid(node.children[p[0]], p[1..]))
  }

  function At(node: Node, p: Path): Node
    requires Valid(node, p)
    decreases |p|
  {
    if p == [] then node else At(node.children[p[0]], p[1..])
  }

  /** The tree with the node at `p` replaced. */
  function Put(node: Node, p: Path, n: Node): (r: Node)
    requires Valid(node, p)
    ensures p != [] ==> r.name == node.name && r.props == node.props && |r.children| == |node.children|
    decreases |p|
  {
    if p == [] then n
    else node.(children := node.children[p[0] := Put(node.children[p[0]], p[1..], n)])
  }

  lemma {:induction false} AtPut(node: Node, p: Path, n: Node)
    requires Valid(node, p)
    ensures Valid(Put(node, p, n), p) && At(Put(node, p, n), p) == n
    decreases |p|
  {
    if p != [] {
      AtPut(node.children[p[0]], p[1..], n);
    }
  }

  lemma {:induction false} ValidConcat(node: Node, p: Path, q: Path)
    requires Valid(node, p)
    ensures Valid(node, p + q) <==> Valid(At(node, p), q)
    ensures Valid(node, p + q) ==> At(node, p + q) == At(At(node, p), q)
    decreases |p|
  {
    if p == [] {
      assert p + q == q;
    } else {
      assert (p + q)[1..] == p[1..] + q;
      ValidConcat(node.children[p[0]], p[1..], q);
    }
  }

  lemma {:induction false} PutConcat(node: Node, p: Path, q: Path, n: Node)
    requires Valid(node, p) && Valid(At(node, p), q)
    ensures Valid(node, p + q) && Put(node, p + q, n) == Put(node, p, Put(At(node, p), q, n))
    decreases |p|
  {
    ValidConcat(node, p, q);
    if p == [] {
      assert p + q == q;
    } else {
      assert (p + q)[1..] == p[1..] + q;
      PutConcat(node.children[p[0]], p[1..], q, n);
    }
  }

  lemma {:induction false} HandlesAllSet(nodes: seq<Node>, i: nat, n: Node)
    requires i < |nodes|
    ensures HandlesAll(nodes[i := n]) + Handles(nodes[i]) == HandlesAll(nodes) + Handles(n)
  {
    hide Handles;
    var first, rest, rest' := Handles(nodes[0]), nodes[1..], nodes[i := n][1..];
    if i == 0 {
      assert rest' == rest;
    } else {
      assert rest' == rest[i - 1 := n];
      HandlesAllSet(rest, i - 1, n);
      AddToBoth(first, HandlesAll(rest'), Handles(nodes[i]), HandlesAll(rest), Handles(n));
    }
  }

  lemma {:induction false} AddToBoth(own: multiset<nat>, a: multiset<nat>, b: multiset<nat>, c: multiset<nat>,
                                     d: multiset<nat>)
    requires a + b == c + d
    ensures own + a + b == own + c + d
  {
    forall x ensures (own + a + b)[x] == (own + c + d)[x] {
      assert (a + b)[x] == (c + d)[x];
    }
  }

  lemma {:induction false} HandlesAllSnoc(nodes: seq<Node>, n: Node)
    ensures HandlesAll(nodes + [n]) == HandlesAll(nodes) + Handles(n)
  {
    if nodes == [] {
      assert [] + [n] == [n] && [n][1..] == [];
    } else {
      assert (nodes + [n])[1..] == nodes[1..] + [n];
      HandlesAllSnoc(nodes[1..], n);
    }
  }

  /** Replacing one node exchanges its phandles and leaves every other phandle. */
  lemma {:induction false} HandlesPut(node: Node, p: Path, n: Node)
    requires Valid(node, p)
    ensures Handles(Put(node, p, n)) + Handles(At(node, p)) == Handles(node) + Handles(n)
    decreases |p|
  {
    if p != [] {
      var child := node.children[p[0]];
      var child' := Put(child, p[1..], n);
      HandlesPut(child, p[1..], n);
      HandlesAllSet(node.children, p[0], child');
      assert Handle(Put(node, p, n)) == Handle(node);
      PutHandles(Handles(Put(node, p, n)), Handles(node), HandlesAll(node.children[p[0] := child']),
                 HandlesAll(node.children), Handles(child), Handles(child'), Handles(At(node, p)), Handles(n),
                 OneHandle(Handle(node)));
    }
  }

  lemma {:induction false} PutHandles(h': multiset<nat>, h: multiset<nat>, all': multiset<nat>, all: multiset<nat>,
                                      c: multiset<nat>,
                   c': multiset<nat>, at: multiset<nat>, n: multiset<nat>, own: multiset<nat>)
    requires h' == own + all' && h == own + all && all' + c == all + c' && c' + at == c + n
    ensures h' + at == h + n
  {
    forall x ensures (h' + at)[x] == (h + n)[x] {
      assert (all' + c)[x] == (all + c')[x] && (c' + at)[x] == (c + n)[x];
    }
  }

  /** The nodes an edit gives more children, and those whose properties it changes. */
  datatype Touched = Touched(grown: set<Path>, changed: set<Path>) {
    function And(t: Touched): Touched {
      Touched(grown + t.grown, changed + t.changed)
    }

    predicate Within(t: Touched) {
      grown <= t.grown && changed <= t.changed
    }
  }

  function Growing(p: Path): Touched {
    Touched({p}, {})
  }

  function Changing(p: Path): Touched {
    Touched({}, {p})
  }

  /** Every node of `was` is where it was, under its name; only the touched have other properties or more children. */
  ghost predicate Keeps(was: Node, now: Node, t: Touched) {
    forall p | Valid(was, p) ::
      && Valid(now, p) && At(now, p).name == At(was, p).name
      && (p !in t.changed ==> At(now, p).props == At(was, p).props)
      && (p !in t.grown ==> |At(now, p).children| == |At(was, p).children|)
  }

  lemma {:induction false} KeepsTrans(a: Node, b: Node, c: Node, s: Touched, t: Touched)
    requires Keeps(a, b, s) && Keeps(b, c, t)
    ensures Keeps(a, c, s.And(t))
  {
  }

  lemma {:induction false} PutAtOther(node: Node, p: Path, n: Node, q: Path)
    requires Valid(node, p) && Valid(node, q)
    requires n.name == At(node, p).name && At(node, p).children <= n.children
    ensures Valid(Put(node, p, n), q) && At(Put(node, p, n), q).name == At(node, q).name
    ensures q != p ==> At(Put(node, p, n), q).props == At(node, q).props
                       && |At(Put(node, p, n), q).children| == |At(node, q).children|
    decreases |p|
  {
    if p == [] {
      if q != [] {
        assert n.children[q[0]] == node.children[q[0]];
      }
    } else if q != [] && q[0] == p[0] {
      PutAtOther(node.children[p[0]], p[1..], n, q[1..]);
      assert p == [p[0]] + p[1..] && q == [q[0]] + q[1..];
    }
  }

  /** A node that keeps its name and its children, and may have other properties or later children. */
  lemma {:induction false} PutKeeps(node: Node, p: Path, n: Node)
    requires Valid(node, p) && n.name == At(node, p).name && At(node, p).children <= n.children
    ensures Keeps(node, Put(node, p, n), Touched(if n.children == At(node, p).children then {} else {p},
                                                 if n.props == At(node, p).props then {} else {p}))
  {
    AtPut(node, p, n);
    var grown := if n.children == At(node, p).children then {} else {p};
    var changed := if n.props == At(node, p).props then {} else {p};
    forall q | Valid(node, q)
      ensures Valid(Put(node, p, n), q) && At(Put(node, p, n), q).name == At(node, q).name
      ensures q !in changed ==> At(Put(node, p, n), q).props == At(node, q).props
      ensures q !in grown ==> |At(Put(node, p, n), q).children| == |At(node, q).children|
    {
      PutAtOther(node, p, n, q);
    }
  }

  // ----- one node for a phandle -----

  lemma {:induction false} ChildHandles(nodes: seq<Node>, i: nat, h: nat)
    requires i < |nodes|
    ensures HandlesAll(nodes)[h] >= Handles(nodes[i])[h]
    ensures forall j | i < j < |nodes| :: HandlesAll(nodes)[h] >= Handles(nodes[i])[h] + Handles(nodes[j])[h]
    decreases nodes
  {
    hide Handles;
    if i == 0 {
      forall j | 0 < j < |nodes| ensures HandlesAll(nodes)[h] >= Handles(nodes[0])[h] + Handles(nodes[j])[h] {
        ChildHandles(nodes[1..], j - 1, h);
      }
    } else {
      ChildHandles(nodes[1..], i - 1, h);
      forall j | i < j < |nodes| ensures HandlesAll(nodes)[h] >= Handles(nodes[i])[h] + Handles(nodes[j])[h] {
        assert nodes[1..][j - 1] == nodes[j];
      }
    }
  }

  lemma {:induction false} HandleCounted(node: Node, p: Path, h: nat)
    requires Valid(node, p) && Handle(At(node, p)) == Some(h)
    ensures Handles(node)[h] >= 1
    decreases |p|
  {
    hide Handle, HandlesAll;
    if p != [] {
      HandleCounted(node.children[p[0]], p[1..], h);
      ChildHandles(node.children, p[0], h);
    }
  }

  /** Where phandles are distinct, no two nodes have the same one. */
  lemma {:induction false} OneNode(node: Node, p: Path, q: Path, h: nat)
    requires Valid(node, p) && Valid(node, q) && Handle(At(node, p)) == Some(h) && Handle(At(node, q)) == Some(h)
    requires p != q
    ensures Handles(node)[h] >= 2
    decreases |p|
  {
    hide Handle, HandlesAll;
    if p == [] {
      HandleCounted(node.children[q[0]], q[1..], h);
      ChildHandles(node.children, q[0], h);
    } else if q == [] {
      HandleCounted(node.children[p[0]], p[1..], h);
      ChildHandles(node.children, p[0], h);
    } else if p[0] == q[0] {
      assert p == [p[0]] + p[1..] && q == [q[0]] + q[1..];
      OneNode(node.children[p[0]], p[1..], q[1..], h);
      ChildHandles(node.children, p[0], h);
    } else {
      HandleCounted(node.children[p[0]], p[1..], h);
      HandleCounted(node.children[q[0]], q[1..], h);
      ChildHandles(node.children, p[0], h);
      ChildHandles(node.children, q[0], h);
    }
  }
}
