/** The fixtures: virtio functions under the PCI host, a GPIO controller, and devices on their buses. */
module FdtFixtures {
  import opened Bytes
  import opened Fdt
  import opened FdtEdit

  function Text(s: string): seq<Byte> {
    Ascii(s) + [0]
  }

  function HexDigit(d: nat): Byte
    requires d < 16
  {
    if d < 10 then 48 + d else 87 + d
  }

  /** `f'{n:x}'` */
  function Hex(n: nat): seq<Byte> {
    if n < 16 then [HexDigit(n)] else Hex(n / 16) + [HexDigit(n % 16)]
  }

  /** A tree after an edit, and the place the edit found or made. */
  datatype Edit = Edit(root: Node, at: Path)

  ghost predicate EditOk(e: Edit) {
    Valid(e.root, e.at)
  }

  // ----- a change that brings no phandle -----

  ghost predicate Quiet(was: Node, now: Node, t: Touched) {
    Keeps(was, now, t) && Handles(now) == Handles(was)
  }

  lemma {:induction false} QuietTrans(a: Node, b: Node, c: Node, s: Touched, t: Touched)
    requires Quiet(a, b, s) && Quiet(b, c, t)
    ensures Quiet(a, c, s.And(t))
  {
  }

  lemma {:induction false} KeepsSelf(root: Node, t: Touched)
    ensures Keeps(root, root, t)
  {
  }

  lemma {:induction false} KeepsMore(was: Node, now: Node, s: Touched, t: Touched)
    requires Keeps(was, now, s) && s.Within(t)
    ensures Keeps(was, now, t)
  {
  }

  lemma {:induction false} AddKeeps(root: Node, p: Path, child: Node)
    requires Valid(root, p)
    ensures var root' := Put(root, p, AddChild(At(root, p), child));
            && Valid(root', p)
            && Keeps(root, root', Growing(p)) && At(root', p) == AddChild(At(root, p), child)
            && Handles(root') == Handles(root) + Handles(child)
            && Valid(root', p + [|At(root, p).children|])
            && At(root', p + [|At(root, p).children|]) == child
  {
    hide Keeps, Handle, Handles;
    var node := At(root, p);
    var node' := AddChild(node, child);
    PutKeeps(root, p, node');
    HandlesPut(root, p, node');
    AddedHandles(node, child);
    Cancel(Handles(Put(root, p, node')), Handles(node), Handles(root), Handles(child));
    AtPut(root, p, node');
    KeepsMore(root, Put(root, p, node'), Touched(if node'.children == node.children then {} else {p}, {}), Growing(p));
    ValidConcat(Put(root, p, node'), p, [|node.children|]);
  }

  lemma {:induction false} AddedHandles(node: Node, child: Node)
    ensures Handles(AddChild(node, child)) == Handles(node) + Handles(child)
  {
    HandlesAllSnoc(node.children, child);
  }

  lemma {:induction false} Cancel(x: multiset<nat>, own: multiset<nat>, all: multiset<nat>, more: multiset<nat>)
    requires x + own == all + (own + more)
    ensures x == all + more
  {
    forall k ensures x[k] == (all + more)[k] {
      assert (x + own)[k] == (all + (own + more))[k];
    }
  }

  lemma {:induction false} SetKeeps(root: Node, p: Path, key: seq<Byte>, value: seq<Byte>)
    requires Valid(root, p)
    ensures var node := At(root, p);
            var root' := Put(root, p, SetIn(node, key, value));
            && Keeps(root, root', Changing(p))
            && (key != PHANDLE ==> Handles(root') == Handles(root))
            && (key == PHANDLE && Handle(node).None? && |value| == 4 ==>
                  Handles(root') == Handles(root) + multiset{Get32(value)})
            && Valid(root', p) && At(root', p) == SetIn(node, key, value)
  {
    hide Keeps, Handle, Handles, Get32, SetProp;
    var node := At(root, p);
    var node' := SetIn(node, key, value);
    PutKeeps(root, p, node');
    KeepsMore(root, Put(root, p, node'), Touched({}, if node'.props == node.props then {} else {p}), Changing(p));
    HandlesPut(root, p, node');
    AtPut(root, p, node');
    SetHandles(node, key, value);
    if key != PHANDLE {
      Cancel(Handles(Put(root, p, node')), Handles(node), Handles(root), multiset{});
    } else if Handle(node).None? && |value| == 4 {
      Cancel(Handles(Put(root, p, node')), Handles(node), Handles(root), multiset{Get32(value)});
    }
  }

  lemma {:induction false} SetHandles(node: Node, key: seq<Byte>, value: seq<Byte>)
    ensures var node' := SetIn(node, key, value);
            && (key != PHANDLE ==> Handles(node') == Handles(node) + multiset{})
            && (key == PHANDLE && Handle(node).None? && |value| == 4 ==>
                  Handles(node') == Handles(node) + multiset{Get32(value)})
  {
    hide Get32, SetProp, HandlesAll;
  }

  // ----- found again or made -----

  /** The child of that name, or this one appended. */
  function Ensure(root: Node, p: Path, child: Node): Edit
    requires Valid(root, p)
  {
    var node := At(root, p);
    match ChildIndex(node.children, child.name)
    case Some(i) => Edit(root, p + [i])
    case None => Edit(Put(root, p, AddChild(node, child)), p + [|node.children|])
  }

  lemma {:induction false} EnsureKeeps(root: Node, p: Path, child: Node)
    requires Valid(root, p)
    ensures var e := Ensure(root, p, child);
            && EditOk(e) && Keeps(root, e.root, Growing(p)) && At(e.root, e.at).name == child.name
            && |e.at| == |p| + 1 && e.at[..|p|] == p && Valid(e.root, p)
            && (ChildIndex(At(root, p).children, child.name).Some? ==> e.root == root)
            && (ChildIndex(At(root, p).children, child.name).None? ==>
                  && At(e.root, e.at) == child && At(e.root, p) == AddChild(At(root, p), child)
                  && Handles(e.root) == Handles(root) + Handles(child))
  {
    hide Keeps, Handles;
    AddKeeps(root, p, child);
    KeepsSelf(root, Growing(p));
    var i := ChildIndex(At(root, p).children, child.name);
    if i.Some? {
      ValidConcat(root, p, [i.value]);
    }
  }

  /** `Node.add`: refused when a child has that name. */
  function Add(root: Node, p: Path, child: Node): Option<Edit>
    requires Valid(root, p)
  {
    if ChildIndex(At(root, p).children, child.name).Some? then None else Some(Ensure(root, p, child))
  }

  // ----- the PCI host -----

  const DEVICE_TYPE := Ascii("device_type")

  predicate IsPciHost(node: Node) {
    PropValue(node.props, DEVICE_TYPE) == Some(Text("pci"))
  }

  function PciHost(node: Node): (r: Option<Path>)
    ensures r.Some? ==> Valid(node, r.value) && IsPciHost(At(node, r.value))
    decreases node
  {
    if IsPciHost(node) then Some([]) else PciHostIn(node.children)
  }

  function PciHostIn(nodes: seq<Node>): (r: Option<Path>)
    ensures r.Some? ==> |r.value| > 0 && r.value[0] < |nodes| && Valid(nodes[r.value[0]], r.value[1..])
                        && IsPciHost(At(nodes[r.value[0]], r.value[1..]))
    decreases nodes
  {
    if nodes == [] then None
    else match PciHost(nodes[0])
      case Some(p) => assert ([0] + p)[1..] == p; Some([0] + p)
      case None =>
        match PciHostIn(nodes[1..])
        case Some(p) => assert ([p[0] + 1] + p[1..])[1..] == p[1..]; Some([p[0] + 1] + p[1..])
        case None => None
  }

  function FirstHost(vs: seq<Visit>): Option<Node> {
    if vs == [] then None else if IsPciHost(vs[0].node) then Some(vs[0].node) else FirstHost(vs[1..])
  }

  lemma {:induction false} FirstHostConcat(a: seq<Visit>, b: seq<Visit>)
    ensures FirstHost(a + b) == if FirstHost(a).Some? then FirstHost(a) else FirstHost(b)
  {
    if a == [] {
      assert a + b == b;
    } else {
      assert (a + b)[1..] == a[1..] + b;
      FirstHostConcat(a[1..], b);
    }
  }

  /** The host is the first node of the walk whose `device_type` is `pci`. */
  lemma {:induction false} HostIsFirstVisited(v: Visit)
    ensures PciHost(v.node).None? <==> FirstHost(PreOrder(v)).None?
    ensures PciHost(v.node).Some? ==> FirstHost(PreOrder(v)) == Some(At(v.node, PciHost(v.node).value))
    decreases v.node
  {
    hide IsPciHost;
    assert PreOrder(v)[0].node == v.node && PreOrder(v)[1..] == PreOrderAll(v.path, v.node.children);
    HostsAreFirstVisited(v.path, v.node.children);
  }

  lemma {:induction false} HostsAreFirstVisited(path: seq<Byte>, nodes: seq<Node>)
    ensures PciHostIn(nodes).None? <==> FirstHost(PreOrderAll(path, nodes)).None?
    ensures PciHostIn(nodes).Some? ==>
              var p := PciHostIn(nodes).value;
              FirstHost(PreOrderAll(path, nodes)) == Some(At(nodes[p[0]], p[1..]))
    decreases nodes
  {
    hide IsPciHost;
    if nodes != [] {
      HostIsFirstVisited(Below(path, nodes[0]));
      HostsAreFirstVisited(path, nodes[1..]);
      FirstHostConcat(PreOrder(Below(path, nodes[0])), PreOrderAll(path, nodes[1..]));
    }
  }

  // ----- virtio functions -----

  function FunctionNode(slot: nat, device: nat, name: seq<Byte>): Node {
    Node(name + Ascii("@") + Hex(slot) + Ascii(",0"),
         [Prop(Ascii("compatible"), Ascii("pci1af4,") + Hex(0x1040 + device) + [0]),
          Prop(Ascii("reg"), Words([slot * 2048, 0, 0, 0, 0]))],
         [])
  }

  function DeviceNode(device: nat, name: seq<Byte>): Node {
    Node(name, [Prop(Ascii("compatible"), Ascii("virtio,device") + Hex(device) + [0])], [])
  }

  /** The function's node at `slot` under the host and its one child, each made once and found again after. */
  function VirtioFunction(root: Node, slot: nat, device: nat, name: seq<Byte>): (r: Option<Edit>)
    ensures r.Some? ==> EditOk(r.value)
  {
    match PciHost(root)
    case None => None
    case Some(host) =>
      EnsureKeeps(root, host, FunctionNode(slot, device, name));
      var function_ := Ensure(root, host, FunctionNode(slot, device, name));
      EnsureKeeps(function_.root, function_.at, DeviceNode(device, name));
      Some(Ensure(function_.root, function_.at, DeviceNode(device, name)))
  }

  /** The two nodes above one: what a virtio function may be added to. */
  function Above(p: Path): set<Path>
    requires |p| >= 2
  {
    {p[..|p| - 2], p[..|p| - 1]}
  }

  lemma {:induction false} NoHandle(node: Node)
    requires node.children == [] && forall i | 0 <= i < |node.props| :: node.props[i].name != PHANDLE
    ensures Handles(node) == multiset{}
  {
    NoProp(node.props, PHANDLE);
  }

  lemma {:induction false} NoProp(props: seq<Prop>, name: seq<Byte>)
    requires forall i | 0 <= i < |props| :: props[i].name != name
    ensures PropValue(props, name).None?
  {
    if props != [] {
      NoProp(props[1..], name);
    }
  }

  lemma {:induction false} EnsureQuiet(root: Node, p: Path, child: Node)
    requires Valid(root, p) && Handles(child) == multiset{}
    ensures Quiet(root, Ensure(root, p, child).root, Growing(p))
  {
    hide Keeps, Handles;
    EnsureKeeps(root, p, child);
  }

  /** The function and its child are where and what they should be: what was there already is left as it was, and what
      was not is made new. Nothing else changes, the host's and the function's properties included, and no phandle. */
  lemma {:induction false} VirtioQuiet(root: Node, slot: nat, device: nat, name: seq<Byte>)
    requires VirtioFunction(root, slot, device, name).Some?
    ensures var e := VirtioFunction(root, slot, device, name).value;
            && |e.at| >= 2 && Quiet(root, e.root, Touched(Above(e.at), {}))
            && VirtioStands(root, e, FunctionNode(slot, device, name), DeviceNode(device, name))
  {
    hide Quiet, Handles, PciHost, Hex, Words, Valid, FunctionNode, DeviceNode, VirtioStands;
    var host := PciHost(root).value;
    var fn, dn := FunctionNode(slot, device, name), DeviceNode(device, name);
    VirtioNoHandle(slot, device, name);
    EnsureKeeps(root, host, fn);
    var e1 := Ensure(root, host, fn);
    EnsureQuiet(root, host, fn);
    EnsureKeeps(e1.root, e1.at, dn);
    var e2 := Ensure(e1.root, e1.at, dn);
    EnsureQuiet(e1.root, e1.at, dn);
    QuietTrans(root, e1.root, e2.root, Growing(host), Growing(e1.at));
    assert e2.at[..|e2.at| - 1] == e1.at && e2.at[..|e2.at| - 2] == host;
    QuietMore(root, e2.root, Growing(host).And(Growing(e1.at)), Touched(Above(e2.at), {}));
    VirtioMade(root, host, fn, dn);
  }

  lemma {:induction false} VirtioNoHandle(slot: nat, device: nat, name: seq<Byte>)
    ensures Handles(FunctionNode(slot, device, name)) == multiset{} && Handles(DeviceNode(device, name)) == multiset{}
    ensures FunctionNode(slot, device, name).children == []
  {
    hide Hex, Words;
    assert |PHANDLE| == 7 && PHANDLE != Ascii("compatible") && PHANDLE != Ascii("reg") by {
      assert |Ascii("compatible")| == 10 && |Ascii("reg")| == 3;
    }
    NoHandle(FunctionNode(slot, device, name));
    NoHandle(DeviceNode(device, name));
  }

  /** Below the host the function, below it the device: each as found, or as made and the only one that is. */
  ghost predicate VirtioStands(root: Node, e: Edit, fn: Node, dn: Node) {
    && PciHost(root).Some? && Valid(e.root, e.at) && |e.at| == |PciHost(root).value| + 2
    && var host, at := PciHost(root).value, e.at[..|e.at| - 1];
    && e.at[..|host|] == host && Valid(e.root, at) && Valid(e.root, host)
    && |At(e.root, host).children| == |At(root, host).children| + (if Valid(root, at) then 0 else 1)
    && (Valid(root, at) ==>
          |At(e.root, at).children| == |At(root, at).children| + (if Valid(root, e.at) then 0 else 1))
    && At(e.root, at).name == fn.name && At(e.root, e.at).name == dn.name
    && (!Valid(root, at) ==> At(e.root, at) == fn.(children := [dn]))
    && (!Valid(root, e.at) ==> At(e.root, e.at) == dn)
  }

  lemma {:induction false} VirtioMade(root: Node, host: Path, fn: Node, dn: Node)
    requires PciHost(root) == Some(host) && fn.children == []
    ensures EditOk(Ensure(root, host, fn))
    ensures var e1 := Ensure(root, host, fn); VirtioStands(root, Ensure(e1.root, e1.at, dn), fn, dn)
  {
    hide Keeps, PciHost, Handles;
    EnsureKeeps(root, host, fn);
    var e1 := Ensure(root, host, fn);
    EnsureKeeps(e1.root, e1.at, dn);
    var e2 := Ensure(e1.root, e1.at, dn);
    assert e2.at[..|e2.at| - 1] == e1.at && e2.at[..|host|] == e1.at[..|host|] == host;
    KeepsName(e1.root, e2.root, e1.at);
    SameCount(e1.root, e2.root, e1.at, host);
    FoundOrNew(root, host, fn);
    FoundOrNew(e1.root, e1.at, dn);
    if !Valid(root, e1.at) {
      assert At(e1.root, e1.at) == fn;
    }
  }

  lemma {:induction false} SameCount(was: Node, now: Node, grown: Path, p: Path)
    requires Keeps(was, now, Growing(grown)) && Valid(was, p) && p != grown
    ensures Valid(now, p) && |At(now, p).children| == |At(was, p).children|
  {
  }

  /** The place answered was there before exactly when a child of that name was. */
  lemma {:induction false} FoundOrNew(root: Node, p: Path, child: Node)
    requires Valid(root, p)
    ensures Valid(root, Ensure(root, p, child).at) <==> ChildIndex(At(root, p).children, child.name).Some?
  {
    var i := ChildIndex(At(root, p).children, child.name);
    ValidConcat(root, p, [if i.Some? then i.value else |At(root, p).children|]);
  }

  lemma {:induction false} KeepsName(was: Node, now: Node, p: Path)
    requires Valid(was, p) && exists t :: Keeps(was, now, t)
    ensures Valid(now, p) && At(now, p).name == At(was, p).name
  {
  }

  lemma {:induction false} QuietMore(was: Node, now: Node, s: Touched, t: Touched)
    requires Quiet(was, now, s) && s.Within(t)
    ensures Quiet(was, now, t)
  {
  }

  /** The properties set one after the other on the node at `p`. */
  function SetMany(root: Node, p: Path, kvs: seq<Prop>): (r: Node)
    requires Valid(root, p)
    ensures Valid(r, p)
  {
    if kvs == [] then root
    else
      var r, kv := SetMany(root, p, kvs[..|kvs| - 1]), kvs[|kvs| - 1];
      AtPut(r, p, SetIn(At(r, p), kv.name, kv.value));
      Put(r, p, SetIn(At(r, p), kv.name, kv.value))
  }

  function Keys(kvs: seq<Prop>): set<seq<Byte>> {
    set i | 0 <= i < |kvs| :: kvs[i].name
  }

  predicate KeysDiffer(kvs: seq<Prop>) {
    forall i, j | 0 <= i < j < |kvs| :: kvs[i].name != kvs[j].name
  }

  /** Each key takes its value and every other key keeps its own; the node's children stay, and all other nodes. */
  ghost predicate SetEach(was: Node, now: Node, kvs: seq<Prop>) {
    && now.name == was.name && now.children == was.children
    && (forall key | key !in Keys(kvs) :: PropValue(now.props, key) == PropValue(was.props, key))
    && forall i | 0 <= i < |kvs| :: PropValue(now.props, kvs[i].name) == Some(kvs[i].value)
  }

  lemma {:induction false} SetManyQuiet(root: Node, p: Path, kvs: seq<Prop>)
    requires Valid(root, p) && KeysDiffer(kvs) && PHANDLE !in Keys(kvs)
    ensures var r := SetMany(root, p, kvs); Quiet(root, r, Changing(p)) && SetEach(At(root, p), At(r, p), kvs)
  {
    hide Quiet, Keeps, Handles, SetEach, Keys, At, Put, Valid;
    if kvs == [] {
      QuietSelf(root, Changing(p));
      NothingSet(At(root, p));
    } else {
      var k := |kvs| - 1;
      var init, kv := kvs[..k], kvs[k];
      KeysSnoc(kvs);
      SetManyQuiet(root, p, init);
      var r := SetMany(root, p, init);
      SetKeeps(r, p, kv.name, kv.value);
      IsQuiet(r, SetMany(root, p, kvs), Changing(p));
      QuietTrans(root, r, SetMany(root, p, kvs), Changing(p), Changing(p));
      assert Changing(p).And(Changing(p)) == Changing(p);
      SetOneMore(At(root, p), At(r, p), kvs);
    }
  }

  lemma {:induction false} NothingSet(node: Node)
    ensures SetEach(node, node, [])
  {
  }

  lemma {:induction false} KeysSnoc(kvs: seq<Prop>)
    requires kvs != [] && KeysDiffer(kvs)
    ensures var k := |kvs| - 1;
            Keys(kvs) == Keys(kvs[..k]) + {kvs[k].name} && kvs[k].name !in Keys(kvs[..k]) && KeysDiffer(kvs[..k])
  {
    var k := |kvs| - 1;
    assert forall i | 0 <= i < k :: kvs[..k][i] == kvs[i];
    forall key | key in Keys(kvs) ensures key in Keys(kvs[..k]) + {kvs[k].name} {
      var i :| 0 <= i < |kvs| && kvs[i].name == key;
      if i < k {
        assert kvs[..k][i].name == key;
      }
    }
  }

  lemma {:induction false} SetOneMore(was: Node, now: Node, kvs: seq<Prop>)
    requires kvs != [] && KeysDiffer(kvs) && SetEach(was, now, kvs[..|kvs| - 1])
    ensures SetEach(was, SetIn(now, kvs[|kvs| - 1].name, kvs[|kvs| - 1].value), kvs)
  {
    hide PropValue, SetProp;
    KeysSnoc(kvs);
    var k := |kvs| - 1;
    var then_ := SetIn(now, kvs[k].name, kvs[k].value);
    forall i | 0 <= i < |kvs| ensures PropValue(then_.props, kvs[i].name) == Some(kvs[i].value) {
      if i < k {
        assert kvs[..k][i] == kvs[i];
      }
    }
  }

  lemma {:induction false} QuietSelf(root: Node, t: Touched)
    ensures Quiet(root, root, t)
  {
  }

  lemma {:induction false} IsQuiet(was: Node, now: Node, t: Touched)
    requires Keeps(was, now, t) && Handles(now) == Handles(was)
    ensures Quiet(was, now, t)
  {
  }

  // ----- the GPIO controller -----

  const GPIO_PROPS := [Prop(Ascii("gpio-controller"), []), Prop(Ascii("interrupt-controller"), []),
                       Prop(Ascii("#gpio-cells"), Words([2])), Prop(Ascii("#interrupt-cells"), Words([2]))]

  datatype Gpio = Gpio(root: Node, at: Path, phandle: nat)

  function GpioController(root: Node, slot: nat): (r: Option<Gpio>)
    ensures r.Some? ==> Valid(r.value.root, r.value.at)
  {
    match VirtioFunction(root, slot, 0x29, Ascii("gpio"))
    case None => None
    case Some(e) =>
      match PropValue(At(e.root, e.at).props, PHANDLE)
      case Some(v) => if |v| == 4 then Some(Gpio(e.root, e.at, Get32(v))) else None
      case None =>
        var value := Words([MaxHandle(e.root) + 1]);
        var r := SetMany(e.root, e.at, GPIO_PROPS);
        AtPut(r, e.at, SetIn(At(r, e.at), PHANDLE, value));
        Some(Gpio(Put(r, e.at, SetIn(At(r, e.at), PHANDLE, value)), e.at, Get32(value)))
  }

  /** The controller is there already, with a phandle of its own. */
  predicate HasGpio(root: Node, slot: nat) {
    var e := VirtioFunction(root, slot, 0x29, Ascii("gpio"));
    e.Some? && PropValue(At(e.value.root, e.value.at).props, PHANDLE).Some?
  }

  lemma {:induction false} SameMax(a: Node, b: Node)
    requires Handles(a) == Handles(b)
    ensures MaxHandle(a) == MaxHandle(b)
  {
    MaxHandleIsMax(a);
    MaxHandleIsMax(b);
    OneMax(Handles(a), MaxHandle(a), MaxHandle(b));
  }

  /** The word written for the next phandle: it wraps to 0 when the largest in use is all ones. */
  lemma {:induction false} NextWord(m: nat)
    requires m < WORD
    ensures Get32(Words([m + 1])) == if m + 1 < WORD then m + 1 else 0
  {
  }

  function NextHandle(root: Node): nat {
    if MaxHandle(root) + 1 < WORD then MaxHandle(root) + 1 else 0
  }

  /** What the controller is set to, the phandle last. */
  function ControllerProps(phandle: nat): seq<Prop> {
    GPIO_PROPS + [Prop(PHANDLE, Words([phandle]))]
  }

  /** The controller brings at most one phandle, the next one, and carries the one it answers. A controller that had one
      is left alone; another is set to a controller's five properties and keeps the rest. Of all other nodes only the
      two above it may have one child more. */
  lemma {:induction false} GpioKeeps(root: Node, slot: nat)
    requires GpioController(root, slot).Some?
    ensures var g := GpioController(root, slot).value;
            var e := VirtioFunction(root, slot, 0x29, Ascii("gpio")).value;
            && |g.at| >= 2 && g.at == e.at && Keeps(root, g.root, Touched(Above(g.at), {g.at}))
            && Handles(g.root) == Handles(root)
                + (if HasGpio(root, slot) then multiset{} else multiset{NextHandle(root)})
            && Handle(At(g.root, g.at)) == Some(g.phandle)
            && (HasGpio(root, slot) ==> g.root == e.root)
            && (!HasGpio(root, slot)
                ==> SetEach(At(e.root, e.at), At(g.root, g.at), ControllerProps(MaxHandle(root) + 1)))
  {
    hide Keeps, Handles, Words, Get32, VirtioFunction, SetMany, MaxHandle, SetEach, VirtioStands;
    VirtioQuiet(root, slot, 0x29, Ascii("gpio"));
    var e := VirtioFunction(root, slot, 0x29, Ascii("gpio")).value;
    if HasGpio(root, slot) {
      KeepsMore(root, e.root, Touched(Above(e.at), {}), Touched(Above(e.at), {e.at}));
    } else {
      GpioNames();
      SetManyQuiet(e.root, e.at, GPIO_PROPS);
      var r := SetMany(e.root, e.at, GPIO_PROPS);
      var value := Words([MaxHandle(e.root) + 1]);
      NoHandleStill(At(e.root, e.at), At(r, e.at));
      SetKeeps(r, e.at, PHANDLE, value);
      SameMax(root, e.root);
      MaxHandleIsMax(root);
      NextWord(MaxHandle(root));
      var g := GpioController(root, slot).value;
      var all := ControllerProps(MaxHandle(root) + 1);
      assert all[..4] == GPIO_PROPS;
      SetOneMore(At(e.root, e.at), At(r, e.at), all);
      KeepsTrans(root, e.root, r, Touched(Above(e.at), {}), Changing(e.at));
      KeepsTrans(root, r, g.root, Touched(Above(e.at), {}).And(Changing(e.at)), Changing(e.at));
      assert Touched(Above(e.at), {}).And(Changing(e.at)).And(Changing(e.at)) == Touched(Above(e.at), {e.at});
    }
  }

  lemma {:induction false} NoHandleStill(was: Node, now: Node)
    requires SetEach(was, now, GPIO_PROPS) && PropValue(was.props, PHANDLE).None?
    ensures Handle(now).None?
  {
    GpioNames();
  }

  lemma {:induction false} GpioNames()
    ensures KeysDiffer(GPIO_PROPS) && PHANDLE !in Keys(GPIO_PROPS)
    ensures forall h :: KeysDiffer(ControllerProps(h))
  {
    hide Words;
    assert |PHANDLE| == 7 && |Ascii("gpio-controller")| == 15 && |Ascii("interrupt-controller")| == 20;
    assert |Ascii("#gpio-cells")| == 11 && |Ascii("#interrupt-cells")| == 16;
    forall h ensures KeysDiffer(ControllerProps(h)) {
      var all := ControllerProps(h);
      assert all[4].name == PHANDLE && forall i | 0 <= i < 4 :: all[i] == GPIO_PROPS[i];
    }
  }

  /** Phandles stay pairwise distinct exactly when the controller had one, or there is a number left above the
      largest in use, or the word that wraps to 0 is free. */
  lemma {:induction false} GpioDistinct(root: Node, slot: nat)
    requires GpioController(root, slot).Some? && Distinct(Handles(root))
    ensures Distinct(Handles(GpioController(root, slot).value.root))
       <==> HasGpio(root, slot) || MaxHandle(root) < WORD - 1 || 0 !in Handles(root)
  {
    hide Handles, GpioController, MaxHandle, HasGpio;
    GpioKeeps(root, slot);
    MaxHandleIsMax(root);
    if !HasGpio(root, slot) {
      DistinctAdd(Handles(root), NextHandle(root));
    }
  }

  lemma {:induction false} DistinctAdd(hs: multiset<nat>, h: nat)
    requires Distinct(hs)
    ensures Distinct(hs + multiset{h}) <==> h !in hs
  {
    assert (hs + multiset{h})[h] == hs[h] + 1;
  }

  /** A node of its own phandle and nothing else. */
  function Leaf(name: string, phandle: nat): Node {
    Node(Ascii(name), [Prop(PHANDLE, Words([phandle]))], [])
  }

  /** A host with the largest phandle and 0 in use below it. */
  function Full(): Node {
    Node([], [Prop(DEVICE_TYPE, Text("pci"))], [Leaf("a", 0), Leaf("b", WORD - 1)])
  }

  lemma {:induction false} LeafHandles(name: string, phandle: nat)
    requires phandle < WORD
    ensures Handles(Leaf(name, phandle)) == multiset{phandle}
  {
    hide Words, Get32;
    WordAt([phandle], 0, []);
    assert Words([phandle]) + [] == Words([phandle]) && Words([phandle])[0..] == Words([phandle]);
    assert PropValue(Leaf(name, phandle).props, PHANDLE) == Some(Words([phandle]));
  }

  lemma {:induction false} FullHandles()
    ensures Handles(Full()) == multiset{0, WORD - 1}
  {
    hide Leaf, Words, PropValue, Handle, HandlesAll, Ascii;
    assert Handle(Full()).None? by { NoHandleOwn(); }
    LeafHandles("a", 0);
    LeafHandles("b", WORD - 1);
    TwoHandles(Leaf("a", 0), Leaf("b", WORD - 1));
  }

  lemma {:induction false} TwoHandles(a: Node, b: Node)
    ensures HandlesAll([a, b]) == Handles(a) + Handles(b)
  {
    hide Handles;
    assert [a, b][1..] == [b] && [b][1..] == [];
    assert HandlesAll([b]) == Handles(b) + HandlesAll([]) == Handles(b);
  }

  lemma {:induction false} NoHandleOwn()
    ensures Handle(Full()).None? && PciHost(Full()) == Some([])
  {
    hide Leaf, Words;
    assert |PHANDLE| == 7 && |DEVICE_TYPE| == 11;
  }

  lemma {:induction false} FullMax()
    ensures MaxHandle(Full()) == WORD - 1
  {
    hide Handles, MaxHandle;
    FullHandles();
    MaxHandleIsMax(Full());
    OneMax(Handles(Full()), MaxHandle(Full()), WORD - 1);
  }

  /** There the controller is given the phandle 0 a second time. */
  lemma {:induction false} GpioDoesCollide(slot: nat)
    ensures Distinct(Handles(Full())) && GpioController(Full(), slot).Some?
    ensures !Distinct(Handles(GpioController(Full(), slot).value.root))
  {
    hide Handles, MaxHandle, Words, Get32, Leaf, VirtioFunction, SetMany, FunctionNode, Keeps;
    FullHandles();
    FullMax();
    NoHandleOwn();
    var root := Full();
    assert VirtioFunction(root, slot, 0x29, Ascii("gpio")).Some? by { HostGivesFunction(root, slot); }
    var e := VirtioFunction(root, slot, 0x29, Ascii("gpio")).value;
    VirtioQuiet(root, slot, 0x29, Ascii("gpio"));
    assert !Valid(root, e.at) by { TwoBelow(e.at); }
    NewHasNone(0x29, Ascii("gpio"));
    GpioDistinct(root, slot);
  }

  lemma {:induction false} HostGivesFunction(root: Node, slot: nat)
    requires PciHost(root).Some?
    ensures VirtioFunction(root, slot, 0x29, Ascii("gpio")).Some?
  {
  }

  lemma {:induction false} TwoBelow(p: Path)
    requires |p| == 2
    ensures !Valid(Full(), p)
  {
  }

  lemma {:induction false} NewHasNone(device: nat, name: seq<Byte>)
    ensures PropValue(DeviceNode(device, name).props, PHANDLE).None?
  {
    hide Hex;
    assert |PHANDLE| == 7 && |Ascii("compatible")| == 10;
    NoProp(DeviceNode(device, name).props, PHANDLE);
  }

  // ----- the fixtures on a GPIO controller -----

  function LiberFixture(phandle: nat, line: int): Node {
    Node(Ascii("liber-fixture"),
         [Prop(Ascii("compatible"), Text("liber,tree-fixture")),
          Prop(Ascii("interrupts-extended"), Words([phandle, line, 1]))], [])
  }

  function TreeFixture(root: Node, slot: nat, line: int): Option<Node> {
    match GpioController(root, slot)
    case None => None
    case Some(g) =>
      match Add(g.root, [], LiberFixture(g.phandle, line))
      case None => None
      case Some(e) => Some(e.root)
  }

  /** The virtio-i2c function's child, made a bus of seven-bit addresses. */
  function I2cBus(root: Node, slot: nat): (r: Option<Edit>)
    ensures r.Some? ==> EditOk(r.value)
  {
    match VirtioFunction(root, slot, 0x22, Ascii("i2c"))
    case None => None
    case Some(e) => Some(Edit(SetMany(e.root, e.at, BUS_PROPS), e.at))
  }

  const BUS_PROPS := [Prop(Ascii("#address-cells"), Words([1])), Prop(Ascii("#size-cells"), Words([0]))]

  function HidDevice(name: seq<Byte>, address: nat, register: nat, line: nat, phandle: nat): Node {
    Node(name + Ascii("@") + Hex(address),
         [Prop(Ascii("compatible"), Text("hid-over-i2c")), Prop(Ascii("reg"), Words([address])),
          Prop(Ascii("hid-descr-addr"), Words([register])),
          Prop(Ascii("interrupts-extended"), Words([phandle, line, 8]))], [])
  }

  /** Each of `nodes` added in order to the node at `p`. */
  function AddAll(root: Node, p: Path, nodes: seq<Node>): (r: Option<Node>)
    requires Valid(root, p)
    ensures r.Some? ==> Valid(r.value, p)
  {
    if nodes == [] then Some(root)
    else match AddAll(root, p, nodes[..|nodes| - 1])
      case None => None
      case Some(r) =>
        AtPut(r, p, AddChild(At(r, p), nodes[|nodes| - 1]));
        match Add(r, p, nodes[|nodes| - 1])
        case None => None
        case Some(e) => Some(e.root)
  }

  function HidDevices(phandle: nat): seq<Node> {
    [HidDevice(Ascii("touchpad"), 0x2C, 0x20, 0, phandle), HidDevice(Ascii("touchscreen"), 0x10, 0x01, 1, phandle)]
  }

  /** The port controller with the connector below it. */
  function Tcpc(phandle: nat): Node {
    Node(Ascii("tcpc@52"),
         [Prop(Ascii("compatible"), Text("tcpci")), Prop(Ascii("reg"), Words([0x52])),
          Prop(Ascii("interrupts-extended"), Words([phandle, 5, 8]))],
         [Node(Ascii("connector"),
               [Prop(Ascii("compatible"), Text("usb-c-connector")), Prop(Ascii("power-role"), Text("sink")),
                Prop(Ascii("sink-pdos"), Words([0x1912C, 0x4B0C8])),
                Prop(Ascii("op-sink-microwatt"), Words([15_000_000]))], [])])
  }

  function TcpcDevices(phandle: nat): seq<Node> {
    [Tcpc(phandle)]
  }

  /** The GPIO controller, the I2C bus, and the devices on it whose interrupts are the controller's lines. */
  function BusFixture(root: Node, i2cSlot: nat, gpioSlot: nat, devices: nat -> seq<Node>): Option<Node> {
    match GpioController(root, gpioSlot)
    case None => None
    case Some(g) =>
      match I2cBus(g.root, i2cSlot)
      case None => None
      case Some(bus) => AddAll(bus.root, bus.at, devices(g.phandle))
  }

  function HidFixture(root: Node, i2cSlot: nat, gpioSlot: nat): Option<Node> {
    BusFixture(root, i2cSlot, gpioSlot, HidDevices)
  }

  function TcpcFixture(root: Node, i2cSlot: nat, gpioSlot: nat): Option<Node> {
    BusFixture(root, i2cSlot, gpioSlot, TcpcDevices)
  }

  /** The nodes are added to that node in order, and nothing else changes. */
  lemma {:induction false} AddAllQuiet(root: Node, p: Path, nodes: seq<Node>)
    requires Valid(root, p) && AddAll(root, p, nodes).Some?
    requires forall i | 0 <= i < |nodes| :: Handles(nodes[i]) == multiset{}
    ensures var r := AddAll(root, p, nodes).value;
            Quiet(root, r, Growing(p)) && At(r, p) == At(root, p).(children := At(root, p).children + nodes)
  {
    hide Quiet, Handles, Valid, At, Put, Keeps;
    if nodes == [] {
      QuietSelf(root, Growing(p));
      assert At(root, p).children + [] == At(root, p).children;
    } else {
      var k := |nodes| - 1;
      AddAllQuiet(root, p, nodes[..k]);
      var r := AddAll(root, p, nodes[..k]).value;
      EnsureQuiet(r, p, nodes[k]);
      EnsureKeeps(r, p, nodes[k]);
      QuietTrans(root, r, AddAll(root, p, nodes).value, Growing(p), Growing(p));
      assert Growing(p).And(Growing(p)) == Growing(p);
      assert At(root, p).children + nodes == (At(root, p).children + nodes[..k]) + [nodes[k]];
    }
  }

  /** A fixture kept every node it does not name and brought no phandle but the controller's; and where phandles are
      distinct, the one it was given for its interrupts is the controller's and no other node's. */
  ghost predicate FixtureOk(root: Node, r: Node, gpioSlot: nat, t: Touched)
    requires GpioController(root, gpioSlot).Some?
  {
    var g := GpioController(root, gpioSlot).value;
    && Keeps(root, r, t)
    && (Distinct(Handles(root)) ==>
          (Distinct(Handles(r)) <==> HasGpio(root, gpioSlot) || MaxHandle(root) < WORD - 1 || 0 !in Handles(root)))
    && Valid(r, g.at) && Handle(At(r, g.at)) == Some(g.phandle)
    && (Distinct(Handles(r)) ==> forall p | Valid(r, p) && Handle(At(r, p)) == Some(g.phandle) :: p == g.at)
  }

  lemma {:induction false} GpioThenQuiet(root: Node, gpioSlot: nat, r: Node, t: Touched)
    requires GpioController(root, gpioSlot).Some?
    requires var g := GpioController(root, gpioSlot).value; Quiet(g.root, r, t) && g.at !in t.changed
    ensures var g := GpioController(root, gpioSlot).value;
            |g.at| >= 2 && FixtureOk(root, r, gpioSlot, Touched(Above(g.at), {g.at}).And(t))
  {
    hide Keeps, Handles, GpioController, HasGpio, Handle, MaxHandle, SetEach, VirtioFunction, Words;
    GpioKeeps(root, gpioSlot);
    var g := GpioController(root, gpioSlot).value;
    KeepsTrans(root, g.root, r, Touched(Above(g.at), {g.at}), t);
    if Distinct(Handles(root)) {
      GpioDistinct(root, gpioSlot);
    }
    SameHandle(g.root, r, t, g.at);
    forall p | Valid(r, p) && Handle(At(r, p)) == Some(g.phandle) && Distinct(Handles(r))
      ensures p == g.at
    {
      if p != g.at {
        OneNode(r, p, g.at, g.phandle);
      }
    }
  }

  lemma {:induction false} SameHandle(was: Node, now: Node, t: Touched, p: Path)
    requires Keeps(was, now, t) && Valid(was, p) && p !in t.changed
    ensures Valid(now, p) && Handle(At(now, p)) == Handle(At(was, p))
  {
  }

  /** The firmware fixture changes nothing but the controller and the nodes above it, and gives the root one child: it
      names the controller's phandle, the line and the trigger. */
  lemma {:induction false} TreeFixtureOk(root: Node, slot: nat, line: int)
    requires TreeFixture(root, slot, line).Some?
    ensures var g := GpioController(root, slot).value;
            var r := TreeFixture(root, slot, line).value;
            && |g.at| >= 2 && FixtureOk(root, r, slot, Touched(Above(g.at) + {[]}, {g.at}))
            && r == AddChild(g.root, LiberFixture(g.phandle, line))
  {
    hide Keeps, Handles, GpioController, Words, Quiet, FixtureOk;
    var g := GpioController(root, slot).value;
    var child := LiberFixture(g.phandle, line);
    DeviceKeys();
    NoHandle(child);
    EnsureQuiet(g.root, [], child);
    GpioThenQuiet(root, slot, TreeFixture(root, slot, line).value, Growing([]));
    assert Touched(Above(g.at), {g.at}).And(Growing([])) == Touched(Above(g.at) + {[]}, {g.at});
  }

  lemma {:induction false} DeviceKeys()
    ensures PHANDLE !in [Ascii("compatible"), Ascii("reg"), Ascii("hid-descr-addr"), Ascii("interrupts-extended"),
                         Ascii("#address-cells"), Ascii("#size-cells"), Ascii("power-role"), Ascii("sink-pdos"),
                         Ascii("op-sink-microwatt")]
  {
  }

  lemma {:induction false} BusKeys()
    ensures KeysDiffer(BUS_PROPS) && PHANDLE !in Keys(BUS_PROPS)
  {
    hide Words;
    assert |PHANDLE| == 7 && |Ascii("#address-cells")| == 14 && |Ascii("#size-cells")| == 11;
  }

  /** The bus is a bus of seven-bit addresses that has gained those devices, in order, and nothing else. */
  ghost predicate BusHolds(root: Node, r: Node, at: Path, i2cSlot: nat, devices: seq<Node>) {
    var e := VirtioFunction(root, i2cSlot, 0x22, Ascii("i2c"));
    && e.Some? && e.value.at == at && Valid(r, at)
    && var was := At(e.value.root, at);
    && At(r, at).children == was.children + devices
    && SetEach(was, At(r, at).(children := was.children), BUS_PROPS)
  }

  lemma {:induction false} BusFixtureOk(root: Node, i2cSlot: nat, gpioSlot: nat, devices: nat -> seq<Node>)
    requires BusFixture(root, i2cSlot, gpioSlot, devices).Some?
    requires forall h, i | 0 <= i < |devices(h)| :: Handles(devices(h)[i]) == multiset{}
    ensures var g := GpioController(root, gpioSlot).value;
            var bus := I2cBus(g.root, i2cSlot).value;
            var r := BusFixture(root, i2cSlot, gpioSlot, devices).value;
            && |g.at| >= 2 && |bus.at| >= 2
            && FixtureOk(root, r, gpioSlot, Touched(Above(g.at) + Above(bus.at) + {bus.at}, {g.at, bus.at}))
            && BusHolds(g.root, r, bus.at, i2cSlot, devices(g.phandle))
  {
    hide Keeps, Handles, GpioController, Words, Quiet, FixtureOk, SetMany, AddAll, VirtioFunction, SetEach, Above,
         At, Valid;
    var g := GpioController(root, gpioSlot).value;
    var e := VirtioFunction(g.root, i2cSlot, 0x22, Ascii("i2c")).value;
    VirtioQuiet(g.root, i2cSlot, 0x22, Ascii("i2c"));
    BusKeys();
    SetManyQuiet(e.root, e.at, BUS_PROPS);
    var bus := SetMany(e.root, e.at, BUS_PROPS);
    AddAllQuiet(bus, e.at, devices(g.phandle));
    var r := AddAll(bus, e.at, devices(g.phandle)).value;
    QuietTrans(g.root, e.root, bus, Touched(Above(e.at), {}), Changing(e.at));
    QuietTrans(g.root, bus, r, Touched(Above(e.at), {}).And(Changing(e.at)), Growing(e.at));
    var t := Touched(Above(e.at) + {e.at}, {e.at});
    assert Touched(Above(e.at), {}).And(Changing(e.at)).And(Growing(e.at)) == t;
    NotTheBus(root, gpioSlot, i2cSlot);
    GpioThenQuiet(root, gpioSlot, r, t);
    assert Touched(Above(g.at), {g.at}).And(t) == Touched(Above(g.at) + Above(e.at) + {e.at}, {g.at, e.at});
    BusGains(At(e.root, e.at), At(bus, e.at), devices(g.phandle));
  }

  lemma {:induction false} BusGains(was: Node, bus: Node, devices: seq<Node>)
    requires SetEach(was, bus, BUS_PROPS)
    ensures var now := bus.(children := bus.children + devices);
            now.children == was.children + devices && SetEach(was, now.(children := was.children), BUS_PROPS)
  {
    hide PropValue, Keys;
  }

  /** The controller and the bus are different nodes: their names differ. */
  lemma {:induction false} NotTheBus(root: Node, gpioSlot: nat, i2cSlot: nat)
    requires GpioController(root, gpioSlot).Some?
    requires VirtioFunction(GpioController(root, gpioSlot).value.root, i2cSlot, 0x22, Ascii("i2c")).Some?
    ensures var g := GpioController(root, gpioSlot).value;
            g.at != VirtioFunction(g.root, i2cSlot, 0x22, Ascii("i2c")).value.at
  {
    hide Keeps, Handles, GpioController, VirtioFunction, SetEach, Words, HasGpio, Valid, At;
    var g := GpioController(root, gpioSlot).value;
    var e := VirtioFunction(g.root, i2cSlot, 0x22, Ascii("i2c")).value;
    VirtioQuiet(g.root, i2cSlot, 0x22, Ascii("i2c"));
    GpioNamed(root, gpioSlot);
    KeepsName(g.root, e.root, g.at);
    assert |Ascii("gpio")| == 4 && |Ascii("i2c")| == 3;
  }

  lemma {:induction false} GpioNamed(root: Node, slot: nat)
    requires GpioController(root, slot).Some?
    ensures var g := GpioController(root, slot).value; Valid(g.root, g.at) && At(g.root, g.at).name == Ascii("gpio")
  {
    hide Keeps, Handles, VirtioFunction, Words, Valid, At, Keys, SetMany, MaxHandle;
    GpioKeeps(root, slot);
    VirtioQuiet(root, slot, 0x29, Ascii("gpio"));
  }

  /** The HID-over-I2C fixture changes the two virtio functions' nodes and those above them, and nothing else; the bus
      gains the two devices, whose interrupts name the controller's phandle. */
  lemma {:induction false} HidFixtureOk(root: Node, i2cSlot: nat, gpioSlot: nat)
    requires HidFixture(root, i2cSlot, gpioSlot).Some?
    ensures var g := GpioController(root, gpioSlot).value;
            var bus := I2cBus(g.root, i2cSlot).value;
            var r := HidFixture(root, i2cSlot, gpioSlot).value;
            && |g.at| >= 2 && |bus.at| >= 2
            && FixtureOk(root, r, gpioSlot, Touched(Above(g.at) + Above(bus.at) + {bus.at}, {g.at, bus.at}))
            && BusHolds(g.root, r, bus.at, i2cSlot, HidDevices(g.phandle))
  {
    hide FixtureOk, GpioController, I2cBus, Words, BusFixture, BusHolds;
    DeviceKeys();
    forall h, i | 0 <= i < |HidDevices(h)| ensures Handles(HidDevices(h)[i]) == multiset{} {
      NoHandle(HidDevices(h)[i]);
    }
    BusFixtureOk(root, i2cSlot, gpioSlot, HidDevices);
  }

  lemma {:induction false} TcpcNoHandle(phandle: nat)
    ensures Handles(Tcpc(phandle)) == multiset{}
  {
    hide Words;
    DeviceKeys();
    var t := Tcpc(phandle);
    NoHandle(t.children[0]);
    NoProp(t.props, PHANDLE);
    assert HandlesAll(t.children) == Handles(t.children[0]) + HandlesAll([]) by {
      assert t.children[1..] == [];
    }
  }

  /** So does the TCPCI fixture, whose bus gains the port controller with its connector. */
  lemma {:induction false} TcpcFixtureOk(root: Node, i2cSlot: nat, gpioSlot: nat)
    requires TcpcFixture(root, i2cSlot, gpioSlot).Some?
    ensures var g := GpioController(root, gpioSlot).value;
            var bus := I2cBus(g.root, i2cSlot).value;
            var r := TcpcFixture(root, i2cSlot, gpioSlot).value;
            && |g.at| >= 2 && |bus.at| >= 2
            && FixtureOk(root, r, gpioSlot, Touched(Above(g.at) + Above(bus.at) + {bus.at}, {g.at, bus.at}))
            && BusHolds(g.root, r, bus.at, i2cSlot, TcpcDevices(g.phandle))
  {
    hide FixtureOk, GpioController, I2cBus, Words, BusFixture, Handles, Tcpc, BusHolds;
    forall h, i | 0 <= i < |TcpcDevices(h)| ensures Handles(TcpcDevices(h)[i]) == multiset{} {
      TcpcNoHandle(h);
    }
    BusFixtureOk(root, i2cSlot, gpioSlot, TcpcDevices);
  }
}
