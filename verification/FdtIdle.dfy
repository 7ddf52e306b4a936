/** The idle-state fixture: three states under `/cpus/idle-states`, and every cpu node naming them. */
module FdtIdle {
  import opened Bytes
  import opened Fdt
  import opened FdtEdit
  import opened FdtFixtures

  datatype Binding = Arm | Riscv

  datatype State = State(name: seq<Byte>, param: nat, entry: nat, exit: nat, residency: nat, timerStop: bool)

  function States(b: Binding): seq<State> {
    match b
    case Arm => [State(Ascii("cpu-retention"), 0x1, 20, 40, 80, false),
                 State(Ascii("cpu-sleep"), 0x2, 500, 1500, 5000, false),
                 State(Ascii("cpu-power-down"), 0x1_0003, 100, 250, 1000, true)]
    case Riscv => [State(Ascii("cpu-retentive"), 0, 20, 40, 80, false),
                   State(Ascii("cpu-sleep"), 0, 500, 1500, 5000, false),
                   State(Ascii("cpu-non-retentive"), 0x8000_0000, 100, 250, 1000, true)]
  }

  function StateProps(b: Binding, s: State): seq<Prop> {
    [Prop(Ascii("compatible"), if b.Arm? then Text("arm,idle-state") else Text("riscv,idle-state")),
     Prop(if b.Arm? then Ascii("arm,psci-suspend-param") else Ascii("riscv,sbi-suspend-param"), Words([s.param])),
     Prop(Ascii("entry-latency-us"), Words([s.entry])), Prop(Ascii("exit-latency-us"), Words([s.exit])),
     Prop(Ascii("min-residency-us"), Words([s.residency]))]
    + if s.timerStop then [Prop(Ascii("local-timer-stop"), [])] else []
  }

  function StateNode(b: Binding, s: State, handle: nat): Node {
    Node(s.name, StateProps(b, s) + [Prop(PHANDLE, Words([handle]))], [])
  }

  datatype Named = Named(root: Node, phandles: seq<nat>)

  /** Each state's node found or made in order below `at`, and their phandles. */
  function PutStates(root: Node, at: Path, b: Binding, states: seq<State>): (r: Option<Named>)
    requires Valid(root, at)
    ensures r.Some? ==> Valid(r.value.root, at) && |r.value.phandles| == |states|
  {
    if states == [] then Some(Named(root, []))
    else match PutStates(root, at, b, states[..|states| - 1])
      case None => None
      case Some(n) =>
        var s := states[|states| - 1];
        EnsureKeeps(n.root, at, StateNode(b, s, MaxHandle(n.root) + 1));
        var e := Ensure(n.root, at, StateNode(b, s, MaxHandle(n.root) + 1));
        match Handle(At(e.root, e.at)) // a missing or wrongly sized phandle raises
        case None => None
        case Some(h) => Some(Named(e.root, n.phandles + [h]))
  }

  const IDLE_KEY := Ascii("cpu-idle-states")

  predicate IsCpu(node: Node) {
    PropValue(node.props, DEVICE_TYPE) == Some(Text("cpu"))
  }

  /** The first `k` children of the node at `[cpus]`: each cpu among them takes the value. */
  function NameCpus(root: Node, cpus: nat, k: nat, value: seq<Byte>): (r: Node)
    requires cpus < |root.children| && k <= |root.children[cpus].children|
    ensures cpus < |r.children| && |r.children[cpus].children| == |root.children[cpus].children|
    ensures |r.children| == |root.children|
  {
    if k == 0 then root
    else
      var r := NameCpus(root, cpus, k - 1, value);
      var cpu := r.children[cpus].children[k - 1];
      if IsCpu(cpu) then SetAtCpu(r, cpus, k - 1, SetIn(cpu, IDLE_KEY, value)) else r
  }

  function SetAtCpu(root: Node, cpus: nat, k: nat, cpu: Node): Node
    requires cpus < |root.children| && k < |root.children[cpus].children|
  {
    root.(children := root.children[cpus := root.children[cpus].(children := root.children[cpus].children[k := cpu])])
  }

  const CPUS := Ascii("cpus")
  const IDLE_STATES := Ascii("idle-states")

  function IdleNode(b: Binding): Node {
    Node(IDLE_STATES, if b.Arm? then [Prop(Ascii("entry-method"), Text("psci"))] else [], [])
  }

  function IdleFixture(root: Node, b: Binding): Option<Node> {
    match ChildIndex(root.children, CPUS)
    case None => None
    case Some(cpus) =>
      EnsureKeeps(root, [cpus], IdleNode(b));
      var e := Ensure(root, [cpus], IdleNode(b));
      match PutStates(e.root, e.at, b, States(b))
      case None => None
      case Some(n) =>
        ParentValid(n.root, e.at, cpus);
        var all := n.root.children[cpus].children;
        if exists c | c in all :: IsCpu(c) then Some(NameCpus(n.root, cpus, |all|, Words(n.phandles))) else None
  }

  lemma {:induction false} ParentValid(root: Node, at: Path, cpus: nat)
    requires Valid(root, at) && |at| == 2 && at[0] == cpus
    ensures cpus < |root.children| && at[1] < |root.children[cpus].children|
    ensures At(root, at) == root.children[cpus].children[at[1]]
    ensures forall n :: Put(root, at, n) == SetAtCpu(root, cpus, at[1], n)
  {
    var below := at[1..];
    assert below == [at[1]] && below[1..] == [];
    assert Valid(root.children[cpus], below) && Valid(root.children[cpus].children[at[1]], []);
    assert At(root, at) == At(root.children[cpus], below) == At(root.children[cpus].children[at[1]], []);
    forall n ensures Put(root, at, n) == SetAtCpu(root, cpus, at[1], n) {
      assert Put(root.children[cpus], below, n)
          == root.children[cpus].(children := root.children[cpus].children[at[1] := n]);
    }
  }

  // ----- what the states leave behind -----

  /** Each state is found below `nodes` by its name, carrying the phandle recorded for it. */
  ghost predicate Hold(nodes: seq<Node>, states: seq<State>, phandles: seq<nat>) {
    && |states| == |phandles|
    && forall k | 0 <= k < |states| ::
         var i := ChildIndex(nodes, states[k].name);
         i.Some? && Handle(nodes[i.value]) == Some(phandles[k])
  }

  lemma {:induction false} IndexInLonger(nodes: seq<Node>, more: Node, name: seq<Byte>)
    ensures ChildIndex(nodes, name).Some? ==> ChildIndex(nodes + [more], name) == ChildIndex(nodes, name)
    ensures ChildIndex(nodes, name).None? ==>
              ChildIndex(nodes + [more], name) == if more.name == name then Some(|nodes|) else None
  {
    if nodes == [] {
      assert [more][1..] == [];
    } else {
      assert (nodes + [more])[1..] == nodes[1..] + [more];
      IndexInLonger(nodes[1..], more, name);
    }
  }

  lemma {:induction false} StatesHold(root: Node, at: Path, b: Binding, states: seq<State>)
    requires Valid(root, at) && PutStates(root, at, b, states).Some?
    ensures var n := PutStates(root, at, b, states).value; Hold(At(n.root, at).children, states, n.phandles)
  {
    hide Handle, StateProps, Words, Hold, MaxHandle, Keeps, Handles, ChildIndex, At, Valid, Ensure;
    if states == [] {
      HoldNone(At(root, at).children);
    } else {
      var init, s := states[..|states| - 1], states[|states| - 1];
      StatesHold(root, at, b, init);
      var n := PutStates(root, at, b, init).value;
      var child := StateNode(b, s, MaxHandle(n.root) + 1);
      var nodes := At(n.root, at).children;
      EnsureKeeps(n.root, at, child);
      var e := Ensure(n.root, at, child);
      EnsureFound(n.root, at, child);
      HoldOneMore(nodes, child, init, n.phandles, s, Handle(At(e.root, e.at)).value);
      assert init + [s] == states;
    }
  }

  lemma {:induction false} EnsureFound(root: Node, p: Path, child: Node)
    requires Valid(root, p)
    ensures EditOk(Ensure(root, p, child))
    ensures var i := ChildIndex(At(root, p).children, child.name);
            i.Some? ==> At(Ensure(root, p, child).root, Ensure(root, p, child).at) == At(root, p).children[i.value]
  {
    hide Keeps, Handles;
    EnsureKeeps(root, p, child);
    var i := ChildIndex(At(root, p).children, child.name);
    if i.Some? {
      ValidConcat(root, p, [i.value]);
      assert [i.value][1..] == [];
    }
  }

  lemma {:induction false} HoldNone(nodes: seq<Node>)
    ensures Hold(nodes, [], [])
  {
  }

  lemma {:induction false} HoldOneMore(nodes: seq<Node>, child: Node, states: seq<State>, phandles: seq<nat>,
                                       s: State, h: nat)
    requires Hold(nodes, states, phandles) && child.name == s.name
    requires var i := ChildIndex(nodes, s.name); Handle(if i.Some? then nodes[i.value] else child) == Some(h)
    ensures Hold(if ChildIndex(nodes, s.name).Some? then nodes else nodes + [child], states + [s], phandles + [h])
  {
    hide Handle;
    if ChildIndex(nodes, s.name).None? {
      forall k | 0 <= k < |states|
        ensures ChildIndex(nodes + [child], states[k].name) == ChildIndex(nodes, states[k].name)
      {
        IndexInLonger(nodes, child, states[k].name);
      }
      IndexInLonger(nodes, child, s.name);
    }
  }

  /** Where the states are held already, putting them again changes nothing. */
  lemma {:induction false} StatesAgain(root: Node, at: Path, b: Binding, states: seq<State>, phandles: seq<nat>)
    requires Valid(root, at) && Hold(At(root, at).children, states, phandles)
    ensures PutStates(root, at, b, states) == Some(Named(root, phandles))
  {
    hide Handle, StateProps, Words;
    if states != [] {
      var last := |states| - 1;
      StatesAgain(root, at, b, states[..last], phandles[..last]);
      var i := ChildIndex(At(root, at).children, states[last].name);
      ValidConcat(root, at, [i.value]);
      assert phandles[..last] + [phandles[last]] == phandles;
    }
  }

  // ----- naming the cpus -----

  /** Only cpu nodes change, and only in their properties; what they hold then is the value. */
  lemma {:induction false} CpusNamed(root: Node, cpus: nat, k: nat, value: seq<Byte>)
    requires cpus < |root.children| && k <= |root.children[cpus].children|
    ensures var r := NameCpus(root, cpus, k, value);
            && r.props == root.props && r.name == root.name
            && (forall i | 0 <= i < |root.children| && i != cpus :: r.children[i] == root.children[i])
            && r.children[cpus].name == root.children[cpus].name && r.children[cpus].props == root.children[cpus].props
            && forall i | 0 <= i < |root.children[cpus].children| ::
                 var was, now := root.children[cpus].children[i], r.children[cpus].children[i];
                 && (now == if i < k && IsCpu(was) then SetIn(was, IDLE_KEY, value) else was)
                 && (IsCpu(now) <==> IsCpu(was))
  {
    hide IsCpu, SetIn;
    if k > 0 {
      CpusNamed(root, cpus, k - 1, value);
      var was := root.children[cpus].children[k - 1];
      StillCpu(was, value);
    }
  }

  lemma {:induction false} StillCpu(cpu: Node, value: seq<Byte>)
    ensures IsCpu(SetIn(cpu, IDLE_KEY, value)) <==> IsCpu(cpu)
    ensures SetIn(SetIn(cpu, IDLE_KEY, value), IDLE_KEY, value) == SetIn(cpu, IDLE_KEY, value)
  {
  }

  /** Naming them again changes nothing. */
  lemma {:induction false} CpusNamedAgain(root: Node, cpus: nat, k: nat, value: seq<Byte>)
    requires cpus < |root.children| && k <= |root.children[cpus].children|
    requires forall i | 0 <= i < k :: var c := root.children[cpus].children[i];
                                      IsCpu(c) ==> SetIn(c, IDLE_KEY, value) == c
    ensures NameCpus(root, cpus, k, value) == root
  {
    hide IsCpu, SetIn;
    if k > 0 {
      CpusNamedAgain(root, cpus, k - 1, value);
      var all := root.children[cpus].children;
      assert all[k - 1 := all[k - 1]] == all;
      assert root.children[cpus := root.children[cpus]] == root.children;
    }
  }

  lemma {:induction false} SameIndex(a: seq<Node>, b: seq<Node>, name: seq<Byte>)
    requires |a| == |b| && forall i | 0 <= i < |a| :: a[i].name == b[i].name
    ensures ChildIndex(a, name) == ChildIndex(b, name)
  {
  }

  /** The tree describes the idle states: the first `/cpus` and its first `idle-states`, each state below it by name
      with a phandle, and every cpu - there is one - naming those phandles in order. */
  ghost predicate Settled(root: Node, b: Binding, cpus: nat, idle: nat, phandles: seq<nat>) {
    && ChildIndex(root.children, CPUS) == Some(cpus)
    && var all := root.children[cpus].children;
    && ChildIndex(all, IDLE_STATES) == Some(idle)
    && Hold(all[idle].children, States(b), phandles)
    && (forall i | 0 <= i < |all| && IsCpu(all[i]) :: PropValue(all[i].props, IDLE_KEY) == Some(Words(phandles)))
    && exists c :: c in all && IsCpu(c)
  }

  lemma {:induction false} IdleSettles(root: Node, b: Binding)
    requires IdleFixture(root, b).Some?
    ensures exists cpus, idle, phandles :: Settled(IdleFixture(root, b).value, b, cpus, idle, phandles)
  {
    hide NameCpus, PutStates, IsCpu, Words, Hold, Keeps, Handles, SetIn, Ensure, At, Valid, States, ChildIndex;
    var cpus := ChildIndex(root.children, CPUS).value;
    CpusValid(root, cpus);
    EnsureKeeps(root, [cpus], IdleNode(b));
    var e := Ensure(root, [cpus], IdleNode(b));
    var n := PutStates(e.root, e.at, b, States(b)).value;
    var all := n.root.children[cpus].children;
    var r := NameCpus(n.root, cpus, |all|, Words(n.phandles));
    PathsKept(root, b, e, n, cpus);
    ParentValid(n.root, e.at, cpus);
    StatesHold(e.root, e.at, b, States(b));
    CpusNamed(n.root, cpus, |all|, Words(n.phandles));
    var all' := r.children[cpus].children;
    forall i | 0 <= i < |all|
      ensures all'[i].name == all[i].name && all'[i].children == all[i].children
      ensures IsCpu(all'[i]) ==> PropValue(all'[i].props, IDLE_KEY) == Some(Words(n.phandles))
    {
      SetBelow(all[i], Words(n.phandles));
    }
    SameIndex(all, all', IDLE_STATES);
    SameIndex(n.root.children, r.children, CPUS);
    var c :| c in all && IsCpu(c);
    var at :| 0 <= at < |all| && all[at] == c;
    assert all'[at] in all' && IsCpu(all'[at]);
    assert Settled(r, b, cpus, e.at[1], n.phandles);
  }

  lemma {:induction false} SetBelow(cpu: Node, value: seq<Byte>)
    ensures var now := SetIn(cpu, IDLE_KEY, value);
            now.name == cpu.name && now.children == cpu.children && PropValue(now.props, IDLE_KEY) == Some(value)
  {
  }

  lemma {:induction false} SettledStays(root: Node, b: Binding, cpus: nat, idle: nat, phandles: seq<nat>)
    requires Settled(root, b, cpus, idle, phandles)
    ensures IdleFixture(root, b) == Some(root)
  {
    hide NameCpus, PutStates, IsCpu, Words, Hold, Keeps, Handles;
    var all := root.children[cpus].children;
    var at := [cpus, idle];
    PathOfTwo(root, at, cpus, idle);
    assert [cpus][1..] == [] && At(root, [cpus]) == At(root.children[cpus], []);
    assert Ensure(root, [cpus], IdleNode(b)) == Edit(root, at);
    StatesAgain(root, at, b, States(b), phandles);
    forall i | 0 <= i < |all| && IsCpu(all[i]) ensures SetIn(all[i], IDLE_KEY, Words(phandles)) == all[i] {
    }
    CpusNamedAgain(root, cpus, |all|, Words(phandles));
  }

  /** Applying the fixture to its own result gives that result again: it makes everything once. */
  lemma {:induction false} IdleTwice(root: Node, b: Binding)
    requires IdleFixture(root, b).Some?
    ensures IdleFixture(IdleFixture(root, b).value, b) == IdleFixture(root, b)
  {
    hide IdleFixture, Settled;
    IdleSettles(root, b);
    var r := IdleFixture(root, b).value;
    var cpus, idle, phandles :| Settled(r, b, cpus, idle, phandles);
    SettledStays(r, b, cpus, idle, phandles);
  }

  lemma {:induction false} PathOfTwo(root: Node, at: Path, c: nat, i: nat)
    requires |at| == 2 && at[0] == c && at[1] == i && c < |root.children| && i < |root.children[c].children|
    ensures Valid(root, at) && At(root, at) == root.children[c].children[i] && at == [c] + [i]
  {
    assert at[1..] == [i] && [i][1..] == [];
    assert Valid(root.children[c], [i]);
    assert At(root, at) == At(root.children[c], [i]) == At(root.children[c].children[i], []);
  }

  /** After the states are put, `/cpus` and `idle-states` are still the first children of their names. */
  lemma {:induction false} PathsKept(root: Node, b: Binding, e: Edit, n: Named, cpus: nat)
    requires ChildIndex(root.children, CPUS) == Some(cpus)
    requires Valid(root, [cpus]) && e == Ensure(root, [cpus], IdleNode(b)) && EditOk(e)
    requires PutStates(e.root, e.at, b, States(b)) == Some(n)
    ensures |e.at| == 2 && e.at[0] == cpus && cpus < |n.root.children|
    ensures ChildIndex(n.root.children, CPUS) == Some(cpus)
    ensures ChildIndex(n.root.children[cpus].children, IDLE_STATES) == Some(e.at[1])
  {
    hide NameCpus, PutStates, Words, Keeps, Handles, ChildIndex, IdleNode;
    EnsureKeeps(root, [cpus], IdleNode(b));
    assert [cpus][1..] == [] && At(root, [cpus]) == root.children[cpus];
    assert e.at[..1] == [cpus];
    ParentValid(e.root, e.at, cpus);
    StatesUnder(e.root, e.at, b, States(b), cpus);
    EnsureUnder(root, cpus, b);
    SameIndex(root.children, e.root.children, CPUS);
    SameIndex(e.root.children, n.root.children, CPUS);
    SameIndex(e.root.children[cpus].children, n.root.children[cpus].children, IDLE_STATES);
  }

  lemma {:induction false} EnsureUnder(root: Node, cpus: nat, b: Binding)
    requires cpus < |root.children| && Valid(root, [cpus])
    ensures var e := Ensure(root, [cpus], IdleNode(b));
            && |e.root.children| == |root.children|
            && (forall i | 0 <= i < |root.children| :: e.root.children[i].name == root.children[i].name)
            && |e.at| == 2 && ChildIndex(e.root.children[cpus].children, IDLE_STATES) == Some(e.at[1])
  {
    var node := root.children[cpus];
    assert [cpus][1..] == [] && At(root, [cpus]) == At(node, []) == node;
    var node' := AddChild(node, IdleNode(b));
    assert Put(root, [cpus], node') == root.(children := root.children[cpus := Put(node, [], node')]);
    IndexInLonger(root.children[cpus].children, IdleNode(b), IDLE_STATES);
  }

  lemma {:induction false} StatesUnder(root: Node, at: Path, b: Binding, states: seq<State>, cpus: nat)
    requires Valid(root, at) && |at| == 2 && at[0] == cpus && PutStates(root, at, b, states).Some?
    ensures var r := PutStates(root, at, b, states).value.root;
            && cpus < |root.children| == |r.children|
            && (forall i | 0 <= i < |root.children| :: r.children[i].name == root.children[i].name)
            && |r.children[cpus].children| == |root.children[cpus].children|
            && forall i | 0 <= i < |root.children[cpus].children| ::
                 r.children[cpus].children[i].name == root.children[cpus].children[i].name
  {
    hide Handle, StateProps, Words, ChildIndex, MaxHandle;
    ParentValid(root, at, cpus);
    if states != [] {
      StatesUnder(root, at, b, states[..|states| - 1], cpus);
      var n := PutStates(root, at, b, states[..|states| - 1]).value;
      ParentValid(n.root, at, cpus);
    }
  }

  // ----- the phandles it brings -----

  /** The states that have no node of their name among `nodes`. */
  function Missing(nodes: seq<Node>, states: seq<State>): seq<State> {
    if states == [] then []
    else
      var s := states[|states| - 1];
      Missing(nodes, states[..|states| - 1]) + if ChildIndex(nodes, s.name).None? then [s] else []
  }

  /** A node for each, numbered on from the largest phandle; past the last number they are all given 2^32. */
  function Made(b: Binding, states: seq<State>, max: nat): (r: seq<Node>)
    ensures |r| == |states|
  {
    if states == [] then []
    else
      var k := |states| - 1;
      Made(b, states[..k], max) + [StateNode(b, states[k], if max + k + 1 < WORD then max + k + 1 else WORD)]
  }

  predicate NamesDiffer(states: seq<State>) {
    forall i, j | 0 <= i < j < |states| :: states[i].name != states[j].name
  }

  /** After `m` numbers more than `max`: they run on below 2^32, and every one past that is written as 0. */
  ghost predicate Numbered(was: multiset<nat>, max: nat, now: multiset<nat>, m: nat) {
    && IsMax(now, if max + m < WORD then max + m else WORD - 1)
    && (if max + m < WORD then 0 in now <==> 0 in was else 0 in now)
    && (Distinct(now) <==> Distinct(was) && (max + m < WORD || (max + m == WORD && 0 !in was)))
  }

  lemma {:induction false} NumberedNone(was: multiset<nat>, max: nat)
    requires IsMax(was, max) && max < WORD
    ensures Numbered(was, max, was, 0)
  {
  }

  lemma {:induction false} NumberedMore(was: multiset<nat>, max: nat, now: multiset<nat>, m: nat)
    requires Numbered(was, max, now, m) && max < WORD
    ensures Numbered(was, max, now + multiset{if max + m + 1 < WORD then max + m + 1 else 0}, m + 1)
  {
    var h := if max + m + 1 < WORD then max + m + 1 else 0;
    assert (now + multiset{h})[h] == now[h] + 1;
    assert forall x :: (now + multiset{h})[x] >= now[x];
    assert Distinct(now + multiset{h}) <==> Distinct(now) && h !in now;
  }

  /** Below `at` there are the children there were and the states put so far, each by its name. */
  lemma {:induction false} StatesNamed(root: Node, at: Path, b: Binding, states: seq<State>, name: seq<Byte>)
    requires Valid(root, at) && PutStates(root, at, b, states).Some?
    requires forall i | 0 <= i < |states| :: states[i].name != name
    ensures var r := PutStates(root, at, b, states).value.root;
            ChildIndex(At(r, at).children, name).None? <==> ChildIndex(At(root, at).children, name).None?
  {
    hide Handle, StateNode, ChildIndex, Keeps, Handles, At, Put, Valid;
    if states != [] {
      var k := |states| - 1;
      StatesNamed(root, at, b, states[..k], name);
      var n := PutStates(root, at, b, states[..k]).value;
      var child := StateNode(b, states[k], MaxHandle(n.root) + 1);
      EnsureKeeps(n.root, at, child);
      IndexInLonger(At(n.root, at).children, child, name);
      assert child.name == states[k].name by { StateNamed(b, states[k], MaxHandle(n.root) + 1); }
    }
  }

  lemma {:induction false} StateNamed(b: Binding, s: State, h: nat)
    ensures StateNode(b, s, h).name == s.name
  {
  }

  lemma {:induction false} StatesKeep(root: Node, at: Path, b: Binding, states: seq<State>)
    requires Valid(root, at) && PutStates(root, at, b, states).Some?
    ensures Keeps(root, PutStates(root, at, b, states).value.root, Growing(at))
  {
    hide Keeps, Handles, MaxHandle, Handle, StateNode, Ensure, At, Valid;
    if states == [] {
      KeepsSelf(root, Growing(at));
    } else {
      var k := |states| - 1;
      StatesKeep(root, at, b, states[..k]);
      var n := PutStates(root, at, b, states[..k]).value;
      var child := StateNode(b, states[k], MaxHandle(n.root) + 1);
      EnsureKeeps(n.root, at, child);
      KeepsTrans(root, n.root, Ensure(n.root, at, child).root, Growing(at), Growing(at));
      assert Growing(at).And(Growing(at)) == Growing(at);
    }
  }

  lemma {:induction false} StatesNumbered(root: Node, at: Path, b: Binding, states: seq<State>)
    requires Valid(root, at) && PutStates(root, at, b, states).Some? && NamesDiffer(states)
    ensures var r := PutStates(root, at, b, states).value.root;
            Numbered(Handles(root), MaxHandle(root), Handles(r), |Missing(At(root, at).children, states)|)
  {
    hide Keeps, Handles, MaxHandle, Handle, StateNode, ChildIndex, At, Valid, Numbered, IsMax, Ensure;
    MaxHandleIsMax(root);
    if states == [] {
      NumberedNone(Handles(root), MaxHandle(root));
    } else {
      var k := |states| - 1;
      StatesNumbered(root, at, b, states[..k]);
      var n := PutStates(root, at, b, states[..k]).value;
      var child := StateNode(b, states[k], MaxHandle(n.root) + 1);
      EnsureKeeps(n.root, at, child);
      StatesNamed(root, at, b, states[..k], states[k].name);
      StateNamed(b, states[k], MaxHandle(n.root) + 1);
      var m := |Missing(At(root, at).children, states[..k])|;
      NextNumber(Handles(root), MaxHandle(root), n.root, m, b, states[k]);
      NumberedMore(Handles(root), MaxHandle(root), Handles(n.root), m);
    }
  }

  /** Exactly the missing states are added, in order. */
  lemma {:induction false} StatesAdded(root: Node, at: Path, b: Binding, states: seq<State>)
    requires Valid(root, at) && PutStates(root, at, b, states).Some? && NamesDiffer(states)
    ensures var was, now := At(root, at), At(PutStates(root, at, b, states).value.root, at);
            && now.name == was.name && now.props == was.props
            && now.children == was.children + Made(b, Missing(was.children, states), MaxHandle(root))
  {
    hide Keeps, Handles, MaxHandle, Handle, StateNode, ChildIndex, At, Valid, Ensure, Made;
    var was := At(root, at);
    if states == [] {
      assert Made(b, [], MaxHandle(root)) == [] && was.children + [] == was.children;
    } else {
      var k := |states| - 1;
      StatesAdded(root, at, b, states[..k]);
      var n := PutStates(root, at, b, states[..k]).value;
      var child := StateNode(b, states[k], MaxHandle(n.root) + 1);
      EnsureKeeps(n.root, at, child);
      StatesNamed(root, at, b, states[..k], states[k].name);
      StateNamed(b, states[k], MaxHandle(n.root) + 1);
      var missing := Missing(was.children, states[..k]);
      StatesNumbered(root, at, b, states[..k]);
      MaxAfter(Handles(root), MaxHandle(root), n.root, |missing|);
      MadeOneMore(b, missing, states[k], MaxHandle(root));
      assert missing + [] == missing;
      assert (was.children + Made(b, missing, MaxHandle(root))) + [child]
          == was.children + (Made(b, missing, MaxHandle(root)) + [child]);
    }
  }

  lemma {:induction false} MadeOneMore(b: Binding, states: seq<State>, s: State, max: nat)
    ensures var k := |states|;
            Made(b, states + [s], max)
            == Made(b, states, max) + [StateNode(b, s, if max + k + 1 < WORD then max + k + 1 else WORD)]
  {
    hide StateNode;
    var all := states + [s];
    assert all[..|states|] == states && all[|states|] == s;
  }

  lemma {:induction false} MaxAfter(was: multiset<nat>, max: nat, root: Node, m: nat)
    requires Numbered(was, max, Handles(root), m)
    ensures MaxHandle(root) == if max + m < WORD then max + m else WORD - 1
  {
    hide Handles, MaxHandle;
    MaxHandleIsMax(root);
    OneMax(Handles(root), MaxHandle(root), if max + m < WORD then max + m else WORD - 1);
  }

  /** The state's own phandle is the next number, or 0 when there is none. */
  lemma {:induction false} NextNumber(was: multiset<nat>, max: nat, root: Node, m: nat, b: Binding, s: State)
    requires Numbered(was, max, Handles(root), m) && max < WORD
    ensures Handles(StateNode(b, s, MaxHandle(root) + 1)) == multiset{if max + m + 1 < WORD then max + m + 1 else 0}
  {
    hide Handles, MaxHandle, StateNode;
    var top := if max + m < WORD then max + m else WORD - 1;
    MaxAfter(was, max, root, m);
    MaxHandleIsMax(root);
    StateHandle(b, s, top + 1);
    NextWord(top);
  }

  lemma {:induction false} StateHandle(b: Binding, s: State, h: nat)
    ensures Handles(StateNode(b, s, h)) == multiset{Get32(Words([h]))} && Handle(StateNode(b, s, h)).Some?
  {
    hide Words, Get32;
    var props := StateProps(b, s);
    assert |PHANDLE| == 7 && |Ascii("compatible")| == 10 && |Ascii("arm,psci-suspend-param")| == 22;
    assert |Ascii("riscv,sbi-suspend-param")| == 23 && |Ascii("entry-latency-us")| == 16;
    assert |Ascii("exit-latency-us")| == 15 && |Ascii("min-residency-us")| == 16 && |Ascii("local-timer-stop")| == 16;
    LastProp(props, Prop(PHANDLE, Words([h])));
  }

  lemma {:induction false} LastProp(props: seq<Prop>, p: Prop)
    requires forall i | 0 <= i < |props| :: props[i].name != p.name
    ensures PropValue(props + [p], p.name) == Some(p.value)
  {
    if props != [] {
      assert (props + [p])[1..] == props[1..] + [p];
      LastProp(props[1..], p);
    }
  }

  // ----- what the fixture keeps -----

  /** The cpu nodes among the first `k` children. */
  ghost function CpuPaths(root: Node, cpus: nat, k: nat): set<Path>
    requires cpus < |root.children| && k <= |root.children[cpus].children|
  {
    set i | 0 <= i < k && IsCpu(root.children[cpus].children[i]) :: [cpus, i]
  }

  lemma {:induction false} CpusKeep(root: Node, cpus: nat, k: nat, value: seq<Byte>)
    requires cpus < |root.children| && k <= |root.children[cpus].children|
    ensures Quiet(root, NameCpus(root, cpus, k, value), Touched({}, CpuPaths(root, cpus, k)))
  {
    hide Quiet, Keeps, Handles, IsCpu, At, Valid, Put;
    if k == 0 {
      QuietSelf(root, Touched({}, CpuPaths(root, cpus, 0)));
    } else {
      CpusKeep(root, cpus, k - 1, value);
      CpusNamed(root, cpus, k - 1, value);
      var r := NameCpus(root, cpus, k - 1, value);
      var before := CpuPaths(root, cpus, k - 1);
      var cpu := r.children[cpus].children[k - 1];
      if IsCpu(cpu) {
        PathOfTwo(r, [cpus, k - 1], cpus, k - 1);
        ParentValid(r, [cpus, k - 1], cpus);
        assert |IDLE_KEY| == 15 && |PHANDLE| == 7;
        SetKeeps(r, [cpus, k - 1], IDLE_KEY, value);
        IsQuiet(r, NameCpus(root, cpus, k, value), Changing([cpus, k - 1]));
        QuietTrans(root, r, NameCpus(root, cpus, k, value), Touched({}, before), Changing([cpus, k - 1]));
      }
      assert before <= CpuPaths(root, cpus, k);
      assert IsCpu(cpu) ==> [cpus, k - 1] in CpuPaths(root, cpus, k);
      var t := Touched({}, before);
      QuietMore(root, NameCpus(root, cpus, k, value), if IsCpu(cpu) then t.And(Changing([cpus, k - 1])) else t,
                Touched({}, CpuPaths(root, cpus, k)));
    }
  }

  /** The nodes below `/cpus/idle-states`. */
  function IdleChildren(root: Node): seq<Node> {
    match ChildIndex(root.children, CPUS)
    case None => []
    case Some(cpus) =>
      var all := root.children[cpus].children;
      match ChildIndex(all, IDLE_STATES)
      case None => []
      case Some(i) => all[i].children
  }

  /** `/cpus` and its idle states may have more children, and its cpu nodes another `cpu-idle-states`; all else
      stays. */
  ghost predicate IdleKept(root: Node, r: Node) {
    var cpus := ChildIndex(r.children, CPUS);
    && cpus.Some?
    && var c, all := cpus.value, r.children[cpus.value].children;
    && var idle := ChildIndex(all, IDLE_STATES);
    && idle.Some?
    && Keeps(root, r, Touched({[c], [c, idle.value]}, CpuPaths(r, c, |all|)))
    && forall p, key | Valid(root, p) && Valid(r, p) && key != IDLE_KEY ::
         PropValue(At(r, p).props, key) == PropValue(At(root, p).props, key)
  }

  /** `/cpus` gains its idle states if it had none, they gain a node for each missing state, and that is all. */
  ghost predicate IdleGained(root: Node, r: Node, b: Binding) {
    var cpus := ChildIndex(root.children, CPUS);
    && cpus.Some? && cpus.value < |r.children|
    && var was, now := root.children[cpus.value].children, r.children[cpus.value].children;
    && IdleChildren(r) == IdleChildren(root) + Made(b, Missing(IdleChildren(root), States(b)), MaxHandle(root))
    && if ChildIndex(was, IDLE_STATES).Some? then |now| == |was|
       else |now| == |was| + 1 && now[|was|] == IdleNode(b).(children := IdleChildren(r))
  }

  lemma {:induction false} IdleGrows(root: Node, cpus: nat, b: Binding)
    requires IdleFixture(root, b).Some? && ChildIndex(root.children, CPUS) == Some(cpus)
    ensures IdleGained(root, IdleFixture(root, b).value, b)
  {
    hide NameCpus, PutStates, IsCpu, Words, Keeps, Handles, MaxHandle, Valid, At, Ensure, States, Missing, ChildIndex,
         Made, IdleChildren, IdleNode;
    CpusValid(root, cpus);
    EnsureKeeps(root, [cpus], IdleNode(b));
    var e := Ensure(root, [cpus], IdleNode(b));
    IdleFound(root, cpus, b);
    IdleNoHandle(b);
    EnsureQuiet(root, [cpus], IdleNode(b));
    SameMax(root, e.root);
    StateNames(b);
    StatesAdded(e.root, e.at, b, States(b));
    StatesKeep(e.root, e.at, b, States(b));
    var n := PutStates(e.root, e.at, b, States(b)).value;
    PathsKept(root, b, e, n, cpus);
    ParentValid(n.root, e.at, cpus);
    ParentValid(e.root, e.at, cpus);
    var all := n.root.children[cpus].children;
    var r := NameCpus(n.root, cpus, |all|, Words(n.phandles));
    CpusNamed(n.root, cpus, |all|, Words(n.phandles));
    NamedBelow(n.root, r, cpus, e.at[1], Words(n.phandles));
    EnsuredBelow(root, cpus, b, n.root);
    SameCpu(all[e.at[1]], At(e.root, e.at));
  }

  lemma {:induction false} SameCpu(a: Node, b: Node)
    ensures a.props == b.props ==> (IsCpu(a) <==> IsCpu(b))
  {
  }

  /** Naming the states to the cpus leaves the children of the idle states, and a node that is no cpu altogether. */
  lemma {:induction false} NamedBelow(put: Node, r: Node, cpus: nat, i: nat, value: seq<Byte>)
    requires cpus < |put.children| && r == NameCpus(put, cpus, |put.children[cpus].children|, value)
    requires ChildIndex(put.children, CPUS) == Some(cpus)
    requires ChildIndex(put.children[cpus].children, IDLE_STATES) == Some(i)
    ensures var was, now := put.children[cpus].children[i], r.children[cpus].children[i];
            IdleChildren(r) == was.children && now.children == was.children && (!IsCpu(was) ==> now == was)
  {
    hide NameCpus, IsCpu, ChildIndex;
    var all := put.children[cpus].children;
    CpusNamed(put, cpus, |all|, value);
    forall j | 0 <= j < |all| ensures r.children[cpus].children[j].name == all[j].name {
      SetBelow(all[j], value);
    }
    SetBelow(all[i], value);
    SameIndex(put.children, r.children, CPUS);
    SameIndex(all, r.children[cpus].children, IDLE_STATES);
  }

  /** How many children `/cpus` has, and what its new idle states are. */
  lemma {:induction false} EnsuredBelow(root: Node, cpus: nat, b: Binding, put: Node)
    requires ChildIndex(root.children, CPUS) == Some(cpus) && Valid(root, [cpus])
    requires EditOk(Ensure(root, [cpus], IdleNode(b)))
    requires var e := Ensure(root, [cpus], IdleNode(b)); Keeps(e.root, put, Growing(e.at))
    ensures var e := Ensure(root, [cpus], IdleNode(b));
            var was := root.children[cpus].children;
            && |e.at| == 2 && e.at[0] == cpus && cpus < |put.children|
            && (ChildIndex(was, IDLE_STATES).Some? ==> |put.children[cpus].children| == |was|)
            && (ChildIndex(was, IDLE_STATES).None? ==>
                  && |put.children[cpus].children| == |was| + 1 && e.at[1] == |was|
                  && At(e.root, e.at) == IdleNode(b) && !IsCpu(IdleNode(b)))
  {
    hide Keeps, Handles, ChildIndex, IdleNode, IsCpu;
    EnsureKeeps(root, [cpus], IdleNode(b));
    var e := Ensure(root, [cpus], IdleNode(b));
    assert IdleNode(b).name == IDLE_STATES && !IsCpu(IdleNode(b)) by { IdleIsNoCpu(b); }
    assert [cpus][1..] == [] && At(root, [cpus]) == At(root.children[cpus], []) == root.children[cpus];
    SameCount(e.root, put, e.at, [cpus]);
    assert At(e.root, [cpus]) == At(e.root.children[cpus], []) == e.root.children[cpus];
    assert At(put, [cpus]) == At(put.children[cpus], []) == put.children[cpus];
  }

  lemma {:induction false} IdleIsNoCpu(b: Binding)
    ensures IdleNode(b).name == IDLE_STATES && !IsCpu(IdleNode(b))
  {
    assert |DEVICE_TYPE| == 11 && |Ascii("entry-method")| == 12;
    NoProp(IdleNode(b).props, DEVICE_TYPE);
  }

  /** The fixture keeps phandles distinct if and only if they were and there is a number for each state that has no node
      yet - the last of them may be 2^32, which is written as 0, where 0 is free. It makes exactly those states'
      nodes, and the node above them if it was not there; it names them to the cpus, and nothing else changes. */
  lemma {:induction false} IdleFixtureOk(root: Node, b: Binding)
    requires IdleFixture(root, b).Some?
    ensures var r := IdleFixture(root, b).value;
            var last := MaxHandle(root) + |Missing(IdleChildren(root), States(b))|;
            && (Distinct(Handles(r))
                <==> Distinct(Handles(root)) && (last < WORD || (last == WORD && 0 !in Handles(root))))
            && IdleKept(root, r) && IdleGained(root, r, b)
  {
    hide NameCpus, PutStates, IsCpu, Words, Keeps, Handles, MaxHandle, Valid, At, IdleNode, Distinct, CpuPaths, States,
         IdleKept, Missing, ChildIndex, IdleGained, IdleChildren;
    var cpus := ChildIndex(root.children, CPUS).value;
    CpusValid(root, cpus);
    EnsureKeeps(root, [cpus], IdleNode(b));
    var e := Ensure(root, [cpus], IdleNode(b));
    IdleNoHandle(b);
    EnsureQuiet(root, [cpus], IdleNode(b));
    SameMax(root, e.root);
    StateNames(b);
    StatesNumbered(e.root, e.at, b, States(b));
    StatesKeep(e.root, e.at, b, States(b));
    IdleFound(root, cpus, b);
    var n := PutStates(e.root, e.at, b, States(b)).value;
    PathsKept(root, b, e, n, cpus);
    ParentValid(n.root, e.at, cpus);
    var k := |n.root.children[cpus].children|;
    CpusKeep(n.root, cpus, k, Words(n.phandles));
    KeepsTrans(root, e.root, n.root, Growing([cpus]), Growing(e.at));
    AllKept(root, n.root, cpus, e.at, Words(n.phandles));
    StatesAdded(e.root, e.at, b, States(b));
    IdleGrows(root, cpus, b);
  }

  lemma {:induction false} StateNames(b: Binding)
    ensures NamesDiffer(States(b))
  {
    var s := States(b);
    assert |Ascii("cpu-retention")| == 13 && |Ascii("cpu-sleep")| == 9 && |Ascii("cpu-power-down")| == 14;
    assert |Ascii("cpu-retentive")| == 13 && |Ascii("cpu-non-retentive")| == 17;
    assert s[0].name != s[1].name && s[0].name != s[2].name && s[1].name != s[2].name;
  }

  /** The states are put below the idle states there were, or below new ones. */
  lemma {:induction false} IdleFound(root: Node, cpus: nat, b: Binding)
    requires ChildIndex(root.children, CPUS) == Some(cpus) && Valid(root, [cpus])
    requires EditOk(Ensure(root, [cpus], IdleNode(b)))
    ensures var e := Ensure(root, [cpus], IdleNode(b)); At(e.root, e.at).children == IdleChildren(root)
  {
    hide Keeps, Handles, ChildIndex;
    EnsureKeeps(root, [cpus], IdleNode(b));
    var e := Ensure(root, [cpus], IdleNode(b));
    assert [cpus][1..] == [] && At(root, [cpus]) == At(root.children[cpus], []) == root.children[cpus];
    var i := ChildIndex(root.children[cpus].children, IDLE_STATES);
    if i.Some? {
      PathOfTwo(root, e.at, cpus, i.value);
    }
  }

  lemma {:induction false} AllKept(root: Node, put: Node, cpus: nat, at: Path, value: seq<Byte>)
    requires Keeps(root, put, Growing([cpus]).And(Growing(at))) && |at| == 2 && at[0] == cpus
    requires ChildIndex(put.children, CPUS) == Some(cpus)
    requires ChildIndex(put.children[cpus].children, IDLE_STATES) == Some(at[1])
    requires var k := |put.children[cpus].children|;
             Keeps(put, NameCpus(put, cpus, k, value), Touched({}, CpuPaths(put, cpus, k)))
    ensures IdleKept(root, NameCpus(put, cpus, |put.children[cpus].children|, value))
  {
    hide Keeps, IsCpu, NameCpus, ChildIndex, Valid, At;
    var all := put.children[cpus].children;
    var k := |all|;
    var r := NameCpus(put, cpus, k, value);
    CpusNamed(put, cpus, k, value);
    var all' := r.children[cpus].children;
    SameIndex(put.children, r.children, CPUS);
    SameIndex(all, all', IDLE_STATES);
    assert CpuPaths(put, cpus, k) == CpuPaths(r, cpus, k) by {
      assert forall i | 0 <= i < k :: IsCpu(all'[i]) <==> IsCpu(all[i]);
    }
    KeepsTrans(root, put, r, Growing([cpus]).And(Growing(at)), Touched({}, CpuPaths(put, cpus, k)));
    assert at == [cpus, at[1]];
    assert Growing([cpus]).And(Growing(at)).And(Touched({}, CpuPaths(put, cpus, k)))
        == Touched({[cpus], [cpus, at[1]]}, CpuPaths(r, cpus, k));
    forall p, key | Valid(root, p) && Valid(r, p) && key != IDLE_KEY
      ensures PropValue(At(r, p).props, key) == PropValue(At(root, p).props, key)
    {
      OtherKey(root, put, cpus, at, value, p, key);
    }
  }

  lemma {:induction false} OtherKey(root: Node, put: Node, cpus: nat, at: Path, value: seq<Byte>, p: Path,
                                    key: seq<Byte>)
    requires Keeps(root, put, Growing([cpus]).And(Growing(at))) && cpus < |put.children|
    requires var k := |put.children[cpus].children|;
             Keeps(put, NameCpus(put, cpus, k, value), Touched({}, CpuPaths(put, cpus, k)))
    requires Valid(root, p) && key != IDLE_KEY
    requires Valid(NameCpus(put, cpus, |put.children[cpus].children|, value), p)
    ensures var r := NameCpus(put, cpus, |put.children[cpus].children|, value);
            PropValue(At(r, p).props, key) == PropValue(At(root, p).props, key)
  {
    hide NameCpus, IsCpu, PropValue, SetProp;
    var k := |put.children[cpus].children|;
    var r := NameCpus(put, cpus, k, value);
    assert Valid(put, p) && At(put, p).props == At(root, p).props;
    if p in CpuPaths(put, cpus, k) {
      var i :| 0 <= i < k && p == [cpus, i] && IsCpu(put.children[cpus].children[i]);
      CpusNamed(put, cpus, k, value);
      PathOfTwo(put, p, cpus, i);
      PathOfTwo(r, p, cpus, i);
    }
  }

  lemma {:induction false} CpusValid(root: Node, cpus: nat)
    requires cpus < |root.children|
    ensures Valid(root, [cpus])
  {
  }

  lemma {:induction false} IdleNoHandle(b: Binding)
    ensures Handles(IdleNode(b)) == multiset{}
  {
    assert |PHANDLE| == 7 && |Ascii("entry-method")| == 12;
    NoHandle(IdleNode(b));
  }

  // ----- where distinctness is lost -----

  lemma {:induction false} AllNew(root: Node, at: Path, b: Binding, states: seq<State>)
    requires Valid(root, at) && At(root, at).children == [] && NamesDiffer(states)
    ensures PutStates(root, at, b, states).Some? && |Missing([], states)| == |states|
  {
    hide Keeps, Handles, MaxHandle, Handle, StateNode, At, Valid, Ensure;
    if states != [] {
      var k := |states| - 1;
      AllNew(root, at, b, states[..k]);
      var n := PutStates(root, at, b, states[..k]).value;
      var child := StateNode(b, states[k], MaxHandle(n.root) + 1);
      EnsureKeeps(n.root, at, child);
      StatesNamed(root, at, b, states[..k], states[k].name);
      StateNamed(b, states[k], MaxHandle(n.root) + 1);
      StateHandle(b, states[k], MaxHandle(n.root) + 1);
    }
  }

  /** One cpu, with the largest phandle there is. */
  function Crowded(): Node {
    var props := [Prop(DEVICE_TYPE, Text("cpu"))] + [Prop(PHANDLE, Words([WORD - 1]))];
    Node([], [], [Node(CPUS, [], [Node(Ascii("cpu@0"), props, [])])])
  }

  lemma {:induction false} OnlyChild(node: Node, child: Node)
    requires node.props == [] && node.children == [child]
    ensures Handles(node) == Handles(child)
  {
    assert node.children[1..] == [] && HandlesAll(node.children) == Handles(child) + HandlesAll([]);
  }

  lemma {:induction false} CrowdedHandles()
    ensures Handles(Crowded()) == multiset{WORD - 1} && MaxHandle(Crowded()) == WORD - 1
  {
    hide Words, MaxHandle, Handles;
    var root := Crowded();
    var cpus := root.children[0];
    assert Handles(cpus.children[0]) == multiset{WORD - 1} by { CpuHandle(); }
    OnlyChild(cpus, cpus.children[0]);
    OnlyChild(root, cpus);
    MaxHandleIsMax(root);
    OneMax(Handles(root), MaxHandle(root), WORD - 1);
  }

  lemma {:induction false} CpuHandle()
    ensures Handles(Crowded().children[0].children[0]) == multiset{WORD - 1}
  {
    hide Words, Get32;
    assert |PHANDLE| == 7 && |DEVICE_TYPE| == 11;
    WordAt([WORD - 1], 0, []);
    assert Words([WORD - 1]) + [] == Words([WORD - 1]) && Words([WORD - 1])[0..] == Words([WORD - 1]);
    LastProp([Prop(DEVICE_TYPE, Text("cpu"))], Prop(PHANDLE, Words([WORD - 1])));
  }

  lemma {:induction false} CrowdedShape(b: Binding)
    ensures var root := Crowded();
            && ChildIndex(root.children, CPUS) == Some(0) && Valid(root, [0])
            && IdleChildren(root) == [] && EditOk(Ensure(root, [0], IdleNode(b)))
            && IsCpu(root.children[0].children[0])
            && var e := Ensure(root, [0], IdleNode(b));
               |e.at| == 2 && e.at[0] == 0 && At(e.root, e.at).children == []
  {
    hide Words, Keeps, Handles;
    assert |Ascii("cpu@0")| == 5 && |IDLE_STATES| == 11;
    CpusValid(Crowded(), 0);
    EnsureKeeps(Crowded(), [0], IdleNode(b));
    IdleFound(Crowded(), 0, b);
  }

  /** There the second and the third state are both given 0. */
  lemma {:induction false} IdleDoesCollide(b: Binding)
    ensures Distinct(Handles(Crowded())) && IdleFixture(Crowded(), b).Some?
    ensures !Distinct(Handles(IdleFixture(Crowded(), b).value))
  {
    hide Words, Keeps, Handles, MaxHandle, NameCpus, PutStates, States, IsCpu, Valid, At, IdleNode, ChildIndex,
         Missing, Ensure, IdleChildren;
    var root := Crowded();
    CrowdedHandles();
    CrowdedShape(b);
    StateNames(b);
    var e := Ensure(root, [0], IdleNode(b));
    AllNew(e.root, e.at, b, States(b));
    assert |States(b)| == 3 by { ThreeStates(b); }
    CpuStays(root, e, b);
    IdleFixtureOk(root, b);
  }

  lemma {:induction false} ThreeStates(b: Binding)
    ensures |States(b)| == 3
  {
  }

  /** Putting the states leaves the cpu a cpu. */
  lemma {:induction false} CpuStays(root: Node, e: Edit, b: Binding)
    requires root == Crowded() && e == Ensure(root, [0], IdleNode(b)) && EditOk(e) && |e.at| == 2 && e.at[0] == 0
    requires PutStates(e.root, e.at, b, States(b)).Some?
    ensures var r := PutStates(e.root, e.at, b, States(b)).value.root;
            |r.children| > 0 && exists c | c in r.children[0].children :: IsCpu(c)
  {
    hide Words, Handles, MaxHandle, PutStates, States, Ensure, Keeps;
    var r := PutStates(e.root, e.at, b, States(b)).value.root;
    CpusValid(root, 0);
    EnsureKeeps(root, [0], IdleNode(b));
    StatesKeep(e.root, e.at, b, States(b));
    KeepsTrans(root, e.root, r, Growing([0]), Growing(e.at));
    PathOfTwo(root, [0, 0], 0, 0);
    SameNode(root, r, Growing([0]).And(Growing(e.at)), [0, 0]);
    ParentValid(r, [0, 0], 0);
    assert r.children[0].children[0] in r.children[0].children;
  }

  lemma {:induction false} SameNode(was: Node, now: Node, t: Touched, p: Path)
    requires Keeps(was, now, t) && Valid(was, p) && p !in t.changed
    ensures Valid(now, p) && At(now, p).props == At(was, p).props
  {
  }
}
