/**
  Start-up order of the PPP layers: layers are registered into nodes by order (lcp, then auth, then
  the network protocols), and a node is started when the node before it has come up.
 */
module PppLayers {
  import opened Base

  // ----- Registration --------------------------------------------------------------------------

  function LayerOrder(name: string): Option<nat> {
    if name == "lcp" then Some(0)
    else if name == "auth" then Some(1)
    else if name == "ccp" || name == "ipcp" || name == "ipv6cp" then Some(2)
    else None
  }

  datatype Node = Node(order: nat, items: seq<string>)

  /** Nodes stand in increasing order and none is empty. */
  predicate Ordered(ns: seq<Node>) {
    && (forall i, j | 0 <= i < j < |ns| :: ns[i].order < ns[j].order)
    && (forall i | 0 <= i < |ns| :: ns[i].items != [])
  }

  /** The layers of one order. */
  function Items(ns: seq<Node>, order: nat): seq<string> {
    if ns == [] then [] else if ns[0].order == order then ns[0].items else Items(ns[1..], order)
  }

  lemma {:induction false} ItemsAt(ns: seq<Node>, order: nat, i: nat)
    requires Ordered(ns) && i < |ns| && ns[i].order == order
    ensures Items(ns, order) == ns[i].items
    decreases |ns|
  {
    if i > 0 {
      assert ns[0].order < ns[i].order;
      ItemsAt(ns[1..], order, i - 1);
    }
  }

  lemma {:induction false} ItemsNone(ns: seq<Node>, order: nat)
    requires forall i | 0 <= i < |ns| :: ns[i].order != order
    ensures Items(ns, order) == []
    decreases |ns|
  {
    if ns != [] {
      ItemsNone(ns[1..], order);
    }
  }

  lemma {:induction false} StaysOrdered(ns: seq<Node>, order: nat, name: string, i: nat)
    requires Ordered(ns) && i <= |ns| && forall j | 0 <= j < |ns| :: (ns[j].order < order <==> j < i)
    ensures i < |ns| && ns[i].order == order ==> Ordered(ns[i := Node(order, ns[i].items + [name])])
    ensures !(i < |ns| && ns[i].order == order) ==> Ordered(ns[..i] + [Node(order, [name])] + ns[i..])
  {
  }

  /** Adds a layer at the end of its node, creating the node in its place if need be. */
  method RegisterLayer(ns: seq<Node>, name: string) returns (ns': seq<Node>)
    requires Ordered(ns)
    ensures Adds(ns, name, ns') && (LayerOrder(name).None? ==> ns' == ns)
  {
    hide LayerOrder, Items;
    var order := LayerOrder(name);
    if order.None? {
      return ns;
    }
    var i := 0;
    while i < |ns| && order.value > ns[i].order
      invariant 0 <= i <= |ns| && forall j | 0 <= j < i :: ns[j].order < order.value
    {
      i := i + 1;
    }
    StaysOrdered(ns, order.value, name, i);
    if i < |ns| && ns[i].order == order.value {
      ns' := ns[i := Node(order.value, ns[i].items + [name])];
    } else {
      ns' := ns[..i] + [Node(order.value, [name])] + ns[i..];
    }
    forall o: nat ensures Items(ns', o) == Items(ns, o) + if o == order.value then [name] else [] {
      Registered(ns, ns', order.value, name, i, o);
    }
  }

  lemma {:induction false} Registered(ns: seq<Node>, ns': seq<Node>, order: nat, name: string, i: nat, o: nat)
    requires Ordered(ns) && Ordered(ns') && i <= |ns|
    requires forall j | 0 <= j < |ns| :: (ns[j].order < order <==> j < i)
    requires
      if i < |ns| && ns[i].order == order then ns' == ns[i := Node(order, ns[i].items + [name])]
      else ns' == ns[..i] + [Node(order, [name])] + ns[i..]
    ensures Items(ns', o) == Items(ns, o) + if o == order then [name] else []
  {
    if o == order {
      assert ns'[i].order == order;
      ItemsAt(ns', o, i);
      if i < |ns| && ns[i].order == order {
        ItemsAt(ns, o, i);
      } else {
        ItemsNone(ns, o);
      }
    } else if j :| 0 <= j < |ns| && ns[j].order == o {
      var j' := if |ns'| == |ns| || j < i then j else j + 1;
      assert ns'[j'] == ns[j];
      ItemsAt(ns, o, j);
      ItemsAt(ns', o, j');
    } else {
      ItemsNone(ns, o);
      ItemsNone(ns', o);
    }
  }

  /** Registering one layer has this effect. */
  ghost predicate Adds(ns: seq<Node>, name: string, ns': seq<Node>) {
    && Ordered(ns')
    && forall o: nat :: Items(ns', o) == Items(ns, o) + if LayerOrder(name) == Some(o) then [name] else []
  }

  /** The names of one order, as they came. */
  function OfOrder(names: seq<string>, o: nat): seq<string> {
    if names == [] then []
    else
      var n := |names| - 1;
      OfOrder(names[..n], o) + if LayerOrder(names[n]) == Some(o) then [names[n]] else []
  }

  /** Registers every layer, in the order in which the modules come. */
  method RegisterAll(names: seq<string>) returns (ns: seq<Node>)
    ensures Ordered(ns) && forall o: nat :: Items(ns, o) == OfOrder(names, o)
  {
    hide LayerOrder;
    ns := [];
    for i := 0 to |names|
      invariant Ordered(ns) && forall o: nat :: Items(ns, o) == OfOrder(names[..i], o)
    {
      ghost var before := ns;
      ns := RegisterLayer(ns, names[i]);
      assert names[..i + 1][..i] == names[..i];
    }
    assert names[..|names|] == names;
  }

  function Times(names: seq<string>, name: string): nat {
    if names == [] then 0
    else Times(names[..|names| - 1], name) + if names[|names| - 1] == name then 1 else 0
  }

  /** A name that has an order for itself makes up that order. */
  lemma {:induction false} Alone(names: seq<string>, name: string, o: nat)
    requires forall x :: LayerOrder(x) == Some(o) <==> x == name
    ensures |OfOrder(names, o)| == Times(names, name) && forall x | x in OfOrder(names, o) :: x == name
  {
    hide LayerOrder;
    if names != [] {
      Alone(names[..|names| - 1], name, o);
    }
  }

  lemma {:induction false} OrderRange(names: seq<string>, o: nat)
    requires OfOrder(names, o) != []
    ensures o <= 2
  {
    if names != [] && OfOrder(names[..|names| - 1], o) != [] {
      OrderRange(names[..|names| - 1], o);
    }
  }

  /** With lcp and auth registered once each, in any order among the others, lcp is alone in the first node
      and auth in the second, and at most one node follows. */
  lemma {:induction false} FirstNodes(names: seq<string>, ns: seq<Node>)
    requires Times(names, "lcp") == 1 && Times(names, "auth") == 1
    requires Ordered(ns) && forall o: nat :: Items(ns, o) == OfOrder(names, o)
    ensures 2 <= |ns| <= 3 && ns[0] == Node(0, ["lcp"]) && ns[1] == Node(1, ["auth"])
  {
    Alone(names, "lcp", 0);
    Alone(names, "auth", 1);
    hide LayerOrder, Times;
    assert OfOrder(names, 0)[0] in OfOrder(names, 0) && OfOrder(names, 1)[0] in OfOrder(names, 1);
    assert Items(ns, 0) == ["lcp"] && Items(ns, 1) == ["auth"];
    forall i | 0 <= i < |ns| ensures ns[i].order <= 2 {
      ItemsAt(ns, ns[i].order, i);
      OrderRange(names, ns[i].order);
    }
    hide OfOrder;
    OneNodeEach(ns);
  }

  lemma {:induction false} OneNodeEach(ns: seq<Node>)
    requires Ordered(ns) && Items(ns, 0) == ["lcp"] && Items(ns, 1) == ["auth"]
    requires forall i | 0 <= i < |ns| :: ns[i].order <= 2
    ensures 2 <= |ns| <= 3 && ns[0] == Node(0, ["lcp"]) && ns[1] == Node(1, ["auth"])
  {
    var i := Holder(ns, 0);
    var j := Holder(ns, 1);
    assert i == 0 && j == 1;
    if |ns| > 3 {
      OrderAtLeast(ns, 3);
    }
  }

  lemma {:induction false} OrderAtLeast(ns: seq<Node>, i: nat)
    requires Ordered(ns) && i < |ns|
    ensures ns[i].order >= i
  {
    if i > 0 {
      OrderAtLeast(ns, i - 1);
    }
  }

  lemma {:induction false} Holder(ns: seq<Node>, order: nat) returns (i: nat)
    requires Ordered(ns) && Items(ns, order) != []
    ensures i < |ns| && ns[i].order == order && ns[i].items == Items(ns, order)
  {
    if forall j | 0 <= j < |ns| :: ns[j].order != order {
      ItemsNone(ns, order);
    }
    i :| i < |ns| && ns[i].order == order;
    ItemsAt(ns, order, i);
  }

  // ----- Starting ------------------------------------------------------------------------------

  /** `calls` counts calls of the layer's start function. */
  datatype Layer = Layer(optional: bool, passive: bool, starting: bool, started: bool, finished: bool, calls: nat)

  /** A node has come up: every layer is started or passive, and some non-optional one is started. */
  predicate Up(items: seq<Layer>) {
    && (forall i | 0 <= i < |items| :: items[i].started || items[i].passive)
    && (exists i | 0 <= i < |items| :: items[i].started && !items[i].optional)
  }

  method CheckNode(items: seq<Layer>) returns (up: bool)
    ensures up == Up(items)
  {
    var f, k := false, 0;
    while k < |items|
      invariant 0 <= k <= |items|
      invariant forall i | 0 <= i < k :: items[i].started || items[i].passive
      invariant f <==> exists i | 0 <= i < k :: items[i].started && !items[i].optional
    {
      if !items[k].started && !items[k].passive {
        return false;
      }
      if items[k].started && !items[k].optional {
        f := true;
      }
      k := k + 1;
    }
    return f;
  }

  /** `todo` are the layers the loop over a node still has to start; callbacks may run in between.
      `activations` counts attempts to activate the session. */
  datatype State = State(nodes: seq<seq<Layer>>, begun: bool, todo: seq<(nat, nat)>, sesStarting: bool, activations: nat)

  datatype Event =
    | Begin                              // the first node is started
    | StartNext(ok: bool)                // the loop calls the next start function
    | Started(k: nat, i: nat)            // layer i of node k reports that it is up
    | Passive(k: nat, i: nat)            // ... or that it stays passive
    | Finished(k: nat, i: nat)           // ... or that it is down
    | SetPassive(k: nat, i: nat, on: bool)  // a layer changes its own passive flag
    | SessionState(starting: bool)       // the session enters or leaves its starting state

  predicate Valid(st: State, k: nat, i: nat) {
    k < |st.nodes| && i < |st.nodes[k]|
  }

  function Put(st: State, k: nat, i: nat, x: Layer): State
    requires Valid(st, k, i)
  {
    st.(nodes := st.nodes[k := st.nodes[k][i := x]])
  }

  /** Only a layer whose start function was called reports anything. */
  predicate Enabled(st: State, e: Event) {
    match e
    case Begin => !st.begun && |st.nodes| > 0
    case StartNext(_) => st.todo != [] && Valid(st, st.todo[0].0, st.todo[0].1)
    case Started(k, i) => Valid(st, k, i) && st.nodes[k][i].calls > 0
    case Passive(k, i) => Valid(st, k, i) && st.nodes[k][i].calls > 0
    case Finished(k, i) => Valid(st, k, i) && st.nodes[k][i].calls > 0
    case SetPassive(k, i, _) => Valid(st, k, i)
    case SessionState(_) => true
  }

  function Whole(k: nat, n: nat): (r: seq<(nat, nat)>)
    ensures |r| == n && forall j | 0 <= j < n :: r[j] == (k, j)
  {
    seq(n, j requires 0 <= j < n => (k, j))
  }

  /** After a report of node `k`: once it is up, start the next node, or activate behind the last. */
  function Proceed(st: State, k: nat): State
    requires k < |st.nodes|
  {
    if !Up(st.nodes[k]) then st
    else if k + 1 == |st.nodes| then
      if st.sesStarting then st.(activations := st.activations + 1) else st
    else st.(todo := Whole(k + 1, |st.nodes[k + 1]|) + st.todo)
  }

  /** A failed start ends the loop over its node. */
  function Rest(todo: seq<(nat, nat)>, k: nat): (r: seq<(nat, nat)>)
    ensures |r| <= |todo| && r == todo[|todo| - |r|..]
    ensures todo != [] && todo[0].0 == k ==> |r| < |todo|
  {
    if todo != [] && todo[0].0 == k then Rest(todo[1..], k) else todo
  }

  function StartNextStep(st: State, ok: bool): State
    requires Enabled(st, StartNext(ok))
  {
    var (k, i) := st.todo[0];
    var x := st.nodes[k][i];
    Put(st.(todo := if ok then st.todo[1..] else Rest(st.todo, k)), k, i, x.(starting := true, calls := x.calls + 1))
  }

  function Next(st: State, e: Event): State
    requires Enabled(st, e)
  {
    match e
    case Begin => st.(begun := true, todo := Whole(0, |st.nodes[0]|))
    case StartNext(ok) => StartNextStep(st, ok)
    case Started(k, i) =>
      if st.nodes[k][i].started then st else Proceed(Put(st, k, i, st.nodes[k][i].(started := true)), k)
    case Passive(k, i) =>
      if st.nodes[k][i].started then st else Proceed(Put(st, k, i, st.nodes[k][i].(passive := true)), k)
    case Finished(k, i) => Put(st, k, i, st.nodes[k][i].(finished := true, starting := false))
    case SetPassive(k, i, on) => Put(st, k, i, st.nodes[k][i].(passive := on))
    case SessionState(b) => st.(sesStarting := b)
  }

  /** Node `k` has been scheduled: the session began, or the layer before reported started. */
  predicate Scheduled(st: State, k: nat)
    requires k < |st.nodes|
  {
    if k == 0 then st.begun else |st.nodes[k - 1]| == 1 && st.nodes[k - 1][0].started
  }

  /** Every node but the last holds one layer: lcp, then auth. */
  predicate Chain(st: State) {
    forall k | 0 <= k < |st.nodes| - 1 :: |st.nodes[k]| == 1
  }

  predicate LayerOk(st: State, k: nat, i: nat)
    requires Valid(st, k, i)
  {
    var x := st.nodes[k][i];
    x.calls <= 1 && (x.started ==> x.calls == 1) && (x.calls == 1 ==> Scheduled(st, k))
  }

  predicate TodoOk(st: State, a: nat)
    requires a < |st.todo|
  {
    var (k, i) := st.todo[a];
    Valid(st, k, i) && st.nodes[k][i].calls == 0 && Scheduled(st, k)
  }

  ghost predicate Inv(st: State) {
    && Chain(st)
    && (forall k, i | 0 <= k < |st.nodes| && 0 <= i < |st.nodes[k]| :: LayerOk(st, k, i))
    && (forall a | 0 <= a < |st.todo| :: TodoOk(st, a))
    && (forall a, b | 0 <= a < b < |st.todo| :: st.todo[a] != st.todo[b])
  }

  lemma {:induction false} ScheduledKept(st: State, st': State, j: nat)
    requires j < |st.nodes| == |st'.nodes| && (st.begun ==> st'.begun) && Scheduled(st, j)
    requires forall k | 0 <= k < |st.nodes| :: |st'.nodes[k]| == |st.nodes[k]|
    requires forall k, i | 0 <= k < |st.nodes| && 0 <= i < |st.nodes[k]| :: st.nodes[k][i].started ==> st'.nodes[k][i].started
    ensures Scheduled(st', j)
  {
  }

  /** Layer (k, i) changes flags; reports are never taken back. */
  lemma {:induction false} Flagged(st: State, k: nat, i: nat, x: Layer)
    requires Inv(st) && Valid(st, k, i) && x.calls == st.nodes[k][i].calls
    requires (st.nodes[k][i].started ==> x.started) && (x.started ==> x.calls > 0)
    ensures Inv(Put(st, k, i, x))
  {
    hide Scheduled;
    var st' := Put(st, k, i, x);
    forall k', i' | 0 <= k' < |st'.nodes| && 0 <= i' < |st'.nodes[k']| ensures LayerOk(st', k', i') {
      assert LayerOk(st, k', i');
      if st'.nodes[k'][i'].calls == 1 {
        ScheduledKept(st, st', k');
      }
    }
    forall a | 0 <= a < |st'.todo| ensures TodoOk(st', a) {
      assert TodoOk(st, a);
      ScheduledKept(st, st', st.todo[a].0);
    }
  }

  /** The loop drops its first `m` entries. */
  lemma {:induction false} Trimmed(st: State, m: nat)
    requires Inv(st) && m <= |st.todo|
    ensures Inv(st.(todo := st.todo[m..]))
  {
    hide Scheduled;
    var st' := st.(todo := st.todo[m..]);
    Recount(st, st'.(todo := st.todo));
    forall a | 0 <= a < |st'.todo| ensures TodoOk(st', a) {
      assert TodoOk(st, a + m);
      ScheduledKept(st, st', st.todo[a + m].0);
    }
    forall k, i | 0 <= k < |st'.nodes| && 0 <= i < |st'.nodes[k]| ensures LayerOk(st', k, i) {
      assert LayerOk(st, k, i);
      if st'.nodes[k][i].calls == 1 {
        ScheduledKept(st, st', k);
      }
    }
  }

  /** A scheduled layer that nobody called or is about to call is called. */
  lemma {:induction false} Called(st: State, k: nat, i: nat, x: Layer)
    requires Inv(st) && Valid(st, k, i) && Scheduled(st, k) && st.nodes[k][i].calls == 0 && x.calls == 1
    requires x.started == st.nodes[k][i].started && (k, i) !in st.todo
    ensures Inv(Put(st, k, i, x))
  {
    hide Scheduled;
    var st' := Put(st, k, i, x);
    forall k', i' | 0 <= k' < |st'.nodes| && 0 <= i' < |st'.nodes[k']| ensures LayerOk(st', k', i') {
      assert LayerOk(st, k', i');
      if st'.nodes[k'][i'].calls == 1 {
        ScheduledKept(st, st', k');
      }
    }
    forall a | 0 <= a < |st'.todo| ensures TodoOk(st', a) {
      assert TodoOk(st, a) && st.todo[a] in st.todo;
      ScheduledKept(st, st', st.todo[a].0);
    }
  }

  lemma {:induction false} HeadOnce(st: State, m: nat)
    requires Inv(st) && 0 < m <= |st.todo|
    ensures TodoOk(st, 0) && st.todo[0] !in st.todo[m..]
  {
  }

  lemma {:induction false} StartKeeps(st: State, ok: bool)
    requires Inv(st) && Enabled(st, StartNext(ok))
    ensures Inv(Next(st, StartNext(ok)))
  {
    hide Inv, Rest;
    var st' := Next(st, StartNext(ok));
    var (k, i) := st.todo[0];
    var m := if ok then 1 else |st.todo| - |Rest(st.todo, k)|;
    HeadOnce(st, m);
    Trimmed(st, m);
    Called(st.(todo := st.todo[m..]), k, i, st'.nodes[k][i]);
  }

  /** A node not scheduled before joins the loop. */
  lemma {:induction false} Joins(st: State, st': State, k: nat)
    requires st'.nodes == st.nodes && k < |st.nodes| && Inv(st'.(todo := st.todo)) && Scheduled(st', k)
    requires st'.todo == Whole(k, |st.nodes[k]|) + st.todo
    requires forall i | 0 <= i < |st.nodes[k]| :: st.nodes[k][i].calls == 0
    requires forall a | 0 <= a < |st.todo| :: st.todo[a].0 != k
    ensures Inv(st')
  {
    hide Scheduled;
    var n, st1 := |st.nodes[k]|, st'.(todo := st.todo);
    forall a | 0 <= a < |st'.todo| ensures TodoOk(st', a) {
      if a >= n {
        assert TodoOk(st1, a - n);
        ScheduledKept(st1, st', st.todo[a - n].0);
      }
    }
    forall k', i' | 0 <= k' < |st'.nodes| && 0 <= i' < |st'.nodes[k']| ensures LayerOk(st', k', i') {
      assert LayerOk(st1, k', i');
      if st'.nodes[k'][i'].calls == 1 {
        ScheduledKept(st1, st', k');
      }
    }
  }

  /** As long as node `k + 1` is not scheduled, none of its layers was started or waits for it. */
  lemma {:induction false} Untouched(st: State, k: nat)
    requires Inv(st) && k < |st.nodes| && !Scheduled(st, k)
    ensures forall i | 0 <= i < |st.nodes[k]| :: st.nodes[k][i].calls == 0
    ensures forall a | 0 <= a < |st.todo| :: st.todo[a].0 != k
  {
    hide Scheduled;
    forall i | 0 <= i < |st.nodes[k]| ensures st.nodes[k][i].calls == 0 {
      assert LayerOk(st, k, i);
    }
    forall a | 0 <= a < |st.todo| ensures st.todo[a].0 != k {
      assert TodoOk(st, a);
    }
  }

  lemma {:induction false} ReportKeeps(st: State, e: Event)
    requires Inv(st) && Enabled(st, e) && (e.Started? || e.Passive?) && !st.nodes[e.k][e.i].started
    ensures Inv(Next(st, e))
  {
    var k, x := e.k, st.nodes[e.k][e.i];
    var x' := if e.Started? then x.(started := true) else x.(passive := true);
    var st1 := Put(st, k, e.i, x');
    Flagged(st, k, e.i, x');
    if k + 1 < |st.nodes| && Up(st1.nodes[k]) {
      assert |st.nodes[k]| == 1 && !Scheduled(st, k + 1);
      Untouched(st, k + 1);
      assert Scheduled(st1, k + 1);
      Joins(st1, Next(st, e), k + 1);
    } else if Up(st1.nodes[k]) {
      Recount(st1, Next(st, e));
    }
  }

  lemma {:induction false} Recount(st: State, st': State)
    requires Inv(st) && st'.nodes == st.nodes && st'.todo == st.todo && st'.begun == st.begun
    ensures Inv(st')
  {
    hide Scheduled;
    forall k, i | 0 <= k < |st'.nodes| && 0 <= i < |st'.nodes[k]| ensures LayerOk(st', k, i) {
      assert LayerOk(st, k, i);
      if st'.nodes[k][i].calls == 1 {
        ScheduledKept(st, st', k);
      }
    }
    forall a | 0 <= a < |st'.todo| ensures TodoOk(st', a) {
      assert TodoOk(st, a);
      ScheduledKept(st, st', st.todo[a].0);
    }
  }

  lemma {:induction false} BeginKeeps(st: State)
    requires Inv(st) && Enabled(st, Begin)
    ensures Inv(Next(st, Begin))
  {
    Untouched(st, 0);
    var st' := Next(st, Begin);
    var n := |st.nodes[0]|;
    forall a | 0 <= a < |st'.todo| ensures TodoOk(st', a) {
    }
    forall k, i | 0 <= k < |st'.nodes| && 0 <= i < |st'.nodes[k]| ensures LayerOk(st', k, i) {
      assert LayerOk(st, k, i);
    }
  }

  lemma {:induction false} StepKeeps(st: State, e: Event)
    requires Inv(st) && Enabled(st, e)
    ensures Inv(Next(st, e))
  {
    hide Inv, Up;
    match e
    case Begin => BeginKeeps(st);
    case StartNext(ok) => StartKeeps(st, ok);
    case Started(k, i) =>
      if !st.nodes[k][i].started {
        ReportKeeps(st, e);
      }
    case Passive(k, i) =>
      if !st.nodes[k][i].started {
        ReportKeeps(st, e);
      }
    case Finished(k, i) => FlagKeeps(st, e);
    case SetPassive(k, i, _) => FlagKeeps(st, e);
    case SessionState(_) => Recount(st, Next(st, e));
  }

  lemma {:induction false} FlagKeeps(st: State, e: Event)
    requires Inv(st) && Enabled(st, e) && (e.Finished? || e.SetPassive?)
    ensures Inv(Next(st, e))
  {
    assert LayerOk(st, e.k, e.i);
    Flagged(st, e.k, e.i, Next(st, e).nodes[e.k][e.i]);
  }

  // ----- Whole runs ----------------------------------------------------------------------------

  predicate Feasible(st: State, es: seq<Event>)
    decreases |es|
  {
    es == [] || (Enabled(st, es[0]) && Feasible(Next(st, es[0]), es[1..]))
  }

  function After(st: State, es: seq<Event>): State
    requires Feasible(st, es)
    decreases |es|
  {
    if es == [] then st else After(Next(st, es[0]), es[1..])
  }

  /** A new session: nothing started, one layer in each node but the last; layers may begin passive. */
  predicate Fresh(st: State) {
    && Chain(st) && !st.begun && st.todo == []
    && (forall k, i | 0 <= k < |st.nodes| && 0 <= i < |st.nodes[k]| ::
          st.nodes[k][i].calls == 0 && !st.nodes[k][i].started)
  }

  lemma {:induction false} RunKeeps(st: State, es: seq<Event>)
    requires Inv(st) && Feasible(st, es)
    ensures Inv(After(st, es))
    decreases |es|
  {
    hide Inv, Enabled;
    if es != [] {
      StepKeeps(st, es[0]);
      RunKeeps(Next(st, es[0]), es[1..]);
    }
  }

  /** In every run each start function is called at most once, and beyond the first node only after the
      layer before (lcp for auth, auth for the network protocols) has reported started. */
  lemma {:induction false} StartedOnceInOrder(st: State, es: seq<Event>, k: nat, i: nat)
    requires Fresh(st) && Feasible(st, es) && Valid(After(st, es), k, i)
    ensures var st' := After(st, es);
      && st'.nodes[k][i].calls <= 1
      && (st'.nodes[k][i].calls == 1 && k > 0 ==> |st'.nodes[k - 1]| == 1 && st'.nodes[k - 1][0].started)
      && (st'.nodes[k][i].started ==> st'.nodes[k][i].calls == 1)
  {
    assert forall k, i | 0 <= k < |st.nodes| && 0 <= i < |st.nodes[k]| :: LayerOk(st, k, i);
    RunKeeps(st, es);
    assert LayerOk(After(st, es), k, i);
  }

  // ----- Nobody is forgotten -------------------------------------------------------------------

  /** Every layer of node `k` was called or is about to be. */
  ghost predicate Reached(st: State, k: nat)
    requires k < |st.nodes|
  {
    forall i | 0 <= i < |st.nodes[k]| :: st.nodes[k][i].calls > 0 || (k, i) in st.todo
  }

  /** Before the session begins nothing is called; afterwards the first node is reached, and so is every node
      behind one that is up. */
  ghost predicate Complete(st: State) {
    && (!st.begun ==> st.todo == [] && forall k, i | 0 <= k < |st.nodes| && 0 <= i < |st.nodes[k]| ::
          st.nodes[k][i].calls == 0 && !st.nodes[k][i].started)
    && (st.begun && |st.nodes| > 0 ==> Reached(st, 0))
    && (forall k | 0 <= k < |st.nodes| - 1 && Up(st.nodes[k]) :: Reached(st, k + 1))
  }

  lemma {:induction false} ReachedKept(st: State, st': State, k: nat)
    requires k < |st.nodes| == |st'.nodes| && |st'.nodes[k]| == |st.nodes[k]| && Reached(st, k)
    requires forall i | 0 <= i < |st.nodes[k]| :: st'.nodes[k][i].calls >= st.nodes[k][i].calls
    requires forall i | 0 <= i < |st.nodes[k]| && (k, i) in st.todo :: (k, i) in st'.todo || st'.nodes[k][i].calls > 0
    ensures Reached(st', k)
  {
  }

  /** A lone layer makes its node come up exactly when it is started and not optional. */
  lemma {:induction false} LoneUp(items: seq<Layer>)
    requires |items| == 1
    ensures Up(items) <==> items[0].started && !items[0].optional
  {
  }

  lemma {:induction false} CompleteBegin(st: State)
    requires Complete(st) && Enabled(st, Begin)
    ensures Complete(Next(st, Begin))
  {
    var st' := Next(st, Begin);
    forall i | 0 <= i < |st.nodes[0]| ensures (0, i) in st'.todo {
      assert st'.todo[i] == (0, i);
    }
  }

  lemma {:induction false} CompleteStart(st: State)
    requires Complete(st) && Enabled(st, StartNext(true))
    ensures Complete(Next(st, StartNext(true)))
  {
    var st' := Next(st, StartNext(true));
    var (k, i) := st.todo[0];
    assert st.begun && st.todo == [(k, i)] + st.todo[1..];
    forall j | 0 <= j < |st.nodes| ensures Up(st'.nodes[j]) <==> Up(st.nodes[j]) {
      UpSame(st.nodes[j], st'.nodes[j]);
    }
    hide Up;
    forall j: nat | j < |st.nodes| && Reached(st, j) ensures Reached(st', j) {
      ReachedKept(st, st', j);
    }
  }

  lemma {:induction false} UpSame(items: seq<Layer>, items': seq<Layer>)
    requires |items'| == |items| && forall i | 0 <= i < |items| ::
      items'[i].started == items[i].started && items'[i].passive == items[i].passive && items'[i].optional == items[i].optional
    ensures Up(items') <==> Up(items)
  {
    if Up(items) {
      var j :| 0 <= j < |items| && items[j].started && !items[j].optional;
      assert items'[j].started && !items'[j].optional;
    }
    if Up(items') {
      var j :| 0 <= j < |items'| && items'[j].started && !items'[j].optional;
      assert items[j].started && !items[j].optional;
    }
  }

  /** Layer (k, i) changes flags; its node does not come up by that, or the next one is reached. */
  lemma {:induction false} CompleteFlag(st: State, st': State, k: nat, i: nat, x: Layer)
    requires Chain(st) && Complete(st) && Valid(st, k, i) && x.calls == st.nodes[k][i].calls
    requires st'.nodes == st.nodes[k := st.nodes[k][i := x]] && st'.begun == st.begun && st.begun
    requires forall p | p in st.todo :: p in st'.todo
    requires k + 1 < |st.nodes| && Up(st'.nodes[k]) && !Up(st.nodes[k]) ==> Reached(st', k + 1)
    ensures Complete(st')
  {
    hide Up;
    forall j: nat | j < |st.nodes| && Reached(st, j) ensures Reached(st', j) {
      ReachedKept(st, st', j);
    }
  }

  lemma {:induction false} CompleteReport(st: State, e: Event)
    requires Chain(st) && Complete(st) && Enabled(st, e) && (e.Started? || e.Passive?) && !st.nodes[e.k][e.i].started
    ensures Complete(Next(st, e))
  {
    var k, i, st' := e.k, e.i, Next(st, e);
    assert st.begun;
    if k + 1 < |st.nodes| && Up(st'.nodes[k]) && !Up(st.nodes[k]) {
      var n := k + 1;
      forall j | 0 <= j < |st.nodes[n]| ensures (n, j) in st'.todo {
        assert st'.todo[j] == (n, j);
      }
    }
    hide Up;
    CompleteFlag(st, st', k, i, st'.nodes[k][i]);
  }

  lemma {:induction false} CompleteOther(st: State, e: Event)
    requires Chain(st) && Complete(st) && Enabled(st, e) && (e.Finished? || e.SetPassive?)
    ensures Complete(Next(st, e))
  {
    var k, st' := e.k, Next(st, e);
    if st.begun {
      if k + 1 < |st.nodes| {
        LoneUp(st.nodes[k]);
        LoneUp(st'.nodes[k]);
      }
      hide Up;
      CompleteFlag(st, st', k, e.i, st'.nodes[k][e.i]);
    }
  }

  lemma {:induction false} CompleteStep(st: State, e: Event)
    requires Chain(st) && Complete(st) && Enabled(st, e) && e != StartNext(false)
    ensures Complete(Next(st, e)) && Chain(Next(st, e))
  {
    hide Complete, Up;
    match e
    case Begin => CompleteBegin(st);
    case StartNext(_) => CompleteStart(st);
    case Started(k, i) =>
      if !st.nodes[k][i].started {
        CompleteReport(st, e);
      }
    case Passive(k, i) =>
      if !st.nodes[k][i].started {
        CompleteReport(st, e);
      }
    case Finished(_, _) => CompleteOther(st, e);
    case SetPassive(_, _, _) => CompleteOther(st, e);
    case SessionState(b) => CompleteSame(st, b);
  }

  lemma {:induction false} CompleteSame(st: State, b: bool)
    requires Complete(st)
    ensures Complete(st.(sesStarting := b))
  {
    hide Up;
    var st' := st.(sesStarting := b);
    forall j: nat | j < |st.nodes| && Reached(st, j) ensures Reached(st', j) {
    }
  }

  lemma {:induction false} RunComplete(st: State, es: seq<Event>)
    requires Chain(st) && Complete(st) && Feasible(st, es) && StartNext(false) !in es
    ensures Complete(After(st, es)) && Chain(After(st, es))
    decreases |es|
  {
    hide Complete, Enabled, Chain, Next;
    if es != [] {
      assert es[0] in es;
      CompleteStep(st, es[0]);
      RunComplete(Next(st, es[0]), es[1..]);
    }
  }

  /** In every run without a failed start, once the loop is through: the start function of every layer of the first
      node was called, and of every layer of each node behind one that is up. */
  lemma {:induction false} NoneForgotten(st: State, es: seq<Event>, k: nat, i: nat)
    requires Fresh(st) && Feasible(st, es) && StartNext(false) !in es && Valid(After(st, es), k, i)
    requires var st' := After(st, es); st'.todo == [] && if k == 0 then st'.begun else Up(st'.nodes[k - 1])
    ensures After(st, es).nodes[k][i].calls > 0
  {
    hide Enabled, Feasible, After;
    FreshComplete(st);
    RunComplete(st, es);
    hide Up;
    var st' := After(st, es);
    assert Reached(st', k) by {
      if k > 0 {
        assert Reached(st', k - 1 + 1);
      }
    }
  }

  lemma {:induction false} FreshComplete(st: State)
    requires Fresh(st)
    ensures Complete(st)
  {
  }

  /** A session made from the registered layers: one layer record for each, not yet started. */
  predicate SessionOf(ns: seq<Node>, st: State) {
    && |st.nodes| == |ns| && !st.begun && st.todo == []
    && (forall k | 0 <= k < |ns| :: |st.nodes[k]| == |ns[k].items|)
    && (forall k, i | 0 <= k < |st.nodes| && 0 <= i < |st.nodes[k]| ::
          st.nodes[k][i].calls == 0 && !st.nodes[k][i].started)
  }

  /** Whatever else is registered beside lcp and auth, sessions begin in a state the order theorem covers. */
  lemma {:induction false} RegisteredFresh(names: seq<string>, ns: seq<Node>, st: State)
    requires Times(names, "lcp") == 1 && Times(names, "auth") == 1
    requires Ordered(ns) && forall o: nat :: Items(ns, o) == OfOrder(names, o)
    requires SessionOf(ns, st)
    ensures Fresh(st)
  {
    hide Items, OfOrder, Times, Ordered;
    FirstNodes(names, ns);
  }

  /** Activation is attempted only while the session is starting and the last node is up. */
  lemma {:induction false} ActivatesOnlyUp(st: State, e: Event)
    requires Enabled(st, e) && Next(st, e).activations != st.activations
    ensures (e.Started? || e.Passive?) && e.k + 1 == |st.nodes| && st.sesStarting
    ensures Next(st, e).activations == st.activations + 1 && Up(Next(st, e).nodes[|st.nodes| - 1])
  {
  }

  /** Conversely the report that brings the last node up attempts it. */
  lemma {:induction false} ActivatesWhenUp(st: State, e: Event)
    requires Enabled(st, e) && (e.Started? || e.Passive?) && e.k + 1 == |st.nodes| && st.sesStarting
    requires !st.nodes[e.k][e.i].started && Up(Next(st, e).nodes[e.k])
    ensures Next(st, e).activations == st.activations + 1
  {
  }

  /** A node that is up schedules the next one again exactly when one of its layers reports that had only
      been passive, which takes a second layer beside the started one. */
  lemma {:induction false} AgainExactly(st: State, e: Event)
    requires Enabled(st, e) && (e.Started? || e.Passive?) && Up(st.nodes[e.k])
    ensures |Next(st, e).todo| > |st.todo| <==>
      e.k + 1 < |st.nodes| && st.nodes[e.k + 1] != [] && !st.nodes[e.k][e.i].started
    ensures |st.nodes[e.k]| == 1 ==> Next(st, e) == st
  {
    var items := st.nodes[e.k];
    if !items[e.i].started {
      var items' := Put(st, e.k, e.i, Flag(items[e.i], e)).nodes[e.k];
      var j :| 0 <= j < |items| && items[j].started && !items[j].optional;
      assert items'[j] == items[j];
      assert Up(items');
    }
  }

  function Flag(x: Layer, e: Event): Layer {
    if e.Started? then x.(started := true) else x.(passive := true)
  }

  // ----- The session object --------------------------------------------------------------------

  class PppSession {
    var nodes: seq<seq<Layer>>
    var begun: bool
    var todo: seq<(nat, nat)>
    var sesStarting: bool
    var activations: nat

    ghost function View(): State
      reads this
    {
      State(nodes, begun, todo, sesStarting, activations)
    }

    ghost predicate Valid()
      reads this
    {
      Inv(View())
    }

    method StartFirstLayer()
      requires Valid() && Enabled(View(), Begin)
      modifies this
      ensures Valid() && View() == Next(old(View()), Begin)
    {
      StepKeeps(View(), Begin);
      begun, todo := true, Whole(0, |nodes[0]|);
    }

    /** The loop over a node calls the next start function; `ok` is what that returns. */
    method CallStart(ok: bool)
      requires Valid() && Enabled(View(), StartNext(ok))
      modifies this
      ensures Valid() && View() == Next(old(View()), StartNext(ok))
    {
      hide Inv, Rest;
      StepKeeps(View(), StartNext(ok));
      var (k, i) := todo[0];
      var d := nodes[k][i].(starting := true, calls := nodes[k][i].calls + 1);
      var left := if ok then todo[1..] else Rest(todo, k);
      nodes, todo := nodes[k := nodes[k][i := d]], left;
    }

    method NodeReported(k: nat)
      requires k < |nodes|
      modifies this
      ensures View() == Proceed(old(View()), k)
    {
      var up := CheckNode(nodes[k]);
      if !up {
        return;
      }
      if k + 1 == |nodes| {
        if sesStarting {
          activations := activations + 1;
        }
      } else {
        todo := Whole(k + 1, |nodes[k + 1]|) + todo;
      }
    }

    method LayerStarted(k: nat, i: nat)
      requires Valid() && Enabled(View(), Started(k, i))
      modifies this
      ensures Valid() && View() == Next(old(View()), Started(k, i))
    {
      hide Inv, Up;
      StepKeeps(View(), Started(k, i));
      if nodes[k][i].started {
        return;
      }
      nodes := nodes[k := nodes[k][i := nodes[k][i].(started := true)]];
      NodeReported(k);
    }

    /** A layer changes its own passive flag, without reporting. */
    method SetPassiveFlag(k: nat, i: nat, on: bool)
      requires Valid() && Enabled(View(), SetPassive(k, i, on))
      modifies this
      ensures Valid() && View() == Next(old(View()), SetPassive(k, i, on))
    {
      hide Inv;
      StepKeeps(View(), SetPassive(k, i, on));
      nodes := nodes[k := nodes[k][i := nodes[k][i].(passive := on)]];
    }

    method LayerPassive(k: nat, i: nat)
      requires Valid() && Enabled(View(), Passive(k, i))
      modifies this
      ensures Valid() && View() == Next(old(View()), Passive(k, i))
    {
      hide Inv, Up;
      StepKeeps(View(), Passive(k, i));
      if nodes[k][i].started {
        return;
      }
      nodes := nodes[k := nodes[k][i := nodes[k][i].(passive := true)]];
      NodeReported(k);
    }
  }
}
