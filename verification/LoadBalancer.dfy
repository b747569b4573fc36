/** The load balancer and its two deterministic strategies. */
module LoadBalancer {
  import opened Schedules

  datatype Server = Server(id: int, weight: int)

  function Weights(servers: seq<Server>): (ws: seq<int>)
    ensures |ws| == |servers| && forall i | 0 <= i < |ws| :: ws[i] == servers[i].weight
  {
    seq(|servers|, i requires 0 <= i < |servers| => servers[i].weight)
  }

  /** The static index of the strategy, shared by all its objects. */
  class RoundRobinStrategy {
    var currentIndex: int

    constructor ()
      ensures currentIndex == RoundAfter(1, 0)
    {
      currentIndex := -1;
    }

    /** In range of whatever list is given, as long as it is not empty. */
    method SelectServer(servers: seq<Server>) returns (server: Server)
      requires servers != [] && currentIndex >= -1
      modifies this
      ensures currentIndex == RoundStep(old(currentIndex), |servers|)
      ensures 0 <= currentIndex < |servers| && server == servers[currentIndex]
    {
      currentIndex := (currentIndex + 1) % |servers|;
      server := servers[currentIndex];
    }
  }

  /** Whether the next weighted call stays inside the list: it moves on, or the
      server it stays with is still there. */
  predicate StaysInside(n: nat, turn: Turn) {
    turn.weight == 0 || turn.weight == 1 || 0 <= turn.index < n
  }

  class WeightedRoundRobinStrategy {
    var currentIndex: int
    var weight: int

    constructor ()
      ensures State() == START
    {
      currentIndex, weight := -1, 0;
    }

    function State(): Turn
      reads this
    {
      Turn(currentIndex, weight)
    }

    method SelectServer(servers: seq<Server>) returns (server: Server)
      requires servers != [] && currentIndex >= -1 && StaysInside(|servers|, State())
      modifies this
      ensures State() == WeightedStep(Weights(servers), old(State()))
      ensures 0 <= currentIndex < |servers| && server == servers[currentIndex]
    {
      if weight > 0 {
        weight := weight - 1;
      }
      if weight == 0 {
        currentIndex := (currentIndex + 1) % |servers|;
        weight := servers[currentIndex].weight;
      }
      server := servers[currentIndex];
    }
  }

  /** `StaysInside` is exactly when the index stays in range. */
  lemma StaysInsideExactly(ws: seq<int>, turn: Turn)
    requires ws != [] && turn.index >= -1
    ensures StaysInside(|ws|, turn) <==> 0 <= WeightedStep(ws, turn).index < |ws|
  {
  }

  datatype Strategy = RoundRobin(r: RoundRobinStrategy) | Weighted(w: WeightedRoundRobinStrategy)

  class LoadBalancer {
    var servers: seq<Server>
    const strategy: Strategy

    constructor (strategy: Strategy)
      ensures this.strategy == strategy && servers == []
    {
      this.strategy := strategy;
      servers := [];
    }

    method AddServer(server: Server)
      modifies this
      ensures servers == old(servers) + [server]
    {
      servers := servers + [server];
    }

    method RemoveAllServers()
      modifies this
      ensures servers == []
    {
      servers := [];
    }

    method RequestServer() returns (server: Server)
      requires servers != []
      requires strategy.RoundRobin? ==> strategy.r.currentIndex >= -1
      requires strategy.Weighted? ==>
                 strategy.w.currentIndex >= -1 && StaysInside(|servers|, strategy.w.State())
      modifies if strategy.RoundRobin? then {strategy.r as object} else {strategy.w as object}
      ensures server in servers
      ensures strategy.RoundRobin? ==>
                && strategy.r.currentIndex == RoundStep(old(strategy.r.currentIndex), |servers|)
                && server == servers[strategy.r.currentIndex]
      ensures strategy.Weighted? ==>
                && strategy.w.State() == WeightedStep(Weights(servers), old(strategy.w.State()))
                && 0 <= strategy.w.currentIndex < |servers| && server == servers[strategy.w.currentIndex]
    {
      match strategy
      case RoundRobin(r) => server := r.SelectServer(servers);
      case Weighted(w) => server := w.SelectServer(servers);
    }
  }

  method AddAll(balancer: LoadBalancer, servers: seq<Server>)
    modifies balancer
    ensures balancer.servers == old(balancer.servers) + servers
  {
    for i := 0 to |servers|
      invariant balancer.servers == old(balancer.servers) + servers[..i]
    {
      balancer.AddServer(servers[i]);
    }
  }

  /** Servers added to a new balancer with a new round robin strategy are served
      in the order in which they were added, again and again. */
  method ServeInTurn(balancer: LoadBalancer, r: RoundRobinStrategy, servers: seq<Server>, k: nat)
      returns (picks: seq<Server>)
    requires balancer.strategy == RoundRobin(r) && balancer.servers == [] && r.currentIndex == -1
    requires servers != []
    modifies balancer, r
    ensures |picks| == k && forall j: nat | j < k :: picks[j] == servers[j % |servers|]
  {
    AddAll(balancer, servers);
    picks := [];
    for i := 0 to k
      invariant balancer.servers == servers && r.currentIndex == RoundAfter(|servers|, i)
      invariant |picks| == i && forall j: nat | j < i :: picks[j] == servers[j % |servers|]
    {
      RoundPickIs(|servers|, i);
      var server := balancer.RequestServer();
      picks := picks + [server];
    }
  }

  lemma NextInside(ws: seq<int>, k: nat)
    requires ws != [] && forall w <- ws :: w >= 0
    ensures StaysInside(|ws|, WeightedAfter(ws, k))
    ensures WeightedAfter(ws, k + 1) == WeightedStep(ws, WeightedAfter(ws, k))
  {
    SlotAfter(ws, k);
    SlotIndex(ws, WeightedAfter(ws, k + 1), k % Period(ws));
    StaysInsideExactly(ws, WeightedAfter(ws, k));
  }

  /** Pick `j` is the server at entry `j` mod the period of the expanded list. */
  ghost predicate ByWeight(servers: seq<Server>, picks: seq<Server>) {
    var ws := Weights(servers);
    && Period(ws) > 0
    && forall j: nat | j < |picks| ::
         var i := Expanded(ws, |ws|)[j % Period(ws)];
         i < |servers| && picks[j] == servers[i]
  }

  lemma NextByWeight(servers: seq<Server>, picks: seq<Server>, server: Server)
    requires servers != [] && (forall s <- servers :: s.weight >= 0) && ByWeight(servers, picks)
    requires var i := WeightedAfter(Weights(servers), |picks| + 1).index; 0 <= i < |servers| && server == servers[i]
    ensures ByWeight(servers, picks + [server])
  {
    var ws := Weights(servers);
    assert forall x <- ws :: x >= 0;
    WeightedPickIs(ws, |picks|);
    hide Expanded, Period, Before, WeightedAfter;
  }

  lemma NoneByWeight(servers: seq<Server>)
    requires servers != [] && forall s <- servers :: s.weight >= 0
    ensures ByWeight(servers, []) && Weights(servers) != [] && forall x <- Weights(servers) :: x >= 0
    ensures START == WeightedAfter(Weights(servers), 0)
  {
    BeforeGrows(Weights(servers), 0, |servers|);
  }

  /** And with a new weighted strategy, each as often in a row as its weight says. */
  method ServeByWeight(balancer: LoadBalancer, w: WeightedRoundRobinStrategy, servers: seq<Server>, k: nat)
      returns (picks: seq<Server>)
    requires balancer.strategy == Weighted(w) && balancer.servers == [] && w.State() == START
    requires servers != [] && forall s <- servers :: s.weight >= 0
    modifies balancer, w
    ensures |picks| == k && ByWeight(servers, picks)
  {
    hide Expanded, WeightedStep, WeightedAfter, ByWeight, Weights, Period, Before;
    AddAll(balancer, servers);
    picks := [];
    NoneByWeight(servers);
    ghost var ws := Weights(servers);
    for i := 0 to k
      invariant balancer.servers == servers && w.State() == WeightedAfter(ws, i)
      invariant |picks| == i && ByWeight(servers, picks)
    {
      NextInside(ws, i);
      var server := balancer.RequestServer();
      NextByWeight(servers, picks, server);
      picks := picks + [server];
    }
  }

  // --------------------------------------------------- lists that change

  /** The state after one weighted call on each list. */
  function TurnAfter(lists: seq<seq<int>>, turn: Turn): (r: Turn)
    requires turn.index >= -1 && forall ws <- lists :: ws != []
    ensures r.index >= -1
  {
    if lists == [] then turn
    else
      var n := |lists| - 1;
      assert lists[n] in lists && forall l <- lists[..n] :: l in lists;
      WeightedStep(lists[n], TurnAfter(lists[..n], turn))
  }

  /** The index after one round robin call on lists of these lengths. */
  function IndexAfter(ns: seq<nat>, index: int): (r: int)
    requires index >= -1 && forall n <- ns :: n > 0
    ensures r >= -1
  {
    if ns == [] then index
    else
      var n := |ns| - 1;
      assert ns[n] in ns && forall l <- ns[..n] :: l in ns;
      RoundStep(IndexAfter(ns[..n], index), ns[n])
  }

  /** Whatever the lists were before, round robin goes on from the index they
      left, in range or not, one by one mod the length of the list it now has. */
  lemma {:induction false} RoundAcrossLists(ns: seq<nat>, n: nat, k: nat)
    requires n > 0 && forall l <- ns :: l > 0
    ensures IndexAfter(ns + seq(k, _ => n), -1) == RoundOn(n, IndexAfter(ns, -1), k)
    ensures k > 0 ==> IndexAfter(ns + seq(k, _ => n), -1) == (IndexAfter(ns, -1) + k) % n
  {
    if k == 0 {
      assert ns + seq(0, _ => n) == ns;
    } else {
      var all := ns + seq(k, _ => n);
      assert all[..|all| - 1] == ns + seq(k - 1, _ => n) && all[|all| - 1] == n;
      RoundAcrossLists(ns, n, k - 1);
      RoundFromAny(n, IndexAfter(ns, -1), k - 1);
    }
  }

  /** The same for the weighted strategy: what it does from the state they left
      is `WeightedFromAny`. */
  lemma {:induction false} WeightedAcrossLists(lists: seq<seq<int>>, ws: seq<int>, k: nat)
    requires ws != [] && forall l <- lists :: l != []
    ensures TurnAfter(lists + seq(k, _ => ws), START) == WeightedOn(ws, TurnAfter(lists, START), k)
  {
    if k == 0 {
      assert lists + seq(0, _ => ws) == lists;
    } else {
      var all := lists + seq(k, _ => ws);
      assert all[..|all| - 1] == lists + seq(k - 1, _ => ws) && all[|all| - 1] == ws;
      WeightedAcrossLists(lists, ws, k - 1);
      hide WeightedStep;
    }
  }

  /** While servers are only added, every call stays inside its list. */
  lemma {:induction false} GrowthStaysInside(lists: seq<seq<int>>, ws: seq<int>)
    requires ws != [] && forall l <- lists :: l != []
    requires forall i | 0 <= i < |lists| - 1 :: lists[i] <= lists[i + 1]
    requires lists != [] ==> lists[|lists| - 1] <= ws
    ensures StaysInside(|ws|, TurnAfter(lists, START))
    decreases |lists|
  {
    if lists != [] {
      var n := |lists| - 1;
      var last := lists[n];
      assert last in lists && forall l <- lists[..n] :: l in lists;
      GrowthStaysInside(lists[..n], last);
      StaysInsideExactly(last, TurnAfter(lists[..n], START));
    }
  }

  /** A list that shrinks while turns are left can leave the index outside. */
  lemma ShrinkingCanLeave()
    ensures TurnAfter([[1, 3], [1, 3]], START) == Turn(1, 3) && !StaysInside(1, Turn(1, 3))
  {
    assert [[1, 3], [1, 3]][..1] == [[1, 3]];
    assert [[1, 3]][..0] == [];
    assert TurnAfter([], START) == START;
    assert TurnAfter([[1, 3]], START) == Turn(0, 1);
  }
}
