/**
 Multi-hop connections: the exit node is provisioned first and the entry node last, each wired to the
 one after it, and every failure on the way hands all nodes made so far to the cloud's delete call.

 What the cloud and the local tunnel do is decided by the environment. `calls` is the log of create
 and delete calls that reached the cloud.
 */
module MultiHop {
  import opened Basics

  type Id = string
  type Ip = string

  /** Key pairs by owner: the local client, a hop's own interface, a hop's link to the next one. */
  datatype Key = Client | Server(hop: nat) | Link(hop: nat)

  /** Addresses inside the tunnels: the client's, and the one every link interface uses. */
  datatype Inner = ClientInner | LinkInner

  datatype NextHop = NextHop(link: Key, address: Inner, peer: Key, endpoint: Ip)

  /** What a node is booted with: its own key, the one peer it admits, and where it forwards. */
  datatype Config = Config(region: string, server: Key, peer: Key, peerAddress: Inner, nextHop: Option<NextHop>)

  datatype Node = Node(id: Id, ip: Ip, config: Config)

  /** `Unheard` is a create call that took effect while its reply was lost: the client saw an error and
      does not know the node. */
  datatype Call = Create(id: Id, config: Config) | Delete(id: Id) | Unheard(id: Id, config: Config)

  /** What becomes of one hop. */
  datatype Fate =
    | RenderFails
    | CreateFails
    | CreateUnheard(id: Id)
    | NeverBoots(id: Id)
    | NoAddress(id: Id)
    | Up(id: Id, ip: Ip)

  datatype Tunnel = Tunnel(own: Key, address: Inner, peer: Key, endpoint: Ip)

  datatype Active = Active(instance: Id, chain: seq<Id>, egress: Option<Ip>, persistent: bool)

  const MAX_HOPS: nat := 3

  // -- Wiring ------------------------------------------------------------------------------------

  function PeerOf(hop: nat): Key {
    if hop == 0 then Client else Link(hop - 1)
  }

  function PeerAddressOf(hop: nat): Inner {
    if hop == 0 then ClientInner else LinkInner
  }

  function Ids(nodes: seq<Node>): (ids: seq<Id>)
    ensures |ids| == |nodes|
  {
    seq(|nodes|, i requires 0 <= i < |nodes| => nodes[i].id)
  }

  /** `nodes` are the hops from `from` on, entry side first. Only the last has no next hop; every other
      forwards, with its own link key, to the server key and address of the node after it. */
  predicate Wired(nodes: seq<Node>, regions: seq<string>, from: nat) {
    nodes == [] ||
    (var c := nodes[0].config;
     && from < |regions| && c.region == regions[from] && c.server == Server(from)
     && c.peer == PeerOf(from) && c.peerAddress == PeerAddressOf(from)
     && c.nextHop == (if |nodes| == 1 then None
                      else Some(NextHop(Link(from), LinkInner, nodes[1].config.server, nodes[1].ip)))
     && Wired(nodes[1..], regions, from + 1))
  }

  lemma {:induction false} HopConfig(nodes: seq<Node>, regions: seq<string>, from: nat, i: nat)
    requires Wired(nodes, regions, from) && i < |nodes|
    ensures
      var c := nodes[i].config;
      && from + i < |regions| && c.region == regions[from + i] && c.server == Server(from + i)
      && c.peer == PeerOf(from + i) && c.peerAddress == PeerAddressOf(from + i)
      && (c.nextHop.None? <==> i == |nodes| - 1)
      && (i < |nodes| - 1 ==>
        c.nextHop == Some(NextHop(Link(from + i), LinkInner, nodes[i + 1].config.server, nodes[i + 1].ip)))
    decreases i
  {
    if i > 0 {
      HopConfig(nodes[1..], regions, from + 1, i - 1);
    }
  }

  /** Neighbours agree: each hop but the last forwards to exactly the next one's key and address, the
      next one admits exactly that hop's link key at that hop's link address, and no two hops admit
      the same peer. */
  lemma NeighboursAgree(nodes: seq<Node>, regions: seq<string>, i: nat, j: nat)
    requires Wired(nodes, regions, 0) && i < |nodes| && j < |nodes|
    ensures i + 1 < |nodes| ==>
      && nodes[i].config.nextHop.Some?
      && nodes[i].config.nextHop.value.peer == nodes[i + 1].config.server
      && nodes[i].config.nextHop.value.endpoint == nodes[i + 1].ip
      && nodes[i + 1].config.peer == nodes[i].config.nextHop.value.link
      && nodes[i + 1].config.peerAddress == nodes[i].config.nextHop.value.address
    ensures nodes[i].config.peer == nodes[j].config.peer ==> i == j
    ensures nodes[i].config.peer == Client <==> i == 0
    ensures nodes[i].config.peerAddress == ClientInner <==> i == 0
  {
    HopConfig(nodes, regions, 0, i);
    HopConfig(nodes, regions, 0, j);
    if i + 1 < |nodes| {
      HopConfig(nodes, regions, 0, i + 1);
    }
  }

  // -- Where traffic goes --------------------------------------------------------------------------

  /** The node that answers at an address with a given server key. */
  function Find(nodes: seq<Node>, peer: Key, ip: Ip): (r: Option<nat>)
    ensures r.Some? ==> r.value < |nodes| && nodes[r.value].ip == ip && nodes[r.value].config.server == peer
    ensures r.None? ==> forall i :: 0 <= i < |nodes| ==> nodes[i].ip != ip || nodes[i].config.server != peer
  {
    if nodes == [] then None
    else
      match Find(nodes[..|nodes| - 1], peer, ip)
      case Some(i) => Some(i)
      case None =>
        var last := nodes[|nodes| - 1];
        if last.ip == ip && last.config.server == peer then Some(|nodes| - 1) else None
  }

  /** A packet sent by the holder of `sender` to the server `peer` at `ip`: the nodes it passes until
      one lets it out, or `None` if it is refused, lost or still inside after `hops` steps. */
  function Walk(nodes: seq<Node>, sender: Key, peer: Key, ip: Ip, hops: nat): Option<seq<nat>>
    decreases hops
  {
    if hops == 0 then None
    else
      match Find(nodes, peer, ip)
      case None => None
      case Some(i) =>
        var c := nodes[i].config;
        if c.peer != sender then None
        else if c.nextHop.None? then Some([i])
        else
          var next := c.nextHop.value;
          match Walk(nodes, next.link, next.peer, next.endpoint, hops - 1)
          case None => None
          case Some(path) => Some([i] + path)
  }

  function UpTo(i: nat, n: nat): seq<nat>
    requires i <= n
    decreases n - i
  {
    if i == n then [] else [i] + UpTo(i + 1, n)
  }

  lemma LastUpTo(i: nat)
    ensures UpTo(i, i + 1) == [i]
  {
    assert UpTo(i + 1, i + 1) == [];
  }

  lemma {:induction false} WalkFrom(nodes: seq<Node>, regions: seq<string>, i: nat)
    requires Wired(nodes, regions, 0) && i < |nodes|
    ensures Walk(nodes, PeerOf(i), nodes[i].config.server, nodes[i].ip, |nodes| - i) == Some(UpTo(i, |nodes|))
    decreases |nodes| - i
  {
    HopConfig(nodes, regions, 0, i);
    var found := Find(nodes, nodes[i].config.server, nodes[i].ip);
    assert found.Some?;
    HopConfig(nodes, regions, 0, found.value);
    assert found == Some(i);
    if i + 1 < |nodes| {
      WalkFrom(nodes, regions, i + 1);
    } else {
      LastUpTo(i);
    }
  }

  /** Through a wired chain the client's traffic passes every hop once, in the order of the regions,
      and leaves at the last. */
  lemma TrafficReachesExit(nodes: seq<Node>, regions: seq<string>)
    requires Wired(nodes, regions, 0) && nodes != []
    ensures Walk(nodes, Client, nodes[0].config.server, nodes[0].ip, |nodes|) == Some(UpTo(0, |nodes|))
  {
    WalkFrom(nodes, regions, 0);
  }

  /** Traffic of anybody else is refused at every node it is sent to. */
  lemma StrangersRefused(nodes: seq<Node>, regions: seq<string>, sender: Key, peer: Key, ip: Ip, hops: nat)
    requires Wired(nodes, regions, 0)
    requires sender != Client && forall i :: 0 <= i < |nodes| ==> sender != Link(i)
    ensures Walk(nodes, sender, peer, ip, hops) == None
  {
    var found := Find(nodes, peer, ip);
    if found.Some? {
      HopConfig(nodes, regions, 0, found.value);
    }
  }

  // -- The log ---------------------------------------------------------------------------------------

  function Made(calls: seq<Call>): set<Id> {
    set c | c in calls && c.Create? :: c.id
  }

  function Dropped(calls: seq<Call>): set<Id> {
    set c | c in calls && c.Delete? :: c.id
  }

  /** Nodes that run although the client was told of an error. */
  function Lost(calls: seq<Call>): set<Id> {
    set c | c in calls && c.Unheard? :: c.id
  }

  lemma LostMore(a: seq<Call>, b: seq<Call>)
    ensures Lost(a + b) == Lost(a) + Lost(b)
  {
    forall id | id in Lost(a) + Lost(b) ensures id in Lost(a + b) {
      if id in Lost(a) {
        var c :| c in a && c.Unheard? && c.id == id;
        assert c in a + b;
      } else {
        var c :| c in b && c.Unheard? && c.id == id;
        assert c in a + b;
      }
    }
  }

  lemma OneLost(id: Id, config: Config)
    ensures Lost([Unheard(id, config)]) == {id}
  {
    assert Unheard(id, config) in [Unheard(id, config)];
  }

  lemma NothingLost(calls: seq<Call>)
    requires forall i :: 0 <= i < |calls| ==> !calls[i].Unheard?
    ensures Lost(calls) == {}
  {
  }

  /** The node lost when the hops below `n` are provisioned from the top: that of the first hop to fail,
      if it failed by a lost reply. */
  function LostTo(fates: seq<Fate>, n: nat): set<Id>
    requires n <= |fates|
  {
    if n == 0 then {}
    else if fates[n - 1].Up? then LostTo(fates, n - 1)
    else if fates[n - 1].CreateUnheard? then {fates[n - 1].id}
    else {}
  }

  lemma LogMore(a: seq<Call>, b: seq<Call>)
    ensures Made(a + b) == Made(a) + Made(b) && Dropped(a + b) == Dropped(a) + Dropped(b)
  {
    forall id | id in Made(a) + Made(b) ensures id in Made(a + b) {
      if id in Made(a) {
        var c :| c in a && c.Create? && c.id == id;
        assert c in a + b;
      } else {
        var c :| c in b && c.Create? && c.id == id;
        assert c in a + b;
      }
    }
    forall id | id in Dropped(a) + Dropped(b) ensures id in Dropped(a + b) {
      if id in Dropped(a) {
        var c :| c in a && c.Delete? && c.id == id;
        assert c in a + b;
      } else {
        var c :| c in b && c.Delete? && c.id == id;
        assert c in a + b;
      }
    }
  }

  lemma LogOne(c: Call)
    ensures Made([c]) == (if c.Create? then {c.id} else {}) && Dropped([c]) == if c.Delete? then {c.id} else {}
  {
    assert c in [c];
  }

  function Deletes(ids: seq<Id>): (calls: seq<Call>)
    ensures |calls| == |ids|
  {
    seq(|ids|, i requires 0 <= i < |ids| => Delete(ids[i]))
  }

  lemma DeletesDrop(ids: seq<Id>)
    ensures Made(Deletes(ids)) == {} && Dropped(Deletes(ids)) == set id | id in ids
  {
    forall id | id in ids ensures id in Dropped(Deletes(ids)) {
      var i :| 0 <= i < |ids| && ids[i] == id;
      assert Deletes(ids)[i] in Deletes(ids);
    }
  }

  /** The create calls of a finished chain: the exit's first. */
  function Creates(nodes: seq<Node>): seq<Call> {
    if nodes == [] then [] else Creates(nodes[1..]) + [Create(nodes[0].id, nodes[0].config)]
  }

  function Reverse(ids: seq<Id>): (r: seq<Id>)
    ensures |r| == |ids|
  {
    seq(|ids|, i requires 0 <= i < |ids| => ids[|ids| - 1 - i])
  }

  lemma {:induction false} CreatesMade(nodes: seq<Node>)
    ensures Made(Creates(nodes)) == (set id | id in Ids(nodes)) && Dropped(Creates(nodes)) == {}
  {
    if nodes != [] {
      CreatesMade(nodes[1..]);
      LogMore(Creates(nodes[1..]), [Create(nodes[0].id, nodes[0].config)]);
      LogOne(Create(nodes[0].id, nodes[0].config));
      assert Ids(nodes) == [nodes[0].id] + Ids(nodes[1..]);
    }
  }

  /** No node the client knows is forgotten: each one made was passed to delete or belongs to the multi-hop connection
      that is up. */
  ghost predicate Accounted(calls: seq<Call>, active: Option<Active>) {
    forall id :: id in Made(calls) ==>
      || id in Dropped(calls)
      || (active.Some? && !active.value.persistent && (id == active.value.instance || id in active.value.chain))
  }

  // -- The controller ----------------------------------------------------------------------------------

  class Controller {
    var connecting: bool
    var active: Option<Active>
    var tunnel: Option<Tunnel>
    var calls: seq<Call>

    constructor ()
      ensures !connecting && active == None && calls == [] && Accounted(calls, active)
    {
      connecting, active, tunnel, calls := false, None, None, [];
    }

    method DestroyChain(ids: seq<Id>)
      modifies this`calls
      ensures calls == old(calls) + Deletes(ids) && Lost(calls) == Lost(old(calls))
    {
      LostMore(calls, Deletes(ids));
      NothingLost(Deletes(ids));
      for i := 0 to |ids|
        invariant calls == old(calls) + Deletes(ids[..i])
      {
        calls := calls + [Delete(ids[i])];
        assert Deletes(ids[..i + 1]) == Deletes(ids[..i]) + [Delete(ids[i])];
      }
      assert ids[..|ids|] == ids;
    }

    /** Brings up one hop. On success the node joins the front of `nodes`. On failure every node made
        so far, this one included, is passed to delete. */
    method ProvisionHop(regions: seq<string>, i: nat, fate: Fate, created: seq<Id>, downstream: Option<(Key, Ip)>,
        ghost nodes: seq<Node>)
      returns (r: Option<(Id, Ip)>, ghost node: Node)
      requires i + 1 + |nodes| == |regions| && Wired(nodes, regions, i + 1) && created == Reverse(Ids(nodes))
      requires downstream == if nodes == [] then None else Some((nodes[0].config.server, nodes[0].ip))
      modifies this`calls
      ensures r.Some? ==>
        && node.id == r.value.0 && node.ip == r.value.1 && Wired([node] + nodes, regions, i)
        && calls == old(calls) + [Create(node.id, node.config)]
      ensures r.None? ==>
        && (calls == old(calls) + Deletes(created)
          || (exists id, config :: calls == old(calls) + [Create(id, config)] + Deletes(created + [id]))
          || (fate.CreateUnheard? && exists config :: calls == old(calls) + [Unheard(fate.id, config)] + Deletes(created)))
      ensures r.Some? <==> fate.Up?
      ensures Lost(calls) == Lost(old(calls)) + if fate.CreateUnheard? then {fate.id} else {}
    {
      node := Node("", "", Config("", Client, Client, ClientInner, None));
      var nextHop := None;
      if downstream.Some? {
        nextHop := Some(NextHop(Link(i), LinkInner, downstream.value.0, downstream.value.1));
      }
      var config := Config(regions[i], Server(i), PeerOf(i), PeerAddressOf(i), nextHop);
      if fate.RenderFails? || fate.CreateFails? {
        DestroyChain(created);
        return None, node;
      }
      if fate.CreateUnheard? {
        LostMore(calls, [Unheard(fate.id, config)]);
        OneLost(fate.id, config);
        calls := calls + [Unheard(fate.id, config)];
        DestroyChain(created);
        return None, node;
      }
      LostMore(calls, [Create(fate.id, config)]);
      NothingLost([Create(fate.id, config)]);
      calls := calls + [Create(fate.id, config)];
      if fate.NeverBoots? || fate.NoAddress? {
        DestroyChain(created + [fate.id]);
        return None, node;
      }
      node := Node(fate.id, fate.ip, config);
      assert ([node] + nodes)[1..] == nodes;
      return Some((fate.id, fate.ip)), node;
    }

    /** Provisions the exit first and the entry last, so that each hop's next one is already known. On
        failure every node made is passed to delete. */
    method ProvisionChain(regions: seq<string>, fates: seq<Fate>)
      returns (ok: bool, created: seq<Id>, entryIp: Ip, exitIp: Ip, ghost nodes: seq<Node>)
      requires |fates| == |regions| > 0
      modifies this`calls
      ensures Lost(calls) == Lost(old(calls)) + LostTo(fates, |fates|)
      ensures ok <==> forall i :: 0 <= i < |fates| ==> fates[i].Up?
      ensures ok ==>
        && |nodes| == |regions| && Wired(nodes, regions, 0)
        && calls == old(calls) + Creates(nodes) && created == Reverse(Ids(nodes))
        && entryIp == nodes[0].ip && exitIp == nodes[|nodes| - 1].ip
      ensures !ok ==> CleanedUp(old(calls), calls)
    {
      nodes, created, entryIp, exitIp := [], [], "", "";
      var downstream: Option<(Key, Ip)> := None;
      var i := |regions|;
      while i > 0
        invariant 0 <= i <= |regions| && i + |nodes| == |regions|
        invariant Wired(nodes, regions, i) && created == Reverse(Ids(nodes))
        invariant downstream == if nodes == [] then None else Some((nodes[0].config.server, nodes[0].ip))
        invariant nodes != [] ==> exitIp == nodes[|nodes| - 1].ip
        invariant i == 0 ==> entryIp == nodes[0].ip
        invariant calls == old(calls) + Creates(nodes)
        invariant Lost(calls) == Lost(old(calls)) && LostTo(fates, |fates|) == LostTo(fates, i)
        invariant forall k :: i <= k < |fates| ==> fates[k].Up?
      {
        i := i - 1;
        ghost var before := calls;
        var hop, node := ProvisionHop(regions, i, fates[i], created, downstream, nodes);
        if hop.None? {
          HopFailed(old(calls), before, calls, nodes, created);
          ok := false;
          return;
        }
        created := created + [hop.value.0];
        if i == |regions| - 1 {
          exitIp := hop.value.1;
        }
        if i == 0 {
          entryIp := hop.value.1;
        }
        downstream := Some((Server(i), hop.value.1));
        assert ([node] + nodes)[1..] == nodes;
        nodes := [node] + nodes;
      }
      ok := true;
    }

    /** Connects through `regions`, entry first. `preflight` covers the local prerequisites and the
        provider token. */
    method MultihopRun(regions: seq<string>, preflight: bool, fates: seq<Fate>, tunnelUp: bool)
      returns (ok: bool, ghost nodes: seq<Node>)
      requires |fates| == |regions| && Accounted(calls, active)
      modifies this
      ensures connecting == old(connecting) && Accounted(calls, active)
      ensures Lost(calls) == Lost(old(calls)) +
        if 2 <= |regions| <= 3 && !old(connecting) && old(active).None? && preflight
        then LostTo(fates, |fates|) else {}
      ensures ok <==>
        && 2 <= |regions| <= 3 && !old(connecting) && old(active).None? && preflight && tunnelUp
        && forall i :: 0 <= i < |fates| ==> fates[i].Up?
      ensures ok ==>
        && |nodes| == |regions| && Wired(nodes, regions, 0)
        && calls == old(calls) + Creates(nodes)
        && active == Some(Active(nodes[0].id, Ids(nodes), Some(nodes[|nodes| - 1].ip), false))
        && tunnel == Some(Tunnel(Client, nodes[0].config.peerAddress, nodes[0].config.server, nodes[0].ip))
      ensures !ok ==> active == old(active) && tunnel == old(tunnel) && CleanedUp(old(calls), calls)
    {
      nodes := [];
      if |regions| < 2 || |regions| > MAX_HOPS || connecting {
        return false, nodes;
      }
      if active.Some? || !preflight {
        return false, nodes;
      }
      connecting := true;
      var up, created, entryIp, exitIp, made := ProvisionChain(regions, fates);
      nodes := made;
      if !up {
        CleanedKeeps(old(calls), calls, active);
        connecting := false;
        return false, nodes;
      }
      if !tunnelUp {
        DestroyChain(created);
        ChainDropped(old(calls), calls, nodes, created);
        CleanedKeeps(old(calls), calls, active);
        connecting := false;
        return false, nodes;
      }
      tunnel := Some(Tunnel(Client, ClientInner, Server(0), entryIp));
      var chain := Reverse(created);
      assert chain == Ids(nodes);
      ChainUp(old(calls), nodes);
      active := Some(Active(chain[0], chain, Some(exitIp), false));
      connecting := false;
      ok := true;
    }

    /** Takes the connection down. An always-on node stays; any other node of the connection is passed
        to delete. */
    method Disconnect()
      requires Accounted(calls, active)
      modifies this
      ensures active == None && Accounted(calls, active) && connecting == old(connecting)
      ensures tunnel == if old(active).Some? then None else old(tunnel)
      ensures Made(calls) == Made(old(calls)) && Lost(calls) == Lost(old(calls))
      ensures old(active).None? || old(active).value.persistent ==> calls == old(calls)
      ensures old(active).Some? && !old(active).value.persistent ==>
        && old(active).value.instance in Dropped(calls)
        && forall id :: id in old(active).value.chain ==> id in Dropped(calls)
    {
      var a := active;
      active := None;
      if a.None? {
        return;
      }
      tunnel := None;
      if a.value.persistent {
        return;
      }
      ghost var before := calls;
      calls := calls + [Delete(a.value.instance)];
      DestroyOthers(a.value.chain, a.value.instance);
      ghost var rest := calls[|before| + 1..];
      assert calls == before + [Delete(a.value.instance)] + rest;
      LogMore(before, [Delete(a.value.instance)]);
      LogMore(before + [Delete(a.value.instance)], rest);
      LogOne(Delete(a.value.instance));
      LostMore(before, [Delete(a.value.instance)]);
      LostMore(before + [Delete(a.value.instance)], rest);
      NothingLost([Delete(a.value.instance)]);
    }

    method DestroyOthers(chain: seq<Id>, instance: Id)
      modifies this`calls
      ensures |old(calls)| <= |calls| && calls[..|old(calls)|] == old(calls)
      ensures Made(calls[|old(calls)|..]) == {} && Lost(calls[|old(calls)|..]) == {}
      ensures forall id :: id in chain && id != instance ==> id in Dropped(calls[|old(calls)|..])
    {
      ghost var n := |calls|;
      for i := 0 to |chain|
        invariant n <= |calls| && calls[..n] == old(calls) && Made(calls[n..]) == {} && Lost(calls[n..]) == {}
        invariant forall j :: 0 <= j < i && chain[j] != instance ==> chain[j] in Dropped(calls[n..])
      {
        if chain[i] != instance {
          LogMore(calls[n..], [Delete(chain[i])]);
          LogOne(Delete(chain[i]));
          LostMore(calls[n..], [Delete(chain[i])]);
          NothingLost([Delete(chain[i])]);
          assert (calls + [Delete(chain[i])])[n..] == calls[n..] + [Delete(chain[i])];
          calls := calls + [Delete(chain[i])];
        }
      }
    }
  }

  // -- Cleanup -----------------------------------------------------------------------------------------

  lemma ReverseElems(ids: seq<Id>)
    ensures (set id | id in Reverse(ids)) == set id | id in ids
  {
    forall id | id in ids ensures id in Reverse(ids) {
      var i :| 0 <= i < |ids| && ids[i] == id;
      assert Reverse(ids)[|ids| - 1 - i] == id;
    }
  }

  ghost predicate CleanedUp(start: seq<Call>, calls: seq<Call>) {
    && |start| <= |calls| && calls[..|start|] == start
    && Made(calls[|start|..]) <= Dropped(calls[|start|..])
  }

  lemma CleanedKeeps(start: seq<Call>, calls: seq<Call>, active: Option<Active>)
    requires CleanedUp(start, calls) && Accounted(start, active)
    ensures Accounted(calls, active)
  {
    assert calls == start + calls[|start|..];
    LogMore(start, calls[|start|..]);
  }

  lemma ChainDropped(start: seq<Call>, calls: seq<Call>, nodes: seq<Node>, created: seq<Id>)
    requires created == Reverse(Ids(nodes)) && calls == start + Creates(nodes) + Deletes(created)
    ensures CleanedUp(start, calls)
  {
    var more := Creates(nodes) + Deletes(created);
    assert calls == start + more && calls[|start|..] == more;
    CreatesMade(nodes);
    DeletesDrop(created);
    ReverseElems(Ids(nodes));
    LogMore(Creates(nodes), Deletes(created));
  }

  lemma HopFailed(start: seq<Call>, before: seq<Call>, calls: seq<Call>, nodes: seq<Node>, created: seq<Id>)
    requires created == Reverse(Ids(nodes)) && before == start + Creates(nodes)
    requires || calls == before + Deletes(created)
             || (exists id, config :: calls == before + [Create(id, config)] + Deletes(created + [id]))
             || (exists id, config :: calls == before + [Unheard(id, config)] + Deletes(created))
    ensures CleanedUp(start, calls)
  {
    if calls == before + Deletes(created) {
      ChainDropped(start, calls, nodes, created);
    } else if exists id, config :: calls == before + [Create(id, config)] + Deletes(created + [id]) {
      var id, config :| calls == before + [Create(id, config)] + Deletes(created + [id]);
      LastDropped(start, calls, nodes, created, Create(id, config), created + [id]);
    } else {
      var id, config :| calls == before + [Unheard(id, config)] + Deletes(created);
      LastDropped(start, calls, nodes, created, Unheard(id, config), created);
    }
  }

  lemma LastDropped(start: seq<Call>, calls: seq<Call>, nodes: seq<Node>, created: seq<Id>, last: Call, drop: seq<Id>)
    requires created == Reverse(Ids(nodes)) && calls == start + Creates(nodes) + [last] + Deletes(drop)
    requires (last.Create? && drop == created + [last.id]) || (last.Unheard? && drop == created)
    ensures CleanedUp(start, calls)
  {
    var made := Creates(nodes) + [last];
    var more := made + Deletes(drop);
    assert calls == start + more && calls[|start|..] == more;
    CreatesMade(nodes);
    DeletesDrop(drop);
    ReverseElems(Ids(nodes));
    LogOne(last);
    LogMore(Creates(nodes), [last]);
    LogMore(made, Deletes(drop));
  }

  lemma ChainUp(start: seq<Call>, nodes: seq<Node>)
    requires nodes != [] && Accounted(start, None)
    ensures forall a: Active :: a.chain == Ids(nodes) && !a.persistent ==> Accounted(start + Creates(nodes), Some(a))
  {
    CreatesMade(nodes);
    LogMore(start, Creates(nodes));
  }
}
