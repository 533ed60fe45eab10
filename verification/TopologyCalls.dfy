/** When each call of the reloader succeeds, and what it leaves. */
module TopologyCalls {
  import opened Outcomes
  import opened Text
  import opened Conversion
  import opened LowestFree
  import opened Topology
  import opened TopologyTheorems

  /** A call is refused for being someone else's contract exactly when the local AS is neither party. */
  lemma NotOursIff(cfg: Config, topo: Topo, op: Op)
    ensures Apply(cfg, topo, op) == Err(NotOurs) <==> !IsParty(topo, op.c)
  {
    hide Collect, IpPort, RemoveFrom, Get;
  }

  /** Every interface id and public address of the topology, and the remote address, can be read. */
  predicate AllRead(cfg: Config, topo: Topo, remote: string) {
    && Collect(IdOf(), topo.routers).Some? && Collect(PublicOf(cfg.ip6), topo.routers).Some?
    && IpPort(cfg.ip6, remote).Some?
  }

  /** The address towards the remote has a free port up to `max_port`. */
  ghost predicate PortLeft(cfg: Config, topo: Topo, remote: string)
    requires AllRead(cfg, topo, remote)
  {
    var publics := Collect(PublicOf(cfg.ip6), topo.routers).value;
    var ip := cfg.router(IpPort(cfg.ip6, remote).value.0);
    exists q :: Base(PortsOn(publics, ip), cfg.minPort) <= q <= cfg.maxPort && (ip, q) !in publics
  }

  /** An activation succeeds exactly for a party, with everything readable and a port left. */
  lemma ActivateSucceedsIff(cfg: Config, topo: Topo, c: Contract)
    ensures Apply(cfg, topo, Activate(c)).Ok? <==>
      IsParty(topo, c) && AllRead(cfg, topo, c.address) && PortLeft(cfg, topo, c.address)
    ensures IsParty(topo, c) && !AllRead(cfg, topo, c.address) ==> Apply(cfg, topo, Activate(c)) == Err(BadText)
    ensures IsParty(topo, c) && AllRead(cfg, topo, c.address) && !PortLeft(cfg, topo, c.address) ==>
      Apply(cfg, topo, Activate(c)) == Err(NoFreePort)
  {
    hide Collect, IpPort, IpPortToStr, EsdxName, ShowInt, AddIface, Base, PortsOn, WithEsdx;
    if AllRead(cfg, topo, c.address) {
      var publics := Collect(PublicOf(cfg.ip6), topo.routers).value;
      var ip := cfg.router(IpPort(cfg.ip6, c.address).value.0);
      PortLeftIff(publics, ip, cfg.minPort, cfg.maxPort);
    }
  }

  lemma PortLeftIff(publics: seq<(Ip, int)>, ip: Ip, low: int, high: int)
    ensures Lowest(PortsOn(publics, ip), low) <= high <==>
      exists q :: Base(PortsOn(publics, ip), low) <= q <= high && (ip, q) !in publics
  {
    hide Base, PortsOn;
    var ports := PortsOn(publics, ip);
    forall q ensures q in ports <==> (ip, q) in publics {
      PortsOnMembers(publics, ip, q);
    }
    var port := Lowest(ports, low);
    if port <= high {
      assert Base(ports, low) <= port <= high && (ip, port) !in publics;
    }
  }

  /** With positive ids, the new one is the least positive number that none of them is. */
  lemma IdIsLeast(cfg: Config, topo: Topo, remote: string)
    requires Allocate(cfg, topo, remote).Ok?
    requires forall id <- Collect(IdOf(), topo.routers).value :: id >= 1
    ensures var id, ids := Allocate(cfg, topo, remote).value.0, Collect(IdOf(), topo.routers).value;
      id >= 1 && id !in ids && forall j :: 1 <= j < id ==> j in ids
  {
    hide Collect, IpPort, PortsOn;
    LowestFromMin(Collect(IdOf(), topo.routers).value, 1);
  }

  // ---------------------------------------------------------------- the name of the ESDX router

  lemma {:induction false} Replaced(s: string, from: char, to: char)
    ensures var r := Join(Split(s, from), to);
      |r| == |s| && forall i :: 0 <= i < |s| ==> r[i] == if s[i] == from then to else s[i]
    decreases |s|
  {
    if from in s {
      var k := Find(s, from);
      Replaced(s[k + 1..], from, to);
      var r := Join(Split(s[k + 1..], from), to);
      assert Join(Split(s, from), to) == s[..k] + [to] + r;
      assert s == s[..k] + [s[k]] + s[k + 1..];
    }
  }

  /** "br", the local AS with each colon replaced, and "-1111": so the name holds no colon. */
  lemma EsdxNameIs(isdAs: string)
    ensures var name := EsdxName(isdAs);
      && |name| == |isdAs| + 7 && name[..2] == "br" && name[|isdAs| + 2..] == "-1111" && ':' !in name
      && forall i :: 0 <= i < |isdAs| ==> name[i + 2] == if isdAs[i] == ':' then '_' else isdAs[i]
  {
    hide Split, Join;
    Replaced(isdAs, ':', '_');
  }

  // ---------------------------------------------------------------- deactivation

  lemma {:induction false} RemoveIfAt(ifs: seq<Item<Iface>>, remote: string) returns (n: nat)
    requires RemoveIf(ifs, remote).Some?
    ensures n < |ifs| && ifs[n].value.remote == remote && RemoveIf(ifs, remote).value == ifs[..n] + ifs[n + 1..]
    ensures forall i :: 0 <= i < n ==> ifs[i].value.remote != remote
  {
    if ifs[0].value.remote == remote {
      n := 0;
    } else {
      var m := RemoveIfAt(ifs[1..], remote);
      n := m + 1;
      assert ifs[..n] == [ifs[0]] + ifs[1..][..m] && ifs[n + 1..] == ifs[1..][m + 1..];
    }
  }

  lemma NoRemote(ifs: seq<Item<Iface>>, remote: string)
    requires RemoveIf(ifs, remote).None?
    ensures forall i :: 0 <= i < |ifs| ==> ifs[i].value.remote != remote
  {
    RemoveIfRemotes(ifs, remote);
    assert forall i :: 0 <= i < |ifs| ==> Remotes(ifs)[i] == ifs[i].value.remote;
  }

  /** `left` is `items` without the first item that has the remote, which stands at `n`. */
  ghost predicate TakenAt(items: seq<Item<Iface>>, remote: string, n: nat, left: seq<Item<Iface>>) {
    && n < |items| && items[n].value.remote == remote && left == items[..n] + items[n + 1..]
    && forall i :: 0 <= i < n ==> items[i].value.remote != remote
  }

  lemma TakenInFront(head: seq<Item<Iface>>, tail: seq<Item<Iface>>, remote: string, n: nat, left: seq<Item<Iface>>)
    requires TakenAt(head, remote, n, left)
    ensures TakenAt(head + tail, remote, n, left + tail)
  {
  }

  lemma TakenBehind(head: seq<Item<Iface>>, tail: seq<Item<Iface>>, remote: string, n: nat, left: seq<Item<Iface>>)
    requires TakenAt(tail, remote, n, left) && forall i :: 0 <= i < |head| ==> head[i].value.remote != remote
    ensures TakenAt(head + tail, remote, |head| + n, head + left)
  {
  }

  lemma {:induction false} RemoveFromAt(routers: seq<Item<Router>>, remote: string) returns (n: nat)
    requires RemoveFrom(routers, remote).Some?
    ensures Collect(ItemOf(), routers).Some? && Collect(ItemOf(), RemoveFrom(routers, remote).value).Some?
    ensures TakenAt(Collect(ItemOf(), routers).value, remote, n, Collect(ItemOf(), RemoveFrom(routers, remote).value).value)
  {
    hide CollectIfs, TakenAt;
    var ifs, left := routers[0].value.interfaces, RemoveFrom(routers, remote).value;
    ItemsOfIfs(ifs);
    ItemsCollect(routers[1..]);
    var rest := Collect(ItemOf(), routers[1..]).value;
    if RemoveIf(ifs, remote).Some? {
      n := RemoveIfAt(ifs, remote);
      ItemsOfIfs(RemoveIf(ifs, remote).value);
      assert left[1..] == routers[1..];
      assert TakenAt(ifs, remote, n, RemoveIf(ifs, remote).value) by {
        TakenIs(ifs, remote, n);
      }
      TakenInFront(ifs, rest, remote, n, RemoveIf(ifs, remote).value);
    } else {
      var m := RemoveFromAt(routers[1..], remote);
      NoRemote(ifs, remote);
      assert left[1..] == RemoveFrom(routers[1..], remote).value;
      TakenBehind(ifs, rest, remote, m, Collect(ItemOf(), left[1..]).value);
      n := |ifs| + m;
    }
  }

  lemma TakenIs(ifs: seq<Item<Iface>>, remote: string, n: nat)
    requires n < |ifs| && ifs[n].value.remote == remote && RemoveIf(ifs, remote) == Some(ifs[..n] + ifs[n + 1..])
    requires forall i :: 0 <= i < n ==> ifs[i].value.remote != remote
    ensures TakenAt(ifs, remote, n, RemoveIf(ifs, remote).value)
  {
  }

  lemma {:induction false} RemoveFromIff(routers: seq<Item<Router>>, remote: string, name: string)
    ensures RemoveFrom(routers, remote).Some? <==> StockRemote(routers, remote)
    ensures RemoveFrom(routers, remote).Some? ==>
      (HasKey(RemoveFrom(routers, remote).value, name) <==> HasKey(routers, name))
  {
    if StockRemote(routers, remote) {
      var k :| 0 <= k < |routers| && remote in Remotes(routers[k].value.interfaces);
      RemoveFromFinds(routers, remote, k);
    } else {
      RemoveFromStock(routers, remote);
    }
    if RemoveFrom(routers, remote).Some? {
      RemoveFromKeys(routers, remote);
      var left := RemoveFrom(routers, remote).value;
      assert forall i :: 0 <= i < |routers| ==> left[i].key == routers[i].key;
    }
  }

  lemma {:induction false} RemoveFromFinds(routers: seq<Item<Router>>, remote: string, k: nat)
    requires k < |routers| && remote in Remotes(routers[k].value.interfaces)
    ensures RemoveFrom(routers, remote).Some?
  {
    RemoveIfRemotes(routers[0].value.interfaces, remote);
    if k > 0 {
      RemoveFromFinds(routers[1..], remote, k - 1);
    }
  }

  /** A removal keeps the routers' names and internal addresses. */
  lemma {:induction false} RemoveFromKeys(routers: seq<Item<Router>>, remote: string)
    requires RemoveFrom(routers, remote).Some?
    ensures var left := RemoveFrom(routers, remote).value;
      && |left| == |routers|
      && forall i :: 0 <= i < |left| ==>
           left[i].key == routers[i].key && left[i].value.internal == routers[i].value.internal
  {
    if RemoveIf(routers[0].value.interfaces, remote).None? {
      RemoveFromKeys(routers[1..], remote);
    }
  }

  /** A deactivation succeeds exactly for a party, when some interface has the remote and the ESDX router exists. */
  lemma DeactivateSucceedsIff(cfg: Config, topo: Topo, c: Contract)
    ensures Apply(cfg, topo, Deactivate(c)).Ok? <==>
      IsParty(topo, c) && StockRemote(topo.routers, c.address) && HasKey(topo.routers, EsdxName(topo.isdAs))
    ensures IsParty(topo, c) && !StockRemote(topo.routers, c.address) ==> Apply(cfg, topo, Deactivate(c)) == Err(NotFound)
  {
    hide RemoveFrom, EsdxName, StockRemote, HasKey;
    RemoveFromIff(topo.routers, c.address, EsdxName(topo.isdAs));
  }

  /** It takes out the first interface with the contract's address, of all routers, and no other. */
  lemma DeactivationTakes(cfg: Config, topo: Topo, c: Contract) returns (n: nat)
    requires Apply(cfg, topo, Deactivate(c)).Ok?
    ensures TakenAt(Items(topo), c.address, n, Items(Apply(cfg, topo, Deactivate(c)).value))
  {
    hide TakenAt, EsdxName;
    n := RemoveFromAt(topo.routers, c.address);
    var routers := RemoveFrom(topo.routers, c.address).value;
    if |Get(routers, EsdxName(topo.isdAs)).value.interfaces| == 0 {
      DeleteCollects(ItemOf(), routers, EsdxName(topo.isdAs));
    }
  }
}
