/** Properties of every run of the reloader: what it allocates, and which contracts are active. */
module TopologyTheorems {
  import opened Outcomes
  import opened Text
  import opened Conversion
  import opened LowestFree
  import opened Topology

  // ---------------------------------------------------------------- allocation

  ghost predicate NoDup<T(!new)>(s: seq<T>) {
    forall x :: multiset(s)[x] <= 1
  }

  /** All interface ids are numbers and distinct, and all public addresses parse and are distinct. */
  ghost predicate Allocated(codec: Ip6Codec, topo: Topo) {
    var ids, publics := Collect(IdOf(), topo.routers), Collect(PublicOf(codec), topo.routers);
    ids.Some? && NoDup(ids.value) && publics.Some? && NoDup(publics.value)
  }

  /** What each public address reads as, None for one that cannot be read. */
  function ReadOf(codec: Ip6Codec): Item<Iface> -> Option<Option<(Ip, int)>> {
    (i: Item<Iface>) => Some(PublicOf(codec)(i))
  }

  function Reads(codec: Ip6Codec, topo: Topo): seq<Option<(Ip, int)>> {
    var seen := Collect(ReadOf(codec), topo.routers);
    if seen.Some? then seen.value else []
  }

  /**
   * All interface ids are numbers and distinct, all public addresses that can be read are distinct, and at
   * most one cannot be read.
   */
  ghost predicate Distinct(codec: Ip6Codec, topo: Topo) {
    var ids := Collect(IdOf(), topo.routers);
    ids.Some? && NoDup(ids.value) && NoDup(Reads(codec, topo))
  }

  ghost predicate Chosen(cfg: Config, ip: Ip) {
    exists remote :: cfg.router(remote) == ip
  }

  /** On the addresses that the reloader hands out, no port lies below its range. */
  ghost predicate PortsFromMin(cfg: Config, topo: Topo) {
    forall p :: Some(p) in Reads(cfg.ip6, topo) && Chosen(cfg, p.0) ==> p.1 >= cfg.minPort
  }

  // ---------------------------------------------------------------- reading addresses

  /** `seen` holds the values that were collected, or some of them could not be read. */
  ghost predicate ReadsAre<T(!new)>(seen: seq<Option<T>>, collected: Option<seq<T>>) {
    if collected.None? then None in seen
    else |seen| == |collected.value| && forall i :: 0 <= i < |seen| ==> seen[i] == Some(collected.value[i])
  }

  lemma {:induction false} ReadsOfIfs(codec: Ip6Codec, ifs: seq<Item<Iface>>)
    ensures CollectIfs(ReadOf(codec), ifs).Some?
    ensures ReadsAre(CollectIfs(ReadOf(codec), ifs).value, CollectIfs(PublicOf(codec), ifs))
  {
    hide IpPort;
    if |ifs| > 0 {
      ReadsOfIfs(codec, ifs[1..]);
    }
  }

  lemma {:induction false} ReadsOfRouters(codec: Ip6Codec, routers: seq<Item<Router>>)
    ensures Collect(ReadOf(codec), routers).Some?
    ensures ReadsAre(Collect(ReadOf(codec), routers).value, Collect(PublicOf(codec), routers))
  {
    hide CollectIfs;
    if |routers| > 0 {
      ReadsOfIfs(codec, routers[0].value.interfaces);
      ReadsOfRouters(codec, routers[1..]);
    }
  }

  lemma PublicIsRead(codec: Ip6Codec, topo: Topo, p: (Ip, int))
    requires Collect(PublicOf(codec), topo.routers).Some?
    ensures p in Collect(PublicOf(codec), topo.routers).value <==> Some(p) in Reads(codec, topo)
    ensures None !in Reads(codec, topo)
  {
    hide Collect;
    ReadsOfRouters(codec, topo.routers);
    var seen, publics := Reads(codec, topo), Collect(PublicOf(codec), topo.routers).value;
    if p in publics {
      var i :| 0 <= i < |publics| && publics[i] == p;
      assert seen[i] == Some(p);
    }
  }

  lemma {:induction false} NoDupOfReads<T(!new)>(seen: seq<Option<T>>, values: seq<T>)
    requires ReadsAre(seen, Some(values))
    ensures forall x :: multiset(seen)[Some(x)] == multiset(values)[x]
    ensures multiset(seen)[None] == 0
  {
    if |values| > 0 {
      var n := |values| - 1;
      NoDupOfReads(seen[..n], values[..n]);
      assert seen == seen[..n] + [seen[n]] && values == values[..n] + [values[n]];
    } else {
      assert seen == [];
    }
  }

  /** With every address readable, both forms of distinctness are the same. */
  lemma AllocatedIff(codec: Ip6Codec, topo: Topo)
    ensures Allocated(codec, topo) <==> Distinct(codec, topo) && None !in Reads(codec, topo)
    ensures None !in Reads(codec, topo) <==> Collect(PublicOf(codec), topo.routers).Some?
  {
    hide Collect;
    ReadsOfRouters(codec, topo.routers);
    var seen, publics := Reads(codec, topo), Collect(PublicOf(codec), topo.routers);
    if publics.Some? {
      NoDupOfReads(seen, publics.value);
      if NoDup(publics.value) {
        forall x: Option<(Ip, int)> ensures multiset(seen)[x] <= 1 {
          assert x.Some? ==> multiset(seen)[Some(x.value)] == multiset(publics.value)[x.value];
        }
      }
      if NoDup(seen) {
        forall x: (Ip, int) ensures multiset(publics.value)[x] <= 1 {
          assert multiset(seen)[Some(x)] == multiset(publics.value)[x];
        }
      }
    }
  }

  // ---------------------------------------------------------------- interfaces added

  lemma {:induction false} PutAppends<V>(d: seq<Item<V>>, key: string, value: V)
    requires !HasKey(d, key)
    ensures Put(d, key, value) == d + [Item(key, value)]
  {
    if |d| > 0 {
      assert forall i :: 0 <= i < |d| - 1 ==> d[1..][i] == d[i + 1];
      PutAppends(d[1..], key, value);
    }
  }

  lemma {:induction false} CollectIfsAppend<T>(f: Item<Iface> -> Option<T>, ifs: seq<Item<Iface>>, i: Item<Iface>)
    requires CollectIfs(f, ifs).Some? && f(i).Some?
    ensures CollectIfs(f, ifs + [i]) == Some(CollectIfs(f, ifs).value + [f(i).value])
  {
    if |ifs| == 0 {
      var none: seq<T> := [];
      assert ifs + [i] == [i] && [i][1..] == [];
      assert CollectIfs(f, [i][1..]) == Some(none);
      assert [f(i).value] + none == [f(i).value] == none + [f(i).value];
    } else {
      assert (ifs + [i])[1..] == ifs[1..] + [i] && (ifs + [i])[0] == ifs[0];
      CollectIfsAppend(f, ifs[1..], i);
      var rest := CollectIfs(f, ifs[1..]).value;
      assert [f(ifs[0]).value] + (rest + [f(i).value]) == [f(ifs[0]).value] + rest + [f(i).value];
    }
  }

  lemma {:induction false} KeyCollected(ifs: seq<Item<Iface>>, key: string)
    requires HasKey(ifs, key) && CollectIfs(IdOf(), ifs).Some?
    ensures ParseInt(key, 10).Some? && ParseInt(key, 10).value in CollectIfs(IdOf(), ifs).value
  {
    hide ParseInt;
    var i :| 0 <= i < |ifs| && ifs[i].key == key;
    if i > 0 {
      assert ifs[1..][i - 1].key == key;
      KeyCollected(ifs[1..], key);
    }
  }

  /** No router has an interface under the text of an id that was not collected. */
  lemma {:induction false} KeyFree(routers: seq<Item<Router>>, id: int, k: nat)
    requires Collect(IdOf(), routers).Some? && id !in Collect(IdOf(), routers).value && k < |routers|
    ensures !HasKey(routers[k].value.interfaces, ShowInt(id))
  {
    hide ShowInt, ParseInt;
    if k == 0 {
      if HasKey(routers[0].value.interfaces, ShowInt(id)) {
        KeyCollected(routers[0].value.interfaces, ShowInt(id));
        ParseOfShowInt(id);
      }
    } else {
      KeyFree(routers[1..], id, k - 1);
    }
  }

  /** Adding an interface under a free key adds exactly one collected value. */
  lemma {:induction false} AddIfaceCollects<T>(f: Item<Iface> -> Option<T>, routers: seq<Item<Router>>,
                                               name: string, key: string, iface: Iface)
    requires HasKey(routers, name) && Collect(f, routers).Some? && f(Item(key, iface)).Some?
    requires forall k :: 0 <= k < |routers| ==> !HasKey(routers[k].value.interfaces, key)
    ensures var r := Collect(f, AddIface(routers, name, key, iface));
      r.Some? && multiset(r.value) == multiset(Collect(f, routers).value) + multiset{f(Item(key, iface)).value}
  {
    var r := routers[0].value;
    var after := Collect(f, AddIface(routers, name, key, iface));
    var xs := CollectIfs(f, r.interfaces).value;
    if routers[0].key == name {
      PutAppends(r.interfaces, key, iface);
      CollectIfsAppend(f, r.interfaces, Item(key, iface));
      assert AddIface(routers, name, key, iface)[1..] == routers[1..];
    } else {
      var i :| 0 <= i < |routers| && routers[i].key == name;
      assert routers[1..][i - 1].key == name;
      assert forall k :: 0 <= k < |routers| - 1 ==> routers[1..][k] == routers[k + 1];
      AddIfaceCollects(f, routers[1..], name, key, iface);
      assert AddIface(routers, name, key, iface)[1..] == AddIface(routers[1..], name, key, iface);
    }
  }

  lemma EsdxCollects<T>(f: Item<Iface> -> Option<T>, cfg: Config, topo: Topo)
    ensures Collect(f, WithEsdx(cfg, topo)) == Collect(f, topo.routers)
    ensures HasKey(WithEsdx(cfg, topo), EsdxName(topo.isdAs))
  {
    hide EsdxName;
    var name := EsdxName(topo.isdAs);
    if !HasKey(topo.routers, name) {
      var esdx := [Item(name, Router(cfg.internal, []))];
      assert esdx[1..] == [];
      CollectConcat(f, topo.routers, esdx);
      var none: seq<T> := [];
      assert none + none == none;
      assert Collect(f, esdx) == Some(none);
      assert WithEsdx(cfg, topo)[|topo.routers|].key == name;
      if Collect(f, topo.routers).Some? {
        assert Collect(f, topo.routers).value + [] == Collect(f, topo.routers).value;
      }
    }
  }

  lemma {:induction false} PortsOnMembers(publics: seq<(Ip, int)>, ip: Ip, port: int)
    ensures port in PortsOn(publics, ip) <==> (ip, port) in publics
  {
    if |publics| > 0 {
      PortsOnMembers(publics[1..], ip, port);
      assert publics == [publics[0]] + publics[1..];
    }
  }

  /**
   * The id and the public address an activation picks are new everywhere, and its port respects the
   * range's lower end exactly when no port is missing between a lower one in use and that end.
   */
  lemma PickIsNew(cfg: Config, topo: Topo, remote: string)
    requires Allocate(cfg, topo, remote).Ok?
    ensures Collect(IdOf(), topo.routers).Some? && Collect(PublicOf(cfg.ip6), topo.routers).Some?
    ensures var (id, ip, port) := Allocate(cfg, topo, remote).value;
      var ids, publics := Collect(IdOf(), topo.routers).value, Collect(PublicOf(cfg.ip6), topo.routers).value;
      && id !in ids && (ip, port) !in publics && port <= cfg.maxPort && Chosen(cfg, ip)
      && (port >= cfg.minPort <==>
          forall q :: Base(PortsOn(publics, ip), cfg.minPort) <= q < cfg.minPort ==> (ip, q) in publics)
  {
    hide Base, PortsOn;
    var (id, ip, port) := Allocate(cfg, topo, remote).value;
    var publics := Collect(PublicOf(cfg.ip6), topo.routers).value;
    var ports := PortsOn(publics, ip);
    RespectsMinIff(ports, cfg.minPort);
    forall q ensures q in ports <==> (ip, q) in publics {
      PortsOnMembers(publics, ip, q);
    }
  }

  /** With ports of an address all at or above the lower end, so is the one picked. */
  lemma PickInRange(cfg: Config, topo: Topo, remote: string)
    requires Allocate(cfg, topo, remote).Ok? && PortsFromMin(cfg, topo)
    ensures cfg.minPort <= Allocate(cfg, topo, remote).value.2 <= cfg.maxPort
  {
    hide Base;
    PickIsNew(cfg, topo, remote);
    var (id, ip, port) := Allocate(cfg, topo, remote).value;
    var publics := Collect(PublicOf(cfg.ip6), topo.routers).value;
    var base := Base(PortsOn(publics, ip), cfg.minPort);
    PortsOnMembers(publics, ip, base);
    PublicIsRead(cfg.ip6, topo, (ip, base));
    assert base >= cfg.minPort;
  }

  /** A port that `ip_port_from_str` accepts. */
  predicate Readable(port: int) {
    0 <= port <= MAX_PORT
  }

  /** The range of public ports holds only ports that addresses can carry. */
  predicate RangeOk(cfg: Config) {
    0 <= cfg.minPort && cfg.maxPort <= MAX_PORT
  }

  lemma {:induction false} PublicPortsValid(codec: Ip6Codec, routers: seq<Item<Router>>)
    requires Collect(PublicOf(codec), routers).Some?
    ensures forall p <- Collect(PublicOf(codec), routers).value :: 0 <= p.1 <= MAX_PORT
  {
    hide IpAndTail, ParseInt;
    if |routers| > 0 {
      PublicPortsValidIfs(codec, routers[0].value.interfaces);
      PublicPortsValid(codec, routers[1..]);
    }
  }

  lemma {:induction false} PublicPortsValidIfs(codec: Ip6Codec, ifs: seq<Item<Iface>>)
    requires CollectIfs(PublicOf(codec), ifs).Some?
    ensures forall p <- CollectIfs(PublicOf(codec), ifs).value :: 0 <= p.1 <= MAX_PORT
  {
    hide IpAndTail, ParseInt;
    if |ifs| > 0 {
      PublicPortsValidIfs(codec, ifs[1..]);
    }
  }

  lemma PickIsValid(cfg: Config, topo: Topo, remote: string)
    requires RangeOk(cfg) && Allocate(cfg, topo, remote).Ok?
    ensures Readable(Allocate(cfg, topo, remote).value.2)
  {
    hide Base;
    var (id, ip, port) := Allocate(cfg, topo, remote).value;
    var publics := Collect(PublicOf(cfg.ip6), topo.routers).value;
    PublicPortsValid(cfg.ip6, topo.routers);
    var base := Base(PortsOn(publics, ip), cfg.minPort);
    PortsOnMembers(publics, ip, base);
  }

  /** The interface an activation adds. */
  function NewItem(cfg: Config, info: Info, id: int, ip: Ip, port: int): Item<Iface> {
    Item(ShowInt(id), Iface(IpPortToStr(cfg.ip6, ip, port), info.remote, info.remoteIa, info.mtu, info.linkTo))
  }

  /** Whatever is collected from all interfaces, an activation adds what the new one gives. */
  lemma ActivationCollects<T>(f: Item<Iface> -> Option<T>, cfg: Config, topo: Topo, info: Info)
    requires AddContract(cfg, topo, info).Ok? && Collect(f, topo.routers).Some?
    ensures Allocate(cfg, topo, info.remote).Ok?
    ensures var (id, ip, port) := Allocate(cfg, topo, info.remote).value;
      var item := NewItem(cfg, info, id, ip, port);
      var after := Collect(f, AddContract(cfg, topo, info).value.routers);
      f(item).Some? ==>
        after.Some? && multiset(after.value) == multiset(Collect(f, topo.routers).value) + multiset{f(item).value}
  {
    hide Allocate, EsdxName, ShowInt, ParseInt, IpPort, IpPortToStr, WithEsdx, Base, Collect;
    PickIsNew(cfg, topo, info.remote);
    var (id, ip, port) := Allocate(cfg, topo, info.remote).value;
    var item := NewItem(cfg, info, id, ip, port);
    var routers := WithEsdx(cfg, topo);
    EsdxCollects(IdOf(), cfg, topo);
    EsdxCollects(f, cfg, topo);
    forall k | 0 <= k < |routers| ensures !HasKey(routers[k].value.interfaces, ShowInt(id)) {
      KeyFree(routers, id, k);
    }
    if f(item).Some? {
      AddIfaceCollects(f, routers, EsdxName(topo.isdAs), ShowInt(id), item.value);
    }
  }

  lemma {:induction false} RemoveIfCollects<T>(f: Item<Iface> -> Option<T>, ifs: seq<Item<Iface>>, remote: string)
    requires CollectIfs(f, ifs).Some? && RemoveIf(ifs, remote).Some?
    ensures var r := CollectIfs(f, RemoveIf(ifs, remote).value);
      r.Some? && multiset(r.value) <= multiset(CollectIfs(f, ifs).value)
  {
    if ifs[0].value.remote != remote {
      RemoveIfCollects(f, ifs[1..], remote);
      assert RemoveIf(ifs, remote).value[1..] == RemoveIf(ifs[1..], remote).value;
    }
  }

  lemma {:induction false} RemoveFromCollects<T>(f: Item<Iface> -> Option<T>, routers: seq<Item<Router>>, remote: string)
    requires Collect(f, routers).Some? && RemoveFrom(routers, remote).Some?
    ensures var r := Collect(f, RemoveFrom(routers, remote).value);
      r.Some? && multiset(r.value) <= multiset(Collect(f, routers).value)
  {
    var ifs := routers[0].value.interfaces;
    var left := RemoveFrom(routers, remote).value;
    if RemoveIf(ifs, remote).Some? {
      RemoveIfCollects(f, ifs, remote);
      assert left[1..] == routers[1..];
    } else {
      RemoveFromCollects(f, routers[1..], remote);
      assert left[1..] == RemoveFrom(routers[1..], remote).value;
    }
  }

  lemma {:induction false} DeleteCollects<T>(f: Item<Iface> -> Option<T>, routers: seq<Item<Router>>, name: string)
    requires Collect(f, routers).Some? && Get(routers, name).Some? && |Get(routers, name).value.interfaces| == 0
    ensures Collect(f, Delete(routers, name)) == Collect(f, routers)
  {
    if routers[0].key == name {
      assert [] + Collect(f, routers[1..]).value == Collect(f, routers[1..]).value;
    } else {
      DeleteCollects(f, routers[1..], name);
      assert Delete(routers, name)[1..] == Delete(routers[1..], name);
    }
  }

  lemma DeactivationCollects<T>(f: Item<Iface> -> Option<T>, topo: Topo, info: Info)
    requires Collect(f, topo.routers).Some? && RemoveContract(topo, info).Ok?
    ensures var r := Collect(f, RemoveContract(topo, info).value.routers);
      r.Some? && multiset(r.value) <= multiset(Collect(f, topo.routers).value)
  {
    hide EsdxName;
    RemoveFromCollects(f, topo.routers, info.remote);
    var routers := RemoveFrom(topo.routers, info.remote).value;
    if |Get(routers, EsdxName(topo.isdAs)).value.interfaces| == 0 {
      DeleteCollects(f, routers, EsdxName(topo.isdAs));
    }
  }

  lemma NewIsNoDup<T(!new)>(s: seq<T>, s': seq<T>, x: T)
    requires NoDup(s) && x !in s && multiset(s') == multiset(s) + multiset{x}
    ensures NoDup(s')
  {
    assert x !in multiset(s);
  }

  lemma LessIsNoDup<T(!new)>(s: seq<T>, s': seq<T>)
    requires NoDup(s) && multiset(s') <= multiset(s)
    ensures NoDup(s')
  {
  }

  /** What a new address reads as: a port out of range makes it unreadable. */
  function ReadBack(ip: Ip, port: int): Option<(Ip, int)> {
    if Readable(port) then Some((ip, port)) else None
  }

  lemma ActivationReads(cfg: Config, topo: Topo, info: Info)
    requires Lawful6(cfg.ip6) && AddContract(cfg, topo, info).Ok?
    ensures Allocate(cfg, topo, info.remote).Ok? && Collect(IdOf(), topo.routers).Some?
    ensures var topo' := AddContract(cfg, topo, info).value;
      var (id, ip, port) := Allocate(cfg, topo, info.remote).value;
      var ids, ids' := Collect(IdOf(), topo.routers), Collect(IdOf(), topo'.routers);
      && id !in ids.value && ids'.Some? && multiset(ids'.value) == multiset(ids.value) + multiset{id}
      && ReadBack(ip, port) !in Reads(cfg.ip6, topo)
      && multiset(Reads(cfg.ip6, topo')) == multiset(Reads(cfg.ip6, topo)) + multiset{ReadBack(ip, port)}
  {
    hide Allocate, AddContract, ShowInt, ParseInt, IpPort, IpPortToStr, Base, Collect;
    AllocateOfAdd(cfg, topo, info);
    PickIsNew(cfg, topo, info.remote);
    var (id, ip, port) := Allocate(cfg, topo, info.remote).value;
    var item := NewItem(cfg, info, id, ip, port);
    ParseOfShowInt(id);
    IpPortRoundTripIff(cfg.ip6, ip, port);
    ReadsOfRouters(cfg.ip6, topo.routers);
    PublicIsRead(cfg.ip6, topo, (ip, port));
    assert IdOf()(item) == Some(id) && ReadOf(cfg.ip6)(item) == Some(ReadBack(ip, port));
    ActivationCollects(IdOf(), cfg, topo, info);
    ActivationCollects(ReadOf(cfg.ip6), cfg, topo, info);
  }

  /** For every configuration, one operation keeps ids and readable addresses distinct. */
  lemma ApplyKeepsDistinct(cfg: Config, topo: Topo, op: Op)
    requires Lawful6(cfg.ip6) && Distinct(cfg.ip6, topo) && Apply(cfg, topo, op).Ok?
    ensures Distinct(cfg.ip6, Apply(cfg, topo, op).value)
    ensures PortsFromMin(cfg, topo) ==> PortsFromMin(cfg, Apply(cfg, topo, op).value)
  {
    hide Allocate, AddContract, RemoveContract, Collect, Reads, ReadOf, Readable;
    var info, topo' := InfoOf(topo, op.c).value, Apply(cfg, topo, op).value;
    var seen, seen' := Reads(cfg.ip6, topo), Reads(cfg.ip6, topo');
    var ids := Collect(IdOf(), topo.routers).value;
    if op.Activate? {
      ActivationReads(cfg, topo, info);
      var (id, ip, port) := Allocate(cfg, topo, info.remote).value;
      NewIsNoDup(ids, Collect(IdOf(), topo'.routers).value, id);
      NewIsNoDup(seen, seen', ReadBack(ip, port));
      if PortsFromMin(cfg, topo) {
        PickInRange(cfg, topo, info.remote);
        forall p: (Ip, int) | Some(p) in seen' && Chosen(cfg, p.0) ensures p.1 >= cfg.minPort {
          assert Some(p) in multiset(seen') && (Some(p) in multiset(seen) || Some(p) == ReadBack(ip, port));
        }
      }
    } else {
      DeactivationReads(cfg.ip6, topo, info);
      DeactivationCollects(IdOf(), topo, info);
      LessIsNoDup(ids, Collect(IdOf(), topo'.routers).value);
      LessIsNoDup(seen, seen');
    }
  }

  lemma DeactivationReads(codec: Ip6Codec, topo: Topo, info: Info)
    requires RemoveContract(topo, info).Ok?
    ensures var seen, seen' := Reads(codec, topo), Reads(codec, RemoveContract(topo, info).value);
      multiset(seen') <= multiset(seen) && forall x :: x in seen' ==> x in seen
  {
    hide RemoveContract, Collect;
    ReadsOfRouters(codec, topo.routers);
    DeactivationCollects(ReadOf(codec), topo, info);
    var seen, seen' := Reads(codec, topo), Reads(codec, RemoveContract(topo, info).value);
    forall x | x in seen' ensures x in seen {
      assert x in multiset(seen') && x in multiset(seen);
    }
  }

  /**
   * The local address towards the contract's remote has a port left that can be read back: one not in use,
   * from the lower end on, or from the lowest port in use when that is smaller.
   */
  ghost predicate ReadablePortLeft(cfg: Config, topo: Topo, remote: string) {
    var publics, target := Collect(PublicOf(cfg.ip6), topo.routers), IpPort(cfg.ip6, remote);
    && cfg.minPort >= 0 && publics.Some? && target.Some?
    && (var ip := cfg.router(target.value.0);
        exists q :: Base(PortsOn(publics.value, ip), cfg.minPort) <= q <= MAX_PORT && (ip, q) !in publics.value)
  }

  lemma PickIsReadableIff(cfg: Config, topo: Topo, remote: string)
    requires Allocate(cfg, topo, remote).Ok?
    ensures Readable(Allocate(cfg, topo, remote).value.2) <==> ReadablePortLeft(cfg, topo, remote)
  {
    hide Base, PortsOn, IpPort, Collect;
    var (id, ip, port) := Allocate(cfg, topo, remote).value;
    var publics := Collect(PublicOf(cfg.ip6), topo.routers).value;
    var ports := PortsOn(publics, ip);
    var base := Base(ports, cfg.minPort);
    PublicPortsValid(cfg.ip6, topo.routers);
    forall q ensures q in ports <==> (ip, q) in publics {
      PortsOnMembers(publics, ip, q);
    }
    if Readable(port) {
      assert base <= port <= MAX_PORT && (ip, port) !in publics;
    }
  }

  /**
   * One operation keeps ids and public addresses distinct and readable, an activation exactly when a port is
   * left that can be read back.
   */
  lemma ApplyKeepsAllocated(cfg: Config, topo: Topo, op: Op)
    requires Lawful6(cfg.ip6) && Allocated(cfg.ip6, topo) && Apply(cfg, topo, op).Ok?
    ensures Allocated(cfg.ip6, Apply(cfg, topo, op).value) <==>
      (op.Activate? ==> ReadablePortLeft(cfg, topo, op.c.address))
  {
    hide Allocate, AddContract, RemoveContract, Collect, Reads, Readable, Distinct, Allocated, ReadablePortLeft;
    var info, topo' := InfoOf(topo, op.c).value, Apply(cfg, topo, op).value;
    AllocatedIff(cfg.ip6, topo);
    AllocatedIff(cfg.ip6, topo');
    ApplyKeepsDistinct(cfg, topo, op);
    if op.Activate? {
      ActivationReads(cfg, topo, info);
      var (id, ip, port) := Allocate(cfg, topo, info.remote).value;
      assert None in Reads(cfg.ip6, topo') <==> None in multiset(Reads(cfg.ip6, topo'));
      PickIsReadableIff(cfg, topo, info.remote);
    } else {
      DeactivationReads(cfg.ip6, topo, info);
    }
  }

  lemma AllocateOfAdd(cfg: Config, topo: Topo, info: Info)
    requires AddContract(cfg, topo, info).Ok?
    ensures Allocate(cfg, topo, info.remote).Ok?
  {
  }

  /**
   * From distinct ids and public addresses, and for every configuration, every run keeps ids and readable
   * addresses distinct and ports at or above the lower end. A range of ports that can be read back suffices
   * for all addresses to stay readable.
   */
  lemma {:induction false} RunKeepsAllocated(cfg: Config, topo: Topo, ops: seq<Op>)
    requires Lawful6(cfg.ip6) && Allocated(cfg.ip6, topo)
    ensures Distinct(cfg.ip6, Run(cfg, topo, ops))
    ensures PortsFromMin(cfg, topo) ==> PortsFromMin(cfg, Run(cfg, topo, ops))
    ensures RangeOk(cfg) ==> Allocated(cfg.ip6, Run(cfg, topo, ops))
  {
    hide AddContract, RemoveContract, Allocate, Allocated, Distinct, PortsFromMin, RangeOk, Readable, ReadablePortLeft;
    AllocatedIff(cfg.ip6, topo);
    if |ops| > 0 {
      var init, op := ops[..|ops| - 1], ops[|ops| - 1];
      RunKeepsAllocated(cfg, topo, init);
      var before := Run(cfg, topo, init);
      if Apply(cfg, before, op).Ok? {
        ApplyKeepsDistinct(cfg, before, op);
        if RangeOk(cfg) {
          ApplyKeepsAllocated(cfg, before, op);
          if op.Activate? {
            AllocateOfAdd(cfg, before, InfoOf(before, op.c).value);
            PickIsValid(cfg, before, op.c.address);
            PickIsReadableIff(cfg, before, op.c.address);
          }
        }
      }
    }
  }

  // ---------------------------------------------------------------- a port that cannot be read back

  function ItemOf(): Item<Iface> -> Option<Item<Iface>> {
    (i: Item<Iface>) => Some(i)
  }

  lemma {:induction false} ItemsOfIfs(ifs: seq<Item<Iface>>)
    ensures CollectIfs(ItemOf(), ifs) == Some(ifs)
  {
    if |ifs| > 0 {
      ItemsOfIfs(ifs[1..]);
      assert ifs == [ifs[0]] + ifs[1..];
    }
  }

  lemma {:induction false} ItemsCollect(routers: seq<Item<Router>>)
    ensures Collect(ItemOf(), routers).Some?
  {
    if |routers| > 0 {
      ItemsOfIfs(routers[0].value.interfaces);
      ItemsCollect(routers[1..]);
    }
  }

  function Items(topo: Topo): seq<Item<Iface>> {
    var items := Collect(ItemOf(), topo.routers);
    if items.Some? then items.value else []
  }

  lemma {:induction false} UnreadableIfs(codec: Ip6Codec, ifs: seq<Item<Iface>>, item: Item<Iface>)
    requires item in ifs && PublicOf(codec)(item).None?
    ensures CollectIfs(PublicOf(codec), ifs).None?
  {
    hide IpPort;
    if ifs[0] != item {
      UnreadableIfs(codec, ifs[1..], item);
    }
  }

  /** An interface whose public address does not read makes the scan of all interfaces raise. */
  lemma {:induction false} UnreadableRaises(codec: Ip6Codec, routers: seq<Item<Router>>, item: Item<Iface>)
    requires Collect(ItemOf(), routers).Some? && item in Collect(ItemOf(), routers).value && PublicOf(codec)(item).None?
    ensures Collect(PublicOf(codec), routers).None?
  {
    hide IpPort, CollectIfs;
    ItemsOfIfs(routers[0].value.interfaces);
    if item in routers[0].value.interfaces {
      UnreadableIfs(codec, routers[0].value.interfaces, item);
    } else {
      UnreadableRaises(codec, routers[1..], item);
    }
  }

  lemma {:induction false} RemoveIfTakes(ifs: seq<Item<Iface>>, remote: string) returns (taken: Item<Iface>)
    requires RemoveIf(ifs, remote).Some?
    ensures taken.value.remote == remote && multiset(ifs) == multiset(RemoveIf(ifs, remote).value) + multiset{taken}
  {
    assert ifs == [ifs[0]] + ifs[1..];
    if ifs[0].value.remote == remote {
      taken := ifs[0];
    } else {
      taken := RemoveIfTakes(ifs[1..], remote);
      assert RemoveIf(ifs, remote).value == [ifs[0]] + RemoveIf(ifs[1..], remote).value;
    }
  }

  /** A removal keeps every interface with another remote. */
  lemma {:induction false} RemoveFromKeeps(routers: seq<Item<Router>>, remote: string, item: Item<Iface>)
    requires RemoveFrom(routers, remote).Some? && item.value.remote != remote
    requires Collect(ItemOf(), routers).Some? && item in Collect(ItemOf(), routers).value
    ensures Collect(ItemOf(), RemoveFrom(routers, remote).value).Some?
    ensures item in Collect(ItemOf(), RemoveFrom(routers, remote).value).value
  {
    hide CollectIfs;
    var ifs, left := routers[0].value.interfaces, RemoveFrom(routers, remote).value;
    ItemsOfIfs(ifs);
    if RemoveIf(ifs, remote).Some? {
      var taken := RemoveIfTakes(ifs, remote);
      ItemsOfIfs(RemoveIf(ifs, remote).value);
      assert left[1..] == routers[1..];
      if item in ifs {
        assert item in multiset(ifs) && item in multiset(RemoveIf(ifs, remote).value);
      }
    } else {
      assert left[1..] == RemoveFrom(routers[1..], remote).value;
      if item in ifs {
        ItemsCollect(left[1..]);
      } else {
        RemoveFromKeeps(routers[1..], remote, item);
      }
    }
  }

  lemma DeactivationKeeps(topo: Topo, info: Info, item: Item<Iface>)
    requires RemoveContract(topo, info).Ok? && item in Items(topo) && item.value.remote != info.remote
    ensures item in Items(RemoveContract(topo, info).value)
  {
    hide EsdxName;
    RemoveFromKeeps(topo.routers, info.remote, item);
    var routers := RemoveFrom(topo.routers, info.remote).value;
    if |Get(routers, EsdxName(topo.isdAs)).value.interfaces| == 0 {
      DeleteCollects(ItemOf(), routers, EsdxName(topo.isdAs));
    }
  }

  /** No activation gets past an interface whose public address does not read. */
  lemma UnreadableBlocks(cfg: Config, topo: Topo, item: Item<Iface>, c: Contract)
    requires item in Items(topo) && PublicOf(cfg.ip6)(item).None?
    ensures Apply(cfg, topo, Activate(c)).Err?
  {
    UnreadableRaises(cfg.ip6, topo.routers, item);
  }

  lemma {:induction false} BlockedWhileActive(cfg: Config, topo: Topo, item: Item<Iface>, ops: seq<Op>)
    requires item in Items(topo) && PublicOf(cfg.ip6)(item).None?
    requires forall op <- ops :: op.Deactivate? ==> op.c.address != item.value.remote
    ensures item in Items(Run(cfg, topo, ops))
  {
    hide PublicOf, Items, RemoveContract, AddContract;
    if |ops| > 0 {
      var init, op := ops[..|ops| - 1], ops[|ops| - 1];
      BlockedWhileActive(cfg, topo, item, init);
      var before := Run(cfg, topo, init);
      if op.Activate? {
        UnreadableBlocks(cfg, before, item, op.c);
      } else if Apply(cfg, before, op).Ok? {
        DeactivationKeeps(before, InfoOf(before, op.c).value, item);
      }
    }
  }

  /**
   * When an activation picks a port that cannot be read back, every later activation fails until that
   * contract's address is deactivated.
   */
  lemma UnreadablePortBlocks(cfg: Config, topo: Topo, c: Contract, ops: seq<Op>, later: Contract)
    requires Lawful6(cfg.ip6) && Apply(cfg, topo, Activate(c)).Ok?
    requires Allocate(cfg, topo, c.address).Ok? && !Readable(Allocate(cfg, topo, c.address).value.2)
    requires forall op <- ops :: op.Deactivate? ==> op.c.address != c.address
    ensures Apply(cfg, Run(cfg, Apply(cfg, topo, Activate(c)).value, ops), Activate(later)).Err?
  {
    hide Allocate, AddContract, Run, Collect, ShowInt, IpPort, IpPortToStr;
    var info, topo' := InfoOf(topo, c).value, Apply(cfg, topo, Activate(c)).value;
    var (id, ip, port) := Allocate(cfg, topo, info.remote).value;
    var item := NewItem(cfg, info, id, ip, port);
    IpPortRoundTripIff(cfg.ip6, ip, port);
    ItemsCollect(topo.routers);
    ActivationCollects(ItemOf(), cfg, topo, info);
    assert item in multiset(Items(topo'));
    BlockedWhileActive(cfg, topo', item, ops);
    UnreadableBlocks(cfg, Run(cfg, topo', ops), item, later);
  }

  /** A configured range beyond 65534 breaks an empty topology with its first contract. */
  lemma LargePortIsUnreadable(codec: Ip6Codec, remote: Ip) returns (cfg: Config, topo: Topo, c: Contract)
    requires Lawful6(codec)
    ensures cfg.minPort == cfg.maxPort == 70000 && topo.routers == []
    ensures cfg.ip6 == codec && Allocated(codec, topo) && Apply(cfg, topo, Activate(c)).Ok?
    ensures !Allocated(codec, Apply(cfg, topo, Activate(c)).value)
  {
    hide IpPort, IpPortToStr, Distinct, Reads, AddIface, EsdxName;
    cfg := Config(codec, "", ip => ip, 70000, 70000);
    topo := Topo("1-1", []);
    c := Contract("1-1", "1-2", IpPortToStr(codec, remote, 1), 1000, "CORE");
    IpPortRoundTrip(codec, remote, 1);
    FirstMissingIs([], 70000, 70000);
    assert Allocate(cfg, topo, c.address) == Ok((1, remote, 70000)) by {
      FirstMissingIs([], 1, 1);
    }
    PickIsReadableIff(cfg, topo, c.address);
    ApplyKeepsAllocated(cfg, topo, Activate(c));
  }

  // ---------------------------------------------------------------- the active contracts

  function Remotes(ifs: seq<Item<Iface>>): seq<string> {
    seq(|ifs|, i requires 0 <= i < |ifs| => ifs[i].value.remote)
  }

  ghost predicate StockRemote(routers: seq<Item<Router>>, remote: string) {
    exists k :: 0 <= k < |routers| && remote in Remotes(routers[k].value.interfaces)
  }

  /**
   * The stored topology for a list of active contract addresses: the stock topology alone when there is
   * none, and otherwise followed by one ESDX router whose remotes are exactly those addresses.
   */
  ghost predicate Refines(cfg: Config, stock: Topo, active: seq<string>, topo: Topo) {
    var n := |stock.routers|;
    && topo.isdAs == stock.isdAs
    && (|active| == 0 ==> topo == stock)
    && (|active| > 0 ==>
        |topo.routers| == n + 1 && topo.routers[..n] == stock.routers
        && topo.routers[n].key == EsdxName(stock.isdAs) && topo.routers[n].value.internal == cfg.internal
        && Remotes(topo.routers[n].value.interfaces) == active)
  }

  /** A list without the first occurrence of an element. */
  function Without(s: seq<string>, x: string): seq<string> {
    if |s| == 0 then []
    else if s[0] == x then s[1..]
    else [s[0]] + Without(s[1..], x)
  }

  function ActiveAfter(active: seq<string>, op: Op): seq<string> {
    match op
    case Activate(c) => active + [c.address]
    case Deactivate(c) => Without(active, c.address)
  }

  lemma {:induction false} AddIfaceAtEnd(stock: seq<Item<Router>>, esdx: Item<Router>, key: string, iface: Iface)
    requires !HasKey(stock, esdx.key)
    ensures AddIface(stock + [esdx], esdx.key, key, iface) ==
      stock + [Item(esdx.key, esdx.value.(interfaces := Put(esdx.value.interfaces, key, iface)))]
  {
    if |stock| == 0 {
      assert stock + [esdx] == [esdx];
    } else {
      assert (stock + [esdx])[1..] == stock[1..] + [esdx];
      assert forall i :: 0 <= i < |stock| - 1 ==> stock[1..][i] == stock[i + 1];
      AddIfaceAtEnd(stock[1..], esdx, key, iface);
    }
  }

  lemma {:induction false} RemoveIfRemotes(ifs: seq<Item<Iface>>, remote: string)
    ensures RemoveIf(ifs, remote).Some? <==> remote in Remotes(ifs)
    ensures RemoveIf(ifs, remote).Some? ==> Remotes(RemoveIf(ifs, remote).value) == Without(Remotes(ifs), remote)
  {
    if |ifs| > 0 {
      assert Remotes(ifs) == [ifs[0].value.remote] + Remotes(ifs[1..]);
      RemoveIfRemotes(ifs[1..], remote);
    }
  }

  lemma {:induction false} RemoveFromEnd(stock: seq<Item<Router>>, esdx: Item<Router>, remote: string)
    requires !StockRemote(stock, remote)
    ensures RemoveFrom(stock + [esdx], remote) == (
      match RemoveIf(esdx.value.interfaces, remote)
      case Some(ifs) => Some(stock + [Item(esdx.key, esdx.value.(interfaces := ifs))])
      case None => None)
  {
    if |stock| == 0 {
      var none: seq<Item<Router>> := [];
      assert stock + [esdx] == [esdx] && [esdx][1..] == none;
      match RemoveIf(esdx.value.interfaces, remote)
      case None =>
      case Some(ifs) =>
        var left := Item(esdx.key, esdx.value.(interfaces := ifs));
        assert [left] + none == [left] == stock + [left];
    } else {
      assert (stock + [esdx])[1..] == stock[1..] + [esdx];
      assert forall i :: 0 <= i < |stock| - 1 ==> stock[1..][i] == stock[i + 1];
      assert (stock + [esdx])[0] == stock[0];
      assert remote !in Remotes(stock[0].value.interfaces);
      RemoveIfRemotes(stock[0].value.interfaces, remote);
      RemoveFromEnd(stock[1..], esdx, remote);
      match RemoveIf(esdx.value.interfaces, remote)
      case None =>
      case Some(ifs) =>
        var left := Item(esdx.key, esdx.value.(interfaces := ifs));
        assert [stock[0]] + (stock[1..] + [left]) == stock + [left];
    }
  }

  lemma {:induction false} RemoveFromStock(stock: seq<Item<Router>>, remote: string)
    requires !StockRemote(stock, remote)
    ensures RemoveFrom(stock, remote) == None
  {
    if |stock| > 0 {
      assert forall i :: 0 <= i < |stock| - 1 ==> stock[1..][i] == stock[i + 1];
      RemoveIfRemotes(stock[0].value.interfaces, remote);
      RemoveFromStock(stock[1..], remote);
    }
  }

  lemma {:induction false} LastOfKey<V>(d: seq<Item<V>>, last: Item<V>)
    requires !HasKey(d, last.key)
    ensures Get(d + [last], last.key) == Some(last.value) && Delete(d + [last], last.key) == d
  {
    if |d| == 0 {
      assert d + [last] == [last];
    } else {
      assert (d + [last])[1..] == d[1..] + [last];
      assert forall i :: 0 <= i < |d| - 1 ==> d[1..][i] == d[i + 1];
      LastOfKey(d[1..], last);
    }
  }

  /** The stock topology has no ESDX router, and no interface to the address of the contract. */
  ghost predicate Separate(stock: Topo, c: Contract) {
    !HasKey(stock.routers, EsdxName(stock.isdAs)) && !StockRemote(stock.routers, c.address)
  }

  /** The ESDX router, there already or created, comes right after the stock routers. */
  lemma EsdxAtEnd(cfg: Config, stock: Topo, active: seq<string>, topo: Topo) returns (esdx: Item<Router>)
    requires Refines(cfg, stock, active, topo) && !HasKey(stock.routers, EsdxName(stock.isdAs))
    ensures WithEsdx(cfg, topo) == stock.routers + [esdx]
    ensures esdx.key == EsdxName(stock.isdAs) && esdx.value.internal == cfg.internal
    ensures Remotes(esdx.value.interfaces) == active
  {
    hide EsdxName;
    var n := |stock.routers|;
    if |active| > 0 {
      esdx := topo.routers[n];
      assert topo.routers == stock.routers + [esdx];
    } else {
      esdx := Item(EsdxName(stock.isdAs), Router(cfg.internal, []));
    }
  }

  lemma ActivateRefines(cfg: Config, stock: Topo, active: seq<string>, topo: Topo, info: Info)
    requires Refines(cfg, stock, active, topo) && !HasKey(stock.routers, EsdxName(stock.isdAs))
    requires AddContract(cfg, topo, info).Ok?
    ensures Refines(cfg, stock, active + [info.remote], AddContract(cfg, topo, info).value)
  {
    hide Allocate, EsdxName, ShowInt, IpPortToStr, Base, AddIface, Put, Collect, HasKey, WithEsdx;
    AllocateOfAdd(cfg, topo, info);
    PickIsNew(cfg, topo, info.remote);
    var (id, ip, port) := Allocate(cfg, topo, info.remote).value;
    var iface := Iface(IpPortToStr(cfg.ip6, ip, port), info.remote, info.remoteIa, info.mtu, info.linkTo);
    var esdx := EsdxAtEnd(cfg, stock, active, topo);
    EsdxCollects(IdOf(), cfg, topo);
    KeyFree(WithEsdx(cfg, topo), id, |stock.routers|);
    PutAppends(esdx.value.interfaces, ShowInt(id), iface);
    AddIfaceAtEnd(stock.routers, esdx, ShowInt(id), iface);
    var ifs := esdx.value.interfaces + [Item(ShowInt(id), iface)];
    assert Remotes(ifs) == active + [info.remote];
  }

  // ---------------------------------------------------------------- what one activation writes

  /** The interface of a contract: new id and address, and the other party of the contract behind it. */
  ghost predicate IsIfaceOf(cfg: Config, topo: Topo, c: Contract, item: Item<Iface>) {
    && Allocate(cfg, topo, c.address).Ok?
    && (var (id, ip, port) := Allocate(cfg, topo, c.address).value;
        && ParseInt(item.key, 10) == Some(id) && item.value.public == IpPortToStr(cfg.ip6, ip, port)
        && (IpPort(cfg.ip6, item.value.public) == Some((ip, port)) <==> Readable(port)))
    && item.value.remote == c.address && item.value.mtu == c.mtu && item.value.linkTo == c.linkTo
    && (item.value.isdAs == if topo.isdAs == c.seller then c.buyer else c.seller)
  }

  lemma {:induction false} AddIfaceGets(routers: seq<Item<Router>>, name: string, key: string, iface: Iface)
    requires HasKey(routers, name)
    requires forall k :: 0 <= k < |routers| ==> !HasKey(routers[k].value.interfaces, key)
    ensures var r, old' := AddIface(routers, name, key, iface), Get(routers, name).value;
      && |r| == |routers| && Get(r, name) == Some(old'.(interfaces := old'.interfaces + [Item(key, iface)]))
      && forall k :: 0 <= k < |r| ==> r[k].key == routers[k].key && (r[k].key != name ==> r[k] == routers[k])
  {
    if routers[0].key == name {
      PutAppends(routers[0].value.interfaces, key, iface);
    } else {
      AddIfaceGets(routers[1..], name, key, iface);
    }
  }

  /**
   * A successful activation appends exactly one interface, that of the contract, to the ESDX router,
   * created empty at the end if it was missing, and leaves every other router as it was.
   */
  lemma ActivationAdds(cfg: Config, topo: Topo, c: Contract) returns (item: Item<Iface>)
    requires Lawful6(cfg.ip6) && Apply(cfg, topo, Op.Activate(c)).Ok?
    ensures topo.isdAs == c.seller || topo.isdAs == c.buyer
    ensures IsIfaceOf(cfg, topo, c, item)
    ensures var topo', name := Apply(cfg, topo, Op.Activate(c)).value, EsdxName(topo.isdAs);
      var before := Get(topo.routers, name);
      var router := if before.Some? then before.value else Router(cfg.internal, []);
      && topo'.isdAs == topo.isdAs
      && |topo'.routers| == |topo.routers| + (if before.Some? then 0 else 1)
      && (forall k :: 0 <= k < |topo.routers| && topo.routers[k].key != name ==> topo'.routers[k] == topo.routers[k])
      && Get(topo'.routers, name) == Some(router.(interfaces := router.interfaces + [item]))
  {
    hide IpPort, IpPortToStr, EsdxName, Lowest, ParseInt, ShowInt, PortsOn, AddIface, Get, Collect;
    var name, info := EsdxName(topo.isdAs), InfoOf(topo, c).value;
    var (id, ip, port) := Allocate(cfg, topo, info.remote).value;
    item := NewItem(cfg, info, id, ip, port);
    IpPortRoundTripIff(cfg.ip6, ip, port);
    ParseOfShowInt(id);
    PickIsNew(cfg, topo, info.remote);
    var routers := WithEsdx(cfg, topo);
    EsdxCollects(IdOf(), cfg, topo);
    forall k | 0 <= k < |routers| ensures !HasKey(routers[k].value.interfaces, ShowInt(id)) {
      KeyFree(routers, id, k);
    }
    AddIfaceGets(routers, name, ShowInt(id), item.value);
    if !HasKey(topo.routers, name) {
      LastOfKey(topo.routers, Item(name, Router(cfg.internal, [])));
    }
  }

  lemma DeactivateRefines(cfg: Config, stock: Topo, active: seq<string>, topo: Topo, info: Info)
    requires Refines(cfg, stock, active, topo) && !HasKey(stock.routers, EsdxName(stock.isdAs))
    requires !StockRemote(stock.routers, info.remote)
    ensures RemoveContract(topo, info).Ok? <==> info.remote in active
    ensures info.remote in active ==> Refines(cfg, stock, Without(active, info.remote), RemoveContract(topo, info).value)
  {
    hide EsdxName;
    var n, name := |stock.routers|, EsdxName(stock.isdAs);
    if |active| == 0 {
      RemoveFromStock(stock.routers, info.remote);
    } else {
      var esdx := topo.routers[n];
      assert topo.routers == stock.routers + [esdx];
      RemoveFromEnd(stock.routers, esdx, info.remote);
      RemoveIfRemotes(esdx.value.interfaces, info.remote);
      if info.remote in active {
        var ifs := RemoveIf(esdx.value.interfaces, info.remote).value;
        var left := Item(name, esdx.value.(interfaces := ifs));
        LastOfKey(stock.routers, left);
        assert |Remotes(ifs)| == |ifs|;
        var r := RemoveContract(topo, info).value;
        if |ifs| == 0 {
          assert r.routers == stock.routers;
        } else {
          assert r.routers == stock.routers + [left];
        }
      }
    }
  }

  lemma ApplyRefines(cfg: Config, stock: Topo, active: seq<string>, topo: Topo, op: Op)
    requires Refines(cfg, stock, active, topo) && Separate(stock, op.c)
    ensures Apply(cfg, topo, op).Ok? ==> Refines(cfg, stock, ActiveAfter(active, op), Apply(cfg, topo, op).value)
    ensures op.Deactivate? ==> (Apply(cfg, topo, op).Ok? <==> IsParty(stock, op.c) && op.c.address in active)
  {
    hide AddContract, RemoveContract, StockRemote, HasKey, EsdxName, Without;
    assert topo.isdAs == stock.isdAs;
    var info := InfoOf(topo, op.c);
    if info.Ok? {
      assert info.value.remote == op.c.address;
      if op.Activate? {
        if AddContract(cfg, topo, info.value).Ok? {
          ActivateRefines(cfg, stock, active, topo, info.value);
        }
      } else {
        DeactivateRefines(cfg, stock, active, topo, info.value);
      }
    }
  }

  /** The addresses active after a run: each successful call adds or removes one. */
  ghost function Active(cfg: Config, stock: Topo, ops: seq<Op>): seq<string> {
    if |ops| == 0 then []
    else
      var init, op := ops[..|ops| - 1], ops[|ops| - 1];
      var active := Active(cfg, stock, init);
      if Apply(cfg, Run(cfg, stock, init), op).Ok? then ActiveAfter(active, op) else active
  }

  /** After any run the stored topology is the stock one plus exactly the active contracts. */
  lemma {:induction false} ActiveSet(cfg: Config, stock: Topo, ops: seq<Op>)
    requires forall op <- ops :: Separate(stock, op.c)
    ensures Refines(cfg, stock, Active(cfg, stock, ops), Run(cfg, stock, ops))
  {
    hide Apply, Refines, Separate;
    if |ops| > 0 {
      var init := ops[..|ops| - 1];
      ActiveSet(cfg, stock, init);
      ApplyRefines(cfg, stock, Active(cfg, stock, init), Run(cfg, stock, init), ops[|ops| - 1]);
    } else {
      RefinesStock(cfg, stock);
    }
  }

  lemma RefinesStock(cfg: Config, stock: Topo)
    ensures Refines(cfg, stock, [], stock)
  {
  }

  function Addresses(cs: seq<Contract>): seq<string> {
    seq(|cs|, i requires 0 <= i < |cs| => cs[i].address)
  }

  function Deactivations(cs: seq<Contract>): seq<Op> {
    seq(|cs|, i requires 0 <= i < |cs| => Op.Deactivate(cs[i]))
  }

  lemma {:induction false} WithoutMultiset(s: seq<string>, x: string)
    requires x in s
    ensures multiset(Without(s, x)) == multiset(s) - multiset{x}
  {
    assert s == [s[0]] + s[1..];
    if s[0] != x {
      WithoutMultiset(s[1..], x);
    }
  }

  /** `left` is what remains active when the contracts are taken out. */
  ghost predicate Remaining(active: seq<string>, cs: seq<Contract>, left: seq<string>) {
    multiset(left) == multiset(active) - multiset(Addresses(cs))
  }

  lemma RunStep(cfg: Config, topo: Topo, ops: seq<Op>, op: Op)
    ensures var before := Run(cfg, topo, ops);
      Run(cfg, topo, ops + [op]) == if Apply(cfg, before, op).Ok? then Apply(cfg, before, op).value else before
  {
    hide Apply;
    assert (ops + [op])[..|ops|] == ops;
  }

  /** One more deactivation. */
  lemma DeactivateOne(cfg: Config, stock: Topo, active: seq<string>, topo: Topo, cs: seq<Contract>, c: Contract,
                      rest: seq<string>)
    requires Separate(stock, c) && IsParty(stock, c)
    requires multiset(Addresses(cs + [c])) <= multiset(active) && Remaining(active, cs, rest)
    requires Refines(cfg, stock, rest, Run(cfg, topo, Deactivations(cs)))
    ensures Remaining(active, cs + [c], Without(rest, c.address))
    ensures Refines(cfg, stock, Without(rest, c.address), Run(cfg, topo, Deactivations(cs + [c])))
  {
    hide Apply, Separate, IsParty, Refines, Without, Run, Remaining, Addresses;
    OneMoreRemains(active, cs, c, rest);
    assert Deactivations(cs + [c]) == Deactivations(cs) + [Op.Deactivate(c)];
    RunStep(cfg, topo, Deactivations(cs), Op.Deactivate(c));
    ApplyRefines(cfg, stock, rest, Run(cfg, topo, Deactivations(cs)), Op.Deactivate(c));
  }

  lemma OneMoreRemains(active: seq<string>, cs: seq<Contract>, c: Contract, rest: seq<string>)
    requires multiset(Addresses(cs + [c])) <= multiset(active) && Remaining(active, cs, rest)
    ensures c.address in rest && Remaining(active, cs + [c], Without(rest, c.address))
  {
    hide Without;
    assert Addresses(cs + [c]) == Addresses(cs) + [c.address];
    assert multiset(Addresses(cs + [c])) == multiset(Addresses(cs)) + multiset{c.address};
    assert c.address in multiset(rest);
    WithoutMultiset(rest, c.address);
  }

  /** Deactivating active contracts, in any order, leaves the others active. */
  lemma {:induction false} DeactivateSome(cfg: Config, stock: Topo, active: seq<string>, topo: Topo, cs: seq<Contract>)
    returns (left: seq<string>)
    requires Refines(cfg, stock, active, topo)
    requires forall i :: 0 <= i < |cs| ==> Separate(stock, cs[i]) && IsParty(stock, cs[i])
    requires multiset(Addresses(cs)) <= multiset(active)
    ensures Remaining(active, cs, left) && Refines(cfg, stock, left, Run(cfg, topo, Deactivations(cs)))
  {
    hide Apply, Separate, IsParty, Refines;
    if |cs| == 0 {
      left := active;
    } else {
      var n := |cs| - 1;
      var init := cs[..n];
      assert cs == init + [cs[n]];
      assert Addresses(cs) == Addresses(init) + [cs[n].address];
      var rest := DeactivateSome(cfg, stock, active, topo, init);
      DeactivateOne(cfg, stock, active, topo, init, cs[n], rest);
      left := Without(rest, cs[n].address);
    }
  }

  /** Deactivating every active contract, in any order, brings back the stock topology. */
  lemma DeactivateAll(cfg: Config, stock: Topo, active: seq<string>, topo: Topo, cs: seq<Contract>)
    requires Refines(cfg, stock, active, topo)
    requires forall i :: 0 <= i < |cs| ==> Separate(stock, cs[i]) && IsParty(stock, cs[i])
    requires multiset(Addresses(cs)) == multiset(active)
    ensures Run(cfg, topo, Deactivations(cs)) == stock
  {
    hide Run, Separate, IsParty;
    var left := DeactivateSome(cfg, stock, active, topo, cs);
    assert |multiset(left)| == |left|;
  }
}
