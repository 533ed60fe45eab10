/**
 * The reloader: contracts are activated and deactivated in the stored topology. Dictionaries are
 * sequences of keyed items in insertion order, since deactivation removes the first match it meets.
 */
module Topology {
  import opened Outcomes
  import opened Text
  import opened Conversion
  import opened LowestFree

  datatype Item<V> = Item(key: string, value: V)

  datatype Iface = Iface(public: string, remote: string, isdAs: string, mtu: int, linkTo: string)
  datatype Router = Router(internal: string, interfaces: seq<Item<Iface>>)
  datatype Topo = Topo(isdAs: string, routers: seq<Item<Router>>)

  datatype Contract = Contract(seller: string, buyer: string, address: string, mtu: int, linkTo: string)
  datatype Info = Info(remoteIa: string, remote: string, mtu: int, linkTo: string)

  /** Parameters of the reloader; `router` gives the local address towards a remote one. */
  datatype Config = Config(ip6: Ip6Codec, internal: string, router: Ip -> Ip, minPort: int, maxPort: int)

  datatype Error = NotOurs | BadText | NoFreePort | NotFound | NoRouter

  // ---------------------------------------------------------------- dictionaries

  predicate HasKey<V>(d: seq<Item<V>>, key: string) {
    exists i :: 0 <= i < |d| && d[i].key == key
  }

  /** `d[key] = value`: replaced in place, or appended. */
  function Put<V>(d: seq<Item<V>>, key: string, value: V): seq<Item<V>> {
    if |d| == 0 then [Item(key, value)]
    else if d[0].key == key then [Item(key, value)] + d[1..]
    else [d[0]] + Put(d[1..], key, value)
  }

  function Get<V>(d: seq<Item<V>>, key: string): (r: Option<V>)
    ensures r.Some? <==> HasKey(d, key)
  {
    if |d| == 0 then None
    else if d[0].key == key then Some(d[0].value)
    else
      assert forall i :: 0 < i < |d| ==> d[i] == d[1..][i - 1];
      assert forall i :: 0 <= i < |d| - 1 ==> d[1..][i] == d[i + 1];
      Get(d[1..], key)
  }

  /** `del d[key]`. */
  function Delete<V>(d: seq<Item<V>>, key: string): seq<Item<V>> {
    if |d| == 0 then []
    else if d[0].key == key then d[1..]
    else [d[0]] + Delete(d[1..], key)
  }

  /** Collects one value per interface, over all routers; None when one of them raises. */
  function CollectIfs<T>(f: Item<Iface> -> Option<T>, ifs: seq<Item<Iface>>): Option<seq<T>> {
    if |ifs| == 0 then Some([])
    else
      var x :- f(ifs[0]);
      var rest :- CollectIfs(f, ifs[1..]);
      Some([x] + rest)
  }

  function Collect<T>(f: Item<Iface> -> Option<T>, routers: seq<Item<Router>>): Option<seq<T>> {
    if |routers| == 0 then Some([])
    else
      var xs :- CollectIfs(f, routers[0].value.interfaces);
      var rest :- Collect(f, routers[1..]);
      Some(xs + rest)
  }

  function IdOf(): Item<Iface> -> Option<int> {
    (i: Item<Iface>) => ParseInt(i.key, 10)
  }

  function PublicOf(codec: Ip6Codec): Item<Iface> -> Option<(Ip, int)> {
    (i: Item<Iface>) => IpPort(codec, i.value.public)
  }

  function PortsOn(publics: seq<(Ip, int)>, ip: Ip): seq<int> {
    if |publics| == 0 then []
    else (if publics[0].0 == ip then [publics[0].1] else []) + PortsOn(publics[1..], ip)
  }

  // ---------------------------------------------------------------- activation

  /** `br<isd_as>-1111` with colons replaced. */
  function EsdxName(isdAs: string): string {
    "br" + Join(Split(isdAs, ':'), '_') + "-1111"
  }

  /** Seller or buyer side of a contract, seen from the local AS. */
  function InfoOf(topo: Topo, c: Contract): Result<Info, Error> {
    if topo.isdAs == c.seller then Ok(Info(c.buyer, c.address, c.mtu, c.linkTo))
    else if topo.isdAs == c.buyer then Ok(Info(c.seller, c.address, c.mtu, c.linkTo))
    else Err(NotOurs)
  }

  /** The local AS sells or buys in this contract. */
  predicate IsParty(topo: Topo, c: Contract) {
    topo.isdAs == c.seller || topo.isdAs == c.buyer
  }

  /** Adds an interface to the router of that name. */
  function AddIface(routers: seq<Item<Router>>, name: string, key: string, iface: Iface): seq<Item<Router>> {
    if |routers| == 0 then []
    else if routers[0].key == name then
      var r := routers[0].value;
      [Item(name, r.(interfaces := Put(r.interfaces, key, iface)))] + routers[1..]
    else [routers[0]] + AddIface(routers[1..], name, key, iface)
  }

  function WithEsdx(cfg: Config, topo: Topo): seq<Item<Router>> {
    var name := EsdxName(topo.isdAs);
    if HasKey(topo.routers, name) then topo.routers
    else topo.routers + [Item(name, Router(cfg.internal, []))]
  }

  /** The id and the public port that an activation picks. */
  ghost function Allocate(cfg: Config, topo: Topo, remote: string): Result<(int, Ip, int), Error> {
    var ids :- OrErr(Collect(IdOf(), topo.routers), BadText);
    var publics :- OrErr(Collect(PublicOf(cfg.ip6), topo.routers), BadText);
    var target :- OrErr(IpPort(cfg.ip6, remote), BadText);
    var ip := cfg.router(target.0);
    var port := Lowest(PortsOn(publics, ip), cfg.minPort);
    if port > cfg.maxPort then Err(NoFreePort) else Ok((Lowest(ids, 1), ip, port))
  }

  ghost function AddContract(cfg: Config, topo: Topo, info: Info): Result<Topo, Error> {
    var (id, ip, port) :- Allocate(cfg, topo, info.remote);
    var iface := Iface(IpPortToStr(cfg.ip6, ip, port), info.remote, info.remoteIa, info.mtu, info.linkTo);
    Ok(topo.(routers := AddIface(WithEsdx(cfg, topo), EsdxName(topo.isdAs), ShowInt(id), iface)))
  }

  // ---------------------------------------------------------------- deactivation

  function RemoveIf(ifs: seq<Item<Iface>>, remote: string): Option<seq<Item<Iface>>> {
    if |ifs| == 0 then None
    else if ifs[0].value.remote == remote then Some(ifs[1..])
    else
      var rest :- RemoveIf(ifs[1..], remote);
      Some([ifs[0]] + rest)
  }

  /** The first interface with that remote, in the order of routers and interfaces, is removed. */
  function RemoveFrom(routers: seq<Item<Router>>, remote: string): Option<seq<Item<Router>>> {
    if |routers| == 0 then None
    else
      var r := routers[0].value;
      match RemoveIf(r.interfaces, remote)
      case Some(ifs) => Some([Item(routers[0].key, r.(interfaces := ifs))] + routers[1..])
      case None =>
        var rest :- RemoveFrom(routers[1..], remote);
        Some([routers[0]] + rest)
  }

  function RemoveContract(topo: Topo, info: Info): Result<Topo, Error> {
    var name := EsdxName(topo.isdAs);
    var routers :- OrErr(RemoveFrom(topo.routers, info.remote), NotFound);
    var esdx :- OrErr(Get(routers, name), NoRouter);
    Ok(topo.(routers := if |esdx.interfaces| == 0 then Delete(routers, name) else routers))
  }

  // ---------------------------------------------------------------- operations on the stored topology

  datatype Op = Activate(c: Contract) | Deactivate(c: Contract)

  ghost function Apply(cfg: Config, topo: Topo, op: Op): Result<Topo, Error> {
    var info :- InfoOf(topo, op.c);
    match op
    case Activate(_) => AddContract(cfg, topo, info)
    case Deactivate(_) => RemoveContract(topo, info)
  }

  /** The stored topology after some operations; one that raises leaves it unchanged. */
  ghost function Run(cfg: Config, topo: Topo, ops: seq<Op>): Topo {
    if |ops| == 0 then topo
    else
      var before := Run(cfg, topo, ops[..|ops| - 1]);
      var r := Apply(cfg, before, ops[|ops| - 1]);
      if r.Ok? then r.value else before
  }

  /** The topology file and the two operations on it, inside the lock. */
  class Reloader {
    const cfg: Config
    var file: Topo

    constructor (cfg: Config, topo: Topo)
      ensures this.cfg == cfg && file == topo
    {
      this.cfg := cfg;
      file := topo;
    }

    method Activate(c: Contract) returns (r: Result<(), Error>)
      modifies this
      ensures match Apply(cfg, old(file), Op.Activate(c))
        case Ok(topo) => r == Ok(()) && file == topo
        case Err(e) => r == Err(e) && file == old(file)
    {
      var topo := file;
      var info := InfoOf(topo, c);
      if info.Err? {
        return Err(info.error);
      }
      var added := AddContractToTopo(topo, info.value);
      if added.Err? {
        return Err(added.error);
      }
      file := added.value;
      return Ok(());
    }

    /** Scans all routers once, then allocates and adds the new interface. */
    method AddContractToTopo(topo: Topo, info: Info) returns (r: Result<Topo, Error>)
      ensures r == AddContract(cfg, topo, info)
    {
      hide IpPort, IpPortToStr, EsdxName, ShowInt, AddIface, PortsOn, Lowest, CollectIfs, ParseInt;
      var name := EsdxName(topo.isdAs);
      var ids: seq<int> := [];
      var publics: seq<(Ip, int)> := [];
      var present := false;
      for k := 0 to |topo.routers|
        invariant Collect(IdOf(), topo.routers[..k]) == Some(ids)
        invariant Collect(PublicOf(cfg.ip6), topo.routers[..k]) == Some(publics)
        invariant present <==> HasKey(topo.routers[..k], name)
      {
        var item := topo.routers[k];
        var newIds := CollectIfs(IdOf(), item.value.interfaces);
        var newPublics := CollectIfs(PublicOf(cfg.ip6), item.value.interfaces);
        CollectStep(IdOf(), topo.routers, k);
        CollectStep(PublicOf(cfg.ip6), topo.routers, k);
        if newIds.None? || newPublics.None? {
          return Err(BadText);
        }
        ids := ids + newIds.value;
        publics := publics + newPublics.value;
        HasKeyStep(topo.routers, k, name);
        if item.key == name {
          present := true;
        }
      }
      assert topo.routers[..|topo.routers|] == topo.routers;
      var routers := if present then topo.routers else topo.routers + [Item(name, Router(cfg.internal, []))];
      var id := FindLowestFreeValue(ids, 1);
      var remote := IpPort(cfg.ip6, info.remote);
      if remote.None? {
        return Err(BadText);
      }
      var ip := cfg.router(remote.value.0);
      var port := FindLowestFreeValue(PortsOn(publics, ip), cfg.minPort);
      if port > cfg.maxPort {
        return Err(NoFreePort);
      }
      var iface := Iface(IpPortToStr(cfg.ip6, ip, port), info.remote, info.remoteIa, info.mtu, info.linkTo);
      return Ok(topo.(routers := AddIface(routers, name, ShowInt(id), iface)));
    }

    method Deactivate(c: Contract) returns (r: Result<(), Error>)
      modifies this
      ensures match Apply(cfg, old(file), Op.Deactivate(c))
        case Ok(topo) => r == Ok(()) && file == topo
        case Err(e) => r == Err(e) && file == old(file)
    {
      var topo := file;
      var info := InfoOf(topo, c);
      if info.Err? {
        return Err(info.error);
      }
      var removed := RemoveInterface(topo, info.value);
      if removed.Err? {
        return Err(removed.error);
      }
      file := removed.value;
      return Ok(());
    }

    /** Removes the first interface with the remote, and then the ESDX router if that left it empty. */
    method RemoveInterface(topo: Topo, info: Info) returns (r: Result<Topo, Error>)
      ensures r == RemoveContract(topo, info)
    {
      var name := EsdxName(topo.isdAs);
      var routers := RemoveInterfaceFromBr(topo.routers, info.remote);
      if routers.None? {
        return Err(NotFound);
      }
      var esdx := Get(routers.value, name);
      if esdx.None? {
        return Err(NoRouter);
      }
      var left := routers.value;
      if |esdx.value.interfaces| == 0 {
        left := Delete(left, name);
      }
      return Ok(topo.(routers := left));
    }

    method RemoveInterfaceFromBr(routers: seq<Item<Router>>, remote: string) returns (r: Option<seq<Item<Router>>>)
      ensures r == RemoveFrom(routers, remote)
    {
      assert routers[0..] == routers;
      PrefixedEmpty(RemoveFrom(routers, remote));
      for k := 0 to |routers|
        invariant RemoveFrom(routers, remote) == Prefixed(routers[..k], RemoveFrom(routers[k..], remote))
      {
        var item := routers[k];
        var ifs := item.value.interfaces;
        assert ifs[0..] == ifs;
        PrefixedEmpty(RemoveIf(ifs, remote));
        for j := 0 to |ifs|
          invariant RemoveIf(ifs, remote) == Prefixed(ifs[..j], RemoveIf(ifs[j..], remote))
        {
          if ifs[j].value.remote == remote {
            assert ifs[j..][1..] == ifs[j + 1..] && routers[k..][1..] == routers[k + 1..];
            var left := ifs[..j] + ifs[j + 1..];
            var updated := Item(item.key, item.value.(interfaces := left));
            assert RemoveFrom(routers[k..], remote) == Some([updated] + routers[k + 1..]);
            return Some(routers[..k] + ([updated] + routers[k + 1..]));
          }
          assert ifs[j..][1..] == ifs[j + 1..];
          PrefixStep(ifs, j, RemoveIf(ifs[j + 1..], remote));
        }
        assert routers[k..][1..] == routers[k + 1..];
        assert ifs[|ifs|..] == [];
        PrefixStep(routers, k, RemoveFrom(routers[k + 1..], remote));
      }
      assert routers[|routers|..] == [];
      return None;
    }
  }

  function Prefixed<T>(head: seq<T>, tail: Option<seq<T>>): Option<seq<T>> {
    if tail.Some? then Some(head + tail.value) else None
  }

  lemma PrefixedEmpty<T>(tail: Option<seq<T>>)
    ensures Prefixed([], tail) == tail
  {
    assert tail.Some? ==> [] + tail.value == tail.value;
  }

  lemma PrefixStep<T>(s: seq<T>, k: nat, tail: Option<seq<T>>)
    requires k < |s|
    ensures Prefixed(s[..k], Prefixed([s[k]], tail)) == Prefixed(s[..k + 1], tail)
  {
    if tail.Some? {
      assert s[..k] + ([s[k]] + tail.value) == s[..k + 1] + tail.value;
    }
  }

  lemma {:induction false} CollectConcat<T>(f: Item<Iface> -> Option<T>, a: seq<Item<Router>>, b: seq<Item<Router>>)
    ensures Collect(f, a + b) ==
      if Collect(f, a).Some? && Collect(f, b).Some? then Some(Collect(f, a).value + Collect(f, b).value) else None
  {
    if |a| == 0 {
      assert a + b == b;
      assert Collect(f, b).Some? ==> [] + Collect(f, b).value == Collect(f, b).value;
    } else {
      assert (a + b)[1..] == a[1..] + b && (a + b)[0] == a[0];
      CollectConcat(f, a[1..], b);
      var xs := CollectIfs(f, a[0].value.interfaces);
      if xs.Some? && Collect(f, a[1..]).Some? && Collect(f, b).Some? {
        assert xs.value + (Collect(f, a[1..]).value + Collect(f, b).value)
          == xs.value + Collect(f, a[1..]).value + Collect(f, b).value;
      }
    }
  }

  /** One more router scanned; a router that raises makes the whole scan raise. */
  lemma CollectStep<T>(f: Item<Iface> -> Option<T>, routers: seq<Item<Router>>, k: nat)
    requires k < |routers| && Collect(f, routers[..k]).Some?
    ensures var xs := CollectIfs(f, routers[k].value.interfaces);
      && (xs.None? ==> Collect(f, routers).None?)
      && (xs.Some? ==> Collect(f, routers[..k + 1]) == Some(Collect(f, routers[..k]).value + xs.value))
  {
    hide Collect, CollectIfs;
    var one := [routers[k]];
    CollectOne(f, routers[k]);
    assert routers[..k + 1] == routers[..k] + one;
    CollectConcat(f, routers[..k], one);
    assert routers == routers[..k + 1] + routers[k + 1..];
    CollectConcat(f, routers[..k + 1], routers[k + 1..]);
  }

  lemma CollectOne<T>(f: Item<Iface> -> Option<T>, router: Item<Router>)
    ensures Collect(f, [router]) == CollectIfs(f, router.value.interfaces)
  {
    hide CollectIfs;
    var one, xs := [router], CollectIfs(f, router.value.interfaces);
    assert one[1..] == [];
    assert xs.Some? ==> xs.value + [] == xs.value;
  }

  lemma HasKeyStep<V>(d: seq<Item<V>>, k: nat, key: string)
    requires k < |d|
    ensures HasKey(d[..k + 1], key) <==> HasKey(d[..k], key) || d[k].key == key
  {
    assert d[..k + 1] == d[..k] + [d[k]];
    if d[k].key == key {
      assert d[..k + 1][k].key == key;
    }
    if HasKey(d[..k], key) {
      var i :| 0 <= i < k && d[..k][i].key == key;
      assert d[..k + 1][i].key == key;
    }
  }
}
